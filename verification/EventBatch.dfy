/** The event stream's batch (server/app/grpc_server/agent_servicer.py,
    StreamEvents): two coroutines, the request loop and a periodic flush, that
    share a list. Code between two awaits is one step. */
module EventBatch {
  import opened Base
  import opened Loki

  const BATCH_SIZE: nat := 50

  /** One call of `loki.push`: its events, which were received from `from` on. */
  datatype PushCall = PushCall(from: nat, events: seq<IngestEvent>)

  /** One `batch.clear()`: the push it follows, how many pushes had begun by
      then and how many events had been received. */
  datatype Clear = Clear(push: nat, begun: nat, at: nat)

  datatype MainTask = Receiving | Acked | Flushing(push: nat) | Closing | LastFlush(push: nat) | Closed

  datatype PeriodicTask = Sleeping | Pushing(push: nat) | Cancelled

  /** `received`, `pushes` and `clears` record the run. */
  datatype State = State(
    batch: seq<IngestEvent>, main: MainTask, periodic: PeriodicTask,
    received: seq<IngestEvent>, pushes: seq<PushCall>, clears: seq<Clear>)
  {
    /** The first received event that is still in the batch. */
    function Start(): int { |received| - |batch| }
  }

  const INITIAL := State([], Receiving, Sleeping, [], [], [])

  /** How an awaited push comes back; `Failed` is an exception that the flush
      logs, `Interrupted` the cancellation of the awaiting task. */
  datatype Outcome = Stored | Failed | Interrupted

  function Normalized(e: IngestEvent): IngestEvent { if e.severity == "" then e.(severity := "info") else e }

  /** An event without a severity is stored as `info`, everything else as sent. */
  ghost predicate IsStoredAs(sent: IngestEvent, stored: IngestEvent) {
    && stored.severity == (if |sent.severity| == 0 then "info" else sent.severity)
    && stored.eventId == sent.eventId && stored.hostId == sent.hostId && stored.timestamp == sent.timestamp
    && stored.source == sent.source && stored.raw == sent.raw && stored.fields == sent.fields
  }

  ghost predicate Appends(before: seq<IngestEvent>, after: seq<IngestEvent>, sent: IngestEvent) {
    && |after| == |before| + 1 && after[..|before|] == before
    && IsStoredAs(sent, after[|before|])
  }

  /** The `finally` block up to its flush: the periodic task is cancelled, and
      a push that it awaits is interrupted. */
  function CloseState(s: State): State { s.(main := Closing, periodic := Cancelled) }

  /** A message arrives; `owner` is the host its id names, if it is well formed. */
  function ReceiveState(s: State, peer: HostId, owner: Option<HostId>, e: IngestEvent): State {
    if owner != Some(peer) then CloseState(s)
    else s.(batch := s.batch + [Normalized(e)], received := s.received + [Normalized(e)], main := Acked)
  }

  function BeginPush(s: State): State {
    s.(pushes := s.pushes + [PushCall(if s.Start() >= 0 then s.Start() else 0, s.batch)])
  }

  function ClearBatch(s: State, push: nat): State {
    s.(batch := [], clears := s.clears + [Clear(push, |s.pushes|, |s.received|)])
  }

  function ResumeState(s: State): State {
    if |s.batch| < BATCH_SIZE then s.(main := Receiving) else BeginPush(s).(main := Flushing(|s.pushes|))
  }

  function WakeState(s: State): State {
    if s.batch == [] then s else BeginPush(s).(periodic := Pushing(|s.pushes|))
  }

  function LastFlushState(s: State): State {
    if s.batch == [] then s.(main := Closed) else BeginPush(s).(main := LastFlush(|s.pushes|))
  }

  function MainPushEndsState(s: State, outcome: Outcome): State
    requires s.main.Flushing?
  {
    if outcome == Interrupted then CloseState(s) else ClearBatch(s, s.main.push).(main := Receiving)
  }

  function PeriodicPushEndsState(s: State): State
    requires s.periodic.Pushing?
  {
    ClearBatch(s, s.periodic.push).(periodic := Sleeping)
  }

  function LastPushEndsState(s: State, outcome: Outcome): State
    requires s.main.LastFlush?
  {
    (if outcome == Interrupted then s else ClearBatch(s, s.main.push)).(main := Closed)
  }

  // ------------------------------------------------------------ the two tasks

  /** The last three fields only record the run. */
  class EventStream {
    const peer: HostId
    var batch: seq<IngestEvent>
    var main: MainTask
    var periodic: PeriodicTask
    var received: seq<IngestEvent>
    var pushes: seq<PushCall>
    var clears: seq<Clear>

    ghost function Now(): State
      reads this
    {
      State(batch, main, periodic, received, pushes, clears)
    }

    constructor (peer: HostId)
      ensures this.peer == peer && Now() == INITIAL
    {
      this.peer := peer;
      batch, main, periodic := [], Receiving, Sleeping;
      received, pushes, clears := [], [], [];
    }

    /** The stream ends, for either side's reason, while no push is awaited. */
    method Close()
      modifies this
      ensures Now() == CloseState(old(Now()))
    {
      periodic := Cancelled;
      main := Closing;
    }

    method Receive(owner: Option<HostId>, e: IngestEvent) returns (stored: bool)
      modifies this
      ensures Now() == ReceiveState(old(Now()), peer, owner, e)
      ensures stored <==> owner == Some(peer)
      ensures stored ==> Appends(old(batch), batch, e) && Appends(old(received), received, e) && main == Acked
      ensures !stored ==> batch == old(batch) && received == old(received) && main == Closing
    {
      if owner != Some(peer) {
        Close();
        return false;
      }
      var event := if e.severity == "" then e.(severity := "info") else e;
      batch := batch + [event];
      received := received + [event];
      main := Acked;
      stored := true;
    }

    /** The first half of `flush`, up to its await: what to push, if anything. */
    method BeginFlush() returns (snapshot: Option<seq<IngestEvent>>)
      modifies `pushes
      ensures snapshot == if batch == [] then None else Some(batch)
      ensures Now() == if batch == [] then old(Now()) else BeginPush(old(Now()))
    {
      if batch == [] { return None; }
      snapshot := Some(batch);
      pushes := pushes + [PushCall(if |received| >= |batch| then |received| - |batch| else 0, batch)];
    }

    /** The second half of `flush`: a stored and a failed push both clear. */
    method EndFlush(push: nat, outcome: Outcome)
      modifies `batch, `clears
      ensures Now() == if outcome == Interrupted then old(Now()) else ClearBatch(old(Now()), push)
    {
      if outcome == Interrupted { return; }
      batch := [];
      clears := clears + [Clear(push, |pushes|, |received|)];
    }

    /** The request loop goes on after its acknowledgement was taken. */
    method Resume()
      modifies this
      ensures Now() == ResumeState(old(Now()))
      ensures |old(batch)| < 50 <==> main == Receiving
      ensures |old(batch)| >= 50 ==> main == Flushing(|old(pushes)|) && |pushes| == |old(pushes)| + 1
      ensures |old(batch)| >= 50 ==> pushes[|old(pushes)|].events == old(batch)
    {
      if |batch| >= BATCH_SIZE {
        var push := |pushes|;
        var snapshot := BeginFlush();
        main := Flushing(push);
      } else {
        main := Receiving;
      }
    }

    method Wake()
      modifies this
      ensures Now() == WakeState(old(Now()))
    {
      var push := |pushes|;
      var snapshot := BeginFlush();
      if snapshot.Some? {
        periodic := Pushing(push);
      }
    }

    method MainPushEnds(outcome: Outcome)
      requires main.Flushing?
      modifies this
      ensures Now() == MainPushEndsState(old(Now()), outcome)
    {
      EndFlush(main.push, outcome);
      if outcome == Interrupted {
        Close();
      } else {
        main := Receiving;
      }
    }

    method PeriodicPushEnds(outcome: Outcome)
      requires periodic.Pushing? && outcome != Interrupted
      modifies this
      ensures Now() == PeriodicPushEndsState(old(Now()))
    {
      EndFlush(periodic.push, outcome);
      periodic := Sleeping;
    }

    method FlushLast()
      modifies this
      ensures Now() == LastFlushState(old(Now()))
    {
      var push := |pushes|;
      var snapshot := BeginFlush();
      main := if snapshot.Some? then LastFlush(push) else Closed;
    }

    method LastPushEnds(outcome: Outcome)
      requires main.LastFlush?
      modifies this
      ensures Now() == LastPushEndsState(old(Now()), outcome)
    {
      EndFlush(main.push, outcome);
      main := Closed;
    }
  }
}
