/** What every interleaving of an event stream's two tasks keeps. */
module EventBatchTheorems {
  import opened Base
  import opened Loki
  import opened EventBatch

  datatype Step =
    | Receive(owner: Option<HostId>, event: IngestEvent)
    | Resume
    | HangUp
    | MainPushEnds(outcome: Outcome)
    | Wake
    | PeriodicPushEnds
    | FlushLast
    | LastPushEnds(outcome: Outcome)

  ghost predicate Enabled(s: State, step: Step) {
    match step
    case Receive(_, _) => s.main.Receiving?
    case Resume => s.main.Acked?
    case HangUp => s.main.Receiving? || s.main.Acked?
    case MainPushEnds(_) => s.main.Flushing?
    case Wake => s.periodic.Sleeping?
    case PeriodicPushEnds => s.periodic.Pushing?
    case FlushLast => s.main.Closing?
    case LastPushEnds(_) => s.main.LastFlush?
  }

  ghost function Apply(peer: HostId, s: State, step: Step): State
    requires Enabled(s, step)
  {
    match step
    case Receive(owner, event) => ReceiveState(s, peer, owner, event)
    case Resume => ResumeState(s)
    case HangUp => CloseState(s)
    case MainPushEnds(outcome) => MainPushEndsState(s, outcome)
    case Wake => WakeState(s)
    case PeriodicPushEnds => PeriodicPushEndsState(s)
    case FlushLast => LastFlushState(s)
    case LastPushEnds(outcome) => LastPushEndsState(s, outcome)
  }

  ghost predicate IsRun(peer: HostId, states: seq<State>, steps: seq<Step>) {
    && |states| == |steps| + 1
    && states[0] == INITIAL
    && forall i :: 0 <= i < |steps| ==>
      Enabled(states[i], steps[i]) && states[i + 1] == Apply(peer, states[i], steps[i])
  }

  // --------------------------------------------------------------- invariants

  function EndOf(p: PushCall): nat { p.from + |p.events| }

  /** The batch is the tail of what was received, and never over its size. */
  ghost predicate BatchInv(s: State) {
    && |s.batch| <= |s.received|
    && s.batch == s.received[s.Start()..]
    && |s.batch| <= BATCH_SIZE
    && (s.main.Receiving? ==> |s.batch| < BATCH_SIZE)
    && (s.main.Closing? || s.main.LastFlush? || s.main.Closed? ==> s.periodic == Cancelled)
  }

  ghost predicate PushInv(s: State, p: PushCall) {
    && EndOf(p) <= |s.received|
    && p.from <= s.Start()
    && p.events == s.received[p.from..EndOf(p)]
    && 0 < |p.events| <= BATCH_SIZE
  }

  ghost predicate PushesInv(s: State) {
    && (forall i :: 0 <= i < |s.pushes| ==> PushInv(s, s.pushes[i]))
    && (forall i, j :: 0 <= i < j < |s.pushes| ==>
      s.pushes[i].from <= s.pushes[j].from && EndOf(s.pushes[i]) <= EndOf(s.pushes[j]))
    && (s.main.Flushing? || s.main.LastFlush? ==> s.main.push < |s.pushes|)
    && (s.periodic.Pushing? ==> s.periodic.push < |s.pushes|)
  }

  ghost predicate ClearInv(s: State, c: Clear) {
    && c.push < c.begun <= |s.pushes|
    && c.at <= s.Start()
    && EndOf(s.pushes[c.begun - 1]) <= c.at
    && forall i :: c.begun <= i < |s.pushes| ==> c.at <= s.pushes[i].from
  }

  ghost predicate ClearsInv(s: State) {
    forall i :: 0 <= i < |s.clears| ==> ClearInv(s, s.clears[i])
  }

  ghost predicate InBatch(s: State, k: int) { s.Start() <= k < |s.received| }

  ghost predicate InPush(s: State, k: int) {
    exists i :: 0 <= i < |s.pushes| && s.pushes[i].from <= k < EndOf(s.pushes[i])
  }

  /** Received after the last snapshot that a clear could know of, and before it. */
  ghost predicate InWindow(s: State, k: int) {
    exists i :: 0 <= i < |s.clears| && IsWindow(s, s.clears[i], k)
  }

  ghost predicate IsWindow(s: State, c: Clear, k: int) {
    0 < c.begun <= |s.pushes| && EndOf(s.pushes[c.begun - 1]) <= k < c.at
  }

  ghost predicate AccountInv(s: State) {
    forall k :: 0 <= k < s.Start() ==> InPush(s, k) || InWindow(s, k)
  }

  lemma StepKeepsBatch(peer: HostId, s: State, step: Step)
    requires Enabled(s, step) && BatchInv(s)
    ensures BatchInv(Apply(peer, s, step))
  {
  }

  lemma StepKeepsPush(peer: HostId, s: State, step: Step, p: PushCall)
    requires Enabled(s, step) && BatchInv(s) && PushInv(s, p)
    ensures PushInv(Apply(peer, s, step), p)
  {
  }

  lemma StepKeepsPushes(peer: HostId, s: State, step: Step)
    requires Enabled(s, step) && BatchInv(s) && PushesInv(s)
    ensures PushesInv(Apply(peer, s, step))
  {
    var t := Apply(peer, s, step);
    forall i | 0 <= i < |t.pushes| ensures PushInv(t, t.pushes[i]) {
      if i < |s.pushes| {
        StepKeepsPush(peer, s, step, s.pushes[i]);
      }
    }
  }

  lemma StepKeepsClears(peer: HostId, s: State, step: Step)
    requires Enabled(s, step) && BatchInv(s) && PushesInv(s) && ClearsInv(s)
    ensures ClearsInv(Apply(peer, s, step))
  {
    var t := Apply(peer, s, step);
    forall i | 0 <= i < |t.clears| ensures ClearInv(t, t.clears[i]) {
      if i < |s.clears| {
        assert ClearInv(s, s.clears[i]);
      }
    }
  }

  lemma StepKeepsWhereabouts(peer: HostId, s: State, step: Step, k: int)
    requires Enabled(s, step) && BatchInv(s) && PushesInv(s)
    requires InPush(s, k) || InWindow(s, k)
    ensures InPush(Apply(peer, s, step), k) || InWindow(Apply(peer, s, step), k)
  {
    var t := Apply(peer, s, step);
    if InPush(s, k) {
      var i :| 0 <= i < |s.pushes| && s.pushes[i].from <= k < EndOf(s.pushes[i]);
      assert t.pushes[i] == s.pushes[i];
    } else {
      var i :| 0 <= i < |s.clears| && IsWindow(s, s.clears[i], k);
      assert t.clears[i] == s.clears[i];
      assert IsWindow(t, t.clears[i], k);
    }
  }

  lemma StepKeepsAccount(peer: HostId, s: State, step: Step)
    requires Enabled(s, step) && BatchInv(s) && PushesInv(s) && AccountInv(s)
    ensures AccountInv(Apply(peer, s, step))
  {
    var t := Apply(peer, s, step);
    forall k | 0 <= k < t.Start() ensures InPush(t, k) || InWindow(t, k) {
      if k < s.Start() {
        StepKeepsWhereabouts(peer, s, step, k);
      } else {
        // The step cleared the batch that held `k`.
        var last := s.pushes[|s.pushes| - 1];
        if k < EndOf(last) {
          assert t.pushes[|s.pushes| - 1] == last;
        } else {
          assert IsWindow(t, t.clears[|s.clears|], k);
        }
      }
    }
  }

  lemma {:induction false} RunKeepsInv(peer: HostId, states: seq<State>, steps: seq<Step>, n: nat)
    requires IsRun(peer, states, steps) && n < |states|
    ensures BatchInv(states[n]) && PushesInv(states[n]) && ClearsInv(states[n]) && AccountInv(states[n])
  {
    if n > 0 {
      RunKeepsInv(peer, states, steps, n - 1);
      StepKeepsBatch(peer, states[n - 1], steps[n - 1]);
      StepKeepsPushes(peer, states[n - 1], steps[n - 1]);
      StepKeepsClears(peer, states[n - 1], steps[n - 1]);
      StepKeepsAccount(peer, states[n - 1], steps[n - 1]);
    }
  }

  // ----------------------------------------------------------------- theorems

  /** Exact accounting: a received event is neither in the batch nor in any
      push if and only if it came between the latest snapshot and a clear.
      Pushes hold what was received, in order, and batches stay small. */
  lemma EventIsLostIff(peer: HostId, states: seq<State>, steps: seq<Step>, n: nat, k: nat)
    requires IsRun(peer, states, steps) && n < |states| && k < |states[n].received|
    ensures !InBatch(states[n], k) && !InPush(states[n], k) <==> InWindow(states[n], k)
  {
    var s := states[n];
    RunKeepsInv(peer, states, steps, n);
    if InWindow(s, k) {
      var i :| 0 <= i < |s.clears| && IsWindow(s, s.clears[i], k);
      var c := s.clears[i];
      assert ClearInv(s, c);
      forall j | 0 <= j < |s.pushes| ensures !(s.pushes[j].from <= k < EndOf(s.pushes[j])) {
        if j < c.begun - 1 {
          assert EndOf(s.pushes[j]) <= EndOf(s.pushes[c.begun - 1]);
        }
      }
    }
  }

  /** Received after the snapshot of the clear's own push, and before the clear. */
  ghost predicate IsOwnWindow(s: State, c: Clear, k: int) {
    c.push < |s.pushes| && EndOf(s.pushes[c.push]) <= k < c.at
  }

  /** A lost event came between the snapshot of some flush and its own clear. */
  lemma LostBetweenSnapshotAndClear(peer: HostId, states: seq<State>, steps: seq<Step>, n: nat, k: nat)
    requires IsRun(peer, states, steps) && n < |states| && k < |states[n].received|
    requires !InBatch(states[n], k) && !InPush(states[n], k)
    ensures exists i :: 0 <= i < |states[n].clears| && IsOwnWindow(states[n], states[n].clears[i], k)
  {
    var s := states[n];
    EventIsLostIff(peer, states, steps, n, k);
    RunKeepsInv(peer, states, steps, n);
    var i :| 0 <= i < |s.clears| && IsWindow(s, s.clears[i], k);
    assert ClearInv(s, s.clears[i]);
    var c := s.clears[i];
    assert c.push < c.begun - 1 ==> EndOf(s.pushes[c.push]) <= EndOf(s.pushes[c.begun - 1]);
    assert IsOwnWindow(s, c, k);
  }

  ghost predicate Clears(s: State, step: Step) {
    || step.PeriodicPushEnds?
    || ((step.MainPushEnds? || step.LastPushEnds?) && step.outcome != Interrupted)
  }

  /** A clear loses no event exactly when the batch was empty already or
      nothing arrived since the latest snapshot. */
  lemma ClearLosesNothingIff(peer: HostId, s: State, step: Step)
    requires Enabled(s, step) && BatchInv(s) && PushesInv(s) && Clears(s, step)
    ensures (forall k :: InBatch(s, k) ==> InPush(Apply(peer, s, step), k)) <==>
      s.batch == [] || EndOf(s.pushes[|s.pushes| - 1]) == |s.received|
  {
    var t := Apply(peer, s, step);
    var last := s.pushes[|s.pushes| - 1];
    if s.batch != [] {
      if EndOf(last) == |s.received| {
        forall k | InBatch(s, k) ensures InPush(t, k) {
          assert t.pushes[|s.pushes| - 1] == last;
        }
      } else {
        var k := |s.received| - 1;
        assert InBatch(s, k);
        forall i | 0 <= i < |t.pushes| ensures !(t.pushes[i].from <= k < EndOf(t.pushes[i])) {
          assert t.pushes[i] == s.pushes[i];
          assert i < |s.pushes| - 1 ==> EndOf(s.pushes[i]) <= EndOf(last);
        }
      }
    }
  }

  /** Every push holds between 1 and 50 events, as they were received. */
  lemma PushesAreSlices(peer: HostId, states: seq<State>, steps: seq<Step>, n: nat, i: nat)
    requires IsRun(peer, states, steps) && n < |states| && i < |states[n].pushes|
    ensures var p := states[n].pushes[i];
      && EndOf(p) <= |states[n].received| && p.events == states[n].received[p.from..EndOf(p)]
      && 1 <= |p.events| <= BATCH_SIZE
  {
    RunKeepsInv(peer, states, steps, n);
    assert PushInv(states[n], states[n].pushes[i]);
  }

  // ---------------------------------------------------------------- calm runs

  ghost predicate IsPushing(s: State) { s.main.Flushing? || s.main.LastFlush? || s.periodic.Pushing? }

  /** While a push is awaited nothing happens but its return. */
  ghost predicate IsCalm(states: seq<State>, steps: seq<Step>) {
    && |states| == |steps| + 1
    && forall i :: 0 <= i < |steps| && IsPushing(states[i]) ==> Clears(states[i], steps[i])
  }

  function Sent(pushes: seq<PushCall>): seq<IngestEvent> {
    if pushes == [] then [] else Sent(pushes[..|pushes| - 1]) + pushes[|pushes| - 1].events
  }

  ghost predicate CalmInv(s: State) {
    && !((s.main.Flushing? || s.main.LastFlush?) && s.periodic.Pushing?)
    && if IsPushing(s)
       then s.pushes != [] && Sent(s.pushes) == s.received && s.pushes[|s.pushes| - 1].events == s.batch
       else Sent(s.pushes) + s.batch == s.received
  }

  lemma SentGrows(pushes: seq<PushCall>, p: PushCall)
    ensures Sent(pushes + [p]) == Sent(pushes) + p.events
  {
    assert (pushes + [p])[..|pushes|] == pushes;
  }

  lemma CalmStepKeepsInv(peer: HostId, s: State, step: Step)
    requires Enabled(s, step) && BatchInv(s) && CalmInv(s)
    requires IsPushing(s) ==> Clears(s, step)
    ensures CalmInv(Apply(peer, s, step))
  {
    var t := Apply(peer, s, step);
    if |t.pushes| > |s.pushes| {
      SentGrows(s.pushes, t.pushes[|s.pushes|]);
    } else if step.Receive? && |t.batch| > |s.batch| {
      assert t.received == Sent(s.pushes) + t.batch;
    }
  }

  /** When no append and no flush overlaps a push and none is interrupted, the
      pushed batches, followed by what the batch still holds, are exactly what
      was received. */
  lemma {:induction false} CalmRunSendsAll(peer: HostId, states: seq<State>, steps: seq<Step>, n: nat)
    requires IsRun(peer, states, steps) && IsCalm(states, steps) && n < |states|
    ensures CalmInv(states[n])
    ensures !IsPushing(states[n]) ==> Sent(states[n].pushes) + states[n].batch == states[n].received
  {
    if n > 0 {
      CalmRunSendsAll(peer, states, steps, n - 1);
      RunKeepsInv(peer, states, steps, n - 1);
      CalmStepKeepsInv(peer, states[n - 1], steps[n - 1]);
    }
  }

  // ----------------------------------------------------------------- the loss

  /** An acknowledged event can be lost: it arrives while the periodic push of
      an earlier one is awaited, and the return of that push clears both. */
  lemma AcknowledgedEventIsLost(peer: HostId, a: IngestEvent, b: IngestEvent)
    ensures
      var s1 := Apply(peer, Apply(peer, INITIAL, Receive(Some(peer), a)), Resume);
      var s2 := Apply(peer, Apply(peer, s1, Wake), Receive(Some(peer), b));
      var s3 := Apply(peer, s2, PeriodicPushEnds);
      && s3.received == [Normalized(a), Normalized(b)]
      && s3.pushes == [PushCall(0, [Normalized(a)])] && s3.batch == []
      && !InBatch(s3, 1) && !InPush(s3, 1)
  {
    var x, y := Normalized(a), Normalized(b);
    var s1 := Apply(peer, Apply(peer, INITIAL, Receive(Some(peer), a)), Resume);
    assert s1.batch == [x] && s1.received == [x] && s1.pushes == [];
    var s2 := Apply(peer, Apply(peer, s1, Wake), Receive(Some(peer), b));
    assert s2.batch == [x, y] && s2.received == [x, y] && s2.pushes == [PushCall(0, [x])];
  }
}
