/** From one end of the protocol to the other, in terms of its steps: a final
    status follows the verdict of the handler that ran the command, and a pending
    row, an unblock in particular, is in the host's next answer. */
module ProtocolOutcomes {
  import opened Base
  import opened Actions
  import opened Commands
  import opened Agent
  import opened Protocol
  import opened ProtocolTheorems

  // ------------------------------------------------------------------ verdicts

  /** The step is one in which the agent of `h` runs this command. */
  ghost predicate Runs(w: World, s: Step, h: HostId, cmd: Command) {
    && s.RunOne? && s.host == h && h in w.agents
    && w.agents[h].tick.Executing? && w.agents[h].tick.todo != [] && w.agents[h].tick.todo[0] == cmd
  }

  /** What is logged was run in some step, and reports that step's verdict. */
  lemma {:induction false} LoggedWasRun(ws: seq<World>, steps: seq<Step>, n: nat, i: nat) returns (k: nat)
    requires IsRun(ws, steps) && n < |ws| && i < |ws[n].log|
    ensures k < n && Runs(ws[k], steps[k], ws[n].log[i].host, ws[n].log[i].cmd)
    ensures ReportsVerdict(ws[n].log[i].result, ws[n].log[i].cmd, steps[k].verdict)
  {
    LogGrows(ws[n - 1], steps[n - 1]);
    if i < |ws[n - 1].log| {
      k := LoggedWasRun(ws, steps, n - 1, i);
    } else {
      k := n - 1;
    }
  }

  lemma LogGrows(w: World, s: Step)
    requires Enabled(w, s)
    ensures var v := Apply(w, s);
      if s.RunOne? then
        && |v.log| == |w.log| + 1 && v.log[..|w.log|] == w.log
        && Runs(w, s, v.log[|w.log|].host, v.log[|w.log|].cmd)
        && ReportsVerdict(v.log[|w.log|].result, v.log[|w.log|].cmd, s.verdict)
      else v.log == w.log
  {
  }

  /** The handler's verdict on a command accounts for the row's final status and
      error text. */
  ghost predicate Justifies(v: Verdict, cmd: Command, a: Action) {
    if cmd.payload.NoPayload? then
      a.status == Failed && a.error == Some("unsupported: " + "tipo de comando nao suportado pelo agente")
    else
      && (a.status == Executed ==> v.status == Ok)
      && (a.status == Failed ==>
            || (v.status == FailedResult && a.error == Some(v.message))
            || (v.status == Unsupported && a.error == Some("unsupported: " + v.message)))
  }

  lemma AttestedIsJustified(e: Execution, id: ActionId, a: Action, v: Verdict)
    requires Attests(e, id, a) && ReportsVerdict(e.result, e.cmd, v) && a.status in {Executed, Failed}
    ensures Justifies(v, e.cmd, a)
  {
  }

  /** In every run a row marked executed or failed has one step in which its own
      host ran its command, and the handler's verdict in that step is why. */
  lemma StatusFollowsVerdict(ws: seq<World>, steps: seq<Step>, n: nat, id: ActionId)
    returns (k: nat, cmd: Command)
    requires IsRun(ws, steps) && n < |ws|
    requires id in ws[n].rows && ws[n].rows[id].status in {Executed, Failed}
    ensures k < n && Runs(ws[k], steps[k], ws[n].rows[id].host, cmd) && cmd.id == id
    ensures Justifies(steps[k].verdict, cmd, ws[n].rows[id])
  {
    StatusIsTruthful(ws, steps, n, id);
    var i :| 0 <= i < |ws[n].log| && Attests(ws[n].log[i], id, ws[n].rows[id]);
    k := LoggedWasRun(ws, steps, n, i);
    cmd := ws[n].log[i].cmd;
    AttestedIsJustified(ws[n].log[i], id, ws[n].rows[id], steps[k].verdict);
  }

  // ------------------------------------------------------------ what is sent

  /** The server handles a request of this host. */
  ghost predicate HandlesHost(w: World, s: Step, h: HostId) {
    s.Handle? && s.rid in w.requests && w.requests[s.rid].host == h
  }

  /** A pending row is in the answer of its host's heartbeat, and is conveyed. */
  lemma PendingIsSent(w: World, s: Step, h: HostId, id: ActionId) returns (k: nat)
    requires Inv(w) && Enabled(w, s) && HandlesHost(w, s, h)
    requires id in w.rows && w.rows[id].host == h && w.rows[id].status == Pending
    ensures k < |s.cmds| && s.cmds[k].id == id && Conveys(s.cmds[k], w.rows[id])
  {
    var results := w.requests[s.rid].results;
    var t := Applied(w, s.rid, s.now);
    ApplyResultsFrame(w.rows, h, results, s.now);
    PendingIsNotNamed(w, s.rid, id);
    UnnamedRowKeepsStatus(w.rows, h, results, s.now, id);
    assert id in PendingIds(t, h);
    k :| 0 <= k < |s.cmds| && s.cmds[k].id == id;
    CommandIff(s.cmds[k], id, t[id]);
  }

  lemma PendingIsNotNamed(w: World, rid: RequestId, id: ActionId)
    requires Inv(w) && rid in w.requests && id in w.rows && w.rows[id].status == Pending
    ensures forall r :: r in w.requests[rid].results ==> r.commandId != Uuid(id)
  {
    forall r | r in w.requests[rid].results ensures r.commandId != Uuid(id) {
      assert AllLogged(w.log, w.requests[rid].host, w.requests[rid].results);
      LoggedIsNotPending(w, w.requests[rid].host, r);
    }
  }

  /** The step leaves a pending row alone, unless it deletes it. */
  lemma PendingStaysOneStep(w: World, s: Step, h: HostId, id: ActionId)
    requires Inv(w) && Enabled(w, s) && !HandlesHost(w, s, h) && !(s.RevertRow? && s.id == id)
    requires id in w.rows && w.rows[id].host == h && w.rows[id].status == Pending
    ensures id in Apply(w, s).rows ==> Apply(w, s).rows[id] == w.rows[id]
  {
    match s
    case Handle(rid, _, now) => HeartbeatFrame(w.rows, w.requests[rid].host, w.requests[rid].results, now);
    case RevertRow(other, unblockId, now) => RevertIff(w.rows, other, unblockId, now, Apply(w, s).rows);
    case RunSchedule(kind, byTarget, slots, ids) => ScheduleLeavesRow(w, s, id);
    case _ => OtherStepLeavesRow(w, s, id);
  }

  lemma ScheduleLeavesRow(w: World, s: Step, id: ActionId)
    requires RowsInv(w.rows, w.born) && Enabled(w, s) && s.RunSchedule? && id in w.rows
    ensures id in Apply(w, s).rows && Apply(w, s).rows[id] == w.rows[id]
  {
    BatchRows(w.rows, s.kind, Taken(w.rows, s.kind, s.byTarget, s.slots), s.slots, s.ids, |s.slots|);
  }

  lemma OtherStepLeavesRow(w: World, s: Step, id: ActionId)
    requires RowsInv(w.rows, w.born) && Enabled(w, s) && id in w.rows
    requires !s.Handle? && !s.RevertRow? && !s.RunSchedule?
    ensures id in Apply(w, s).rows ==> Apply(w, s).rows[id] == w.rows[id]
  {
  }

  /** Ids are not used twice: a row that is gone does not come back. */
  lemma DeletedStaysDeleted(w: World, s: Step, id: ActionId)
    requires Inv(w) && Enabled(w, s) && id in w.born && id !in w.rows
    ensures id !in Apply(w, s).rows
  {
    if IsRowStep(s) {
      RowStepIsQuiet(w, s);
    } else if s.Handle? {
      HeartbeatFrame(w.rows, w.requests[s.rid].host, w.requests[s.rid].results, s.now);
    }
  }

  /** No heartbeat of the host and no revert of the row in between. */
  ghost predicate Untouched(ws: seq<World>, steps: seq<Step>, i: nat, j: nat, h: HostId, id: ActionId)
    requires j <= |steps| && j < |ws|
  {
    forall k :: i <= k < j ==> !HandlesHost(ws[k], steps[k], h) && !(steps[k].RevertRow? && steps[k].id == id)
  }

  lemma UntouchedSplits(ws: seq<World>, steps: seq<Step>, i: nat, j: nat, h: HostId, id: ActionId)
    requires i < j <= |steps| && j < |ws| && Untouched(ws, steps, i, j, h, id)
    ensures Untouched(ws, steps, i, j - 1, h, id) && Untouched(ws, steps, j - 1, j, h, id)
  {
  }

  /** Row `id` is `a`, and pending on host `h`. */
  predicate IsPendingRow(w: World, id: ActionId, a: Action, h: HostId) {
    id in w.rows && w.rows[id] == a && a.host == h && a.status == Pending
  }

  lemma {:induction false} PendingStays(
    ws: seq<World>, steps: seq<Step>, i: nat, j: nat, h: HostId, id: ActionId, a: Action)
    requires IsRun(ws, steps) && i <= j < |ws| && Untouched(ws, steps, i, j, h, id)
    requires IsPendingRow(ws[i], id, a, h) && id in ws[j].rows
    ensures IsPendingRow(ws[j], id, a, h)
    decreases j - i
  {
    if i < j {
      var k := j - 1;
      UntouchedSplits(ws, steps, i, j, h, id);
      assert id in ws[k].rows by { RowWasThere(ws, steps, i, k, id); }
      PendingStays(ws, steps, i, k, h, id, a);
      RunPendingStays(ws, steps, k, h, id, a);
    }
  }

  lemma RowWasThere(ws: seq<World>, steps: seq<Step>, i: nat, n: nat, id: ActionId)
    requires IsRun(ws, steps) && i <= n < |steps| && id in ws[i].rows && id in ws[n + 1].rows
    ensures id in ws[n].rows
  {
    RunKeepsInv(ws, steps, i);
    BornGrows(ws, steps, i, n);
    RunKeepsInv(ws, steps, n);
    if id !in ws[n].rows { DeletedStaysDeleted(ws[n], steps[n], id); }
  }

  lemma RunPendingStays(ws: seq<World>, steps: seq<Step>, n: nat, h: HostId, id: ActionId, a: Action)
    requires IsRun(ws, steps) && n < |steps| && Untouched(ws, steps, n, n + 1, h, id)
    requires IsPendingRow(ws[n], id, a, h) && id in ws[n + 1].rows
    ensures IsPendingRow(ws[n + 1], id, a, h)
  {
    RunKeepsInv(ws, steps, n);
    PendingStaysOneStep(ws[n], steps[n], h, id);
  }

  /** A row that is pending is in the answer of its host's next handled
      heartbeat, unless it was deleted or reverted before. */
  lemma NextHeartbeatCarriesRow(ws: seq<World>, steps: seq<Step>, i: nat, j: nat, h: HostId, id: ActionId)
    returns (k: nat)
    requires IsRun(ws, steps) && i <= j < |steps| && Untouched(ws, steps, i, j, h, id)
    requires id in ws[i].rows && ws[i].rows[id].host == h && ws[i].rows[id].status == Pending
    requires HandlesHost(ws[j], steps[j], h) && id in ws[j].rows
    ensures k < |steps[j].cmds| && steps[j].cmds[k].id == id && Conveys(steps[j].cmds[k], ws[i].rows[id])
  {
    PendingStays(ws, steps, i, j, h, id, ws[i].rows[id]);
    RunKeepsInv(ws, steps, j);
    k := PendingIsSent(ws[j], steps[j], h, id);
  }

  /** Reverting an executed block unblocks the address: the host's next handled
      heartbeat carries that command, unless the unblock itself was deleted or
      reverted before. */
  lemma UnblockIsSent(ws: seq<World>, steps: seq<Step>, i: nat, j: nat, h: HostId) returns (k: nat)
    requires IsRun(ws, steps) && i < j < |steps| && steps[i].RevertRow?
    requires var a := ws[i].rows[steps[i].id]; a.host == h && a.kind == BlockIp && a.status == Executed
    requires Untouched(ws, steps, i + 1, j, h, steps[i].unblockId)
    requires HandlesHost(ws[j], steps[j], h) && steps[i].unblockId in ws[j].rows
    ensures k < |steps[j].cmds| && steps[j].cmds[k].id == steps[i].unblockId
    ensures steps[j].cmds[k].payload == UnblockIpCommand(ws[i].rows[steps[i].id].target)
  {
    var w, s := ws[i], steps[i];
    RunKeepsInv(ws, steps, i);
    RevertIff(w.rows, s.id, s.unblockId, s.now, ws[i + 1].rows);
    k := NextHeartbeatCarriesRow(ws, steps, i + 1, j, h, s.unblockId);
  }
}
