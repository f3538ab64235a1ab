/** What holds of every run of the action protocol. */
module ProtocolTheorems {
  import opened Base
  import opened Actions
  import opened Commands
  import opened Agent
  import opened Protocol

  /** A row marked executed or failed names a command that its own host's agent
      really ran, and status and error text are that one execution's outcome. */
  lemma StatusIsTruthful(ws: seq<World>, steps: seq<Step>, n: nat, id: ActionId)
    requires IsRun(ws, steps) && n < |ws|
    requires id in ws[n].rows && ws[n].rows[id].status in {Executed, Failed}
    ensures exists i :: 0 <= i < |ws[n].log| && Attests(ws[n].log[i], id, ws[n].rows[id])
    ensures forall i, j | 0 <= i < |ws[n].log| && 0 <= j < |ws[n].log|
        && ws[n].log[i].cmd.id == id && ws[n].log[j].cmd.id == id :: i == j
  {
    RunKeepsInv(ws, steps, n);
    assert Attested(ws[n].log, id, ws[n].rows[id]);
  }

  /** The command that was run conveys the row of its id, a row of that host. */
  ghost predicate RunsOwnRow(e: Execution, born: map<ActionId, Action>) {
    e.cmd.id in born && born[e.cmd.id].host == e.host && Conveys(e.cmd, born[e.cmd.id])
  }

  /** An id is sent at most once, in one answer, to its own host; it is executed
      at most once, by that host, with the payload its row decodes to. */
  lemma SentAndExecutedAtMostOnce(ws: seq<World>, steps: seq<Step>, n: nat)
    requires IsRun(ws, steps) && n < |ws|
    ensures forall p, q, j, k | p in ws[n].responses && q in ws[n].responses
        && 0 <= j < |ws[n].responses[p]| && 0 <= k < |ws[n].responses[q]|
        && ws[n].responses[p][j].id == ws[n].responses[q][k].id :: p == q && j == k
    ensures forall i, j :: 0 <= i < j < |ws[n].log| ==> ws[n].log[i].cmd.id != ws[n].log[j].cmd.id
    ensures forall i :: 0 <= i < |ws[n].log| ==> RunsOwnRow(ws[n].log[i], ws[n].born)
  {
    var w := ws[n];
    RunKeepsInv(ws, steps, n);
    forall i | 0 <= i < |w.log|
      ensures RunsOwnRow(w.log[i], w.born)
    {
      assert ExecutionInv(w.log[i], w.requests, w.responses);
      assert AnswerInv(w.responses[w.log[i].rid], w.log[i].rid, w.log[i].host, w.born, w.issued);
      CommandIff(w.log[i].cmd, w.log[i].cmd.id, w.born[w.log[i].cmd.id]);
    }
    forall p, q, j, k | p in w.responses && q in w.responses && 0 <= j < |w.responses[p]| && 0 <= k < |w.responses[q]|
                        && w.responses[p][j].id == w.responses[q][k].id
      ensures p == q && j == k
    {
      assert AnswerInv(w.responses[p], p, w.requests[p].host, w.born, w.issued);
      assert AnswerInv(w.responses[q], q, w.requests[q].host, w.born, w.issued);
    }
  }

  /** A logged result names an id that was issued, so its row is not pending. */
  lemma LoggedIsNotPending(w: World, h: HostId, r: CommandResult)
    requires Inv(w) && Logged(w.log, h, r)
    ensures r.commandId.Uuid? && r.status != Unspecified
    ensures r.commandId.id in w.issued
    ensures r.commandId.id in w.rows ==> w.rows[r.commandId.id].status != Pending && w.rows[r.commandId.id].host == h
  {
    var i :| 0 <= i < |w.log| && w.log[i].host == h && w.log[i].result == r;
    var e := w.log[i];
    assert ExecutionInv(e, w.requests, w.responses);
    assert AnswerInv(w.responses[e.rid], e.rid, w.requests[e.rid].host, w.born, w.issued);
    var k :| 0 <= k < |w.responses[e.rid]| && w.responses[e.rid][k] == e.cmd;
  }

  /** No result in an agent's hands or in flight names a pending action. */
  lemma NoResultNamesPending(ws: seq<World>, steps: seq<Step>, n: nat, id: ActionId)
    requires IsRun(ws, steps) && n < |ws|
    requires id in ws[n].rows && ws[n].rows[id].status == Pending
    ensures forall h, r :: h in ws[n].agents && r in Held(ws[n].agents[h]) ==> r.commandId != Uuid(id)
    ensures forall rid, r :: rid in ws[n].requests && r in ws[n].requests[rid].results ==> r.commandId != Uuid(id)
  {
    var w := ws[n];
    RunKeepsInv(ws, steps, n);
    forall h, r | h in w.agents && r in Held(w.agents[h]) ensures r.commandId != Uuid(id) {
      assert AllLogged(w.log, h, Held(w.agents[h]));
      LoggedIsNotPending(w, h, r);
    }
    forall rid, r | rid in w.requests && r in w.requests[rid].results ensures r.commandId != Uuid(id) {
      assert AllLogged(w.log, w.requests[rid].host, w.requests[rid].results);
      LoggedIsNotPending(w, w.requests[rid].host, r);
    }
  }

  /** No result is ever lost: what an agent executed it still holds, exactly
      once, or the server has processed it in a committed heartbeat. */
  lemma ResultsAreConserved(ws: seq<World>, steps: seq<Step>, n: nat)
    requires IsRun(ws, steps) && n < |ws|
    ensures forall i | 0 <= i < |ws[n].log| ::
      && ws[n].log[i].host in ws[n].agents
      && (ws[n].log[i].result in Held(ws[n].agents[ws[n].log[i].host])
          || Processed(ws[n].requests, ws[n].responses, ws[n].log[i].host, ws[n].log[i].result))
    ensures forall h :: h in ws[n].agents ==> NoDuplicateIds(Held(ws[n].agents[h]))
    ensures forall h, r :: h in ws[n].agents && r in Held(ws[n].agents[h]) ==> Logged(ws[n].log, h, r)
  {
    RunKeepsInv(ws, steps, n);
    forall h, r | h in ws[n].agents && r in Held(ws[n].agents[h]) ensures Logged(ws[n].log, h, r) {
      assert AllLogged(ws[n].log, h, Held(ws[n].agents[h]));
    }
  }

  /** A row whose kind is unknown, or whose rule target is malformed, is never
      marked executed. */
  lemma UndecodableIsNeverExecuted(ws: seq<World>, steps: seq<Step>, n: nat, id: ActionId)
    requires IsRun(ws, steps) && n < |ws| && id in ws[n].rows
    requires StandsFor(NoPayload, ws[n].rows[id].kind, ws[n].rows[id].target)
    ensures ws[n].rows[id].status != Executed
  {
    var w := ws[n];
    if w.rows[id].status == Executed {
      StatusIsTruthful(ws, steps, n, id);
      var i :| 0 <= i < |w.log| && Attests(w.log[i], id, w.rows[id]);
      SentAndExecutedAtMostOnce(ws, steps, n);
      RunKeepsInv(ws, steps, n);
      DecodeIff(w.log[i].cmd.payload, w.rows[id].kind, w.rows[id].target);
      DecodeIff(NoPayload, w.rows[id].kind, w.rows[id].target);
      assert false;
    }
  }

  // ------------------------------------------------------ no duplicate open rows

  /** A schedule with different hosts and paths. */
  ghost predicate DistinctSchedule(s: Step) {
    s.RunSchedule? ==>
      && (forall i, j :: 0 <= i < j < |s.slots| ==> !Clash(s.slots[i], s.slots[j], s.byTarget))
      && (!s.byTarget ==> forall i, j :: 0 <= i < j < |s.slots| ==> s.slots[i].1 == s.slots[j].1)
  }

  /** Policy, REST triggers, schedules, heartbeats, results, reverts and deletes
      in any order keep at most one open row per host, kind and target. */
  lemma {:induction false} OpenRowsStayUnique(ws: seq<World>, steps: seq<Step>, n: nat)
    requires IsRun(ws, steps) && n < |ws|
    requires forall i :: 0 <= i < |steps| ==> DistinctSchedule(steps[i])
    ensures SingleOpen(ws[n].rows)
  {
    if n > 0 {
      OpenRowsStayUnique(ws, steps, n - 1);
      RunKeepsInv(ws, steps, n - 1);
      StepKeepsSingleOpen(ws[n - 1], steps[n - 1]);
    }
  }

  lemma StepKeepsSingleOpen(w: World, s: Step)
    requires Inv(w) && Enabled(w, s) && SingleOpen(w.rows) && DistinctSchedule(s)
    ensures SingleOpen(Apply(w, s).rows)
  {
    var v := Apply(w, s);
    match s
    case Handle(rid, _, now) =>
      HeartbeatOpensNothing(w.rows, w.requests[rid].host, w.requests[rid].results, now);
      NoNewlyOpenKeepsSingleOpen(w.rows, v.rows);
    case PolicyCreate(id, h, kind, target, reason) =>
      TryCreateKeepsSingleOpen(w.rows, id, h, kind, target, reason, true, ACTIVE);
    case RestCreate(id, h, kind, target, reason, byTarget) =>
      TryCreateKeepsSingleOpen(w.rows, id, h, kind, target, reason, byTarget, OPEN);
    case RunSchedule(kind, byTarget, slots, ids) =>
      ScheduleKeepsSingleOpenIff(w.rows, kind, byTarget, slots, ids);
    case RevertRow(id, unblockId, now) => RevertKeepsSingleOpen(w.rows, id, unblockId, now);
    case DeleteRow(_) => NoNewlyOpenKeepsSingleOpen(w.rows, v.rows);
    case DeleteHost(_) => NoNewlyOpenKeepsSingleOpen(w.rows, v.rows);
    case _ =>
  }

  lemma HeartbeatOpensNothing(t: Table, host: HostId, results: seq<CommandResult>, now: Time)
    ensures NoNewlyOpen(t, AfterHeartbeat(t, host, results, now))
  {
    HeartbeatFrame(t, host, results, now);
    forall id | id in t ensures IsOpen(AfterHeartbeat(t, host, results, now)[id]) ==> IsOpen(t[id]) {
      StatusComesFromResults(t, host, results, now, id);
    }
  }

  lemma RevertKeepsSingleOpen(t: Table, id: ActionId, unblockId: ActionId, now: Time)
    requires SingleOpen(t) && id in t && unblockId !in t
    ensures SingleOpen(Revert(t, id, unblockId, now))
  {
  }

  // -------------------------------------------------------- bounded progress

  ghost predicate Names(cmds: seq<Command>, id: ActionId) {
    exists k :: 0 <= k < |cmds| && cmds[k].id == id
  }

  ghost predicate Reports(results: seq<CommandResult>, id: ActionId) {
    exists k :: 0 <= k < |results| && results[k].commandId == Uuid(id)
  }

  ghost predicate AsksOnly(w: World, h: HostId, rids: set<RequestId>) {
    forall q :: q in w.requests && w.requests[q].host == h ==> q in rids
  }

  /** Where the command of `id`, issued by answer `rid`, stands on its way to
      the host's first request that is not among `before`. */
  ghost predicate OnTrack(w: World, h: HostId, id: ActionId, rid: RequestId, before: set<RequestId>) {
    && h in w.agents && rid in w.responses && rid in before && Names(w.responses[rid], id)
    && match w.agents[h].tick
      case Idle => AsksOnly(w, h, before) && Reports(w.agents[h].queue, id)
      case Awaiting(q, results) =>
        if q == rid then AsksOnly(w, h, before)
        else q !in before && q !in w.responses && AsksOnly(w, h, before + {q}) && Reports(results, id)
      case Executing(q, _, _) => q == rid && AsksOnly(w, h, before)
  }

  /** The host's own next heartbeat. */
  ghost predicate HandlesNew(w: World, s: Step, h: HostId, before: set<RequestId>) {
    s.Handle? && s.rid in w.requests && w.requests[s.rid].host == h && s.rid !in before
  }

  lemma EndTickStaysOnTrack(w: World, h: HostId, id: ActionId, rid: RequestId, before: set<RequestId>)
    requires AgentsInv(w.agents, w.requests, w.responses) && Enabled(w, EndTick(h)) && OnTrack(w, h, id, rid, before)
    ensures OnTrack(Apply(w, EndTick(h)), h, id, rid, before)
  {
    var a := w.agents[h];
    assert AgentInv(h, a, w.requests, w.responses);
    var k :| 0 <= k < |w.responses[rid]| && w.responses[rid][k].id == id;
    assert Finish(a).queue == a.tick.done;
    assert a.tick.done[k].commandId == Uuid(id);
  }

  lemma BeginTickStaysOnTrack(
    w: World, g: HostId, q: RequestId, h: HostId, id: ActionId, rid: RequestId, before: set<RequestId>)
    requires ResponsesInv(w.requests, w.responses, w.born, w.issued)
    requires Enabled(w, BeginTick(g, q)) && OnTrack(w, h, id, rid, before) && before <= w.requests.Keys
    ensures OnTrack(Apply(w, BeginTick(g, q)), h, id, rid, before)
  {
    var v := Apply(w, BeginTick(g, q));
    if g == h {
      assert AsksOnly(v, h, before + {q});
    }
  }

  lemma HandleStaysOnTrack(w: World, s: Step, h: HostId, id: ActionId, rid: RequestId, before: set<RequestId>)
    requires AgentsInv(w.agents, w.requests, w.responses) && Enabled(w, s) && s.Handle?
    requires OnTrack(w, h, id, rid, before) && !HandlesNew(w, s, h, before)
    ensures OnTrack(Apply(w, s), h, id, rid, before)
  {
    assert AgentInv(h, w.agents[h], w.requests, w.responses);
  }

  lemma StaysOnTrack(w: World, s: Step, h: HostId, id: ActionId, rid: RequestId, before: set<RequestId>)
    requires Inv(w) && Enabled(w, s) && OnTrack(w, h, id, rid, before)
    requires s != RpcFails(h) && !HandlesNew(w, s, h, before)
    requires before <= w.requests.Keys
    ensures OnTrack(Apply(w, s), h, id, rid, before)
  {
    if s == EndTick(h) {
      EndTickStaysOnTrack(w, h, id, rid, before);
    } else if s.BeginTick? {
      BeginTickStaysOnTrack(w, s.host, s.rid, h, id, rid, before);
    } else if s.Handle? {
      HandleStaysOnTrack(w, s, h, id, rid, before);
    }
  }

  /** A processed report decides a row of its host. */
  lemma ReportSettles(w: World, q: RequestId, k: nat, id: ActionId, now: Time)
    requires Inv(w) && q in w.requests && k < |w.requests[q].results|
    requires w.requests[q].results[k].commandId == Uuid(id)
    requires id in w.rows && w.rows[id].host == w.requests[q].host
    ensures var t := AfterHeartbeat(w.rows, w.requests[q].host, w.requests[q].results, now);
      id in t && t[id].status in {Executed, Failed}
  {
    var h, results := w.requests[q].host, w.requests[q].results;
    assert AllLogged(w.log, h, results);
    LoggedIsNotPending(w, h, results[k]);
    assert NamedWithStatus(h, w.rows[id], results, id);
    StatusComesFromResults(w.rows, h, results, now, id);
  }

  lemma NextHeartbeatSettles(w: World, s: Step, h: HostId, id: ActionId, rid: RequestId, before: set<RequestId>)
    requires Inv(w) && Enabled(w, s) && OnTrack(w, h, id, rid, before) && HandlesNew(w, s, h, before)
    requires id in w.rows && w.rows[id].host == h
    ensures id in Apply(w, s).rows && Apply(w, s).rows[id].status in {Executed, Failed}
  {
    var results := w.requests[s.rid].results;
    assert AgentInv(h, w.agents[h], w.requests, w.responses);
    assert Reports(results, id);
    var k :| 0 <= k < |results| && results[k].commandId == Uuid(id);
    ReportSettles(w, s.rid, k, id, s.now);
  }

  lemma SendingStartsTrack(w: World, s: Step, h: HostId, id: ActionId)
    requires Inv(w) && Enabled(w, s) && s.Handle? && w.requests[s.rid].host == h
    requires h in w.agents && w.agents[h].tick.Awaiting? && w.agents[h].tick.rid == s.rid
    requires id in w.rows && w.rows[id].host == h && w.rows[id].status == Pending
    ensures OnTrack(Apply(w, s), h, id, s.rid, w.requests.Keys)
  {
    var results := w.requests[s.rid].results;
    forall r | r in results ensures r.commandId != Uuid(id) {
      assert AllLogged(w.log, h, results);
      LoggedIsNotPending(w, h, r);
    }
    StatusComesFromResults(w.rows, h, results, s.now, id);
    ApplyResultsFrame(w.rows, h, results, s.now);
    assert id in PendingIds(Applied(w, s.rid, s.now), h);
  }

  /** Rows that exist at both ends of a run segment kept their host. */
  lemma RowKeepsHost(ws: seq<World>, steps: seq<Step>, i: nat, j: nat, id: ActionId)
    requires IsRun(ws, steps) && i <= j < |ws| && id in ws[i].born && id in ws[j].rows
    ensures id in ws[j].born && ws[j].rows[id].host == ws[i].born[id].host
  {
    RunKeepsInv(ws, steps, j);
    BornGrows(ws, steps, i, j);
    assert SameRow(ws[j].born[id], ws[j].rows[id]);
  }

  lemma StepOnlyAdds(w: World, s: Step)
    requires Enabled(w, s)
    ensures forall id :: id in w.born ==> id in Apply(w, s).born && Apply(w, s).born[id] == w.born[id]
    ensures w.requests.Keys <= Apply(w, s).requests.Keys
  {
  }

  lemma {:induction false} BornGrows(ws: seq<World>, steps: seq<Step>, i: nat, j: nat)
    requires IsRun(ws, steps) && i <= j < |ws|
    ensures forall id :: id in ws[i].born ==> id in ws[j].born && ws[j].born[id] == ws[i].born[id]
    ensures ws[i].requests.Keys <= ws[j].requests.Keys
    decreases j - i
  {
    if i < j {
      BornGrows(ws, steps, i, j - 1);
      StepOnlyAdds(ws[j - 1], steps[j - 1]);
    }
  }

  lemma RunStaysOnTrack(
    ws: seq<World>, steps: seq<Step>, n: nat, h: HostId, id: ActionId, rid: RequestId, before: set<RequestId>)
    requires IsRun(ws, steps) && n < |steps| && OnTrack(ws[n], h, id, rid, before)
    requires steps[n] != RpcFails(h) && !HandlesNew(ws[n], steps[n], h, before)
    requires before <= ws[n].requests.Keys
    ensures OnTrack(ws[n + 1], h, id, rid, before)
  {
    RunKeepsInv(ws, steps, n);
    StaysOnTrack(ws[n], steps[n], h, id, rid, before);
  }

  lemma {:induction false} TrackLasts(
    ws: seq<World>, steps: seq<Step>, i: nat, j: nat, h: HostId, id: ActionId, rid: RequestId)
    requires IsRun(ws, steps) && i < j < |ws|
    requires OnTrack(ws[i + 1], h, id, rid, ws[i].requests.Keys)
    requires forall k :: i < k < j ==> steps[k] != RpcFails(h) && !HandlesNew(ws[k], steps[k], h, ws[i].requests.Keys)
    ensures OnTrack(ws[j], h, id, rid, ws[i].requests.Keys)
    decreases j - i
  {
    if i + 1 < j {
      TrackLasts(ws, steps, i, j - 1, h, id, rid);
      BornGrows(ws, steps, i, j - 1);
      RunStaysOnTrack(ws, steps, j - 1, h, id, rid, ws[i].requests.Keys);
    }
  }

  /** Bounded progress. Step `i` handles the request its host is waiting on while
      `id` is pending; step `j` is the next handling of a request the host made
      later. If the host's RPC does not fail in between, then whatever else
      happens, the row, unless deleted, is executed or failed after step `j`. */
  lemma PendingIsSettledByNextHeartbeat(ws: seq<World>, steps: seq<Step>, i: nat, j: nat, h: HostId, id: ActionId)
    requires IsRun(ws, steps) && i < j < |steps|
    requires steps[i].Handle? && steps[i].rid in ws[i].requests && ws[i].requests[steps[i].rid].host == h
    requires h in ws[i].agents && ws[i].agents[h].tick.Awaiting? && ws[i].agents[h].tick.rid == steps[i].rid
    requires id in ws[i].rows && ws[i].rows[id].host == h && ws[i].rows[id].status == Pending
    requires HandlesNew(ws[j], steps[j], h, ws[i].requests.Keys)
    requires forall k :: i < k < j ==> steps[k] != RpcFails(h) && !HandlesNew(ws[k], steps[k], h, ws[i].requests.Keys)
    requires id in ws[j].rows
    ensures id in ws[j + 1].rows && ws[j + 1].rows[id].status in {Executed, Failed}
  {
    RunKeepsInv(ws, steps, i);
    RunKeepsInv(ws, steps, j);
    SendingStartsTrack(ws[i], steps[i], h, id);
    assert ws[i + 1] == Apply(ws[i], steps[i]);
    TrackLasts(ws, steps, i, j, h, id, steps[i].rid);
    assert SameRow(ws[i].born[id], ws[i].rows[id]);
    RowKeepsHost(ws, steps, i, j, id);
    NextHeartbeatSettles(ws[j], steps[j], h, id, steps[i].rid, ws[i].requests.Keys);
  }
}
