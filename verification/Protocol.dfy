/** The action protocol as one step system: the server's transactions, every
    agent's heartbeat loop, a network that may lose or delay requests and lose
    responses, and operators who create, revert and delete rows in between.

    Messages are kept for ever: a request that is never handled or a response
    that is never accepted is a lost one, and a request may be handled long
    after its sender gave up on it. */
module Protocol {
  import opened Base
  import opened Actions
  import opened Commands
  import opened Agent

  datatype Request = Request(host: HostId, results: seq<CommandResult>)

  /** One command really run by an agent. */
  datatype Execution = Execution(host: HostId, rid: RequestId, cmd: Command, result: CommandResult)

  /** The last three fields are history: the row each id was created with, the
      request whose answer carried the id, and what agents executed. */
  datatype World = World(
    rows: Table, hosts: set<HostId>,
    agents: map<HostId, AgentState>,
    requests: map<RequestId, Request>, responses: map<RequestId, seq<Command>>,
    born: map<ActionId, Action>, issued: map<ActionId, RequestId>, log: seq<Execution>)

  const INITIAL := World(map[], {}, map[], map[], map[], map[], map[], [])

  datatype Step =
    | Enroll(host: HostId)
    | BeginTick(host: HostId, rid: RequestId)
    | Handle(rid: RequestId, cmds: seq<Command>, now: Time)
    | RpcFails(host: HostId)
    | AcceptResponse(host: HostId)
    | RunOne(host: HostId, verdict: Verdict)
    | EndTick(host: HostId)
    | PolicyCreate(id: ActionId, host: HostId, kind: Kind, target: string, reason: string)
    | RestCreate(id: ActionId, host: HostId, kind: Kind, target: string, reason: string, byTarget: bool)
    | RunSchedule(kind: Kind, byTarget: bool, slots: seq<Slot>, ids: seq<ActionId>)
    | RevertRow(id: ActionId, unblockId: ActionId, now: Time)
    | DeleteRow(id: ActionId)
    | DeleteHost(host: HostId)

  /** The table a server transaction sees after applying a request's results. */
  function Applied(w: World, rid: RequestId, now: Time): Table
    requires rid in w.requests
  {
    ApplyResults(w.rows, w.requests[rid].host, w.requests[rid].results, now)
  }

  ghost predicate Enabled(w: World, s: Step) {
    match s
    case Enroll(h) => h !in w.agents
    case BeginTick(h, rid) => h in w.agents && w.agents[h].tick.Idle? && rid !in w.requests
    case Handle(rid, cmds, now) =>
      && rid in w.requests && rid !in w.responses && w.requests[rid].host in w.hosts
      && Dispatches(Applied(w, rid, now), PendingIds(Applied(w, rid, now), w.requests[rid].host), cmds)
    case RpcFails(h) => h in w.agents && w.agents[h].tick.Awaiting?
    case AcceptResponse(h) => h in w.agents && w.agents[h].tick.Awaiting? && w.agents[h].tick.rid in w.responses
    case RunOne(h, v) => h in w.agents && w.agents[h].tick.Executing? && w.agents[h].tick.todo != [] && ValidVerdict(v)
    case EndTick(h) => h in w.agents && w.agents[h].tick.Executing? && w.agents[h].tick.todo == []
    case PolicyCreate(id, h, kind, _, _) => id !in w.born && h in w.hosts && kind in POLICY_KINDS
    case RestCreate(id, h, kind, _, _, _) =>
      id !in w.born && h in w.hosts && kind !in POLICY_KINDS && kind != UnblockIp
    case RunSchedule(kind, _, slots, ids) =>
      && |ids| == |slots| && Distinct(ids) && kind !in POLICY_KINDS && kind != UnblockIp
      && forall i :: 0 <= i < |ids| ==> ids[i] !in w.born
    case RevertRow(id, unblockId, _) => id in w.rows && unblockId !in w.born
    case DeleteRow(id) => id in w.rows
    case DeleteHost(h) => h in w.hosts
  }

  /** Replaces the table and remembers the rows that are new in it. */
  function WithRows(w: World, rows: Table): World {
    w.(rows := rows, born := w.born + map id | id in rows && id !in w.born :: rows[id])
  }

  function WithAgent(w: World, h: HostId, a: AgentState): World { w.(agents := w.agents[h := a]) }

  ghost function Apply(w: World, s: Step): World
    requires Enabled(w, s)
  {
    match s
    case Enroll(h) => w.(hosts := w.hosts + {h}, agents := w.agents[h := AgentState([], Idle)])
    case BeginTick(h, rid) =>
      WithAgent(w, h, Begin(w.agents[h], rid)).(requests := w.requests[rid := Request(h, w.agents[h].queue)])
    case Handle(rid, cmds, now) =>
      w.(rows := AfterHeartbeat(w.rows, w.requests[rid].host, w.requests[rid].results, now),
         responses := w.responses[rid := cmds],
         issued := w.issued + map id | id in PendingIds(Applied(w, rid, now), w.requests[rid].host) :: rid)
    case RpcFails(h) => WithAgent(w, h, Fail(w.agents[h]))
    case AcceptResponse(h) => WithAgent(w, h, Accept(w.agents[h], w.responses[w.agents[h].tick.rid]))
    case RunOne(h, v) =>
      var cmd := w.agents[h].tick.todo[0];
      var e := Execution(h, w.agents[h].tick.rid, cmd, ResultOf(cmd, v));
      WithAgent(w, h, RunNext(w.agents[h], v)).(log := w.log + [e])
    case EndTick(h) => WithAgent(w, h, Finish(w.agents[h]))
    case PolicyCreate(id, h, kind, target, reason) =>
      WithRows(w, TryCreate(w.rows, id, h, kind, target, reason, true, ACTIVE))
    case RestCreate(id, h, kind, target, reason, byTarget) =>
      WithRows(w, TryCreate(w.rows, id, h, kind, target, reason, byTarget, OPEN))
    case RunSchedule(kind, byTarget, slots, ids) => WithRows(w, Schedule(w.rows, kind, byTarget, slots, ids).rows)
    case RevertRow(id, unblockId, now) => WithRows(w, Revert(w.rows, id, unblockId, now))
    case DeleteRow(id) => w.(rows := w.rows - {id})
    case DeleteHost(h) =>
      w.(hosts := w.hosts - {h}, rows := map id | id in w.rows && w.rows[id].host != h :: w.rows[id])
  }

  /** A run: worlds joined by enabled steps, from the empty system. */
  ghost predicate IsRun(ws: seq<World>, steps: seq<Step>) {
    && |ws| == |steps| + 1
    && ws[0] == INITIAL
    && forall i :: 0 <= i < |steps| ==> Enabled(ws[i], steps[i]) && ws[i + 1] == Apply(ws[i], steps[i])
  }

  // --------------------------------------------------------------- invariants

  ghost predicate SameRow(a: Action, b: Action) { SameKey(a, b) && a.reason == b.reason }

  /** Rows keep the identity they were created with. */
  ghost predicate RowsInv(rows: Table, born: map<ActionId, Action>) {
    forall id :: id in rows ==> id in born && SameRow(born[id], rows[id])
  }

  /** An id that was issued is known, and is not pending any more. */
  ghost predicate IssuedInv(rows: Table, born: map<ActionId, Action>, issued: map<ActionId, RequestId>) {
    forall id :: id in issued ==> id in born && (id in rows ==> rows[id].status != Pending)
  }

  /** An answer's commands were issued by that answer, belong to the asking
      host, and decode the rows they name. */
  ghost predicate AnswerInv(
    cmds: seq<Command>, rid: RequestId, host: HostId, born: map<ActionId, Action>,
    issued: map<ActionId, RequestId>)
  {
    && (forall k :: 0 <= k < |cmds| ==>
          && cmds[k].id in issued && issued[cmds[k].id] == rid
          && cmds[k].id in born && born[cmds[k].id].host == host
          && cmds[k] == CommandOf(cmds[k].id, born[cmds[k].id]))
    && (forall j, k :: 0 <= j < k < |cmds| ==> cmds[j].id != cmds[k].id)
  }

  ghost predicate ResponsesInv(requests: map<RequestId, Request>, responses: map<RequestId, seq<Command>>,
                               born: map<ActionId, Action>, issued: map<ActionId, RequestId>) {
    forall rid :: rid in responses ==>
      rid in requests && AnswerInv(responses[rid], rid, requests[rid].host, born, issued)
  }

  ghost predicate AgentInv(
    h: HostId, a: AgentState, requests: map<RequestId, Request>, responses: map<RequestId, seq<Command>>)
  {
    match a.tick
    case Idle => true
    case Awaiting(rid, results) => a.queue == [] && rid in requests && requests[rid] == Request(h, results)
    case Executing(rid, todo, done) =>
      && a.queue == [] && rid in responses && rid in requests && requests[rid].host == h
      && |done| <= |responses[rid]| && todo == responses[rid][|done|..]
      && forall k :: 0 <= k < |done| ==> done[k].commandId == Uuid(responses[rid][k].id)
  }

  ghost predicate AgentsInv(
    agents: map<HostId, AgentState>, requests: map<RequestId, Request>, responses: map<RequestId, seq<Command>>)
  {
    forall h :: h in agents ==> AgentInv(h, agents[h], requests, responses)
  }

  /** An execution ran a command of an answer given to its own host. */
  ghost predicate ExecutionInv(
    e: Execution, requests: map<RequestId, Request>, responses: map<RequestId, seq<Command>>)
  {
    && e.rid in requests && requests[e.rid].host == e.host
    && e.rid in responses && e.cmd in responses[e.rid]
    && e.result.commandId == Uuid(e.cmd.id) && e.result.status != Unspecified
    && (e.cmd.payload.NoPayload? ==> e.result.status == Unsupported)
  }

  /** The execution is over for its agent: that answer is not awaited, and its
      command is not to be run again. */
  ghost predicate Past(e: Execution, agents: map<HostId, AgentState>) {
    e.host in agents && match agents[e.host].tick
      case Idle => true
      case Awaiting(rid, _) => rid != e.rid
      case Executing(rid, todo, _) => rid == e.rid ==> e.cmd !in todo
  }

  ghost predicate LogInv(
    log: seq<Execution>, agents: map<HostId, AgentState>, requests: map<RequestId, Request>,
    responses: map<RequestId, seq<Command>>)
  {
    forall i :: 0 <= i < |log| ==> ExecutionInv(log[i], requests, responses) && Past(log[i], agents)
  }

  ghost predicate ExecutedOnce(log: seq<Execution>) {
    forall i, j :: 0 <= i < j < |log| ==> log[i].cmd.id != log[j].cmd.id
  }

  ghost predicate Logged(log: seq<Execution>, h: HostId, r: CommandResult) {
    exists i :: 0 <= i < |log| && log[i].host == h && log[i].result == r
  }

  ghost predicate AllLogged(log: seq<Execution>, h: HostId, results: seq<CommandResult>) {
    forall k :: 0 <= k < |results| ==> Logged(log, h, results[k])
  }

  /** Agents hold and report only results of what they executed. */
  ghost predicate ReportsInv(log: seq<Execution>, agents: map<HostId, AgentState>, requests: map<RequestId, Request>) {
    && (forall h :: h in agents ==> AllLogged(log, h, Held(agents[h])))
    && (forall rid :: rid in requests ==> AllLogged(log, requests[rid].host, requests[rid].results))
  }

  /** The result was part of a heartbeat that the server committed. */
  ghost predicate Processed(
    requests: map<RequestId, Request>, responses: map<RequestId, seq<Command>>, h: HostId, r: CommandResult)
  {
    exists rid :: rid in responses && rid in requests && requests[rid].host == h && r in requests[rid].results
  }

  ghost predicate Conserved(
    log: seq<Execution>, agents: map<HostId, AgentState>, requests: map<RequestId, Request>,
    responses: map<RequestId, seq<Command>>)
  {
    forall i | 0 <= i < |log| ::
      && log[i].host in agents
      && (log[i].result in Held(agents[log[i].host]) || Processed(requests, responses, log[i].host, log[i].result))
  }

  ghost predicate NoDuplicateIds(results: seq<CommandResult>) {
    forall j, k :: 0 <= j < k < |results| ==> results[j].commandId != results[k].commandId
  }

  ghost predicate HeldOnce(agents: map<HostId, AgentState>) {
    forall h :: h in agents ==> NoDuplicateIds(Held(agents[h]))
  }

  /** An execution that justifies a row's final status and error text. */
  ghost predicate Attests(e: Execution, id: ActionId, a: Action) {
    && e.cmd.id == id && e.host == a.host
    && (a.status == Executed ==> e.result.status == Ok)
    && (a.status == Failed ==>
          || (e.result.status == FailedResult && a.error == Some(e.result.message))
          || (e.result.status == Unsupported && a.error == Some("unsupported: " + e.result.message)))
  }

  ghost predicate Attested(log: seq<Execution>, id: ActionId, a: Action) {
    a.status == Executed || a.status == Failed ==> exists i :: 0 <= i < |log| && Attests(log[i], id, a)
  }

  ghost predicate TruthInv(rows: Table, log: seq<Execution>) {
    forall id :: id in rows ==> Attested(log, id, rows[id])
  }

  ghost predicate Inv(w: World) {
    && RowsInv(w.rows, w.born)
    && IssuedInv(w.rows, w.born, w.issued)
    && ResponsesInv(w.requests, w.responses, w.born, w.issued)
    && AgentsInv(w.agents, w.requests, w.responses)
    && LogInv(w.log, w.agents, w.requests, w.responses)
    && ExecutedOnce(w.log)
    && ReportsInv(w.log, w.agents, w.requests)
    && Conserved(w.log, w.agents, w.requests, w.responses)
    && HeldOnce(w.agents)
    && TruthInv(w.rows, w.log)
  }

  // ----------------------------------------------------------- row-only steps

  /** A step that changes rows without reporting anything: old rows keep their
      identity, none becomes pending, executed or failed, new ones are pending. */
  ghost predicate QuietRows(t: Table, u: Table, born: map<ActionId, Action>) {
    forall id :: id in u ==>
      if id in t then SameRow(t[id], u[id]) && (u[id] == t[id] || u[id].status == Reverted)
      else id !in born && u[id].status == Pending
  }

  lemma QuietRowsKeepInv(w: World, v: World)
    requires Inv(w) && QuietRows(w.rows, v.rows, w.born)
    requires forall id :: id in w.born ==> id in v.born && v.born[id] == w.born[id]
    requires forall id :: id in v.rows && id !in w.born ==> id in v.born && v.born[id] == v.rows[id]
    requires v.agents == w.agents && v.requests == w.requests && v.responses == w.responses
    requires v.issued == w.issued && v.log == w.log
    ensures Inv(v)
  {
    assert ResponsesInv(v.requests, v.responses, v.born, v.issued) by {
      forall rid | rid in v.responses ensures AnswerInv(v.responses[rid], rid, v.requests[rid].host, v.born, v.issued) {
        assert AnswerInv(w.responses[rid], rid, w.requests[rid].host, w.born, w.issued);
      }
    }
    forall id | id in v.rows ensures Attested(v.log, id, v.rows[id]) {
      if id in w.rows { assert Attested(w.log, id, w.rows[id]); }
    }
  }

  lemma ScheduleIsQuiet(
    t: Table, kind: Kind, byTarget: bool, slots: seq<Slot>, ids: seq<ActionId>, born: map<ActionId, Action>)
    requires |slots| == |ids| && Distinct(ids) && t.Keys <= born.Keys
    requires forall i :: 0 <= i < |ids| ==> ids[i] !in born
    ensures QuietRows(t, Schedule(t, kind, byTarget, slots, ids).rows, born)
  {
    var taken, u := Taken(t, kind, byTarget, slots), Schedule(t, kind, byTarget, slots, ids).rows;
    BatchRows(t, kind, taken, slots, ids, |slots|);
    forall id | id in u && id !in t ensures id !in born && u[id].status == Pending {
      var k :| 0 <= k < |ids| && ids[k] == id;
    }
  }

  ghost predicate IsRowStep(s: Step) {
    s.PolicyCreate? || s.RestCreate? || s.RunSchedule? || s.RevertRow? || s.DeleteRow? || s.DeleteHost?
  }

  lemma CreateIsQuiet(t: Table, id: ActionId, h: HostId, kind: Kind, target: string, reason: string,
                      byTarget: bool, blocking: set<Status>, born: map<ActionId, Action>)
    requires id !in born && t.Keys <= born.Keys
    ensures QuietRows(t, TryCreate(t, id, h, kind, target, reason, byTarget, blocking), born)
  {
  }

  lemma RevertIsQuiet(t: Table, id: ActionId, unblockId: ActionId, now: Time, born: map<ActionId, Action>)
    requires id in t && unblockId !in born && t.Keys <= born.Keys
    ensures QuietRows(t, Revert(t, id, unblockId, now), born)
  {
  }

  lemma RowStepIsQuiet(w: World, s: Step)
    requires RowsInv(w.rows, w.born) && Enabled(w, s) && IsRowStep(s)
    ensures QuietRows(w.rows, Apply(w, s).rows, w.born)
  {
    match s
    case PolicyCreate(id, h, kind, target, reason) =>
      CreateIsQuiet(w.rows, id, h, kind, target, reason, true, ACTIVE, w.born);
    case RestCreate(id, h, kind, target, reason, byTarget) =>
      CreateIsQuiet(w.rows, id, h, kind, target, reason, byTarget, OPEN, w.born);
    case RunSchedule(kind, byTarget, slots, ids) => ScheduleIsQuiet(w.rows, kind, byTarget, slots, ids, w.born);
    case RevertRow(id, unblockId, now) => RevertIsQuiet(w.rows, id, unblockId, now, w.born);
    case DeleteRow(_) =>
    case DeleteHost(_) =>
  }

  /** Of everything else, a row step only extends the record of ids. */
  lemma RowStepFrame(w: World, s: Step)
    requires Enabled(w, s) && IsRowStep(s)
    ensures var v := Apply(w, s);
      && v.agents == w.agents && v.requests == w.requests && v.responses == w.responses
      && v.issued == w.issued && v.log == w.log
      && (forall id :: id in w.born ==> id in v.born && v.born[id] == w.born[id])
  {
  }

  lemma RowStepRecordsIds(w: World, s: Step)
    requires RowsInv(w.rows, w.born) && Enabled(w, s) && IsRowStep(s)
    ensures forall id :: id in Apply(w, s).rows && id !in w.born ==>
      id in Apply(w, s).born && Apply(w, s).born[id] == Apply(w, s).rows[id]
  {
  }

  lemma RowStepKeepsInv(w: World, s: Step)
    requires Inv(w) && Enabled(w, s) && IsRowStep(s)
    ensures Inv(Apply(w, s))
  {
    RowStepIsQuiet(w, s);
    RowStepFrame(w, s);
    RowStepRecordsIds(w, s);
    QuietRowsKeepInv(w, Apply(w, s));
  }

  // -------------------------------------------------------------- agent steps

  lemma MoreLogged(log: seq<Execution>, e: Execution, h: HostId, results: seq<CommandResult>)
    requires AllLogged(log, h, results)
    ensures AllLogged(log + [e], h, results)
  {
    forall k | 0 <= k < |results| ensures Logged(log + [e], h, results[k]) {
      assert Logged(log, h, results[k]);
      var i :| 0 <= i < |log| && log[i].host == h && log[i].result == results[k];
      assert (log + [e])[i] == log[i];
    }
  }

  /** A step of one agent that changes neither messages nor the log: it must
      keep the agent in order, keep or hand over what it holds, and stay clear
      of what was already executed. */
  lemma AgentStepKeepsInv(w: World, h: HostId, a: AgentState)
    requires Inv(w) && h in w.agents
    requires AgentInv(h, a, w.requests, w.responses)
    requires Held(a) == Held(w.agents[h]) || (a.tick.Executing? && a.queue == [] && a.tick.done == []
             && w.agents[h].tick.Awaiting? && w.agents[h].tick.rid == a.tick.rid)
    requires forall i :: 0 <= i < |w.log| && w.log[i].host == h ==> Past(w.log[i], w.agents[h := a])
    ensures Inv(WithAgent(w, h, a))
  {
    var v := WithAgent(w, h, a);
    assert LogInv(v.log, v.agents, v.requests, v.responses);
    forall i | 0 <= i < |v.log|
      ensures v.log[i].result in Held(v.agents[v.log[i].host]) ||
        Processed(v.requests, v.responses, v.log[i].host, v.log[i].result)
    {
      assert v.log[i].host in w.agents;
      if v.log[i].host == h && Held(a) != Held(w.agents[h]) {
        var rid := a.tick.rid;
        assert AgentInv(h, w.agents[h], w.requests, w.responses);
        assert Held(w.agents[h]) == w.requests[rid].results;
      }
    }
  }

  /** Asking for more loses nothing: what is sent was logged and is held. */
  lemma NewRequestKeepsReports(w: World, h: HostId, rid: RequestId, b: AgentState)
    requires h in w.agents && rid !in w.requests && Held(b) == Held(w.agents[h])
    requires ReportsInv(w.log, w.agents, w.requests) && HeldOnce(w.agents)
    ensures ReportsInv(w.log, w.agents[h := b], w.requests[rid := Request(h, Held(b))]) && HeldOnce(w.agents[h := b])
  {
    var agents := w.agents[h := b];
    forall g | g in agents ensures AllLogged(w.log, g, Held(agents[g])) && NoDuplicateIds(Held(agents[g])) {
      assert AllLogged(w.log, g, Held(w.agents[g]));
    }
  }

  lemma NewRequestKeepsConserved(w: World, h: HostId, rid: RequestId, r: Request, b: AgentState)
    requires h in w.agents && rid !in w.requests && Held(b) == Held(w.agents[h])
    requires Conserved(w.log, w.agents, w.requests, w.responses)
    ensures Conserved(w.log, w.agents[h := b], w.requests[rid := r], w.responses)
  {
    forall i | 0 <= i < |w.log| && Processed(w.requests, w.responses, w.log[i].host, w.log[i].result)
      ensures Processed(w.requests[rid := r], w.responses, w.log[i].host, w.log[i].result)
    {
      var q :| q in w.responses && q in w.requests && w.requests[q].host == w.log[i].host &&
        w.log[i].result in w.requests[q].results;
      assert q in w.requests[rid := r];
    }
  }

  lemma NewRequestKeepsMessages(w: World, h: HostId, rid: RequestId)
    requires Inv(w) && Enabled(w, BeginTick(h, rid))
    ensures var v := Apply(w, BeginTick(h, rid));
      && ResponsesInv(v.requests, v.responses, v.born, v.issued)
      && AgentsInv(v.agents, v.requests, v.responses)
      && LogInv(v.log, v.agents, v.requests, v.responses)
  {
    var v := Apply(w, BeginTick(h, rid));
    forall r | r in v.responses
      ensures r in v.requests && AnswerInv(v.responses[r], r, v.requests[r].host, v.born, v.issued)
    {
      assert r in w.responses;
    }
    forall g | g in v.agents ensures AgentInv(g, v.agents[g], v.requests, v.responses) {
      assert g in w.agents && AgentInv(g, w.agents[g], w.requests, w.responses);
    }
    forall i | 0 <= i < |v.log| ensures ExecutionInv(v.log[i], v.requests, v.responses) && Past(v.log[i], v.agents) {
      assert ExecutionInv(w.log[i], w.requests, w.responses) && Past(w.log[i], w.agents);
    }
  }

  lemma BeginTickKeepsInv(w: World, h: HostId, rid: RequestId)
    requires Inv(w) && Enabled(w, BeginTick(h, rid))
    ensures Inv(Apply(w, BeginTick(h, rid)))
  {
    var a := w.agents[h];
    var b := Begin(a, rid);
    assert Held(b) == Held(a) == a.queue;
    NewRequestKeepsMessages(w, h, rid);
    NewRequestKeepsReports(w, h, rid, b);
    NewRequestKeepsConserved(w, h, rid, Request(h, Held(b)), b);
  }

  lemma RpcFailsKeepsInv(w: World, h: HostId)
    requires Inv(w) && Enabled(w, RpcFails(h))
    ensures Inv(Apply(w, RpcFails(h)))
  {
    assert Held(Fail(w.agents[h])) == Held(w.agents[h]);
    AgentStepKeepsInv(w, h, Fail(w.agents[h]));
  }

  lemma AcceptKeepsInv(w: World, h: HostId)
    requires Inv(w) && Enabled(w, AcceptResponse(h))
    ensures Inv(Apply(w, AcceptResponse(h)))
  {
    var rid := w.agents[h].tick.rid;
    var a := Accept(w.agents[h], w.responses[rid]);
    assert AgentInv(h, w.agents[h], w.requests, w.responses);
    assert w.responses[rid][0..] == w.responses[rid];
    forall i | 0 <= i < |w.log| && w.log[i].host == h ensures Past(w.log[i], w.agents[h := a]) {
      assert Past(w.log[i], w.agents);
    }
    AgentStepKeepsInv(w, h, a);
  }

  lemma EndTickKeepsInv(w: World, h: HostId)
    requires Inv(w) && Enabled(w, EndTick(h))
    ensures Inv(Apply(w, EndTick(h)))
  {
    assert Held(Finish(w.agents[h])) == Held(w.agents[h]);
    AgentStepKeepsInv(w, h, Finish(w.agents[h]));
  }

  /** The next command of an accepted answer was never executed before. */
  lemma NextCommandIsNew(w: World, h: HostId)
    requires Inv(w) && h in w.agents && w.agents[h].tick.Executing? && w.agents[h].tick.todo != []
    ensures forall i :: 0 <= i < |w.log| ==> w.log[i].cmd.id != w.agents[h].tick.todo[0].id
    ensures forall k :: 0 <= k < |Held(w.agents[h])| ==>
      Held(w.agents[h])[k].commandId != Uuid(w.agents[h].tick.todo[0].id)
  {
    var a := w.agents[h];
    var rid, n := a.tick.rid, |a.tick.done|;
    assert AgentInv(h, a, w.requests, w.responses);
    var cmds := w.responses[rid];
    assert a.tick.todo[0] == cmds[n];
    assert AnswerInv(cmds, rid, h, w.born, w.issued);
    forall i | 0 <= i < |w.log| ensures w.log[i].cmd.id != cmds[n].id {
      var e := w.log[i];
      assert ExecutionInv(e, w.requests, w.responses) && Past(e, w.agents);
      if e.cmd.id == cmds[n].id {
        assert false;
      }
    }
    assert Held(a) == a.tick.done;
  }

  lemma RunOneKeepsLog(w: World, h: HostId, verdict: Verdict)
    requires Inv(w) && Enabled(w, RunOne(h, verdict))
    ensures var v := Apply(w, RunOne(h, verdict));
      AgentsInv(v.agents, v.requests, v.responses) && LogInv(v.log, v.agents, v.requests, v.responses)
  {
    var v := Apply(w, RunOne(h, verdict));
    var a := w.agents[h];
    var rid, cmd := a.tick.rid, a.tick.todo[0];
    assert AgentInv(h, a, w.requests, w.responses);
    assert w.responses[rid][|a.tick.done|] == cmd;
    assert AnswerInv(w.responses[rid], rid, h, w.born, w.issued);
    assert AgentInv(h, v.agents[h], v.requests, v.responses);
    forall i | 0 <= i < |v.log| ensures ExecutionInv(v.log[i], v.requests, v.responses) && Past(v.log[i], v.agents) {
      if i < |w.log| { assert ExecutionInv(w.log[i], w.requests, w.responses) && Past(w.log[i], w.agents); }
    }
  }

  lemma RunOneReports(w: World, h: HostId, e: Execution, b: AgentState)
    requires Inv(w) && h in w.agents && e.host == h && Held(b) == Held(w.agents[h]) + [e.result]
    ensures ReportsInv(w.log + [e], w.agents[h := b], w.requests)
    ensures Conserved(w.log + [e], w.agents[h := b], w.requests, w.responses)
  {
    var agents := w.agents[h := b];
    forall g | g in agents ensures AllLogged(w.log + [e], g, Held(agents[g])) {
      MoreLogged(w.log, e, g, Held(w.agents[g]));
      if g == h { assert (w.log + [e])[|w.log|] == e; }
    }
    forall rid | rid in w.requests ensures AllLogged(w.log + [e], w.requests[rid].host, w.requests[rid].results) {
      MoreLogged(w.log, e, w.requests[rid].host, w.requests[rid].results);
    }
    assert Held(b)[|Held(w.agents[h])|] == e.result;
  }

  lemma MoreAttested(log: seq<Execution>, e: Execution, id: ActionId, a: Action)
    requires Attested(log, id, a)
    ensures Attested(log + [e], id, a)
  {
    if i :| 0 <= i < |log| && Attests(log[i], id, a) { assert (log + [e])[i] == log[i]; }
  }

  lemma RunOneStaysOnce(w: World, h: HostId, e: Execution, b: AgentState)
    requires h in w.agents && Held(b) == Held(w.agents[h]) + [e.result]
    requires ExecutedOnce(w.log) && HeldOnce(w.agents) && e.result.commandId == Uuid(e.cmd.id)
    requires forall i :: 0 <= i < |w.log| ==> w.log[i].cmd.id != e.cmd.id
    requires forall k :: 0 <= k < |Held(w.agents[h])| ==> Held(w.agents[h])[k].commandId != Uuid(e.cmd.id)
    ensures ExecutedOnce(w.log + [e]) && HeldOnce(w.agents[h := b])
  {
  }

  lemma RunOneKeepsTruth(rows: Table, log: seq<Execution>, e: Execution)
    requires TruthInv(rows, log)
    ensures TruthInv(rows, log + [e])
  {
    forall id | id in rows ensures Attested(log + [e], id, rows[id]) {
      MoreAttested(log, e, id, rows[id]);
    }
  }

  lemma RunOneKeepsInv(w: World, h: HostId, verdict: Verdict)
    requires Inv(w) && Enabled(w, RunOne(h, verdict))
    ensures Inv(Apply(w, RunOne(h, verdict)))
  {
    var a, b := w.agents[h], RunNext(w.agents[h], verdict);
    var cmd := a.tick.todo[0];
    var e := Execution(h, a.tick.rid, cmd, ResultOf(cmd, verdict));
    NextCommandIsNew(w, h);
    assert Held(b) == Held(a) + [e.result];
    RunOneKeepsLog(w, h, verdict);
    RunOneReports(w, h, e, b);
    RunOneStaysOnce(w, h, e, b);
    RunOneKeepsTruth(w.rows, w.log, e);
  }

  // ------------------------------------------------------------- server steps

  /** A row that a heartbeat's results decide is backed by the execution that
      the deciding result reports. */
  lemma NamedRowIsAttested(w: World, rid: RequestId, now: Time, id: ActionId)
    requires rid in w.requests && id in w.rows
    requires LogInv(w.log, w.agents, w.requests, w.responses) && ReportsInv(w.log, w.agents, w.requests)
    requires NamedWithStatus(w.requests[rid].host, w.rows[id], w.requests[rid].results, id)
    ensures id in Applied(w, rid, now) && Attested(w.log, id, Applied(w, rid, now)[id])
  {
    var host, results := w.requests[rid].host, w.requests[rid].results;
    ApplyResultsFrame(w.rows, host, results, now);
    var k :| 0 <= k < |results| && results[k].commandId == Uuid(id) && results[k].status != Unspecified;
    var last := LastNamed(results, id, k);
    LastResultDecides(w.rows, host, results, now, id, last);
    assert AllLogged(w.log, host, results);
    assert Logged(w.log, host, results[last]);
    var i :| 0 <= i < |w.log| && w.log[i].host == host && w.log[i].result == results[last];
    assert ExecutionInv(w.log[i], w.requests, w.responses);
    assert Attests(w.log[i], id, Applied(w, rid, now)[id]);
  }

  lemma SameStatusIsAttested(log: seq<Execution>, id: ActionId, a: Action, b: Action)
    requires Attested(log, id, a) && b.host == a.host && b.status == a.status && b.error == a.error
    ensures Attested(log, id, b)
  {
    if i :| 0 <= i < |log| && Attests(log[i], id, a) { assert Attests(log[i], id, b); }
  }

  /** A heartbeat's results leave every row's status backed by an execution. */
  lemma HeartbeatKeepsTruth(w: World, rid: RequestId, now: Time)
    requires Inv(w) && rid in w.requests
    ensures TruthInv(Applied(w, rid, now), w.log)
  {
    var host, results := w.requests[rid].host, w.requests[rid].results;
    ApplyResultsFrame(w.rows, host, results, now);
    forall id | id in w.rows ensures Attested(w.log, id, Applied(w, rid, now)[id]) {
      assert Attested(w.log, id, w.rows[id]);
      if NamedWithStatus(host, w.rows[id], results, id) {
        NamedRowIsAttested(w, rid, now, id);
      } else {
        UnnamedRowKeepsStatus(w.rows, host, results, now, id);
        SameStatusIsAttested(w.log, id, w.rows[id], Applied(w, rid, now)[id]);
      }
    }
  }

  /** Rows that a heartbeat sends were pending before it, hence never issued. */
  lemma SentRowsAreNew(w: World, rid: RequestId, now: Time)
    requires Inv(w) && rid in w.requests
    ensures forall id :: id in PendingIds(Applied(w, rid, now), w.requests[rid].host) ==>
      id in w.rows && w.rows[id].status == Pending && id !in w.issued
  {
    var host, results := w.requests[rid].host, w.requests[rid].results;
    ApplyResultsFrame(w.rows, host, results, now);
    forall id | id in PendingIds(Applied(w, rid, now), host) ensures w.rows[id].status == Pending {
      StatusComesFromResults(w.rows, host, results, now, id);
    }
  }

  lemma HandleKeepsTruth(w: World, rid: RequestId, now: Time)
    requires Inv(w) && rid in w.requests
    ensures TruthInv(AfterHeartbeat(w.rows, w.requests[rid].host, w.requests[rid].results, now), w.log)
  {
    var host, results := w.requests[rid].host, w.requests[rid].results;
    var applied, rows := Applied(w, rid, now), AfterHeartbeat(w.rows, host, results, now);
    HeartbeatFrame(w.rows, host, results, now);
    HeartbeatKeepsTruth(w, rid, now);
    forall id | id in rows ensures Attested(w.log, id, rows[id]) {
      assert Attested(w.log, id, applied[id]);
      if rows[id].status == Executed || rows[id].status == Failed {
        SameStatusIsAttested(w.log, id, applied[id], rows[id]);
      }
    }
  }

  lemma HandleKeepsInv(w: World, rid: RequestId, cmds: seq<Command>, now: Time)
    requires Inv(w) && Enabled(w, Handle(rid, cmds, now))
    ensures Inv(Apply(w, Handle(rid, cmds, now)))
  {
    HandleKeepsTables(w, rid, cmds, now);
    HandleKeepsResponses(w, rid, cmds, now);
    HandleKeepsMessages(w, rid, cmds, now);
    HandleKeepsTruth(w, rid, now);
  }

  lemma HandleKeepsTables(w: World, rid: RequestId, cmds: seq<Command>, now: Time)
    requires Inv(w) && Enabled(w, Handle(rid, cmds, now))
    ensures var v := Apply(w, Handle(rid, cmds, now)); RowsInv(v.rows, v.born) && IssuedInv(v.rows, v.born, v.issued)
  {
    var v := Apply(w, Handle(rid, cmds, now));
    var host, results := w.requests[rid].host, w.requests[rid].results;
    HeartbeatFrame(w.rows, host, results, now);
    SentRowsAreNew(w, rid, now);
    forall id | id in v.issued ensures id in v.born && (id in v.rows ==> v.rows[id].status != Pending) {
      if id in w.rows && id in w.issued { StatusComesFromResults(w.rows, host, results, now, id); }
    }
  }

  lemma HandleKeepsResponses(w: World, rid: RequestId, cmds: seq<Command>, now: Time)
    requires Inv(w) && Enabled(w, Handle(rid, cmds, now))
    ensures var v := Apply(w, Handle(rid, cmds, now)); ResponsesInv(v.requests, v.responses, v.born, v.issued)
  {
    var v := Apply(w, Handle(rid, cmds, now));
    var host, results := w.requests[rid].host, w.requests[rid].results;
    ApplyResultsFrame(w.rows, host, results, now);
    SentRowsAreNew(w, rid, now);
    NewAnswerInv(w, rid, cmds, now);
    forall r | r in v.responses
      ensures r in v.requests && AnswerInv(v.responses[r], r, v.requests[r].host, v.born, v.issued)
    {
      if r != rid { assert AnswerInv(w.responses[r], r, w.requests[r].host, w.born, w.issued); }
    }
  }

  lemma NewAnswerInv(w: World, rid: RequestId, cmds: seq<Command>, now: Time)
    requires Inv(w) && Enabled(w, Handle(rid, cmds, now))
    ensures AnswerInv(cmds, rid, w.requests[rid].host, w.born, Apply(w, Handle(rid, cmds, now)).issued)
  {
    var t := Applied(w, rid, now);
    ApplyResultsFrame(w.rows, w.requests[rid].host, w.requests[rid].results, now);
    forall id | id in t ensures id in w.born && SameRow(w.born[id], t[id]) {
      assert SameRow(w.born[id], w.rows[id]);
    }
    SentRowsAnswer(t, w.requests[rid].host, rid, cmds, w.born, w.issued);
  }

  lemma SentRowsAnswer(t: Table, host: HostId, rid: RequestId, cmds: seq<Command>,
                       born: map<ActionId, Action>, issued: map<ActionId, RequestId>)
    requires Dispatches(t, PendingIds(t, host), cmds)
    requires forall id :: id in t ==> id in born && SameRow(born[id], t[id])
    ensures AnswerInv(cmds, rid, host, born, issued + map id | id in PendingIds(t, host) :: rid)
  {
    forall k | 0 <= k < |cmds|
      ensures cmds[k].id in t && t[cmds[k].id].host == host && cmds[k] == CommandOf(cmds[k].id, born[cmds[k].id])
    {
      assert SameRow(born[cmds[k].id], t[cmds[k].id]);
    }
  }

  lemma HandleKeepsMessages(w: World, rid: RequestId, cmds: seq<Command>, now: Time)
    requires Inv(w) && Enabled(w, Handle(rid, cmds, now))
    ensures var v := Apply(w, Handle(rid, cmds, now));
      && AgentsInv(v.agents, v.requests, v.responses)
      && LogInv(v.log, v.agents, v.requests, v.responses)
      && Conserved(v.log, v.agents, v.requests, v.responses)
  {
    var v := Apply(w, Handle(rid, cmds, now));
    forall h | h in v.agents ensures AgentInv(h, v.agents[h], v.requests, v.responses) {
      assert AgentInv(h, w.agents[h], w.requests, w.responses);
    }
    forall i | 0 <= i < |v.log| ensures ExecutionInv(v.log[i], v.requests, v.responses) {
      assert ExecutionInv(w.log[i], w.requests, w.responses);
    }
    forall i | 0 <= i < |v.log|
      ensures v.log[i].result in Held(v.agents[v.log[i].host]) ||
        Processed(v.requests, v.responses, v.log[i].host, v.log[i].result)
    {
      if Processed(w.requests, w.responses, w.log[i].host, w.log[i].result) {
        var q :| q in w.responses && q in w.requests && w.requests[q].host == w.log[i].host &&
          w.log[i].result in w.requests[q].results;
        assert q in v.responses;
      }
    }
  }

  lemma EnrollKeepsInv(w: World, h: HostId)
    requires Inv(w) && Enabled(w, Enroll(h))
    ensures Inv(Apply(w, Enroll(h)))
  {
    var v := Apply(w, Enroll(h));
    assert Held(v.agents[h]) == [];
    forall g | g in v.agents ensures AgentInv(g, v.agents[g], v.requests, v.responses) {
      if g != h { assert AgentInv(g, w.agents[g], w.requests, w.responses); }
    }
  }

  lemma StepKeepsInv(w: World, s: Step)
    requires Inv(w) && Enabled(w, s)
    ensures Inv(Apply(w, s))
  {
    match s
    case Enroll(h) => EnrollKeepsInv(w, h);
    case BeginTick(h, rid) => BeginTickKeepsInv(w, h, rid);
    case Handle(rid, cmds, now) => HandleKeepsInv(w, rid, cmds, now);
    case RpcFails(h) => RpcFailsKeepsInv(w, h);
    case AcceptResponse(h) => AcceptKeepsInv(w, h);
    case RunOne(h, verdict) => RunOneKeepsInv(w, h, verdict);
    case EndTick(h) => EndTickKeepsInv(w, h);
    case _ => RowStepKeepsInv(w, s);
  }

  lemma {:induction false} RunKeepsInv(ws: seq<World>, steps: seq<Step>, n: nat)
    requires IsRun(ws, steps) && n < |ws|
    ensures Inv(ws[n])
  {
    if n > 0 {
      RunKeepsInv(ws, steps, n - 1);
      StepKeepsInv(ws[n - 1], steps[n - 1]);
    }
  }
}
