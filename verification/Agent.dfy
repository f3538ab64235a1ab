/** The agent side: the dispatcher that executes commands and the heartbeat loop
    that queues their results (agent/internal/cmddispatcher/dispatcher.go,
    agent/internal/heartbeat/heartbeat.go). */
module Agent {
  import opened Base
  import opened Commands

  /** What a handler reports: always one of these three, never unspecified. */
  datatype Verdict = Verdict(status: ResultStatus, message: string, at: Time)

  predicate ValidVerdict(v: Verdict) { v.status != Unspecified }

  const NO_HANDLER := "tipo de comando nao suportado pelo agente"

  /** The result of one command, given what its handler would report. */
  function ResultOf(cmd: Command, v: Verdict): CommandResult {
    if cmd.payload.NoPayload? then CommandResult(Uuid(cmd.id), Unsupported, NO_HANDLER, Some(v.at))
    else CommandResult(Uuid(cmd.id), v.status, v.message, Some(v.at))
  }

  /** The result reports, under the command's id, what its handler said; a
      command without a payload has no handler. */
  ghost predicate ReportsVerdict(r: CommandResult, cmd: Command, v: Verdict) {
    && r.commandId == Uuid(cmd.id) && r.executedAt == Some(v.at)
    && (cmd.payload.NoPayload? ==> r.status == Unsupported && r.message == "tipo de comando nao suportado pelo agente")
    && (!cmd.payload.NoPayload? ==> r.status == v.status && r.message == v.message)
  }

  /** One result for each command, in command order. */
  function ResultsOf(cmds: seq<Command>, verdicts: seq<Verdict>): seq<CommandResult>
    requires |verdicts| == |cmds|
  {
    seq(|cmds|, i requires 0 <= i < |cmds| => ResultOf(cmds[i], verdicts[i]))
  }

  class Dispatcher {
    /** One entry per executed command, in execution order. */
    var executed: seq<Command>

    constructor ()
      ensures executed == []
    {
      executed := [];
    }

    method Execute(cmd: Command, v: Verdict) returns (r: CommandResult)
      modifies this
      ensures r == ResultOf(cmd, v) && ReportsVerdict(r, cmd, v)
      ensures executed == old(executed) + [cmd]
    {
      executed := executed + [cmd];
      var status, message := Unspecified, "";
      match cmd.payload {
        case NoPayload => status, message := Unsupported, NO_HANDLER;
        case _ => status, message := v.status, v.message;
      }
      r := CommandResult(Uuid(cmd.id), status, message, Some(v.at));
    }

    /** Executes every command once, in order, and returns one result for each. */
    method ExecuteAll(cmds: seq<Command>, verdicts: seq<Verdict>) returns (out: seq<CommandResult>)
      requires |verdicts| == |cmds|
      modifies this
      ensures executed == old(executed) + cmds
      ensures out == ResultsOf(cmds, verdicts)
      ensures |out| == |cmds| && forall k :: 0 <= k < |cmds| ==> ReportsVerdict(out[k], cmds[k], verdicts[k])
    {
      out := [];
      for i := 0 to |cmds|
        invariant executed == old(executed) + cmds[..i]
        invariant |out| == i && forall k :: 0 <= k < i ==> out[k] == ResultOf(cmds[k], verdicts[k])
      {
        var r := Execute(cmds[i], verdicts[i]);
        out := out + [r];
      }
      assert cmds[..|cmds|] == cmds;
    }
  }

  datatype RpcReply = RpcError | RpcOk(commands: seq<Command>)

  class Loop {
    const dispatcher: Dispatcher
    var pendingResults: seq<CommandResult>

    constructor (dispatcher: Dispatcher)
      ensures this.dispatcher == dispatcher && pendingResults == []
    {
      this.dispatcher := dispatcher;
      pendingResults := [];
    }

    method TakePendingResults() returns (out: seq<CommandResult>)
      modifies this
      ensures out == old(pendingResults) && pendingResults == []
    {
      out := pendingResults;
      pendingResults := [];
    }

    method QueuePendingResults(results: seq<CommandResult>)
      modifies this
      ensures pendingResults == old(pendingResults) + results
    {
      if |results| == 0 { return; }
      pendingResults := pendingResults + results;
    }

    /** One heartbeat: everything queued is reported; an RPC error puts exactly
        that back; otherwise the queue holds the new commands' results. */
    method Tick(reply: RpcReply, verdicts: seq<Verdict>) returns (reported: seq<CommandResult>)
      requires reply.RpcOk? ==> |verdicts| == |reply.commands|
      modifies this, dispatcher
      ensures reported == old(pendingResults)
      ensures reply.RpcError? ==>
        pendingResults == old(pendingResults) && dispatcher.executed == old(dispatcher.executed)
      ensures reply.RpcOk? ==>
        && dispatcher.executed == old(dispatcher.executed) + reply.commands
        && |pendingResults| == |reply.commands|
        && forall k :: 0 <= k < |reply.commands| ==> ReportsVerdict(pendingResults[k], reply.commands[k], verdicts[k])
    {
      reported := TakePendingResults();
      if reply.RpcError? {
        QueuePendingResults(reported);
        return;
      }
      if |reply.commands| > 0 {
        var newResults := dispatcher.ExecuteAll(reply.commands, verdicts);
        QueuePendingResults(newResults);
      }
    }
  }

  // ------------------------------------------- the same loop, one step at a time

  type RequestId = nat

  /** Where an agent is inside a tick: the RPC is outstanding, or its commands
      are being executed. */
  datatype TickState =
    | Idle
    | Awaiting(rid: RequestId, results: seq<CommandResult>)
    | Executing(rid: RequestId, todo: seq<Command>, done: seq<CommandResult>)

  datatype AgentState = AgentState(queue: seq<CommandResult>, tick: TickState)

  /** Every result the agent still owes the server. */
  function Held(a: AgentState): seq<CommandResult> {
    a.queue + (match a.tick case Idle => [] case Awaiting(_, results) => results case Executing(_, _, done) => done)
  }

  function Begin(a: AgentState, rid: RequestId): AgentState
    requires a.tick.Idle?
  {
    AgentState([], Awaiting(rid, a.queue))
  }

  function Fail(a: AgentState): AgentState
    requires a.tick.Awaiting?
  {
    AgentState(a.queue + a.tick.results, Idle)
  }

  function Accept(a: AgentState, cmds: seq<Command>): AgentState
    requires a.tick.Awaiting?
  {
    a.(tick := Executing(a.tick.rid, cmds, []))
  }

  function RunNext(a: AgentState, v: Verdict): AgentState
    requires a.tick.Executing? && a.tick.todo != []
  {
    a.(tick := Executing(a.tick.rid, a.tick.todo[1..], a.tick.done + [ResultOf(a.tick.todo[0], v)]))
  }

  function Finish(a: AgentState): AgentState
    requires a.tick.Executing? && a.tick.todo == []
  {
    AgentState(a.queue + a.tick.done, Idle)
  }

  function RunAll(a: AgentState, verdicts: seq<Verdict>): AgentState
    requires a.tick.Executing? && |a.tick.todo| == |verdicts|
    decreases |verdicts|
  {
    if verdicts == [] then Finish(a) else RunAll(RunNext(a, verdicts[0]), verdicts[1..])
  }

  /** The steps add up to `Loop.Tick`: a failed RPC leaves the queue as it was,
      and a successful one leaves exactly the new results, in command order. */
  lemma StepsMakeATick(queue: seq<CommandResult>, rid: RequestId, cmds: seq<Command>, verdicts: seq<Verdict>)
    requires |verdicts| == |cmds|
    ensures Fail(Begin(AgentState(queue, Idle), rid)) == AgentState(queue, Idle)
    ensures RunAll(Accept(Begin(AgentState(queue, Idle), rid), cmds), verdicts)
         == AgentState(ResultsOf(cmds, verdicts), Idle)
  {
    assert [] + queue == queue;
    RunAllAppends(Accept(Begin(AgentState(queue, Idle), rid), cmds), verdicts);
  }

  lemma {:induction false} RunAllAppends(a: AgentState, verdicts: seq<Verdict>)
    requires a.tick.Executing? && |a.tick.todo| == |verdicts|
    ensures RunAll(a, verdicts) == AgentState(a.queue + (a.tick.done + ResultsOf(a.tick.todo, verdicts)), Idle)
    decreases |verdicts|
  {
    var todo := a.tick.todo;
    var results := ResultsOf(todo, verdicts);
    if verdicts == [] {
      assert a.tick.done + results == a.tick.done;
    } else {
      var b := RunNext(a, verdicts[0]);
      RunAllAppends(b, verdicts[1..]);
      var rest := ResultsOf(todo[1..], verdicts[1..]);
      assert results == [ResultOf(todo[0], verdicts[0])] + rest;
      assert b.tick.done + rest == a.tick.done + results;
    }
  }
}
