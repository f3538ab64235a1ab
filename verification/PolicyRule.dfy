/** The policy's own rule, that a host has one pending, sent or executed row per
    target (server/app/services/policy.py), over heartbeats and over runs. The
    policy keeps it; a result that comes back late may not. */
module PolicyRule {
  import opened Base
  import opened Actions
  import opened Commands
  import opened Agent
  import opened Protocol

  /** Two rows of one key, of a kind that the policy creates. */
  ghost predicate Rivals(t: Table, i: ActionId, j: ActionId) {
    i in t && j in t && i != j && SameKey(t[i], t[j]) && t[i].kind in POLICY_KINDS
  }

  ghost predicate PolicyUnique(t: Table) {
    forall i, j :: Rivals(t, i, j) ==> !(t[i].status in ACTIVE && t[j].status in ACTIVE)
  }

  // --------------------------------------------------------------- one result

  /** A reported result breaks the rule exactly when it marks executed a row that
      had left the active statuses while another active row took its place. */
  lemma LateResultKeepsPolicyUniqueIff(t: Table, host: HostId, r: CommandResult, now: Time)
    requires PolicyUnique(t)
    ensures PolicyUnique(ApplyResult(t, host, r, now)) <==>
      !(&& r.status == Ok && r.commandId.Uuid? && Reaches(t, host, r, r.commandId.id)
        && t[r.commandId.id].status !in ACTIVE && t[r.commandId.id].kind in POLICY_KINDS
        && Occupied(t, host, t[r.commandId.id].kind, Some(t[r.commandId.id].target), ACTIVE))
  {
    if r.commandId.Uuid? && Reaches(t, host, r, r.commandId.id) {
      var id, u := r.commandId.id, ApplyResult(t, host, r, now);
      var a := t[id];
      if r.status == Ok && a.status !in ACTIVE && a.kind in POLICY_KINDS {
        if Occupied(t, host, a.kind, Some(a.target), ACTIVE) {
          var k :| k in t && Occupies(t[k], host, a.kind, Some(a.target), ACTIVE);
          assert Rivals(u, k, id);
        } else {
          forall k | k in t && t[k].status in ACTIVE ensures !SameKey(t[k], a) {
            assert !Occupies(t[k], host, a.kind, Some(a.target), ACTIVE);
          }
        }
      }
      forall i, j | Rivals(u, i, j) ensures Rivals(t, i, j) {
      }
    }
  }

  // ------------------------------------------------------------ one heartbeat

  /** The results bring back a row that had left the active statuses. */
  predicate BringsBack(a: Action, host: HostId, results: seq<CommandResult>, id: ActionId) {
    a.host == host && a.status !in ACTIVE && LastStatus(results, id) == Some(Ok)
  }

  /** Row `i` is brought back although the results leave its rival `j` active. */
  ghost predicate Collides(t: Table, host: HostId, results: seq<CommandResult>, i: ActionId, j: ActionId) {
    Rivals(t, i, j) && BringsBack(t[i], host, results, i) && StatusAfter(t[j], host, results, j) in ACTIVE
  }

  lemma HeartbeatStatus(t: Table, host: HostId, results: seq<CommandResult>, now: Time, id: ActionId)
    requires id in t
    ensures id in AfterHeartbeat(t, host, results, now)
    ensures SameKey(AfterHeartbeat(t, host, results, now)[id], t[id])
    ensures AfterHeartbeat(t, host, results, now)[id].status in ACTIVE <==>
      StatusAfter(t[id], host, results, id) in ACTIVE
  {
    HeartbeatFrame(t, host, results, now);
    LastStatusDecides(t, host, results, now, id);
  }

  /** A whole heartbeat breaks the rule exactly when its results bring back a row
      whose rival is active afterwards, whatever else they report. */
  lemma HeartbeatKeepsPolicyUniqueIff(t: Table, host: HostId, results: seq<CommandResult>, now: Time)
    requires PolicyUnique(t)
    ensures PolicyUnique(AfterHeartbeat(t, host, results, now)) <==> !exists i, j :: Collides(t, host, results, i, j)
  {
    var u := AfterHeartbeat(t, host, results, now);
    HeartbeatFrame(t, host, results, now);
    forall id | id in t
      ensures SameKey(u[id], t[id]) && (u[id].status in ACTIVE <==> StatusAfter(t[id], host, results, id) in ACTIVE)
    {
      HeartbeatStatus(t, host, results, now, id);
    }
    forall i, j | Collides(t, host, results, i, j) ensures !PolicyUnique(u) {
      assert Rivals(u, i, j);
    }
    forall i, j | Rivals(u, i, j) && u[i].status in ACTIVE && u[j].status in ACTIVE
      ensures Collides(t, host, results, i, j) || Collides(t, host, results, j, i)
    {
      assert Rivals(t, i, j);
    }
  }

  // --------------------------------------------------------------------- runs

  /** The step is a heartbeat whose results bring back a row with an active rival. */
  ghost predicate Displaces(w: World, s: Step) {
    && s.Handle? && s.rid in w.requests
    && exists i, j :: Collides(w.rows, w.requests[s.rid].host, w.requests[s.rid].results, i, j)
  }

  /** Rows of the policy's kinds are old ones, and none became active. */
  ghost predicate NoNewPolicyRows(t: Table, u: Table) {
    forall id :: id in u && u[id].kind in POLICY_KINDS ==>
      id in t && SameKey(t[id], u[id]) && (u[id].status in ACTIVE ==> t[id].status in ACTIVE)
  }

  lemma NoNewPolicyRowsKeepUnique(t: Table, u: Table)
    requires PolicyUnique(t) && NoNewPolicyRows(t, u)
    ensures PolicyUnique(u)
  {
    forall i, j | Rivals(u, i, j) ensures Rivals(t, i, j) {
    }
  }

  lemma PolicyCreateKeepsUnique(t: Table, id: ActionId, h: HostId, kind: Kind, target: string, reason: string)
    requires PolicyUnique(t) && id !in t
    ensures PolicyUnique(TryCreate(t, id, h, kind, target, reason, true, ACTIVE))
  {
    var u := TryCreate(t, id, h, kind, target, reason, true, ACTIVE);
    forall i, j | Rivals(u, i, j) && u[i].status in ACTIVE && u[j].status in ACTIVE ensures Rivals(t, i, j) {
      assert i != id ==> Occupies(u[i], u[i].host, u[i].kind, Some(u[i].target), ACTIVE);
      assert j != id ==> Occupies(u[j], u[j].host, u[j].kind, Some(u[j].target), ACTIVE);
    }
  }

  lemma ScheduleAddsNoPolicyRows(t: Table, kind: Kind, byTarget: bool, slots: seq<Slot>, ids: seq<ActionId>)
    requires |slots| == |ids| && FreshIds(t, ids) && kind !in POLICY_KINDS
    ensures NoNewPolicyRows(t, Schedule(t, kind, byTarget, slots, ids).rows)
  {
    BatchRows(t, kind, Taken(t, kind, byTarget, slots), slots, ids, |slots|);
    var u := Schedule(t, kind, byTarget, slots, ids).rows;
    forall id | id in u && id !in t ensures u[id].kind == kind {
      var k :| 0 <= k < |ids| && ids[k] == id;
    }
  }

  lemma RevertAddsNoPolicyRows(t: Table, id: ActionId, unblockId: ActionId, now: Time)
    requires id in t && unblockId !in t
    ensures NoNewPolicyRows(t, Revert(t, id, unblockId, now))
  {
  }

  lemma OtherStepKeepsPolicyUnique(w: World, s: Step)
    requires RowsInv(w.rows, w.born) && Enabled(w, s) && PolicyUnique(w.rows)
    requires !s.Handle? && !s.PolicyCreate?
    ensures PolicyUnique(Apply(w, s).rows)
  {
    var u := Apply(w, s).rows;
    assert NoNewPolicyRows(w.rows, u) by {
      match s
      case RunSchedule(kind, byTarget, slots, ids) => ScheduleAddsNoPolicyRows(w.rows, kind, byTarget, slots, ids);
      case RevertRow(id, unblockId, now) => RevertAddsNoPolicyRows(w.rows, id, unblockId, now);
      case _ =>
    }
    NoNewPolicyRowsKeepUnique(w.rows, u);
  }

  /** Of all steps only a displacing heartbeat breaks the rule. */
  lemma StepKeepsPolicyUniqueIff(w: World, s: Step)
    requires RowsInv(w.rows, w.born) && Enabled(w, s) && PolicyUnique(w.rows)
    ensures PolicyUnique(Apply(w, s).rows) <==> !Displaces(w, s)
  {
    match s
    case Handle(rid, _, now) =>
      HeartbeatKeepsPolicyUniqueIff(w.rows, w.requests[rid].host, w.requests[rid].results, now);
    case PolicyCreate(id, h, kind, target, reason) => PolicyCreateKeepsUnique(w.rows, id, h, kind, target, reason);
    case _ => OtherStepKeepsPolicyUnique(w, s);
  }

  lemma RunKeepsPolicyUniqueIff(ws: seq<World>, steps: seq<Step>, n: nat)
    requires IsRun(ws, steps) && n < |steps| && PolicyUnique(ws[n].rows)
    ensures PolicyUnique(ws[n + 1].rows) <==> !Displaces(ws[n], steps[n])
  {
    RunKeepsInv(ws, steps, n);
    StepKeepsPolicyUniqueIff(ws[n], steps[n]);
  }

  /** Over any run the policy's rows keep one active row per host and target
      exactly as long as no heartbeat brings back a row with an active rival. */
  lemma {:induction false} PolicyRowsStayUniqueIff(ws: seq<World>, steps: seq<Step>, n: nat)
    requires IsRun(ws, steps) && n < |ws|
    ensures (forall m :: 0 <= m <= n ==> PolicyUnique(ws[m].rows)) <==>
      forall k :: 0 <= k < n ==> !Displaces(ws[k], steps[k])
  {
    if n == 0 {
      assert ws[0].rows == map[];
    } else {
      PolicyRowsStayUniqueIff(ws, steps, n - 1);
      if PolicyUnique(ws[n - 1].rows) { RunKeepsPolicyUniqueIff(ws, steps, n - 1); }
    }
  }

  /** A result with status Ok in a request stems from an execution by its host. */
  lemma OkWasExecuted(w: World, rid: RequestId, id: ActionId) returns (k: nat)
    requires rid in w.requests && LastStatus(w.requests[rid].results, id) == Some(Ok)
    requires LogInv(w.log, w.agents, w.requests, w.responses) && ReportsInv(w.log, w.agents, w.requests)
    ensures k < |w.log| && ExecutedBy(w.log[k], w.requests[rid].host, id)
  {
    var host, results := w.requests[rid].host, w.requests[rid].results;
    var last := OkResult(results, id);
    assert AllLogged(w.log, host, results);
    assert Logged(w.log, host, results[last]);
    k :| 0 <= k < |w.log| && w.log[k].host == host && w.log[k].result == results[last];
    assert ExecutionInv(w.log[k], w.requests, w.responses);
  }

  /** An id is executed once, so a row whose command went well did not fail. */
  lemma OkRowHasNotFailed(log: seq<Execution>, k: nat, id: ActionId, a: Action)
    requires ExecutedOnce(log) && k < |log| && ExecutedBy(log[k], a.host, id) && Attested(log, id, a)
    ensures a.status != Failed
  {
    forall f | 0 <= f < |log| && Attests(log[f], id, a) ensures f == k {
    }
  }

  /** What is brought back was reverted by an operator, after its own host had
      executed it: nothing else leaves the active statuses with such a result. */
  lemma DisplacedRowWasReverted(ws: seq<World>, steps: seq<Step>, n: nat, rid: RequestId, i: ActionId, j: ActionId)
    requires IsRun(ws, steps) && n < |ws| && rid in ws[n].requests
    requires Collides(ws[n].rows, ws[n].requests[rid].host, ws[n].requests[rid].results, i, j)
    ensures ws[n].rows[i].status == Reverted
    ensures exists k :: 0 <= k < |ws[n].log| && ExecutedBy(ws[n].log[k], ws[n].rows[i].host, i)
  {
    RunKeepsInv(ws, steps, n);
    var k := OkWasExecuted(ws[n], rid, i);
    assert Attested(ws[n].log, i, ws[n].rows[i]);
    OkRowHasNotFailed(ws[n].log, k, i, ws[n].rows[i]);
  }

  /** The agent of `host` ran the command of `id` and it went well. */
  ghost predicate ExecutedBy(e: Execution, host: HostId, id: ActionId) {
    e.host == host && e.cmd.id == id && e.result.status == Ok
  }

  lemma {:induction false} OkResult(results: seq<CommandResult>, id: ActionId) returns (last: nat)
    requires LastStatus(results, id) == Some(Ok)
    ensures last < |results| && results[last].commandId == Uuid(id) && results[last].status == Ok
  {
    last := |results| - 1;
    if !(results[last].commandId == Uuid(id) && results[last].status != Unspecified) {
      last := OkResult(results[..last], id);
    }
  }

  /** Block, send, revert, block again. */
  function BlockedTwice(h: HostId, ip: string): Table {
    var blocked := TryCreate(map[], 0, h, BlockIp, ip, "", true, ACTIVE);
    var reverted := Revert(AfterHeartbeat(blocked, h, [], 1), 0, 7, 2);
    TryCreate(reverted, 1, h, BlockIp, ip, "", true, ACTIVE)
  }

  lemma BlockedTwiceRows(h: HostId, ip: string)
    ensures var row := NewRow(h, BlockIp, ip, "");
      BlockedTwice(h, ip) == map[0 := row.(status := Reverted, sentAt := Some(1), revertedAt := Some(2)), 1 := row]
  {
    var row := NewRow(h, BlockIp, ip, "");
    var blocked := TryCreate(map[], 0, h, BlockIp, ip, "", true, ACTIVE);
    assert blocked == map[0 := row];
    var reverted := Revert(AfterHeartbeat(blocked, h, [], 1), 0, 7, 2);
    assert reverted == map[0 := row.(status := Reverted, sentAt := Some(1), revertedAt := Some(2))];
    assert !Occupied(reverted, h, BlockIp, Some(ip), ACTIVE);
  }

  /** It does happen: then the first command's result arrives; both blocks are
      active and none is reverted. */
  lemma RevertedBlockComesBack(h: HostId, ip: string)
    ensures
      var again := BlockedTwice(h, ip);
      var late := AfterHeartbeat(again, h, [CommandResult(Uuid(0), Ok, "", None)], 3);
      && again.Keys == late.Keys == {0, 1} && again[0].status == Reverted
      && late[0].status == Executed && late[1].status == Sent && SameKey(late[0], late[1])
      && PolicyUnique(again) && !PolicyUnique(late)
  {
    BlockedTwiceRows(h, ip);
    var again := BlockedTwice(h, ip);
    var r := CommandResult(Uuid(0), Ok, "", None);
    assert [r][..|[r]| - 1] == [];
    assert ApplyResults(again, h, [r], 3) == again[0 := Outcome(again[0], r, 3)];
    var late := AfterHeartbeat(again, h, [r], 3);
    assert late[0].status == Executed && late[1].status == Sent;
    assert Rivals(late, 0, 1);
  }
}
