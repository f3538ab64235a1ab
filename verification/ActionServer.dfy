/** The server side of the action table as the code runs it: handlers that
    update rows in place, each proved against the table functions of `Actions`
    and `Commands`. Every handler is one transaction. */
module ActionServer {
  import opened Base
  import opened Actions
  import opened Commands

  /** A REST creation either adds a row or answers 409. */
  datatype Creation = Created(id: ActionId) | Conflict

  /** What a heartbeat call ends with. */
  datatype Reply = PermissionDenied | NotFound | Answer(commands: seq<Command>)

  /** What an operator's revert ends with. */
  datatype Revision = RowReverted | RowNotFound | BadStatus

  type OrgId = nat

  class Server {
    var rows: Table
    /** The organisation of every registered host. */
    var hosts: map<HostId, OrgId>

    constructor ()
      ensures rows == map[] && hosts == map[]
    {
      rows, hosts := map[], map[];
    }

    /** `_action_in_org_or_404`: a row of a host of the caller's organisation. */
    predicate IsInOrg(id: ActionId, org: OrgId)
      reads this
    {
      id in rows && rows[id].host in hosts && hosts[rows[id].host] == org
    }

    method ApplyCommandResults(host: HostId, results: seq<CommandResult>, now: Time)
      modifies this`rows
      ensures rows == ApplyResults(old(rows), host, results, now)
    {
      var i := 0;
      while i < |results|
        invariant i <= |results|
        invariant rows == ApplyResults(old(rows), host, results[..i], now)
      {
        var r := results[i];
        assert results[..i + 1][..i] == results[..i];
        i := i + 1;
        if r.commandId.Malformed? { continue; }
        var id := r.commandId.id;
        if id !in rows || rows[id].host != host { continue; }
        rows := rows[id := Outcome(rows[id], r, now)];
      }
      assert results[..i] == results;
    }

    /** Marks the host's pending rows as sent and decodes them, in whatever
        order the query returns them. */
    method SendPending(host: HostId, now: Time) returns (commands: seq<Command>)
      modifies this`rows
      ensures rows == MarkSent(old(rows), PendingIds(old(rows), host), now)
      ensures Dispatches(old(rows), PendingIds(old(rows), host), commands)
      ensures AllConvey(commands, old(rows))
    {
      var todo := PendingIds(rows, host);
      ghost var sent: set<ActionId> := {};
      commands := [];
      while todo != {}
        invariant todo !! sent && todo + sent == PendingIds(old(rows), host)
        invariant rows == MarkSent(old(rows), sent, now)
        invariant Dispatches(old(rows), sent, commands)
        decreases todo
      {
        var id :| id in todo;
        DispatchOneMore(old(rows), sent, commands, id);
        commands := commands + [CommandOf(id, rows[id])];
        rows := rows[id := rows[id].(status := Sent, sentAt := Some(now))];
        todo, sent := todo - {id}, sent + {id};
      }
      assert sent == PendingIds(old(rows), host);
      DispatchedConvey(old(rows), sent, commands);
    }

    /** `peer` is the certificate's host, if there was a certificate. */
    method Heartbeat(peer: Option<HostId>, host: HostId, results: seq<CommandResult>, now: Time) returns (reply: Reply)
      modifies this`rows
      ensures reply.PermissionDenied? <==> peer.Some? && peer.value != host
      ensures reply.NotFound? <==> !reply.PermissionDenied? && host !in hosts
      ensures !reply.Answer? ==> rows == old(rows)
      ensures reply.Answer? ==> rows == AfterHeartbeat(old(rows), host, results, now)
      ensures reply.Answer? ==>
        var applied := ApplyResults(old(rows), host, results, now);
        Dispatches(applied, PendingIds(applied, host), reply.commands)
      ensures reply.Answer? ==> AllConvey(reply.commands, old(rows))
    {
      if peer.Some? && peer.value != host { return PermissionDenied; }
      if host !in hosts { return NotFound; }
      ApplyCommandResults(host, results, now);
      var commands := SendPending(host, now);
      ConveyBeforeResults(old(rows), host, results, now, commands);
      reply := Answer(commands);
    }

    method RevertAction(id: ActionId, org: OrgId, status: string, unblockId: ActionId, now: Time)
      returns (reply: Revision)
      requires unblockId !in rows
      modifies this`rows
      ensures reply.RowNotFound? <==> !old(IsInOrg(id, org))
      ensures reply.BadStatus? <==> old(IsInOrg(id, org)) && status != "reverted"
      ensures rows == if reply.RowReverted? then Revert(old(rows), id, unblockId, now) else old(rows)
      ensures reply.RowReverted? ==> IsReverted(old(rows), rows, id, unblockId, now)
    {
      if id !in rows || rows[id].host !in hosts || hosts[rows[id].host] != org { return RowNotFound; }
      if status != "reverted" { return BadStatus; }
      RevertIff(rows, id, unblockId, now, Revert(rows, id, unblockId, now));
      var a := rows[id];
      if a.kind == BlockIp && a.status == Executed {
        rows := rows[unblockId := NewRow(a.host, UnblockIp, a.target, RevertReason(id))];
        rows := rows[id := rows[id].(status := Reverted, revertedAt := Some(now))];
      } else {
        rows := rows[id := a.(status := Reverted, revertedAt := Some(now))];
      }
      reply := RowReverted;
    }

    method DeleteAction(id: ActionId, org: OrgId) returns (found: bool)
      modifies this`rows
      ensures found <==> old(IsInOrg(id, org))
      ensures rows == if found then old(rows) - {id} else old(rows)
    {
      if id !in rows || rows[id].host !in hosts || hosts[rows[id].host] != org { return false; }
      rows := rows - {id};
      found := true;
    }

    /** `create_pending_action`, and `trigger_yara_scan` with `byTarget`. */
    method CreatePendingAction(id: ActionId, host: HostId, kind: Kind, target: string, reason: string, byTarget: bool)
      returns (r: Creation)
      requires id !in rows
      modifies this`rows
      ensures rows == TryCreate(old(rows), id, host, kind, target, reason, byTarget, OPEN)
      ensures r.Conflict? <==> Occupied(old(rows), host, kind, if byTarget then Some(target) else None, OPEN)
      ensures r.Conflict? <==> HasOpenRow(old(rows), host, kind, if byTarget then Some(target) else None)
      ensures r.Conflict? ==> rows == old(rows)
      ensures r.Created? ==> r.id == id && rows.Keys == old(rows).Keys + {id}
      ensures r.Created? ==> forall other :: other in old(rows) ==> rows[other] == old(rows)[other]
      ensures r.Created? ==> IsFreshRow(rows[id], host, kind, target, reason)
    {
      var want := if byTarget then Some(target) else None;
      OccupiedIffOpen(rows, host, kind, want);
      if Occupied(rows, host, kind, want, OPEN) { return Conflict; }
      rows := rows[id := NewRow(host, kind, target, reason)];
      r := Created(id);
    }

    /** The one query of the YARA schedule: the host and path of its open scans. */
    method QueryOpenScans(active: seq<HostId>, paths: seq<string>) returns (taken: set<Slot>)
      ensures var slots := Product(active, paths);
        forall s :: s in slots ==> (s in taken <==> s in Taken(rows, RunYaraScan, true, slots))
    {
      taken := set id | id in rows && rows[id].host in active && rows[id].kind == RunYaraScan
                        && rows[id].target in paths && rows[id].status in OPEN :: (rows[id].host, rows[id].target);
      YaraKeysAreTaken(rows, active, paths, taken);
    }

    /** The periodic YARA schedule: one slot for every path of every active host. */
    method ScheduleYaraScans(
      active: seq<HostId>, paths: seq<string>, ids: seq<ActionId>)
      returns (created: nat, skipped: nat)
      requires |ids| == |active| * |paths|
      modifies this`rows
      ensures |Product(active, paths)| == |ids|
      ensures Tally(rows, created, skipped) == Schedule(old(rows), RunYaraScan, true, Product(active, paths), ids)
    {
      created, skipped := 0, 0;
      ghost var slots := Product(active, paths);
      ProductSize(active, paths);
      var taken := QueryOpenScans(active, paths);
      ghost var blocked := Taken(rows, RunYaraScan, true, slots);
      var k := 0;
      for i := 0 to |active|
        invariant k == i * |paths|
        invariant k <= |ids|
        invariant Tally(rows, created, skipped) == Batch(old(rows), RunYaraScan, blocked, slots, ids, k)
      {
        RowFits(i, |active|, |paths|);
        for j := 0 to |paths|
          invariant k == i * |paths| + j
          invariant k <= |ids|
          invariant Tally(rows, created, skipped) == Batch(old(rows), RunYaraScan, blocked, slots, ids, k)
        {
          ProductAt(active, paths, i, j);
          ghost var before := Tally(rows, created, skipped);
          if (active[i], paths[j]) in taken {
            skipped := skipped + 1;
          } else {
            rows := rows[ids[k] := NewRow(active[i], RunYaraScan, paths[j], "scheduled")];
            created := created + 1;
          }
          BatchNext(old(rows), RunYaraScan, blocked, slots, ids, k, before, Tally(rows, created, skipped));
          k := k + 1;
        }
      }
    }

    /** A periodic tool schedule: one slot for every eligible host. */
    method ScheduleTool(
      kind: Kind, name: string, eligible: seq<HostId>, ids: seq<ActionId>)
      returns (created: nat, skipped: nat)
      requires |ids| == |eligible|
      modifies this`rows
      ensures Tally(rows, created, skipped) == Schedule(old(rows), kind, false, ToolSlots(eligible, name), ids)
    {
      created, skipped := 0, 0;
      var taken := set id | id in rows && rows[id].host in eligible && rows[id].kind == kind
                            && rows[id].status in OPEN :: rows[id].host;
      ghost var slots := ToolSlots(eligible, name);
      ghost var blocked := Taken(rows, kind, false, slots);
      ToolHostsAreTaken(rows, kind, name, eligible, taken);
      for i := 0 to |eligible|
        invariant Tally(rows, created, skipped) == Batch(old(rows), kind, blocked, slots, ids, i)
      {
        assert slots[i] == (eligible[i], name);
        ghost var before := Tally(rows, created, skipped);
        if eligible[i] in taken {
          skipped := skipped + 1;
        } else {
          rows := rows[ids[i] := NewRow(eligible[i], kind, name, "scheduled")];
          created := created + 1;
        }
        BatchNext(old(rows), kind, blocked, slots, ids, i, before, Tally(rows, created, skipped));
      }
    }
  }

  // -------------------------------------------------------- schedule slots

  /** Every path of every host, host by host. */
  function Product(hosts: seq<HostId>, paths: seq<string>): (slots: seq<Slot>)
    ensures forall s :: s in slots ==> s.0 in hosts && s.1 in paths
  {
    if hosts == [] then []
    else seq(|paths|, j requires 0 <= j < |paths| => (hosts[0], paths[j])) + Product(hosts[1..], paths)
  }

  function ToolSlots(hosts: seq<HostId>, name: string): (slots: seq<Slot>)
    ensures |slots| == |hosts|
  {
    seq(|hosts|, i requires 0 <= i < |hosts| => (hosts[i], name))
  }

  lemma {:induction false} ProductSize(hosts: seq<HostId>, paths: seq<string>)
    ensures |Product(hosts, paths)| == |hosts| * |paths|
  {
    if hosts != [] {
      ProductSize(hosts[1..], paths);
      assert |hosts| * |paths| == |paths| + (|hosts| - 1) * |paths|;
    }
  }

  lemma RowFits(i: nat, n: nat, width: nat)
    requires i < n
    ensures i * width + width == (i + 1) * width <= n * width
  {
    assert (n - (i + 1)) * width >= 0;
    assert n * width == (i + 1) * width + (n - (i + 1)) * width;
  }

  lemma {:induction false} ProductAt(hosts: seq<HostId>, paths: seq<string>, i: nat, j: nat)
    requires i < |hosts| && j < |paths|
    ensures 0 <= i * |paths| + j < |Product(hosts, paths)|
    ensures Product(hosts, paths)[i * |paths| + j] == (hosts[i], paths[j])
  {
    ProductSize(hosts, paths);
    RowFits(i, |hosts|, |paths|);
    if i > 0 {
      ProductAt(hosts[1..], paths, i - 1, j);
      assert i * |paths| + j - |paths| == (i - 1) * |paths| + j;
    }
  }

  /** The one batch query of the YARA scheduler selects exactly the taken slots. */
  lemma YaraKeysAreTaken(t: Table, hosts: seq<HostId>, paths: seq<string>, keys: set<Slot>)
    requires keys == set id | id in t && t[id].host in hosts && t[id].kind == RunYaraScan
                              && t[id].target in paths && t[id].status in OPEN :: (t[id].host, t[id].target)
    ensures forall s :: s in Product(hosts, paths) ==>
      (s in keys <==> s in Taken(t, RunYaraScan, true, Product(hosts, paths)))
  {
    var slots := Product(hosts, paths);
    forall s | s in slots ensures s in keys <==> s in Taken(t, RunYaraScan, true, slots) {
      var i :| 0 <= i < |slots| && slots[i] == s;
      if s in keys {
        var id :| id in t && t[id].kind == RunYaraScan && t[id].status in OPEN && s == (t[id].host, t[id].target);
        assert Occupies(t[id], s.0, RunYaraScan, Some(s.1), OPEN);
      }
      if Blocked(t, RunYaraScan, true, s) {
        var id :| id in t && Occupies(t[id], s.0, RunYaraScan, Some(s.1), OPEN);
        assert s == (t[id].host, t[id].target);
      }
    }
  }

  lemma ToolHostsAreTaken(t: Table, kind: Kind, name: string, hosts: seq<HostId>, found: set<HostId>)
    requires found == set id | id in t && t[id].host in hosts && t[id].kind == kind
                               && t[id].status in OPEN :: t[id].host
    ensures forall i :: 0 <= i < |hosts| ==>
      (hosts[i] in found <==> (hosts[i], name) in Taken(t, kind, false, ToolSlots(hosts, name)))
  {
    var slots := ToolSlots(hosts, name);
    forall i | 0 <= i < |hosts| ensures hosts[i] in found <==> (hosts[i], name) in Taken(t, kind, false, slots) {
      assert slots[i] == (hosts[i], name);
      if hosts[i] in found {
        var id :| id in t && t[id].kind == kind && t[id].status in OPEN && hosts[i] == t[id].host;
        assert Occupies(t[id], hosts[i], kind, None, OPEN);
      }
    }
  }

  /** Different hosts and different paths never repeat a slot, so on such
      settings both schedulers agree with the per-slot query. */
  lemma {:induction false} DistinctSettingsRefine(t: Table, hosts: seq<HostId>, paths: seq<string>, ids: seq<ActionId>)
    requires Distinct(hosts) && Distinct(paths) && |ids| == |hosts| * |paths| && FreshIds(t, ids)
    ensures |Product(hosts, paths)| == |ids|
    ensures Schedule(t, RunYaraScan, true, Product(hosts, paths), ids)
         == OneByOne(t, RunYaraScan, true, Product(hosts, paths), ids, |ids|)
  {
    ProductSize(hosts, paths);
    ProductDistinct(hosts, paths);
    BatchRefinesOneByOneIff(t, RunYaraScan, true, Product(hosts, paths), ids, |ids|);
  }

  lemma {:induction false} ProductDistinct(hosts: seq<HostId>, paths: seq<string>)
    requires Distinct(hosts) && Distinct(paths)
    ensures Distinct(Product(hosts, paths))
  {
    if hosts != [] {
      assert Distinct(hosts[1..]);
      ProductDistinct(hosts[1..], paths);
      var row := seq(|paths|, j requires 0 <= j < |paths| => (hosts[0], paths[j]));
      assert forall s :: s in Product(hosts[1..], paths) ==> s.0 != hosts[0];
      assert Product(hosts, paths) == row + Product(hosts[1..], paths);
    }
  }

  lemma DistinctHostsRefine(t: Table, kind: Kind, name: string, hosts: seq<HostId>, ids: seq<ActionId>)
    requires Distinct(hosts) && |ids| == |hosts| && FreshIds(t, ids)
    ensures Schedule(t, kind, false, ToolSlots(hosts, name), ids)
         == OneByOne(t, kind, false, ToolSlots(hosts, name), ids, |ids|)
  {
    BatchRefinesOneByOneIff(t, kind, false, ToolSlots(hosts, name), ids, |ids|);
  }

  /** A path configured twice breaks the schedule's uniqueness on any host
      without an open scan of it. */
  lemma RepeatedPathDoubles(t: Table, host: HostId, path: string, a: ActionId, b: ActionId)
    requires SingleOpen(t) && a !in t && b !in t && a != b
    ensures |Product([host], [path, path])| == 2
    ensures SingleOpen(Schedule(t, RunYaraScan, true, Product([host], [path, path]), [a, b]).rows)
       <==> Occupied(t, host, RunYaraScan, Some(path), OPEN)
  {
    assert Product([host], [path, path]) == [(host, path), (host, path)];
    ScheduleKeepsSingleOpenIff(t, RunYaraScan, true, Product([host], [path, path]), [a, b]);
    var taken := Taken(t, RunYaraScan, true, Product([host], [path, path]));
    assert (host, path) in taken <==> Blocked(t, RunYaraScan, true, (host, path)) by {
      assert Product([host], [path, path])[0] == (host, path);
    }
    assert Clash(Product([host], [path, path])[0], Product([host], [path, path])[1], true);
  }
}
