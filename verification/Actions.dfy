/** The `actions` table (server/app/models/action.py) and the ways rows enter it:
    the policy, the REST helper and the periodic schedulers. */
module Actions {
  import opened Base

  datatype Status = Pending | Sent | Executed | Failed | Reverted

  datatype Kind =
    | BlockIp | UnblockIp | QuarantineFile
    | RunYaraScan | RunClamavScan
    | Fail2banUnban | Fail2banBan
    | RunRkhunterScan | RunLynisAudit | RunChkrootkitScan | RunAideCheck
    | AddFirewallRule | RemoveFirewallRule
    | OtherKind(name: string)

  datatype Action = Action(
    host: HostId, kind: Kind, target: string, reason: string, status: Status,
    error: Option<string>, sentAt: Option<Time>, executedAt: Option<Time>, revertedAt: Option<Time>)

  type Table = map<ActionId, Action>

  const OPEN: set<Status> := {Pending, Sent}
  const ACTIVE: set<Status> := {Pending, Sent, Executed}

  /** The kinds that only the policy creates, and that nobody else does. */
  const POLICY_KINDS: set<Kind> := {BlockIp, QuarantineFile}

  function NewRow(host: HostId, kind: Kind, target: string, reason: string): Action {
    Action(host, kind, target, reason, Pending, None, None, None, None)
  }

  /** A row as it enters the table. */
  ghost predicate IsFreshRow(a: Action, host: HostId, kind: Kind, target: string, reason: string) {
    && a.host == host && a.kind == kind && a.target == target && a.reason == reason
    && a.status == Pending && a.error == None
    && a.sentAt == a.executedAt == a.revertedAt == None
  }

  predicate IsOpen(a: Action) { a.status == Pending || a.status == Sent }

  /** The host has an open row of this kind, and of this target if one is given. */
  ghost predicate HasOpenRow(t: Table, host: HostId, kind: Kind, target: Option<string>) {
    exists id :: id in t && t[id].host == host && t[id].kind == kind && IsOpen(t[id])
      && (target == None || target == Some(t[id].target))
  }

  lemma OccupiedIffOpen(t: Table, host: HostId, kind: Kind, target: Option<string>)
    ensures Occupied(t, host, kind, target, OPEN) <==> HasOpenRow(t, host, kind, target)
  {
    if id :| id in t && Occupies(t[id], host, kind, target, OPEN) {
      assert t[id].host == host && t[id].kind == kind && IsOpen(t[id]);
    }
    if HasOpenRow(t, host, kind, target) {
      var id :| id in t && t[id].host == host && t[id].kind == kind && IsOpen(t[id])
        && (target == None || target == Some(t[id].target));
      assert Occupies(t[id], host, kind, target, OPEN);
    }
  }

  /** The host has a pending, sent or executed row of this kind and target. */
  ghost predicate HasActiveRow(t: Table, host: HostId, kind: Kind, target: string) {
    exists id :: id in t && t[id].host == host && t[id].kind == kind && t[id].target == target
      && (t[id].status == Pending || t[id].status == Sent || t[id].status == Executed)
  }

  lemma OccupiedIffActive(t: Table, host: HostId, kind: Kind, target: string)
    ensures Occupied(t, host, kind, Some(target), ACTIVE) <==> HasActiveRow(t, host, kind, target)
  {
    if id :| id in t && Occupies(t[id], host, kind, Some(target), ACTIVE) {
      assert t[id].host == host && t[id].kind == kind && t[id].target == target;
    }
    if HasActiveRow(t, host, kind, target) {
      var id :| id in t && t[id].host == host && t[id].kind == kind && t[id].target == target
        && (t[id].status == Pending || t[id].status == Sent || t[id].status == Executed);
      assert Occupies(t[id], host, kind, Some(target), ACTIVE);
    }
  }

  predicate Occupies(a: Action, host: HostId, kind: Kind, target: Option<string>, statuses: set<Status>) {
    a.host == host && a.kind == kind && a.status in statuses && (target.Some? ==> a.target == target.value)
  }

  /** The duplicate query: is there a row of this host and kind (and target, when
      one is given) in one of these statuses? */
  predicate Occupied(t: Table, host: HostId, kind: Kind, target: Option<string>, statuses: set<Status>) {
    exists id | id in t :: Occupies(t[id], host, kind, target, statuses)
  }

  /** Adds a pending row unless the duplicate query finds one. */
  function TryCreate(t: Table, id: ActionId, host: HostId, kind: Kind, target: string, reason: string,
                     byTarget: bool, statuses: set<Status>): Table {
    if Occupied(t, host, kind, if byTarget then Some(target) else None, statuses) then t
    else t[id := NewRow(host, kind, target, reason)]
  }

  predicate SameKey(a: Action, b: Action) {
    a.host == b.host && a.kind == b.kind && a.target == b.target
  }

  /** No two open rows share host, kind and target, except for `unblock_ip`,
      which a revert adds without a check. */
  ghost predicate SingleOpen(t: Table) {
    forall i, j | i in t && j in t && i != j && IsOpen(t[i]) && IsOpen(t[j]) && SameKey(t[i], t[j]) ::
      t[i].kind == UnblockIp
  }

  /** A row that changed only by leaving the open statuses, or not at all. */
  ghost predicate NoNewlyOpen(t: Table, u: Table) {
    forall id :: id in u ==> id in t && SameKey(t[id], u[id]) && (IsOpen(u[id]) ==> IsOpen(t[id]))
  }

  lemma NoNewlyOpenKeepsSingleOpen(t: Table, u: Table)
    requires SingleOpen(t) && NoNewlyOpen(t, u)
    ensures SingleOpen(u)
  {
  }

  /** Every creation path that looks at the open statuses at least keeps open
      rows unique, whether or not it compares targets. */
  lemma TryCreateKeepsSingleOpen(t: Table, id: ActionId, host: HostId, kind: Kind, target: string, reason: string,
                                 byTarget: bool, statuses: set<Status>)
    requires SingleOpen(t) && id !in t && OPEN <= statuses
    ensures SingleOpen(TryCreate(t, id, host, kind, target, reason, byTarget, statuses))
  {
    var want := if byTarget then Some(target) else None;
    var u := TryCreate(t, id, host, kind, target, reason, byTarget, statuses);
    forall i | i in t && IsOpen(t[i]) && SameKey(t[i], NewRow(host, kind, target, reason))
      ensures u == t
    {
      assert t[i].status in statuses;
      assert Occupies(t[i], host, kind, want, statuses);
    }
  }

  // ------------------------------------------------------- batch scheduling

  /** One host of a schedule and the target of its row. */
  type Slot = (HostId, string)

  datatype Tally = Tally(rows: Table, created: nat, skipped: nat)

  predicate Blocked(t: Table, kind: Kind, byTarget: bool, slot: Slot) {
    Occupied(t, slot.0, kind, if byTarget then Some(slot.1) else None, OPEN)
  }

  /** A slot is blocked exactly while a pending or sent row takes it. */
  lemma BlockedIffOpen(t: Table, kind: Kind, byTarget: bool, slot: Slot)
    ensures Blocked(t, kind, byTarget, slot) <==>
      HasOpenRow(t, slot.0, kind, if byTarget then Some(slot.1) else None)
  {
    OccupiedIffOpen(t, slot.0, kind, if byTarget then Some(slot.1) else None);
  }

  /** Two slots the duplicate query cannot tell apart. */
  predicate Clash(p: Slot, q: Slot, byTarget: bool) {
    p.0 == q.0 && (byTarget ==> p.1 == q.1)
  }

  ghost predicate FreshIds(t: Table, ids: seq<ActionId>) {
    Distinct(ids) && forall i :: 0 <= i < |ids| ==> ids[i] !in t
  }

  function AddSlot(c: Tally, id: ActionId, kind: Kind, slot: Slot): Tally {
    Tally(c.rows[id := NewRow(slot.0, kind, slot.1, "scheduled")], c.created + 1, c.skipped)
  }

  /** The slots of a schedule that the table blocks before the loop starts. */
  function Taken(t: Table, kind: Kind, byTarget: bool, slots: seq<Slot>): (taken: set<Slot>)
    ensures forall i :: 0 <= i < |slots| ==> (slots[i] in taken <==> Blocked(t, kind, byTarget, slots[i]))
  {
    set p | p in slots && Blocked(t, kind, byTarget, p)
  }

  /** The schedulers' loop: the precomputed set alone decides every slot. */
  function Batch(t: Table, kind: Kind, taken: set<Slot>, slots: seq<Slot>, ids: seq<ActionId>, n: nat): Tally
    requires n <= |slots| == |ids|
  {
    if n == 0 then Tally(t, 0, 0)
    else
      var c := Batch(t, kind, taken, slots, ids, n - 1);
      if slots[n - 1] in taken then c.(skipped := c.skipped + 1)
      else AddSlot(c, ids[n - 1], kind, slots[n - 1])
  }

  lemma BatchNext(
    t: Table, kind: Kind, taken: set<Slot>, slots: seq<Slot>, ids: seq<ActionId>, k: nat, c: Tally, d: Tally)
    requires k < |slots| == |ids| && c == Batch(t, kind, taken, slots, ids, k)
    requires d == if slots[k] in taken then c.(skipped := c.skipped + 1) else AddSlot(c, ids[k], kind, slots[k])
    ensures d == Batch(t, kind, taken, slots, ids, k + 1)
  {
  }

  function Schedule(t: Table, kind: Kind, byTarget: bool, slots: seq<Slot>, ids: seq<ActionId>): Tally
    requires |slots| == |ids|
  {
    Batch(t, kind, Taken(t, kind, byTarget, slots), slots, ids, |slots|)
  }

  /** The simple form: query the table again before each row. */
  function OneByOne(t: Table, kind: Kind, byTarget: bool, slots: seq<Slot>, ids: seq<ActionId>, n: nat): Tally
    requires n <= |slots| == |ids|
  {
    if n == 0 then Tally(t, 0, 0)
    else
      var c := OneByOne(t, kind, byTarget, slots, ids, n - 1);
      if Blocked(c.rows, kind, byTarget, slots[n - 1]) then c.(skipped := c.skipped + 1)
      else AddSlot(c, ids[n - 1], kind, slots[n - 1])
  }

  /** Repeated slots are harmless only where they were taken beforehand. */
  ghost predicate NoFreeRepeat(taken: set<Slot>, byTarget: bool, slots: seq<Slot>, n: nat)
    requires n <= |slots|
  {
    forall i, j | 0 <= i < j < n && Clash(slots[i], slots[j], byTarget) :: slots[j] in taken
  }

  lemma {:induction false} BatchOnlyAdds(
    t: Table, kind: Kind, taken: set<Slot>, slots: seq<Slot>, ids: seq<ActionId>, n: nat)
    requires n <= |slots| == |ids| && FreshIds(t, ids)
    ensures var b := Batch(t, kind, taken, slots, ids, n);
      && b.created + b.skipped == n
      && (forall id :: id in t ==> id in b.rows && b.rows[id] == t[id])
      && (forall id :: id in b.rows ==> id in t || id in ids[..n])
  {
    if n > 0 {
      BatchOnlyAdds(t, kind, taken, slots, ids, n - 1);
      assert ids[..n] == ids[..n - 1] + [ids[n - 1]];
    }
  }

  /** The batch keeps every old row, gives each free slot one pending row under
      its own id, adds nothing else, and counts every slot once. */
  lemma {:induction false} BatchRows(
    t: Table, kind: Kind, taken: set<Slot>, slots: seq<Slot>, ids: seq<ActionId>, n: nat)
    requires n <= |slots| == |ids| && FreshIds(t, ids)
    ensures var b := Batch(t, kind, taken, slots, ids, n);
      && b.created + b.skipped == n
      && (forall id :: id in t ==> id in b.rows && b.rows[id] == t[id])
      && (forall id :: id in b.rows ==> id in t || id in ids[..n])
      && (forall i :: 0 <= i < n ==> (ids[i] in b.rows <==> slots[i] !in taken))
      && (forall i :: 0 <= i < n && slots[i] !in taken ==>
            b.rows[ids[i]] == NewRow(slots[i].0, kind, slots[i].1, "scheduled"))
  {
    if n > 0 {
      BatchRows(t, kind, taken, slots, ids, n - 1);
      var c := Batch(t, kind, taken, slots, ids, n - 1);
      assert ids[n - 1] !in c.rows;
    }
    BatchOnlyAdds(t, kind, taken, slots, ids, n);
  }

  lemma BlockedByClash(t: Table, kind: Kind, byTarget: bool, p: Slot, q: Slot)
    requires Clash(p, q, byTarget)
    ensures Blocked(t, kind, byTarget, p) <==> Blocked(t, kind, byTarget, q)
  {
  }

  lemma AddSlotBlocks(c: Tally, id: ActionId, kind: Kind, byTarget: bool, slot: Slot, p: Slot)
    requires id !in c.rows
    ensures Blocked(AddSlot(c, id, kind, slot).rows, kind, byTarget, p)
       <==> Blocked(c.rows, kind, byTarget, p) || Clash(slot, p, byTarget)
  {
    var u := AddSlot(c, id, kind, slot).rows;
    var want := if byTarget then Some(p.1) else None;
    if k :| k in c.rows && Occupies(c.rows[k], p.0, kind, want, OPEN) {
      assert Occupies(u[k], p.0, kind, want, OPEN);
    }
    if Clash(slot, p, byTarget) { assert Occupies(u[id], p.0, kind, want, OPEN); }
  }

  /** In the simple form a slot is blocked once the table or an earlier slot
      blocks it. */
  lemma {:induction false} OneByOneBlocks(
    t: Table, kind: Kind, byTarget: bool, slots: seq<Slot>, ids: seq<ActionId>, n: nat, p: Slot)
    requires n <= |slots| == |ids| && FreshIds(t, ids)
    ensures Blocked(OneByOne(t, kind, byTarget, slots, ids, n).rows, kind, byTarget, p)
       <==> Blocked(t, kind, byTarget, p) || exists i :: 0 <= i < n && Clash(slots[i], p, byTarget)
  {
    if n > 0 {
      OneByOneBlocks(t, kind, byTarget, slots, ids, n - 1, p);
      OneByOneRows(t, kind, byTarget, slots, ids, n - 1);
      var c := OneByOne(t, kind, byTarget, slots, ids, n - 1);
      if Blocked(c.rows, kind, byTarget, slots[n - 1]) {
        // The slot is skipped, and what blocks it also blocks any clashing one.
        if Clash(slots[n - 1], p, byTarget) { BlockedByClash(c.rows, kind, byTarget, slots[n - 1], p); }
      } else {
        AddSlotBlocks(c, ids[n - 1], kind, byTarget, slots[n - 1], p);
      }
    }
  }

  lemma {:induction false} OneByOneRows(
    t: Table, kind: Kind, byTarget: bool, slots: seq<Slot>, ids: seq<ActionId>, n: nat)
    requires n <= |slots| == |ids| && FreshIds(t, ids)
    ensures forall i :: n <= i < |ids| ==> ids[i] !in OneByOne(t, kind, byTarget, slots, ids, n).rows
    ensures SingleOpen(t) ==> SingleOpen(OneByOne(t, kind, byTarget, slots, ids, n).rows)
  {
    if n > 0 {
      OneByOneRows(t, kind, byTarget, slots, ids, n - 1);
      var c := OneByOne(t, kind, byTarget, slots, ids, n - 1);
      if SingleOpen(t) {
        TryCreateKeepsSingleOpen(c.rows, ids[n - 1], slots[n - 1].0, kind, slots[n - 1].1, "scheduled", byTarget, OPEN);
      }
    }
  }

  /** The precomputed set refines the per-slot query exactly when no slot that
      is still free is repeated; otherwise the batch creates more rows. */
  lemma {:induction false} BatchRefinesOneByOneIff(
    t: Table, kind: Kind, byTarget: bool, slots: seq<Slot>, ids: seq<ActionId>, n: nat)
    requires n <= |slots| == |ids| && FreshIds(t, ids)
    ensures var taken := Taken(t, kind, byTarget, slots);
            var batch := Batch(t, kind, taken, slots, ids, n);
            var simple := OneByOne(t, kind, byTarget, slots, ids, n);
            if NoFreeRepeat(taken, byTarget, slots, n) then batch == simple else simple.created < batch.created
  {
    if n > 0 {
      var taken, p := Taken(t, kind, byTarget, slots), slots[n - 1];
      BatchRefinesOneByOneIff(t, kind, byTarget, slots, ids, n - 1);
      var blocked := Blocked(OneByOne(t, kind, byTarget, slots, ids, n - 1).rows, kind, byTarget, p);
      var clashes := exists i :: 0 <= i < n - 1 && Clash(slots[i], p, byTarget);
      assert blocked <==> p in taken || clashes by { OneByOneBlocks(t, kind, byTarget, slots, ids, n - 1, p); }
      RepeatGrows(taken, byTarget, slots, n);
    }
  }

  lemma RepeatGrows(taken: set<Slot>, byTarget: bool, slots: seq<Slot>, n: nat)
    requires 0 < n <= |slots|
    ensures NoFreeRepeat(taken, byTarget, slots, n)
       <==> NoFreeRepeat(taken, byTarget, slots, n - 1)
            && (slots[n - 1] in taken || !exists i :: 0 <= i < n - 1 && Clash(slots[i], slots[n - 1], byTarget))
  {
  }

  /** A scheduler run leaves open rows unique exactly when no free slot is
      repeated. The slots of a tool schedule all carry the tool's own name. */
  lemma ScheduleKeepsSingleOpenIff(t: Table, kind: Kind, byTarget: bool, slots: seq<Slot>, ids: seq<ActionId>)
    requires |slots| == |ids| && FreshIds(t, ids) && SingleOpen(t) && kind != UnblockIp
    requires !byTarget ==> forall i, j :: 0 <= i < j < |slots| ==> slots[i].1 == slots[j].1
    ensures SingleOpen(Schedule(t, kind, byTarget, slots, ids).rows)
       <==> NoFreeRepeat(Taken(t, kind, byTarget, slots), byTarget, slots, |slots|)
  {
    var n, taken := |slots|, Taken(t, kind, byTarget, slots);
    if NoFreeRepeat(taken, byTarget, slots, n) {
      BatchRefinesOneByOneIff(t, kind, byTarget, slots, ids, n);
      OneByOneRows(t, kind, byTarget, slots, ids, n);
    } else {
      var i, j :| 0 <= i < j < n && Clash(slots[i], slots[j], byTarget) && slots[j] !in taken;
      BlockedByClash(t, kind, byTarget, slots[i], slots[j]);
      TwinRows(t, kind, taken, slots, ids, i, j);
    }
  }

  lemma TwinRows(t: Table, kind: Kind, taken: set<Slot>, slots: seq<Slot>, ids: seq<ActionId>, i: nat, j: nat)
    requires |slots| == |ids| && FreshIds(t, ids) && kind != UnblockIp
    requires i < j < |slots| && slots[i] == slots[j] && slots[i] !in taken
    ensures !SingleOpen(Batch(t, kind, taken, slots, ids, |slots|).rows)
  {
    BatchRows(t, kind, taken, slots, ids, |slots|);
    var rows := Batch(t, kind, taken, slots, ids, |slots|).rows;
    assert SameKey(rows[ids[i]], rows[ids[j]]) && ids[i] != ids[j];
  }

  /** Running the same schedule again right away creates nothing. */
  lemma SecondScheduleCreatesNothing(
    t: Table, kind: Kind, byTarget: bool, slots: seq<Slot>, ids: seq<ActionId>, more: seq<ActionId>)
    requires |slots| == |ids| == |more| && FreshIds(t, ids)
    ensures var first := Schedule(t, kind, byTarget, slots, ids);
            Schedule(first.rows, kind, byTarget, slots, more) == Tally(first.rows, 0, |slots|)
  {
    var taken, rows := Taken(t, kind, byTarget, slots), Schedule(t, kind, byTarget, slots, ids).rows;
    BatchRows(t, kind, taken, slots, ids, |slots|);
    forall i | 0 <= i < |slots| ensures Blocked(rows, kind, byTarget, slots[i]) {
      var want := if byTarget then Some(slots[i].1) else None;
      if slots[i] in taken {
        var k :| k in t && Occupies(t[k], slots[i].0, kind, want, OPEN);
        assert Occupies(rows[k], slots[i].0, kind, want, OPEN);
      } else {
        assert Occupies(rows[ids[i]], slots[i].0, kind, want, OPEN);
      }
    }
    AllTakenCreatesNothing(rows, kind, Taken(rows, kind, byTarget, slots), slots, more, |slots|);
  }

  lemma {:induction false} AllTakenCreatesNothing(
    t: Table, kind: Kind, taken: set<Slot>, slots: seq<Slot>, ids: seq<ActionId>, n: nat)
    requires n <= |slots| == |ids|
    requires forall i :: 0 <= i < |slots| ==> slots[i] in taken
    ensures Batch(t, kind, taken, slots, ids, n) == Tally(t, 0, n)
  {
    if n > 0 { AllTakenCreatesNothing(t, kind, taken, slots, ids, n - 1); }
  }
}
