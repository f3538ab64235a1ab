/** Main results about detection: what one host's transaction commits, that
    running it again changes nothing, and that a cycle's outcome does not depend
    on the order in which the hosts' transactions happen. */
module DetectionCycle {
  import opened Base
  import opened Actions
  import opened Detection

  // ------------------------------------------------------- as the code runs it

  class Database {
    var alerts: Alerts
    var actions: Table

    constructor ()
      ensures alerts == map[] && actions == map[]
    {
      alerts, actions := map[], map[];
    }

    /** `_upsert_alert` and the flush after it; false if the flush fails. */
    method UpsertAlert(host: HostId, c: Candidate) returns (ok: bool)
      requires Unique(alerts)
      modifies this`alerts
      ensures ok <==> Upsert(old(alerts), host, c).Some?
      ensures alerts == if ok then Upsert(old(alerts), host, c).value else old(alerts)
    {
      if id :| id in alerts && HasKey(alerts[id], host, c) && alerts[id].status == OpenAlert {
        alerts := alerts[id := Refreshed(alerts[id], c)];
        assert alerts == Upsert(old(alerts), host, c).value;
        return true;
      }
      if exists id | id in alerts :: HasKey(alerts[id], host, c) { return false; }
      alerts := alerts[c.alertId := NewAlert(host, c)];
      ok := true;
    }

    /** `maybe_create_action`. */
    method MaybeCreateAction(host: HostId, c: Candidate) returns (created: bool)
      requires c.actionId !in actions
      modifies this`actions
      ensures actions == MaybeCreate(old(actions), host, c)
      ensures created <==> actions != old(actions)
      ensures created <==> exists kind, target, reason ::
        Asks(c, kind, target, reason) && !HasActiveRow(old(actions), host, kind, target)
      ensures forall other :: other in old(actions) ==> other in actions && actions[other] == old(actions)[other]
      ensures forall other :: other in actions && other !in old(actions) ==> other == c.actionId && created
      ensures created ==> c.actionId in actions && forall kind, target, reason :: Asks(c, kind, target, reason) ==>
        IsFreshRow(actions[c.actionId], host, kind, target, reason)
    {
      var wish := PolicyWish(c.ruleId, c.groupKey);
      PolicyCreatesIff(actions, host, c);
      if wish.NoWish? || Occupied(actions, host, wish.kind, Some(wish.target), ACTIVE) { return false; }
      actions := actions[c.actionId := NewRow(host, wish.kind, wish.target, wish.reason)];
      created := true;
    }

    /** One host's transaction: all of it, or nothing on any error. */
    method EvaluateHostIsolated(host: HostId, cs: seq<Candidate>) returns (changed: nat)
      requires Unique(alerts) && FreshDraws(State(alerts, actions), cs)
      modifies this
      ensures State(alerts, actions) == Transaction(old(State(alerts, actions)), host, cs)
      ensures changed == if Evaluate(old(State(alerts, actions)), host, cs, |cs|).Some? then |cs| else 0
      ensures Unique(alerts)
    {
      var savedAlerts, savedActions := alerts, actions;
      ghost var s := State(alerts, actions);
      var i := 0;
      while i < |cs|
        invariant i <= |cs|
        invariant Evaluate(s, host, cs, i) == Some(State(alerts, actions))
        invariant Unique(alerts) && forall j :: i <= j < |cs| ==> cs[j].actionId !in actions
      {
        ghost var before := State(alerts, actions);
        var ok := UpsertAlert(host, cs[i]);
        EvaluateStep(s, host, cs, i, before, if ok then Some(alerts) else None);
        if !ok {
          FailureStays(s, host, cs, i + 1, |cs|);
          alerts, actions := savedAlerts, savedActions;
          return 0;
        }
        var _ := MaybeCreateAction(host, cs[i]);
        CreateUsesOwnDraw(before.actions, host, cs, i);
        i := i + 1;
        UniqueAfter(s, host, cs, i);
      }
      changed := |cs|;
    }

    /** A cycle: every host's transaction, in some order. */
    method RunCycle(jobs: seq<Job>) returns (total: nat)
      requires Unique(alerts) && PlanFresh(State(alerts, actions), jobs)
      modifies this
      ensures State(alerts, actions) == Cycle(old(State(alerts, actions)), jobs)
      ensures total == Changed(old(State(alerts, actions)), jobs)
    {
      total := 0;
      var i := 0;
      ghost var s := State(alerts, actions);
      while i < |jobs|
        invariant i <= |jobs|
        invariant Unique(alerts) && PlanFresh(State(alerts, actions), jobs[i..])
        invariant Cycle(s, jobs) == Cycle(State(alerts, actions), jobs[i..])
        invariant Changed(s, jobs) == total + Changed(State(alerts, actions), jobs[i..])
      {
        assert jobs[i..][0] == jobs[i] && jobs[i..][1..] == jobs[i + 1..];
        JobKeepsPlanFresh(State(alerts, actions), jobs[i..]);
        var changed := EvaluateHostIsolated(jobs[i].0, jobs[i].1);
        total := total + changed;
        i := i + 1;
      }
    }
  }

  /** The policy creates a row exactly when the candidate asks for one that is
      not active yet, and it is the row asked for. */
  lemma PolicyCreatesIff(t: Table, host: HostId, c: Candidate)
    requires c.actionId !in t
    ensures MaybeCreate(t, host, c) != t <==>
      exists kind, target, reason :: Asks(c, kind, target, reason) && !HasActiveRow(t, host, kind, target)
    ensures forall id :: id in t ==> id in MaybeCreate(t, host, c) && MaybeCreate(t, host, c)[id] == t[id]
    ensures forall id :: id in MaybeCreate(t, host, c) && id !in t ==> id == c.actionId
    ensures forall kind, target, reason | c.actionId in MaybeCreate(t, host, c) && Asks(c, kind, target, reason) ::
      IsFreshRow(MaybeCreate(t, host, c)[c.actionId], host, kind, target, reason)
  {
    forall kind, target, reason
      ensures PolicyWish(c.ruleId, c.groupKey) == Wish(kind, target, reason) <==> Asks(c, kind, target, reason)
    {
      WishIff(c, kind, target, reason);
    }
    match PolicyWish(c.ruleId, c.groupKey)
    case NoWish =>
    case Wish(kind, target, reason) => OccupiedIffActive(t, host, kind, target);
  }

  lemma EvaluateStep(s: State, host: HostId, cs: seq<Candidate>, i: nat, p: State, upserted: Option<Alerts>)
    requires i < |cs| && Evaluate(s, host, cs, i) == Some(p) && upserted == Upsert(p.alerts, host, cs[i])
    ensures Evaluate(s, host, cs, i + 1) ==
      if upserted.None? then None else Some(State(upserted.value, MaybeCreate(p.actions, host, cs[i])))
  {
  }

  lemma CreateUsesOwnDraw(t: Table, host: HostId, cs: seq<Candidate>, i: nat)
    requires i < |cs| && forall j :: i <= j < |cs| ==> cs[j].actionId !in t
    requires forall j :: i < j < |cs| ==> cs[j].actionId != cs[i].actionId
    ensures forall j :: i < j < |cs| ==> cs[j].actionId !in MaybeCreate(t, host, cs[i])
  {
  }

  lemma UniqueAfter(s: State, host: HostId, cs: seq<Candidate>, n: nat)
    requires n <= |cs| && Unique(s.alerts) && FreshDraws(s, cs) && Evaluate(s, host, cs, n).Some?
    ensures Unique(Evaluate(s, host, cs, n).value.alerts)
  {
    EvaluateReaches(s, host, cs, n);
  }

  lemma {:induction false} FailureStays(s: State, host: HostId, cs: seq<Candidate>, i: nat, n: nat)
    requires i <= n <= |cs| && Evaluate(s, host, cs, i).None?
    ensures Evaluate(s, host, cs, n).None?
  {
    if i < n { FailureStays(s, host, cs, i, n - 1); }
  }

  // --------------------------------------------------- one host's transaction

  /** The alert has the candidate's key, is open and carries its data. */
  ghost predicate IsCurrent(a: Alert, host: HostId, c: Candidate) {
    && HasKey(a, host, c) && a.status == OpenAlert
    && a.count == c.count && a.lastAt == c.lastAt && a.description == c.description && a.context == c.groupKey
  }

  ghost predicate IsOnly(alerts: Alerts, host: HostId, c: Candidate, id: AlertId) {
    forall other :: other in alerts && HasKey(alerts[other], host, c) ==> other == id
  }

  /** The row came from the key's first candidate. */
  ghost predicate ComesFrom(a: Alert, id: AlertId, cs: seq<Candidate>, k: nat, f: nat)
    requires k < |cs|
  {
    && f < |cs| && FirstOfKey(cs, f) && SameCandidateKey(cs[f], cs[k])
    && id == cs[f].alertId && a.firstAt == cs[f].firstAt && a.severity == cs[f].severity
    && a.ruleName == cs[f].ruleName
  }

  ghost predicate SameOrigin(a: Alert, b: Alert) {
    b.firstAt == a.firstAt && b.severity == a.severity && b.ruleName == a.ruleName
  }

  /** Row `id` is the one alert of candidate `k`'s key: open, with that
      candidate's data; an older open row kept its identity and start time, a
      new one has those of the key's first candidate. */
  ghost predicate OneAlertFor(before: Alerts, after: Alerts, host: HostId, cs: seq<Candidate>, k: nat, id: AlertId)
    requires k < |cs|
  {
    && id in after && IsCurrent(after[id], host, cs[k]) && IsOnly(after, host, cs[k], id)
    && (id in before ==> SameOrigin(before[id], after[id]))
    && (id !in before ==> exists f :: ComesFrom(after[id], id, cs, k, f))
    && (HasOpen(before, host, cs[k]) <==> id in before)
  }

  /** All or nothing, with an exact criterion: the transaction commits exactly
      when no candidate's key belongs to a closed alert; it then gives every
      candidate key its one alert and touches no other row. */
  lemma TransactionIsExact(s: State, host: HostId, cs: seq<Candidate>)
    requires Unique(s.alerts) && FreshDraws(s, cs)
    ensures Evaluate(s, host, cs, |cs|).Some? <==> forall k :: 0 <= k < |cs| ==> !HasClosed(s.alerts, host, cs[k])
    ensures Evaluate(s, host, cs, |cs|).None? ==> Transaction(s, host, cs) == s
    ensures Unique(Transaction(s, host, cs).alerts)
    ensures forall id :: id in s.alerts && (forall k :: 0 <= k < |cs| ==> !HasKey(s.alerts[id], host, cs[k])) ==>
      id in Transaction(s, host, cs).alerts && Transaction(s, host, cs).alerts[id] == s.alerts[id]
    ensures Evaluate(s, host, cs, |cs|).Some? ==> forall k :: 0 <= k < |cs| && LastOfKey(cs, k, |cs|) ==>
      exists id :: OneAlertFor(s.alerts, Transaction(s, host, cs).alerts, host, cs, k, id)
  {
    EvaluateSucceedsIff(s, host, cs, |cs|);
    if Evaluate(s, host, cs, |cs|).Some? {
      EvaluateReaches(s, host, cs, |cs|);
      var after := Transaction(s, host, cs).alerts;
      forall id | id in s.alerts && (forall k :: 0 <= k < |cs| ==> !HasKey(s.alerts[id], host, cs[k]))
        ensures after[id] == s.alerts[id]
      {
        TrackEndsWithLast(s.alerts[id], host, cs, |cs|);
      }
      forall k | 0 <= k < |cs| && LastOfKey(cs, k, |cs|)
        ensures exists id :: OneAlertFor(s.alerts, after, host, cs, k, id)
      {
        var id := KeyHasOneAlert(s.alerts, after, host, cs, k);
      }
    }
  }

  lemma OldRowIsCurrent(a: Alert, host: HostId, cs: seq<Candidate>, k: nat)
    requires k < |cs| && LastOfKey(cs, k, |cs|) && HasKey(a, host, cs[k]) && a.status == OpenAlert
    ensures var b := Track(a, host, cs, |cs|);
      IsCurrent(b, host, cs[k]) && SameOrigin(a, b)
  {
    TrackEndsWithLast(a, host, cs, |cs|);
  }

  lemma KeyHasOneAlert(before: Alerts, after: Alerts, host: HostId, cs: seq<Candidate>, k: nat) returns (id: AlertId)
    requires k < |cs| && LastOfKey(cs, k, |cs|) && Reached(before, after, host, cs, |cs|)
    ensures OneAlertFor(before, after, host, cs, k, id)
  {
    assert HasOpen(after, host, cs[k]);
    id :| id in after && HasKey(after[id], host, cs[k]) && after[id].status == OpenAlert;
    OtherRowsDiffer(after, host, cs[k], id);
    OpenBeforeIffOld(before, after, host, cs, cs[k], id);
    if id in before {
      OldRowIsCurrent(before[id], host, cs, k);
    } else {
      var f := NewRowComesFrom(before, after, host, cs, k, id);
    }
  }

  lemma NewRowComesFrom(
    before: Alerts, after: Alerts, host: HostId, cs: seq<Candidate>, k: nat, id: AlertId)
    returns (f: nat)
    requires k < |cs| && LastOfKey(cs, k, |cs|)
    requires NewRowsInserted(before, after, host, cs, |cs|) && InsertsPresent(before, after, host, cs, |cs|)
    requires id in after && id !in before && HasKey(after[id], host, cs[k])
    ensures ComesFrom(after[id], id, cs, k, f) && IsCurrent(after[id], host, cs[k])
  {
    f :| 0 <= f < |cs| && cs[f].alertId == id && Inserts(before, host, cs, f);
    OldRowIsCurrent(NewAlert(host, cs[f]), host, cs, k);
  }

  lemma OpenBeforeIffOld(before: Alerts, after: Alerts, host: HostId, cs: seq<Candidate>, c: Candidate, id: AlertId)
    requires OldRowsTrack(before, after, host, cs, |cs|)
    requires id in after && HasKey(after[id], host, c) && after[id].status == OpenAlert
    requires IsOnly(after, host, c, id)
    ensures HasOpen(before, host, c) <==> id in before
  {
    if id in before { assert HasKey(before[id], host, c) && before[id].status == OpenAlert; }
    if HasOpen(before, host, c) {
      var was :| was in before && HasKey(before[was], host, c) && before[was].status == OpenAlert;
      assert HasKey(after[was], host, c);
    }
  }

  lemma OtherRowsDiffer(alerts: Alerts, host: HostId, c: Candidate, id: AlertId)
    requires Unique(alerts) && id in alerts && HasKey(alerts[id], host, c)
    ensures IsOnly(alerts, host, c, id)
  {
  }

  // ------------------------------------------------------------ running again

  /** The same candidates, drawing other ids. */
  ghost predicate SameCandidates(cs: seq<Candidate>, ds: seq<Candidate>) {
    |cs| == |ds| && forall k :: 0 <= k < |cs| ==> ds[k] == cs[k].(alertId := ds[k].alertId, actionId := ds[k].actionId)
  }

  ghost predicate Granted(t: Table, host: HostId, c: Candidate) {
    match PolicyWish(c.ruleId, c.groupKey)
    case NoWish => true
    case Wish(kind, target, _) => Occupied(t, host, kind, Some(target), ACTIVE)
  }

  lemma MaybeCreateGrants(t: Table, host: HostId, c: Candidate, d: Candidate)
    requires c.actionId !in t
    ensures Granted(MaybeCreate(t, host, c), host, c)
    ensures Granted(t, host, d) ==> Granted(MaybeCreate(t, host, c), host, d)
  {
    var u := MaybeCreate(t, host, c);
    match PolicyWish(c.ruleId, c.groupKey) {
      case NoWish =>
      case Wish(kind, target, reason) =>
        if !Occupied(t, host, kind, Some(target), ACTIVE) {
          assert Occupies(u[c.actionId], host, kind, Some(target), ACTIVE);
        }
    }
    match PolicyWish(d.ruleId, d.groupKey) {
      case NoWish =>
      case Wish(kind, target, _) =>
        if Occupied(t, host, kind, Some(target), ACTIVE) {
          var id :| id in t && Occupies(t[id], host, kind, Some(target), ACTIVE);
          assert Occupies(u[id], host, kind, Some(target), ACTIVE);
        }
    }
  }

  lemma {:induction false} CommitGrantsAll(s: State, host: HostId, cs: seq<Candidate>, n: nat)
    requires n <= |cs| && FreshDraws(s, cs) && Evaluate(s, host, cs, n).Some?
    ensures forall k :: 0 <= k < n ==> Granted(Evaluate(s, host, cs, n).value.actions, host, cs[k])
    ensures forall k :: n <= k < |cs| ==> cs[k].actionId !in Evaluate(s, host, cs, n).value.actions
  {
    if n > 0 {
      CommitGrantsAll(s, host, cs, n - 1);
      var t := Evaluate(s, host, cs, n - 1).value.actions;
      forall k | 0 <= k < n ensures Granted(MaybeCreate(t, host, cs[n - 1]), host, cs[k]) {
        MaybeCreateGrants(t, host, cs[n - 1], cs[k]);
      }
    }
  }

  lemma {:induction false} GrantedCreatesNothing(s: State, host: HostId, cs: seq<Candidate>, n: nat)
    requires n <= |cs| && Evaluate(s, host, cs, n).Some?
    requires forall k :: 0 <= k < |cs| ==> Granted(s.actions, host, cs[k])
    ensures Evaluate(s, host, cs, n).value.actions == s.actions
  {
    if n > 0 { GrantedCreatesNothing(s, host, cs, n - 1); }
  }

  lemma {:induction false} SomeLastOfKey(a: Alert, host: HostId, cs: seq<Candidate>, n: nat) returns (last: nat)
    requires n <= |cs| && exists k :: 0 <= k < n && HasKey(a, host, cs[k])
    ensures last < n && HasKey(a, host, cs[last]) && LastOfKey(cs, last, n)
  {
    if HasKey(a, host, cs[n - 1]) {
      last := n - 1;
    } else {
      last := SomeLastOfKey(a, host, cs, n - 1);
    }
  }

  /** A row that already went through the candidates does not change again. */
  lemma TrackTwice(a: Alert, host: HostId, cs: seq<Candidate>, ds: seq<Candidate>)
    requires SameCandidates(cs, ds)
    ensures Track(Track(a, host, cs, |cs|), host, ds, |ds|) == Track(a, host, cs, |cs|)
  {
    var b := Track(a, host, cs, |cs|);
    TrackEndsWithLast(a, host, cs, |cs|);
    TrackEndsWithLast(b, host, ds, |ds|);
    if exists k :: 0 <= k < |cs| && HasKey(a, host, cs[k]) {
      var last := SomeLastOfKey(a, host, cs, |cs|);
      assert HasKey(b, host, ds[last]);
      assert LastOfKey(ds, last, |ds|) by {
        forall j | last < j < |ds| ensures !SameCandidateKey(ds[j], ds[last]) {
          assert !SameCandidateKey(cs[j], cs[last]);
        }
      }
    } else {
      forall k | 0 <= k < |ds| ensures !HasKey(b, host, ds[k]) { assert !HasKey(a, host, cs[k]); }
    }
  }

  lemma NothingToInsert(alerts: Alerts, host: HostId, cs: seq<Candidate>, ds: seq<Candidate>)
    requires SameCandidates(cs, ds) && AllOpen(alerts, host, cs, |cs|)
    ensures forall f :: 0 <= f < |ds| ==> !Inserts(alerts, host, ds, f)
  {
    forall f | 0 <= f < |ds| ensures !Inserts(alerts, host, ds, f) {
      assert HasOpen(alerts, host, cs[f]);
      var id :| id in alerts && HasKey(alerts[id], host, cs[f]) && alerts[id].status == OpenAlert;
      assert HasKey(alerts[id], host, ds[f]);
    }
  }

  lemma ReachedRowIsSettled(
    before: Alerts, alerts: Alerts, host: HostId, cs: seq<Candidate>, ds: seq<Candidate>, id: AlertId)
    requires SameCandidates(cs, ds) && id in alerts && OldRowsTrack(before, alerts, host, cs, |cs|)
    requires NewRowsInserted(before, alerts, host, cs, |cs|) && InsertsPresent(before, alerts, host, cs, |cs|)
    ensures Track(alerts[id], host, ds, |ds|) == alerts[id]
  {
    if id in before {
      TrackTwice(before[id], host, cs, ds);
    } else {
      var f :| 0 <= f < |cs| && cs[f].alertId == id && Inserts(before, host, cs, f);
      TrackTwice(NewAlert(host, cs[f]), host, cs, ds);
    }
  }

  lemma RerunKeepsAlerts(before: Alerts, s: State, host: HostId, cs: seq<Candidate>, ds: seq<Candidate>)
    requires SameCandidates(cs, ds) && FreshDraws(s, ds) && Reached(before, s.alerts, host, cs, |cs|)
    requires Evaluate(s, host, ds, |ds|).Some?
    ensures Evaluate(s, host, ds, |ds|).value.alerts == s.alerts
  {
    var again := Evaluate(s, host, ds, |ds|).value.alerts;
    NothingToInsert(s.alerts, host, cs, ds);
    assert OldRowsTrack(s.alerts, again, host, ds, |ds|) && NewRowsInserted(s.alerts, again, host, ds, |ds|) by {
      EvaluateReaches(s, host, ds, |ds|);
    }
    SettledRowsStay(before, s.alerts, again, host, cs, ds);
  }

  lemma SettledRowsStay(
    before: Alerts, alerts: Alerts, again: Alerts, host: HostId, cs: seq<Candidate>, ds: seq<Candidate>)
    requires SameCandidates(cs, ds) && OldRowsTrack(before, alerts, host, cs, |cs|)
    requires NewRowsInserted(before, alerts, host, cs, |cs|) && InsertsPresent(before, alerts, host, cs, |cs|)
    requires OldRowsTrack(alerts, again, host, ds, |ds|) && NewRowsInserted(alerts, again, host, ds, |ds|)
    requires forall f :: 0 <= f < |ds| ==> !Inserts(alerts, host, ds, f)
    ensures again == alerts
  {
    forall id | id in alerts ensures again[id] == alerts[id] {
      ReachedRowIsSettled(before, alerts, host, cs, ds, id);
    }
  }

  /** Running a committed transaction again on the same candidates commits and
      changes nothing: no alert differs and no action is created. */
  lemma RerunChangesNothing(s: State, host: HostId, cs: seq<Candidate>, ds: seq<Candidate>)
    requires Unique(s.alerts) && FreshDraws(s, cs) && SameCandidates(cs, ds)
    requires Evaluate(s, host, cs, |cs|).Some? && FreshDraws(Transaction(s, host, cs), ds)
    ensures Evaluate(Transaction(s, host, cs), host, ds, |ds|) == Some(Transaction(s, host, cs))
  {
    var t := Transaction(s, host, cs);
    EvaluateReaches(s, host, cs, |cs|);
    forall k | 0 <= k < |ds| ensures !HasClosed(t.alerts, host, ds[k]) {
      assert HasOpen(t.alerts, host, cs[k]);
      UniqueOpenOrClosed(t.alerts, host, cs[k]);
      assert !HasClosed(t.alerts, host, cs[k]);
    }
    EvaluateSucceedsIff(t, host, ds, |ds|);
    RerunKeepsAlerts(s.alerts, t, host, cs, ds);
    CommitGrantsAll(s, host, cs, |cs|);
    forall k | 0 <= k < |ds| ensures Granted(t.actions, host, ds[k]) { assert Granted(t.actions, host, cs[k]); }
    GrantedCreatesNothing(t, host, ds, |ds|);
  }

  // ------------------------------------------------------- order of the hosts

  function AlertSlice(alerts: Alerts, h: HostId): Alerts { map id | id in alerts && alerts[id].host == h :: alerts[id] }

  function ActionSlice(t: Table, h: HostId): Table { map id | id in t && t[id].host == h :: t[id] }

  /** The rows of one host. */
  function Slice(s: State, h: HostId): State { State(AlertSlice(s.alerts, h), ActionSlice(s.actions, h)) }

  function Merge(s: State, d: State): State { State(s.alerts + d.alerts, s.actions + d.actions) }

  /** `d` holds one host's alerts of `s`, possibly changed, and alerts new to
      `s` under ids that these candidates drew. */
  ghost predicate ExtendsAlerts(d: Alerts, s: Alerts, h: HostId, cs: seq<Candidate>) {
    && (forall id :: id in d ==> d[id].host == h)
    && (forall id :: id in s ==> (id in d <==> s[id].host == h))
    && (forall id :: id in d && id !in s ==> exists k :: 0 <= k < |cs| && cs[k].alertId == id)
  }

  ghost predicate ExtendsActions(d: Table, s: Table, h: HostId, cs: seq<Candidate>) {
    && (forall id :: id in d ==> d[id].host == h)
    && (forall id :: id in s ==> (id in d <==> s[id].host == h))
    && (forall id :: id in d && id !in s ==> exists k :: 0 <= k < |cs| && cs[k].actionId == id)
  }

  ghost predicate Extends(d: State, s: State, h: HostId, cs: seq<Candidate>) {
    ExtendsAlerts(d.alerts, s.alerts, h, cs) && ExtendsActions(d.actions, s.actions, h, cs)
  }

  lemma AlertLookupsAreLocal(s: Alerts, d: Alerts, h: HostId, cs: seq<Candidate>, c: Candidate)
    requires ExtendsAlerts(d, s, h, cs)
    ensures HasOpen(s + d, h, c) <==> HasOpen(d, h, c)
    ensures HasClosed(s + d, h, c) <==> HasClosed(d, h, c)
  {
    if HasOpen(d, h, c) {
      var id :| id in d && HasKey(d[id], h, c) && d[id].status == OpenAlert;
      assert HasKey((s + d)[id], h, c) && (s + d)[id].status == OpenAlert;
    }
    if HasClosed(d, h, c) {
      var id :| id in d && HasKey(d[id], h, c) && d[id].status != OpenAlert;
      assert HasKey((s + d)[id], h, c) && (s + d)[id].status != OpenAlert;
    }
  }

  lemma ActionLookupsAreLocal(s: Table, d: Table, h: HostId, cs: seq<Candidate>, kind: Kind, target: Option<string>)
    requires ExtendsActions(d, s, h, cs)
    ensures Occupied(s + d, h, kind, target, ACTIVE) <==> Occupied(d, h, kind, target, ACTIVE)
  {
    if Occupied(d, h, kind, target, ACTIVE) {
      var id :| id in d && Occupies(d[id], h, kind, target, ACTIVE);
      assert Occupies((s + d)[id], h, kind, target, ACTIVE);
    }
  }

  lemma RefreshIsLocal(s: Alerts, d: Alerts, h: HostId, cs: seq<Candidate>, c: Candidate)
    requires ExtendsAlerts(d, s, h, cs)
    ensures RefreshOpen(s + d, h, c) == s + RefreshOpen(d, h, c)
    ensures ExtendsAlerts(RefreshOpen(d, h, c), s, h, cs)
  {
    assert RefreshOpen(d, h, c).Keys == d.Keys;
  }

  lemma InsertIsLocal(s: Alerts, d: Alerts, h: HostId, cs: seq<Candidate>, k: nat)
    requires k < |cs| && ExtendsAlerts(d, s, h, cs) && cs[k].alertId !in s
    ensures var row := NewAlert(h, cs[k]);
      && (s + d)[cs[k].alertId := row] == s + d[cs[k].alertId := row]
      && ExtendsAlerts(d[cs[k].alertId := row], s, h, cs)
  {
  }

  lemma UpsertIsLocal(s: Alerts, d: Alerts, h: HostId, cs: seq<Candidate>, k: nat)
    requires k < |cs| && ExtendsAlerts(d, s, h, cs) && cs[k].alertId !in s
    ensures Upsert(s + d, h, cs[k]).Some? <==> Upsert(d, h, cs[k]).Some?
    ensures Upsert(d, h, cs[k]).Some? ==> Upsert(s + d, h, cs[k]).value == s + Upsert(d, h, cs[k]).value
    ensures Upsert(d, h, cs[k]).Some? ==> ExtendsAlerts(Upsert(d, h, cs[k]).value, s, h, cs)
  {
    AlertLookupsAreLocal(s, d, h, cs, cs[k]);
    if HasOpen(d, h, cs[k]) {
      RefreshIsLocal(s, d, h, cs, cs[k]);
    } else if !HasClosed(d, h, cs[k]) {
      InsertIsLocal(s, d, h, cs, k);
    }
  }

  lemma MaybeCreateIsLocal(s: Table, d: Table, h: HostId, cs: seq<Candidate>, k: nat)
    requires k < |cs| && ExtendsActions(d, s, h, cs) && cs[k].actionId !in s
    ensures MaybeCreate(s + d, h, cs[k]) == s + MaybeCreate(d, h, cs[k])
    ensures ExtendsActions(MaybeCreate(d, h, cs[k]), s, h, cs)
  {
    match PolicyWish(cs[k].ruleId, cs[k].groupKey) {
      case NoWish =>
      case Wish(kind, target, reason) =>
        ActionLookupsAreLocal(s, d, h, cs, kind, Some(target));
        var row := NewRow(h, kind, target, reason);
        assert s + d[cs[k].actionId := row] == (s + d)[cs[k].actionId := row];
    }
  }

  lemma SliceExtends(s: State, h: HostId, cs: seq<Candidate>)
    ensures Extends(Slice(s, h), s, h, cs) && Merge(s, Slice(s, h)) == s
  {
  }

  /** `whole`, an outcome from all of `s`, is `own`, one from the host's slice,
      put back into `s`. */
  ghost predicate IsLocal(s: State, h: HostId, cs: seq<Candidate>, whole: Option<State>, own: Option<State>) {
    && (whole.Some? <==> own.Some?)
    && (own.Some? ==> whole.value == Merge(s, own.value) && Extends(own.value, s, h, cs))
  }

  /** What one candidate makes of a session. */
  function EvaluateOne(s: State, h: HostId, c: Candidate): Option<State> {
    match Upsert(s.alerts, h, c)
    case None => None
    case Some(alerts) => Some(State(alerts, MaybeCreate(s.actions, h, c)))
  }

  lemma OneIsLocal(s: State, h: HostId, cs: seq<Candidate>, k: nat, d: State, whole: Option<State>, own: Option<State>)
    requires k < |cs| && Extends(d, s, h, cs) && cs[k].alertId !in s.alerts && cs[k].actionId !in s.actions
    requires whole == EvaluateOne(Merge(s, d), h, cs[k]) && own == EvaluateOne(d, h, cs[k])
    ensures IsLocal(s, h, cs, whole, own)
  {
    UpsertIsLocal(s.alerts, d.alerts, h, cs, k);
    MaybeCreateIsLocal(s.actions, d.actions, h, cs, k);
  }

  lemma OneMoreIsLocal(s: State, start: State, h: HostId, cs: seq<Candidate>, n: nat, d: State)
    requires 0 < n <= |cs| && FreshDraws(s, cs) && Extends(d, s, h, cs)
    requires Evaluate(start, h, cs, n - 1) == Some(d) && Evaluate(s, h, cs, n - 1) == Some(Merge(s, d))
    ensures IsLocal(s, h, cs, Evaluate(s, h, cs, n), Evaluate(start, h, cs, n))
  {
    OneIsLocal(s, h, cs, n - 1, d, Evaluate(s, h, cs, n), Evaluate(start, h, cs, n));
  }

  /** A host's transaction reads and writes that host's rows only. */
  lemma {:induction false} EvaluateIsLocal(s: State, h: HostId, cs: seq<Candidate>, n: nat)
    requires n <= |cs| && FreshDraws(s, cs)
    ensures IsLocal(s, h, cs, Evaluate(s, h, cs, n), Evaluate(Slice(s, h), h, cs, n))
  {
    if n == 0 {
      SliceExtends(s, h, cs);
    } else {
      EvaluateIsLocal(s, h, cs, n - 1);
      if Evaluate(s, h, cs, n - 1).Some? {
        OneMoreIsLocal(s, Slice(s, h), h, cs, n, Evaluate(Slice(s, h), h, cs, n - 1).value);
      }
    }
  }

  ghost predicate DisjointDraws(cs: seq<Candidate>, ds: seq<Candidate>) {
    forall i, j :: 0 <= i < |cs| && 0 <= j < |ds| ==> cs[i].alertId != ds[j].alertId && cs[i].actionId != ds[j].actionId
  }

  lemma OtherAlertsStay(s: Alerts, d: Alerts, g: HostId, h: HostId, cs: seq<Candidate>)
    requires g != h && ExtendsAlerts(d, s, g, cs)
    ensures AlertSlice(s + d, h) == AlertSlice(s, h)
  {
  }

  lemma OtherActionsStay(s: Table, d: Table, g: HostId, h: HostId, cs: seq<Candidate>)
    requires g != h && ExtendsActions(d, s, g, cs)
    ensures ActionSlice(s + d, h) == ActionSlice(s, h)
  {
  }

  lemma DrawsStayFresh(s: State, d: State, g: HostId, cs: seq<Candidate>, ds: seq<Candidate>)
    requires Extends(d, s, g, cs) && FreshDraws(s, ds) && DisjointDraws(cs, ds)
    ensures FreshDraws(Merge(s, d), ds)
  {
    assert forall j :: 0 <= j < |ds| ==> ds[j].alertId !in d.alerts && ds[j].actionId !in d.actions;
  }

  /** Another host's transaction leaves this host's slice alone. */
  lemma OtherSliceStays(s: State, d: State, g: HostId, h: HostId, cs: seq<Candidate>, ds: seq<Candidate>)
    requires g != h && Extends(d, s, g, cs) && FreshDraws(s, ds) && DisjointDraws(cs, ds)
    ensures Slice(Merge(s, d), h) == Slice(s, h)
    ensures FreshDraws(Merge(s, d), ds)
  {
    OtherAlertsStay(s.alerts, d.alerts, g, h, cs);
    OtherActionsStay(s.actions, d.actions, g, h, cs);
    DrawsStayFresh(s, d, g, cs, ds);
  }

  lemma TransactionIsLocal(s: State, h: HostId, cs: seq<Candidate>) returns (d: State)
    requires FreshDraws(s, cs)
    ensures Extends(d, s, h, cs) && Transaction(s, h, cs) == Merge(s, d)
    ensures d == match Evaluate(Slice(s, h), h, cs, |cs|) case None => Slice(s, h) case Some(after) => after
  {
    EvaluateIsLocal(s, h, cs, |cs|);
    SliceExtends(s, h, cs);
    d := match Evaluate(Slice(s, h), h, cs, |cs|) case None => Slice(s, h) case Some(after) => after;
  }

  /** The transactions of two hosts commute. */
  lemma TransactionsCommute(s: State, g: HostId, h: HostId, cs: seq<Candidate>, ds: seq<Candidate>)
    requires g != h && FreshDraws(s, cs) && FreshDraws(s, ds) && DisjointDraws(cs, ds)
    ensures Transaction(Transaction(s, g, cs), h, ds) == Transaction(Transaction(s, h, ds), g, cs)
  {
    var d := TransactionIsLocal(s, g, cs);
    var e := TransactionIsLocal(s, h, ds);
    OtherSliceStays(s, d, g, h, cs, ds);
    OtherSliceStays(s, e, h, g, ds, cs);
    var d' := TransactionIsLocal(Merge(s, e), g, cs);
    var e' := TransactionIsLocal(Merge(s, d), h, ds);
    AlertsCommute(s.alerts, d.alerts, e.alerts, g, h, cs, ds);
    ActionsCommute(s.actions, d.actions, e.actions, g, h, cs, ds);
  }

  lemma AlertsCommute(s: Alerts, d: Alerts, e: Alerts, g: HostId, h: HostId, cs: seq<Candidate>, ds: seq<Candidate>)
    requires g != h && ExtendsAlerts(d, s, g, cs) && ExtendsAlerts(e, s, h, ds)
    requires DisjointDraws(cs, ds)
    ensures s + d + e == s + e + d
  {
  }

  lemma ActionsCommute(s: Table, d: Table, e: Table, g: HostId, h: HostId, cs: seq<Candidate>, ds: seq<Candidate>)
    requires g != h && ExtendsActions(d, s, g, cs) && ExtendsActions(e, s, h, ds)
    requires DisjointDraws(cs, ds)
    ensures s + d + e == s + e + d
  {
  }

  /** A host and the candidates its rules produced. */
  type Job = (HostId, seq<Candidate>)

  function RunJob(s: State, job: Job): State { Transaction(s, job.0, job.1) }

  function Cycle(s: State, jobs: seq<Job>): State
    decreases |jobs|
  {
    if jobs == [] then s else Cycle(RunJob(s, jobs[0]), jobs[1..])
  }

  /** The number of alerts a cycle reports as created or updated. */
  function Changed(s: State, jobs: seq<Job>): nat
    decreases |jobs|
  {
    if jobs == [] then 0
    else
      var (host, cs) := jobs[0];
      (if Evaluate(s, host, cs, |cs|).Some? then |cs| else 0) + Changed(RunJob(s, jobs[0]), jobs[1..])
  }

  ghost predicate Apart(j: Job, k: Job) { j.0 != k.0 && DisjointDraws(j.1, k.1) }

  /** Every host once, with its own fresh draws. */
  ghost predicate PlanFresh(s: State, jobs: seq<Job>) {
    && (forall i :: 0 <= i < |jobs| ==> FreshDraws(s, jobs[i].1))
    && (forall i, j :: 0 <= i < |jobs| && 0 <= j < |jobs| && i != j ==> Apart(jobs[i], jobs[j]))
  }

  lemma JobKeepsFresh(s: State, job: Job, other: Job)
    requires Apart(job, other) && FreshDraws(s, job.1) && FreshDraws(s, other.1)
    ensures FreshDraws(RunJob(s, job), other.1)
  {
    var d := TransactionIsLocal(s, job.0, job.1);
    DrawsStayFresh(s, d, job.0, job.1, other.1);
  }

  lemma JobKeepsPlanFresh(s: State, jobs: seq<Job>)
    requires jobs != [] && PlanFresh(s, jobs)
    ensures PlanFresh(RunJob(s, jobs[0]), jobs[1..])
  {
    forall i | 0 <= i < |jobs[1..]| ensures FreshDraws(RunJob(s, jobs[0]), jobs[1..][i].1) {
      assert Apart(jobs[0], jobs[i + 1]);
      JobKeepsFresh(s, jobs[0], jobs[i + 1]);
    }
  }

  lemma JobsCommute(s: State, j: Job, k: Job, tail: seq<Job>)
    requires Apart(j, k) && FreshDraws(s, j.1) && FreshDraws(s, k.1)
    ensures Cycle(RunJob(s, j), [k] + tail) == Cycle(RunJob(s, k), [j] + tail)
  {
    TransactionsCommute(s, j.0, k.0, j.1, k.1);
    CycleStep(RunJob(s, j), k, tail);
    CycleStep(RunJob(s, k), j, tail);
  }

  lemma CycleStep(s: State, job: Job, tail: seq<Job>)
    ensures Cycle(s, [job] + tail) == Cycle(RunJob(s, job), tail)
  {
    assert ([job] + tail)[0] == job && ([job] + tail)[1..] == tail;
  }

  /** A host's transaction can be moved to the front of the cycle. */
  lemma {:induction false} MoveToFront(s: State, pre: seq<Job>, job: Job, post: seq<Job>)
    requires PlanFresh(s, pre + [job] + post)
    ensures Cycle(s, pre + [job] + post) == Cycle(s, [job] + (pre + post))
    decreases |pre|
  {
    var jobs := pre + [job] + post;
    if pre == [] {
      assert jobs == [job] + (pre + post);
    } else {
      var first, rest := pre[0], pre[1..];
      SplitFirst(pre, job, post);
      assert Apart(jobs[0], jobs[|pre|]);
      JobKeepsPlanFresh(s, jobs);
      MoveToFront(RunJob(s, first), rest, job, post);
      JobsCommute(s, first, job, rest + post);
      CycleStep(s, job, pre + post);
    }
  }

  lemma SplitFirst(pre: seq<Job>, job: Job, post: seq<Job>)
    requires pre != []
    ensures var jobs := pre + [job] + post;
      jobs[0] == pre[0] && jobs[|pre|] == job && jobs[1..] == pre[1..] + [job] + post
    ensures pre + post == [pre[0]] + (pre[1..] + post)
  {
  }

  lemma FreshAfterMove(s: State, pre: seq<Job>, job: Job, post: seq<Job>)
    requires PlanFresh(s, pre + [job] + post)
    ensures PlanFresh(s, [job] + (pre + post))
  {
    var a, b := pre + [job] + post, [job] + (pre + post);
    forall i | 0 <= i < |b| ensures b[i] == a[if i == 0 then |pre| else if i <= |pre| then i - 1 else i] {
    }
  }

  lemma SplitAt(jobs: seq<Job>, job: Job) returns (pre: seq<Job>, post: seq<Job>)
    requires job in multiset(jobs)
    ensures jobs == pre + [job] + post && multiset(jobs) == multiset([job]) + multiset(pre + post)
  {
    var p :| 0 <= p < |jobs| && jobs[p] == job;
    pre, post := jobs[..p], jobs[p + 1..];
    assert jobs == pre + [job] + post;
  }

  /** The state after a cycle is the same for every order of the hosts. */
  lemma {:induction false} OrderDoesNotMatter(s: State, jobs: seq<Job>, other: seq<Job>)
    requires multiset(jobs) == multiset(other)
    requires PlanFresh(s, jobs) && PlanFresh(s, other)
    ensures Cycle(s, jobs) == Cycle(s, other)
    decreases |jobs|
  {
    if jobs == [] {
      assert |multiset(other)| == 0;
    } else {
      var job, tail := jobs[0], jobs[1..];
      assert jobs == [job] + tail;
      var pre, post := SplitAt(other, job);
      MoveToFront(s, pre, job, post);
      FreshAfterMove(s, pre, job, post);
      JobKeepsPlanFresh(s, jobs);
      JobKeepsPlanFresh(s, [job] + (pre + post));
      assert ([job] + (pre + post))[1..] == pre + post;
      assert multiset(tail) == multiset(jobs) - multiset([job]) == multiset(pre + post);
      OrderDoesNotMatter(RunJob(s, job), tail, pre + post);
    }
  }
}
