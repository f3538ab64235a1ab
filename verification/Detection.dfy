/** The detection engine's per-host transaction: alert upserts followed by the
    policy (server/app/services/rules/engine.py, server/app/services/policy.py,
    server/app/models/alert.py). The rule evaluator is not part of this model:
    its candidates are arbitrary. */
module Detection {
  import opened Base
  import opened Actions

  type AlertId = nat

  datatype AlertStatus = OpenAlert | Acknowledged | Resolved

  datatype Alert = Alert(
    host: HostId, ruleId: string, dedup: string, ruleName: string, severity: string,
    description: string, count: nat, firstAt: Time, lastAt: Time,
    status: AlertStatus, context: map<string, string>)

  type Alerts = map<AlertId, Alert>

  /** A candidate, with the ids its rows would get if they are new. */
  datatype Candidate = Candidate(
    ruleId: string, ruleName: string, severity: string,
    groupKey: map<string, string>, dedup: string, description: string,
    count: nat, firstAt: Time, lastAt: Time,
    alertId: AlertId, actionId: ActionId)

  datatype State = State(alerts: Alerts, actions: Table)

  predicate HasKey(a: Alert, host: HostId, c: Candidate) {
    a.host == host && a.ruleId == c.ruleId && a.dedup == c.dedup
  }

  predicate SameCandidateKey(c: Candidate, d: Candidate) {
    c.ruleId == d.ruleId && c.dedup == d.dedup
  }

  /** The table's UNIQUE constraint, over all statuses. */
  ghost predicate Unique(alerts: Alerts) {
    forall i, j | i in alerts && j in alerts && i != j ::
      !(alerts[i].host == alerts[j].host && alerts[i].ruleId == alerts[j].ruleId && alerts[i].dedup == alerts[j].dedup)
  }

  function NewAlert(host: HostId, c: Candidate): Alert {
    Alert(host, c.ruleId, c.dedup, c.ruleName, c.severity, c.description,
          c.count, c.firstAt, c.lastAt, OpenAlert, c.groupKey)
  }

  function Refreshed(a: Alert, c: Candidate): Alert {
    a.(count := c.count, lastAt := c.lastAt, description := c.description, context := c.groupKey)
  }

  predicate HasOpen(alerts: Alerts, host: HostId, c: Candidate) {
    exists id | id in alerts :: HasKey(alerts[id], host, c) && alerts[id].status == OpenAlert
  }

  predicate HasClosed(alerts: Alerts, host: HostId, c: Candidate) {
    exists id | id in alerts :: HasKey(alerts[id], host, c) && alerts[id].status != OpenAlert
  }

  /** None of the first `n` candidates has the key of a closed alert. */
  predicate NoneClosed(alerts: Alerts, host: HostId, cs: seq<Candidate>, n: nat)
    requires n <= |cs|
    ensures NoneClosed(alerts, host, cs, n) <==> forall k :: 0 <= k < n ==> !HasClosed(alerts, host, cs[k])
  {
    n == 0 || (NoneClosed(alerts, host, cs, n - 1) && !HasClosed(alerts, host, cs[n - 1]))
  }

  function RefreshOpen(alerts: Alerts, host: HostId, c: Candidate): Alerts {
    map id | id in alerts ::
      if HasKey(alerts[id], host, c) && alerts[id].status == OpenAlert then Refreshed(alerts[id], c) else alerts[id]
  }

  /** Refreshes the open alert of the candidate's key, or inserts one; the
      insert violates the constraint if a closed alert has the key. */
  function Upsert(alerts: Alerts, host: HostId, c: Candidate): Option<Alerts> {
    if HasOpen(alerts, host, c) then Some(RefreshOpen(alerts, host, c))
    else if HasClosed(alerts, host, c) then None
    else Some(alerts[c.alertId := NewAlert(host, c)])
  }

  // ------------------------------------------------------------------ policy

  const BLOCK_IP_RULES := {"ssh_brute_force_ip", "ssh_root_login_failure", "ssh_user_enumeration"}
  const QUARANTINE_RULES := {"yara_critical_match"}

  function Lookup(context: map<string, string>, key: string, default: string): string {
    if key in context then context[key] else default
  }

  datatype Wish = NoWish | Wish(kind: Kind, target: string, reason: string)

  /** The action a rule asks for, given the alert's context. */
  function PolicyWish(ruleId: string, context: map<string, string>): Wish {
    if ruleId in BLOCK_IP_RULES then
      var ip := Lookup(context, "source.ip", "");
      if ip == "" then NoWish else Wish(BlockIp, ip, "alert:" + ruleId)
    else if ruleId in QUARANTINE_RULES then
      var path := Lookup(context, "file.path", "");
      if path == "" then NoWish
      else Wish(QuarantineFile, path, "alert:" + ruleId + ":" + Lookup(context, "yara.rule_name", "unknown"))
    else NoWish
  }

  /** What the policy promises: the SSH rules ask for a block of the source
      address, the critical YARA rule for quarantine of the file, and both only
      when the alert's context names it; nothing else asks for anything. */
  ghost predicate Asks(c: Candidate, kind: Kind, target: string, reason: string) {
    || (&& (c.ruleId == "ssh_brute_force_ip" || c.ruleId == "ssh_root_login_failure"
            || c.ruleId == "ssh_user_enumeration")
        && "source.ip" in c.groupKey && c.groupKey["source.ip"] != ""
        && kind == BlockIp && target == c.groupKey["source.ip"] && reason == "alert:" + c.ruleId)
    || (&& c.ruleId == "yara_critical_match"
        && "file.path" in c.groupKey && c.groupKey["file.path"] != ""
        && kind == QuarantineFile && target == c.groupKey["file.path"]
        && reason == "alert:" + c.ruleId + ":"
                     + (if "yara.rule_name" in c.groupKey then c.groupKey["yara.rule_name"] else "unknown"))
  }

  lemma WishIff(c: Candidate, kind: Kind, target: string, reason: string)
    ensures PolicyWish(c.ruleId, c.groupKey) == Wish(kind, target, reason) <==> Asks(c, kind, target, reason)
  {
  }

  function MaybeCreate(t: Table, host: HostId, c: Candidate): Table {
    match PolicyWish(c.ruleId, c.groupKey)
    case NoWish => t
    case Wish(kind, target, reason) => TryCreate(t, c.actionId, host, kind, target, reason, true, ACTIVE)
  }

  // ------------------------------------------------------------- transaction

  /** The session after the first `n` candidates; `None` once a flush failed. */
  function Evaluate(s: State, host: HostId, cs: seq<Candidate>, n: nat): Option<State>
    requires n <= |cs|
  {
    if n == 0 then Some(s)
    else match Evaluate(s, host, cs, n - 1)
      case None => None
      case Some(p) =>
        match Upsert(p.alerts, host, cs[n - 1])
        case None => None
        case Some(alerts) => Some(State(alerts, MaybeCreate(p.actions, host, cs[n - 1])))
  }

  /** Commit, or roll everything back. */
  function Transaction(s: State, host: HostId, cs: seq<Candidate>): State {
    match Evaluate(s, host, cs, |cs|) case None => s case Some(after) => after
  }

  /** The ids drawn for new rows are new. */
  ghost predicate FreshDraws(s: State, cs: seq<Candidate>) {
    && (forall i :: 0 <= i < |cs| ==> cs[i].alertId !in s.alerts && cs[i].actionId !in s.actions)
    && (forall i, j :: 0 <= i < j < |cs| ==> cs[i].alertId != cs[j].alertId && cs[i].actionId != cs[j].actionId)
  }

  /** No later candidate among the first `n` has the key of candidate `k`. */
  ghost predicate LastOfKey(cs: seq<Candidate>, k: nat, n: nat)
    requires k < n <= |cs|
  {
    forall j :: k < j < n ==> !SameCandidateKey(cs[j], cs[k])
  }

  /** None of the first `n` candidates has the key of `c`. */
  ghost predicate NoneOfKey(cs: seq<Candidate>, n: nat, c: Candidate)
    requires n <= |cs|
  {
    forall j :: 0 <= j < n ==> !SameCandidateKey(cs[j], c)
  }

  ghost predicate FirstOfKey(cs: seq<Candidate>, k: nat)
    requires k < |cs|
  {
    NoneOfKey(cs, k, cs[k])
  }

  /** Candidate `f` is the one that inserts its key's row. */
  ghost predicate Inserts(before: Alerts, host: HostId, cs: seq<Candidate>, f: nat)
    requires f < |cs|
  {
    FirstOfKey(cs, f) && !HasOpen(before, host, cs[f])
  }

  /** One row's own history: refreshed by each candidate that has its key. */
  function Track(a: Alert, host: HostId, cs: seq<Candidate>, n: nat): (b: Alert)
    requires n <= |cs|
    ensures b == a.(count := b.count, lastAt := b.lastAt, description := b.description, context := b.context)
  {
    if n == 0 then a
    else
      var p := Track(a, host, cs, n - 1);
      if HasKey(p, host, cs[n - 1]) then Refreshed(p, cs[n - 1]) else p
  }

  /** A row ends with the data of the last candidate of its key, and is
      untouched when there is none. */
  lemma {:induction false} TrackEndsWithLast(a: Alert, host: HostId, cs: seq<Candidate>, n: nat)
    requires n <= |cs|
    ensures forall k :: 0 <= k < n && HasKey(a, host, cs[k]) && LastOfKey(cs, k, n) ==>
      Track(a, host, cs, n) == Refreshed(a, cs[k])
    ensures (forall k :: 0 <= k < n ==> !HasKey(a, host, cs[k])) ==> Track(a, host, cs, n) == a
  {
    if n > 0 {
      TrackEndsWithLast(a, host, cs, n - 1);
      var p := Track(a, host, cs, n - 1);
      forall k | 0 <= k < n && HasKey(a, host, cs[k]) && LastOfKey(cs, k, n)
        ensures Track(a, host, cs, n) == Refreshed(a, cs[k])
      {
        if k == n - 1 {
          assert HasKey(p, host, cs[k]);
        } else {
          assert !SameCandidateKey(cs[n - 1], cs[k]);
          assert LastOfKey(cs, k, n - 1);
        }
      }
    }
  }

  ghost predicate OldRowsTrack(before: Alerts, after: Alerts, host: HostId, cs: seq<Candidate>, n: nat)
    requires n <= |cs|
  {
    forall id :: id in before ==> id in after && after[id] == Track(before[id], host, cs, n)
  }

  ghost predicate NewRowsInserted(before: Alerts, after: Alerts, host: HostId, cs: seq<Candidate>, n: nat)
    requires n <= |cs|
  {
    forall id :: id in after && id !in before ==>
      exists f :: 0 <= f < n && cs[f].alertId == id && Inserts(before, host, cs, f)
  }

  ghost predicate InsertsPresent(before: Alerts, after: Alerts, host: HostId, cs: seq<Candidate>, n: nat)
    requires n <= |cs|
  {
    forall f :: 0 <= f < n && Inserts(before, host, cs, f) ==>
      cs[f].alertId in after && after[cs[f].alertId] == Track(NewAlert(host, cs[f]), host, cs, n)
  }

  ghost predicate AllOpen(after: Alerts, host: HostId, cs: seq<Candidate>, n: nat)
    requires n <= |cs|
  {
    forall k {:trigger HasOpen(after, host, cs[k])} :: 0 <= k < n ==> HasOpen(after, host, cs[k])
  }

  /** What the first `n` candidates did to the alerts: old rows follow their own
      history, and the new rows are those of the inserting candidates. */
  ghost predicate Reached(before: Alerts, after: Alerts, host: HostId, cs: seq<Candidate>, n: nat)
    requires n <= |cs|
  {
    && Unique(after)
    && OldRowsTrack(before, after, host, cs, n)
    && NewRowsInserted(before, after, host, cs, n)
    && InsertsPresent(before, after, host, cs, n)
    && AllOpen(after, host, cs, n)
  }

  lemma UniqueOpenOrClosed(alerts: Alerts, host: HostId, c: Candidate)
    requires Unique(alerts)
    ensures !(HasOpen(alerts, host, c) && HasClosed(alerts, host, c))
  {
  }

  /** Keys are closed after the candidates exactly if they were before. */
  lemma ClosedIsStable(before: Alerts, after: Alerts, host: HostId, cs: seq<Candidate>, n: nat, c: Candidate)
    requires n <= |cs| && Reached(before, after, host, cs, n)
    ensures HasClosed(after, host, c) <==> HasClosed(before, host, c)
    ensures HasOpen(before, host, c) ==> HasOpen(after, host, c)
  {
    if HasClosed(after, host, c) {
      var id :| id in after && HasKey(after[id], host, c) && after[id].status != OpenAlert;
      if id !in before { assert false; }
    }
    if HasClosed(before, host, c) {
      var id :| id in before && HasKey(before[id], host, c) && before[id].status != OpenAlert;
      assert HasKey(after[id], host, c) && after[id].status != OpenAlert;
    }
    if HasOpen(before, host, c) {
      var id :| id in before && HasKey(before[id], host, c) && before[id].status == OpenAlert;
      assert HasKey(after[id], host, c) && after[id].status == OpenAlert;
    }
  }

  /** A key is open after the candidates if it was before or one of them has it. */
  lemma OpenAfter(before: Alerts, after: Alerts, host: HostId, cs: seq<Candidate>, n: nat, c: Candidate)
    requires n <= |cs| && Reached(before, after, host, cs, n)
    ensures HasOpen(after, host, c) <==> HasOpen(before, host, c) || !NoneOfKey(cs, n, c)
  {
    ClosedIsStable(before, after, host, cs, n, c);
    if HasOpen(after, host, c) && !HasOpen(before, host, c) {
      var id :| id in after && HasKey(after[id], host, c) && after[id].status == OpenAlert;
      if id !in before {
        var f :| 0 <= f < n && cs[f].alertId == id && Inserts(before, host, cs, f);
        assert SameCandidateKey(cs[f], c);
      }
    }
    if k :| 0 <= k < n && SameCandidateKey(cs[k], c) {
      assert HasOpen(after, host, cs[k]);
      var id :| id in after && HasKey(after[id], host, cs[k]) && after[id].status == OpenAlert;
      assert HasKey(after[id], host, c);
    }
  }

  /** A row made from a key's first candidate carries that candidate's data when
      it is inserted. */
  lemma NewRowTracks(host: HostId, cs: seq<Candidate>, n: nat)
    requires 0 < n <= |cs| && FirstOfKey(cs, n - 1)
    ensures Track(NewAlert(host, cs[n - 1]), host, cs, n) == NewAlert(host, cs[n - 1])
  {
    TrackEndsWithLast(NewAlert(host, cs[n - 1]), host, cs, n - 1);
  }

  /** Both branches of an upsert refresh exactly the rows that have the key. */
  ghost predicate Touched(mid: Alerts, after: Alerts, host: HostId, c: Candidate) {
    forall id :: id in mid ==>
      id in after && after[id] == if HasKey(mid[id], host, c) then Refreshed(mid[id], c) else mid[id]
  }

  lemma UpsertTouches(mid: Alerts, host: HostId, c: Candidate)
    requires Unique(mid) && !HasClosed(mid, host, c) && c.alertId !in mid
    ensures Upsert(mid, host, c).Some?
    ensures var after := Upsert(mid, host, c).value;
      && Unique(after) && Touched(mid, after, host, c) && HasOpen(after, host, c)
      && (if HasOpen(mid, host, c) then after.Keys == mid.Keys
          else after.Keys == mid.Keys + {c.alertId} && after[c.alertId] == NewAlert(host, c))
  {
    var after := Upsert(mid, host, c).value;
    if HasOpen(mid, host, c) {
      var id :| id in mid && HasKey(mid[id], host, c) && mid[id].status == OpenAlert;
      assert HasKey(after[id], host, c) && after[id].status == OpenAlert;
    } else {
      assert forall id :: id in mid ==> !HasKey(mid[id], host, c);
      assert HasKey(after[c.alertId], host, c) && after[c.alertId].status == OpenAlert;
    }
  }

  lemma OldRowsStep(before: Alerts, mid: Alerts, after: Alerts, host: HostId, cs: seq<Candidate>, n: nat)
    requires 0 < n <= |cs| && OldRowsTrack(before, mid, host, cs, n - 1) && Touched(mid, after, host, cs[n - 1])
    ensures OldRowsTrack(before, after, host, cs, n)
  {
  }

  lemma InsertsStep(before: Alerts, mid: Alerts, after: Alerts, host: HostId, cs: seq<Candidate>, n: nat)
    requires 0 < n <= |cs| && InsertsPresent(before, mid, host, cs, n - 1) && Touched(mid, after, host, cs[n - 1])
    requires Inserts(before, host, cs, n - 1) ==>
      cs[n - 1].alertId in after && after[cs[n - 1].alertId] == NewAlert(host, cs[n - 1])
    ensures InsertsPresent(before, after, host, cs, n)
  {
    if Inserts(before, host, cs, n - 1) { NewRowTracks(host, cs, n); }
  }

  lemma OpenStep(mid: Alerts, after: Alerts, host: HostId, cs: seq<Candidate>, n: nat)
    requires 0 < n <= |cs| && AllOpen(mid, host, cs, n - 1)
    requires Touched(mid, after, host, cs[n - 1]) && HasOpen(after, host, cs[n - 1])
    ensures AllOpen(after, host, cs, n)
  {
    forall k | 0 <= k < n - 1 ensures HasOpen(after, host, cs[k]) {
      assert HasOpen(mid, host, cs[k]);
      var id :| id in mid && HasKey(mid[id], host, cs[k]) && mid[id].status == OpenAlert;
      assert HasKey(after[id], host, cs[k]) && after[id].status == OpenAlert;
    }
  }

  lemma NewRowsStep(before: Alerts, mid: Alerts, after: Alerts, host: HostId, cs: seq<Candidate>, n: nat)
    requires 0 < n <= |cs| && NewRowsInserted(before, mid, host, cs, n - 1)
    requires after.Keys == mid.Keys ||
      (after.Keys == mid.Keys + {cs[n - 1].alertId} && Inserts(before, host, cs, n - 1))
    ensures NewRowsInserted(before, after, host, cs, n)
  {
    forall id | id in after && id !in before
      ensures exists f :: 0 <= f < n && cs[f].alertId == id && Inserts(before, host, cs, f)
    {
      if id in mid {
        var f :| 0 <= f < n - 1 && cs[f].alertId == id && Inserts(before, host, cs, f);
      } else {
        assert cs[n - 1].alertId == id;
      }
    }
  }

  lemma DrawIsNew(s: State, mid: Alerts, host: HostId, cs: seq<Candidate>, n: nat)
    requires 0 < n <= |cs| && FreshDraws(s, cs) && NewRowsInserted(s.alerts, mid, host, cs, n - 1)
    ensures cs[n - 1].alertId !in mid
  {
  }

  lemma ReachStep(before: Alerts, mid: Alerts, after: Alerts, host: HostId, cs: seq<Candidate>, n: nat, inserted: bool)
    requires 0 < n <= |cs| && Reached(before, mid, host, cs, n - 1)
    requires Unique(after) && Touched(mid, after, host, cs[n - 1]) && HasOpen(after, host, cs[n - 1])
    requires inserted <==> Inserts(before, host, cs, n - 1)
    requires if inserted then
               && after.Keys == mid.Keys + {cs[n - 1].alertId}
               && after[cs[n - 1].alertId] == NewAlert(host, cs[n - 1])
             else after.Keys == mid.Keys
    ensures Reached(before, after, host, cs, n)
  {
    OldRowsStep(before, mid, after, host, cs, n);
    InsertsStep(before, mid, after, host, cs, n);
    OpenStep(mid, after, host, cs, n);
    NewRowsStep(before, mid, after, host, cs, n);
  }

  lemma InsertsIffNotOpen(before: Alerts, mid: Alerts, host: HostId, cs: seq<Candidate>, n: nat)
    requires 0 < n <= |cs| && Reached(before, mid, host, cs, n - 1)
    ensures Inserts(before, host, cs, n - 1) <==> !HasOpen(mid, host, cs[n - 1])
  {
    var m, c := n - 1, cs[n - 1];
    OpenAfter(before, mid, host, cs, m, c);
    InsertsIff(before, host, cs, m, c, HasOpen(mid, host, c));
  }

  lemma InsertsIff(before: Alerts, host: HostId, cs: seq<Candidate>, m: nat, c: Candidate, open: bool)
    requires m < |cs| && c == cs[m]
    requires open <==> HasOpen(before, host, c) || !NoneOfKey(cs, m, c)
    ensures Inserts(before, host, cs, m) <==> !open
  {
  }

  lemma UpsertSucceedsIff(alerts: Alerts, host: HostId, c: Candidate)
    requires Unique(alerts)
    ensures Upsert(alerts, host, c).Some? <==> !HasClosed(alerts, host, c)
  {
    UniqueOpenOrClosed(alerts, host, c);
  }

  lemma UpsertReaches(before: Alerts, mid: Alerts, host: HostId, cs: seq<Candidate>, n: nat, after: Alerts)
    requires 0 < n <= |cs| && Reached(before, mid, host, cs, n - 1) && cs[n - 1].alertId !in mid
    requires !HasClosed(mid, host, cs[n - 1]) && Upsert(mid, host, cs[n - 1]) == Some(after)
    ensures Reached(before, after, host, cs, n)
  {
    var inserted := !HasOpen(mid, host, cs[n - 1]);
    assert inserted <==> Inserts(before, host, cs, n - 1) by {
      InsertsIffNotOpen(before, mid, host, cs, n);
    }
    UpsertTouches(mid, host, cs[n - 1]);
    ReachStep(before, mid, after, host, cs, n, inserted);
  }

  lemma ReachedAtStart(alerts: Alerts, host: HostId, cs: seq<Candidate>)
    requires Unique(alerts)
    ensures Reached(alerts, alerts, host, cs, 0)
  {
  }

  lemma {:induction false} EvaluateReaches(s: State, host: HostId, cs: seq<Candidate>, n: nat)
    requires n <= |cs| && Unique(s.alerts) && FreshDraws(s, cs)
    requires Evaluate(s, host, cs, n).Some?
    ensures Reached(s.alerts, Evaluate(s, host, cs, n).value.alerts, host, cs, n)
  {
    if n == 0 {
      ReachedAtStart(s.alerts, host, cs);
    } else {
      EvaluateReaches(s, host, cs, n - 1);
      var mid := Evaluate(s, host, cs, n - 1).value.alerts;
      UpsertSucceedsIff(mid, host, cs[n - 1]);
      DrawIsNew(s, mid, host, cs, n);
      UpsertReaches(s.alerts, mid, host, cs, n, Upsert(mid, host, cs[n - 1]).value);
    }
  }

  lemma OneMoreSucceedsIff(s: State, host: HostId, cs: seq<Candidate>, n: nat)
    requires 0 < n <= |cs| && Unique(s.alerts) && FreshDraws(s, cs) && Evaluate(s, host, cs, n - 1).Some?
    ensures Evaluate(s, host, cs, n).Some? <==> !HasClosed(s.alerts, host, cs[n - 1])
  {
    var mid := Evaluate(s, host, cs, n - 1).value.alerts;
    EvaluateReaches(s, host, cs, n - 1);
    ClosedIsStable(s.alerts, mid, host, cs, n - 1, cs[n - 1]);
    UpsertSucceedsIff(mid, host, cs[n - 1]);
    assert Evaluate(s, host, cs, n).Some? <==> Upsert(mid, host, cs[n - 1]).Some?;
  }

  /** The first `n` candidates go through exactly while none of their keys
      belongs to an acknowledged or resolved alert. */
  lemma {:induction false} EvaluateSucceedsIff(s: State, host: HostId, cs: seq<Candidate>, n: nat)
    requires n <= |cs| && Unique(s.alerts) && FreshDraws(s, cs)
    ensures Evaluate(s, host, cs, n).Some? <==> NoneClosed(s.alerts, host, cs, n)
  {
    if n > 0 {
      EvaluateSucceedsIff(s, host, cs, n - 1);
      if Evaluate(s, host, cs, n - 1).Some? { OneMoreSucceedsIff(s, host, cs, n); }
    }
  }
}
