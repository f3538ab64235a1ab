/** What the policy leaves of a committed detection transaction
    (server/app/services/policy.py), in terms of the rules and the fields of the
    candidates' contexts. */
module DetectionPolicy {
  import opened Base
  import opened Actions
  import opened Detection
  import opened DetectionCycle

  /** What the candidate asks for is active. */
  ghost predicate IsServed(t: Table, host: HostId, c: Candidate) {
    forall kind, target, reason :: Asks(c, kind, target, reason) ==> HasActiveRow(t, host, kind, target)
  }

  /** The row is one that the candidate asked for and the host did not have. */
  ghost predicate IsAskedBy(before: Table, a: Action, host: HostId, c: Candidate) {
    exists kind, target, reason ::
      && Asks(c, kind, target, reason) && IsFreshRow(a, host, kind, target, reason)
      && !HasActiveRow(before, host, kind, target)
  }

  lemma GrantedIffServed(t: Table, host: HostId, c: Candidate)
    ensures Granted(t, host, c) <==> IsServed(t, host, c)
  {
    forall kind, target, reason
      ensures PolicyWish(c.ruleId, c.groupKey) == Wish(kind, target, reason) <==> Asks(c, kind, target, reason)
    {
      WishIff(c, kind, target, reason);
    }
    match PolicyWish(c.ruleId, c.groupKey)
    case NoWish =>
    case Wish(kind, target, reason) => OccupiedIffActive(t, host, kind, target);
  }

  /** Old rows stay, and new ones were asked for. */
  ghost predicate OnlyAsked(before: Table, after: Table, host: HostId, cs: seq<Candidate>, n: nat)
    requires n <= |cs|
  {
    && (forall id :: id in before ==> id in after && after[id] == before[id])
    && (forall id :: id in after && id !in before ==>
          exists k :: 0 <= k < n && cs[k].actionId == id && IsAskedBy(before, after[id], host, cs[k]))
  }

  lemma ActiveRowsStay(before: Table, after: Table, host: HostId, kind: Kind, target: string)
    requires forall id :: id in before ==> id in after && after[id] == before[id]
    ensures HasActiveRow(before, host, kind, target) ==> HasActiveRow(after, host, kind, target)
  {
    if HasActiveRow(before, host, kind, target) {
      var id :| id in before && before[id].host == host && before[id].kind == kind && before[id].target == target
        && (before[id].status == Pending || before[id].status == Sent || before[id].status == Executed);
      assert after[id] == before[id];
    }
  }

  lemma OneMoreAsked(before: Table, mid: Table, host: HostId, cs: seq<Candidate>, n: nat)
    requires 0 < n <= |cs| && OnlyAsked(before, mid, host, cs, n - 1) && cs[n - 1].actionId !in mid
    ensures OnlyAsked(before, MaybeCreate(mid, host, cs[n - 1]), host, cs, n)
  {
    var c := cs[n - 1];
    var after := MaybeCreate(mid, host, c);
    PolicyCreatesIff(mid, host, c);
    forall id | id in after && id !in before
      ensures exists k :: 0 <= k < n && cs[k].actionId == id && IsAskedBy(before, after[id], host, cs[k])
    {
      if id in mid {
        var k :| 0 <= k < n - 1 && cs[k].actionId == id && IsAskedBy(before, mid[id], host, cs[k]);
        assert IsAskedBy(before, after[id], host, cs[k]);
      } else {
        assert after != mid;
        var kind, target, reason :| Asks(c, kind, target, reason) && !HasActiveRow(mid, host, kind, target);
        ActiveRowsStay(before, mid, host, kind, target);
        assert IsAskedBy(before, after[id], host, c);
      }
    }
  }

  lemma {:induction false} EvaluateOnlyAsks(s: State, host: HostId, cs: seq<Candidate>, n: nat)
    requires n <= |cs| && FreshDraws(s, cs) && Evaluate(s, host, cs, n).Some?
    ensures OnlyAsked(s.actions, Evaluate(s, host, cs, n).value.actions, host, cs, n)
  {
    if n > 0 {
      EvaluateOnlyAsks(s, host, cs, n - 1);
      CommitGrantsAll(s, host, cs, n - 1);
      OneMoreAsked(s.actions, Evaluate(s, host, cs, n - 1).value.actions, host, cs, n);
    }
  }

  /** After a commit, whatever a candidate asks for is active; every row that is
      new was asked for by the candidate that drew its id, and the host had none;
      candidates that ask for nothing add none; and old rows are as they were. */
  lemma PolicyIsExact(s: State, host: HostId, cs: seq<Candidate>)
    requires FreshDraws(s, cs) && Evaluate(s, host, cs, |cs|).Some?
    ensures forall k :: 0 <= k < |cs| ==> IsServed(Transaction(s, host, cs).actions, host, cs[k])
    ensures OnlyAsked(s.actions, Transaction(s, host, cs).actions, host, cs, |cs|)
    ensures forall k | 0 <= k < |cs| && cs[k].actionId in Transaction(s, host, cs).actions ::
      IsAskedBy(s.actions, Transaction(s, host, cs).actions[cs[k].actionId], host, cs[k])
  {
    var t := Transaction(s, host, cs).actions;
    CommitGrantsAll(s, host, cs, |cs|);
    EvaluateOnlyAsks(s, host, cs, |cs|);
    forall k | 0 <= k < |cs| ensures IsServed(t, host, cs[k]) {
      GrantedIffServed(t, host, cs[k]);
    }
  }

  /** What the policy does for one candidate is nothing, or what the protocol
      takes for a step of the policy: one row of a kind that only it creates. */
  lemma PolicyActsByStep(t: Table, host: HostId, c: Candidate)
    ensures MaybeCreate(t, host, c) == t || exists kind, target, reason ::
      Asks(c, kind, target, reason) && kind in POLICY_KINDS &&
      MaybeCreate(t, host, c) == TryCreate(t, c.actionId, host, kind, target, reason, true, ACTIVE)
  {
    match PolicyWish(c.ruleId, c.groupKey)
    case NoWish =>
    case Wish(kind, target, reason) => WishIff(c, kind, target, reason);
  }

  predicate IsSshRule(ruleId: string) {
    ruleId == "ssh_brute_force_ip" || ruleId == "ssh_root_login_failure" || ruleId == "ssh_user_enumeration"
  }

  predicate Names(context: map<string, string>, key: string, value: string) {
    key in context && context[key] == value && value != ""
  }

  lemma SshIsServed(t: Table, host: HostId, c: Candidate, ip: string)
    requires IsServed(t, host, c) && IsSshRule(c.ruleId) && Names(c.groupKey, "source.ip", ip)
    ensures HasActiveRow(t, host, BlockIp, ip)
  {
    assert Asks(c, BlockIp, ip, "alert:" + c.ruleId);
  }

  lemma YaraIsServed(t: Table, host: HostId, c: Candidate, path: string)
    requires IsServed(t, host, c) && c.ruleId == "yara_critical_match" && Names(c.groupKey, "file.path", path)
    ensures HasActiveRow(t, host, QuarantineFile, path)
  {
    var name := if "yara.rule_name" in c.groupKey then c.groupKey["yara.rule_name"] else "unknown";
    assert Asks(c, QuarantineFile, path, "alert:" + c.ruleId + ":" + name);
  }

  /** In particular, each candidate of an SSH rule with a source address leaves
      that address blocked or about to be, and each critical YARA match leaves
      its file quarantined or about to be. */
  lemma RulesAreServed(s: State, host: HostId, cs: seq<Candidate>, k: nat, target: string)
    requires FreshDraws(s, cs) && Evaluate(s, host, cs, |cs|).Some? && k < |cs|
    ensures IsSshRule(cs[k].ruleId) && Names(cs[k].groupKey, "source.ip", target) ==>
      HasActiveRow(Transaction(s, host, cs).actions, host, BlockIp, target)
    ensures cs[k].ruleId == "yara_critical_match" && Names(cs[k].groupKey, "file.path", target) ==>
      HasActiveRow(Transaction(s, host, cs).actions, host, QuarantineFile, target)
  {
    var c, t := cs[k], Transaction(s, host, cs).actions;
    assert IsServed(t, host, c) by { PolicyIsExact(s, host, cs); }
    if IsSshRule(c.ruleId) && Names(c.groupKey, "source.ip", target) { SshIsServed(t, host, c, target); }
    if c.ruleId == "yara_critical_match" && Names(c.groupKey, "file.path", target) {
      YaraIsServed(t, host, c, target);
    }
  }
}
