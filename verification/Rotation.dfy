/** Every run of logins, refreshes and logouts over the jti table: each login
    starts a chain of tokens, of which at most the newest is live. */
module Rotation {
  import opened Base
  import opened Tokens

  /** The table and its history: the token each one was exchanged for, the chain
      it belongs to, the number of tokens before it, the tokens that started a
      chain, which jtis `refresh` accepted, and the counts. */
  datatype Store = Store(
    rows: Rows, active: set<UserId>,
    parent: map<Jti, Jti>, root: map<Jti, Jti>, age: map<Jti, nat>, started: set<Jti>, accepted: seq<Jti>,
    logins: nat, legacyRefreshes: nat, logouts: nat)

  datatype Step =
    | Login(user: UserId, newJti: Jti)
    | Refresh(token: Token, newJti: Jti, now: Time)
    | Logout(token: Token, now: Time)
    | SetActive(active: set<UserId>)

  ghost predicate Enabled(s: Store, e: Step) {
    match e
    case Login(user, newJti) => user in s.active && newJti !in s.rows
    case Refresh(_, newJti, _) => newJti !in s.rows
    case _ => true
  }

  /** A new chain of one token. */
  function Start(s: Store, newJti: Jti): Store {
    s.(root := s.root[newJti := newJti], age := s.age[newJti := |s.rows|], started := s.started + {newJti})
  }

  /** One more token on the chain of `j`. */
  function Link(s: Store, j: Jti, newJti: Jti): Store {
    s.(parent := s.parent[newJti := j],
       root := s.root[newJti := if j in s.root then s.root[j] else newJti],
       age := s.age[newJti := |s.rows|],
       accepted := s.accepted + [j])
  }

  function Apply(s: Store, e: Step): Store {
    match e
    case Login(user, newJti) => Start(s, newJti).(rows := Emit(s.rows, user, newJti), logins := s.logins + 1)
    case Refresh(token, newJti, now) =>
      var rows := AfterRefresh(s.rows, s.active, token, newJti, now);
      if !Accepts(s.rows, s.active, token) then s
      else if token.jti.None? then Start(s, newJti).(rows := rows, legacyRefreshes := s.legacyRefreshes + 1)
      else Link(s, token.jti.value, newJti).(rows := rows)
    case Logout(token, now) =>
      s.(rows := AfterLogout(s.rows, token, now),
         logouts := s.logouts + if token.Decoded? && token.jti.Some? && Live(s.rows, token.jti.value) then 1 else 0)
    case SetActive(active) => s.(active := active)
  }

  ghost predicate IsRun(ss: seq<Store>, steps: seq<Step>) {
    && |ss| == |steps| + 1
    && ss[0].rows == map[] && ss[0].parent == map[] && ss[0].root == map[] && ss[0].age == map[]
    && ss[0].started == {} && ss[0].accepted == []
    && ss[0].logins == ss[0].legacyRefreshes == ss[0].logouts == 0
    && forall i :: 0 <= i < |steps| ==> Enabled(ss[i], steps[i]) && ss[i + 1] == Apply(ss[i], steps[i])
  }

  // --------------------------------------------------------------- invariants

  /** A token that was obtained for another one belongs to the same chain as
      that one, which is older and spent; any other token started its chain. */
  ghost predicate LinkOk(s: Store, c: Jti) {
    && c in s.rows && c in s.root && c in s.age && s.age[c] < |s.rows|
    && s.root[c] in s.started && (c in s.started <==> c !in s.parent)
    && if c in s.parent then
         var p := s.parent[c];
         && p in s.rows && p in s.root && p in s.age
         && !Live(s.rows, p) && s.root[p] == s.root[c] && s.age[p] < s.age[c]
       else s.root[c] == c
  }

  /** Tokens have different ages. Of two on one chain only the younger can be
      live, and a token's parent is at least as young as any that is older. */
  ghost predicate OrderOk(s: Store, c: Jti, d: Jti)
    requires LinkOk(s, c) && LinkOk(s, d)
  {
    && (s.age[c] == s.age[d] ==> c == d)
    && (s.root[c] == s.root[d] ==>
          && (Live(s.rows, c) ==> s.age[d] <= s.age[c])
          && (c in s.parent && s.age[d] < s.age[c] ==> s.age[d] <= s.age[s.parent[c]]))
  }

  ghost predicate Linked(s: Store) {
    && s.rows.Keys == s.root.Keys == s.age.Keys && s.parent.Keys <= s.rows.Keys && s.started <= s.rows.Keys
    && forall c {:trigger LinkOk(s, c)} :: c in s.rows ==> LinkOk(s, c)
  }

  ghost predicate Ordered(s: Store) {
    forall c, d {:trigger OrderOk(s, c, d)} :: LinkOk(s, c) && LinkOk(s, d) ==> OrderOk(s, c, d)
  }

  ghost predicate Chains(s: Store) { Linked(s) && Ordered(s) }

  ghost predicate AcceptedOnce(s: Store) {
    Distinct(s.accepted) && forall k :: 0 <= k < |s.accepted| ==>
      s.accepted[k] in s.rows && !Live(s.rows, s.accepted[k])
  }

  ghost predicate Balanced(s: Store) {
    && |LiveJtis(s.rows)| + s.logouts == s.logins + s.legacyRefreshes
    && |s.started| == s.logins + s.legacyRefreshes
  }

  ghost predicate Inv(s: Store) { Chains(s) && AcceptedOnce(s) && Balanced(s) }

  // ------------------------------------------------------------------ balance

  lemma EmitAddsLive(rows: Rows, user: UserId, newJti: Jti)
    requires newJti !in rows
    ensures LiveJtis(Emit(rows, user, newJti)) == LiveJtis(rows) + {newJti}
    ensures |LiveJtis(Emit(rows, user, newJti))| == |LiveJtis(rows)| + 1
  {
    assert LiveJtis(Emit(rows, user, newJti)) == LiveJtis(rows) + {newJti};
  }

  lemma RevokeRemovesLive(rows: Rows, jti: Jti, now: Time)
    ensures LiveJtis(Revoke(rows, jti, now)) == LiveJtis(rows) - {jti}
    ensures Live(rows, jti) ==> |LiveJtis(Revoke(rows, jti, now))| == |LiveJtis(rows)| - 1
  {
    assert LiveJtis(Revoke(rows, jti, now)) == LiveJtis(rows) - {jti};
  }

  lemma StepKeepsBalance(s: Store, e: Step)
    requires Balanced(s) && Enabled(s, e) && s.started <= s.rows.Keys
    ensures Balanced(Apply(s, e))
  {
    match e
    case Login(user, newJti) => EmitAddsLive(s.rows, user, newJti);
    case Refresh(token, newJti, now) =>
      if Accepts(s.rows, s.active, token) {
        if token.jti.None? {
          EmitAddsLive(s.rows, token.user, newJti);
        } else {
          RevokeRemovesLive(s.rows, token.jti.value, now);
          EmitAddsLive(Revoke(s.rows, token.jti.value, now), token.user, newJti);
        }
      }
    case Logout(token, now) =>
      if token.Decoded? && token.jti.Some? { RevokeRemovesLive(s.rows, token.jti.value, now); }
    case SetActive(_) =>
  }

  lemma StepKeepsAccepted(s: Store, e: Step)
    requires AcceptedOnce(s) && Enabled(s, e)
    ensures AcceptedOnce(Apply(s, e))
  {
  }

  // ------------------------------------------------------------------- chains

  /** One row more, and none that became live. */
  ghost predicate AddsOne(rows: Rows, after: Rows, newJti: Jti) {
    && newJti !in rows && after.Keys == rows.Keys + {newJti} && |after| == |rows| + 1
    && forall c :: c in rows && Live(after, c) ==> Live(rows, c)
  }

  lemma KeysCount(rows: Rows, after: Rows, newJti: Jti)
    requires newJti !in rows && after.Keys == rows.Keys + {newJti}
    ensures |after| == |rows| + 1
  {
    assert |after.Keys| == |rows.Keys| + 1;
    assert |after| == |after.Keys| && |rows| == |rows.Keys|;
  }

  /** Old tokens keep their links when one is added. */
  lemma OldLinksStay(s: Store, t: Store, newJti: Jti, c: Jti)
    requires LinkOk(s, c) && AddsOne(s.rows, t.rows, newJti)
    requires newJti !in s.parent && newJti !in s.started
    requires t.root == s.root[newJti := if newJti in t.root then t.root[newJti] else 0]
    requires t.age == s.age[newJti := |s.rows|]
    requires t.parent == s.parent || (newJti in t.parent && t.parent == s.parent[newJti := t.parent[newJti]])
    requires t.started == s.started || t.started == s.started + {newJti}
    ensures LinkOk(t, c)
    ensures t.root[c] == s.root[c] && t.age[c] == s.age[c] && (c in t.parent <==> c in s.parent)
    ensures c in s.parent ==> t.parent[c] == s.parent[c] && t.age[t.parent[c]] == s.age[s.parent[c]]
  {
  }

  /** And their order, unless one became live. */
  lemma OldOrderStays(s: Store, t: Store, c: Jti, d: Jti)
    requires LinkOk(s, c) && LinkOk(s, d) && LinkOk(t, c) && LinkOk(t, d) && OrderOk(s, c, d)
    requires t.root[c] == s.root[c] && t.age[c] == s.age[c] && t.root[d] == s.root[d] && t.age[d] == s.age[d]
    requires c in t.parent <==> c in s.parent
    requires c in s.parent ==> t.parent[c] == s.parent[c] && t.age[t.parent[c]] == s.age[s.parent[c]]
    requires Live(t.rows, c) ==> Live(s.rows, c)
    ensures OrderOk(t, c, d)
  {
  }

  lemma StartKeepsChains(s: Store, after: Rows, newJti: Jti)
    requires Chains(s) && AddsOne(s.rows, after, newJti)
    ensures Chains(Start(s, newJti).(rows := after))
  {
    var t := Start(s, newJti).(rows := after);
    StartKeepsLinked(s, t, newJti);
    forall c, d | LinkOk(t, c) && LinkOk(t, d) ensures OrderOk(t, c, d) {
      if c != newJti { OldLinkOk(s, c); OldLinksStay(s, t, newJti, c); }
      if d != newJti { OldLinkOk(s, d); OldLinksStay(s, t, newJti, d); }
      if c != newJti && d != newJti { OldOrderStays(s, t, c, d); }
    }
  }

  lemma StartKeepsLinked(s: Store, t: Store, newJti: Jti)
    requires Linked(s) && AddsOne(s.rows, t.rows, newJti) && t == Start(s, newJti).(rows := t.rows)
    ensures Linked(t)
    ensures forall c :: c in s.rows ==> t.root[c] != newJti
  {
    assert LinkOk(t, newJti);
    forall c | c in s.rows ensures LinkOk(t, c) && t.root[c] != newJti {
      OldLinkOk(s, c);
      OldLinksStay(s, t, newJti, c);
    }
  }

  lemma OldLinkOk(s: Store, c: Jti)
    requires Linked(s) && c in s.rows
    ensures LinkOk(s, c)
  {
  }

  /** A live token is the youngest of its chain, so a rotation adds a link at
      the end. */
  lemma LinkKeepsChains(s: Store, after: Rows, j: Jti, newJti: Jti)
    requires Chains(s) && Live(s.rows, j) && AddsOne(s.rows, after, newJti) && j in s.root
    requires forall c :: c in s.root && Live(after, c) ==> s.root[c] != s.root[j]
    ensures Chains(Link(s, j, newJti).(rows := after))
  {
    var t := Link(s, j, newJti).(rows := after);
    LinkKeepsLinked(s, t, j, newJti);
    forall c, d | LinkOk(t, c) && LinkOk(t, d) ensures OrderOk(t, c, d) {
      LinkKeepsOrder(s, t, j, newJti, c, d);
    }
  }

  lemma LinkKeepsLinked(s: Store, t: Store, j: Jti, newJti: Jti)
    requires Linked(s) && j in s.rows && AddsOne(s.rows, t.rows, newJti) && !Live(t.rows, j)
    requires t.root == s.root[newJti := if j in s.root then s.root[j] else newJti] && t.age == s.age[newJti := |s.rows|]
    requires t.parent == s.parent[newJti := j] && t.started == s.started
    ensures Linked(t) && LinkOk(s, j) && LinkOk(t, newJti) && newJti !in s.parent && newJti !in s.started
  {
    OldLinkOk(s, j);
    NewLinkOk(s, t, j, newJti);
    forall c | c in s.rows ensures LinkOk(t, c) {
      OldLinkOk(s, c);
      OldLinksStay(s, t, newJti, c);
    }
  }

  lemma NewLinkOk(s: Store, t: Store, j: Jti, newJti: Jti)
    requires LinkOk(s, j) && AddsOne(s.rows, t.rows, newJti) && !Live(t.rows, j) && newJti !in s.started
    requires t.root == s.root[newJti := s.root[j]] && t.age == s.age[newJti := |s.rows|]
    requires t.parent == s.parent[newJti := j] && t.started == s.started
    ensures LinkOk(t, newJti)
  {
  }

  lemma LinkKeepsOrder(s: Store, t: Store, j: Jti, newJti: Jti, c: Jti, d: Jti)
    requires Chains(s) && Live(s.rows, j) && LinkOk(s, j) && AddsOne(s.rows, t.rows, newJti)
    requires newJti !in s.parent && newJti !in s.started
    requires t.root == s.root[newJti := s.root[j]] && t.age == s.age[newJti := |s.rows|]
    requires t.parent == s.parent[newJti := j] && t.started == s.started
    requires forall k :: k in s.root && Live(t.rows, k) ==> s.root[k] != s.root[j]
    requires LinkOk(t, c) && LinkOk(t, d) && LinkOk(t, newJti)
    ensures OrderOk(t, c, d)
  {
    if c != newJti { OldLinkOk(s, c); OldLinksStay(s, t, newJti, c); }
    if d != newJti { OldLinkOk(s, d); OldLinksStay(s, t, newJti, d); }
    if c != newJti && d != newJti {
      OldOrderStays(s, t, c, d);
    } else if c == newJti && d != newJti {
      NewestIsLast(s, t, j, newJti, d);
    }
  }

  lemma NewestIsLast(s: Store, t: Store, j: Jti, newJti: Jti, d: Jti)
    requires Chains(s) && LinkOk(s, j) && LinkOk(s, d) && Live(s.rows, j)
    requires LinkOk(t, newJti) && LinkOk(t, d) && newJti in t.parent && t.parent[newJti] == j && d != newJti
    requires t.root[newJti] == s.root[j] && t.root[d] == s.root[d]
    requires t.age[newJti] == |s.rows| && t.age[j] == s.age[j] && t.age[d] == s.age[d]
    ensures OrderOk(t, newJti, d)
  {
    assert OrderOk(s, j, d);
  }

  lemma RevokeKeepsChains(s: Store, j: Jti, now: Time)
    requires Chains(s)
    ensures Chains(s.(rows := Revoke(s.rows, j, now)))
  {
    var t := s.(rows := Revoke(s.rows, j, now));
    assert t.rows.Keys == s.rows.Keys;
    assert |t.rows| == |s.rows| by { assert |t.rows.Keys| == |s.rows.Keys|; }
    forall c | c in t.rows ensures LinkOk(t, c) { OldLinkOk(s, c); }
    forall c, d | LinkOk(t, c) && LinkOk(t, d) ensures OrderOk(t, c, d) {
      OldLinkOk(s, c);
      OldLinkOk(s, d);
      assert OrderOk(s, c, d);
    }
  }

  /** A chain has at most one live token. */
  lemma OneLivePerChain(s: Store, c: Jti, d: Jti)
    requires Chains(s) && Live(s.rows, c) && Live(s.rows, d)
    ensures c in s.root && d in s.root && (s.root[c] == s.root[d] ==> c == d)
  {
    OldLinkOk(s, c);
    OldLinkOk(s, d);
    assert OrderOk(s, c, d) && OrderOk(s, d, c);
  }

  /** No token was exchanged twice. */
  lemma ExchangedOnce(s: Store, c: Jti, d: Jti)
    requires Chains(s) && c in s.parent && d in s.parent && s.parent[c] == s.parent[d]
    ensures c == d
  {
    OldLinkOk(s, c);
    OldLinkOk(s, d);
    assert OrderOk(s, c, d) && OrderOk(s, d, c);
  }

  lemma RotationAddsOne(rows: Rows, user: UserId, j: Jti, newJti: Jti, now: Time)
    requires Live(rows, j) && newJti !in rows
    ensures AddsOne(rows, Emit(Revoke(rows, j, now), user, newJti), newJti)
    ensures !Live(Emit(Revoke(rows, j, now), user, newJti), j)
  {
    KeysCount(rows, Emit(Revoke(rows, j, now), user, newJti), newJti);
  }

  lemma RotateKeepsChains(s: Store, token: Token, newJti: Jti, now: Time)
    requires Chains(s) && newJti !in s.rows && Accepts(s.rows, s.active, token) && token.jti.Some?
    ensures Chains(Apply(s, Refresh(token, newJti, now)))
  {
    var j, after := token.jti.value, AfterRefresh(s.rows, s.active, token, newJti, now);
    RotationAddsOne(s.rows, token.user, j, newJti, now);
    OldLinkOk(s, j);
    forall c | c in s.root && Live(after, c) ensures s.root[c] != s.root[j] {
      OneLivePerChain(s, c, j);
    }
    LinkKeepsChains(s, after, j, newJti);
  }

  lemma EmitKeepsChains(s: Store, user: UserId, newJti: Jti)
    requires Chains(s) && newJti !in s.rows
    ensures Chains(Start(s, newJti).(rows := Emit(s.rows, user, newJti)))
  {
    KeysCount(s.rows, Emit(s.rows, user, newJti), newJti);
    StartKeepsChains(s, Emit(s.rows, user, newJti), newJti);
  }

  /** The counts and the accepted jtis play no part in the chains. */
  lemma SameChains(s: Store, t: Store)
    requires Chains(s) && t.rows == s.rows && t.parent == s.parent && t.root == s.root
    requires t.age == s.age && t.started == s.started
    ensures Chains(t)
  {
    forall c | c in t.rows ensures LinkOk(t, c) { OldLinkOk(s, c); }
    forall c, d | LinkOk(t, c) && LinkOk(t, d) ensures OrderOk(t, c, d) {
      assert LinkOk(s, c) && LinkOk(s, d) && OrderOk(s, c, d);
    }
  }

  lemma StepKeepsChains(s: Store, e: Step)
    requires Chains(s) && Enabled(s, e)
    ensures Chains(Apply(s, e))
  {
    match e
    case Login(user, newJti) =>
      EmitKeepsChains(s, user, newJti);
      SameChains(Start(s, newJti).(rows := Emit(s.rows, user, newJti)), Apply(s, e));
    case Refresh(token, newJti, now) =>
      if Accepts(s.rows, s.active, token) {
        if token.jti.None? {
          EmitKeepsChains(s, token.user, newJti);
          SameChains(Start(s, newJti).(rows := Emit(s.rows, token.user, newJti)), Apply(s, e));
        } else {
          RotateKeepsChains(s, token, newJti, now);
        }
      }
    case Logout(token, now) =>
      var j := if token.Decoded? && token.jti.Some? then token.jti.value else 0;
      RevokeKeepsChains(s, j, now);
      var t := if token.Decoded? && token.jti.Some? then s.(rows := Revoke(s.rows, j, now)) else s;
      SameChains(t, Apply(s, e));
    case SetActive(_) => SameChains(s, Apply(s, e));
  }

  lemma {:induction false} RunKeepsInv(ss: seq<Store>, steps: seq<Step>, n: nat)
    requires IsRun(ss, steps) && n < |ss|
    ensures Inv(ss[n])
  {
    if n > 0 {
      RunKeepsInv(ss, steps, n - 1);
      StepKeepsBalance(ss[n - 1], steps[n - 1]);
      StepKeepsChains(ss[n - 1], steps[n - 1]);
      StepKeepsAccepted(ss[n - 1], steps[n - 1]);
    } else {
      assert LiveJtis(ss[0].rows) == {};
    }
  }

  // ----------------------------------------------------------------- theorems

  /** Rotation over any run: no jti is accepted twice; every login and jti-less
      refresh starts one chain, on which each token was exchanged for the next
      younger one, once; only the youngest can be live; and the live tokens
      number the chains minus the effective logouts. */
  lemma RotationHolds(ss: seq<Store>, steps: seq<Step>, n: nat)
    requires IsRun(ss, steps) && n < |ss|
    ensures Distinct(ss[n].accepted)
    ensures Linked(ss[n]) && Ordered(ss[n])
    ensures forall c, d :: c in ss[n].parent && d in ss[n].parent && ss[n].parent[c] == ss[n].parent[d] ==> c == d
    ensures forall i, j :: Live(ss[n].rows, i) && Live(ss[n].rows, j) && i != j ==>
      i in ss[n].root && j in ss[n].root && ss[n].root[i] != ss[n].root[j]
    ensures |ss[n].started| == ss[n].logins + ss[n].legacyRefreshes
    ensures |LiveJtis(ss[n].rows)| + ss[n].logouts == |ss[n].started|
  {
    RunKeepsInv(ss, steps, n);
    forall c, d | c in ss[n].parent && d in ss[n].parent && ss[n].parent[c] == ss[n].parent[d] ensures c == d {
      ExchangedOnce(ss[n], c, d);
    }
    forall i, j | Live(ss[n].rows, i) && Live(ss[n].rows, j) && i != j
      ensures i in ss[n].root && j in ss[n].root && ss[n].root[i] != ss[n].root[j]
    {
      OneLivePerChain(ss[n], i, j);
    }
  }

  /** A revoked token stays revoked, at the same time, for the rest of the run. */
  lemma {:induction false} RevocationIsFinal(ss: seq<Store>, steps: seq<Step>, m: nat, n: nat, jti: Jti)
    requires IsRun(ss, steps) && m <= n < |ss|
    requires jti in ss[m].rows && ss[m].rows[jti].revokedAt.Some?
    ensures jti in ss[n].rows && ss[n].rows[jti] == ss[m].rows[jti]
    decreases n - m
  {
    if m < n {
      RevocationIsFinal(ss, steps, m, n - 1, jti);
      assert ss[n] == Apply(ss[n - 1], steps[n - 1]);
    }
  }

  // ------------------------------------------------------- what ends a chain

  ghost predicate ChainLives(s: Store, v: Jti) {
    exists j :: j in s.root && s.root[j] == v && Live(s.rows, j)
  }

  /** The step is an effective logout: of a live token, which is on chain `v`. */
  ghost predicate LogsOut(s: Store, e: Step, v: Jti) {
    && e.Logout? && e.token.Decoded? && e.token.jti.Some? && Live(s.rows, e.token.jti.value)
    && e.token.jti.value in s.root && s.root[e.token.jti.value] == v
  }

  ghost predicate WasLoggedOut(ss: seq<Store>, steps: seq<Step>, n: nat, v: Jti)
    requires n <= |steps| && n < |ss|
  {
    exists i :: 0 <= i < n && LogsOut(ss[i], steps[i], v)
  }

  lemma RefreshKeepsChainAlive(s: Store, token: Token, newJti: Jti, now: Time, v: Jti)
    requires Chains(s) && Enabled(s, Refresh(token, newJti, now)) && v in s.started
    requires Accepts(s.rows, s.active, token) && token.jti.Some?
    ensures ChainLives(Apply(s, Refresh(token, newJti, now)), v) <==> ChainLives(s, v)
  {
    var t := Apply(s, Refresh(token, newJti, now));
    var j := token.jti.value;
    assert t.root[newJti] == s.root[j] && Live(t.rows, newJti);
    if ChainLives(s, v) && s.root[j] != v {
      var k :| k in s.root && s.root[k] == v && Live(s.rows, k);
      assert t.root[k] == v && Live(t.rows, k);
    }
  }

  lemma LogoutEndsItsChain(s: Store, token: Token, now: Time, v: Jti)
    requires Chains(s) && v in s.started
    ensures ChainLives(Apply(s, Logout(token, now)), v) <==> ChainLives(s, v) && !LogsOut(s, Logout(token, now), v)
  {
    var t := Apply(s, Logout(token, now));
    if LogsOut(s, Logout(token, now), v) {
      forall k | Live(s.rows, k) ensures k in s.root && (s.root[k] == v ==> k == token.jti.value) {
        OneLivePerChain(s, k, token.jti.value);
      }
    } else if ChainLives(s, v) {
      var k :| k in s.root && s.root[k] == v && Live(s.rows, k);
      assert t.root[k] == v && Live(t.rows, k);
    }
  }

  lemma StartLeavesChain(s: Store, after: Rows, newJti: Jti, v: Jti)
    requires Chains(s) && v in s.started && newJti !in s.rows
    requires forall c :: c in s.rows ==> c in after && after[c] == s.rows[c]
    ensures ChainLives(Start(s, newJti).(rows := after), v) <==> ChainLives(s, v)
  {
    var t := Start(s, newJti).(rows := after);
    if ChainLives(s, v) {
      var k :| k in s.root && s.root[k] == v && Live(s.rows, k);
      assert t.root[k] == v && Live(t.rows, k);
    }
    if ChainLives(t, v) {
      var k :| k in t.root && t.root[k] == v && Live(t.rows, k);
      assert k in s.root && s.root[k] == v && Live(s.rows, k);
    }
  }

  lemma StepEndsChainIff(s: Store, e: Step, v: Jti)
    requires Chains(s) && Enabled(s, e) && v in s.started
    ensures ChainLives(Apply(s, e), v) <==> ChainLives(s, v) && !LogsOut(s, e, v)
  {
    match e
    case Login(user, newJti) => StartLeavesChain(s, Emit(s.rows, user, newJti), newJti, v);
    case Refresh(token, newJti, now) =>
      if Accepts(s.rows, s.active, token) {
        if token.jti.None? {
          StartLeavesChain(s, Emit(s.rows, token.user, newJti), newJti, v);
        } else {
          RefreshKeepsChainAlive(s, token, newJti, now, v);
        }
      }
    case Logout(token, now) => LogoutEndsItsChain(s, token, now, v);
    case SetActive(_) =>
  }

  lemma NewChainLives(s: Store, e: Step, v: Jti)
    requires Chains(s) && Enabled(s, e) && v !in s.started && v in Apply(s, e).started
    ensures ChainLives(Apply(s, e), v) && !LogsOut(s, e, v)
  {
    assert Apply(s, e).root[v] == v && Live(Apply(s, e).rows, v);
  }

  lemma {:induction false} StartedGrows(ss: seq<Store>, steps: seq<Step>, m: nat, n: nat)
    requires IsRun(ss, steps) && m <= n < |ss|
    ensures ss[m].started <= ss[n].started
    decreases n - m
  {
    if m < n {
      StartedGrows(ss, steps, m, n - 1);
    }
  }

  lemma LoggedOutWasStarted(ss: seq<Store>, steps: seq<Step>, n: nat, v: Jti)
    requires IsRun(ss, steps) && n < |ss| && WasLoggedOut(ss, steps, n, v)
    ensures v in ss[n].started
  {
    var i :| 0 <= i < n && LogsOut(ss[i], steps[i], v);
    RunKeepsInv(ss, steps, i);
    OldLinkOk(ss[i], steps[i].token.jti.value);
    StartedGrows(ss, steps, i, n);
  }

  lemma OneMoreStep(ss: seq<Store>, steps: seq<Step>, n: nat, v: Jti)
    requires n < |steps| && n + 1 < |ss|
    ensures WasLoggedOut(ss, steps, n + 1, v) <==> WasLoggedOut(ss, steps, n, v) || LogsOut(ss[n], steps[n], v)
  {
  }

  /** One step of a run, for a chain that was there before it. */
  lemma RunEndsChainIff(ss: seq<Store>, steps: seq<Step>, n: nat, v: Jti)
    requires IsRun(ss, steps) && n < |steps| && v in ss[n].started
    ensures ChainLives(ss[n + 1], v) <==> ChainLives(ss[n], v) && !LogsOut(ss[n], steps[n], v)
  {
    RunKeepsInv(ss, steps, n);
    StepEndsChainIff(ss[n], steps[n], v);
  }

  /** One step of a run that starts the chain. */
  lemma RunStartsChain(ss: seq<Store>, steps: seq<Step>, n: nat, v: Jti)
    requires IsRun(ss, steps) && n < |steps| && v !in ss[n].started && v in ss[n + 1].started
    ensures ChainLives(ss[n + 1], v) && !LogsOut(ss[n], steps[n], v) && !WasLoggedOut(ss, steps, n, v)
  {
    RunKeepsInv(ss, steps, n);
    NewChainLives(ss[n], steps[n], v);
    if WasLoggedOut(ss, steps, n, v) { LoggedOutWasStarted(ss, steps, n, v); }
  }

  /** Over any run a chain has a live token exactly until an effective logout of
      that chain: no refresh, replay or other chain's logout ends it. */
  lemma {:induction false} ChainLivesIff(ss: seq<Store>, steps: seq<Step>, n: nat, v: Jti)
    requires IsRun(ss, steps) && n < |ss| && v in ss[n].started
    ensures ChainLives(ss[n], v) <==> !WasLoggedOut(ss, steps, n, v)
  {
    OneMoreStep(ss, steps, n - 1, v);
    if v in ss[n - 1].started {
      ChainLivesIff(ss, steps, n - 1, v);
      RunEndsChainIff(ss, steps, n - 1, v);
    } else {
      RunStartsChain(ss, steps, n - 1, v);
    }
  }

  /** The documentation says that replaying a token revokes its whole chain. In
      any run the replay is refused, and leaves the chain without a live token
      exactly when somebody had logged out of it. */
  lemma ReplayLeavesChainDeadIff(
    ss: seq<Store>, steps: seq<Step>, n: nat, token: Token, newJti: Jti, now: Time, jti: Jti)
    requires IsRun(ss, steps) && n < |ss| && newJti !in ss[n].rows
    requires token.Decoded? && token.jti == Some(jti) && jti in ss[n].rows && !Live(ss[n].rows, jti)
    ensures !Accepts(ss[n].rows, ss[n].active, token)
    ensures jti in ss[n].root
    ensures !ChainLives(Apply(ss[n], Refresh(token, newJti, now)), ss[n].root[jti]) <==>
      WasLoggedOut(ss, steps, n, ss[n].root[jti])
  {
    RunKeepsInv(ss, steps, n);
    OldLinkOk(ss[n], jti);
    ChainLivesIff(ss, steps, n, ss[n].root[jti]);
  }

  /** It does happen: log in, refresh, and present the first token again; the
      second one is still live and is accepted next. */
  lemma ReusedChainStaysUsable(user: UserId)
    ensures
      var s0 := Store(map[], {user}, map[], map[], map[], {}, [], 0, 0, 0);
      var s1 := Apply(s0, Login(user, 1));
      var s2 := Apply(s1, Refresh(Decoded(user, Some(1)), 2, 10));
      var s3 := Apply(s2, Refresh(Decoded(user, Some(1)), 3, 20));
      && s3 == s2 && !Live(s3.rows, 1) && Live(s3.rows, 2) && s3.root[2] == s3.root[1]
      && Accepts(s3.rows, s3.active, Decoded(user, Some(2)))
  {
  }
}
