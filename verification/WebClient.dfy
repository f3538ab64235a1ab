/** The browser client's refresh mutex (web/src/lib/api.ts) together with the
    server's rotation. One tab; any number of interleaved requests. Between two
    `await`s the client runs without interruption, so a step is one such stretch,
    one server transaction, or one network event. */
module WebClient {
  import opened Base
  import T = Tokens

  type CallId = nat
  type PromiseId = nat

  // ------------------------------------------------------ which paths refresh

  predicate StartsWith(s: string, p: string) { |p| <= |s| && s[..|p|] == p }

  predicate Includes(s: string, p: string) {
    StartsWith(s, p) || (s != "" && Includes(s[1..], p))
  }

  datatype Kind = Json | Blob

  /** May a 401 on this path start a refresh? `request` excludes two endpoints,
      `requestBlob` everything under the auth prefix. */
  predicate MayRefresh(kind: Kind, path: string) {
    match kind
    case Json => !Includes(path, "/api/v1/auth/refresh") && !Includes(path, "/api/v1/auth/login")
    case Blob => !Includes(path, "/api/v1/auth/")
  }

  ghost predicate OccursAt(s: string, p: string, i: int) {
    0 <= i && i + |p| <= |s| && s[i..i + |p|] == p
  }

  ghost predicate Occurs(s: string, p: string) {
    exists i :: OccursAt(s, p, i)
  }

  /** `includes` finds exactly what occurs somewhere. */
  lemma {:induction false} IncludesIff(s: string, p: string)
    ensures Includes(s, p) <==> Occurs(s, p)
  {
    assert StartsWith(s, p) <==> OccursAt(s, p, 0);
    if s != "" {
      IncludesIff(s[1..], p);
      forall i ensures OccursAt(s[1..], p, i) ==> OccursAt(s, p, i + 1) {
        if OccursAt(s[1..], p, i) { assert s[i + 1..i + 1 + |p|] == s[1..][i..i + |p|]; }
      }
      forall i | i > 0 ensures OccursAt(s, p, i) ==> OccursAt(s[1..], p, i - 1) {
        if OccursAt(s, p, i) { assert s[i..i + |p|] == s[1..][i - 1..i - 1 + |p|]; }
      }
    }
  }

  /** A 401 on this path may start a refresh. */
  ghost predicate IsRefreshable(kind: Kind, path: string) {
    match kind
    case Json => !Occurs(path, "/api/v1/auth/refresh") && !Occurs(path, "/api/v1/auth/login")
    case Blob => !Occurs(path, "/api/v1/auth/")
  }

  lemma MayRefreshIff(kind: Kind, path: string)
    ensures MayRefresh(kind, path) <==> IsRefreshable(kind, path)
  {
    IncludesIff(path, "/api/v1/auth/refresh");
    IncludesIff(path, "/api/v1/auth/login");
    IncludesIff(path, "/api/v1/auth/");
  }

  // ------------------------------------------------------------ client module

  datatype Joined = Joined(inFlight: Option<PromiseId>, promise: PromiseId, started: bool)

  /** `getOrRefreshToken`: share the refresh in flight, or start one. */
  function Join(inFlight: Option<PromiseId>, newPromise: PromiseId): Joined {
    if inFlight.Some? then Joined(inFlight, inFlight.value, false) else Joined(Some(newPromise), newPromise, true)
  }

  class ApiClient {
    /** The module variable `refreshInFlight` and the auth store's token. */
    var refreshInFlight: Option<PromiseId>
    var accessToken: Option<nat>

    constructor ()
      ensures refreshInFlight == None && accessToken == None
    {
      refreshInFlight, accessToken := None, None;
    }

    method GetOrRefreshToken(newPromise: PromiseId) returns (promise: PromiseId, started: bool)
      modifies this`refreshInFlight
      ensures Joined(refreshInFlight, promise, started) == Join(old(refreshInFlight), newPromise)
      ensures refreshInFlight == Some(promise) && (started <==> old(refreshInFlight).None?)
      ensures old(refreshInFlight) == if started then None else Some(promise)
      ensures started ==> promise == newPromise
    {
      if refreshInFlight.Some? { return refreshInFlight.value, false; }
      refreshInFlight := Some(newPromise);
      promise, started := newPromise, true;
    }

    /** The end of `refreshAccessToken` and the `finally` after it: a refusal or
        an exception clears the store, and the mutex is free either way. */
    method SettleRefresh(token: Option<nat>) returns (result: Option<nat>)
      modifies this
      ensures refreshInFlight == None && accessToken == token && result == token
    {
      if token.None? {
        accessToken := None;
        result := None;
      } else {
        accessToken := token;
        result := token;
      }
      refreshInFlight := None;
    }

    /** What `request` does with its first response: finish, or wait for a token. */
    method OnFirstResponse(
      kind: Kind, path: string, status: nat, newPromise: PromiseId)
      returns (next: CallState, started: bool)
      modifies this`refreshInFlight
      ensures next == AfterFirst(kind, path, status, old(refreshInFlight), newPromise)
      ensures status == 401 && IsRefreshable(kind, path) ==> next.Waiting? && refreshInFlight == Some(next.promise)
      ensures next.Waiting? && !started ==> old(refreshInFlight) == Some(next.promise)
      ensures next.Waiting? && started ==> next.promise == newPromise
      ensures !(status == 401 && IsRefreshable(kind, path)) ==> next == Finished(status)
      ensures started <==> next.Waiting? && old(refreshInFlight).None?
      ensures refreshInFlight == if started then Some(newPromise) else old(refreshInFlight)
    {
      MayRefreshIff(kind, path);
      started := false;
      if status == 401 && MayRefresh(kind, path) {
        var promise;
        promise, started := GetOrRefreshToken(newPromise);
        return Waiting(promise), started;
      }
      next := Finished(status);
    }
  }

  /** A call has sent its first fetch, waits for a refresh, has sent its second
      fetch, or is over with a status. */
  datatype CallState = FirstSent | Waiting(promise: PromiseId) | SecondSent | Finished(status: nat)

  function AfterFirst(
    kind: Kind, path: string, status: nat, inFlight: Option<PromiseId>, newPromise: PromiseId): CallState
  {
    if status == 401 && MayRefresh(kind, path) then Waiting(Join(inFlight, newPromise).promise) else Finished(status)
  }

  datatype Call = Call(kind: Kind, path: string, state: CallState, fetches: nat)

  // -------------------------------------------------------- client and server

  /** A refresh on its way: with the cookie it carries, with the server's answer
      (a new jti unless refused), or back in the browser. */
  datatype Message = Asking(token: T.Token) | Answered(issued: Option<T.Jti>) | Landed(ok: bool)

  datatype System = System(
    rows: T.Rows, active: set<T.UserId>,
    user: T.UserId, cookie: Option<T.Jti>,
    inFlight: Option<PromiseId>, network: map<PromiseId, Message>, results: map<PromiseId, bool>,
    calls: map<CallId, Call>, reuseRefusals: nat)

  datatype Step =
    | StartCall(id: CallId, kind: Kind, path: string)
    | FirstResponse(id: CallId, status: nat, newPromise: PromiseId)
    | ServerRefreshes(p: PromiseId, newJti: T.Jti, now: Time)
    | ServerDeclines(p: PromiseId)
    | RequestLost(p: PromiseId)
    | ResponseLands(p: PromiseId)
    | ResponseLost(p: PromiseId)
    | Settle(p: PromiseId)
    | Resume(id: CallId)
    | SecondResponse(id: CallId, status: nat)
    | OthersAct(rows: T.Rows, active: set<T.UserId>)

  function CookieToken(s: System): T.Token {
    match s.cookie case None => T.Absent case Some(j) => T.Decoded(s.user, Some(j))
  }

  ghost predicate Enabled(s: System, e: Step) {
    match e
    case StartCall(id, _, _) => id !in s.calls
    case FirstResponse(id, _, np) => id in s.calls && s.calls[id].state.FirstSent? && np !in s.network &&
      np !in s.results
    case ServerRefreshes(p, newJti, _) => p in s.network && s.network[p].Asking? && newJti !in s.rows
    case ServerDeclines(p) => p in s.network && s.network[p].Asking?
    case RequestLost(p) => p in s.network && s.network[p].Asking?
    case ResponseLands(p) => p in s.network && s.network[p].Answered?
    case ResponseLost(p) => p in s.network && s.network[p].Answered?
    case Settle(p) => p in s.network && s.network[p].Landed?
    case Resume(id) => id in s.calls && s.calls[id].state.Waiting? && s.calls[id].state.promise in s.results
    case SecondResponse(id, _) => id in s.calls && s.calls[id].state.SecondSent?
    // Other users' logins, refreshes and logouts.
    case OthersAct(rows, _) => forall j :: j in s.rows && s.rows[j].user == s.user ==> j in rows && rows[j] == s.rows[j]
  }

  function Send(s: System, p: PromiseId, m: Message): System { s.(network := s.network[p := m]) }

  ghost function Apply(s: System, e: Step): System
    requires Enabled(s, e)
  {
    match e
    case StartCall(id, kind, path) => s.(calls := s.calls[id := Call(kind, path, FirstSent, 1)])
    case FirstResponse(id, status, np) =>
      var c := s.calls[id];
      var next := AfterFirst(c.kind, c.path, status, s.inFlight, np);
      var t := s.(calls := s.calls[id := c.(state := next)]);
      if next.Waiting? && Join(s.inFlight, np).started
      then Send(t, np, Asking(CookieToken(s))).(inFlight := Some(np))
      else t
    case ServerRefreshes(p, newJti, now) =>
      var token := s.network[p].token;
      if T.Accepts(s.rows, s.active, token)
      then Send(s, p, Answered(Some(newJti))).(rows := T.AfterRefresh(s.rows, s.active, token, newJti, now))
      else Send(s, p, Answered(None)).(reuseRefusals :=
        s.reuseRefusals + if token.Decoded? && token.user in s.active then 1 else 0)
    case ServerDeclines(p) => Send(s, p, Answered(None))
    case RequestLost(p) => Send(s, p, Landed(false))
    case ResponseLands(p) =>
      var r := s.network[p].issued;
      Send(s, p, Landed(r.Some?)).(cookie := if r.Some? then r else s.cookie)
    case ResponseLost(p) => Send(s, p, Landed(false))
    case Settle(p) => s.(inFlight := None, network := s.network - {p}, results := s.results[p := s.network[p].ok])
    case Resume(id) =>
      var c := s.calls[id];
      s.(calls := s.calls[id := if s.results[c.state.promise] then c.(state := SecondSent, fetches := c.fetches + 1)
                                else c.(state := Finished(401))])
    case SecondResponse(id, status) => s.(calls := s.calls[id := s.calls[id].(state := Finished(status))])
    case OthersAct(rows, active) => s.(rows := rows, active := active)
  }

  ghost predicate OwnLive(s: System, j: Option<T.Jti>) {
    j.Some? && T.Live(s.rows, j.value) && s.rows[j.value].user == s.user
  }

  ghost predicate OwnSpent(s: System, j: Option<T.Jti>) {
    j.Some? && j.value in s.rows && s.rows[j.value].user == s.user && !T.Live(s.rows, j.value)
  }

  /** The server issued a token whose answer is on its way. */
  ghost predicate IsIssued(s: System, p: PromiseId) {
    p in s.network && s.network[p].Answered? && s.network[p].issued.Some?
  }

  /** At most one refresh is under way, and it is the one the mutex names. */
  ghost predicate SingleFlight(s: System) {
    && (forall p :: p in s.network ==> s.inFlight == Some(p))
    && (s.inFlight.Some? ==> s.inFlight.value in s.network)
  }

  ghost predicate NoneIssued(s: System) {
    forall p :: p in s.network ==> !IsIssued(s, p)
  }

  ghost predicate AsksWithCookie(s: System) {
    forall p :: p in s.network && s.network[p].Asking? ==> s.network[p].token == CookieToken(s)
  }

  /** The browser holds the live token, except while the answer that carries the
      next one is on its way; a refresh that is asked carries it. */
  ghost predicate CookieIsLive(s: System) {
    && (NoneIssued(s) ==> OwnLive(s, s.cookie))
    && AsksWithCookie(s)
    && (forall p :: p in s.network && IsIssued(s, p) ==> OwnLive(s, s.network[p].issued) && OwnSpent(s, s.cookie))
  }

  /** The browser holds a spent token and no other is on its way. */
  ghost predicate CookieIsDead(s: System) {
    OwnSpent(s, s.cookie) && AsksWithCookie(s) && NoneIssued(s)
  }

  ghost predicate TwoFetches(s: System) {
    forall id :: id in s.calls ==>
      s.calls[id].fetches <= (if s.calls[id].state.FirstSent? || s.calls[id].state.Waiting? then 1 else 2)
  }

  /** A signed-in tab with nothing under way. */
  ghost predicate SignedIn(s: System) {
    s.network == map[] && s.inFlight == None && s.calls == map[] && s.reuseRefusals == 0 && OwnLive(s, s.cookie)
  }

  ghost predicate IsRun(ss: seq<System>, steps: seq<Step>) {
    && |ss| == |steps| + 1 && SignedIn(ss[0])
    && forall i :: 0 <= i < |steps| ==> Enabled(ss[i], steps[i]) && ss[i + 1] == Apply(ss[i], steps[i])
  }

  lemma StepKeepsFlight(s: System, e: Step)
    requires Enabled(s, e) && SingleFlight(s) && TwoFetches(s)
    ensures SingleFlight(Apply(s, e)) && TwoFetches(Apply(s, e))
  {
  }

  /** The step loses an answer that carries a new token. */
  ghost predicate LosesIssued(s: System, e: Step) { e.ResponseLost? && IsIssued(s, e.p) }

  ghost predicate AnyIssuedLost(ss: seq<System>, steps: seq<Step>, n: nat)
    requires n <= |steps| && n < |ss|
  {
    exists i :: 0 <= i < n && LosesIssued(ss[i], steps[i])
  }

  lemma ServerKeepsCookie(s: System, p: PromiseId, newJti: T.Jti, now: Time)
    requires Enabled(s, ServerRefreshes(p, newJti, now)) && SingleFlight(s) && CookieIsLive(s)
    ensures CookieIsLive(Apply(s, ServerRefreshes(p, newJti, now)))
    ensures Apply(s, ServerRefreshes(p, newJti, now)).reuseRefusals == s.reuseRefusals
  {
    assert !IsIssued(s, p);
    assert OwnLive(s, s.cookie) && s.network[p].token == CookieToken(s);
    var v := Apply(s, ServerRefreshes(p, newJti, now));
    if T.Accepts(s.rows, s.active, s.network[p].token) {
      assert v.network[p] == Answered(Some(newJti)) && IsIssued(v, p);
      assert OwnLive(v, Some(newJti)) && OwnSpent(v, v.cookie);
    } else {
      assert v.network[p] == Answered(None) && OwnLive(v, v.cookie);
    }
  }

  lemma OthersKeepCookie(s: System, rows: T.Rows, active: set<T.UserId>)
    requires Enabled(s, OthersAct(rows, active))
    ensures CookieIsLive(s) ==> CookieIsLive(Apply(s, OthersAct(rows, active)))
    ensures CookieIsDead(s) ==> CookieIsDead(Apply(s, OthersAct(rows, active)))
  {
    var v := Apply(s, OthersAct(rows, active));
    assert forall j :: (OwnLive(s, j) ==> OwnLive(v, j)) && (OwnSpent(s, j) ==> OwnSpent(v, j));
    assert forall p :: IsIssued(v, p) <==> IsIssued(s, p);
  }

  lemma NetworkKeepsCookie(s: System, e: Step)
    requires Enabled(s, e) && SingleFlight(s) && CookieIsLive(s) && !LosesIssued(s, e)
    requires e.ServerDeclines? || e.RequestLost? || e.ResponseLands? || e.ResponseLost? || e.Settle?
    ensures CookieIsLive(Apply(s, e))
  {
    var v := Apply(s, e);
    assert forall q :: q in s.network ==> q == e.p;
    if e.ResponseLands? && IsIssued(s, e.p) {
      assert OwnLive(v, v.cookie);
    } else {
      assert !IsIssued(s, e.p);
      assert OwnLive(v, v.cookie);
    }
  }

  lemma StepKeepsCookie(s: System, e: Step)
    requires Enabled(s, e) && SingleFlight(s) && CookieIsLive(s) && !LosesIssued(s, e)
    ensures CookieIsLive(Apply(s, e))
    ensures Apply(s, e).reuseRefusals == s.reuseRefusals
  {
    match e
    case ServerRefreshes(p, newJti, now) => ServerKeepsCookie(s, p, newJti, now);
    case OthersAct(rows, active) => OthersKeepCookie(s, rows, active);
    case FirstResponse(id, status, np) =>
      assert forall p :: IsIssued(Apply(s, e), p) <==> IsIssued(s, p);
    case StartCall(_, _, _) =>
    case Resume(_) =>
    case SecondResponse(_, _) =>
    case _ => NetworkKeepsCookie(s, e);
  }

  /** Losing an issued token leaves the browser with the one it was issued for. */
  lemma LosingIssuedKills(s: System, e: Step)
    requires Enabled(s, e) && SingleFlight(s) && CookieIsLive(s) && LosesIssued(s, e)
    ensures CookieIsDead(Apply(s, e))
  {
    assert forall q :: q in s.network ==> q == e.p;
  }

  /** A spent cookie is refused for ever, so no answer brings another one. */
  lemma DeadStaysDead(s: System, e: Step)
    requires Enabled(s, e) && CookieIsDead(s)
    ensures CookieIsDead(Apply(s, e))
  {
    if e.OthersAct? { OthersKeepCookie(s, e.rows, e.active); }
  }

  /** With no assumption about the network: at every moment at most one refresh
      is outstanding, and no call made more than two fetches. */
  lemma {:induction false} SingleFlightHolds(ss: seq<System>, steps: seq<Step>, n: nat)
    requires IsRun(ss, steps) && n < |ss|
    ensures SingleFlight(ss[n]) && TwoFetches(ss[n])
    ensures forall p, q :: p in ss[n].network && q in ss[n].network ==> p == q
    ensures forall id :: id in ss[n].calls ==> ss[n].calls[id].fetches <= 2
  {
    if n > 0 {
      SingleFlightHolds(ss, steps, n - 1);
      StepKeepsFlight(ss[n - 1], steps[n - 1]);
    }
  }

  /** What a run comes to: the cookie is live until an issued token is lost, and
      dead from then on. */
  lemma {:induction false} LiveUntilLost(ss: seq<System>, steps: seq<Step>, n: nat)
    requires IsRun(ss, steps) && n < |ss|
    ensures if AnyIssuedLost(ss, steps, n) then CookieIsDead(ss[n])
            else CookieIsLive(ss[n]) && ss[n].reuseRefusals == 0
  {
    if n > 0 {
      var s, e := ss[n - 1], steps[n - 1];
      LiveUntilLost(ss, steps, n - 1);
      SingleFlightHolds(ss, steps, n - 1);
      assert AnyIssuedLost(ss, steps, n) <==> AnyIssuedLost(ss, steps, n - 1) || LosesIssued(s, e);
      if AnyIssuedLost(ss, steps, n - 1) {
        DeadStaysDead(s, e);
      } else if LosesIssued(s, e) {
        LosingIssuedKills(s, e);
      } else {
        StepKeepsCookie(s, e);
      }
    }
  }

  /** The client never races itself: while no issued token was lost on its way,
      whatever else is lost, each refresh carries the live token and the server
      has refused none as reused. */
  lemma ClientNeverRaces(ss: seq<System>, steps: seq<Step>, n: nat)
    requires IsRun(ss, steps) && n < |ss| && !AnyIssuedLost(ss, steps, n)
    ensures forall p :: p in ss[n].network && ss[n].network[p].Asking? ==>
      var t := ss[n].network[p].token; t.Decoded? && t.jti.Some? && T.Live(ss[n].rows, t.jti.value)
    ensures ss[n].reuseRefusals == 0
  {
    LiveUntilLost(ss, steps, n);
    SingleFlightHolds(ss, steps, n);
    forall p | p in ss[n].network && ss[n].network[p].Asking?
      ensures var t := ss[n].network[p].token; t.Decoded? && t.jti.Some? && T.Live(ss[n].rows, t.jti.value)
    {
      assert NoneIssued(ss[n]);
    }
  }

  /** The browser holds the live token, or it is on its way to it. */
  ghost predicate SessionLives(s: System) {
    OwnLive(s, s.cookie) || exists p :: IsIssued(s, p) && OwnLive(s, s.network[p].issued)
  }

  /** Over any run the session lives exactly while no answer with a new token
      was lost; once it is dead, no refresh is accepted any more. */
  lemma SessionLivesIff(ss: seq<System>, steps: seq<Step>, n: nat)
    requires IsRun(ss, steps) && n < |ss|
    ensures SessionLives(ss[n]) <==> !AnyIssuedLost(ss, steps, n)
    ensures !SessionLives(ss[n]) ==> forall p :: p in ss[n].network && ss[n].network[p].Asking? ==>
      !T.Accepts(ss[n].rows, ss[n].active, ss[n].network[p].token)
  {
    LiveUntilLost(ss, steps, n);
  }
}
