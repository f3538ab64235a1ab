/** Refresh-token rotation over the jti table (server/app/api/auth.py,
    server/app/models/refresh_token_jti.py). The `jti` claim is the one of
    section 4.1.7 of RFC 7519. */
module Tokens {
  import opened Base

  type UserId = nat
  type Jti = nat

  datatype Row = Row(user: UserId, revokedAt: Option<Time>)

  type Rows = map<Jti, Row>

  /** What decoding a refresh token gives: nothing was sent, the signature, type
      or expiry is bad, or its subject and, on newer tokens, its jti. */
  datatype Token = Absent | Invalid | Decoded(user: UserId, jti: Option<Jti>)

  datatype Reply = Refused(code: nat) | Issued(jti: Jti)

  predicate Live(rows: Rows, jti: Jti) { jti in rows && rows[jti].revokedAt.None? }

  function LiveJtis(rows: Rows): set<Jti> { set j | j in rows && rows[j].revokedAt.None? }

  function Revoke(rows: Rows, jti: Jti, now: Time): Rows {
    if Live(rows, jti) then rows[jti := rows[jti].(revokedAt := Some(now))] else rows
  }

  function Emit(rows: Rows, user: UserId, newJti: Jti): Rows { rows[newJti := Row(user, None)] }

  /** The cookie wins over the body, even when it is empty. */
  function Chosen(cookie: Option<Token>, body: Option<Token>): Token {
    if cookie.Some? then cookie.value else if body.Some? then body.value else Absent
  }

  /** Does `refresh` accept this token? */
  predicate Accepts(rows: Rows, active: set<UserId>, token: Token) {
    token.Decoded? && token.user in active && (token.jti.Some? ==> Live(rows, token.jti.value))
  }

  function AfterRefresh(rows: Rows, active: set<UserId>, token: Token, newJti: Jti, now: Time): Rows {
    if !Accepts(rows, active, token) then rows
    else Emit(if token.jti.Some? then Revoke(rows, token.jti.value, now) else rows, token.user, newJti)
  }

  function AfterLogout(rows: Rows, token: Token, now: Time): Rows {
    if token.Decoded? && token.jti.Some? then Revoke(rows, token.jti.value, now) else rows
  }

  // ------------------------------------------------- what the endpoints promise

  /** The request presents this token: in its cookie, or else in its body. */
  ghost predicate Presents(cookie: Option<Token>, body: Option<Token>, token: Token) {
    || cookie == Some(token)
    || (cookie.None? && body == Some(token))
    || (cookie.None? && body.None? && token.Absent?)
  }

  lemma PresentsIff(cookie: Option<Token>, body: Option<Token>, token: Token)
    ensures Presents(cookie, body, token) <==> token == Chosen(cookie, body)
  {
  }

  ghost predicate OnlyChanges(before: Rows, after: Rows, changed: set<Jti>) {
    forall j :: j !in changed ==> (j in after <==> j in before) && (j in before ==> after[j] == before[j])
  }

  /** One live row more. */
  ghost predicate IssuesOne(before: Rows, after: Rows, user: UserId, newJti: Jti) {
    newJti in after && after[newJti] == Row(user, None) && OnlyChanges(before, after, {newJti})
  }

  /** An unrevoked jti is marked at `now` and keeps its user. */
  ghost predicate RevokesOne(before: Rows, after: Rows, jti: Jti, now: Time) {
    && jti in before && before[jti].revokedAt.None?
    && jti in after && after[jti] == Row(before[jti].user, Some(now))
    && OnlyChanges(before, after, {jti})
  }

  /** A refused refresh changes nothing. An accepted one comes from an active user
      whose jti, if the token has one, was live; it revokes that jti and adds one
      live row. */
  ghost predicate Refreshes(
    before: Rows, after: Rows, active: set<UserId>, token: Token, newJti: Jti, now: Time, reply: Reply)
  {
    match token
    case Absent => reply == Refused(401) && after == before
    case Invalid => reply == Refused(401) && after == before
    case Decoded(user, None) =>
      if user in active then reply == Issued(newJti) && IssuesOne(before, after, user, newJti)
      else reply == Refused(401) && after == before
    case Decoded(user, Some(jti)) =>
      if user in active && jti in before && before[jti].revokedAt.None?
      then
        && reply == Issued(newJti) && OnlyChanges(before, after, {jti, newJti})
        && newJti in after && after[newJti] == Row(user, None)
        && jti in after && after[jti] == Row(before[jti].user, Some(now))
      else reply == Refused(401) && after == before
  }

  /** Logging out revokes the token's jti if that is live, and nothing else. */
  ghost predicate LogsOut(before: Rows, after: Rows, token: Token, now: Time) {
    if token.Decoded? && token.jti.Some? && token.jti.value in before && before[token.jti.value].revokedAt.None?
    then RevokesOne(before, after, token.jti.value, now)
    else after == before
  }

  // ------------------------------------------------------- as the code runs it

  class AuthServer {
    var rows: Rows
    /** Users that exist and are active. */
    var active: set<UserId>

    constructor (active: set<UserId>)
      ensures rows == map[] && this.active == active
    {
      rows, this.active := map[], active;
    }

    method EmitRefresh(user: UserId, newJti: Jti)
      requires newJti !in rows
      modifies this`rows
      ensures rows == Emit(old(rows), user, newJti) && IssuesOne(old(rows), rows, user, newJti)
    {
      rows := rows[newJti := Row(user, None)];
    }

    /** `user` is the row found for the address; the password is checked even
        when there is none. */
    method Login(user: Option<UserId>, passwordOk: bool, orgOk: bool, newJti: Jti) returns (reply: Reply)
      requires newJti !in rows
      modifies this`rows
      ensures reply.Issued? <==> user.Some? && passwordOk && user.value in active && orgOk
      ensures reply.Issued? ==> reply.jti == newJti && rows == Emit(old(rows), user.value, newJti)
      ensures reply.Issued? ==> IssuesOne(old(rows), rows, user.value, newJti)
      ensures reply.Refused? ==> rows == old(rows)
      ensures reply == Refused(403) <==> user.Some? && passwordOk && user.value !in active
    {
      if user.None? || !passwordOk { return Refused(401); }
      if user.value !in active { return Refused(403); }
      if !orgOk { return Refused(401); }
      EmitRefresh(user.value, newJti);
      reply := Issued(newJti);
    }

    method Refresh(cookie: Option<Token>, body: Option<Token>, newJti: Jti, now: Time) returns (reply: Reply)
      requires newJti !in rows
      modifies this`rows
      ensures rows == AfterRefresh(old(rows), active, Chosen(cookie, body), newJti, now)
      ensures reply == if Accepts(old(rows), active, Chosen(cookie, body)) then Issued(newJti) else Refused(401)
      ensures forall token {:trigger Presents(cookie, body, token)} | Presents(cookie, body, token) ::
        Refreshes(old(rows), rows, active, token, newJti, now, reply)
    {
      var token := Absent;
      if cookie.Some? {
        token := cookie.value;
      } else if body.Some? {
        token := body.value;
      }
      if token.Absent? { return Refused(401); }
      if token.Invalid? { return Refused(401); }
      if token.user !in active { return Refused(401); }
      if token.jti.Some? {
        var j := token.jti.value;
        if j !in rows || rows[j].revokedAt.Some? { return Refused(401); }
        rows := rows[j := rows[j].(revokedAt := Some(now))];
      }
      EmitRefresh(token.user, newJti);
      reply := Issued(newJti);
    }

    method Logout(cookie: Option<Token>, body: Option<Token>, now: Time)
      modifies this`rows
      ensures rows == AfterLogout(old(rows), Chosen(cookie, body), now)
      ensures forall token {:trigger Presents(cookie, body, token)} | Presents(cookie, body, token) ::
        LogsOut(old(rows), rows, token, now)
    {
      var token := if cookie.Some? then cookie.value else if body.Some? then body.value else Absent;
      if token.Decoded? && token.jti.Some? {
        var j := token.jti.value;
        if j in rows && rows[j].revokedAt.None? {
          rows := rows[j := rows[j].(revokedAt := Some(now))];
        }
      }
    }
  }
}
