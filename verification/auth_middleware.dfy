/**
  The access-token middleware. It takes the token from the `accessToken`
  cookie or else from the `Authorization` header, verifies it, loads the
  user it names, and either passes the request on with that user attached or
  answers with an error. `jwt.verify` is foreign cryptography and enters as
  an opaque function that either decodes a payload or throws.
 */
module AuthMiddleware {
  import opened Wrappers
  import opened Ids
  import opened Store
  import opened Views
  import opened Http
  import opened UserController

  /** What `jwt.verify` does with a token: it throws (bad signature, expiry,
      malformed text), or yields a payload whose `_id` may be missing. */
  datatype Verified = Rejected | Payload(id: Option<string>)

  /** The middleware either calls `next()` once with the user attached, or
      sends a response and does not call `next()`. */
  datatype Gate = Next(user: SessionUser) | Stop(response: Response)

  /** `pat` occurs in `s` at position `i`. */
  predicate OccursAt(s: string, pat: string, i: nat) {
    i + |pat| <= |s| && s[i..i + |pat|] == pat
  }

  /** Shifting the text by one character shifts every occurrence by one. */
  lemma OccursShift(s: string, pat: string, j: nat)
    requires |s| > 0
    ensures OccursAt(s[1..], pat, j) <==> OccursAt(s, pat, j + 1)
  {
  }

  /** JavaScript's `s.replace(pat, rep)` with a string pattern: only the
      first occurrence, wherever it is, is replaced. */
  function ReplaceFirst(s: string, pat: string, rep: string): (r: string)
    requires |pat| > 0
    ensures (forall i: nat :: !OccursAt(s, pat, i)) ==> r == s
  {
    if |s| < |pat| then s
    else if s[..|pat|] == pat then
      assert OccursAt(s, pat, 0);
      rep + s[|pat|..]
    else
      var tail := ReplaceFirst(s[1..], pat, rep);
      assert (forall i: nat :: !OccursAt(s, pat, i)) ==> forall i: nat :: !OccursAt(s[1..], pat, i) by {
        forall i: nat {
          OccursShift(s, pat, i);
        }
      }
      [s[0]] + tail
  }

  /** `ReplaceFirst` replaces exactly the first occurrence. */
  lemma {:induction false} ReplaceFirstAt(s: string, pat: string, rep: string, i: nat)
    requires |pat| > 0
    requires OccursAt(s, pat, i)
    requires forall j: nat :: j < i ==> !OccursAt(s, pat, j)
    ensures ReplaceFirst(s, pat, rep) == s[..i] + rep + s[i + |pat|..]
  {
    if i == 0 {
      assert s[..|pat|] == pat;
    } else {
      assert !OccursAt(s, pat, 0);
      assert s[..|pat|] != pat;
      var t := s[1..];
      forall j: nat | j < i - 1 ensures !OccursAt(t, pat, j) {
        OccursShift(s, pat, j);
      }
      OccursShift(s, pat, i - 1);
      ReplaceFirstAt(t, pat, rep, i - 1);
      assert ReplaceFirst(s, pat, rep) == [s[0]] + ReplaceFirst(t, pat, rep);
      assert [s[0]] + t[..i - 1] == s[..i];
      assert t[i - 1 + |pat|..] == s[i + |pat|..];
    }
  }

  /** The token a request carries: the `accessToken` cookie when it is
      present and non-empty, otherwise the `Authorization` header with its
      first "Bearer " removed, otherwise none. */
  function SelectToken(cookie: Option<string>, authorization: Option<string>): (token: Option<string>)
    ensures cookie.Some? && cookie.value != "" ==> token == cookie
    ensures !(cookie.Some? && cookie.value != "") && authorization.None? ==> token == None
  {
    if cookie.Some? && cookie.value != "" then cookie
    else
      match authorization
      case None => None
      case Some(header) => Some(ReplaceFirst(header, "Bearer ", ""))
  }

  /** A `Bearer` header yields the credential that follows the scheme. */
  lemma BearerHeaderYieldsToken(cookie: Option<string>, token: string)
    requires !(cookie.Some? && cookie.value != "")
    ensures SelectToken(cookie, Some("Bearer " + token)) == Some(token)
  {
    var header := "Bearer " + token;
    assert header[..7] == "Bearer ";
    assert header[7..] == token;
    ReplaceFirstAt(header, "Bearer ", "", 0);
    assert |"Bearer "| == 7;
    assert header[..0] + "" + header[0 + |"Bearer "|..] == token;
  }

  /** A header without "Bearer " anywhere is used verbatim as the token. */
  lemma HeaderWithoutSchemeIsVerbatim(cookie: Option<string>, header: string)
    requires !(cookie.Some? && cookie.value != "")
    requires forall i: nat :: !OccursAt(header, "Bearer ", i)
    ensures SelectToken(cookie, Some(header)) == Some(header)
  {
  }

  /** The steps after a payload is decoded: the user is looked up by the
      payload's `_id`, without its sensitive fields. A missing `_id` finds nothing; an `_id`
      that is not ObjectId text is a cast error. */
  function LoadUser(db: Db, id: Option<string>): Gate {
    match id
    case None => Stop(Fail(401, "invalid access token").response)
    case Some(text) =>
      match Cast(text)
      case None => Stop(InternalError().response)
      case Some(k) =>
        if k !in db.users then Stop(Fail(401, "invalid access token").response)
        else Next(SessionView(k, db.users[k]))
  }

  /** `verifyJWT` as written: a token `jwt.verify` throws on is not an
      `ApiError`, so it is answered 500 rather than 401. */
  function VerifyJwtAsWritten(db: Db, cookie: Option<string>, authorization: Option<string>, verify: string -> Verified): (g: Gate)
    ensures var token := SelectToken(cookie, authorization);
            && (token.None? || token.value == "" ==> g == Stop(Fail(401, "unauthorized request").response))
            && (token.Some? && token.value != "" && verify(token.value).Rejected? ==>
                  g == Stop(InternalError().response))
            && (token.Some? && token.value != "" && verify(token.value).Payload? ==>
                  g == VerifyJwt(db, cookie, authorization, verify))
  {
    var token := SelectToken(cookie, authorization);
    if token.None? || token.value == "" then Stop(Fail(401, "unauthorized request").response)
    else
      match verify(token.value)
      case Rejected => Stop(InternalError().response)
      case Payload(id) => LoadUser(db, id)
  }

  /** `verifyJWT` as evidently intended: a token that fails verification is
      an unauthorized request like a missing one. Otherwise: no token is 401
      "unauthorized request"; a payload naming no user is 401 "invalid
      access token"; a payload naming a user passes the request on with that
      user, minus password, refresh token and posts. */
  function VerifyJwt(db: Db, cookie: Option<string>, authorization: Option<string>, verify: string -> Verified): (g: Gate)
    ensures g.Stop? ==> (g.response.body.ApiFailure? && g.response.status == 401) || g == Stop(InternalError().response)
    ensures var token := SelectToken(cookie, authorization);
            && (token.None? || token.value == "" ==> g == Stop(Fail(401, "unauthorized request").response))
            && (token.Some? && token.value != "" && verify(token.value).Rejected? ==>
                  g == Stop(Fail(401, "invalid access token").response))
            && (g.Next? <==>
                  && token.Some? && token.value != "" && verify(token.value).Payload?
                  && verify(token.value).id.Some? && Cast(verify(token.value).id.value).Some?
                  && Cast(verify(token.value).id.value).value in db.users)
            && (g.Next? ==>
                  var k := Cast(verify(token.value).id.value).value;
                  g.user == SessionView(k, db.users[k]))
    ensures var token := SelectToken(cookie, authorization);
            token.Some? && token.value != "" && verify(token.value).Payload? ==>
              var id := verify(token.value).id;
              && (id.None? ==> g == Stop(Fail(401, "invalid access token").response))
              && (id.Some? && Cast(id.value).None? ==> g == Stop(InternalError().response))
              && (id.Some? && Cast(id.value).Some? && Cast(id.value).value !in db.users ==>
                    g == Stop(Fail(401, "invalid access token").response))
  {
    var token := SelectToken(cookie, authorization);
    if token.None? || token.value == "" then Stop(Fail(401, "unauthorized request").response)
    else
      match verify(token.value)
      case Rejected => Stop(Fail(401, "invalid access token").response)
      case Payload(id) => LoadUser(db, id)
  }

  /** The two versions differ only on tokens verification rejects. */
  lemma ExpiredTokenIsAnsweredAsServerError(db: Db, cookie: string, verify: string -> Verified)
    requires cookie != ""
    requires verify(cookie) == Rejected
    ensures VerifyJwtAsWritten(db, Some(cookie), None, verify).response.status == 500
    ensures VerifyJwt(db, Some(cookie), None, verify).response.status == 401
  {
  }

  /** The `accessToken` cookie a successful registration sets lets the new
      user through the middleware, provided the token verifies to the new
      user's id. */
  lemma RegisteredUserPassesGate(
    db: Db, username: Option<string>, email: Option<string>, password: Option<string>,
    profileImageUrl: Option<string>, newId: Id, now: int, crypto: Crypto, verify: string -> Verified)
    requires RegisterSucceeds(db, username, email, password, newId)
    requires IsCanonical(newId)
    requires var token := crypto.signAccess(newId, username.value, email.value);
             token != "" && verify(token) == Payload(Some(newId))
    ensures var h := RegisterUser(db, username, email, password, profileImageUrl, newId, now, crypto);
            var cookie := h.reply.response.cookies[0];
            && cookie.name == "accessToken"
            && VerifyJwt(h.db, Some(cookie.value), None, verify) == Next(SessionView(newId, h.db.users[newId]))
            && VerifyJwtAsWritten(h.db, Some(cookie.value), None, verify) == Next(SessionView(newId, h.db.users[newId]))
  {
    CastCanonical(newId);
  }
}
