/**
 * The request gate (src/middlewares/auth.middleware.js): take the bearer
 * token out of the Authorization header, have it verified, and check the
 * role claim. Signature checking itself is the `verify` parameter.
 */
module AuthMiddleware {
  import opened Outcomes
  import opened Models

  /** The claims a token carries, as the login handler signs them. */
  datatype Claims = Claims(userId: Id, role: string)

  /** What a middleware does: call `next` with the request's user, or answer with a failure. */
  datatype Gate = Next(user: Claims) | Deny(failure: Failure)

  /** `s.split(" ")`: the fields between single spaces; there is always at least one. */
  function Split(s: string): (r: seq<string>)
    ensures |r| >= 1
    ensures forall i :: 0 <= i < |r| ==> ' ' !in r[i]
    decreases |s|
  {
    if s == [] then [""]
    else
      var rest := Split(s[1..]);
      if s[0] == ' ' then [""] + rest
      else [[s[0]] + rest[0]] + rest[1..]
  }

  /** Glues fields back together with single spaces. */
  function Join(fields: seq<string>): string
    decreases |fields|
  {
    if fields == [] then ""
    else if |fields| == 1 then fields[0]
    else fields[0] + " " + Join(fields[1..])
  }

  /** Splitting loses nothing: joining the fields gives back the header. */
  lemma {:induction false} JoinSplit(s: string)
    ensures Join(Split(s)) == s
    decreases |s|
  {
    if s != [] {
      var rest := Split(s[1..]);
      JoinSplit(s[1..]);
      if s[0] != ' ' && |rest| > 1 {
        assert Join(rest) == rest[0] + " " + Join(rest[1..]);
        assert Split(s) == [[s[0]] + rest[0]] + rest[1..];
        assert Join(Split(s)) == [s[0]] + rest[0] + " " + Join(rest[1..]);
        assert s == [s[0]] + s[1..];
      } else if s[0] != ' ' {
        assert s == [s[0]] + s[1..];
      } else {
        assert s == " " + s[1..];
      }
    }
  }

  /** A word followed by a space is the first field; the rest is split on its own. */
  lemma {:induction false} SplitAfterWord(word: string, tail: string)
    requires ' ' !in word
    ensures Split(word + " " + tail) == [word] + Split(tail)
    decreases |word|
  {
    if word == [] {
      assert word + " " + tail == [' '] + tail;
      assert (word + " " + tail)[1..] == tail;
    } else {
      SplitAfterWord(word[1..], tail);
      assert (word + " " + tail)[1..] == word[1..] + " " + tail;
      assert [word[0]] + word[1..] == word;
    }
  }

  /** A string without spaces is a single field. */
  lemma {:induction false} SplitWord(word: string)
    requires ' ' !in word
    ensures Split(word) == [word]
    decreases |word|
  {
    if word != [] {
      SplitWord(word[1..]);
      assert [word[0]] + word[1..] == word;
    }
  }

  /**
   * `req.headers.authorization?.split(" ")[1]`, where a missing header, a
   * missing second field and an empty second field all count as no token.
   */
  function BearerToken(header: Option<string>): (token: Option<string>)
    ensures token.Some? ==> header.Some? && |token.value| > 0 && ' ' !in token.value
    ensures token.Some? ==> exists scheme, tail :: ' ' !in scheme && header.value == Join([scheme, token.value] + tail)
  {
    if header.None? then None
    else
      var fields := Split(header.value);
      if |fields| >= 2 && fields[1] != "" then
        JoinSplit(header.value);
        assert fields == [fields[0], fields[1]] + fields[2..];
        Some(fields[1])
      else None
  }

  /** `verifyToken`: no token, or one that does not verify, is a 401; otherwise the claims become the request's user. */
  function VerifyToken(header: Option<string>, verify: string -> Option<Claims>): (g: Gate)
    ensures g.Deny? ==> Status(g.failure) == 401
    ensures g.Next? <==> BearerToken(header).Some? && verify(BearerToken(header).value).Some?
    ensures g.Next? ==> verify(BearerToken(header).value) == Some(g.user)
  {
    match BearerToken(header)
    case None => Deny(Unauthorized("Access denied. No token provided."))
    case Some(token) =>
      match verify(token)
      case None => Deny(Unauthorized("Invalid token"))
      case Some(claims) => Next(claims)
  }

  /** `isDesigner`: passes the request on exactly when the role claim is "designer", else 403. */
  function IsDesigner(user: Claims): (g: Gate)
    ensures g.Next? <==> user.role == RoleName(Designer)
    ensures g.Next? ==> g.user == user
    ensures g.Deny? ==> Status(g.failure) == 403
  {
    if user.role != "designer" then Deny(Forbidden("Access denied. Designers only.")) else Next(user)
  }

  /** `isPlayer`: passes the request on exactly when the role claim is "player", else 403. */
  function IsPlayer(user: Claims): (g: Gate)
    ensures g.Next? <==> user.role == RoleName(Player)
    ensures g.Next? ==> g.user == user
    ensures g.Deny? ==> Status(g.failure) == 403
  {
    if user.role != "player" then Deny(Forbidden("Access denied. Players only.")) else Next(user)
  }

  /** The middleware chain every designer or player route runs: `verifyToken`, then the role gate. */
  function Guard(header: Option<string>, verify: string -> Option<Claims>, role: Role): Gate
  {
    match VerifyToken(header, verify)
    case Deny(f) => Deny(f)
    case Next(user) => if role == Designer then IsDesigner(user) else IsPlayer(user)
  }

  /** A well-formed `<scheme> <token>` header yields exactly that token. */
  lemma BearerHeader(scheme: string, token: string)
    requires ' ' !in scheme && ' ' !in token && token != ""
    ensures BearerToken(Some(scheme + " " + token)) == Some(token)
  {
    SplitAfterWord(scheme, token);
    SplitWord(token);
  }

  /** Whatever follows the token after another space, the header still yields that token. */
  lemma BearerHeaderWithRest(scheme: string, token: string, rest: string)
    requires ' ' !in scheme && ' ' !in token && token != ""
    ensures BearerToken(Some(scheme + " " + token + " " + rest)) == Some(token)
  {
    assert scheme + " " + token + " " + rest == scheme + " " + (token + " " + rest);
    SplitAfterWord(scheme, token + " " + rest);
    SplitAfterWord(token, rest);
  }

  /**
   * A token the verifier accepts, sent as `Bearer <token>`, passes the chain
   * for a role exactly when it claims that role, and the claims reach the handler.
   */
  lemma {:induction false} GuardAdmits(token: string, verify: string -> Option<Claims>, claims: Claims, role: Role)
    requires ' ' !in token && token != "" && verify(token) == Some(claims)
    ensures Guard(Some("Bearer " + token), verify, role).Next? <==> claims.role == RoleName(role)
    ensures Guard(Some("Bearer " + token), verify, role).Next? ==> Guard(Some("Bearer " + token), verify, role).user == claims
  {
    assert "Bearer " + token == "Bearer" + " " + token;
    BearerHeader("Bearer", token);
    assert VerifyToken(Some("Bearer " + token), verify) == Next(claims);
  }
}
