/** The bearer-token middlewares: `auth` (recipe-api/src/middleware/auth.js,
    and the identical src/middleware/auth.js of the legacy back end) and
    `optionalAuth` (recipe-api/src/middleware/optionalAuth.js). Token
    verification and the user lookup are parameters: `verify` yields the
    token's user id, or `None` when `jwt.verify` throws; `lookup` yields the
    loaded user's id, or `None` when `User.findById` finds nobody or throws. */
module Auth {
  import opened Wrappers
  import opened Text
  import opened Requests
  import opened ObjectIds

  const BearerPrefix := "Bearer "
  const TokenMissing := "AUTH_TOKEN_MISSING"
  const TokenInvalid := "AUTH_TOKEN_INVALID"
  const NoToken := "No token provided"
  const InvalidToken := "Token invalid or expired"

  /** `header.split(' ')[1]` for a header that starts with `Bearer `: the
      text after the prefix up to the next space. */
  function BearerToken(header: string): (token: Option<string>)
    ensures token.Some? <==> StartsWith(header, BearerPrefix)
    ensures token.Some? ==> |Split(header, ' ')| >= 2 && token.value == Split(header, ' ')[1]
    ensures token.Some? ==> ' ' !in token.value && StartsWith(header[|BearerPrefix|..], token.value)
  {
    if StartsWith(header, BearerPrefix) then
      var rest := header[|BearerPrefix|..];
      assert header == "Bearer" + [' '] + rest;
      SplitAfterPrefix("Bearer", ' ', rest);
      SplitFirstIsPrefix(rest, ' ');
      Some(Split(header, ' ')[1])
    else None
  }

  /** The first piece of a split is a prefix of the string. */
  lemma SplitFirstIsPrefix(s: string, sep: char)
    ensures StartsWith(s, Split(s, sep)[0])
  {
    match IndexOf(s, sep)
    case None =>
    case Some(i) =>
      assert s[..i][..] == s[..|s[..i]|];
  }

  /** The token of `Bearer <tail>` is the first space-separated piece of `tail`. */
  lemma BearerTokenOfTail(tail: string)
    ensures BearerToken(BearerPrefix + tail) == Some(Split(tail, ' ')[0])
  {
    var header := BearerPrefix + tail;
    assert header == "Bearer" + [' '] + tail;
    assert header[..|BearerPrefix|] == BearerPrefix;
    SplitAfterPrefix("Bearer", ' ', tail);
  }

  /** The token of `Bearer <t>` and of `Bearer <t> <more>` is `t`. */
  lemma BearerTokenOf(t: string, more: string)
    requires ' ' !in t
    ensures BearerToken(BearerPrefix + t) == Some(t)
    ensures BearerToken(BearerPrefix + t + " " + more) == Some(t)
  {
    BearerTokenOfTail(t);
    assert IndexOf(t, ' ').None?;
    var tail := t + " " + more;
    BearerTokenOfTail(tail);
    assert tail == t + [' '] + more;
    SplitAfterPrefix(t, ' ', more);
    assert BearerPrefix + t + " " + more == BearerPrefix + tail;
  }

  /** `auth`: a missing header or one without the prefix is answered 401
      `AUTH_TOKEN_MISSING`; a token that does not verify or names no user is
      answered 401 `AUTH_TOKEN_INVALID`; only then is the user attached and
      `next()` called. */
  method Authenticate(req: Request, authorization: Option<string>,
                      verify: string -> Option<Id>, lookup: Id -> Option<Id>)
    returns (n: Next)
    modifies req
    ensures authorization.None? || BearerToken(authorization.value).None? ==>
              n == Respond(401, TokenMissing, NoToken) && req.user == old(req.user)
    ensures authorization.Some? && BearerToken(authorization.value).Some? ==>
              var token := BearerToken(authorization.value).value;
              if verify(token).Some? && lookup(verify(token).value).Some? then
                n == Proceed && req.user == lookup(verify(token).value)
              else
                n == Respond(401, TokenInvalid, InvalidToken) && req.user == old(req.user)
    ensures req.body == old(req.body) && req.attached == old(req.attached)
  {
    if authorization.None? {
      return Respond(401, TokenMissing, NoToken);
    }
    var token := BearerToken(authorization.value);
    if token.None? {
      return Respond(401, TokenMissing, NoToken);
    }
    var payload := verify(token.value);
    if payload.None? {
      return Respond(401, TokenInvalid, InvalidToken);
    }
    var user := lookup(payload.value);
    if user.None? {
      return Respond(401, TokenInvalid, InvalidToken);
    }
    req.user := user;
    n := Proceed;
  }

  /** `optionalAuth`: the header defaults to ""; every failure is swallowed;
      the user is attached only when the prefix, the token and the lookup all
      succeed, and `next()` is called in every case. */
  method OptionalAuthenticate(req: Request, authorization: Option<string>,
                              verify: string -> Option<Id>, lookup: Id -> Option<Id>)
    returns (n: Next)
    modifies req
    ensures n == Proceed
    ensures var token := BearerToken(authorization.GetOr(""));
            if token.Some? && verify(token.value).Some? && lookup(verify(token.value).value).Some? then
              req.user == lookup(verify(token.value).value)
            else
              req.user == old(req.user)
    ensures req.body == old(req.body) && req.attached == old(req.attached)
  {
    var header := authorization.GetOr("");
    var token := BearerToken(header);
    if token.Some? {
      var payload := verify(token.value);
      if payload.Some? {
        var user := lookup(payload.value);
        if user.Some? {
          req.user := user;
        }
      }
    }
    n := Proceed;
  }
}
