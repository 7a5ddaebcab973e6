/** The authentication middleware: reads the bearer token from the
    Authorization header and verifies it. The token verifier (jsonwebtoken's
    `verify` with the server secret) is a parameter. */
module IsAuth {
  import opened Util
  import opened Errors

  /** The error thrown when the header is missing or has another scheme. */
  function NotAuthenticated(): ErrorRecord {
    ErrorResponse("User not authenticated", Some(401), "")
  }

  /** The header's first space-separated part is exactly `Token` or `Bearer`. */
  predicate HasScheme(header: string) {
    var scheme := Split(header, ' ')[0];
    scheme == "Token" || scheme == "Bearer"
  }

  /** The header's second space-separated part; None when there is none. */
  function TokenPart(header: string): Option<string> {
    var parts := Split(header, ' ');
    if |parts| > 1 then Some(parts[1]) else None
  }

  /** `getTokenFromHeader`: Success(payload) is `req.token = payload; next()`,
      Failure(e) is `next(e)`. A missing header and an empty one are both falsy
      and both rejected. */
  function GetTokenFromHeader<P>(authorization: Option<string>, verify: Option<string> -> Result<P>): (r: Result<P>)
    ensures authorization.None? ==> r == Failure(NotAuthenticated())
    ensures authorization.Some? && !HasScheme(authorization.value) ==> r == Failure(NotAuthenticated())
    ensures authorization.Some? && HasScheme(authorization.value) ==> r == verify(TokenPart(authorization.value))
  {
    if authorization.Some? && authorization.value != "" && HasScheme(authorization.value) then
      verify(TokenPart(authorization.value))
    else
      Failure(NotAuthenticated())
  }

  /** `Bearer <token>` and `Token <token>` hand exactly the token to the verifier. */
  lemma {:induction false} BearerToken<P>(scheme: string, token: string, verify: Option<string> -> Result<P>)
    requires scheme == "Bearer" || scheme == "Token"
    requires ' ' !in token
    ensures GetTokenFromHeader(Some(scheme + " " + token), verify) == verify(Some(token))
  {
    assert scheme + " " + token == scheme + [' '] + token;
    SplitAfterWord(scheme, ' ', token);
    SplitWithoutSeparator(token, ' ');
  }

  /** Anything after the second part is ignored. */
  lemma {:induction false} ExtraPartsIgnored<P>(token: string, rest: string, verify: Option<string> -> Result<P>)
    requires ' ' !in token
    ensures GetTokenFromHeader(Some("Bearer " + token + " " + rest), verify) == verify(Some(token))
  {
    var h := "Bearer " + token + " " + rest;
    assert h == "Bearer" + [' '] + (token + [' '] + rest);
    SplitAfterWord("Bearer", ' ', token + [' '] + rest);
    SplitAfterWord(token, ' ', rest);
  }

  /** The scheme is compared case-sensitively: `bearer` is rejected. */
  lemma {:induction false} LowerCaseSchemeRejected<P>(token: string, verify: Option<string> -> Result<P>)
    ensures GetTokenFromHeader(Some("bearer " + token), verify) == Failure(NotAuthenticated())
  {
    assert "bearer " + token == "bearer" + [' '] + token;
    SplitAfterWord("bearer", ' ', token);
  }

  /** A bare scheme with no token passes an undefined token to the verifier. */
  lemma {:induction false} BareScheme<P>(verify: Option<string> -> Result<P>)
    ensures GetTokenFromHeader(Some("Bearer"), verify) == verify(None)
  {
    SplitWithoutSeparator("Bearer", ' ');
  }
}
