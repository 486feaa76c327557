/** `lib/api-helpers.ts`: finding the caller's session token in a request, and its claims. */
module ApiHelpers {
  import opened Wrappers
  import opened Text
  import opened Auth

  /** The two places a token may travel: the `Authorization` header and the `token` cookie. */
  datatype Request = Request(authorization: Option<string>, tokenCookie: Option<string>)

  const BearerPrefix: string := "Bearer "

  /**
   * `getTokenFromRequest`: the text after a case-sensitive `Bearer ` header prefix;
   * failing that, a non-empty `token` cookie; failing that, `null`.
   */
  function TokenFromRequest(req: Request): (r: Option<string>)
    ensures req.authorization.Some? && StartsWith(req.authorization.value, BearerPrefix) ==>
      r == Some(req.authorization.value[|BearerPrefix|..])
    ensures !(req.authorization.Some? && StartsWith(req.authorization.value, BearerPrefix)) ==>
      r == (if req.tokenCookie.Some? && req.tokenCookie.value != "" then req.tokenCookie else None)
  {
    if req.authorization.Some? && req.authorization.value != "" && StartsWith(req.authorization.value, BearerPrefix) then
      Some(req.authorization.value[7..])
    else if req.tokenCookie.Some? && req.tokenCookie.value != "" then
      req.tokenCookie
    else
      None
  }

  /** `getUserFromRequest`: no token, or an empty one, means no caller; otherwise the token decides. */
  function UserFromRequest(req: Request, crypto: Crypto): (r: Option<AuthUser>)
    ensures TokenFromRequest(req).None? || TokenFromRequest(req) == Some("") ==> r.None?
    ensures TokenFromRequest(req).Some? && TokenFromRequest(req).value != "" ==>
      r == VerifyToken(crypto, TokenFromRequest(req).value)
  {
    match TokenFromRequest(req)
    case None => None
    case Some(token) => if token == "" then None else VerifyToken(crypto, token)
  }

  /**
   * The header the pages send, `Bearer ${token}`, carries exactly that token to the
   * server, and the cookie is then never consulted.
   */
  lemma BearerHeaderRoundTrip(token: string, cookie: Option<string>)
    ensures TokenFromRequest(Request(Some(BearerPrefix + token), cookie)) == Some(token)
  {
    var h := BearerPrefix + token;
    assert h[..|BearerPrefix|] == BearerPrefix;
    assert h[|BearerPrefix|..] == token;
  }

  /** A bare `Bearer ` header yields the empty token, which counts as no caller at all. */
  lemma EmptyBearerIsAnonymous(cookie: Option<string>, crypto: Crypto)
    ensures UserFromRequest(Request(Some(BearerPrefix), cookie), crypto).None?
  {
    BearerHeaderRoundTrip("", cookie);
    assert BearerPrefix + "" == BearerPrefix;
  }
}
