/** The session guard that sends anonymous visitors to the login page (src/guards/redirect-unauthenticated.guard.ts). */
module RedirectGuard {
  import opened Wrappers
  import opened Http
  import opened Uri

  const LOGIN_PATH := "/auth/login?redirect="

  /** `request.originalUrl || "/"`: a missing or empty URL stands for the root. */
  function ReturnUrl(originalUrl: Option<string>): (u: string)
    ensures u != []
    ensures originalUrl.Some? && originalUrl.value != [] ==> u == originalUrl.value
    ensures originalUrl.None? || originalUrl.value == [] ==> u == "/"
  {
    if originalUrl.Some? && originalUrl.value != [] then originalUrl.value else "/"
  }

  /**
   * The login URL an anonymous visitor is sent to, carrying the page they asked for as one
   * percent-encoded query parameter: after the prefix only unreserved characters, `%` and
   * hexadecimal digits appear, so no `&`, `#`, `=` or space can end the parameter early.
   */
  function LoginRedirect(originalUrl: Option<string>): (url: string)
    ensures |url| > |LOGIN_PATH| && url[..|LOGIN_PATH|] == LOGIN_PATH
    ensures Decode(url[|LOGIN_PATH|..]) == Some(ReturnUrl(originalUrl))
    ensures forall i :: |LOGIN_PATH| <= i < |url| ==> Unreserved(url[i]) || url[i] == '%' || UpperHex(url[i])
  {
    var encoded := EncodeUriComponent(ReturnUrl(originalUrl));
    DecodeEncoded(ReturnUrl(originalUrl));
    assert (LOGIN_PATH + encoded)[|LOGIN_PATH|..] == encoded;
    LOGIN_PATH + encoded
  }

  /** A visitor without a URL, or with an empty one, is sent back to the root, written `%2F`. */
  lemma MissingUrlRedirectsToRoot(originalUrl: Option<string>)
    requires originalUrl.None? || originalUrl.value == []
    ensures LoginRedirect(originalUrl) == "/auth/login?redirect=%2F"
  {
    assert !Unreserved('/');
    assert Utf8('/') == [0x2F];
    assert PercentEncode([0x2F]) == PercentByte(0x2F) + PercentEncode([]);
    assert EncodeUriComponent("/") == "%2F";
  }

  /**
   * `RedirectUnauthenticatedGuard.canActivate`: with a grant the request passes and nothing is
   * redirected; without one exactly one redirect to the login URL is issued and the guard
   * returns `false`.
   */
  method CanActivate(kauth: Option<Kauth>, originalUrl: Option<string>, response: Response) returns (d: Decision)
    modifies response
    ensures d == Allow || d == Refuse
    ensures d == Allow <==> HasGrant(kauth)
    ensures d == Allow ==> response.redirects == old(response.redirects)
    ensures d == Refuse ==> response.redirects == old(response.redirects) + [LoginRedirect(originalUrl)]
  {
    if HasGrant(kauth) {
      return Allow;
    }
    var target := ReturnUrl(originalUrl);
    response.Redirect(LOGIN_PATH + EncodeUriComponent(target));
    return Refuse;
  }
}
