/** Request, token and guard-result shapes shared by the guards. */
module Http {
  import opened Wrappers

  datatype DenyKind = Forbidden | Unauthorized

  /** An exception a guard or service throws: `ForbiddenException` or `UnauthorizedException`. */
  datatype HttpException = HttpException(kind: DenyKind, message: string)

  /**
   * What a guard's `canActivate` does: return `true` (`Allow`), return `false` (`Refuse`), or
   * throw an exception (`Deny`).
   */
  datatype Decision = Allow | Refuse | Deny(kind: DenyKind, message: string)

  function Throw(e: HttpException): (d: Decision)
    ensures d.Deny? && d.kind == e.kind && d.message == e.message
  {
    Deny(e.kind, e.message)
  }

  /** `realm_access` of a token: `roles` may be missing. */
  datatype RealmAccess = RealmAccess(roles: Option<seq<string>>)

  /** One client's entry under `resource_access`. */
  datatype ClientAccess = ClientAccess(roles: seq<string>)

  /**
   * The claims of a decoded token as far as the guards read them; `request.user` has the same
   * shape, with `access_token` set by the authentication guard.
   */
  datatype Claims = Claims(
    sub: Option<string>,
    realmAccess: Option<RealmAccess>,
    resourceAccess: Option<map<string, ClientAccess>>,
    accessToken: Option<string>)

  /**
   * The claims the attribute-based guard reads from a Keycloak access token.  `attributes`
   * maps each attribute name to whether its value is truthy in JavaScript.
   */
  datatype TokenContent = TokenContent(
    allowedResources: Option<seq<string>>,
    allowedActions: Option<seq<string>>,
    attributes: Option<map<string, bool>>)

  datatype AccessToken = AccessToken(content: TokenContent)
  datatype Grant = Grant(accessToken: Option<AccessToken>)

  /** `request.kauth`, attached by the keycloak-connect middleware. */
  datatype Kauth = Kauth(grant: Option<Grant>)

  /** `request.kauth?.grant` is present. */
  predicate HasGrant(kauth: Option<Kauth>)
  {
    kauth.Some? && kauth.value.grant.Some?
  }

  /** The request fields the guards read, and `user`, which the authentication guard writes. */
  class Request {
    var authorization: Option<string>
    var kauth: Option<Kauth>
    var originalUrl: Option<string>
    var user: Option<Claims>

    constructor (authorization: Option<string>, kauth: Option<Kauth>, originalUrl: Option<string>)
      ensures this.authorization == authorization && this.kauth == kauth && this.originalUrl == originalUrl
      ensures user.None?
    {
      this.authorization := authorization;
      this.kauth := kauth;
      this.originalUrl := originalUrl;
      user := None;
    }
  }

  /** The response, as far as `response.redirect` changes it: the redirects issued, in order. */
  class Response {
    var redirects: seq<string>

    constructor ()
      ensures redirects == []
    {
      redirects := [];
    }

    method Redirect(url: string)
      modifies this
      ensures redirects == old(redirects) + [url]
    {
      redirects := redirects + [url];
    }
  }
}
