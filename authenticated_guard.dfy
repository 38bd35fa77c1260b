/** The session guard that requires a Keycloak grant (src/guards/authenticated.guard.ts). */
module AuthenticatedGuard {
  import opened Wrappers
  import opened Http

  /** `AuthenticatedGuard.canActivate`: a request passes exactly when `kauth.grant` is present. */
  function CanActivate(kauth: Option<Kauth>): (d: Decision)
    ensures d != Refuse
    ensures d == Allow <==> kauth.Some? && kauth.value.grant.Some?
    ensures d.Deny? ==> d == Deny(Unauthorized, "User is not authenticated.")
  {
    if HasGrant(kauth) then Allow else Deny(Unauthorized, "User is not authenticated.")
  }
}
