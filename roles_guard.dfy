/** The realm-role guard (src/auth/guards/roles.guard.ts). */
module RolesGuard {
  import opened Wrappers
  import opened Http
  import opened Metadata

  const ROLES_KEY := "roles"

  /** The roles `user.realm_access?.roles` lists, when the user and the list exist. */
  function RealmRoles(user: Option<Claims>): Option<seq<string>>
  {
    if user.Some? && user.value.realmAccess.Some? && user.value.realmAccess.value.roles.Some?
    then user.value.realmAccess.value.roles
    else None
  }

  /** Some required role is among the user's roles. */
  predicate HoldsAny(required: seq<string>, roles: seq<string>)
  {
    exists r :: r in required && r in roles
  }

  /**
   * `RolesGuard.canActivate`: a handler without `"roles"` metadata is open to every request;
   * otherwise one of the listed roles suffices.
   */
  function CanActivate(md: Metadata, user: Option<Claims>): (d: Decision)
    ensures d != Refuse
    ensures d.Deny? ==> d.kind == Forbidden
    ensures GetList(md, ROLES_KEY).None? ==> d == Allow
    ensures GetList(md, ROLES_KEY).Some? && RealmRoles(user).None? ==> d == Deny(Forbidden, "User roles not found")
    ensures d == Allow <==>
      GetList(md, ROLES_KEY).None? ||
      (RealmRoles(user).Some? && HoldsAny(GetList(md, ROLES_KEY).value, RealmRoles(user).value))
    ensures d.Deny? && d.message != "User roles not found" ==> d.message == "Insufficient role permissions"
  {
    match GetList(md, ROLES_KEY)
    case None => Allow
    case Some(required) =>
      match RealmRoles(user)
      case None => Deny(Forbidden, "User roles not found")
      case Some(roles) =>
        if exists i :: 0 <= i < |required| && required[i] in roles then Allow
        else Deny(Forbidden, "Insufficient role permissions")
  }

  /** An empty role list on a handler admits nobody: `some` over no roles is false. */
  lemma EmptyRoleListAdmitsNobody(md: Metadata, user: Option<Claims>)
    requires GetList(md, ROLES_KEY) == Some([])
    ensures CanActivate(md, user).Deny?
  {
  }

  /** Granting a user more realm roles never turns an allow into a denial. */
  lemma MoreUserRolesStillAllowed(md: Metadata, user: Option<Claims>, user': Option<Claims>)
    requires RealmRoles(user).Some? ==> RealmRoles(user').Some?
    requires RealmRoles(user).Some? ==> forall r :: r in RealmRoles(user).value ==> r in RealmRoles(user').value
    requires CanActivate(md, user) == Allow
    ensures CanActivate(md, user') == Allow
  {
  }

  /** Accepting more roles never turns an allow into a denial. */
  lemma MoreRolesStillAllowed(md: Metadata, md': Metadata, user: Option<Claims>)
    requires GetList(md, ROLES_KEY).Some? && GetList(md', ROLES_KEY).Some?
    requires forall r :: r in GetList(md, ROLES_KEY).value ==> r in GetList(md', ROLES_KEY).value
    requires CanActivate(md, user) == Allow
    ensures CanActivate(md', user) == Allow
  {
  }
}
