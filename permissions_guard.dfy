/** The client-role permission guard (libs/auth/src/guards/permissions.guard.ts). */
module PermissionsGuard {
  import opened Wrappers
  import opened Http
  import opened Metadata
  import opened PermissionsEnum
  import opened PermissionsDecorator

  /** The roles `user.resource_access[clientId]` grants, when the user and that entry exist. */
  function ClientRoles(user: Option<Claims>, clientId: string): Option<seq<string>>
  {
    if user.Some? && user.value.resourceAccess.Some? && clientId in user.value.resourceAccess.value
    then Some(user.value.resourceAccess.value[clientId].roles)
    else None
  }

  /** Every required permission is among the roles. */
  predicate HoldsAll(required: seq<string>, roles: seq<string>)
  {
    forall p :: p in required ==> p in roles
  }

  /**
   * `PermissionsGuard.canActivate`.  `clientId` is the value of `KEYCLOAK_CLIENT_ID`; a handler
   * without `"permissions"` metadata is open to every request.
   */
  function CanActivate(md: Metadata, user: Option<Claims>, clientId: string): (d: Decision)
    ensures d != Refuse
    ensures d.Deny? ==> d.kind == Forbidden
    ensures GetList(md, PERMISSIONS_KEY).None? ==> d == Allow
    ensures GetList(md, PERMISSIONS_KEY).Some? && ClientRoles(user, clientId).None? ==>
      d == Deny(Forbidden, "User permissions not found")
    ensures d == Allow <==>
      GetList(md, PERMISSIONS_KEY).None? ||
      (ClientRoles(user, clientId).Some? && HoldsAll(GetList(md, PERMISSIONS_KEY).value, ClientRoles(user, clientId).value))
    ensures d.Deny? && d.message != "User permissions not found" ==> d.message == "Insufficient permissions"
  {
    match GetList(md, PERMISSIONS_KEY)
    case None => Allow
    case Some(required) =>
      match ClientRoles(user, clientId)
      case None => Deny(Forbidden, "User permissions not found")
      case Some(roles) =>
        if forall i :: 0 <= i < |required| ==> required[i] in roles then Allow
        else Deny(Forbidden, "Insufficient permissions")
  }

  /** A handler that requires no permissions (an empty list) admits every user with a client entry. */
  lemma EmptyRequirementAdmitsClientUsers(md: Metadata, user: Option<Claims>, clientId: string)
    requires GetList(md, PERMISSIONS_KEY) == Some([])
    ensures CanActivate(md, user, clientId) == Allow <==> ClientRoles(user, clientId).Some?
  {
  }

  /** Requiring fewer permissions never turns an allow into a denial. */
  lemma FewerRequirementsStillAllowed(md: Metadata, md': Metadata, user: Option<Claims>, clientId: string)
    requires GetList(md, PERMISSIONS_KEY).Some? && GetList(md', PERMISSIONS_KEY).Some?
    requires forall p :: p in GetList(md', PERMISSIONS_KEY).value ==> p in GetList(md, PERMISSIONS_KEY).value
    requires CanActivate(md, user, clientId) == Allow
    ensures CanActivate(md', user, clientId) == Allow
  {
  }

  /** Granting a user more client roles never turns an allow into a denial. */
  lemma MoreRolesStillAllowed(md: Metadata, user: Option<Claims>, user': Option<Claims>, clientId: string)
    requires ClientRoles(user, clientId).Some? ==> ClientRoles(user', clientId).Some?
    requires ClientRoles(user, clientId).Some? ==>
      forall r :: r in ClientRoles(user, clientId).value ==> r in ClientRoles(user', clientId).value
    requires CanActivate(md, user, clientId) == Allow
    ensures CanActivate(md, user', clientId) == Allow
  {
  }

  /**
   * On a handler decorated with `Permissions(...pairs)`, the guard admits exactly the users
   * whose client roles include the permission string of every pair.
   */
  lemma PermissionsEnforced(pairs: seq<(Action, Resource)>, user: Option<Claims>, clientId: string)
    ensures var md := Apply(map[], Permissions(pairs));
      CanActivate(md, user, clientId) == Allow <==>
        ClientRoles(user, clientId).Some? &&
        forall i :: 0 <= i < |pairs| ==>
          Allowed(pairs[i].1, pairs[i].0) && CreatePermission(pairs[i].1, pairs[i].0) in ClientRoles(user, clientId).value
  {
    var md := Apply(map[], Permissions(pairs));
    var required := Permissions(pairs).value.items;
    assert GetList(md, PERMISSIONS_KEY) == Some(required);
    forall i | 0 <= i < |pairs|
      ensures Allowed(pairs[i].1, pairs[i].0) && CreatePermission(pairs[i].1, pairs[i].0) == required[i]
    {
      CreatedParsed(required[i], pairs[i].1, pairs[i].0);
    }
  }
}
