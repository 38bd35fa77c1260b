/** Permission strings and the `Permissions` decorator (src/auth/decorators/permissions.decorator.ts). */
module PermissionsDecorator {
  import opened Wrappers
  import opened Metadata
  import opened PermissionsEnum

  const PERMISSIONS_KEY := "permissions"

  /**
   * `createPermissions(resource, action)`: the permission string `action:resource`.  The type
   * of `action` restricts it to the actions allowed on `resource`.
   */
  function CreatePermission(resource: Resource, action: Action): (p: string)
    requires Allowed(resource, action)
    ensures |p| == |ActionValue(action)| + 1 + |ResourceValue(resource)|
    ensures p[..|ActionValue(action)|] == ActionValue(action) && p[|ActionValue(action)|] == ':'
    ensures p[|ActionValue(action)| + 1..] == ResourceValue(resource)
  {
    ActionValue(action) + ":" + ResourceValue(resource)
  }

  /** The index of the first `':'` in `s`, if there is one. */
  function ColonAt(s: string): (i: Option<nat>)
    ensures i.None? <==> ':' !in s
    ensures i.Some? ==> i.value < |s| && s[i.value] == ':' && ':' !in s[..i.value]
  {
    if s == [] then None
    else if s[0] == ':' then Some(0)
    else match ColonAt(s[1..])
      case None => None
      case Some(k) =>
        assert s[..k + 1] == [s[0]] + s[1..][..k];
        Some(k + 1)
  }

  /**
   * Read a permission string back as the action and resource it names: the part before the
   * first `':'` must be an action's value and the rest a resource's value.
   */
  function ParsePermission(p: string): Option<(Action, Resource)>
  {
    match ColonAt(p)
    case None => None
    case Some(i) =>
      match (ParseAction(p[..i]), ParseResource(p[i + 1..]))
      case (Some(a), Some(r)) => Some((a, r))
      case _ => None
  }

  /** Every permission string names the pair it was built from. */
  lemma ParseCreated(resource: Resource, action: Action)
    requires Allowed(resource, action)
    ensures ParsePermission(CreatePermission(resource, action)) == Some((action, resource))
  {
    var p := CreatePermission(resource, action);
    var n := |ActionValue(action)|;
    assert p[..n] == ActionValue(action);
    assert ':' !in p[..n];
    assert ColonAt(p) == Some(n);
    ParseInvertsValue(resource, action, p[..n]);
    ParseInvertsValue(resource, action, p[n + 1..]);
  }

  /** Every string that parses is the permission string of the pair it names. */
  lemma CreatedParsed(p: string, resource: Resource, action: Action)
    requires ParsePermission(p) == Some((action, resource))
    ensures Allowed(resource, action) && CreatePermission(resource, action) == p
  {
    EveryActionAllowedOnce(resource, action);
    var i := ColonAt(p).value;
    ParseInvertsValue(resource, action, p[..i]);
    ParseInvertsValue(resource, action, p[i + 1..]);
    assert p == p[..i] + [':'] + p[i + 1..];
  }

  /** The permission strings `Permissions(...pairs)` stores, one per `[action, resource]` pair. */
  function PermissionStrings(pairs: seq<(Action, Resource)>): (ps: seq<string>)
    ensures |ps| == |pairs|
    ensures forall i :: 0 <= i < |pairs| ==> ParsePermission(ps[i]) == Some(pairs[i])
    decreases |pairs|
  {
    if pairs == [] then []
    else
      EveryActionAllowedOnce(pairs[0].1, pairs[0].0);
      ParseCreated(pairs[0].1, pairs[0].0);
      [CreatePermission(pairs[0].1, pairs[0].0)] + PermissionStrings(pairs[1..])
  }

  /** `Permissions(...pairs)`: store the permission strings under `"permissions"`. */
  function Permissions(pairs: seq<(Action, Resource)>): (d: Decorator)
    ensures d.key == PERMISSIONS_KEY && d.value.List? && |d.value.items| == |pairs|
    ensures forall i :: 0 <= i < |pairs| ==> ParsePermission(d.value.items[i]) == Some(pairs[i])
  {
    SetMetadata(PERMISSIONS_KEY, List(PermissionStrings(pairs)))
  }
}
