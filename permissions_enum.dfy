/** The resources and actions of the permission scheme (src/auth/enums/permissions.enum.ts). */
module PermissionsEnum {
  import opened Wrappers

  datatype Resource = Reports
  datatype Action = Read | Delete | Update | Create

  /** The string value of each `Resources` member. */
  function ResourceValue(r: Resource): (s: string)
    ensures s != [] && ':' !in s
  {
    match r
    case Reports => "reports"
  }

  /** The string value of each `Actions` member. */
  function ActionValue(a: Action): (s: string)
    ensures s != [] && ':' !in s
  {
    match a
    case Read => "read"
    case Delete => "delete"
    case Update => "update"
    case Create => "create"
  }

  /** `AllowedPermissions`: the actions each resource admits, in declaration order. */
  const ALLOWED_PERMISSIONS: map<Resource, seq<Action>> := map[Reports := [Read, Create, Update, Delete]]

  /** The action `a` is allowed on resource `r`. */
  predicate Allowed(r: Resource, a: Action)
  {
    r in ALLOWED_PERMISSIONS && a in ALLOWED_PERMISSIONS[r]
  }

  /** The resource whose value is `s`, if any. */
  function ParseResource(s: string): (r: Option<Resource>)
    ensures r.Some? ==> ResourceValue(r.value) == s
  {
    if s == "reports" then Some(Reports) else None
  }

  /** The action whose value is `s`, if any. */
  function ParseAction(s: string): (a: Option<Action>)
    ensures a.Some? ==> ActionValue(a.value) == s
  {
    if s == "read" then Some(Read)
    else if s == "delete" then Some(Delete)
    else if s == "update" then Some(Update)
    else if s == "create" then Some(Create)
    else None
  }

  /** Parsing inverts the value functions: a string parses to a member exactly when it is its value. */
  lemma ParseInvertsValue(r: Resource, a: Action, s: string)
    ensures ParseResource(s) == Some(r) <==> ResourceValue(r) == s
    ensures ParseAction(s) == Some(a) <==> ActionValue(a) == s
  {
    match r
    case Reports =>
  }

  /** Every resource admits every action, each listed once. */
  lemma EveryActionAllowedOnce(r: Resource, a: Action)
    ensures Allowed(r, a)
    ensures multiset(ALLOWED_PERMISSIONS[r])[a] == 1
  {
  }

  /** Distinct members have distinct values, so a value names one member. */
  lemma ValuesInjective(a: Action, b: Action, r: Resource, q: Resource)
    ensures ActionValue(a) == ActionValue(b) ==> a == b
    ensures ResourceValue(r) == ResourceValue(q) ==> r == q
  {
  }
}
