/** The attribute-based access-control guard (src/guards/abac.guard.ts). */
module AbacGuard {
  import opened Wrappers
  import opened Http
  import opened Metadata
  import opened AbacDecorator

  /** The access token on the request, `request.kauth?.grant?.access_token`. */
  function TokenOf(kauth: Option<Kauth>): Option<AccessToken>
  {
    if HasGrant(kauth) then kauth.value.grant.value.accessToken else None
  }

  /** `list || []`. */
  function OrEmpty(list: Option<seq<string>>): seq<string>
  {
    if list.Some? then list.value else []
  }

  /** `tokenAttributes[name]` is truthy, where `tokenAttributes` is `attributes || {}`. */
  predicate Holds(attributes: Option<map<string, bool>>, name: string)
  {
    attributes.Some? && name in attributes.value && attributes.value[name]
  }

  /** The first required attribute the token does not hold, as the loop over them finds it. */
  function FirstMissing(required: seq<string>, attributes: Option<map<string, bool>>): (r: Option<nat>)
    ensures r.None? <==> forall k :: 0 <= k < |required| ==> Holds(attributes, required[k])
    ensures r.Some? ==> r.value < |required| && !Holds(attributes, required[r.value])
    ensures r.Some? ==> forall k :: 0 <= k < r.value ==> Holds(attributes, required[k])
    decreases |required|
  {
    if required == [] then None
    else if !Holds(attributes, required[0]) then Some(0)
    else match FirstMissing(required[1..], attributes)
      case None => None
      case Some(k) => Some(k + 1)
  }

  /** The resource and action checks, each applied only when the handler names one. */
  predicate ResourceAllowed(content: TokenContent, md: Metadata)
  {
    Truthy(GetText(md, RESOURCE_KEY)) ==> GetText(md, RESOURCE_KEY).value in OrEmpty(content.allowedResources)
  }

  predicate ActionAllowed(content: TokenContent, md: Metadata)
  {
    Truthy(GetText(md, ACTION_KEY)) ==> GetText(md, ACTION_KEY).value in OrEmpty(content.allowedActions)
  }

  predicate AttributesHeld(content: TokenContent, md: Metadata)
  {
    forall a :: a in OrEmpty(GetList(md, ATTRIBUTES_KEY)) ==> Holds(content.attributes, a)
  }

  /** The policy, stated as one condition: a token, and every check the handler asks for passes. */
  predicate Permits(kauth: Option<Kauth>, md: Metadata)
  {
    TokenOf(kauth).Some? &&
    var content := TokenOf(kauth).value.content;
    ResourceAllowed(content, md) && ActionAllowed(content, md) && AttributesHeld(content, md)
  }

  /**
   * `ABACGuard.canActivate` for a request with `kauth` on a handler with metadata `md`.  It
   * never returns `false`: every refusal is a `ForbiddenException`.
   */
  function CanActivate(kauth: Option<Kauth>, md: Metadata): (d: Decision)
    ensures d != Refuse
    ensures d.Deny? ==> d.kind == Forbidden
    ensures d == Allow <==> Permits(kauth, md)
  {
    if TokenOf(kauth).None? then Deny(Forbidden, "No access token found.")
    else
      var content := TokenOf(kauth).value.content;
      var resource := GetText(md, RESOURCE_KEY);
      var action := GetText(md, ACTION_KEY);
      var attributes := GetList(md, ATTRIBUTES_KEY);
      if Truthy(resource) && resource.value !in OrEmpty(content.allowedResources) then
        Deny(Forbidden, "Access to resource '" + resource.value + "' is denied.")
      else if Truthy(action) && action.value !in OrEmpty(content.allowedActions) then
        Deny(Forbidden, "Action '" + action.value + "' is not permitted.")
      else if attributes.Some? && |attributes.value| > 0 && FirstMissing(attributes.value, content.attributes).Some? then
        Deny(Forbidden, "Missing required attribute '" + attributes.value[FirstMissing(attributes.value, content.attributes).value] + "'.")
      else Allow
  }

  /**
   * The checks run in the order token, resource, action, attributes, and a denial names the
   * first one that fails.
   */
  lemma DenialNamesFirstFailure(kauth: Option<Kauth>, md: Metadata)
    ensures TokenOf(kauth).None? ==> CanActivate(kauth, md) == Deny(Forbidden, "No access token found.")
    ensures TokenOf(kauth).Some? && !ResourceAllowed(TokenOf(kauth).value.content, md) ==>
      CanActivate(kauth, md) == Deny(Forbidden, "Access to resource '" + GetText(md, RESOURCE_KEY).value + "' is denied.")
    ensures (TokenOf(kauth).Some? && ResourceAllowed(TokenOf(kauth).value.content, md)
      && !ActionAllowed(TokenOf(kauth).value.content, md)) ==>
      CanActivate(kauth, md) == Deny(Forbidden, "Action '" + GetText(md, ACTION_KEY).value + "' is not permitted.")
    ensures (TokenOf(kauth).Some? && ResourceAllowed(TokenOf(kauth).value.content, md)
      && ActionAllowed(TokenOf(kauth).value.content, md) && !AttributesHeld(TokenOf(kauth).value.content, md)) ==>
      var required := GetList(md, ATTRIBUTES_KEY).value;
      var k := FirstMissing(required, TokenOf(kauth).value.content.attributes);
      k.Some? && CanActivate(kauth, md) == Deny(Forbidden, "Missing required attribute '" + required[k.value] + "'.")
  {
    if TokenOf(kauth).Some? {
      var content := TokenOf(kauth).value.content;
      if ResourceAllowed(content, md) && ActionAllowed(content, md) && !AttributesHeld(content, md) {
        var required := OrEmpty(GetList(md, ATTRIBUTES_KEY));
        var a :| a in required && !Holds(content.attributes, a);
        var i :| 0 <= i < |required| && required[i] == a;
      }
    }
  }

  /**
   * With no resource, no action and no (or an empty) attribute list on the handler, every
   * request that carries an access token is allowed.
   */
  lemma NoPolicyAllowsAnyToken(kauth: Option<Kauth>, md: Metadata)
    requires !Truthy(GetText(md, RESOURCE_KEY)) && !Truthy(GetText(md, ACTION_KEY))
    requires OrEmpty(GetList(md, ATTRIBUTES_KEY)) == []
    ensures CanActivate(kauth, md) == Allow <==> TokenOf(kauth).Some?
  {
  }

  /** Token content `a` grants no more than `b`. */
  ghost predicate Grants(a: TokenContent, b: TokenContent)
  {
    && (forall r :: r in OrEmpty(a.allowedResources) ==> r in OrEmpty(b.allowedResources))
    && (forall x :: x in OrEmpty(a.allowedActions) ==> x in OrEmpty(b.allowedActions))
    && (forall n :: Holds(a.attributes, n) ==> Holds(b.attributes, n))
  }

  /** Granting a token more resources, actions or attributes never turns an allow into a denial. */
  lemma MoreGrantsStillAllowed(a: TokenContent, b: TokenContent, md: Metadata)
    requires Grants(a, b)
    requires CanActivate(Some(Kauth(Some(Grant(Some(AccessToken(a)))))), md) == Allow
    ensures CanActivate(Some(Kauth(Some(Grant(Some(AccessToken(b)))))), md) == Allow
  {
    assert Permits(Some(Kauth(Some(Grant(Some(AccessToken(a)))))), md);
  }

  /**
   * For a handler decorated only by `AccessPolicy(policy)`, the guard allows exactly the
   * requests with a token that lists the policy's resource and action and holds each of its
   * attributes.
   */
  lemma AccessPolicyEnforced(kauth: Option<Kauth>, policy: AbacPolicy)
    ensures var md := WithPolicy(map[], policy);
      CanActivate(kauth, md) == Allow <==>
        && TokenOf(kauth).Some?
        && (Truthy(policy.resource) ==> policy.resource.value in OrEmpty(TokenOf(kauth).value.content.allowedResources))
        && (Truthy(policy.action) ==> policy.action.value in OrEmpty(TokenOf(kauth).value.content.allowedActions))
        && (forall a :: a in OrEmpty(policy.attributes) ==> Holds(TokenOf(kauth).value.content.attributes, a))
  {
    var md := WithPolicy(map[], policy);
    assert GetText(md, RESOURCE_KEY) == (if Truthy(policy.resource) then policy.resource else None);
    assert GetText(md, ACTION_KEY) == (if Truthy(policy.action) then policy.action else None);
    assert GetList(md, ATTRIBUTES_KEY) == policy.attributes;
  }
}
