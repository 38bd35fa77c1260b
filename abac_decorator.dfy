/** The attribute-based access-control decorators (src/decorators/abac.decorator.ts). */
module AbacDecorator {
  import opened Wrappers
  import opened Metadata

  const RESOURCE_KEY := "abac_resource"
  const ACTION_KEY := "abac_action"
  const ATTRIBUTES_KEY := "abac_attributes"

  /** The three keys are different strings, so no decorator overwrites another's entry. */
  lemma KeysDistinct()
    ensures RESOURCE_KEY != ACTION_KEY && RESOURCE_KEY != ATTRIBUTES_KEY && ACTION_KEY != ATTRIBUTES_KEY
  {
  }

  /** `Resource(resource)`. */
  function Resource(resource: string): (d: Decorator)
    ensures d.key == RESOURCE_KEY && d.value == Text(resource)
  {
    SetMetadata(RESOURCE_KEY, Text(resource))
  }

  /** `Action(action)`. */
  function Action(action: string): (d: Decorator)
    ensures d.key == ACTION_KEY && d.value == Text(action)
  {
    SetMetadata(ACTION_KEY, Text(action))
  }

  /** `Attributes(attributes)`. */
  function Attributes(attributes: seq<string>): (d: Decorator)
    ensures d.key == ATTRIBUTES_KEY && d.value == List(attributes)
  {
    SetMetadata(ATTRIBUTES_KEY, List(attributes))
  }

  /** `ABACPolicy`: every field optional. */
  datatype AbacPolicy = AbacPolicy(resource: Option<string>, action: Option<string>, attributes: Option<seq<string>>)

  /** A JavaScript string that is truthy: present and not empty. */
  predicate Truthy(s: Option<string>)
  {
    s.Some? && s.value != ""
  }

  /**
   * The metadata after the decorator `AccessPolicy(policy)` returns is applied to a handler
   * carrying `md`: resource and action are written only when they are non-empty strings, the
   * attribute list whenever it is present (even empty), and nothing else changes.
   */
  function WithPolicy(md: Metadata, policy: AbacPolicy): (r: Metadata)
    ensures forall k :: k != RESOURCE_KEY && k != ACTION_KEY && k != ATTRIBUTES_KEY ==>
      (k in r <==> k in md) && (k in md ==> r[k] == md[k])
    ensures Truthy(policy.resource) ==> RESOURCE_KEY in r && r[RESOURCE_KEY] == Text(policy.resource.value)
    ensures !Truthy(policy.resource) ==> (RESOURCE_KEY in r <==> RESOURCE_KEY in md) && (RESOURCE_KEY in md ==> r[RESOURCE_KEY] == md[RESOURCE_KEY])
    ensures Truthy(policy.action) ==> ACTION_KEY in r && r[ACTION_KEY] == Text(policy.action.value)
    ensures !Truthy(policy.action) ==> (ACTION_KEY in r <==> ACTION_KEY in md) && (ACTION_KEY in md ==> r[ACTION_KEY] == md[ACTION_KEY])
    ensures policy.attributes.Some? ==> ATTRIBUTES_KEY in r && r[ATTRIBUTES_KEY] == List(policy.attributes.value)
    ensures policy.attributes.None? ==> (ATTRIBUTES_KEY in r <==> ATTRIBUTES_KEY in md) && (ATTRIBUTES_KEY in md ==> r[ATTRIBUTES_KEY] == md[ATTRIBUTES_KEY])
    ensures policy == AbacPolicy(None, None, None) ==> r == md
  {
    var withResource := if Truthy(policy.resource) then Apply(md, Resource(policy.resource.value)) else md;
    var withAction := if Truthy(policy.action) then Apply(withResource, Action(policy.action.value)) else withResource;
    if policy.attributes.Some? then Apply(withAction, Attributes(policy.attributes.value)) else withAction
  }

  /** Apply the decorator `AccessPolicy(policy)` returns to `handler`. */
  method AccessPolicy(policy: AbacPolicy, handler: Handler)
    modifies handler
    ensures handler.metadata == WithPolicy(old(handler.metadata), policy)
  {
    if Truthy(policy.resource) {
      handler.Decorate(Resource(policy.resource.value));
    }
    if Truthy(policy.action) {
      handler.Decorate(Action(policy.action.value));
    }
    if policy.attributes.Some? {
      handler.Decorate(Attributes(policy.attributes.value));
    }
  }
}
