/** Route-handler metadata as `SetMetadata` writes it and `Reflector.get` reads it. */
module Metadata {
  import opened Wrappers

  datatype MetaValue = Text(text: string) | List(items: seq<string>)

  type Metadata = map<string, MetaValue>

  /** The decorator `SetMetadata(key, value)` returns. */
  datatype Decorator = SetMetadata(key: string, value: MetaValue)

  /** Applying a decorator writes its value under its key and leaves every other key alone. */
  function Apply(md: Metadata, d: Decorator): (r: Metadata)
    ensures d.key in r && r[d.key] == d.value
    ensures forall k :: k != d.key ==> (k in r <==> k in md) && (k in md ==> r[k] == md[k])
  {
    md[d.key := d.value]
  }

  /** `reflector.get<string>(key)`. */
  function GetText(md: Metadata, key: string): Option<string>
  {
    if key in md && md[key].Text? then Some(md[key].text) else None
  }

  /** `reflector.get<string[]>(key)`. */
  function GetList(md: Metadata, key: string): Option<seq<string>>
  {
    if key in md && md[key].List? then Some(md[key].items) else None
  }

  /** A route handler carrying metadata. */
  class Handler {
    var metadata: Metadata

    constructor ()
      ensures metadata == map[]
    {
      metadata := map[];
    }

    /** Apply decorator `d` to this handler. */
    method Decorate(d: Decorator)
      modifies this
      ensures metadata == Apply(old(metadata), d)
    {
      metadata := metadata[d.key := d.value];
    }
  }
}
