/**
  The JSON-Schema fragments the generator reads, and the failure-compatible
  wrappers used throughout the model.
 */
module Schemas {

  datatype Option<+T> = None | Some(value: T)

  /**
    The one way the generator fails: `getTypeFromSchema(undefined)` reads
    `$ref` of `undefined`, which happens when an `array` node has no `items`.
    In JavaScript this is a thrown TypeError that rejects the whole run.
   */
  datatype Failure = ItemsUndefined

  datatype Result<+T> = Ok(value: T) | Err(error: Failure) {
    predicate IsFailure() {
      Err?
    }

    function PropagateFailure<U>(): Result<U>
      requires Err?
    {
      Err(error)
    }

    function Extract(): T
      requires Ok?
    {
      value
    }
  }

  /**
    A schema node. Every field the generator looks at is optional, as in the
    JSON object: `ref` is `$ref`, `typ` is `type`, `properties` keeps the
    entries in `Object.entries` order and `required` is the `required` array
    (a missing array behaves as the empty one).
   */
  datatype Schema = Schema(
    ref: Option<string>,
    typ: Option<string>,
    items: Option<Schema>,
    properties: Properties,
    required: seq<string>)

  /** `properties`: absent, or the entries of the object in `Object.entries` order. */
  datatype Properties = NoProps | Props(entries: seq<(string, Schema)>)

  /** `schema.$ref` is truthy: present and not the empty string. */
  predicate HasRef(s: Schema) {
    s.ref.Some? && s.ref.value != ""
  }

  /** `schema.type === t`. */
  predicate TypeIs(s: Schema, t: string) {
    s.typ == Some(t)
  }

  /** `props[key]`: the first entry with that name (JSON object keys are distinct). */
  function Lookup(props: seq<(string, Schema)>, key: string): (r: Option<Schema>)
    ensures r.Some? <==> exists i :: 0 <= i < |props| && props[i].0 == key
    ensures r.Some? ==> exists i :: 0 <= i < |props| && props[i] == (key, r.value)
  {
    if |props| == 0 then None
    else if props[0].0 == key then Some(props[0].1)
    else
      var r := Lookup(props[1..], key);
      assert r.Some? ==> exists i :: 0 <= i < |props[1..]| && props[1..][i] == (key, r.value);
      r
  }

  /** `schema.properties?.[key]` is truthy. */
  predicate HasProperty(s: Schema, key: string) {
    s.properties.Props? && Lookup(s.properties.entries, key).Some?
  }

  // Constructors for the common shapes, used by the lemmas and examples.

  function Prim(t: string): Schema {
    Schema(None, Some(t), None, NoProps, [])
  }

  function RefTo(pointer: string): Schema {
    Schema(Some(pointer), None, None, NoProps, [])
  }

  function ArrayOf(items: Schema): Schema {
    Schema(None, Some("array"), Some(items), NoProps, [])
  }

  function Object(props: seq<(string, Schema)>, required: seq<string>): Schema {
    Schema(None, Some("object"), None, Props(props), required)
  }
}
