/**
  `getTypeFromSchema`: a schema node to a TypeScript type expression.
 */
module TypeMapper {
  import opened Text
  import opened Schemas

  /** One inline-object or interface member: `name`, `?` unless required, `: `, type. */
  function Field(name: string, required: seq<string>, t: string): string
  {
    name + (if name in required then "" else "?") + ": " + t
  }

  /** The type expression of a schema; `Err` where JavaScript throws. */
  function TypeOf(s: Schema): (r: Result<string>)
    ensures HasRef(s) ==> r.Ok? && '/' !in r.value
    ensures r.Err? ==> !HasRef(s) && (TypeIs(s, "array") || (TypeIs(s, "object") && s.properties.Props?))
    ensures ItemsEverywhere(s) ==> r.Ok?
    decreases s, 1
  {
    if HasRef(s) then Ok(LastPart(s.ref.value, '/'))
    else if TypeIs(s, "string") then Ok("string")
    else if TypeIs(s, "number") || TypeIs(s, "integer") then Ok("number")
    else if TypeIs(s, "boolean") then Ok("boolean")
    else if TypeIs(s, "array") then
      match s.items
      case None => Err(ItemsUndefined)
      case Some(items) =>
        var t :- TypeOf(items);
        Ok(t + "[]")
    else if TypeIs(s, "object") then
      if s.properties.Props? then
        var fields :- InlineFields(s, 0);
        Ok("{ " + fields + " }")
      else Ok("object")
    else Ok("any")
  }

  /**
    The inline fields from entry `i` on, each followed by `, ` unless it is
    the last entry, as the source's `forEach` with its index test writes them.
   */
  function InlineFields(s: Schema, i: nat): (r: Result<string>)
    requires s.properties.Props? && i <= |s.properties.entries|
    ensures r.Err? ==> exists k :: i <= k < |s.properties.entries| && TypeOf(s.properties.entries[k].1).Err?
    ensures ItemsEverywhere(s) ==> r.Ok?
    decreases s, 0, |s.properties.entries| - i
  {
    var props := s.properties.entries;
    if i == |props| then Ok("")
    else
      assert props[i] in props;
      var t :- TypeOf(props[i].1);
      var rest :- InlineFields(s, i + 1);
      Ok(Field(props[i].0, s.required, t) + (if i < |props| - 1 then ", " else "") + rest)
  }

  /** Every `array` node anywhere in the tree carries `items`. */
  predicate ItemsEverywhere(s: Schema)
    decreases s
  {
    && (TypeIs(s, "array") ==> s.items.Some?)
    && (s.items.Some? ==> ItemsEverywhere(s.items.value))
    && (s.properties.Props? ==>
          forall p | p in s.properties.entries :: ItemsEverywhere(p.1))
  }

  /** The fields of an object whose property types all map, in entry order. */
  function Fields(s: Schema): (fs: seq<string>)
    requires s.properties.Props?
    requires forall p | p in s.properties.entries :: TypeOf(p.1).Ok?
    ensures |fs| == |s.properties.entries|
  {
    var props := s.properties.entries;
    seq(|props|, i requires 0 <= i < |props| =>
      assert props[i] in props;
      Field(props[i].0, s.required, TypeOf(props[i].1).value))
  }

  /** A `$ref` decides the type, whatever else the node holds. */
  lemma RefDecides(s: Schema, t: Schema)
    requires HasRef(s) && t.ref == s.ref
    ensures TypeOf(s) == TypeOf(t)
    ensures TypeOf(s).Ok?
  {
  }

  /**
    A `$ref` maps to the text after its last `/`: the result holds no `/`,
    ends the pointer, and is the whole pointer or follows a `/`.
   */
  lemma RefIsLastSegment(s: Schema)
    requires HasRef(s)
    ensures TypeOf(s).Ok?
    ensures var r := TypeOf(s).value; var p := s.ref.value;
      && '/' !in r
      && |r| <= |p|
      && p[|p| - |r|..] == r
      && (|r| == |p| || p[|p| - |r| - 1] == '/')
  {
    LastPartIsSuffixAfterLastSeparator(s.ref.value, '/');
  }

  /**
    A pointer such as `#/components/schemas/User` maps to the name after its
    last `/`, whatever path precedes it.
   */
  lemma RefToName(prefix: string, name: string)
    requires '/' !in name
    ensures TypeOf(RefTo(prefix + "/" + name)) == Ok(name)
  {
    LastPartAfterSeparator(prefix, '/', name);
    assert prefix + "/" + name == prefix + ['/'] + name;
  }

  /** An empty `$ref` is falsy and the node is mapped by its `type`. */
  lemma EmptyRefIgnored(s: Schema)
    requires s.ref == Some("")
    ensures TypeOf(s) == TypeOf(s.(ref := None))
  {
    if TypeIs(s, "object") && s.properties.Props? {
      InlineFieldsSameEntries(s, s.(ref := None), 0);
    }
  }

  /** Inline fields depend only on the entries and the `required` list. */
  lemma {:induction false} InlineFieldsSameEntries(s: Schema, t: Schema, i: nat)
    requires s.properties.Props? && i <= |s.properties.entries|
    requires t.properties == s.properties && t.required == s.required
    ensures InlineFields(s, i) == InlineFields(t, i)
    decreases |s.properties.entries| - i
  {
    if i < |s.properties.entries| {
      InlineFieldsSameEntries(s, t, i + 1);
    }
  }

  /**
    Without a `$ref`, each primitive keyword, `object` without properties and
    the fallback `any` can be read back from the result: the mapping from
    keyword to result is one-to-one on these.
   */
  lemma {:induction false} KeywordResults(s: Schema)
    requires !HasRef(s) && TypeOf(s).Ok?
    ensures var r := TypeOf(s).value;
      && (r == "string" <==> TypeIs(s, "string"))
      && (r == "number" <==> TypeIs(s, "number") || TypeIs(s, "integer"))
      && (r == "boolean" <==> TypeIs(s, "boolean"))
      && (r == "object" <==> TypeIs(s, "object") && s.properties.NoProps?)
      && (r == "any" <==> !IsKnownType(s))
  {
    var r := TypeOf(s).value;
    if TypeIs(s, "array") {
      var t := TypeOf(s.items.value).value;
      assert r == t + "[]";
      assert r[|r| - 1] == ']';
    } else if TypeIs(s, "object") && s.properties.Props? {
      var fields := InlineFields(s, 0).value;
      assert r == "{ " + fields + " }";
      assert r[0] == '{';
    }
  }

  /** `type` is one of the six keywords the `switch` names. */
  predicate IsKnownType(s: Schema) {
    s.typ.Some? && s.typ.value in {"string", "number", "integer", "boolean", "array", "object"}
  }

  /** A missing or unknown `type` is never an error: it maps to `any`. */
  lemma UnknownTypeIsAny(s: Schema)
    requires !HasRef(s) && !IsKnownType(s)
    ensures TypeOf(s) == Ok("any")
  {
  }

  /** `n` nested arrays around `base`. */
  function NestedArray(n: nat, base: Schema): Schema
  {
    if n == 0 then base else ArrayOf(NestedArray(n - 1, base))
  }

  function Brackets(n: nat): (r: string)
    ensures |r| == 2 * n
  {
    if n == 0 then "" else Brackets(n - 1) + "[]"
  }

  /** Arrays compose at any depth: the item type followed by one `[]` per level. */
  lemma {:induction false} NestedArrayType(n: nat, base: Schema)
    ensures TypeOf(NestedArray(n, base)).Ok? <==> TypeOf(base).Ok?
    ensures TypeOf(base).Ok? ==>
      TypeOf(NestedArray(n, base)) == Ok(TypeOf(base).value + Brackets(n))
  {
    if n > 0 {
      NestedArrayType(n - 1, base);
      var inner := NestedArray(n - 1, base);
      assert NestedArray(n, base) == ArrayOf(inner);
      assert !HasRef(ArrayOf(inner)) && TypeIs(ArrayOf(inner), "array");
      if TypeOf(base).Ok? {
        assert TypeOf(ArrayOf(inner)) == Ok(TypeOf(inner).value + "[]");
        assert TypeOf(base).value + Brackets(n - 1) + "[]" == TypeOf(base).value + Brackets(n);
      }
    } else if TypeOf(base).Ok? {
      assert TypeOf(base).value + Brackets(0) == TypeOf(base).value;
    }
  }

  /** An `array` node without `items` is where the source throws. */
  lemma ArrayWithoutItemsFails(s: Schema)
    requires !HasRef(s) && TypeIs(s, "array") && s.items.None?
    ensures TypeOf(s) == Err(ItemsUndefined)
  {
  }

  /**
    An object with properties renders as `{ ` + its fields joined by `, ` +
    ` }`; with no properties at all that is `{  }`.
   */
  lemma InlineObjectShape(s: Schema)
    requires !HasRef(s) && TypeIs(s, "object") && s.properties.Props?
    requires forall p | p in s.properties.entries :: TypeOf(p.1).Ok?
    ensures TypeOf(s) == Ok("{ " + Join(Fields(s), ", ") + " }")
  {
    InlineFieldsJoin(s, 0);
    assert Fields(s)[0..] == Fields(s);
  }

  lemma {:induction false} InlineFieldsJoin(s: Schema, i: nat)
    requires s.properties.Props? && i <= |s.properties.entries|
    requires forall p | p in s.properties.entries :: TypeOf(p.1).Ok?
    ensures InlineFields(s, i) == Ok(Join(Fields(s)[i..], ", "))
    decreases |s.properties.entries| - i
  {
    var props := s.properties.entries;
    if i < |props| {
      InlineFieldsJoin(s, i + 1);
      var fs := Fields(s);
      assert props[i] in props;
      assert fs[i..][1..] == fs[i + 1..];
      if i == |props| - 1 {
        assert fs[i..] == [fs[i]];
        assert fs[i + 1..] == [];
        assert fs[i] + "" + "" == fs[i];
      } else {
        assert fs[i..] == [fs[i]] + fs[i + 1..];
        assert Join(fs[i..], ", ") == fs[i] + ", " + Join(fs[i + 1..], ", ");
      }
    }
  }

  /** A member is marked optional exactly when its name is not in `required`. */
  lemma FieldOptionalIff(name: string, required: seq<string>, t: string)
    ensures Field(name, required, t)[..|name|] == name
    ensures Field(name, required, t)[|name|] == '?' <==> name !in required
    ensures Field(name, required, t)[|Field(name, required, t)| - |t|..] == t
    ensures var q := if name in required then 0 else 1;
      && |Field(name, required, t)| == |name| + q + 2 + |t|
      && Field(name, required, t)[|name| + q..|name| + q + 2] == ": "
  {
  }
}
