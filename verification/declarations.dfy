/**
  `generateTypeDefinition`: a top-level `interface` declaration rendered from
  a schema. Unlike the type mapper it never looks at `$ref`.
 */
module Declarations {
  import opened Text
  import opened Schemas
  import opened TypeMapper

  /** One member line of an interface body. */
  function MemberLine(field: string): string
  {
    "  " + field + ";\n"
  }

  function MemberLines(fields: seq<string>): (r: seq<string>)
    ensures |r| == |fields|
  {
    if |fields| == 0 then [] else [MemberLine(fields[0])] + MemberLines(fields[1..])
  }

  /** The member lines for the entries from `i` on, in entry order. */
  function PropertyLines(s: Schema, i: nat): (r: Result<string>)
    requires s.properties.Props? && i <= |s.properties.entries|
    ensures r.Err? <==> exists k :: i <= k < |s.properties.entries| && TypeOf(s.properties.entries[k].1).Err?
    decreases |s.properties.entries| - i
  {
    var props := s.properties.entries;
    if i == |props| then Ok("")
    else
      var t :- TypeOf(props[i].1);
      var rest :- PropertyLines(s, i + 1);
      Ok(MemberLine(Field(props[i].0, s.required, t)) + rest)
  }

  /**
    The text between the braces. It fails exactly when a type it maps fails:
    a property's type for an object, the item type for an array, and the node's
    own type for any other typed node; an untyped node never fails.
   */
  function InterfaceBody(s: Schema): (r: Result<string>)
    ensures TypeIs(s, "object") && s.properties.Props? ==>
      (r.Err? <==> exists k :: 0 <= k < |s.properties.entries| && TypeOf(s.properties.entries[k].1).Err?)
    ensures TypeIs(s, "array") && s.items.Some? ==> (r.Err? <==> TypeOf(s.items.value).Err?)
    ensures s.typ.None? ==> r == Ok("")
    ensures ItemsEverywhere(s) ==> r.Ok?
  {
    if TypeIs(s, "object") && s.properties.Props? then PropertyLines(s, 0)
    else if TypeIs(s, "array") && s.items.Some? then
      var t :- TypeOf(s.items.value);
      Ok("  [index: number]: " + t + ";\n")
    else if s.typ.Some? && s.typ.value != "" then
      var t :- TypeOf(s);
      Ok("  [key: string]: " + t + ";\n")
    else Ok("")
  }

  /** `interface <name> {` ... `}` followed by a blank line. */
  function InterfaceDecl(name: string, s: Schema): (r: Result<string>)
    ensures r.Ok? <==> InterfaceBody(s).Ok?
    ensures r.Ok? ==>
      && |r.value| >= |"interface " + name + " {\n"| + 3
      && r.value[..|"interface " + name + " {\n"|] == "interface " + name + " {\n"
      && r.value[|r.value| - 3..] == "}\n\n"
  {
    var body :- InterfaceBody(s);
    var text := "interface " + name + " {\n" + body + "}\n\n";
    assert text[..|"interface " + name + " {\n"|] == "interface " + name + " {\n";
    Ok(text)
  }

  /** The declaration text is the rendered body between the opening line and the closing brace. */
  lemma InterfaceDeclText(name: string, s: Schema, body: string)
    requires InterfaceBody(s) == Ok(body)
    ensures InterfaceDecl(name, s) == Ok("interface " + name + " {\n" + body + "}\n\n")
  {
  }

  lemma {:induction false} PropertyLinesAreFields(s: Schema, i: nat)
    requires s.properties.Props? && i <= |s.properties.entries|
    requires forall p | p in s.properties.entries :: TypeOf(p.1).Ok?
    ensures PropertyLines(s, i) == Ok(Concat(MemberLines(Fields(s)[i..])))
    decreases |s.properties.entries| - i
  {
    var props := s.properties.entries;
    if i < |props| {
      PropertyLinesAreFields(s, i + 1);
      var fs := Fields(s);
      assert props[i] in props;
      assert fs[i..][1..] == fs[i + 1..];
    } else {
      assert Fields(s)[i..] == [];
    }
  }

  /**
    The interface renderer and the inline-object renderer agree: for an object
    with properties both emit the same fields, in entry order, with `?` on the
    same names; one as `;`-terminated lines, the other joined by `, `.
   */
  lemma RenderersAgree(s: Schema)
    requires !HasRef(s) && TypeIs(s, "object") && s.properties.Props?
    requires forall p | p in s.properties.entries :: TypeOf(p.1).Ok?
    ensures InterfaceBody(s) == Ok(Concat(MemberLines(Fields(s))))
    ensures TypeOf(s) == Ok("{ " + Join(Fields(s), ", ") + " }")
  {
    PropertyLinesAreFields(s, 0);
    assert Fields(s)[0..] == Fields(s);
    InlineObjectShape(s);
  }

  /** An array declares an index signature whose type is the array type without its `[]`. */
  lemma ArrayIndexSignature(s: Schema)
    requires !HasRef(s) && TypeIs(s, "array") && s.items.Some? && TypeOf(s).Ok?
    ensures exists t ::
      && TypeOf(s) == Ok(t + "[]")
      && InterfaceBody(s) == Ok("  [index: number]: " + t + ";\n")
  {
    var t := TypeOf(s.items.value).value;
    assert TypeOf(s) == Ok(t + "[]");
  }

  /** Any other typed node declares a string index signature of its own mapped type. */
  lemma KeySignature(s: Schema)
    requires s.typ.Some? && s.typ.value != ""
    requires !(TypeIs(s, "object") && s.properties.Props?)
    requires !(TypeIs(s, "array") && s.items.Some?)
    ensures TypeOf(s).Ok? ==> InterfaceBody(s) == Ok("  [key: string]: " + TypeOf(s).value + ";\n")
    ensures TypeOf(s).Err? ==> InterfaceBody(s).Err?
  {
  }

  /**
    A node with a `$ref` and no `type` declares an empty interface: the
    referenced type is lost, because the renderer never reads `$ref`.
   */
  lemma RefOnlyDeclaresEmptyInterface(name: string, s: Schema)
    requires HasRef(s) && s.typ.None?
    ensures InterfaceDecl(name, s) == Ok("interface " + name + " {\n}\n\n")
  {
    assert "interface " + name + " {\n" + "" + "}\n\n" == "interface " + name + " {\n}\n\n";
  }
}
