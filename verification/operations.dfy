/**
  Per-operation decisions: which response is the success response, whether
  it is an enveloped `{ success, code, data }` response, which interfaces an
  operation declares and exports, and the signature of its generated call.
 */
module Operations {
  import opened Text
  import opened Schemas
  import opened Naming

  /** A response object; `json` is `content['application/json'].schema`. */
  datatype Response = Response(json: Option<Schema>)

  /**
    An operation: `request` is `requestBody.content['application/json'].schema`,
    `responses` maps status-code strings to response objects (a missing
    `responses` behaves as the empty map).
   */
  datatype Operation = Operation(request: Option<Schema>, responses: map<string, Response>)

  /** A generated interface: its derived name and the schema rendered under it. */
  datatype Decl = Decl(name: string, schema: Schema)

  /** Where the `params` argument goes in the generated request: `params` or `data`. */
  datatype Slot = QuerySlot | BodySlot

  datatype Param = Param(typeName: string, slot: Slot)

  /**
    The signature of one generated call: its name, its optional `params`
    argument, the return-type text, the upper-cased verb and the URL.
   */
  datatype ApiMethod = ApiMethod(
    name: string,
    param: Option<Param>,
    returnType: string,
    typeArguments: string,
    httpVerb: string,
    url: string)

  /** `responses['200'] || responses['201']`, then its JSON schema. */
  function SuccessSchema(op: Operation): Option<Schema>
  {
    if "200" in op.responses then op.responses["200"].json
    else if "201" in op.responses then op.responses["201"].json
    else None
  }

  /** `success`, `code` and `data` are all present among the properties. */
  predicate IsEnvelope(s: Schema) {
    HasProperty(s, "success") && HasProperty(s, "code") && HasProperty(s, "data")
  }

  /** `responseSchema.properties.data`: the schema of the envelope's `data` entry. */
  function EnvelopeData(s: Schema): (d: Schema)
    requires IsEnvelope(s)
    ensures exists i :: 0 <= i < |s.properties.entries| && s.properties.entries[i] == ("data", d)
  {
    Lookup(s.properties.entries, "data").value
  }

  /** The declaration loop of the generator for one operation, in emission order. */
  function OperationDecls(path: string, verb: string, op: Operation): (ds: seq<Decl>)
    requires Recognised(verb)
    ensures |ds| == (if op.request.Some? then 1 else 0) + (if SuccessSchema(op).Some? then 1 else 0)
    ensures forall i, j :: 0 <= i < j < |ds| ==> ds[i].name != ds[j].name
    ensures op.request.Some? ==> ds[0] == Decl(TypeName(path, "Request", verb), op.request.value)
  {
    SuffixesDistinguish(path, verb);
    var request :=
      if op.request.Some? then [Decl(TypeName(path, "Request", verb), op.request.value)] else [];
    var response :=
      match SuccessSchema(op)
      case None => []
      case Some(s) =>
        if IsEnvelope(s) then [Decl(TypeName(path, "ResponseData", verb), EnvelopeData(s))]
        else [Decl(TypeName(path, "Response", verb), s)];
    request + response
  }

  /** The export-list loop of the generator for one operation, written separately in the source. */
  function OperationExportNames(path: string, verb: string, op: Operation): (names: seq<string>)
    requires Recognised(verb)
    ensures names == DeclNames(OperationDecls(path, verb, op))
  {
    (if op.request.Some? then [TypeName(path, "Request", verb)] else [])
    + (if SuccessSchema(op).Some? then
         if IsEnvelope(SuccessSchema(op).value) then [TypeName(path, "ResponseData", verb)]
         else [TypeName(path, "Response", verb)]
       else [])
  }

  function DeclNames(ds: seq<Decl>): (names: seq<string>)
    ensures |names| == |ds|
    ensures forall i :: 0 <= i < |ds| ==> names[i] == ds[i].name
  {
    if |ds| == 0 then [] else [ds[0].name] + DeclNames(ds[1..])
  }

  /** The `returnType` of `generateApiMethod`. */
  function ReturnType(path: string, verb: string, op: Operation): string
    requires Recognised(verb)
  {
    match SuccessSchema(op)
    case None => ""
    case Some(s) =>
      if IsEnvelope(s) then TypeName(path, "ResponseData", verb)
      else if TypeIs(s, "string") then "string"
      else TypeName(path, "Response", verb)
  }

  /**
    The type argument of `axios.request<...>` as the source writes it; an
    empty return type gives the empty list `<>`.
   */
  function TypeArgumentsAsWritten(returnType: string): string
  {
    "<" + returnType + ">"
  }

  /**
    The type argument list as evidently intended: the same list for every
    non-empty return type, and no list at all (an untyped call) for the empty one.
   */
  function TypeArguments(returnType: string): (r: string)
    ensures r == "" <==> returnType == ""
    ensures returnType != "" ==> r == TypeArgumentsAsWritten(returnType)
  {
    if returnType == "" then "" else "<" + returnType + ">"
  }

  /** `get` and `delete` pass `params` in the query slot; every other method in the body. */
  function ParamSlot(verb: string): Slot
  {
    if ToLower(verb) in ["get", "delete"] then QuerySlot else BodySlot
  }

  /** The signature of the call `generateApiMethod` emits, as written. */
  function ApiMethodOf(path: string, verb: string, op: Operation): ApiMethod
    requires Recognised(verb)
  {
    var rt := ReturnType(path, verb, op);
    ApiMethod(
      FunctionName(path, verb),
      if op.request.Some? then Some(Param(TypeName(path, "Request", verb), ParamSlot(verb))) else None,
      rt,
      TypeArgumentsAsWritten(rt),
      ToUpper(verb),
      "/api" + path)
  }

  /** The same call with the type argument list corrected; every other part is unchanged. */
  function ApiMethodOfCorrected(path: string, verb: string, op: Operation): (m: ApiMethod)
    requires Recognised(verb)
    ensures m.(typeArguments := "") == ApiMethodOf(path, verb, op).(typeArguments := "")
    ensures m.typeArguments != "<>"
    ensures m.typeArguments == "" <==> SuccessSchema(op).None?
    ensures SuccessSchema(op).Some? ==> m == ApiMethodOf(path, verb, op)
  {
    var m := ApiMethodOf(path, verb, op);
    ReturnTypeChoice(path, verb, op);
    m.(typeArguments := TypeArguments(m.returnType))
  }

  /**
    The declaration loop and the call agree on the response type: a response
    is declared exactly when the call has a return type, and the call returns
    the declared name unless the schema is a raw string, which is declared all
    the same. An envelope declares the schema of its `data` entry.
   */
  lemma ResponseDeclMatchesReturnType(path: string, verb: string, op: Operation)
    requires Recognised(verb)
    ensures var ds := OperationDecls(path, verb, op);
      var rt := ReturnType(path, verb, op);
      var r := if op.request.Some? then 1 else 0;
      && r <= |ds|
      && (|ds| > r <==> rt != "")
      && (|ds| > r && rt != "string" ==> ds[r].name == rt)
      && (|ds| > r && rt == "string" ==>
            ds[r].name == TypeName(path, "Response", verb) && TypeIs(ds[r].schema, "string"))
      && (|ds| > r && !IsEnvelope(SuccessSchema(op).value) ==> ds[r].schema == SuccessSchema(op).value)
      && (|ds| > r && IsEnvelope(SuccessSchema(op).value) ==>
            exists i :: 0 <= i < |SuccessSchema(op).value.properties.entries|
              && SuccessSchema(op).value.properties.entries[i] == ("data", ds[r].schema))
  {
    var ds := OperationDecls(path, verb, op);
    var r := if op.request.Some? then 1 else 0;
    ReturnTypeChoice(path, verb, op);
    if SuccessSchema(op).Some? {
      var s := SuccessSchema(op).value;
      if IsEnvelope(s) {
        assert ds[r] == Decl(TypeName(path, "ResponseData", verb), EnvelopeData(s));
        assert Lookup(s.properties.entries, "data") == Some(ds[r].schema);
      }
    }
  }

  /**
    A `200` entry wins even when it has no JSON schema: a `201` schema is then
    never consulted and the operation has no response declaration.
   */
  lemma Status200Shadows201(path: string, verb: string, op: Operation)
    requires Recognised(verb)
    requires "200" in op.responses && op.responses["200"].json.None?
    ensures SuccessSchema(op).None?
    ensures ReturnType(path, verb, op) == ""
    ensures |OperationDecls(path, verb, op)| == (if op.request.Some? then 1 else 0)
  {
  }

  /**
    The return type is empty exactly without a success schema, the literal
    `string` exactly for a raw string schema outside an envelope, and
    otherwise the response name the operation declares.
   */
  lemma ReturnTypeChoice(path: string, verb: string, op: Operation)
    requires Recognised(verb)
    ensures var rt := ReturnType(path, verb, op); var ss := SuccessSchema(op);
      && (rt == "" <==> ss.None?)
      && (rt == "string" <==> ss.Some? && !IsEnvelope(ss.value) && TypeIs(ss.value, "string"))
      && (rt != "" && rt != "string" ==>
            rt in OperationExportNames(path, verb, op) && rt != TypeName(path, "Request", verb))
  {
    SuffixesDistinguish(path, verb);
    TypeNameInitial(path, "Response", verb);
    TypeNameInitial(path, "ResponseData", verb);
    var rt := ReturnType(path, verb, op);
    if SuccessSchema(op).Some? && rt != "string" {
      assert rt != "";
    }
  }

  /**
    A `params` argument exists exactly when a JSON request schema exists; its
    type is the declared request name, and it goes in the query slot exactly
    for `get` and `delete` in any letter case.
   */
  lemma ParamChoice(path: string, verb: string, op: Operation)
    requires Recognised(verb)
    ensures var m := ApiMethodOf(path, verb, op);
      && (m.param.Some? <==> op.request.Some?)
      && (m.param.Some? ==>
            && m.param.value.typeName == OperationExportNames(path, verb, op)[0]
            && (m.param.value.slot == QuerySlot <==> ToLower(verb) == "get" || ToLower(verb) == "delete"))
  {
  }

  /** As written, an operation without a success schema types its call `axios.request<>`. */
  lemma EmptyTypeArgumentsAsWritten(path: string, verb: string, op: Operation)
    requires Recognised(verb)
    ensures ApiMethodOf(path, verb, op).typeArguments == "<>" <==> SuccessSchema(op).None?
  {
    ReturnTypeChoice(path, verb, op);
    var rt := ReturnType(path, verb, op);
    if rt != "" {
      assert |TypeArgumentsAsWritten(rt)| > 2;
    }
  }
}
