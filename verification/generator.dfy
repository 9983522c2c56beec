/**
  `convertOpenApiToTypeScript`: walks every (path, method) operation of the
  document, in key order, once for the declarations, once for the calls and
  once for the export list.
 */
module Generator {
  import opened Text
  import opened Schemas
  import opened Naming
  import opened Declarations
  import opened Operations

  /** One entry of `paths`: the path template and its methods in key order. */
  datatype PathItem = PathItem(path: string, operations: seq<(string, Operation)>)

  /** `paths`, in `Object.keys` order. */
  type Document = seq<PathItem>

  /** One (path, method) pair of the nested `forEach` loops. */
  datatype Endpoint = Endpoint(path: string, verb: string, op: Operation)

  /** Every method key is one the name table knows. */
  predicate AllRecognised(doc: Document) {
    forall i, j :: 0 <= i < |doc| && 0 <= j < |doc[i].operations| ==>
      Recognised(doc[i].operations[j].0)
  }

  predicate EndpointsRecognised(eps: seq<Endpoint>) {
    forall k :: 0 <= k < |eps| ==> Recognised(eps[k].verb)
  }

  function PathEndpoints(item: PathItem): (eps: seq<Endpoint>)
    ensures |eps| == |item.operations|
    ensures forall j :: 0 <= j < |eps| ==>
      eps[j] == Endpoint(item.path, item.operations[j].0, item.operations[j].1)
  {
    seq(|item.operations|, j requires 0 <= j < |item.operations| =>
      Endpoint(item.path, item.operations[j].0, item.operations[j].1))
  }

  /** The iteration order of the nested loops: paths first, then methods within a path. */
  function Endpoints(doc: Document): seq<Endpoint>
  {
    if |doc| == 0 then [] else PathEndpoints(doc[0]) + Endpoints(doc[1..])
  }

  lemma {:induction false} EndpointsRecognisedFromDoc(doc: Document)
    requires AllRecognised(doc)
    ensures EndpointsRecognised(Endpoints(doc))
  {
    if |doc| > 0 {
      assert AllRecognised(doc[1..]) by {
        forall i, j | 0 <= i < |doc[1..]| && 0 <= j < |doc[1..][i].operations|
          ensures Recognised(doc[1..][i].operations[j].0)
        {
          assert doc[1..][i] == doc[i + 1];
        }
      }
      EndpointsRecognisedFromDoc(doc[1..]);
      var head := PathEndpoints(doc[0]);
      var eps := Endpoints(doc);
      forall k | 0 <= k < |eps| ensures Recognised(eps[k].verb) {
        if k < |head| {
          assert eps[k] == head[k];
        } else {
          assert eps[k] == Endpoints(doc[1..])[k - |head|];
        }
      }
    }
  }

  /** The first loop: every declaration, in emission order. */
  function AllDecls(eps: seq<Endpoint>): seq<Decl>
    requires EndpointsRecognised(eps)
  {
    if |eps| == 0 then []
    else OperationDecls(eps[0].path, eps[0].verb, eps[0].op) + AllDecls(eps[1..])
  }

  /** The second loop: one call per endpoint, in the same order. */
  function AllMethods(eps: seq<Endpoint>): (ms: seq<ApiMethod>)
    requires EndpointsRecognised(eps)
    ensures |ms| == |eps|
  {
    seq(|eps|, k requires 0 <= k < |eps| => ApiMethodOf(eps[k].path, eps[k].verb, eps[k].op))
  }

  /** The second loop with the type argument list corrected. */
  function AllMethodsCorrected(eps: seq<Endpoint>): (ms: seq<ApiMethod>)
    requires EndpointsRecognised(eps)
    ensures |ms| == |eps|
    ensures forall k :: 0 <= k < |eps| ==>
      && ms[k].typeArguments != "<>"
      && ms[k].(typeArguments := "") == AllMethods(eps)[k].(typeArguments := "")
  {
    seq(|eps|, k requires 0 <= k < |eps| => ApiMethodOfCorrected(eps[k].path, eps[k].verb, eps[k].op))
  }

  /** The third loop: the names to export, before `BaseResponse` is appended. */
  function AllExportNames(eps: seq<Endpoint>): seq<string>
    requires EndpointsRecognised(eps)
  {
    if |eps| == 0 then []
    else OperationExportNames(eps[0].path, eps[0].verb, eps[0].op) + AllExportNames(eps[1..])
  }

  /** The declarations' text, failing at the first one that fails. */
  function RenderAll(ds: seq<Decl>): (r: Result<string>)
    ensures r.Ok? <==> forall k :: 0 <= k < |ds| ==> InterfaceDecl(ds[k].name, ds[k].schema).Ok?
  {
    if |ds| == 0 then Ok("")
    else
      var first :- InterfaceDecl(ds[0].name, ds[0].schema);
      var rest :- RenderAll(ds[1..]);
      assert forall k :: 1 <= k < |ds| ==> ds[k] == ds[1..][k - 1];
      Ok(first + rest)
  }

  /** The rendered text is the declarations' texts concatenated in order. */
  lemma {:induction false} RenderAllConcat(ds: seq<Decl>)
    requires RenderAll(ds).Ok?
    ensures forall k :: 0 <= k < |ds| ==> InterfaceDecl(ds[k].name, ds[k].schema).Ok?
    ensures RenderAll(ds).value == Concat(seq(|ds|, k requires 0 <= k < |ds| && InterfaceDecl(ds[k].name, ds[k].schema).Ok? =>
      InterfaceDecl(ds[k].name, ds[k].schema).value))
  {
    if |ds| > 0 {
      RenderAllConcat(ds[1..]);
      var texts := seq(|ds|, k requires 0 <= k < |ds| && InterfaceDecl(ds[k].name, ds[k].schema).Ok? =>
        InterfaceDecl(ds[k].name, ds[k].schema).value);
      var rest := ds[1..];
      var restTexts := seq(|rest|, k requires 0 <= k < |rest| && InterfaceDecl(rest[k].name, rest[k].schema).Ok? =>
        InterfaceDecl(rest[k].name, rest[k].schema).value);
      assert texts[1..] == restTexts;
    }
  }

  /**
    What the generator produces besides fixed text: the declarations after the
    `BaseResponse` interface, the calls, and the export list.
   */
  datatype Output = Output(declarations: string, methods: seq<ApiMethod>, exports: seq<string>)

  function Generate(doc: Document): Result<Output>
    requires AllRecognised(doc)
  {
    var eps := Endpoints(doc);
    EndpointsRecognisedFromDoc(doc);
    var text :- RenderAll(AllDecls(eps));
    Ok(Output(text, AllMethods(eps), AllExportNames(eps) + ["BaseResponse"]))
  }

  /** The export list is the declared names, in declaration order, then `BaseResponse`. */
  lemma {:induction false} ExportsAreDeclaredNames(eps: seq<Endpoint>)
    requires EndpointsRecognised(eps)
    ensures AllExportNames(eps) == DeclNames(AllDecls(eps))
  {
    if |eps| > 0 {
      ExportsAreDeclaredNames(eps[1..]);
      var e := eps[0];
      DeclNamesAppend(OperationDecls(e.path, e.verb, e.op), AllDecls(eps[1..]));
    }
  }

  lemma DeclNamesAppend(xs: seq<Decl>, ys: seq<Decl>)
    ensures DeclNames(xs + ys) == DeclNames(xs) + DeclNames(ys)
  {
  }

  /** Whatever one endpoint exports, the whole list exports. */
  lemma {:induction false} EndpointExportsIncluded(eps: seq<Endpoint>, k: nat)
    requires EndpointsRecognised(eps) && k < |eps|
    ensures forall n | n in OperationExportNames(eps[k].path, eps[k].verb, eps[k].op) ::
      n in AllExportNames(eps)
  {
    var e := eps[0];
    var head := OperationExportNames(e.path, e.verb, e.op);
    var rest := AllExportNames(eps[1..]);
    assert AllExportNames(eps) == head + rest;
    if k > 0 {
      EndpointExportsIncluded(eps[1..], k - 1);
      assert eps[1..][k - 1] == eps[k];
    }
  }

  /**
    Every type a generated call mentions is exported: its parameter type
    always, its return type unless it is empty or the literal `string`.
   */
  lemma MethodTypesExported(doc: Document)
    requires AllRecognised(doc) && Generate(doc).Ok?
    ensures var out := Generate(doc).value;
      forall m | m in out.methods ::
        && (m.param.Some? ==> m.param.value.typeName in out.exports)
        && (m.returnType in out.exports || m.returnType == "" || m.returnType == "string")
  {
    var eps := Endpoints(doc);
    EndpointsRecognisedFromDoc(doc);
    var out := Generate(doc).value;
    forall m | m in out.methods
      ensures m.param.Some? ==> m.param.value.typeName in out.exports
      ensures m.returnType in out.exports || m.returnType == "" || m.returnType == "string"
    {
      var k :| 0 <= k < |out.methods| && out.methods[k] == m;
      var e := eps[k];
      EndpointExportsIncluded(eps, k);
      ParamChoice(e.path, e.verb, e.op);
      ReturnTypeChoice(e.path, e.verb, e.op);
    }
  }

  /** Generation fails exactly when some declaration's type mapping throws. */
  lemma GenerateFailsIff(doc: Document)
    requires AllRecognised(doc)
    ensures EndpointsRecognised(Endpoints(doc))
    ensures var ds := AllDecls(Endpoints(doc));
      Generate(doc).Err? <==> exists k :: 0 <= k < |ds| && InterfaceDecl(ds[k].name, ds[k].schema).Err?
  {
    EndpointsRecognisedFromDoc(doc);
    var ds := AllDecls(Endpoints(doc));
    var r := RenderAll(ds);
    assert Generate(doc).Err? <==> r.Err?;
    if r.Err? {
      var k :| 0 <= k < |ds| && !InterfaceDecl(ds[k].name, ds[k].schema).Ok?;
    }
  }

  /**
    The output lists one call per endpoint, in path-then-method order, and
    ends its export list with `BaseResponse`.
   */
  lemma OutputShape(doc: Document)
    requires AllRecognised(doc) && Generate(doc).Ok?
    ensures EndpointsRecognised(Endpoints(doc))
    ensures var out := Generate(doc).value; var eps := Endpoints(doc);
      && |out.methods| == |eps|
      && (forall k :: 0 <= k < |eps| ==> out.methods[k].name == FunctionName(eps[k].path, eps[k].verb))
      && |out.exports| == |AllDecls(eps)| + 1
      && out.exports[|out.exports| - 1] == "BaseResponse"
  {
    EndpointsRecognisedFromDoc(doc);
    ExportsAreDeclaredNames(Endpoints(doc));
  }
}
