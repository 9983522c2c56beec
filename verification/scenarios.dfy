/**
  Worked examples of whole operations. Paths and schemas are parameters fixed
  by `requires`, so that the solver reasons from the general lemmas instead
  of unfolding `split` on literal strings.
 */
module Scenarios {
  import opened Text
  import opened Schemas
  import opened Naming
  import opened TypeMapper
  import opened Declarations
  import opened Operations
  import opened Generator

  lemma SingleSegmentStem(path: string, seg: string)
    requires seg != "" && '/' !in seg && path == "/" + seg
    ensures Stem(path) == Capitalize(seg)
  {
    SegmentStem(seg);
    LeadingSlashIgnored(seg);
  }

  lemma PingStem(path: string)
    requires path == "/ping"
    ensures Stem(path) == "Ping"
  {
    var seg := "ping";
    SingleSegmentStem(path, seg);
    assert "/" + seg == path;
    assert Capitalize(seg) == "Ping" by {
      assert UpperChar('p') == 'P';
      assert seg[1..] == "ing";
    }
  }

  /**
    `GET /ping` answering a raw string: a call `getPing` without parameter
    typed `string`. The operation still declares `GetPingResponse`, because
    only an envelope changes what is declared (see `PingBody`).
   */
  lemma PingScenario(path: string, op: Operation)
    requires path == "/ping"
    requires op == Operation(None, map["200" := Response(Some(Prim("string")))])
    ensures ApiMethodOf(path, "get", op).name == "getPing"
    ensures ApiMethodOf(path, "get", op).param.None?
    ensures ApiMethodOf(path, "get", op).returnType == "string"
    ensures OperationDecls(path, "get", op) == [Decl("GetPingResponse", Prim("string"))]
  {
    PingNames(path);
    assert SuccessSchema(op) == Some(Prim("string"));
    assert !IsEnvelope(Prim("string"));
  }

  lemma PingNames(path: string)
    requires path == "/ping"
    ensures TypeName(path, "Response", "get") == "GetPingResponse"
    ensures FunctionName(path, "get") == "getPing"
  {
    PingStem(path);
    assert MethodToken(ToLower("get")) == Some("Get") by {
      assert ToLower("get") == "get";
    }
    assert TypeName(path, "Response", "get") == "Get" + "Ping" + "Response";
  }

  /**
    A raw string schema still declares an interface (`GetPingResponse`), with
    a string index signature of `string` as its only member.
   */
  lemma PingBody(s: Schema)
    requires s == Prim("string")
    ensures InterfaceBody(s) == Ok("  [key: string]: string;\n")
  {
    assert TypeOf(s) == Ok("string");
    assert "  [key: string]: " + "string" + ";\n" == "  [key: string]: string;\n";
  }

  /** A `{ success, code, data }` object is an envelope around its `data` schema. */
  lemma EnvelopeOfThree(s: Schema, a: Schema, b: Schema, d: Schema)
    requires s.properties == Props([("success", a), ("code", b), ("data", d)])
    ensures IsEnvelope(s) && EnvelopeData(s) == d
  {
    var entries := s.properties.entries;
    assert entries[0].0 == "success";
    assert entries[1].0 == "code";
    assert entries[2] == ("data", d);
    assert entries[1..][1..] == [("data", d)];
  }

  lemma ItemsStem(path: string)
    requires path == "/items"
    ensures Stem(path) == "Items"
  {
    var seg := "items";
    SingleSegmentStem(path, seg);
    assert "/" + seg == path;
    assert Capitalize(seg) == "Items" by {
      assert UpperChar('i') == 'I';
      assert seg[1..] == "tems";
    }
  }

  /** The names derived for `post` on `/items`. */
  lemma ItemsNames(path: string)
    requires path == "/items"
    ensures TypeName(path, "Request", "post") == "PostItemsRequest"
    ensures TypeName(path, "ResponseData", "post") == "PostItemsResponseData"
    ensures FunctionName(path, "post") == "postItems"
  {
    ItemsTypeName(path, "Request");
    ItemsTypeName(path, "ResponseData");
    ItemsFunctionName(path);
  }

  lemma ItemsFunctionName(path: string)
    requires path == "/items"
    ensures FunctionName(path, "post") == "postItems"
  {
    ItemsStem(path);
  }

  lemma ItemsTypeName(path: string, suffix: string)
    requires path == "/items"
    ensures TypeName(path, suffix, "post") == "PostItems" + suffix
  {
    ItemsStem(path);
    assert MethodToken(ToLower("post")) == Some("Post") by {
      assert ToLower("post") == "post";
    }
    assert TypeName(path, suffix, "post") == "Post" + "Items" + suffix;
  }

  /** The success response of `POST /items` is the envelope around `data`. */
  lemma ItemsSuccess(request: Schema, data: Schema, envelope: Schema, op: Operation)
    requires envelope.properties == Props([("success", Prim("boolean")), ("code", Prim("number")), ("data", data)])
    requires op == Operation(Some(request), map["200" := Response(Some(envelope))])
    ensures SuccessSchema(op) == Some(envelope) && IsEnvelope(envelope) && EnvelopeData(envelope) == data
  {
    EnvelopeOfThree(envelope, Prim("boolean"), Prim("number"), data);
    assert "200" in op.responses;
  }

  /**
    `POST /items` with a request schema and an enveloped response: the request
    schema is declared as `PostItemsRequest` and only the envelope's `data` as
    `PostItemsResponseData`. The two interfaces' text for a required `name`
    and an optional `id` is in `ItemsRequestInterface` and `ItemsDataInterface`.
   */
  lemma ItemsDecls(path: string, request: Schema, data: Schema, envelope: Schema, op: Operation)
    requires path == "/items"
    requires envelope.properties == Props([("success", Prim("boolean")), ("code", Prim("number")), ("data", data)])
    requires op == Operation(Some(request), map["200" := Response(Some(envelope))])
    ensures OperationDecls(path, "post", op)
      == [Decl("PostItemsRequest", request), Decl("PostItemsResponseData", data)]
  {
    ItemsNames(path);
    ItemsSuccess(request, data, envelope, op);
    assert ToLower("post") == "post";
  }

  /** `post` sends its `params` argument in the request body. */
  lemma PostUsesBody(verb: string)
    requires verb == "post"
    ensures ParamSlot(verb) == BodySlot
  {
    assert ToLower(verb) == "post";
  }

  /**
    The call for the same operation: `postItems(params)`, sending `params` in
    the request body.
   */
  lemma ItemsCall(path: string, request: Schema, data: Schema, envelope: Schema, op: Operation)
    requires path == "/items"
    requires envelope.properties == Props([("success", Prim("boolean")), ("code", Prim("number")), ("data", data)])
    requires op == Operation(Some(request), map["200" := Response(Some(envelope))])
    ensures ApiMethodOf(path, "post", op).name == "postItems"
    ensures ApiMethodOf(path, "post", op).param == Some(Param("PostItemsRequest", BodySlot))
  {
    ItemsNames(path);
    PostUsesBody("post");
  }

  lemma ItemsTypeArguments(rt: string)
    requires rt == "PostItemsResponseData"
    ensures TypeArgumentsAsWritten(rt) == "<PostItemsResponseData>"
  {
    assert TypeArgumentsAsWritten(rt) == "<" + rt + ">";
  }

  /** ... and returns `PostItemsResponseData`, typing `axios.request` with it. */
  lemma ItemsReturn(path: string, request: Schema, data: Schema, envelope: Schema, op: Operation)
    requires path == "/items"
    requires envelope.properties == Props([("success", Prim("boolean")), ("code", Prim("number")), ("data", data)])
    requires op == Operation(Some(request), map["200" := Response(Some(envelope))])
    ensures ApiMethodOf(path, "post", op).returnType == "PostItemsResponseData"
    ensures ApiMethodOf(path, "post", op).typeArguments == "<PostItemsResponseData>"
  {
    ItemsNames(path);
    ItemsSuccess(request, data, envelope, op);
    assert ReturnType(path, "post", op) == "PostItemsResponseData" by {
      assert ToLower("post") == "post";
    }
    ItemsTypeArguments("PostItemsResponseData");
  }

  /** An object with a single property declares a single member line. */
  lemma SinglePropertyBody(s: Schema, n: string, p: Schema)
    requires TypeIs(s, "object") && s.properties == Props([(n, p)]) && TypeOf(p).Ok?
    ensures InterfaceBody(s) == Ok(MemberLine(Field(n, s.required, TypeOf(p).value)))
  {
    assert PropertyLines(s, 1) == Ok("");
    assert MemberLine(Field(n, s.required, TypeOf(p).value)) + ""
      == MemberLine(Field(n, s.required, TypeOf(p).value));
  }

  /** An optional numeric member is rendered with `?`. */
  lemma ItemsDataBody(data: Schema)
    requires data == Object([("id", Prim("number"))], [])
    ensures InterfaceBody(data) == Ok("  id?: number;\n")
  {
    var id := Prim("number");
    assert TypeOf(id) == Ok("number");
    SinglePropertyBody(data, "id", id);
    var field := Field("id", data.required, "number");
    assert field == "id" + "?" + ": " + "number";
    assert field == "id?: number";
    assert MemberLine(field) == "  " + "id?: number" + ";\n";
    assert MemberLine(field) == "  id?: number;\n";
  }

  lemma ItemsDataText(name: string, body: string)
    requires name == "PostItemsResponseData" && body == "  id?: number;\n"
    ensures "interface " + name + " {\n" + body + "}\n\n"
      == "interface PostItemsResponseData {\n  id?: number;\n}\n\n"
  {
    var head := "interface " + name;
    assert head == "interface PostItemsResponseData";
    assert head + " {\n" == "interface PostItemsResponseData {\n";
    assert head + " {\n" + body == "interface PostItemsResponseData {\n  id?: number;\n";
  }

  lemma ItemsDataInterface(name: string, data: Schema)
    requires name == "PostItemsResponseData" && data == Object([("id", Prim("number"))], [])
    ensures InterfaceDecl(name, data) == Ok("interface PostItemsResponseData {\n  id?: number;\n}\n\n")
  {
    var body := "  id?: number;\n";
    ItemsDataBody(data);
    InterfaceDeclText(name, data, body);
    ItemsDataText(name, body);
  }

  /** A required string member is rendered without `?`. */
  lemma ItemsRequestBody(request: Schema)
    requires request == Object([("name", Prim("string"))], ["name"])
    ensures InterfaceBody(request) == Ok("  name: string;\n")
  {
    var p := Prim("string");
    assert TypeOf(p) == Ok("string");
    SinglePropertyBody(request, "name", p);
    var field := Field("name", request.required, "string");
    assert "name" in request.required;
    assert field == "name" + "" + ": " + "string";
    assert field == "name: string";
    assert MemberLine(field) == "  " + "name: string" + ";\n";
    assert MemberLine(field) == "  name: string;\n";
  }

  lemma ItemsRequestText(name: string, body: string)
    requires name == "PostItemsRequest" && body == "  name: string;\n"
    ensures "interface " + name + " {\n" + body + "}\n\n"
      == "interface PostItemsRequest {\n  name: string;\n}\n\n"
  {
    var head := "interface " + name;
    assert head == "interface PostItemsRequest";
    assert head + " {\n" == "interface PostItemsRequest {\n";
    assert head + " {\n" + body == "interface PostItemsRequest {\n  name: string;\n";
  }

  lemma ItemsRequestInterface(name: string, request: Schema)
    requires name == "PostItemsRequest" && request == Object([("name", Prim("string"))], ["name"])
    ensures InterfaceDecl(name, request) == Ok("interface PostItemsRequest {\n  name: string;\n}\n\n")
  {
    var body := "  name: string;\n";
    ItemsRequestBody(request);
    InterfaceDeclText(name, request, body);
    ItemsRequestText(name, body);
  }

  /** `/users` and `/Users` have the same stem. */
  lemma UsersStem(path: string)
    requires path == "/users" || path == "/Users"
    ensures Stem(path) == "Users"
  {
    if path == "/users" {
      var seg := "users";
      SingleSegmentStem(path, seg);
      assert "/" + seg == path;
      assert Capitalize(seg) == "Users" by {
        assert UpperChar('u') == 'U';
        assert seg[1..] == "sers";
      }
    } else {
      var seg := "Users";
      SingleSegmentStem(path, seg);
      assert "/" + seg == path;
      assert Capitalize(seg) == "Users" by {
        assert UpperChar('U') == 'U';
        assert seg[1..] == "sers";
      }
    }
  }

  /** `get` on a path with stem `Users`, answering a plain object, declares `GetUsersResponse`. */
  lemma UsersDecls(path: string, op: Operation)
    requires Stem(path) == "Users"
    requires op == Operation(None, map["200" := Response(Some(Prim("object")))])
    ensures Recognised("get")
    ensures OperationDecls(path, "get", op) == [Decl("GetUsersResponse", Prim("object"))]
    ensures OperationExportNames(path, "get", op) == ["GetUsersResponse"]
  {
    assert ToLower("get") == "get";
    assert "200" in op.responses;
    assert SuccessSchema(op) == Some(Prim("object"));
    assert !IsEnvelope(Prim("object"));
    assert TypeName(path, "Response", "get") == "GetUsersResponse";
  }

  /**
    Two paths differing only in the case of a segment's first letter derive
    the same names, and the export list then carries the name twice.
   */
  lemma ExportNamesMayRepeat(doc: Document, p1: string, p2: string, op: Operation)
    requires p1 == "/users" && p2 == "/Users"
    requires op == Operation(None, map["200" := Response(Some(Prim("object")))])
    requires doc == [PathItem(p1, [("get", op)]), PathItem(p2, [("get", op)])]
    ensures AllRecognised(doc)
    ensures Generate(doc).Ok?
    ensures Generate(doc).value.exports == ["GetUsersResponse", "GetUsersResponse", "BaseResponse"]
  {
    UsersStem(p1);
    UsersStem(p2);
    UsersDecls(p1, op);
    UsersDecls(p2, op);
    assert AllRecognised(doc);
    EndpointsRecognisedFromDoc(doc);
    var e1, e2 := Endpoint(p1, "get", op), Endpoint(p2, "get", op);
    var eps := Endpoints(doc);
    assert eps == [e1, e2] by {
      assert doc[1..] == [PathItem(p2, [("get", op)])];
      assert doc[1..][1..] == [];
      assert PathEndpoints(doc[0]) == [e1];
      assert PathEndpoints(doc[1]) == [e2];
      assert Endpoints(doc[1..]) == [e2] + [];
    }
    assert eps[1..] == [e2];
    assert eps[1..][1..] == [];
    var d := Decl("GetUsersResponse", Prim("object"));
    assert AllDecls(eps) == [d, d] by {
      assert AllDecls(eps[1..]) == [d] + [];
    }
    assert AllExportNames(eps) == ["GetUsersResponse", "GetUsersResponse"] by {
      assert AllExportNames(eps[1..]) == ["GetUsersResponse"] + [];
    }
  }
}
