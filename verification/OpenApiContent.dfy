/** What the OpenAPI document says of an endpoint, read off the document by following keys from its root. */
module OpenApiContent {
  import opened Wrappers
  import opened Strings
  import opened Ordering
  import opened YamlTree
  import opened JsonSchema
  import opened SpecParts
  import opened OperationId
  import opened Descriptors
  import opened OpenApi
  import opened OpenApiTheorems

  // ---------------------------------------------------------------- operations

  /** What is found under the endpoint's operation. */
  ghost function Said(eps: seq<Endpoint>, service: string, ep: Endpoint, keys: seq<string>): Option<Node> {
    At(Document(eps, service), ["paths", ep.path, Lowered(ep.method_)] + keys)
  }

  ghost predicate Findable(eps: seq<Endpoint>, ep: Endpoint) {
    DistinctRoutes(eps) && ep in eps && Lowered(ep.method_) != "parameters"
  }

  lemma SaidIsWithin(eps: seq<Endpoint>, service: string, ep: Endpoint, keys: seq<string>)
    requires Findable(eps, ep)
    ensures Said(eps, service, ep, keys) == match Within(Operation(ep, service), keys)
                                            case None => None case Some(v) => Some(AnyToNode(v))
  {
    hide Document, At, Lowered, AnyToNode, Operation, Within;
    EndpointDocumented(eps, service, ep);
    AtConcat(Document(eps, service), ["paths", ep.path, Lowered(ep.method_)], keys);
    AtIsWithin(Operation(ep, service), keys);
  }

  /** The field names of an operation differ. */
  lemma FieldNamesDiffer()
    ensures NoDup(["operationId", "summary", "description", "tags", "x-bookinfo-event-name", "requestBody",
            "responses"])
  {
    var names := ["operationId", "summary", "description", "tags", "x-bookinfo-event-name", "requestBody", "responses"];
    assert names[0][0] == 'o' && names[1][0] == 's' && names[2][0] == 'd' && names[3][0] == 't' && names[4][0] == 'x';
    assert names[5][0] == 'r' && names[6][0] == 'r' && names[5][2] == 'q' && names[6][2] == 's';
  }

  lemma FieldsOfOperation(ep: Endpoint, service: string)
    ensures var fields := OperationFields(ep, service);
            && "operationId" in fields && "summary" in fields && "description" in fields && "tags" in fields
            && fields["operationId"]
               == Text(if ep.operationId != "" then ep.operationId else Identifier(ep.method_, Words(ep.path)))
            && fields["summary"] == Text(ep.summary)
            && fields["description"] == Text(if ep.description != "" then ep.description else ep.summary)
            && fields["tags"] == TextList(if ep.tags != [] then ep.tags else [service])
            && ("x-bookinfo-event-name" in fields <==> ep.eventName != "")
            && (ep.eventName != "" ==> fields["x-bookinfo-event-name"] == Text(ep.eventName))
            && ("requestBody" in fields <==> ep.request.Some?)
            && (ep.request.Some? ==> fields["requestBody"] == RequestBody(ep.request.value))
            && "responses" in fields && fields["responses"] == Object(Responses(ep, |ep.errors|))
  {
    hide Responses, RequestBody, Identifier, Words, TextList;
    FieldNamesDiffer();
    var names := ["operationId", "summary", "description", "tags", "x-bookinfo-event-name", "requestBody", "responses"];
    forall i, j | 0 <= i < j < 7
      ensures names[i] != names[j]
    {
    }
    NamesApart(names[0], names[1], names[2], names[3], names[4], names[5], names[6]);
  }

  lemma NamesApart(a: string, b: string, c: string, d: string, e: string, f: string, g: string)
    requires NoDup([a, b, c, d, e, f, g])
    ensures a != b && a != c && a != d && a != e && a != f && a != g && b != c && b != d && b != e && b != f && b != g
    ensures c != d && c != e && c != f && c != g && d != e && d != f && d != g && e != f && e != g && f != g
  {
    var s := [a, b, c, d, e, f, g];
    assert s[0] == a && s[1] == b && s[2] == c && s[3] == d && s[4] == e && s[5] == f && s[6] == g;
  }

  /** Identifier, texts, tags and event name of the operation. */
  lemma OperationSays(eps: seq<Endpoint>, service: string, ep: Endpoint)
    requires Findable(eps, ep)
    ensures Reads(Said(eps, service, ep, ["operationId"]),
                  if ep.operationId != "" then ep.operationId else Identifier(ep.method_, Words(ep.path)))
    ensures Reads(Said(eps, service, ep, ["summary"]), ep.summary)
    ensures Reads(Said(eps, service, ep, ["description"]), if ep.description != "" then ep.description else ep.summary)
    ensures var tags := if ep.tags != [] then ep.tags else [service];
            Said(eps, service, ep, ["tags"])
                == Some(Sequence(seq(|tags|, i requires 0 <= i < |tags| => Scalar("!!str", tags[i]))))
    ensures if ep.eventName == "" then Said(eps, service, ep, ["x-bookinfo-event-name"]) == None
            else Reads(Said(eps, service, ep, ["x-bookinfo-event-name"]), ep.eventName)
  {
    hide Findable, Said, OperationFields, Identifier, Words, Responses, RequestBody;
    FieldsOfOperation(ep, service);
    OneField(eps, service, ep, "operationId");
    OneField(eps, service, ep, "summary");
    OneField(eps, service, ep, "description");
    OneField(eps, service, ep, "tags");
    OneField(eps, service, ep, "x-bookinfo-event-name");
    TextListNode(if ep.tags != [] then ep.tags else [service]);
  }

  lemma OneField(eps: seq<Endpoint>, service: string, ep: Endpoint, key: string)
    requires Findable(eps, ep)
    ensures Said(eps, service, ep, [key])
            == if key in OperationFields(ep, service) then Some(AnyToNode(OperationFields(ep, service)[key])) else None
  {
    hide *;
    OperationIs(ep, service);
    SaidIsWithin(eps, service, ep, [key]);
    assert [key] == [key] + [];
    WithinStep(OperationFields(ep, service), key, []);
    if key in OperationFields(ep, service) {
      WithinAll(OperationFields(ep, service)[key]);
    }
  }

  lemma OperationIs(ep: Endpoint, service: string)
    ensures Operation(ep, service) == Object(OperationFields(ep, service))
  {
  }

  lemma TextListNode(texts: seq<string>)
    ensures AnyToNode(TextList(texts))
            == Sequence(seq(|texts|, i requires 0 <= i < |texts| => Scalar("!!str", texts[i])))
  {
    var items := AnyToNode(TextList(texts)).items;
    forall i | 0 <= i < |texts|
      ensures items[i] == Scalar("!!str", texts[i])
    {
      assert items[i] == AnyToNode(TextList(texts).items[i]);
    }
    assert items == seq(|texts|, i requires 0 <= i < |texts| => Scalar("!!str", texts[i]));
  }

  // ---------------------------------------------------------------- bodies

  /** The keys under a body that lead to its schema. */
  const SCHEMA_KEYS := ["content", "application/json", "schema"]

  /** What is found under the schema of a body, and its description. */
  lemma SchemaOfContent(description: string, schema: Any, keys: seq<string>)
    ensures Within(BodyResponse(description, schema), SCHEMA_KEYS + keys) == Within(schema, keys)
    ensures Within(BodyResponse(description, schema), ["description"]) == Some(Text(description))
  {
    hide Within;
    assert "description"[0] != "content"[0];
    var media := map["application/json" := Object(map["schema" := schema])];
    ContentHolds(schema, keys);
    var fields := map["description" := Text(description), "content" := Content(schema)];
    assert SCHEMA_KEYS + keys == ["content"] + (["application/json"] + (["schema"] + keys));
    WithinStep(fields, "content", ["application/json"] + (["schema"] + keys));
    assert ["description"] == ["description"] + [];
    WithinStep(fields, "description", []);
    WithinAll(Text(description));
  }

  lemma ContentHolds(schema: Any, keys: seq<string>)
    ensures Within(Content(schema), ["application/json"] + (["schema"] + keys)) == Within(schema, keys)
  {
    hide Within;
    WithinStep(map["application/json" := Object(map["schema" := schema])], "application/json", ["schema"] + keys);
    WithinStep(map["schema" := schema], "schema", keys);
  }

  lemma RefWithin(name: string)
    ensures Within(RefAny(name), ["$ref"]) == Some(Text("#/components/schemas/" + name))
  {
    hide Within;
    assert ["$ref"] == ["$ref"] + [];
    WithinStep(map["$ref" := Text(RefTo(Schemas, name))], "$ref", []);
    WithinAll(Text(RefTo(Schemas, name)));
  }

  lemma RequestBodyWithin(dto: Dto)
    ensures Within(RequestBody(dto), ["required"]) == Some(Bool(true))
    ensures Within(RequestBody(dto), SCHEMA_KEYS + ["$ref"]) == Some(Text("#/components/schemas/" + dto.name))
  {
    hide Within;
    assert "required"[0] != "content"[0];
    var fields := map["required" := Bool(true), "content" := Content(RefAny(dto.name))];
    RefWithin(dto.name);
    ContentHolds(RefAny(dto.name), ["$ref"]);
    assert SCHEMA_KEYS + ["$ref"] == ["content"] + (["application/json"] + (["schema"] + ["$ref"]));
    WithinStep(fields, "content", ["application/json"] + (["schema"] + ["$ref"]));
    assert ["required"] == ["required"] + [];
    WithinStep(fields, "required", []);
    WithinAll(Bool(true));
  }

  lemma SaidUnder(eps: seq<Endpoint>, service: string, ep: Endpoint, key: string, keys: seq<string>)
    requires Findable(eps, ep)
    ensures Said(eps, service, ep, [key] + keys) ==
            if key !in OperationFields(ep, service) then None
            else match Within(OperationFields(ep, service)[key],
                keys) case None => None case Some(v) => Some(AnyToNode(v))
  {
    hide *;
    OperationIs(ep, service);
    SaidIsWithin(eps, service, ep, [key] + keys);
    WithinStep(OperationFields(ep, service), key, keys);
  }

  /** The request body is required and refers to the schema of its type; there is none without a request type. */
  lemma RequestSays(eps: seq<Endpoint>, service: string, ep: Endpoint)
    requires Findable(eps, ep)
    ensures ep.request.None? ==> Said(eps, service, ep, ["requestBody"]) == None
    ensures ep.request.Some? ==>
              && Said(eps, service, ep, ["requestBody", "required"]) == Some(Scalar("!!bool", "true"))
              && Reads(Said(eps, service, ep, ["requestBody"] + SCHEMA_KEYS + ["$ref"]),
                       "#/components/schemas/" + ep.request.value.name)
  {
    hide Findable, Said, OperationFields, RequestBody, Within;
    FieldsOfOperation(ep, service);
    OneField(eps, service, ep, "requestBody");
    if ep.request.Some? {
      RequestBodyWithin(ep.request.value);
      SaidUnder(eps, service, ep, "requestBody", ["required"]);
      SaidUnder(eps, service, ep, "requestBody", SCHEMA_KEYS + ["$ref"]);
      assert ["requestBody", "required"] == ["requestBody"] + ["required"];
      assert ["requestBody"] + SCHEMA_KEYS + ["$ref"] == ["requestBody"] + (SCHEMA_KEYS + ["$ref"]);
    }
  }

  // ---------------------------------------------------------------- responses

  lemma ResponseUnder(eps: seq<Endpoint>, service: string, ep: Endpoint, code: string, keys: seq<string>)
    requires Findable(eps, ep) && code in Responses(ep, |ep.errors|)
    ensures Said(eps, service, ep, ["responses", code] + keys) ==
            match Within(Responses(ep, |ep.errors|)[code], keys) case None => None case Some(v) => Some(AnyToNode(v))
  {
    hide Findable, Said, OperationFields, Responses, Within;
    FieldsOfOperation(ep, service);
    SaidUnder(eps, service, ep, "responses", [code] + keys);
    WithinStep(Responses(ep, |ep.errors|), code, keys);
    assert ["responses", code] + keys == ["responses"] + ([code] + keys);
  }

  /** The last error with a body of each status: its text, and a reference to the schema of its type. */
  lemma ErrorSays(eps: seq<Endpoint>, service: string, ep: Endpoint, i: nat)
    requires Findable(eps, ep) && i < |ep.errors| && ep.errors[i].body.Some?
    requires forall j | i < j < |ep.errors| :: ep.errors[j].body.Some? ==> ep.errors[j].status != ep.errors[i].status
    ensures var e := ep.errors[i];
            && Reads(Said(eps, service, ep, ["responses", Itoa(e.status), "description"]), e.statusText)
            && Reads(Said(eps, service, ep, ["responses", Itoa(e.status)] + (SCHEMA_KEYS + ["$ref"])),
                     "#/components/schemas/" + e.body.value.name)
  {
    hide Findable, Said, Responses, Itoa, BodyResponse, RefAny, Within;
    var e := ep.errors[i];
    ErrorDocumented(ep, |ep.errors|, i);
    SchemaOfContent(e.statusText, RefAny(e.body.value.name), ["$ref"]);
    RefWithin(e.body.value.name);
    ResponseUnder(eps, service, ep, Itoa(e.status), ["description"]);
    ResponseUnder(eps, service, ep, Itoa(e.status), SCHEMA_KEYS + ["$ref"]);
    assert ["responses", Itoa(e.status), "description"] == ["responses", Itoa(e.status)] + ["description"];
  }

  /** Unless an error with a body has its status, the success response is found under the status given, or under
      201 for a POST and 200 otherwise. It refers to the schema of the response type, as an array of it for a
      slice, and has no content without one. */
  lemma SuccessSays(eps: seq<Endpoint>, service: string, ep: Endpoint, code: string)
    requires Findable(eps, ep)
    requires code == Itoa(if ep.successStatus != 0 then ep.successStatus else if ep.method_ == "POST" then 201 else 200)
    requires forall e | e in ep.errors && e.body.Some? :: Itoa(e.status) != code
    ensures Reads(Said(eps, service, ep, ["responses", code, "description"]), "success")
    ensures ep.response.None? ==> Said(eps, service, ep, ["responses", code, "content"]) == None
    ensures ep.response.Some? && !ep.responseIsSlice ==>
              Reads(Said(eps, service, ep, ["responses", code] + (SCHEMA_KEYS + ["$ref"])),
                    "#/components/schemas/" + ep.response.value.name)
    ensures ep.response.Some? && ep.responseIsSlice ==>
              && Reads(Said(eps, service, ep, ["responses", code] + (SCHEMA_KEYS + ["type"])), "array")
              && Reads(Said(eps, service, ep, ["responses", code] + (SCHEMA_KEYS + ["items", "$ref"])),
                       "#/components/schemas/" + ep.response.value.name)
  {
    hide Findable, Said, Responses, Itoa, SuccessResponse, Within;
    SuccessDocumented(ep, |ep.errors|);
    SuccessWithin(ep);
    forall keys { ResponseUnder(eps, service, ep, code, keys); }
    assert ["responses", code, "description"] == ["responses", code] + ["description"];
    assert ["responses", code, "content"] == ["responses", code] + ["content"];
  }

  lemma SuccessWithin(ep: Endpoint)
    ensures var v := SuccessResponse(ep);
            && Within(v, ["description"]) == Some(Text("success"))
            && match ep.response
               case None => Within(v, ["content"]) == None
               case Some(dto) =>
                 if ep.responseIsSlice then
                   && Within(v, SCHEMA_KEYS + ["type"]) == Some(Text("array"))
                   && Within(v, SCHEMA_KEYS + ["items", "$ref"]) == Some(Text("#/components/schemas/" + dto.name))
                 else Within(v, SCHEMA_KEYS + ["$ref"]) == Some(Text("#/components/schemas/" + dto.name))
  {
    hide Within, BodyResponse, RefAny;
    match ep.response
    case None =>
      assert "description"[0] != "content"[0];
      var fields := map["description" := Text("success")];
      assert ["description"] == ["description"] + [] && ["content"] == ["content"] + [];
      WithinStep(fields, "description", []);
      WithinStep(fields, "content", []);
      WithinAll(Text("success"));
    case Some(dto) =>
      RefWithin(dto.name);
      if ep.responseIsSlice {
        SliceWithin(dto);
      } else {
        SchemaOfContent("success", RefAny(dto.name), ["$ref"]);
      }
  }

  lemma SliceWithin(dto: Dto)
    ensures var v := BodyResponse("success", Object(map["type" := Text("array"), "items" := RefAny(dto.name)]));
            && Within(v, ["description"]) == Some(Text("success"))
            && Within(v, SCHEMA_KEYS + ["type"]) == Some(Text("array"))
            && Within(v, SCHEMA_KEYS + ["items", "$ref"]) == Some(Text("#/components/schemas/" + dto.name))
  {
    hide Within, BodyResponse, RefAny;
    var fields := map["type" := Text("array"), "items" := RefAny(dto.name)];
    assert "type"[0] != "items"[0];
    RefWithin(dto.name);
    SchemaOfContent("success", Object(fields), ["type"]);
    SchemaOfContent("success", Object(fields), ["items", "$ref"]);
    assert ["type"] == ["type"] + [] && ["items", "$ref"] == ["items"] + ["$ref"];
    WithinStep(fields, "type", []);
    WithinStep(fields, "items", ["$ref"]);
    WithinAll(Text("array"));
  }

  // ---------------------------------------------------------------- schemas

  /** The types of an endpoint: request, response, and errors in order. */
  function Mentioned(ep: Endpoint): seq<Option<Dto>> {
    [ep.request, ep.response] + seq(|ep.errors|, k requires 0 <= k < |ep.errors| => ep.errors[k].body)
  }

  predicate Describing(body: Option<Dto>, name: string) {
    body.Some? && body.value.schema.Some? && body.value.name == name
  }

  /** A name is described by the schema of its last mention. */
  lemma SchemasSay(eps: seq<Endpoint>, service: string, i: nat, k: nat, name: string)
    requires i < |eps| && k < |Mentioned(eps[i])| && Describing(Mentioned(eps[i])[k], name)
    requires forall l | k < l < |Mentioned(eps[i])| :: !Describing(Mentioned(eps[i])[l], name)
    requires forall j, l | i < j < |eps| && 0 <= l < |Mentioned(eps[j])| :: !Describing(Mentioned(eps[j])[l], name)
    ensures At(Document(eps, service), ["components", "schemas", name])
            == Some(SchemaToNode(Mentioned(eps[i])[k].value.schema.value))
  {
    hide *;
    LastMention(eps, i, k, name);
    SchemaFound(eps, service, name);
    SchemaKeys(name);
  }

  lemma {:induction false} LastMention(eps: seq<Endpoint>, i: nat, k: nat, name: string)
    requires i < |eps| && k < |Mentioned(eps[i])| && Describing(Mentioned(eps[i])[k], name)
    requires forall l | k < l < |Mentioned(eps[i])| :: !Describing(Mentioned(eps[i])[l], name)
    requires forall j, l | i < j < |eps| && 0 <= l < |Mentioned(eps[j])| :: !Describing(Mentioned(eps[j])[l], name)
    ensures var schemas := SchemasOf(eps);
            name in schemas && schemas[name] == Mentioned(eps[i])[k].value.schema.value
  {
    hide CollectEndpoint, Mentioned, Describing;
    var n := |eps| - 1;
    if i < n {
      LastMention(eps[..n], i, k, name);
    }
    EndpointCollected(SchemasOf(eps[..n]), eps[n], name, if i < n then -1 else k);
  }

  /** Position `k` is the last of the endpoint's types that describes the name, or -1 when none does. */
  lemma EndpointCollected(schemas: map<string, Schema>, ep: Endpoint, name: string, k: int)
    requires -1 <= k < |Mentioned(ep)| && (k >= 0 ==> Describing(Mentioned(ep)[k], name))
    requires forall l | k < l < |Mentioned(ep)| :: !Describing(Mentioned(ep)[l], name)
    ensures var after := CollectEndpoint(schemas, ep);
            if k < 0 then (name in after <==> name in schemas) && (name in after ==> after[name] == schemas[name])
            else name in after && after[name] == Mentioned(ep)[k].value.schema.value
  {
    hide CollectErrors;
    var asked := Collect(Collect(schemas, ep.request), ep.response);
    assert Mentioned(ep)[0] == ep.request && Mentioned(ep)[1] == ep.response;
    assert forall l | 0 <= l < |ep.errors| :: Mentioned(ep)[l + 2] == ep.errors[l].body;
    ErrorsCollected(asked, ep.errors, name, if k < 2 then -1 else k - 2);
  }

  lemma {:induction false} ErrorsCollected(schemas: map<string, Schema>, errors: seq<ErrorInfo>, name: string, k: int)
    requires -1 <= k < |errors| && (k >= 0 ==> Describing(errors[k].body, name))
    requires forall l | k < l < |errors| :: !Describing(errors[l].body, name)
    ensures var after := CollectErrors(schemas, errors);
            if k < 0 then (name in after <==> name in schemas) && (name in after ==> after[name] == schemas[name])
            else name in after && after[name] == errors[k].body.value.schema.value
  {
    var n := |errors| - 1;
    if 0 <= n && k < n {
      ErrorsCollected(schemas, errors[..n], name, k);
      assert !Describing(errors[n].body, name);
    }
  }

  // ---------------------------------------------------------------- tags

  /** The document declares exactly the tags in use, sorted and each once; an endpoint without tags uses the
      service name. */
  lemma TagsSay(eps: seq<Endpoint>, service: string) returns (declared: seq<string>)
    requires eps != []
    ensures StrictlySorted(declared)
    ensures forall t :: t in declared <==> exists ep :: ep in eps && t in (if ep.tags != [] then ep.tags else [service])
    ensures ListsTags(At(Document(eps, service), ["tags"]), declared)
  {
    hide ListsTags, At, Document, StrictlySorted, SortedKeys, TagSet;
    forall t { TagUsed(eps, service, t); }
    declared := SortedKeys(TagSet(eps, service));
    SortedKeysMembers(TagSet(eps, service));
    SomeTag(eps, service);
    TagsListed(eps, service, declared);
    TagListSays(declared);
  }

  lemma TagUsed(eps: seq<Endpoint>, service: string, t: string)
    ensures t in TagSet(eps, service) <==> exists ep :: ep in eps && t in (if ep.tags != [] then ep.tags else [service])
  {
    if ep :| ep in eps && t in (if ep.tags != [] then ep.tags else [service]) {
      assert t in TagsOr(ep.tags, service);
    }
    if t in TagSet(eps, service) {
      var ep :| ep in eps && t in TagsOr(ep.tags, service);
      assert t in (if ep.tags != [] then ep.tags else [service]);
    }
  }

  lemma SomeTag(eps: seq<Endpoint>, service: string)
    requires eps != []
    ensures TagSet(eps, service) != {}
  {
    var t := TagsOr(eps[0].tags, service)[0];
    assert eps[0] in eps && t in TagsOr(eps[0].tags, service);
    assert t in TagSet(eps, service);
  }

  lemma TagsListed(eps: seq<Endpoint>, service: string, declared: seq<string>)
    requires TagSet(eps, service) != {} && declared == SortedKeys(TagSet(eps, service))
    ensures At(Document(eps, service), ["tags"]) == Some(AnyToNode(TagList(declared)))
  {
    hide PathEntries, PathsOf, SchemaEntries, SchemasOf, TagSet, AnyToNode, TagList, SortedKeys, At, Find;
    var doc := Document(eps, service);
    FindAt(doc.entries, 0);
    AtLast(doc, "tags");
  }

  // ---------------------------------------------------------------- path parameters

  /** Every path item lists the braced segments of its path, as required path parameters of type string. */
  lemma ParametersSay(path: string, methods: map<string, Any>, i: nat)
    requires i < |ParamsOf(SplitOn(path, '/'))|
    ensures var params, listed := ParamsOf(SplitOn(path, '/')), At(PathItem(path, methods), ["parameters"]);
            && listed.Some? && listed.value.Sequence? && |listed.value.items| == |params|
            && var p := listed.value.items[i];
            && Reads(At(p, ["name"]), params[i]) && Reads(At(p, ["in"]), "path")
            && At(p, ["required"]) == Some(Scalar("!!bool", "true")) && Reads(At(p, ["schema", "type"]), "string")
  {
    hide ParamsOf, SplitOn, ParamAny, MethodEntries, Within, At;
    var params := ParamsOf(SplitOn(path, '/'));
    var list := AnyToNode(ParamList(params));
    var key, rest := "parameters", MethodEntries(methods);
    FindAt([Entry(key, list)] + rest, 0);
    AtLast(PathItem(path, methods), key);
    assert list.items[i] == AnyToNode(ParamList(params).items[i]);
    ParamSays(params[i]);
  }

  lemma ParamSays(name: string)
    ensures var p := AnyToNode(ParamAny(name));
            && Reads(At(p, ["name"]), name) && Reads(At(p, ["in"]), "path")
            && At(p, ["required"]) == Some(Scalar("!!bool", "true")) && Reads(At(p, ["schema", "type"]), "string")
  {
    hide Within, At;
    var fields := map["name" := Text(name), "in" := Text("path"), "required" := Bool(true),
        "schema" := Object(map["type" := Text("string")])];
    assert "name"[0] == 'n' && "in"[0] == 'i' && "required"[0] == 'r' && "schema"[0] == 's';
    WithinStep(fields, "name", []);
    WithinStep(fields, "in", []);
    WithinStep(fields, "required", []);
    WithinStep(fields, "schema", ["type"]);
    WithinStep(map["type" := Text("string")], "type", []);
    assert ["name"] == ["name"] + [] && ["in"] == ["in"] + [] && ["required"] == ["required"] + [];
    assert ["schema", "type"] == ["schema"] + ["type"] && ["type"] == ["type"] + [];
    forall v { WithinAll(v); }
    AtIsWithin(Object(fields), ["name"]);
    AtIsWithin(Object(fields), ["in"]);
    AtIsWithin(Object(fields), ["required"]);
    AtIsWithin(Object(fields), ["schema", "type"]);
  }
}
