/** The OpenAPI document: operations, paths, tags and component schemas of the endpoints.

    The `info` and `servers` parts of the document hold no references and are not modelled. */
module OpenApi {
  import opened Wrappers
  import opened Strings
  import opened Ordering
  import opened YamlTree
  import opened JsonSchema
  import opened SpecParts
  import opened OperationId
  import opened Descriptors

  /** `statusText` is the library's text for the status. */
  datatype ErrorInfo = ErrorInfo(status: int, statusText: string, body: Option<Dto>)

  datatype Endpoint = Endpoint(
    method_: string, path: string, summary: string, operationId: string, description: string, tags: seq<string>,
    eventName: string, successStatus: int, request: Option<Dto>, response: Option<Dto>, responseIsSlice: bool,
    errors: seq<ErrorInfo>)

  datatype BuildError =
    | RequestUnsupported(method_: string, path: string)
    | ResponseUnsupported(method_: string, path: string)
    | ErrorUnsupported(status: int)

  // ---------------------------------------------------------------- schemas in use

  predicate Usable(body: Option<Dto>) {
    body.Some? ==> body.value.schema.Some?
  }

  predicate Supported(ep: Endpoint) {
    Usable(ep.request) && Usable(ep.response) && forall e | e in ep.errors :: Usable(e.body)
  }

  /** A later type of the same name replaces the schema. */
  function Collect(schemas: map<string, Schema>, body: Option<Dto>): map<string, Schema> {
    if body.Some? && body.value.schema.Some? then schemas[body.value.name := body.value.schema.value] else schemas
  }

  function CollectErrors(schemas: map<string, Schema>, errors: seq<ErrorInfo>): map<string, Schema> {
    if errors == [] then schemas else Collect(CollectErrors(schemas, errors[..|errors| - 1]), errors[|errors| - 1].body)
  }

  function CollectEndpoint(schemas: map<string, Schema>, ep: Endpoint): map<string, Schema> {
    CollectErrors(Collect(Collect(schemas, ep.request), ep.response), ep.errors)
  }

  function SchemasOf(eps: seq<Endpoint>): map<string, Schema> {
    if eps == [] then map[] else CollectEndpoint(SchemasOf(eps[..|eps| - 1]), eps[|eps| - 1])
  }

  // ---------------------------------------------------------------- one operation

  function RefAny(name: string): Any {
    Object(map["$ref" := Text(RefTo(Schemas, name))])
  }

  function Content(schema: Any): Any {
    Object(map["application/json" := Object(map["schema" := schema])])
  }

  function RequestBody(dto: Dto): Any {
    Object(map["required" := Bool(true), "content" := Content(RefAny(dto.name))])
  }

  function BodyResponse(description: string, schema: Any): Any {
    Object(map["description" := Text(description), "content" := Content(schema)])
  }

  function SuccessResponse(ep: Endpoint): Any {
    match ep.response
    case None => Object(map["description" := Text("success")])
    case Some(dto) =>
      BodyResponse("success", if ep.responseIsSlice
          then Object(map["type" := Text("array"), "items" := RefAny(dto.name)]) else RefAny(dto.name))
  }

  function SuccessCode(ep: Endpoint): string {
    Itoa(if ep.successStatus != 0 then ep.successStatus else if ep.method_ == "POST" then 201 else 200)
  }

  /** The success response, then one response per error that has a body; a repeated status replaces the response. */
  function Responses(ep: Endpoint, n: nat): map<string, Any>
    requires n <= |ep.errors|
  {
    if n == 0 then map[SuccessCode(ep) := SuccessResponse(ep)]
    else
      var e := ep.errors[n - 1];
      match e.body
      case None => Responses(ep, n - 1)
      case Some(dto) => Responses(ep, n - 1)[Itoa(e.status) := BodyResponse(e.statusText, RefAny(dto.name))]
  }

  function OpIdOf(ep: Endpoint): string {
    if ep.operationId == "" then Identifier(ep.method_, Words(ep.path)) else ep.operationId
  }

  function TextList(texts: seq<string>): Any {
    List(seq(|texts|, i requires 0 <= i < |texts| => Text(texts[i])))
  }

  function OperationFields(ep: Endpoint, service: string): map<string, Any> {
    var base := map["operationId" := Text(OpIdOf(ep)), "summary" := Text(ep.summary),
                    "description" := Text(if ep.description == "" then ep.summary else ep.description),
                    "tags" := TextList(TagsOr(ep.tags, service))];
    var named := if ep.eventName == "" then base else base["x-bookinfo-event-name" := Text(ep.eventName)];
    var asked := if ep.request.None? then named else named["requestBody" := RequestBody(ep.request.value)];
    asked["responses" := Object(Responses(ep, |ep.errors|))]
  }

  function Operation(ep: Endpoint, service: string): Any {
    Object(OperationFields(ep, service))
  }

  /** The response map is filled last; in the source the operation already holds it by reference. */
  method BuildOperation(ep: Endpoint, service: string, schemas: map<string, Schema>)
    returns (r: Result<Any, BuildError>, collected: map<string, Schema>)
    ensures r.Ok? <==> Supported(ep)
    ensures r.Ok? ==> r.value == Operation(ep, service) && collected == CollectEndpoint(schemas, ep)
    ensures r.Err? ==> ErrorOf(ep, r.error)
  {
    hide Responses, CollectErrors, Identifier, RequestBody, SuccessCode;
    collected := schemas;
    var operationId := ep.operationId;
    if operationId == "" {
      operationId := LowerCamelCase(ep.method_, ep.path);
    }
    var description := ep.description;
    if description == "" {
      description := ep.summary;
    }
    var tags := ep.tags;
    if |tags| == 0 {
      tags := [service];
    }
    var op := map["operationId" := Text(operationId), "summary" := Text(ep.summary),
        "description" := Text(description), "tags" := TextList(tags)];
    if ep.eventName != "" {
      op := op["x-bookinfo-event-name" := Text(ep.eventName)];
    }
    if ep.request.Some? {
      if ep.request.value.schema.None? {
        return Err(RequestUnsupported(ep.method_, ep.path)), collected;
      }
      collected := collected[ep.request.value.name := ep.request.value.schema.value];
      op := op["requestBody" := RequestBody(ep.request.value)];
    }
    if ep.response.Some? {
      if ep.response.value.schema.None? {
        return Err(ResponseUnsupported(ep.method_, ep.path)), collected;
      }
      collected := collected[ep.response.value.name := ep.response.value.schema.value];
    }
    var responses, error;
    responses, collected, error := BuildResponses(ep, collected);
    if error.Some? {
      return Err(error.value), collected;
    }
    op := op["responses" := Object(responses)];
    return Ok(Object(op)), collected;
  }

  /** The error of the first type without a schema: request, then response, then errors in order. */
  ghost predicate ErrorOf(ep: Endpoint, error: BuildError) {
    if !Usable(ep.request) then error == RequestUnsupported(ep.method_, ep.path)
    else if !Usable(ep.response) then error == ResponseUnsupported(ep.method_, ep.path)
    else FirstBadError(ep, error)
  }

  /** The error of the first endpoint that has one. */
  ghost predicate FirstError(eps: seq<Endpoint>, error: BuildError) {
    exists i :: 0 <= i < |eps| && !Supported(eps[i]) && ErrorOf(eps[i], error)
        && forall j | 0 <= j < i :: Supported(eps[j])
  }

  /** The error reported for the error responses is that of the first one without a schema. */
  ghost predicate FirstBadError(ep: Endpoint, error: BuildError) {
    exists i :: 0 <= i < |ep.errors| && !Usable(ep.errors[i].body) && error == ErrorUnsupported(ep.errors[i].status)
                && forall j | 0 <= j < i :: Usable(ep.errors[j].body)
  }

  method SuccessStatus(ep: Endpoint) returns (successStatus: string)
    ensures successStatus == SuccessCode(ep)
  {
    hide Itoa;
    successStatus := Itoa(200);
    if ep.method_ == "POST" {
      successStatus := Itoa(201);
    }
    if ep.successStatus != 0 {
      successStatus := Itoa(ep.successStatus);
    }
  }

  method BuildResponses(ep: Endpoint, schemas: map<string, Schema>)
    returns (responses: map<string, Any>, collected: map<string, Schema>, error: Option<BuildError>)
    ensures error.None? <==> forall e | e in ep.errors :: Usable(e.body)
    ensures error.None? ==> responses == Responses(ep, |ep.errors|) && collected == CollectErrors(schemas, ep.errors)
    ensures error.Some? ==> FirstBadError(ep, error.value)
  {
    hide SuccessCode, Itoa, RefAny, SuccessResponse, BodyResponse;
    collected := schemas;
    var successStatus := SuccessStatus(ep);
    responses := map[successStatus := SuccessResponse(ep)];
    for i := 0 to |ep.errors|
      invariant responses == Responses(ep, i) && collected == CollectErrors(schemas, ep.errors[..i])
      invariant forall j | 0 <= j < i :: Usable(ep.errors[j].body)
    {
      assert ep.errors[..i + 1][..i] == ep.errors[..i];
      var e := ep.errors[i];
      if e.body.Some? {
        if e.body.value.schema.None? {
          assert !Usable(ep.errors[i].body);
          return responses, collected, Some(ErrorUnsupported(e.status));
        }
        collected := collected[e.body.value.name := e.body.value.schema.value];
        responses := responses[Itoa(e.status) := BodyResponse(e.statusText, RefAny(e.body.value.name))];
      }
    }
    assert ep.errors[..|ep.errors|] == ep.errors;
    return responses, collected, None;
  }

  // ---------------------------------------------------------------- paths

  /** Files the operation under its path and lowered method, replacing what was there. */
  function FileUnder(paths: map<string, map<string, Any>>, ep: Endpoint, op: Any): map<string, map<string, Any>> {
    paths[ep.path := (if ep.path in paths then paths[ep.path] else map[])[Lowered(ep.method_) := op]]
  }

  function PathsOf(eps: seq<Endpoint>, service: string): map<string, map<string, Any>> {
    if eps == [] then map[]
        else FileUnder(PathsOf(eps[..|eps| - 1], service), eps[|eps| - 1], Operation(eps[|eps| - 1], service))
  }

  method CollectPaths(eps: seq<Endpoint>, service: string)
    returns (paths: map<string, map<string, Any>>, order: seq<string>, schemas: map<string, Schema>,
        error: Option<BuildError>)
    ensures error.None? <==> forall ep | ep in eps :: Supported(ep)
    ensures error.None? ==> paths == PathsOf(eps, service) && Lists(order, paths.Keys) && schemas == SchemasOf(eps)
    ensures error.Some? ==> FirstError(eps, error.value)
  {
    hide Operation, CollectEndpoint, Supported, ErrorOf;
    paths, order, schemas := map[], [], map[];
    for i := 0 to |eps|
      invariant paths == PathsOf(eps[..i], service) && Lists(order, paths.Keys) && schemas == SchemasOf(eps[..i])
      invariant forall j | 0 <= j < i :: Supported(eps[j])
    {
      assert eps[..i + 1][..i] == eps[..i];
      ListsAppend(order, paths.Keys, eps[i].path);
      hide Lists, Lowered;
      var op, collected := BuildOperation(eps[i], service, schemas);
      if op.Err? {
        return paths, order, schemas, Some(op.error);
      }
      schemas := collected;
      var methods: map<string, Any> := map[];
      if eps[i].path in paths {
        methods := paths[eps[i].path];
      } else {
        order := order + [eps[i].path];
      }
      paths := paths[eps[i].path := methods[Lowered(eps[i].method_) := op.value]];
    }
    assert eps[..|eps|] == eps;
    return paths, order, schemas, None;
  }

  function ParamAny(name: string): Any {
    Object(map["name" := Text(name), "in" := Text("path"), "required" := Bool(true),
        "schema" := Object(map["type" := Text("string")])])
  }

  function ParamList(params: seq<string>): Any {
    List(seq(|params|, i requires 0 <= i < |params| => ParamAny(params[i])))
  }

  ghost function MethodEntries(methods: map<string, Any>): (entries: seq<Entry>)
    ensures |entries| == |SortedKeys(methods.Keys)|
    ensures forall i :: 0 <= i < |entries| ==> entries[i].key == SortedKeys(methods.Keys)[i]
  {
    var keys := SortedKeys(methods.Keys);
    seq(|keys|, i requires 0 <= i < |keys| => Entry(keys[i], if keys[i] in methods then AnyToNode(methods[keys[i]])
        else Mapping([])))
  }

  ghost function ParamPart(path: string): seq<Entry> {
    var params := ParamsOf(SplitOn(path, '/'));
    if params == [] then [] else [Entry("parameters", AnyToNode(ParamList(params)))]
  }

  ghost function PathItem(path: string, methods: map<string, Any>): Node {
    Mapping(ParamPart(path) + MethodEntries(methods))
  }

  method BuildPathItem(path: string, methods: map<string, Any>) returns (n: Node)
    ensures n == PathItem(path, methods)
  {
    var item: seq<Entry> := [];
    var params := ExtractPathParams(path);
    hide AnyToNode, ParamAny, SplitOn, ParamsOf;
    if |params| > 0 {
      var list: seq<Any> := [];
      for i := 0 to |params|
        invariant list == ParamList(params).items[..i]
      {
        list := list + [ParamAny(params[i])];
      }
      assert list == ParamList(params).items;
      var node := ConvertAny(List(list));
      item := AddMapping(item, "parameters", node);
    }
    assert item == ParamPart(path);
    var entries := EmitMethods(methods);
    return Mapping(item + entries);
  }

  method EmitMethods(methods: map<string, Any>) returns (entries: seq<Entry>)
    ensures entries == MethodEntries(methods)
  {
    var keys := KeyList(methods.Keys);
    SortedKeysMembers(methods.Keys);
    hide AnyToNode, SortedKeys, StrictlySorted;
    entries := [];
    for i := 0 to |keys|
      invariant entries == MethodEntries(methods)[..i]
    {
      assert keys[i] in keys;
      var node := ConvertAny(methods[keys[i]]);
      entries := AddMapping(entries, keys[i], node);
    }
  }

  ghost function PathEntries(paths: map<string, map<string, Any>>): (entries: seq<Entry>)
    ensures |entries| == |SortedKeys(paths.Keys)|
    ensures forall i :: 0 <= i < |entries| ==> entries[i].key == SortedKeys(paths.Keys)[i]
  {
    var keys := SortedKeys(paths.Keys);
    seq(|keys|, i requires 0 <= i < |keys| => Entry(keys[i], if keys[i] in paths then PathItem(keys[i], paths[keys[i]])
        else Mapping([])))
  }

  method EmitPaths(paths: map<string, map<string, Any>>, order: seq<string>) returns (n: Node)
    requires Lists(order, paths.Keys)
    ensures n == Mapping(PathEntries(paths))
  {
    hide *;
    var keys := SortStrings(order);
    SortStringsOfSet(order, paths.Keys);
    SortedKeysMembers(paths.Keys);
    var entries: seq<Entry> := [];
    for i := 0 to |keys|
      invariant entries == PathEntries(paths)[..i]
    {
      assert keys[i] in keys;
      PathEntryAt(paths, i);
      var item := BuildPathItem(keys[i], paths[keys[i]]);
      entries := entries + [Entry(keys[i], item)];
    }
    n := Mapping(entries);
  }

  lemma PathEntryAt(paths: map<string, map<string, Any>>, i: nat)
    requires i < |SortedKeys(paths.Keys)| && SortedKeys(paths.Keys)[i] in paths
    ensures PathEntries(paths)[i]
            == Entry(SortedKeys(paths.Keys)[i], PathItem(SortedKeys(paths.Keys)[i], paths[SortedKeys(paths.Keys)[i]]))
  {
  }

  // ---------------------------------------------------------------- tags

  function TagSet(eps: seq<Endpoint>, service: string): set<string> {
    set ep, t | ep in eps && t in TagsOr(ep.tags, service) :: t
  }

  lemma TagSetExtend(eps: seq<Endpoint>, i: nat, service: string)
    requires i < |eps|
    ensures TagSet(eps[..i + 1], service) == TagSet(eps[..i], service) + set t | t in TagsOr(eps[i].tags, service)
  {
    assert eps[..i + 1] == eps[..i] + [eps[i]];
  }

  method CollectTags(eps: seq<Endpoint>, service: string) returns (tagSet: set<string>)
    ensures tagSet == TagSet(eps, service)
  {
    tagSet := {};
    for i := 0 to |eps|
      invariant tagSet == TagSet(eps[..i], service)
    {
      TagSetExtend(eps, i, service);
      hide TagSet;
      var tags := eps[i].tags;
      if |tags| == 0 {
        tags := [service];
      }
      tagSet := AddTags(tagSet, tags);
    }
    assert eps[..|eps|] == eps;
  }

  method AddTags(tagSet: set<string>, tags: seq<string>) returns (r: set<string>)
    ensures r == tagSet + set t | t in tags
  {
    r := tagSet;
    for j := 0 to |tags|
      invariant r == tagSet + set t | t in tags[..j]
    {
      assert tags[..j + 1] == tags[..j] + [tags[j]];
      r := r + {tags[j]};
    }
    assert tags[..|tags|] == tags;
  }

  ghost function TagsPart(eps: seq<Endpoint>, service: string): seq<Entry> {
    var tags := TagSet(eps, service);
    if tags == {} then [] else [Entry("tags", AnyToNode(TagList(SortedKeys(tags))))]
  }

  method BuildTags(eps: seq<Endpoint>, service: string) returns (part: seq<Entry>)
    ensures part == TagsPart(eps, service)
  {
    var tagSet := CollectTags(eps, service);
    hide TagSet, AnyToNode, TagList;
    if |tagSet| == 0 {
      return [];
    }
    var names := KeyList(tagSet);
    var node := EmitTagList(names);
    return [Entry("tags", node)];
  }

  // ---------------------------------------------------------------- the document

  ghost function Document(eps: seq<Endpoint>, service: string): Node {
    Mapping(TagsPart(eps, service)
            + [Entry("paths", Mapping(PathEntries(PathsOf(eps, service)))),
               Entry("components", Mapping([Entry("schemas", Mapping(SchemaEntries(SchemasOf(eps))))]))])
  }

  /** Whatever order the maps are visited in, the document is this tree. */
  method Build(eps: seq<Endpoint>, service: string) returns (r: Result<Node, BuildError>)
    ensures r.Ok? <==> forall ep | ep in eps :: Supported(ep)
    ensures r.Ok? ==> r.value == Document(eps, service)
    ensures r.Err? ==> FirstError(eps, r.error)
  {
    hide TagsPart, PathEntries, PathsOf, SchemaEntries, SchemasOf, Lists, Supported, FirstError;
    var paths, order, schemas, error := CollectPaths(eps, service);
    if error.Some? {
      return Err(error.value);
    }
    var doc := BuildTags(eps, service);
    var pathsNode := EmitPaths(paths, order);
    var schemasNode := EmitSchemas(schemas);
    doc := AddMapping(doc, "paths", pathsNode);
    doc := AddMapping(doc, "components", Mapping([Entry("schemas", schemasNode)]));
    assert doc == Document(eps, service).entries;
    return Ok(Mapping(doc));
  }
}
