/** What holds of every generated OpenAPI document: it depends only on the set of endpoints, its references
    and tags are declared, and each path parameter is listed once. */
module OpenApiTheorems {
  import opened Wrappers
  import opened Strings
  import opened Ordering
  import opened YamlTree
  import opened JsonSchema
  import opened SpecParts
  import opened OperationId
  import opened Descriptors
  import opened OpenApi

  // ---------------------------------------------------------------- collected schemas

  function BodySet(body: Option<Dto>): set<Dto> {
    match body case None => {} case Some(dto) => {dto}
  }

  function ErrorBodies(errors: seq<ErrorInfo>): set<Dto> {
    set e | e in errors && e.body.Some? :: e.body.value
  }

  /** The types an endpoint mentions. */
  function Bodies(ep: Endpoint): set<Dto> {
    BodySet(ep.request) + BodySet(ep.response) + ErrorBodies(ep.errors)
  }

  function AllBodies(eps: seq<Endpoint>): set<Dto> {
    set ep, d | ep in eps && d in Bodies(ep) :: d
  }

  /** The map holds a schema for each mentioned name, taken from one of the types of that name. */
  ghost predicate Represents(schemas: map<string, Schema>, bodies: set<Dto>) {
    && (forall d | d in bodies && d.schema.Some? :: d.name in schemas)
    && (forall name | name in schemas :: Dto(name, Some(schemas[name])) in bodies)
  }

  lemma CollectRepresents(schemas: map<string, Schema>, bodies: set<Dto>, body: Option<Dto>)
    requires Represents(schemas, bodies)
    ensures Represents(Collect(schemas, body), bodies + BodySet(body))
  {
    if body.Some? && body.value.schema.Some? {
      assert body.value == Dto(body.value.name, Some(body.value.schema.value));
    }
  }

  lemma {:induction false} ErrorsRepresent(schemas: map<string, Schema>, bodies: set<Dto>, errors: seq<ErrorInfo>)
    requires Represents(schemas, bodies)
    ensures Represents(CollectErrors(schemas, errors), bodies + ErrorBodies(errors))
  {
    if errors == [] {
      assert bodies + ErrorBodies(errors) == bodies;
    } else {
      var n := |errors| - 1;
      ErrorsRepresent(schemas, bodies, errors[..n]);
      CollectRepresents(CollectErrors(schemas, errors[..n]), bodies + ErrorBodies(errors[..n]), errors[n].body);
      ErrorBodiesExtend(errors, n);
      hide ErrorBodies, Represents;
      assert bodies + ErrorBodies(errors) == bodies + ErrorBodies(errors[..n]) + BodySet(errors[n].body);
    }
  }

  lemma ErrorBodiesExtend(errors: seq<ErrorInfo>, n: nat)
    requires |errors| == n + 1
    ensures ErrorBodies(errors) == ErrorBodies(errors[..n]) + BodySet(errors[n].body)
  {
    assert errors == errors[..n] + [errors[n]];
  }

  lemma {:induction false} SchemasRepresent(eps: seq<Endpoint>)
    ensures Represents(SchemasOf(eps), AllBodies(eps))
  {
    if eps != [] {
      var n := |eps| - 1;
      var ep, before := eps[n], AllBodies(eps[..n]);
      SchemasRepresent(eps[..n]);
      CollectRepresents(SchemasOf(eps[..n]), before, ep.request);
      var asked := Collect(SchemasOf(eps[..n]), ep.request);
      CollectRepresents(asked, before + BodySet(ep.request), ep.response);
      ErrorsRepresent(Collect(asked, ep.response), before + BodySet(ep.request) + BodySet(ep.response), ep.errors);
      AllBodiesExtend(eps, n);
      hide Represents, AllBodies, CollectErrors, ErrorBodies;
      assert before + BodySet(ep.request) + BodySet(ep.response) + ErrorBodies(ep.errors) == AllBodies(eps);
    }
  }

  lemma AllBodiesExtend(eps: seq<Endpoint>, n: nat)
    requires |eps| == n + 1
    ensures AllBodies(eps) == AllBodies(eps[..n]) + Bodies(eps[n])
  {
    hide Bodies;
    assert eps == eps[..n] + [eps[n]];
  }

  // ---------------------------------------------------------------- collected paths

  ghost predicate FiledAt(ep: Endpoint, path: string, method_: string) {
    ep.path == path && Lowered(ep.method_) == method_
  }

  /** Every endpoint has an entry, and every path is that of an endpoint. */
  ghost predicate Covers(paths: map<string, map<string, Any>>, eps: seq<Endpoint>) {
    && (forall ep | ep in eps :: ep.path in paths && Lowered(ep.method_) in paths[ep.path])
    && (forall p | p in paths :: exists ep | ep in eps :: ep.path == p)
  }

  /** Every entry is the operation of an endpoint filed there. */
  ghost predicate Justified(paths: map<string, map<string, Any>>, eps: seq<Endpoint>, service: string) {
    forall p, m | p in paths && m in paths[p] :: exists ep | ep in eps ::
        FiledAt(ep, p, m)
        && paths[p][m] == Operation(ep, service)
  }

  lemma NoPaths(service: string)
    ensures Covers(PathsOf([], service), []) && Justified(PathsOf([], service), [], service)
  {
  }

  lemma {:induction false} PathsCover(eps: seq<Endpoint>, service: string)
    ensures Covers(PathsOf(eps, service), eps)
  {
    hide *;
    if eps == [] {
      NoPaths(service);
    } else {
      var n := |eps| - 1;
      PathsCover(eps[..n], service);
      FileUnderStep(eps, n, service);
      CoversStep(PathsOf(eps[..n], service), eps[..n], eps[n], Operation(eps[n], service));
      assert eps == eps[..n] + [eps[n]];
    }
  }

  lemma CoversStep(paths: map<string, map<string, Any>>, eps: seq<Endpoint>, ep: Endpoint, op: Any)
    requires Covers(paths, eps)
    ensures Covers(FileUnder(paths, ep, op), eps + [ep])
  {
    hide Lowered;
    var all, filed := eps + [ep], FileUnder(paths, ep, op);
    forall p | p in filed
      ensures exists e | e in all :: e.path == p
    {
      if p == ep.path {
        assert ep in all;
      } else {
        var e :| e in eps && e.path == p;
        assert e in all;
      }
    }
  }

  lemma {:induction false} PathsJustified(eps: seq<Endpoint>, service: string)
    ensures Justified(PathsOf(eps, service), eps, service)
  {
    hide *;
    if eps == [] {
      NoPaths(service);
    } else {
      var n := |eps| - 1;
      PathsJustified(eps[..n], service);
      FileUnderStep(eps, n, service);
      JustifiedStep(PathsOf(eps[..n], service), eps[..n], eps[n], service);
      assert eps == eps[..n] + [eps[n]];
    }
  }

  lemma JustifiedStep(paths: map<string, map<string, Any>>, eps: seq<Endpoint>, ep: Endpoint, service: string)
    requires Justified(paths, eps, service)
    ensures Justified(FileUnder(paths, ep, Operation(ep, service)), eps + [ep], service)
  {
    hide Lowered, Operation;
    var all, filed := eps + [ep], FileUnder(paths, ep, Operation(ep, service));
    forall p, m | p in filed && m in filed[p]
      ensures exists e | e in all :: FiledAt(e, p, m) && filed[p][m] == Operation(e, service)
    {
      if p == ep.path && m == Lowered(ep.method_) {
        assert FiledAt(ep, p, m) && ep in all;
      } else {
        var e :| e in eps && FiledAt(e, p, m) && paths[p][m] == Operation(e, service);
        assert e in all;
      }
    }
  }

  lemma FileUnderStep(eps: seq<Endpoint>, n: nat, service: string)
    requires |eps| == n + 1
    ensures PathsOf(eps, service) == FileUnder(PathsOf(eps[..n], service), eps[n], Operation(eps[n], service))
  {
  }

  /** Every endpoint is found in the document under its path and lowered method. */
  lemma EndpointDocumented(eps: seq<Endpoint>, service: string, ep: Endpoint)
    requires DistinctRoutes(eps) && ep in eps && Lowered(ep.method_) != "parameters"
    ensures At(Document(eps, service), ["paths", ep.path, Lowered(ep.method_)])
            == Some(AnyToNode(Operation(ep, service)))
  {
    hide *;
    var paths, m := PathsOf(eps, service), Lowered(ep.method_);
    PathsCover(eps, service);
    PathsJustified(eps, service);
    FiledOnce(eps, service, paths, ep);
    PathFound(paths, ep.path);
    MethodFound(ep.path, paths[ep.path], m);
    PathsAt(eps, service, [ep.path] + [m]);
    AtStep(Mapping(PathEntries(paths)), ep.path, [m]);
    AtLast(PathItem(ep.path, paths[ep.path]), m);
    assert ["paths", ep.path, m] == ["paths"] + ([ep.path] + [m]);
  }

  lemma FiledOnce(eps: seq<Endpoint>, service: string, paths: map<string, map<string, Any>>, ep: Endpoint)
    requires Covers(paths, eps) && Justified(paths, eps, service) && DistinctRoutes(eps) && ep in eps
    ensures ep.path in paths && Lowered(ep.method_) in paths[ep.path]
            && paths[ep.path][Lowered(ep.method_)] == Operation(ep, service)
  {
    hide Operation;
    var m := Lowered(ep.method_);
    var e :| e in eps && FiledAt(e, ep.path, m) && paths[ep.path][m] == Operation(e, service);
    assert e == ep;
  }

  lemma PathsAt(eps: seq<Endpoint>, service: string, path: seq<string>)
    ensures At(Document(eps, service), ["paths"] + path) == At(Mapping(PathEntries(PathsOf(eps, service))), path)
  {
    PathsFiled(TagsPart(eps, service), Mapping(PathEntries(PathsOf(eps, service))),
        Mapping([Entry("schemas", Mapping(SchemaEntries(SchemasOf(eps))))]));
    hide SchemaEntries, SchemasOf, PathEntries, PathsOf, TagsPart, Find, At;
    AtStep(Document(eps, service), "paths", path);
  }

  lemma PathsFiled(tags: seq<Entry>, paths: Node, components: Node)
    requires forall i | 0 <= i < |tags| :: tags[i].key == "tags"
    ensures Find(tags + [Entry("paths", paths), Entry("components", components)], "paths") == Some(paths)
  {
    assert "tags"[0] != "paths"[0];
    FindNothing(tags, "paths");
    FindConcat(tags, [Entry("paths", paths), Entry("components", components)], "paths");
  }

  lemma PathFound(paths: map<string, map<string, Any>>, path: string)
    requires path in paths
    ensures Mapping(PathEntries(paths)).Mapping? && PathItem(path, paths[path]).Mapping?
    ensures Find(PathEntries(paths), path) == Some(PathItem(path, paths[path]))
  {
    hide SortedKeys, StrictlySorted, Find, ParamPart, MethodEntries;
    var keys := SortedKeys(paths.Keys);
    SortedKeysMembers(paths.Keys);
    assert path in keys;
    var i :| 0 <= i < |keys| && keys[i] == path;
    SortedKeysDistinct(keys);
    PathEntryAt(paths, i);
    FindAt(PathEntries(paths), i);
  }

  lemma MethodFound(path: string, methods: map<string, Any>, m: string)
    requires m in methods && m != "parameters"
    ensures PathItem(path, methods).Mapping? && Find(PathItem(path, methods).entries, m) == Some(AnyToNode(methods[m]))
  {
    hide SortedKeys, StrictlySorted, Find, AnyToNode, SplitOn, ParamsOf, ParamList;
    var keys, entries := SortedKeys(methods.Keys), MethodEntries(methods);
    SortedKeysMembers(methods.Keys);
    assert m in keys;
    var i :| 0 <= i < |keys| && keys[i] == m;
    SortedKeysDistinct(keys);
    FindAt(entries, i);
    FindNothing(ParamPart(path), m);
    FindConcat(ParamPart(path), entries, m);
  }

  // ---------------------------------------------------------------- determinism

  ghost predicate SameMembers(a: seq<Endpoint>, b: seq<Endpoint>) {
    forall ep :: ep in a <==> ep in b
  }

  /** One endpoint per path and method, and one schema per type name. */
  ghost predicate DistinctRoutes(eps: seq<Endpoint>) {
    forall e, f | e in eps && f in eps && e.path == f.path && Lowered(e.method_) == Lowered(f.method_) :: e == f
  }

  ghost predicate ConsistentNames(bodies: set<Dto>) {
    forall d, e | d in bodies && e in bodies && d.name == e.name :: d.schema == e.schema
  }

  lemma RepresentedUniquely(s: map<string, Schema>, t: map<string, Schema>, bodies: set<Dto>)
    requires Represents(s, bodies) && Represents(t, bodies) && ConsistentNames(bodies)
    ensures s == t
  {
    forall name
      ensures name in s <==> name in t
      ensures name in s && name in t ==> s[name] == t[name]
    {
      if name in s { assert Dto(name, Some(s[name])) in bodies; }
      if name in t { assert Dto(name, Some(t[name])) in bodies; }
    }
  }

  lemma SamePathKeys(a: seq<Endpoint>, b: seq<Endpoint>, p: map<string, map<string, Any>>,
          q: map<string, map<string, Any>>)
    requires SameMembers(a, b) && Covers(p, a) && Covers(q, b)
    ensures p.Keys == q.Keys
  {
    hide Lowered;
    forall k
      ensures k in p <==> k in q
    {
    }
  }

  /** What one collection files under a path, another collection of the same endpoints files there too. */
  lemma MethodCarried(a: seq<Endpoint>, b: seq<Endpoint>, p: map<string, map<string, Any>>,
          q: map<string, map<string, Any>>, path: string, m: string, service: string)
    requires SameMembers(a, b) && DistinctRoutes(a) && path in p && path in q && m in p[path]
    requires Covers(q, b) && Justified(p, a, service) && Justified(q, b, service)
    ensures m in q[path] && p[path][m] == q[path][m]
  {
    hide Operation;
    var e :| e in a && FiledAt(e, path, m) && p[path][m] == Operation(e, service);
    assert e in b;
    var f :| f in b && FiledAt(f, path, m) && q[path][m] == Operation(f, service);
    assert f in a;
  }

  lemma SameMembersBack(a: seq<Endpoint>, b: seq<Endpoint>)
    requires SameMembers(a, b) && DistinctRoutes(a)
    ensures SameMembers(b, a) && DistinctRoutes(b)
  {
  }

  lemma SameMethods(a: seq<Endpoint>, b: seq<Endpoint>, p: map<string, map<string, Any>>,
          q: map<string, map<string, Any>>, path: string, service: string)
    requires SameMembers(a, b) && DistinctRoutes(a) && path in p && path in q
    requires Covers(p, a) && Covers(q, b) && Justified(p, a, service) && Justified(q, b, service)
    ensures p[path] == q[path]
  {
    hide *;
    SameMembersBack(a, b);
    forall m | m in p[path]
      ensures m in q[path] && p[path][m] == q[path][m]
    {
      MethodCarried(a, b, p, q, path, m, service);
    }
    forall m | m in q[path]
      ensures m in p[path]
    {
      MethodCarried(b, a, q, p, path, m, service);
    }
    assert p[path].Keys == q[path].Keys;
  }

  /** The order in which endpoints are given does not matter, nor does repeating one. */
  lemma DocumentDependsOnSet(a: seq<Endpoint>, b: seq<Endpoint>, service: string)
    requires SameMembers(a, b) && DistinctRoutes(a) && ConsistentNames(AllBodies(a))
    ensures Document(a, service) == Document(b, service)
  {
    assert AllBodies(a) == AllBodies(b);
    assert TagSet(a, service) == TagSet(b, service);
    SchemasRepresent(a);
    SchemasRepresent(b);
    RepresentedUniquely(SchemasOf(a), SchemasOf(b), AllBodies(a));
    SamePaths(a, b, service);
    hide PathsOf, SchemasOf, TagSet, AllBodies;
    assert TagsPart(a, service) == TagsPart(b, service);
  }

  lemma SamePaths(a: seq<Endpoint>, b: seq<Endpoint>, service: string)
    requires SameMembers(a, b) && DistinctRoutes(a)
    ensures PathsOf(a, service) == PathsOf(b, service)
  {
    hide *;
    SameMembersBack(a, b);
    var p, q := PathsOf(a, service), PathsOf(b, service);
    PathsCover(a, service);
    PathsCover(b, service);
    PathsJustified(a, service);
    PathsJustified(b, service);
    SamePathKeys(a, b, p, q);
    forall path | path in p
      ensures p[path] == q[path]
    {
      assert path in p.Keys;
      SameMethods(a, b, p, q, path, service);
    }
    assert p == q;
  }

  // ---------------------------------------------------------------- references

  /** Every reference of the value is one of these. */
  ghost predicate AnyWithin(v: Any, allowed: iset<string>) {
    forall ref | AnyHasRef(v, ref) :: ref in allowed
  }

  lemma ObjectWithin(fields: map<string, Any>, allowed: iset<string>)
    requires forall k | k in fields :: AnyWithin(fields[k], allowed) && (k == "$ref" ==> !fields[k].Text?)
    ensures AnyWithin(Object(fields), allowed)
  {
    forall ref | AnyHasRef(Object(fields), ref)
      ensures ref in allowed
    {
      var k :| k in fields && FieldHasRef(k, fields[k], ref);
      assert AnyWithin(fields[k], allowed);
    }
  }

  lemma RefAnyWithin(name: string, allowed: iset<string>)
    requires RefTo(Schemas, name) in allowed
    ensures AnyWithin(RefAny(name), allowed)
  {
    var fields := RefAny(name).fields;
    forall ref | AnyHasRef(RefAny(name), ref)
      ensures ref == RefTo(Schemas, name)
    {
      var k :| k in fields && FieldHasRef(k, fields[k], ref);
      assert fields[k] == Text(RefTo(Schemas, name)) && !AnyHasRef(fields[k], ref);
    }
  }

  lemma TextWithin(text: string, allowed: iset<string>)
    ensures AnyWithin(Text(text), allowed)
  {
  }

  lemma SingleWithin(key: string, v: Any, allowed: iset<string>)
    requires key != "" && key[0] != '$' && AnyWithin(v, allowed)
    ensures AnyWithin(Object(map[key := v]), allowed)
  {
    hide AnyWithin;
    assert "$ref"[0] == '$';
    ObjectWithin(map[key := v], allowed);
  }

  lemma PairWithin(key: string, v: Any, other: string, w: Any, allowed: iset<string>)
    requires key != "" && key[0] != '$' && AnyWithin(v, allowed)
    requires other != "" && other[0] != '$' && AnyWithin(w, allowed)
    ensures AnyWithin(Object(map[key := v, other := w]), allowed)
  {
    hide AnyWithin;
    assert "$ref"[0] == '$';
    ObjectWithin(map[key := v, other := w], allowed);
  }

  lemma ContentWithin(schema: Any, allowed: iset<string>)
    requires AnyWithin(schema, allowed)
    ensures AnyWithin(Content(schema), allowed)
  {
    hide AnyWithin;
    SingleWithin("schema", schema, allowed);
    SingleWithin("application/json", Object(map["schema" := schema]), allowed);
  }

  lemma BodyResponseWithin(description: string, schema: Any, allowed: iset<string>)
    requires AnyWithin(schema, allowed)
    ensures AnyWithin(BodyResponse(description, schema), allowed)
  {
    TextWithin(description, allowed);
    ContentWithin(schema, allowed);
    hide AnyWithin, Content;
    PairWithin("description", Text(description), "content", Content(schema), allowed);
  }

  lemma RequestWithin(dto: Dto, allowed: iset<string>)
    requires RefTo(Schemas, dto.name) in allowed
    ensures AnyWithin(RequestBody(dto), allowed)
  {
    RefAnyWithin(dto.name, allowed);
    ContentWithin(RefAny(dto.name), allowed);
    assert AnyWithin(Bool(true), allowed);
    hide AnyWithin, Content, RefAny;
    PairWithin("required", Bool(true), "content", Content(RefAny(dto.name)), allowed);
  }

  lemma SuccessWithin(ep: Endpoint, allowed: iset<string>)
    requires ep.response.Some? ==> RefTo(Schemas, ep.response.value.name) in allowed
    ensures AnyWithin(SuccessResponse(ep), allowed)
  {
    TextWithin("success", allowed);
    TextWithin("array", allowed);
    if ep.response.Some? {
      RefAnyWithin(ep.response.value.name, allowed);
      var ref := RefAny(ep.response.value.name);
      hide AnyWithin, RefAny;
      PairWithin("type", Text("array"), "items", ref, allowed);
      BodyResponseWithin("success", if ep.responseIsSlice then Object(map["type" := Text("array"), "items" := ref])
          else ref, allowed);
    } else {
      SingleWithin("description", Text("success"), allowed);
    }
  }

  /** The references to the types an endpoint mentions. */
  ghost function RefsTo(bodies: set<Dto>): iset<string> {
    iset d | d in bodies :: RefTo(Schemas, d.name)
  }

  lemma {:induction false} ResponsesWithin(ep: Endpoint, n: nat, allowed: iset<string>)
    requires n <= |ep.errors| && RefsTo(Bodies(ep)) <= allowed
    ensures forall k | k in Responses(ep, n) :: AnyWithin(Responses(ep, n)[k], allowed) && Responses(ep, n)[k].Object?
  {
    if n == 0 {
      assert ep.response.Some? ==> ep.response.value in Bodies(ep);
      assert ep.response.Some? ==> RefTo(Schemas, ep.response.value.name) in RefsTo(Bodies(ep));
      SuccessWithin(ep, allowed);
    } else {
      ResponsesWithin(ep, n - 1, allowed);
      var e := ep.errors[n - 1];
      if e.body.Some? {
        assert e in ep.errors && e.body.value in Bodies(ep);
        assert RefTo(Schemas, e.body.value.name) in RefsTo(Bodies(ep));
        RefAnyWithin(e.body.value.name, allowed);
        BodyResponseWithin(e.statusText, RefAny(e.body.value.name), allowed);
      }
    }
  }

  lemma OperationWithin(ep: Endpoint, service: string, allowed: iset<string>)
    requires RefsTo(Bodies(ep)) <= allowed
    ensures AnyWithin(Operation(ep, service), allowed)
  {
    ResponsesWithin(ep, |ep.errors|, allowed);
    ObjectWithin(Responses(ep, |ep.errors|), allowed);
    if ep.request.Some? {
      assert ep.request.value in Bodies(ep);
      assert RefTo(Schemas, ep.request.value.name) in RefsTo(Bodies(ep));
      RequestWithin(ep.request.value, allowed);
    }
    FieldsWithin(ep, service, allowed);
  }

  lemma FieldsWithin(ep: Endpoint, service: string, allowed: iset<string>)
    requires AnyWithin(Object(Responses(ep, |ep.errors|)), allowed)
    requires ep.request.Some? ==> AnyWithin(RequestBody(ep.request.value), allowed)
    ensures AnyWithin(Operation(ep, service), allowed)
  {
    TextListWithin(TagsOr(ep.tags, service), allowed);
    forall text { TextWithin(text, allowed); }
    var fields := OperationFields(ep, service);
    hide AnyWithin, Responses, RequestBody, TextList, OpIdOf, RefTo;
    forall k | k in fields
      ensures AnyWithin(fields[k], allowed) && k != "$ref"
    {
      assert k[0] != '$';
    }
    ObjectWithin(fields, allowed);
  }

  lemma TextListWithin(texts: seq<string>, allowed: iset<string>)
    ensures AnyWithin(TextList(texts), allowed)
  {
  }

  ghost function EmittedRefs(schemas: map<string, Schema>): iset<string> {
    iset name | name in schemas :: RefTo(Schemas, name)
  }

  lemma ConvertedWithin(v: Any, allowed: iset<string>)
    requires AnyWithin(v, allowed)
    ensures RefsWithin(AnyToNode(v), allowed)
  {
    forall ref { RefsPreserved(v, ref); }
  }

  lemma PathItemWithin(path: string, methods: map<string, Any>, allowed: iset<string>)
    requires forall m | m in methods :: AnyWithin(methods[m], allowed) && methods[m].Object?
    ensures RefsWithin(PathItem(path, methods), allowed)
  {
    var params, entries := ParamPart(path), MethodEntries(methods);
    ParamsHaveNoRef(ParamsOf(SplitOn(path, '/')), allowed);
    SortedKeysMembers(methods.Keys);
    hide AnyWithin, RefsWithin, AnyToNode, SortedKeys, StrictlySorted, ParamsOf, SplitOn, ParamList;
    forall i | 0 <= i < |entries|
      ensures RefsWithin(entries[i].value, allowed) && entries[i].value.Mapping?
    {
      var m := SortedKeys(methods.Keys)[i];
      assert m in SortedKeys(methods.Keys);
      ConvertedWithin(methods[m], allowed);
      ObjectIsMapping(methods[m]);
    }
    ListIsSequence(ParamList(ParamsOf(SplitOn(path, '/'))));
    MappingWithin(params + entries, allowed);
  }

  lemma ObjectIsMapping(v: Any)
    ensures v.Object? ==> AnyToNode(v).Mapping?
  {
  }

  lemma ListIsSequence(v: Any)
    ensures v.List? ==> AnyToNode(v).Sequence?
  {
  }

  lemma ParamsHaveNoRef(params: seq<string>, allowed: iset<string>)
    ensures RefsWithin(AnyToNode(ParamList(params)), allowed)
  {
    forall i | 0 <= i < |params|
      ensures AnyWithin(ParamList(params).items[i], allowed)
    {
      ParamHasNoRef(params[i], allowed);
    }
    hide ParamAny;
    ConvertedWithin(ParamList(params), allowed);
  }

  lemma ParamHasNoRef(name: string, allowed: iset<string>)
    ensures AnyWithin(ParamAny(name), allowed)
  {
    forall text { TextWithin(text, allowed); }
    assert AnyWithin(Bool(true), allowed);
    hide AnyWithin;
    SingleWithin("type", Text("string"), allowed);
    var fields := ParamAny(name).fields;
    forall k | k in fields
      ensures AnyWithin(fields[k], allowed) && k != "$ref"
    {
      assert k[0] != '$';
    }
    ObjectWithin(fields, allowed);
  }

  /** Every reference in the document is to a schema the document emits. */
  lemma RefsNameEmittedSchemas(eps: seq<Endpoint>, service: string)
    requires forall ep | ep in eps :: Supported(ep)
    ensures RefsWithin(Document(eps, service), EmittedRefs(SchemasOf(eps)))
  {
    var allowed := EmittedRefs(SchemasOf(eps));
    var paths := PathsOf(eps, service);
    PathsJustified(eps, service);
    forall ep | ep in eps { EndpointRefsEmitted(eps, ep); }
    hide PathsOf, SchemasOf, Bodies, Operation, FiledAt, Supported;
    forall p | p in paths
      ensures RefsWithin(PathItem(p, paths[p]), allowed)
    {
      PathRefsEmitted(eps, service, paths[p], p, allowed);
    }
    PathsWithin(paths, allowed);
    SchemasHaveNoRef(SchemasOf(eps), allowed);
    TagListHasNoRef(SortedKeys(TagSet(eps, service)), allowed);
    DocumentWithin(eps, service, allowed);
  }

  lemma PathRefsEmitted(eps: seq<Endpoint>, service: string, methods: map<string, Any>, path: string,
          allowed: iset<string>)
    requires forall ep | ep in eps :: RefsTo(Bodies(ep)) <= allowed
    requires forall m | m in methods :: exists ep | ep in eps ::
             FiledAt(ep, path, m)
             && methods[m] == Operation(ep, service)
    ensures RefsWithin(PathItem(path, methods), allowed)
  {
    hide AnyWithin, RefsWithin, Bodies, FiledAt, OperationFields, RefsTo;
    forall m | m in methods
      ensures AnyWithin(methods[m], allowed) && methods[m].Object?
    {
      var ep :| ep in eps && FiledAt(ep, path, m) && methods[m] == Operation(ep, service);
      OperationWithin(ep, service, allowed);
    }
    PathItemWithin(path, methods, allowed);
  }

  lemma EndpointRefsEmitted(eps: seq<Endpoint>, ep: Endpoint)
    requires ep in eps && Supported(ep)
    ensures RefsTo(Bodies(ep)) <= EmittedRefs(SchemasOf(eps))
  {
    SchemasRepresent(eps);
    hide SchemasOf;
    forall d | d in Bodies(ep)
      ensures RefTo(Schemas, d.name) in EmittedRefs(SchemasOf(eps))
    {
      assert d in AllBodies(eps) && d.schema.Some?;
    }
  }

  lemma PathsWithin(paths: map<string, map<string, Any>>, allowed: iset<string>)
    requires forall p | p in paths :: RefsWithin(PathItem(p, paths[p]), allowed)
    ensures RefsWithin(Mapping(PathEntries(paths)), allowed)
  {
    var entries := PathEntries(paths);
    SortedKeysMembers(paths.Keys);
    hide RefsWithin, SortedKeys, StrictlySorted, ParamPart, MethodEntries;
    forall i | 0 <= i < |entries|
      ensures RefsWithin(entries[i].value, allowed) && entries[i].value.Mapping?
    {
      assert SortedKeys(paths.Keys)[i] in SortedKeys(paths.Keys);
      PathEntryAt(paths, i);
    }
    MappingWithin(entries, allowed);
  }

  lemma DocumentWithin(eps: seq<Endpoint>, service: string, allowed: iset<string>)
    requires RefsWithin(Mapping(PathEntries(PathsOf(eps, service))), allowed)
    requires RefsWithin(Mapping(SchemaEntries(SchemasOf(eps))), allowed)
    requires RefsWithin(AnyToNode(TagList(SortedKeys(TagSet(eps, service)))), allowed)
    ensures RefsWithin(Document(eps, service), allowed)
  {
    hide RefsWithin, PathEntries, PathsOf, SchemaEntries, SchemasOf, TagSet, TagList, SortedKeys;
    var components := [Entry("schemas", Mapping(SchemaEntries(SchemasOf(eps))))];
    MappingWithin(components, allowed);
    ListIsSequence(TagList(SortedKeys(TagSet(eps, service))));
    TagListIsList(SortedKeys(TagSet(eps, service)));
    hide AnyToNode;
    MappingWithin(Document(eps, service).entries, allowed);
  }

  lemma TagListIsList(tags: seq<string>)
    ensures TagList(tags).List?
  {
  }

  /** The reference leads to the emitted schema it names. */
  ghost predicate LeadsToSchema(eps: seq<Endpoint>, service: string, ref: string) {
    exists name | name in SchemasOf(eps) ::
      ref == RefTo(Schemas, name) && Resolves(Document(eps, service), ref, SchemaToNode(SchemasOf(eps)[name]))
  }

  /** With plain type names every reference leads to the schema it names. */
  lemma AllRefsResolve(eps: seq<Endpoint>, service: string)
    requires forall ep | ep in eps :: Supported(ep)
    requires forall name | name in SchemasOf(eps) :: PlainToken(name)
    ensures forall ref | HasRef(Document(eps, service), ref) :: LeadsToSchema(eps, service, ref)
  {
    RefsNameEmittedSchemas(eps, service);
    hide Document, SchemasOf, Supported, HasRef, PlainToken, LeadsToSchema;
    forall ref | HasRef(Document(eps, service), ref)
      ensures LeadsToSchema(eps, service, ref)
    {
      assert ref in EmittedRefs(SchemasOf(eps));
      var name :| name in SchemasOf(eps) && ref == RefTo(Schemas, name);
      RefLeadsToSchema(eps, service, name);
    }
  }

  lemma RefLeadsToSchema(eps: seq<Endpoint>, service: string, name: string)
    requires name in SchemasOf(eps) && PlainToken(name)
    ensures LeadsToSchema(eps, service, RefTo(Schemas, name))
  {
    hide Document, SchemasOf, RefTo, SchemaToNode, At, LeadsAlong, PlainToken, SectionPath;
    SchemaFound(eps, service, name);
    RefLeadsToNameIff(Schemas, name);
    assert Resolves(Document(eps, service), RefTo(Schemas, name), SchemaToNode(SchemasOf(eps)[name]));
  }

  lemma SchemaFound(eps: seq<Endpoint>, service: string, name: string)
    requires name in SchemasOf(eps)
    ensures At(Document(eps, service), SectionPath(Schemas) + [name]) == Some(SchemaToNode(SchemasOf(eps)[name]))
  {
    SchemasPath(name);
    hide *;
    SchemaEmitted(SchemasOf(eps), name);
    ComponentsAt(eps, service, ["schemas"] + [name]);
    SchemasAt(Mapping(SchemaEntries(SchemasOf(eps))), name);
  }

  lemma ComponentsAt(eps: seq<Endpoint>, service: string, path: seq<string>)
    ensures At(Document(eps, service), ["components"] + path)
            == At(Mapping([Entry("schemas", Mapping(SchemaEntries(SchemasOf(eps))))]), path)
  {
    ComponentsFiled(TagsPart(eps, service), Mapping(PathEntries(PathsOf(eps, service))),
        Mapping([Entry("schemas", Mapping(SchemaEntries(SchemasOf(eps))))]));
    hide SchemaEntries, SchemasOf, PathEntries, PathsOf, TagsPart, Find, At;
    AtStep(Document(eps, service), "components", path);
  }

  lemma SchemasPath(name: string)
    ensures SectionPath(Schemas) + [name] == ["components"] + (["schemas"] + [name])
  {
  }

  lemma SchemasAt(schemas: Node, name: string)
    requires schemas.Mapping?
    ensures At(Mapping([Entry("schemas", schemas)]), ["schemas"] + [name]) == Find(schemas.entries, name)
  {
    FindAt([Entry("schemas", schemas)], 0);
    hide Find, At;
    AtStep(Mapping([Entry("schemas", schemas)]), "schemas", [name]);
    AtLast(schemas, name);
  }

  lemma ComponentsFiled(tags: seq<Entry>, paths: Node, components: Node)
    requires forall i | 0 <= i < |tags| :: tags[i].key == "tags"
    ensures Find(tags + [Entry("paths", paths), Entry("components", components)], "components") == Some(components)
  {
    assert "tags"[0] != "components"[0] && "paths"[0] != "components"[0];
    FindNothing(tags, "components");
    FindConcat(tags, [Entry("paths", paths), Entry("components", components)], "components");
  }

  // ---------------------------------------------------------------- emitted schemas

  /** When the mentioned schemas come from declared types, every emitted schema declares what it requires. */
  lemma EmittedSchemasDeclareRequired(eps: seq<Endpoint>, service: string, env: Env, name: string)
    requires forall d | d in AllBodies(eps) :: FromType(env, d)
    requires name in SchemasOf(eps)
    ensures RequiredDeclared(SchemasOf(eps)[name]) && DescribesType(env, name, SchemasOf(eps)[name])
    ensures At(Document(eps, service), SectionPath(Schemas) + [name]) == Some(SchemaToNode(SchemasOf(eps)[name]))
  {
    SchemasRepresent(eps);
    SchemaFound(eps, service, name);
    hide SchemasOf, AllBodies, FromType, RequiredDeclared, DescribesType, Document, At;
    FromTypeRequired(env, Dto(name, Some(SchemasOf(eps)[name])));
  }

  // ---------------------------------------------------------------- responses

  /** Error `i` has a body, and no later error with a body has its status. */
  ghost predicate LastOfStatus(errors: seq<ErrorInfo>, n: nat, i: nat)
    requires i < n <= |errors|
  {
    errors[i].body.Some? && forall j | i < j < n :: errors[j].body.Some? ==> errors[j].status != errors[i].status
  }

  lemma ItoaInjective(a: int, b: int)
    requires Itoa(a) == Itoa(b)
    ensures a == b
  {
    AtoiItoa(a);
    AtoiItoa(b);
  }

  /** Among errors of one status the last one with a body is documented. */
  lemma {:induction false} ErrorDocumented(ep: Endpoint, n: nat, i: nat)
    requires i < n <= |ep.errors| && LastOfStatus(ep.errors, n, i)
    ensures Itoa(ep.errors[i].status) in Responses(ep, n)
    ensures Responses(ep, n)[Itoa(ep.errors[i].status)]
            == BodyResponse(ep.errors[i].statusText, RefAny(ep.errors[i].body.value.name))
  {
    hide Itoa, BodyResponse, RefAny;
    if i < n - 1 {
      ErrorDocumented(ep, n - 1, i);
      if ep.errors[n - 1].body.Some? && Itoa(ep.errors[n - 1].status) == Itoa(ep.errors[i].status) {
        ItoaInjective(ep.errors[n - 1].status, ep.errors[i].status);
      }
    }
  }

  /** The success response is documented unless an error with a body has the same status, and nothing
      else is documented but errors with a body. */
  lemma {:induction false} SuccessDocumented(ep: Endpoint, n: nat)
    requires n <= |ep.errors|
    ensures (forall j | 0 <= j < n && ep.errors[j].body.Some? :: Itoa(ep.errors[j].status) != SuccessCode(ep)) ==>
              SuccessCode(ep) in Responses(ep, n) && Responses(ep, n)[SuccessCode(ep)] == SuccessResponse(ep)
    ensures forall k | k in Responses(ep, n) ::
              k == SuccessCode(ep) || exists j | 0 <= j < n :: ep.errors[j].body.Some? && k == Itoa(ep.errors[j].status)
  {
    hide Itoa, BodyResponse, RefAny, SuccessCode, SuccessResponse;
    if n > 0 {
      SuccessDocumented(ep, n - 1);
    }
  }

  // ---------------------------------------------------------------- operation identifiers

  /** No endpoint names its own identifier, and every method is written in upper-case letters. */
  ghost predicate DerivedIds(eps: seq<Endpoint>) {
    forall ep | ep in eps :: ep.operationId == "" && UpperOnly(ep.method_)
  }

  /** The derived identifiers of a document are pairwise distinct, as section 4.8.10 of the OpenAPI
      Specification 3.1.0 asks, exactly when no two endpoints agree in method and canonical words. */
  lemma DerivedIdsDistinctIff(eps: seq<Endpoint>)
    requires DerivedIds(eps)
    ensures (forall i, j | 0 <= i < j < |eps| :: OpIdOf(eps[i]) != OpIdOf(eps[j]))
            <==> (forall i, j | 0 <= i < j < |eps| ::
                    eps[i].method_ != eps[j].method_ || Canon(Words(eps[i].path)) != Canon(Words(eps[j].path)))
  {
    hide Identifier, Canon, Words, UpperOnly;
    forall i, j | 0 <= i < j < |eps|
      ensures OpIdOf(eps[i]) == OpIdOf(eps[j]) <==>
              eps[i].method_ == eps[j].method_ && Canon(Words(eps[i].path)) == Canon(Words(eps[j].path))
    {
      assert eps[i] in eps && eps[j] in eps;
      RoutesShareIdentifierIff(eps[i].method_, eps[i].path, eps[j].method_, eps[j].path);
    }
  }

  /** On clean endpoints: exactly when no two agree in method and in path up to braces and empty segments. */
  lemma CleanIdsDistinctIff(eps: seq<Endpoint>)
    requires DerivedIds(eps) && forall ep | ep in eps :: Clean(ep.method_, Words(ep.path))
    ensures (forall i, j | 0 <= i < j < |eps| :: OpIdOf(eps[i]) != OpIdOf(eps[j]))
            <==> (forall i, j | 0 <= i < j < |eps| :: eps[i].method_ != eps[j].method_
                                                      || Words(eps[i].path) != Words(eps[j].path))
  {
    DerivedIdsDistinctIff(eps);
    hide OpIdOf, Canon, Words, CleanWord;
    forall i | 0 <= i < |eps|
      ensures Canon(Words(eps[i].path)) == Words(eps[i].path)
    {
      assert eps[i] in eps;
      CanonOfClean(Words(eps[i].path));
    }
  }

  // ---------------------------------------------------------------- tags and parameters

  /** Every tag of every emitted operation is declared at the top level, once, in order. */
  lemma OperationTagsDeclared(eps: seq<Endpoint>, service: string, path: string, method_: string)
    requires path in PathsOf(eps, service) && method_ in PathsOf(eps, service)[path]
    ensures var declared := SortedKeys(TagSet(eps, service));
            && StrictlySorted(declared)
            && TagsPart(eps, service) == [Entry("tags", AnyToNode(TagList(declared)))]
            && exists tags :: OperationHasTags(PathsOf(eps, service)[path][method_], tags)
                && forall t | t in tags :: t in declared
  {
    PathsJustified(eps, service);
    var ep :| ep in eps && FiledAt(ep, path, method_) && PathsOf(eps, service)[path][method_] == Operation(ep, service);
    hide *;
    TagsOfOperation(eps, ep, service);
    SortedKeysMembers(TagSet(eps, service));
  }

  lemma TagsOfOperation(eps: seq<Endpoint>, ep: Endpoint, service: string)
    requires ep in eps
    ensures OperationHasTags(Operation(ep, service), TagsOr(ep.tags, service))
    ensures forall t | t in TagsOr(ep.tags, service) :: t in TagSet(eps, service)
    ensures TagsPart(eps, service) == [Entry("tags", AnyToNode(TagList(SortedKeys(TagSet(eps, service)))))]
  {
    hide AnyToNode, TagList, OpIdOf, Responses, RequestBody;
    assert TagsOr(ep.tags, service)[0] in TagsOr(ep.tags, service);
  }

  ghost predicate OperationHasTags(op: Any, tags: seq<string>) {
    op.Object? && "tags" in op.fields && op.fields["tags"] == TextList(tags)
  }

  /** The parameters of a path item are the braced segments of its path, each once. */
  lemma ParametersListedOnce(path: string)
    ensures var params := ParamsOf(SplitOn(path, '/'));
            && NoDup(params) && (forall name :: name in params <==>
                name != ""
                && "{" + name + "}" in SplitOn(path, '/'))
            && ParamPart(path) == if params == [] then [] else [Entry("parameters", AnyToNode(ParamList(params)))]
  {
    ParamsListedOnce(SplitOn(path, '/'));
  }
}
