/** When no mapping of a generated document repeats a key, which YAML 1.2 demands of every mapping. */
module UniqueKeys {
  import opened Strings
  import opened Ordering
  import opened YamlTree
  import opened JsonSchema
  import opened SpecParts
  import opened OperationId
  import opened Descriptors
  import V = ValuesSpec
  import A = AsyncApi
  import O = OpenApi
  import T = OpenApiTheorems

  /** No mapping in the tree has two entries of one key. */
  ghost predicate KeysUnique(n: Node) {
    match n
    case Scalar(_, _) => true
    case Mapping(entries) =>
      && (forall i, j :: 0 <= i < j < |entries| ==> entries[i].key != entries[j].key)
      && (forall i :: 0 <= i < |entries| ==> KeysUnique(entries[i].value))
    case Sequence(items) => forall i :: 0 <= i < |items| ==> KeysUnique(items[i])
  }

  lemma Joined(a: seq<Entry>, b: seq<Entry>)
    requires KeysUnique(Mapping(a)) && KeysUnique(Mapping(b))
    requires forall i, j :: 0 <= i < |a| && 0 <= j < |b| ==> a[i].key != b[j].key
    ensures KeysUnique(Mapping(a + b))
  {
  }

  /** Every key starts with one of these letters. */
  ghost predicate Initials(entries: seq<Entry>, letters: set<char>) {
    forall i :: 0 <= i < |entries| ==> entries[i].key != "" && entries[i].key[0] in letters
  }

  lemma JoinedByInitial(a: seq<Entry>, s: set<char>, b: seq<Entry>, t: set<char>)
    requires KeysUnique(Mapping(a)) && KeysUnique(Mapping(b)) && Initials(a, s) && Initials(b, t) && s !! t
    ensures KeysUnique(Mapping(a + b)) && Initials(a + b, s + t)
  {
    Joined(a, b);
  }

  lemma SingleEntry(key: string, value: Node)
    requires KeysUnique(value)
    ensures KeysUnique(Mapping([Entry(key, value)]))
  {
  }

  lemma TailUnique(entries: seq<Entry>)
    requires entries != [] && KeysUnique(Mapping(entries))
    ensures KeysUnique(Mapping(entries[1..])) && forall i :: 1 <= i < |entries| ==> entries[i].key != entries[0].key
  {
  }

  lemma OneMore(key: string, value: Node, rest: seq<Entry>)
    requires KeysUnique(value)
    ensures KeysUnique(Mapping([Entry(key, value)] + rest))
            <==> KeysUnique(Mapping(rest)) && forall i :: 0 <= i < |rest| ==> rest[i].key != key
  {
    hide KeysUnique;
    var all: seq<Entry> := [Entry(key, value)] + rest;
    SingleEntry(key, value);
    if KeysUnique(Mapping(rest)) && forall i :: 0 <= i < |rest| ==> rest[i].key != key {
      Joined([Entry(key, value)], rest);
    }
    if KeysUnique(Mapping(all)) {
      TailUnique(all);
      assert all[1..] == rest && all[0].key == key;
      assert forall i | 0 <= i < |rest| :: rest[i] == all[i + 1];
    }
  }

  lemma EntriesOfSet(entries: seq<Entry>, keys: set<string>)
    requires KeysOf(entries) == SortedKeys(keys) && forall i :: 0 <= i < |entries| ==> KeysUnique(entries[i].value)
    ensures KeysUnique(Mapping(entries))
  {
    hide KeysUnique;
    SortedKeysMembers(keys);
    SortedKeysDistinct(SortedKeys(keys));
    hide StrictlySorted, SortedKeys;
    DistinctEntries(entries);
  }

  lemma EntriesUniqueIff(entries: seq<Entry>, keys: set<string>)
    requires KeysOf(entries) == SortedKeys(keys)
    ensures KeysUnique(Mapping(entries)) <==> forall i :: 0 <= i < |entries| ==> KeysUnique(entries[i].value)
  {
    if forall i :: 0 <= i < |entries| ==> KeysUnique(entries[i].value) {
      EntriesOfSet(entries, keys);
    }
  }

  lemma DistinctEntries(entries: seq<Entry>)
    requires NoDup(KeysOf(entries)) && forall i :: 0 <= i < |entries| ==> KeysUnique(entries[i].value)
    ensures KeysUnique(Mapping(entries))
  {
    forall i, j | 0 <= i < j < |entries|
      ensures entries[i].key != entries[j].key
    {
      assert KeysOf(entries)[i] != KeysOf(entries)[j];
    }
  }

  // ---------------------------------------------------------------- values and schemas

  lemma {:induction false} AnyUnique(v: Any)
    ensures KeysUnique(AnyToNode(v))
    decreases v, 1
  {
    hide FieldEntries, SortedKeys;
    match v
    case List(items) =>
      forall i | 0 <= i < |items| { AnyUnique(items[i]); }
    case Object(fields) => ObjectUnique(v);
    case _ =>
  }

  lemma {:induction false} ObjectUnique(v: Any)
    requires v.Object?
    ensures KeysUnique(Mapping(FieldEntries(v, SortedKeys(v.fields.Keys))))
    decreases v, 0
  {
    hide KeysUnique, AnyToNode, SortedKeys, StrictlySorted;
    var keys := SortedKeys(v.fields.Keys);
    var entries := FieldEntries(v, keys);
    SortedKeysMembers(v.fields.Keys);
    forall i | 0 <= i < |entries|
      ensures KeysUnique(entries[i].value)
    {
      assert keys[i] in keys;
      AnyUnique(v.fields[keys[i]]);
    }
    assert KeysOf(entries) == keys;
    EntriesOfSet(entries, v.fields.Keys);
  }

  lemma PartUnique(present: bool, key: string, value: Node, letter: char)
    requires KeysUnique(value) && key != "" && key[0] == letter
    ensures KeysUnique(Mapping(Part(present, key, value))) && Initials(Part(present, key, value), {letter})
  {
  }

  lemma TextsUnique(texts: seq<string>)
    ensures KeysUnique(StrList(texts))
  {
  }

  lemma {:induction false} SchemaUnique(s: Schema)
    ensures KeysUnique(SchemaToNode(s))
    decreases s, 1
  {
    PropertiesUnique(s);
    if s.items.Some? {
      SchemaUnique(s.items.value);
    }
    TextsUnique(s.required);
    SchemaParts(s);
  }

  lemma {:induction false} PropertiesUnique(s: Schema)
    ensures KeysUnique(PropertiesNode(s))
    decreases s, 0
  {
    hide KeysUnique, SchemaToNode, SortedKeys, StrictlySorted;
    var keys := SortedKeys(s.properties.Keys);
    var entries := PropertyEntries(s, keys);
    SortedKeysMembers(s.properties.Keys);
    forall i | 0 <= i < |entries|
      ensures KeysUnique(entries[i].value)
    {
      assert keys[i] in keys;
      SchemaUnique(s.properties[keys[i]]);
    }
    assert KeysOf(entries) == keys;
    EntriesOfSet(entries, s.properties.Keys);
  }

  lemma SchemaParts(s: Schema)
    requires KeysUnique(PropertiesNode(s)) && KeysUnique(StrList(s.required)) && KeysUnique(ItemsNode(s))
    ensures KeysUnique(SchemaToNode(s))
  {
    hide Part, PropertiesNode, StrList, ItemsNode, Initials;
    var a, b := Part(s.kind != "", "type", Str(s.kind)), Part(s.format != "", "format", Str(s.format));
    var c, d := Part(s.description != "", "description", Str(s.description)),
        Part(s.properties != map[], "properties", PropertiesNode(s));
    var e, f := Part(s.required != [], "required", StrList(s.required)), Part(s.items.Some?, "items", ItemsNode(s));
    PartUnique(s.kind != "", "type", Str(s.kind), 't');
    PartUnique(s.format != "", "format", Str(s.format), 'f');
    PartUnique(s.description != "", "description", Str(s.description), 'd');
    PartUnique(s.properties != map[], "properties", PropertiesNode(s), 'p');
    PartUnique(s.required != [], "required", StrList(s.required), 'r');
    PartUnique(s.items.Some?, "items", ItemsNode(s), 'i');
    hide KeysUnique;
    JoinedByInitial(a, {'t'}, b, {'f'});
    JoinedByInitial(a + b, {'t'} + {'f'}, c, {'d'});
    JoinedByInitial(a + b + c, {'t'} + {'f'} + {'d'}, d, {'p'});
    JoinedByInitial(a + b + c + d, {'t'} + {'f'} + {'d'} + {'p'}, e, {'r'});
    JoinedByInitial(a + b + c + d + e, {'t'} + {'f'} + {'d'} + {'p'} + {'r'}, f, {'i'});
  }

  lemma SchemasUnique(schemas: map<string, Schema>)
    ensures KeysUnique(Mapping(SchemaEntries(schemas)))
  {
    hide KeysUnique, SchemaToNode, SortedKeys, StrictlySorted;
    var entries, keys := SchemaEntries(schemas), SortedKeys(schemas.Keys);
    SortedKeysMembers(schemas.Keys);
    forall i | 0 <= i < |entries|
      ensures KeysUnique(entries[i].value)
    {
      assert keys[i] in keys;
      SchemaUnique(schemas[keys[i]]);
    }
    assert KeysOf(entries) == keys;
    EntriesOfSet(entries, schemas.Keys);
  }

  // ---------------------------------------------------------------- the values file

  /** The exposed events never repeat a key, whatever the names. */
  lemma ExposedUnique(ds: seq<Descriptor>)
    ensures KeysUnique(V.ExposedTree(ds))
  {
    var entries := V.ExposedEntries(ds);
    forall i | 0 <= i < |entries|
      ensures KeysUnique(entries[i].value)
    {
      var key := SortedKeys(GroupKeys(ds))[i];
      if Group(ds, key) != [] {
        ExposedGroupUnique(V.GroupOf(ds, key));
      }
    }
    assert KeysOf(entries) == SortedKeys(GroupKeys(ds));
    EntriesOfSet(entries, GroupKeys(ds));
    SingleEntry("exposed", Mapping(entries));
  }

  lemma ExposedGroupUnique(g: V.ExposedGroup)
    ensures KeysUnique(V.GroupNode(g))
  {
    TextsUnique(g.ceTypes);
    hide StrList;
    assert "topic"[0] == 't' && "contentType"[0] == 'c' && "eventTypes"[0] == 'e';
  }

  ghost predicate DistinctEvents(routes: seq<V.Route>) {
    forall i, j :: 0 <= i < j < |routes| ==> routes[i].eventName != routes[j].eventName
  }

  /** The routes repeat no event, so neither do their keys; the converse too, in any arrangement. */
  lemma CqrsUniqueIff(routes: seq<V.Route>, sorted: seq<V.Route>)
    requires V.Arrangement(V.WithEvents(routes), sorted)
    ensures KeysUnique(V.CqrsTree(sorted)) <==> DistinctEvents(V.WithEvents(routes))
  {
    hide V.WithEvents;
    RoutesUniqueIff(sorted);
    if DistinctEvents(sorted) {
      PermutedEvents(sorted, V.WithEvents(routes));
    }
    if DistinctEvents(V.WithEvents(routes)) {
      PermutedEvents(V.WithEvents(routes), sorted);
    }
  }

  lemma PermutedEvents(a: seq<V.Route>, b: seq<V.Route>)
    requires multiset(a) == multiset(b) && DistinctEvents(a)
    ensures DistinctEvents(b)
  {
    MembersByMultiset(a, b);
    NoDupPermuted(a, b);
    forall i, j | 0 <= i < j < |b|
      ensures b[i].eventName != b[j].eventName
    {
      assert b[i] in a && b[j] in a;
      var p :| 0 <= p < |a| && a[p] == b[i];
      var q :| 0 <= q < |a| && a[q] == b[j];
    }
  }

  lemma RoutesUniqueIff(sorted: seq<V.Route>)
    ensures KeysUnique(V.CqrsTree(sorted)) <==> DistinctEvents(sorted)
  {
    var entries := V.CqrsTree(sorted).entries[0].value.entries;
    assert forall i | 0 <= i < |sorted| :: entries[i] == V.RouteEntry(sorted[i]);
    forall i | 0 <= i < |entries|
      ensures KeysUnique(entries[i].value)
    {
      assert "method"[0] != "endpoint"[0];
    }
    if DistinctEvents(sorted) {
      assert KeysUnique(Mapping(entries));
    }
    if KeysUnique(V.CqrsTree(sorted)) {
      assert KeysUnique(V.CqrsTree(sorted).entries[0].value);
      forall i, j | 0 <= i < j < |sorted|
        ensures sorted[i].eventName != sorted[j].eventName
      {
        assert entries[i].key != entries[j].key;
      }
    }
  }

  // ---------------------------------------------------------------- the AsyncAPI document

  lemma TagsUnique(tags: seq<string>)
    ensures KeysUnique(AnyToNode(TagList(tags)))
  {
    AnyUnique(TagList(tags));
  }

  lemma MessageUnique(d: Descriptor, service: string)
    ensures KeysUnique(A.MessageNode(d, service))
  {
    var a := [Entry("name", Str(d.name)), Entry("title", Str(d.name))];
    var b, c, p := A.DescriptionPart(d), [Entry("contentType", Str(d.contentType))], A.PayloadPart(d);
    var e := [Entry("headers", A.HeadersNode(d)), Entry("tags", AnyToNode(TagList(TagsOr(d.tags, service))))];
    HeadersUnique(d);
    TagsUnique(TagsOr(d.tags, service));
    HeadUnique(d);
    hide AnyToNode, TagList, A.HeadersNode;
    assert e[0].key[0] == 'h' && e[1].key[0] == 't' && e[1].key[1] == 'a';
    assert a[0].key[0] == 'n' && a[1].key[1] == 'i';
    var front := a + b + c + p;
    forall i | 0 <= i < |front|
      ensures front[i].key != "tags" && front[i].key != "headers"
    {
      assert i < 2 ==> front[i] == a[i];
    }
    Joined(front, e);
  }

  lemma HeadParts(d: Descriptor)
    ensures var a := [Entry("name", Str(d.name)), Entry("title", Str(d.name))];
            KeysUnique(Mapping(a)) && Initials(a, {'n', 't'})
    ensures KeysUnique(Mapping(A.DescriptionPart(d))) && Initials(A.DescriptionPart(d), {'s', 'd'})
    ensures var c := [Entry("contentType", Str(d.contentType))]; KeysUnique(Mapping(c)) && Initials(c, {'c'})
    ensures KeysUnique(Mapping(A.PayloadPart(d))) && Initials(A.PayloadPart(d), {'p'})
  {
    hide RefTo;
    assert "name"[0] == 'n' && "title"[0] == 't' && "summary"[0] == 's' && "description"[0] == 'd';
    assert "contentType"[0] == 'c' && "payload"[0] == 'p';
    forall ref { RefUnique(ref); }
  }

  lemma HeadUnique(d: Descriptor)
    ensures var a := [Entry("name", Str(d.name)), Entry("title", Str(d.name))];
            KeysUnique(Mapping(a + A.DescriptionPart(d) + [Entry("contentType", Str(d.contentType))]
                               + A.PayloadPart(d)))
  {
    var a := [Entry("name", Str(d.name)), Entry("title", Str(d.name))];
    var b, c, p := A.DescriptionPart(d), [Entry("contentType", Str(d.contentType))], A.PayloadPart(d);
    HeadParts(d);
    hide *;
    JoinedByInitial(a, {'n', 't'}, b, {'s', 'd'});
    JoinedByInitial(a + b, {'n', 't'} + {'s', 'd'}, c, {'c'});
    JoinedByInitial(a + b + c, {'n', 't'} + {'s', 'd'} + {'c'}, p, {'p'});
  }

  lemma HeadersUnique(d: Descriptor)
    ensures KeysUnique(A.HeadersNode(d))
  {
    forall value
      ensures KeysUnique(A.ConstNode(value))
    {
      assert "type"[0] == 't' && "const"[0] == 'c';
    }
    hide A.ConstNode;
    assert "ce-source"[4] == 'o' && "ce-specversion"[4] == 'p' && "ce-type"[3] == 't' && "ce-source"[3] == 's'
           && "ce-specversion"[3] == 's';
    assert KeysUnique(A.HeadersNode(d).entries[1].value);
    assert "type"[0] == 't' && "properties"[0] == 'p';
  }

  lemma MessagesUniqueIff(ds: seq<Descriptor>, service: string)
    ensures KeysUnique(Mapping(A.MessageEntries(ds, service))) <==> DistinctNames(ds)
  {
    hide A.MessageNode;
    var entries := A.MessageEntries(ds, service);
    forall i | 0 <= i < |ds|
      ensures KeysUnique(entries[i].value)
    {
      MessageUnique(ds[i], service);
    }
    forall i, j | 0 <= i < j < |ds|
      ensures entries[i].key != entries[j].key <==> ds[i].name != ds[j].name
    {
    }
    if KeysUnique(Mapping(entries)) {
      forall i, j | 0 <= i < j < |ds|
        ensures ds[i].name != ds[j].name
      {
        assert entries[i].key != entries[j].key;
      }
    }
  }

  lemma ComponentsUniqueIff(ds: seq<Descriptor>, service: string)
    ensures KeysUnique(A.ComponentsTree(ds, service)) <==> DistinctNames(ds)
  {
    MessagesUniqueIff(ds, service);
    SchemasUnique(A.Collected(ds));
    hide A.MessageEntries, SchemaEntries, A.Collected, DistinctNames;
    PairUnique("messages", Mapping(A.MessageEntries(ds, service)), "schemas", Mapping(SchemaEntries(A.Collected(ds))));
  }

  lemma PairUnique(k: string, m: Node, l: string, n: Node)
    requires k != "" && l != "" && k[0] != l[0]
    ensures KeysUnique(Mapping([Entry(k, m), Entry(l, n)])) <==> KeysUnique(m) && KeysUnique(n)
  {
    var entries := [Entry(k, m), Entry(l, n)];
    assert entries[0].value == m && entries[1].value == n;
  }

  lemma RefUnique(ref: string)
    ensures KeysUnique(RefNode(ref))
  {
  }

  lemma RefsUnique(sorted: seq<Descriptor>)
    requires DistinctNames(sorted)
    ensures KeysUnique(Mapping(A.MessageRefs(sorted)))
  {
    hide RefTo;
    forall i | 0 <= i < |sorted|
      ensures KeysUnique(A.MessageRefs(sorted)[i].value)
    {
      RefUnique(RefTo(Messages, sorted[i].name));
    }
  }

  lemma ChannelUnique(group: seq<Descriptor>, key: string)
    requires DistinctNames(group)
    ensures KeysUnique(A.ChannelNode(group, key))
  {
    hide RefTo, Sort, A.ChannelAddress;
    var sorted := Sort(ByName, group);
    PermutedNames(group, sorted);
    RefsUnique(sorted);
    assert "address"[0] != "messages"[0];
    PairUnique("address", Str(A.ChannelAddress(group, key)), "messages", Mapping(A.MessageRefs(sorted)));
  }

  lemma OperationUnique(key: string, service: string, tags: seq<string>)
    ensures KeysUnique(A.OperationNode(key, service, tags))
  {
    TagsUnique(tags);
    RefUnique(RefTo(Channels, key));
    hide AnyToNode, TagList, RefTo, RefNode;
    assert "action"[0] == 'a' && "description"[0] == 'd' && "tags"[0] == 't' && "channel"[0] == 'c';
  }

  lemma ChannelsUnique(ds: seq<Descriptor>)
    requires DistinctNames(ds)
    ensures KeysUnique(Mapping(A.ChannelEntries(ds)))
  {
    hide A.ChannelNode, DistinctNames, Group, GroupKeys;
    var entries, keys := A.ChannelEntries(ds), SortedKeys(GroupKeys(ds));
    forall i | 0 <= i < |entries|
      ensures KeysUnique(entries[i].value)
    {
      GroupDistinct(ds, keys[i]);
      ChannelUnique(Group(ds, keys[i]), keys[i]);
    }
    assert KeysOf(entries) == keys;
    EntriesOfSet(entries, GroupKeys(ds));
  }

  lemma OperationsUnique(ds: seq<Descriptor>, service: string)
    ensures KeysUnique(Mapping(A.OperationEntries(ds, service)))
  {
    hide A.OperationNode, Group, GroupKeys, A.OperationTags;
    var entries, keys := A.OperationEntries(ds, service), SortedKeys(GroupKeys(ds));
    SortedKeysMembers(GroupKeys(ds));
    SortedKeysDistinct(keys);
    forall i | 0 <= i < |entries|
      ensures KeysUnique(entries[i].value)
    {
      OperationUnique(keys[i], service, A.OperationTags(Group(ds, keys[i]), service));
    }
    forall i, j | 0 <= i < j < |entries|
      ensures entries[i].key != entries[j].key
    {
      assert ("send_" + keys[i])[5..] == keys[i] && ("send_" + keys[j])[5..] == keys[j];
    }
  }

  lemma ThreeUnique(channels: Node, operations: Node, components: Node)
    ensures KeysUnique(Mapping([Entry("channels", channels), Entry("operations", operations),
            Entry("components", components)]))
            <==> KeysUnique(channels) && KeysUnique(operations) && KeysUnique(components)
  {
    var entries := [Entry("channels", channels), Entry("operations", operations), Entry("components", components)];
    assert entries[0].key[1] == 'h' && entries[1].key[0] == 'o' && entries[2].key[0] == 'c' && entries[2].key[1] == 'o';
    assert entries[0].key[0] == 'c';
    assert entries[0].value == channels && entries[1].value == operations && entries[2].value == components;
  }

  /** Whichever order the sort left equal names in, the document repeats no key exactly when the
      descriptors' names are distinct. */
  lemma AsyncApiUniqueIff(ds: seq<Descriptor>, messages: seq<Descriptor>, service: string)
    requires multiset(messages) == multiset(ds)
    ensures KeysUnique(A.DocumentOf(ds, messages, service)) <==> DistinctNames(ds)
  {
    ThreeUnique(Mapping(A.ChannelEntries(ds)), Mapping(A.OperationEntries(ds, service)),
        A.ComponentsTree(messages, service));
    ComponentsUniqueIff(messages, service);
    OperationsUnique(ds, service);
    hide KeysUnique, A.ChannelEntries, A.OperationEntries, A.ComponentsTree, DistinctNames;
    if DistinctNames(ds) {
      ChannelsUnique(ds);
      PermutedNames(ds, messages);
    }
    if DistinctNames(messages) {
      PermutedNames(messages, ds);
    }
  }

  // ---------------------------------------------------------------- the OpenAPI document

  lemma MethodsUnique(methods: map<string, Any>)
    ensures KeysUnique(Mapping(O.MethodEntries(methods)))
  {
    var entries, keys := O.MethodEntries(methods), SortedKeys(methods.Keys);
    SortedKeysMembers(methods.Keys);
    forall i | 0 <= i < |entries|
      ensures KeysUnique(entries[i].value)
    {
      assert keys[i] in keys;
      AnyUnique(methods[keys[i]]);
    }
    assert KeysOf(entries) == keys;
    EntriesOfSet(entries, methods.Keys);
  }

  lemma BesideMethodsIff(name: string, node: Node, methods: map<string, Any>)
    requires KeysUnique(node)
    ensures KeysUnique(Mapping([Entry(name, node)] + O.MethodEntries(methods))) <==> name !in methods
  {
    hide KeysUnique, StrictlySorted, AnyToNode, SortedKeys;
    var entries, keys := O.MethodEntries(methods), SortedKeys(methods.Keys);
    MethodsUnique(methods);
    SortedKeysMembers(methods.Keys);
    OneMore(name, node, entries);
    assert forall i | 0 <= i < |entries| :: entries[i].key == keys[i];
    assert name in methods ==> name in keys;
  }

  /** A method that reads like the key under which a path item keeps its parameters, on a path that has some. */
  ghost predicate Shadowed(path: string, methods: set<string>) {
    "parameters" in methods && ParamsOf(SplitOn(path, '/')) != []
  }

  lemma PathItemUniqueIff(path: string, methods: map<string, Any>)
    ensures KeysUnique(O.PathItem(path, methods)) <==> !Shadowed(path, methods.Keys)
  {
    var params := ParamsOf(SplitOn(path, '/'));
    AnyUnique(O.ParamList(params));
    MethodsUnique(methods);
    hide ParamsOf, SplitOn, AnyToNode, O.ParamList, O.MethodEntries, KeysUnique;
    if params == [] {
      assert O.ParamPart(path) + O.MethodEntries(methods) == O.MethodEntries(methods);
    } else {
      BesideMethodsIff("parameters", AnyToNode(O.ParamList(params)), methods);
    }
  }

  lemma PathsUniqueIff(paths: map<string, map<string, Any>>)
    ensures KeysUnique(Mapping(O.PathEntries(paths)))
            <==> forall path | path in paths :: !Shadowed(path, paths[path].Keys)
  {
    hide Shadowed, O.PathItem, StrictlySorted, SortedKeys, KeysUnique;
    var entries, keys := O.PathEntries(paths), SortedKeys(paths.Keys);
    SortedKeysMembers(paths.Keys);
    forall i | 0 <= i < |keys|
      ensures keys[i] in paths && (KeysUnique(entries[i].value) <==> !Shadowed(keys[i], paths[keys[i]].Keys))
    {
      assert keys[i] in keys;
      PathItemUniqueIff(keys[i], paths[keys[i]]);
    }
    assert forall path | path in paths :: path in keys;
    assert KeysOf(entries) == keys;
    EntriesUniqueIff(entries, paths.Keys);
  }

  /** The OpenAPI document repeats a key exactly when a method on a path with parameters is itself called
      "parameters" in some case. */
  lemma OpenApiUniqueIff(eps: seq<O.Endpoint>, service: string)
    ensures KeysUnique(O.Document(eps, service)) <==> forall ep | ep in eps :: !Shadowed(ep.path, {Lowered(ep.method_)})
  {
    hide *;
    DocumentUniqueIff(eps, service);
    T.PathsCover(eps, service);
    T.PathsJustified(eps, service);
    PathsUniqueIff(O.PathsOf(eps, service));
    ShadowedByEndpoint(O.PathsOf(eps, service), eps, service);
  }

  lemma ShadowedByEndpoint(paths: map<string, map<string, Any>>, eps: seq<O.Endpoint>, service: string)
    requires T.Covers(paths, eps) && T.Justified(paths, eps, service)
    ensures (forall path | path in paths :: !Shadowed(path, paths[path].Keys))
            <==> forall ep | ep in eps :: !Shadowed(ep.path, {Lowered(ep.method_)})
  {
    hide ParamsOf, SplitOn, O.Operation, Lowered;
    if ep :| ep in eps && Shadowed(ep.path, {Lowered(ep.method_)}) {
      assert Shadowed(ep.path, paths[ep.path].Keys);
    }
    if path :| path in paths && Shadowed(path, paths[path].Keys) {
      var m := "parameters";
      assert m in paths[path];
      var ep :| ep in eps && T.FiledAt(ep, path, m);
      assert Shadowed(ep.path, {Lowered(ep.method_)});
    }
  }

  lemma DocumentUniqueIff(eps: seq<O.Endpoint>, service: string)
    ensures KeysUnique(O.Document(eps, service)) <==> KeysUnique(Mapping(O.PathEntries(O.PathsOf(eps, service))))
  {
    hide O.PathEntries, O.PathsOf, SchemaEntries, O.SchemasOf, O.TagSet, AnyToNode, TagList, SortedKeys, KeysUnique;
    var tags := SortedKeys(O.TagSet(eps, service));
    TagsUnique(tags);
    SchemasUnique(O.SchemasOf(eps));
    PartsUniqueIff(AnyToNode(TagList(tags)), Mapping(O.PathEntries(O.PathsOf(eps, service))),
        Mapping(SchemaEntries(O.SchemasOf(eps))));
    if O.TagSet(eps, service) == {} {
      assert O.TagsPart(eps, service) == [];
    }
  }

  lemma PartsUniqueIff(tags: Node, paths: Node, schemas: Node)
    requires KeysUnique(tags) && KeysUnique(schemas)
    ensures var rest := [Entry("paths", paths), Entry("components", Mapping([Entry("schemas", schemas)]))];
            && (KeysUnique(Mapping([] + rest)) <==> KeysUnique(paths))
            && (KeysUnique(Mapping([Entry("tags", tags)] + rest)) <==> KeysUnique(paths))
  {
    hide KeysUnique;
    var rest := [Entry("paths", paths), Entry("components", Mapping([Entry("schemas", schemas)]))];
    SingleEntry("schemas", schemas);
    assert "tags"[0] == 't' && "paths"[0] == 'p' && "components"[0] == 'c';
    PairUnique("paths", paths, "components", rest[1].value);
    OneMore("tags", tags, rest);
    assert [] + rest == rest;
  }
}
