/** Agreement between the generated Helm values and the AsyncAPI document of the same descriptors. */
module CrossDocument {
  import opened Wrappers
  import opened Ordering
  import opened YamlTree
  import opened JsonSchema
  import opened SpecParts
  import opened Descriptors
  import opened ValuesSpec
  import opened AsyncApi

  // ---------------------------------------------------------------- reading the trees

  /** The `ce-type` constant in the headers of a message. */
  ghost predicate HasCeType(message: Option<Node>, ceType: string) {
    message.Some? && At(message.value, ["headers", "properties", "ce-type", "const"]) == Some(Str(ceType))
  }

  /** The channel lists one reference per type, each to a message component carrying that type. */
  ghost predicate ChannelCarries(doc: Node, channel: Node, types: seq<string>) {
    && channel.Mapping? && Find(channel.entries, "messages").Some? && Find(channel.entries, "messages").value.Mapping?
    && var messages := Find(channel.entries, "messages").value.entries;
    && |messages| == |types|
    && forall i | 0 <= i < |types| ::
      && messages[i].value == RefNode(RefTo(Messages, messages[i].key))
      && HasCeType(At(doc, SectionPath(Messages) + [messages[i].key]), types[i])
  }

  /** An exposed entry and a channel tell the same story. */
  ghost predicate Agree(doc: Node, exposed: Entry, channel: Entry) {
    && exposed.key == channel.key
    && exposed.value.Mapping? && channel.value.Mapping?
    && Find(channel.value.entries, "address")
       == (if Find(exposed.value.entries, "topic").Some? then Find(exposed.value.entries, "topic")
           else Some(Str(exposed.key)))
    && exists types :: ChannelCarries(doc, channel.value, types)
                       && Find(exposed.value.entries, "eventTypes") == Some(StrList(SortStrings(types)))
  }

  // ---------------------------------------------------------------- following references

  lemma MessageFound(ds: seq<Descriptor>, service: string, d: Descriptor)
    requires DistinctNames(ds) && d in ds
    ensures At(Document(ds, service), SectionPath(Messages) + [d.name]) == Some(MessageNode(d, service))
  {
    var sorted := Sort(ByName, ds);
    SortedMembers(ds);
    assert Permutation(ds, sorted);
    hide *;
    PermutedNames(ds, sorted);
    var i :| 0 <= i < |sorted| && sorted[i] == d;
    MessageAmong(sorted, service, i);
    MessagesAt(ds, service, d.name);
  }

  lemma MessageAmong(sorted: seq<Descriptor>, service: string, i: nat)
    requires DistinctNames(sorted) && i < |sorted|
    ensures Find(MessageEntries(sorted, service), sorted[i].name) == Some(MessageNode(sorted[i], service))
  {
    hide MessageNode, Find;
    FindAt(MessageEntries(sorted, service), i);
  }

  lemma MessagesAt(ds: seq<Descriptor>, service: string, name: string)
    ensures At(Document(ds, service), SectionPath(Messages) + [name])
            == Find(MessageEntries(Sort(ByName, ds), service), name)
  {
    var components := ComponentsTree(Sort(ByName, ds), service);
    FindAt(components.entries, 0);
    hide Document, MessageEntries, SchemaEntries, Sort, Collected, Find, At;
    assert SectionPath(Messages) + [name] == ["components"] + (["messages"] + [name]);
    ComponentsAt(ds, service, ["messages"] + [name]);
    AtStep(components, "messages", [name]);
    AtLast(components.entries[0].value, name);
  }

  lemma SchemasAt(ds: seq<Descriptor>, service: string, name: string)
    ensures At(Document(ds, service), SectionPath(Schemas) + [name])
            == Find(SchemaEntries(Collected(Sort(ByName, ds))), name)
  {
    var components := ComponentsTree(Sort(ByName, ds), service);
    SchemasFiled(MessageEntries(Sort(ByName, ds), service), SchemaEntries(Collected(Sort(ByName, ds))));
    hide Document, MessageEntries, SchemaEntries, Sort, Collected, Find, At;
    assert SectionPath(Schemas) + [name] == ["components"] + (["schemas"] + [name]);
    ComponentsAt(ds, service, ["schemas"] + [name]);
    AtStep(components, "schemas", [name]);
    AtLast(components.entries[1].value, name);
  }

  lemma SchemasFiled(messages: seq<Entry>, schemas: seq<Entry>)
    ensures Find([Entry("messages", Mapping(messages)), Entry("schemas", Mapping(schemas))], "schemas")
            == Some(Mapping(schemas))
  {
    assert "messages"[0] != "schemas"[0];
  }

  lemma ComponentsFiled(channels: Node, operations: Node, components: Node)
    ensures Find([Entry("channels", channels), Entry("operations", operations), Entry("components", components)],
            "components") == Some(components)
  {
    var a, b, c := Entry("channels", channels), Entry("operations", operations), Entry("components", components);
    assert a.key[1] != c.key[1] && b.key[0] != c.key[0];
    assert [a, b, c][1..] == [b, c];
    assert Find([b, c], "components") == Some(components);
  }

  lemma ComponentsAt(ds: seq<Descriptor>, service: string, path: seq<string>)
    ensures At(Document(ds, service), ["components"] + path) == At(ComponentsTree(Sort(ByName, ds), service), path)
  {
    ComponentsFiled(Mapping(ChannelEntries(ds)), Mapping(OperationEntries(ds, service)),
        ComponentsTree(Sort(ByName, ds), service));
    hide Find, At, ChannelEntries, OperationEntries, ComponentsTree, Sort;
    AtStep(Document(ds, service), "components", path);
  }

  lemma ChannelFound(ds: seq<Descriptor>, service: string, key: string)
    requires key in GroupKeys(ds)
    ensures At(Document(ds, service), SectionPath(Channels) + [key]) == Some(ChannelNode(Group(ds, key), key))
  {
    hide ChannelNode, OperationEntries, ComponentsTree, GroupKeys, SortedKeys;
    var keys, channels := SortedKeys(GroupKeys(ds)), ChannelEntries(ds);
    SortedKeysMembers(GroupKeys(ds));
    assert key in keys;
    var i :| 0 <= i < |keys| && keys[i] == key;
    SortedKeysDistinct(keys);
    FindAt(channels, i);
    AtStep(Document(ds, service), "channels", [key]);
    AtLast(Mapping(channels), key);
  }

  lemma SchemaFound(ds: seq<Descriptor>, service: string, name: string)
    requires name in Collected(Sort(ByName, ds))
    ensures At(Document(ds, service), SectionPath(Schemas) + [name])
            == Some(SchemaToNode(Collected(Sort(ByName, ds))[name]))
  {
    hide Document, SchemaToNode, Collected, Sort, SchemaEntries;
    SchemaEmitted(Collected(Sort(ByName, ds)), name);
    SchemasAt(ds, service, name);
  }

  lemma {:induction false} PayloadCollected(ds: seq<Descriptor>, d: Descriptor)
    requires d in ds && d.payload.Some? && Supported(d)
    ensures d.payload.value.name in Collected(ds)
  {
    if d != ds[|ds| - 1] {
      PayloadCollected(ds[..|ds| - 1], d);
    }
  }

  lemma CeTypeFound(d: Descriptor, service: string)
    ensures HasCeType(Some(MessageNode(d, service)), d.ceType)
  {
    var a := [Entry("name", Str(d.name)), Entry("title", Str(d.name))];
    var b, c, p := DescriptionPart(d), [Entry("contentType", Str(d.contentType))], PayloadPart(d);
    var e := [Entry("headers", HeadersNode(d)), Entry("tags", AnyToNode(TagList(TagsOr(d.tags, service))))];
    NotAmong(a + b + c + p, "headers");
    FindConcat(a + b + c + p, e, "headers");
    hide AnyToNode, TagList, DescriptionPart, PayloadPart;
    assert ["headers", "properties", "ce-type", "const"] == ["headers"] + ["properties", "ce-type", "const"];
    AtStep(MessageNode(d, service), "headers", ["properties", "ce-type", "const"]);
    CeTypeInHeaders(d);
  }

  lemma NotAmong(entries: seq<Entry>, key: string)
    requires forall i | 0 <= i < |entries| :: entries[i].key != key
    ensures Find(entries, key) == None
  {
    FindNothing(entries, key);
  }

  lemma CeTypeInHeaders(d: Descriptor)
    ensures At(HeadersNode(d), ["properties", "ce-type", "const"]) == Some(Str(d.ceType))
  {
    var props := HeadersNode(d).entries[1].value;
    FindAt(HeadersNode(d).entries, 1);
    FindAt(props.entries, 2);
    FindAt(ConstNode(d.ceType).entries, 1);
    hide Find;
    assert ["properties", "ce-type", "const"] == ["properties"] + (["ce-type"] + ["const"]);
    AtStep(HeadersNode(d), "properties", ["ce-type"] + ["const"]);
    AtStep(props, "ce-type", ["const"]);
    AtLast(ConstNode(d.ceType), "const");
  }

  // ---------------------------------------------------------------- agreement

  /** Whenever the values generator accepts descriptors with distinct names, the two documents agree entry by entry. */
  lemma DocumentsAgree(ds: seq<Descriptor>, service: string)
    requires DistinctNames(ds) && AllTopicsAgree(ds)
    ensures KeysOf(ExposedEntries(ds)) == KeysOf(ChannelEntries(ds))
    ensures forall i | 0 <= i < |ExposedEntries(ds)| ::
            Agree(Document(ds, service), ExposedEntries(ds)[i], ChannelEntries(ds)[i])
  {
    var keys := SortedKeys(GroupKeys(ds));
    SortedKeysMembers(GroupKeys(ds));
    forall i | 0 <= i < |keys|
      ensures Agree(Document(ds, service), ExposedEntries(ds)[i], ChannelEntries(ds)[i])
    {
      assert keys[i] in keys;
      GroupNonEmpty(ds, keys[i]);
      GroupAgrees(ds, service, keys[i]);
    }
    hide *;
    assert KeysOf(ExposedEntries(ds)) == KeysOf(ChannelEntries(ds)) by {
      KeysAlike(ds);
    }
  }

  lemma KeysAlike(ds: seq<Descriptor>)
    ensures KeysOf(ExposedEntries(ds)) == KeysOf(ChannelEntries(ds))
  {
    hide GroupKeys, SortedKeys, Group, GroupOf;
  }

  lemma GroupAgrees(ds: seq<Descriptor>, service: string, key: string)
    requires DistinctNames(ds) && TopicsAgree(Group(ds, key)) && Group(ds, key) != [] && key in GroupKeys(ds)
    ensures Agree(Document(ds, service), Entry(key, GroupNode(GroupOf(ds, key))),
            Entry(key, ChannelNode(Group(ds, key), key)))
  {
    var group, g := Group(ds, key), GroupOf(ds, key);
    var sorted := Sort(ByName, group);
    SortedMembers(group);
    assert sorted[0] in group;
    AddressOfAgreeing(group, key, g.topic);
    GroupNodeParts(g);
    ChannelNodeParts(group, key);
    var types := CeTypes(sorted);
    PermutedCeTypes(sorted, group);
    SortStringsUnique(types, CeTypes(group));
    TypesCarried(ds, service, key);
  }

  lemma TypesCarried(ds: seq<Descriptor>, service: string, key: string)
    requires DistinctNames(ds)
    ensures ChannelCarries(Document(ds, service), ChannelNode(Group(ds, key), key),
            CeTypes(Sort(ByName, Group(ds, key))))
  {
    var sorted := Sort(ByName, Group(ds, key));
    ChannelNodeParts(Group(ds, key), key);
    forall i | 0 <= i < |sorted|
      ensures HasCeType(At(Document(ds, service), SectionPath(Messages) + [sorted[i].name]), sorted[i].ceType)
    {
      SortedMembers(Group(ds, key));
      GroupMembers(ds, key);
      assert sorted[i] in sorted;
      MessageFound(ds, service, sorted[i]);
      CeTypeFound(sorted[i], service);
    }
  }

  lemma GroupNodeParts(g: ExposedGroup)
    ensures Find(GroupNode(g).entries, "topic") == if g.topic == "" then None else Some(Str(g.topic))
    ensures Find(GroupNode(g).entries, "eventTypes") == Some(StrList(g.ceTypes))
  {
    var entries := GroupNode(g).entries;
    if g.topic == "" {
      FindAt(entries, 1);
      FindNothing(entries, "topic");
    } else {
      FindAt(entries, 0);
      FindAt(entries, 2);
    }
  }

  lemma ChannelNodeParts(group: seq<Descriptor>, key: string)
    ensures Find(ChannelNode(group, key).entries, "address") == Some(Str(ChannelAddress(group, key)))
    ensures Find(ChannelNode(group, key).entries, "messages") == Some(Mapping(MessageRefs(Sort(ByName, group))))
  {
    var entries := ChannelNode(group, key).entries;
    FindAt(entries, 0);
    FindAt(entries, 1);
  }

  // ---------------------------------------------------------------- reference closure

  /** No name the document points at needs escaping in a reference. */
  ghost predicate PlainNames(ds: seq<Descriptor>) {
    forall d | d in ds :: PlainToken(d.name) && PlainToken(GroupKey(d))
        && (d.payload.Some? ==> PlainToken(d.payload.value.name))
  }

  ghost predicate LeadsToMessage(ds: seq<Descriptor>, service: string, ref: string) {
    exists d | d in ds ::
      ref == RefTo(Messages, d.name) && Resolves(Document(ds, service), ref, MessageNode(d, service))
  }

  ghost predicate LeadsToChannel(ds: seq<Descriptor>, service: string, ref: string) {
    exists key | key in GroupKeys(ds) ::
      ref == RefTo(Channels, key) && Resolves(Document(ds, service), ref, ChannelNode(Group(ds, key), key))
  }

  ghost predicate LeadsToSchema(ds: seq<Descriptor>, service: string, ref: string) {
    var schemas := Collected(Sort(ByName, ds));
    exists name | name in schemas ::
      ref == RefTo(Schemas, name) && Resolves(Document(ds, service), ref, SchemaToNode(schemas[name]))
  }

  /** The references that lead to the channel, message or schema they name. */
  ghost function Leading(ds: seq<Descriptor>, service: string): iset<string> {
    iset ref | LeadsToChannel(ds, service, ref) || LeadsToMessage(ds, service, ref) || LeadsToSchema(ds, service, ref)
  }

  lemma MessageRefLeads(ds: seq<Descriptor>, service: string, d: Descriptor)
    requires DistinctNames(ds) && d in ds && PlainToken(d.name)
    ensures RefTo(Messages, d.name) in Leading(ds, service)
  {
    hide Document, MessageNode, At, RefTo, Resolves, PlainToken, LeadsToChannel, LeadsToSchema;
    MessageFound(ds, service, d);
    RefResolves(Document(ds, service), Messages, d.name);
  }

  lemma ChannelRefLeads(ds: seq<Descriptor>, service: string, key: string)
    requires key in GroupKeys(ds) && PlainToken(key)
    ensures RefTo(Channels, key) in Leading(ds, service)
  {
    hide Document, ChannelNode, At, RefTo, Resolves, PlainToken, LeadsToMessage, LeadsToSchema, GroupKeys, Group;
    ChannelFound(ds, service, key);
    RefResolves(Document(ds, service), Channels, key);
  }

  lemma SchemaRefLeads(ds: seq<Descriptor>, service: string, name: string)
    requires name in Collected(Sort(ByName, ds)) && PlainToken(name)
    ensures RefTo(Schemas, name) in Leading(ds, service)
  {
    hide Document, SchemaToNode, At, RefTo, Resolves, PlainToken, LeadsToMessage, LeadsToChannel, Collected, Sort;
    SchemaFound(ds, service, name);
    RefResolves(Document(ds, service), Schemas, name);
  }

  lemma ChannelRefsResolve(ds: seq<Descriptor>, service: string, key: string)
    requires DistinctNames(ds) && PlainNames(ds)
    ensures RefsWithin(ChannelNode(Group(ds, key), key), Leading(ds, service))
  {
    var allowed := Leading(ds, service);
    var sorted := Sort(ByName, Group(ds, key));
    var refs := MessageRefs(sorted);
    SortedMembers(Group(ds, key));
    GroupMembers(ds, key);
    hide Leading, Document, RefsWithin, Sort, Group, At;
    forall i | 0 <= i < |refs|
      ensures RefsWithin(refs[i].value, allowed) && refs[i].value.Mapping?
    {
      assert sorted[i] in sorted;
      MessageRefLeads(ds, service, sorted[i]);
      RefNodeWithin(RefTo(Messages, sorted[i].name), allowed);
    }
    MappingWithin(refs, allowed);
    ScalarWithin(ChannelAddress(Group(ds, key), key), allowed);
    assert "address"[0] != "$ref"[0];
    MappingWithin(ChannelNode(Group(ds, key), key).entries, allowed);
  }

  lemma OperationRefsResolve(ds: seq<Descriptor>, service: string, key: string, tags: seq<string>)
    requires PlainToken(key) && key in GroupKeys(ds)
    ensures RefsWithin(OperationNode(key, service, tags), Leading(ds, service))
  {
    var allowed := Leading(ds, service);
    hide *;
    ChannelRefLeads(ds, service, key);
    RefNodeWithin(RefTo(Channels, key), allowed);
    TagListHasNoRef(tags, allowed);
    OperationPartsWithin(key, service, tags, allowed);
  }

  lemma OperationPartsWithin(key: string, service: string, tags: seq<string>, allowed: iset<string>)
    requires RefsWithin(AnyToNode(TagList(tags)), allowed) && RefsWithin(RefNode(RefTo(Channels, key)), allowed)
    ensures RefsWithin(OperationNode(key, service, tags), allowed)
  {
    hide RefsWithin, AnyToNode, TagList, RefTo;
    forall text { ScalarWithin(text, allowed); }
    var entries := OperationNode(key, service, tags).entries;
    assert entries[0].key[0] == 'a' && entries[1].key[0] == 'd' && entries[2].key[0] == 't' && entries[3].key[0] == 'c';
    MappingWithin(entries, allowed);
  }

  lemma MessageRefsResolve(ds: seq<Descriptor>, service: string, d: Descriptor)
    requires PlainNames(ds) && d in ds && Supported(d)
    ensures RefsWithin(MessageNode(d, service), Leading(ds, service))
  {
    var allowed := Leading(ds, service);
    if d.payload.Some? {
      SortedMembers(ds);
      PayloadCollected(Sort(ByName, ds), d);
      SchemaRefLeads(ds, service, d.payload.value.name);
      RefNodeWithin(RefTo(Schemas, d.payload.value.name), allowed);
    }
    TagListHasNoRef(TagsOr(d.tags, service), allowed);
    HeadersHaveNoRef(d, allowed);
    MessagePartsWithin(d, service, allowed);
  }

  lemma HeadersHaveNoRef(d: Descriptor, allowed: iset<string>)
    ensures RefsWithin(HeadersNode(d), allowed)
  {
    ConstHasNoRef(d.ceSource, allowed);
    ConstHasNoRef(d.version, allowed);
    ConstHasNoRef(d.ceType, allowed);
    ScalarWithin("object", allowed);
    hide RefsWithin, ConstNode;
    var props := HeadersNode(d).entries[1].value.entries;
    assert props[0].key[0] == props[1].key[0] == props[2].key[0] == 'c';
    MappingWithin(props, allowed);
    assert HeadersNode(d).entries[0].key[0] == 't' && HeadersNode(d).entries[1].key[0] == 'p';
    MappingWithin(HeadersNode(d).entries, allowed);
  }

  lemma ConstHasNoRef(value: string, allowed: iset<string>)
    ensures RefsWithin(ConstNode(value), allowed)
  {
    ScalarWithin("string", allowed);
    ScalarWithin(value, allowed);
    hide RefsWithin;
    assert ConstNode(value).entries[0].key[0] == 't' && ConstNode(value).entries[1].key[0] == 'c';
    MappingWithin(ConstNode(value).entries, allowed);
  }

  lemma MessagePartsWithin(d: Descriptor, service: string, allowed: iset<string>)
    requires RefsWithin(AnyToNode(TagList(TagsOr(d.tags, service))), allowed) && RefsWithin(HeadersNode(d), allowed)
    requires d.payload.Some? ==> RefsWithin(RefNode(RefTo(Schemas, d.payload.value.name)), allowed)
    ensures RefsWithin(MessageNode(d, service), allowed)
  {
    hide RefsWithin, AnyToNode, TagList, HeadersNode, RefTo;
    forall text { ScalarWithin(text, allowed); }
    var entries := MessageNode(d, service).entries;
    forall i | 0 <= i < |entries|
      ensures RefsWithin(entries[i].value, allowed) && entries[i].key != "$ref"
    {
      assert entries[i].key[0] != '$';
    }
    MappingWithin(entries, allowed);
  }

  /** Every reference in the document leads to the channel, message or schema it names. */
  lemma AllRefsResolve(ds: seq<Descriptor>, service: string)
    requires DistinctNames(ds) && PlainNames(ds) && forall d | d in ds :: Supported(d)
    ensures forall ref | HasRef(Document(ds, service), ref) ::
              LeadsToChannel(ds, service, ref) || LeadsToMessage(ds, service, ref) || LeadsToSchema(ds, service, ref)
  {
    hide HasRef, Document, LeadsToChannel, LeadsToMessage, LeadsToSchema;
    ChannelsResolve(ds, service);
    OperationsResolve(ds, service);
    ComponentsResolve(ds, service);
    DocumentPartsWithin(ds, service, Leading(ds, service));
  }

  lemma DocumentPartsWithin(ds: seq<Descriptor>, service: string, allowed: iset<string>)
    requires RefsWithin(Mapping(ChannelEntries(ds)), allowed)
             && RefsWithin(Mapping(OperationEntries(ds, service)), allowed)
    requires RefsWithin(ComponentsTree(Sort(ByName, ds), service), allowed)
    ensures RefsWithin(Document(ds, service), allowed)
  {
    hide RefsWithin, ChannelEntries, OperationEntries, MessageEntries, SchemaEntries, Sort;
    ThreePartsWithin(Mapping(ChannelEntries(ds)), Mapping(OperationEntries(ds, service)),
        ComponentsTree(Sort(ByName, ds), service), allowed);
  }

  lemma ThreePartsWithin(channels: Node, operations: Node, components: Node, allowed: iset<string>)
    requires RefsWithin(channels, allowed) && RefsWithin(operations, allowed) && RefsWithin(components, allowed)
    requires channels.Mapping? && operations.Mapping? && components.Mapping?
    ensures RefsWithin(Mapping([Entry("channels", channels), Entry("operations", operations),
            Entry("components", components)]), allowed)
  {
    hide RefsWithin;
    MappingWithin([Entry("channels", channels), Entry("operations", operations), Entry("components", components)],
        allowed);
  }

  lemma ChannelsResolve(ds: seq<Descriptor>, service: string)
    requires DistinctNames(ds) && PlainNames(ds)
    ensures RefsWithin(Mapping(ChannelEntries(ds)), Leading(ds, service))
  {
    hide Document, RefsWithin, GroupKeys, Group, DistinctNames, PlainNames, SortedKeys, Leading;
    forall i | 0 <= i < |ChannelEntries(ds)|
      ensures RefsWithin(ChannelEntries(ds)[i].value, Leading(ds, service)) && ChannelEntries(ds)[i].value.Mapping?
    {
      ChannelRefsResolve(ds, service, SortedKeys(GroupKeys(ds))[i]);
    }
    MappingWithin(ChannelEntries(ds), Leading(ds, service));
  }

  lemma OperationsResolve(ds: seq<Descriptor>, service: string)
    requires PlainNames(ds)
    ensures RefsWithin(Mapping(OperationEntries(ds, service)), Leading(ds, service))
  {
    SortedKeysMembers(GroupKeys(ds));
    hide Document, RefsWithin, Group, DistinctNames, SortedKeys, Leading;
    forall i | 0 <= i < |OperationEntries(ds, service)|
      ensures RefsWithin(OperationEntries(ds, service)[i].value, Leading(ds, service))
              && OperationEntries(ds, service)[i].value.Mapping?
    {
      var key := SortedKeys(GroupKeys(ds))[i];
      assert key in GroupKeys(ds);
      OperationRefsResolve(ds, service, key, OperationTags(Group(ds, key), service));
    }
    MappingWithin(OperationEntries(ds, service), Leading(ds, service));
  }

  lemma ComponentsResolve(ds: seq<Descriptor>, service: string)
    requires PlainNames(ds) && forall d | d in ds :: Supported(d)
    ensures RefsWithin(ComponentsTree(Sort(ByName, ds), service), Leading(ds, service))
  {
    var sorted, allowed := Sort(ByName, ds), Leading(ds, service);
    SortedMembers(ds);
    hide Document, RefsWithin, DistinctNames, Sort, Leading, MessageNode;
    var messages := MessageEntries(sorted, service);
    forall i | 0 <= i < |messages|
      ensures RefsWithin(messages[i].value, allowed) && messages[i].value.Mapping?
    {
      assert sorted[i] in sorted;
      MessageRefsResolve(ds, service, sorted[i]);
      MessageIsMapping(sorted[i], service);
    }
    MappingWithin(messages, allowed);
    SchemasHaveNoRef(Collected(sorted), allowed);
    MappingWithin(ComponentsTree(sorted, service).entries, allowed);
  }

  lemma MessageIsMapping(d: Descriptor, service: string)
    ensures MessageNode(d, service).Mapping?
  {
  }

  // ---------------------------------------------------------------- emitted schemas

  lemma {:induction false} CollectedFrom(ds: seq<Descriptor>, name: string)
    requires name in Collected(ds)
    ensures exists d | d in ds :: d.payload == Some(Dto(name, Some(Collected(ds)[name])))
  {
    var last, before := ds[|ds| - 1], ds[..|ds| - 1];
    if last.payload.Some? && last.payload.value.schema.Some? && last.payload.value.name == name {
      assert last.payload.value == Dto(name, Some(Collected(ds)[name]));
    } else {
      CollectedFrom(before, name);
      var d :| d in before && d.payload == Some(Dto(name, Some(Collected(before)[name])));
      assert d in ds;
    }
  }

  /** When payload schemas come from declared types, every emitted schema declares what it requires. */
  lemma EmittedSchemasDeclareRequired(ds: seq<Descriptor>, service: string, env: Env, name: string)
    requires forall d | d in ds && d.payload.Some? :: FromType(env, d.payload.value)
    requires name in Collected(Sort(ByName, ds))
    ensures var s := Collected(Sort(ByName, ds))[name];
            && RequiredDeclared(s) && DescribesType(env, name, s)
            && At(Document(ds, service), SectionPath(Schemas) + [name]) == Some(SchemaToNode(s))
  {
    var sorted := Sort(ByName, ds);
    SortedMembers(ds);
    CollectedFrom(sorted, name);
    SchemaFound(ds, service, name);
    hide Collected, Sort, FromType, RequiredDeclared, DescribesType, Document, At;
    var d :| d in sorted && d.payload == Some(Dto(name, Some(Collected(sorted)[name])));
    FromTypeRequired(env, d.payload.value);
  }

  // ---------------------------------------------------------------- order of the input

  /** Only operation tags follow the input order; channels and components do not. */
  lemma ChannelsAndComponentsIgnoreOrder(a: seq<Descriptor>, b: seq<Descriptor>, service: string)
    requires Permutation(a, b) && DistinctNames(a) && AllTopicsAgree(a)
    ensures ChannelEntries(a) == ChannelEntries(b)
    ensures ComponentsTree(Sort(ByName, a), service) == ComponentsTree(Sort(ByName, b), service)
  {
    PermutedSort(a, b);
    PermutedGroups(a, b, "");
    var keys := SortedKeys(GroupKeys(a));
    SortedKeysMembers(GroupKeys(a));
    forall i | 0 <= i < |keys|
      ensures ChannelEntries(a)[i] == ChannelEntries(b)[i]
    {
      assert keys[i] in keys;
      PermutedChannel(a, b, keys[i]);
    }
    hide GroupKeys, Group, SortedKeys;
    assert ChannelEntries(a) == ChannelEntries(b);
  }

  lemma PermutedChannel(a: seq<Descriptor>, b: seq<Descriptor>, key: string)
    requires Permutation(a, b) && DistinctNames(a) && TopicsAgree(Group(a, key)) && key in GroupKeys(a)
    ensures ChannelNode(Group(a, key), key) == ChannelNode(Group(b, key), key)
  {
    PermutedGroups(a, b, key);
    GroupDistinct(a, key);
    PermutedSort(Group(a, key), Group(b, key));
    MembersByMultiset(Group(a, key), Group(b, key));
    GroupNonEmpty(a, key);
    var first := Group(a, key)[0];
    assert first in Group(a, key);
    AddressOfAgreeing(Group(a, key), key, first.topic);
    AddressOfAgreeing(Group(b, key), key, first.topic);
  }
}
