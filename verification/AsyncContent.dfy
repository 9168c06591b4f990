/** What the AsyncAPI document and the Helm values say of a descriptor, read off the trees by following keys
    from their roots. */
module AsyncContent {
  import opened Wrappers
  import opened Ordering
  import opened YamlTree
  import opened JsonSchema
  import opened SpecParts
  import opened Descriptors
  import opened AsyncApi
  import opened CrossDocument
  import V = ValuesSpec

  // ---------------------------------------------------------------- messages

  /** What is found under the descriptor's message. */
  ghost function Said(ds: seq<Descriptor>, service: string, d: Descriptor, keys: seq<string>): Option<Node> {
    At(Document(ds, service), ["components", "messages", d.name] + keys)
  }

  lemma SaidByMessage(ds: seq<Descriptor>, service: string, d: Descriptor, keys: seq<string>)
    requires DistinctNames(ds) && d in ds
    ensures Said(ds, service, d, keys) == At(MessageNode(d, service), keys)
  {
    hide Document, At, MessageNode, DistinctNames;
    MessageFound(ds, service, d);
    assert SectionPath(Messages) + [d.name] == ["components", "messages", d.name];
    AtConcat(Document(ds, service), ["components", "messages", d.name], keys);
  }

  lemma MessageKey(d: Descriptor, service: string, key: string, keys: seq<string>)
    ensures At(MessageNode(d, service), [key] + keys)
            == match Find(MessageNode(d, service).entries, key) case None => None case Some(n) => At(n, keys)
  {
    hide Find, At, MessageHead, PayloadPart, AnyToNode, HeadersNode;
    AtStep(MessageNode(d, service), key, keys);
  }

  lemma FindOne(k: string, v: Node, key: string)
    ensures Find([Entry(k, v)], key) == if key == k then Some(v) else None
  {
    var none: seq<Entry> := [];
    assert [Entry(k, v)][1..] == none;
  }

  lemma FindTwo(k: string, v: Node, l: string, w: Node, key: string)
    ensures Find([Entry(k, v), Entry(l, w)], key) == if key == k then Some(v) else if key == l then Some(w) else None
  {
    assert [Entry(k, v), Entry(l, w)][1..] == [Entry(l, w)];
    FindOne(l, w, key);
  }

  /** What a message holds under a key. */
  lemma MessageParts(d: Descriptor, service: string, key: string)
    ensures Find(MessageNode(d, service).entries, key) ==
            if key == "name" || key == "title" then Some(Str(d.name))
            else if d.description != "" && (key == "summary" || key == "description") then Some(Str(d.description))
            else if key == "contentType" then Some(Str(d.contentType))
            else if d.payload.Some? && key == "payload" then Some(RefNode(RefTo(Schemas, d.payload.value.name)))
            else if key == "headers" then Some(HeadersNode(d))
            else if key == "tags" then Some(AnyToNode(TagList(if d.tags != [] then d.tags else [service])))
            else None
  {
    hide Find, AnyToNode, TagList, HeadersNode, RefTo, RefNode;
    var tags := AnyToNode(TagList(TagsOr(d.tags, service)));
    var a, b := [Entry("name", Str(d.name)), Entry("title", Str(d.name))], DescriptionPart(d);
    var c, p := [Entry("contentType", Str(d.contentType))], PayloadPart(d);
    var e := [Entry("headers", HeadersNode(d)), Entry("tags", tags)];
    assert MessageNode(d, service).entries == a + b + c + p + e;
    FindConcat(a + b + c + p, e, key);
    FindConcat(a + b + c, p, key);
    FindConcat(a + b, c, key);
    FindConcat(a, b, key);
    FindTwo("name", Str(d.name), "title", Str(d.name), key);
    FindTwo("summary", Str(d.description), "description", Str(d.description), key);
    FindOne("contentType", Str(d.contentType), key);
    FindTwo("headers", HeadersNode(d), "tags", tags, key);
    if d.payload.Some? {
      FindOne("payload", RefNode(RefTo(Schemas, d.payload.value.name)), key);
    }
    NothingFound(key);
  }

  lemma NothingFound(key: string)
    ensures Find([], key) == None
  {
  }

  lemma SaidAlong(ds: seq<Descriptor>, service: string, d: Descriptor, key: string, keys: seq<string>)
    requires DistinctNames(ds) && d in ds
    ensures Said(ds, service, d, [key] + keys)
            == match Find(MessageNode(d, service).entries, key) case None => None case Some(n) => At(n, keys)
  {
    hide *;
    SaidByMessage(ds, service, d, [key] + keys);
    MessageKey(d, service, key, keys);
  }

  lemma SaidAs(ds: seq<Descriptor>, service: string, d: Descriptor, key: string)
    requires DistinctNames(ds) && d in ds
    ensures Said(ds, service, d, [key]) == Find(MessageNode(d, service).entries, key)
  {
    hide Said, MessageNode, Find;
    SaidAlong(ds, service, d, key, []);
    assert [key] + [] == [key];
  }

  /** Names, texts, content type and tags of a message; summary and description are there only with a text. */
  lemma MessageSays(ds: seq<Descriptor>, service: string, d: Descriptor)
    requires DistinctNames(ds) && d in ds
    ensures Reads(Said(ds, service, d, ["name"]), d.name) && Reads(Said(ds, service, d, ["title"]), d.name)
    ensures Reads(Said(ds, service, d, ["contentType"]), d.contentType)
    ensures if d.description == "" then
              Said(ds, service, d, ["summary"]) == None && Said(ds, service, d, ["description"]) == None
            else
              && Reads(Said(ds, service, d, ["summary"]), d.description)
              && Reads(Said(ds, service, d, ["description"]), d.description)
    ensures ListsTags(Said(ds, service, d, ["tags"]), if d.tags != [] then d.tags else [service])
  {
    hide Said, MessageNode, Find, ListsTags, AnyToNode, TagList, DistinctNames, HeadersNode, RefNode, RefTo;
    TextsFound(ds, service, d, "name");
    TextsFound(ds, service, d, "title");
    TextsFound(ds, service, d, "contentType");
    TextsFound(ds, service, d, "summary");
    TextsFound(ds, service, d, "description");
    TextsFound(ds, service, d, "tags");
    MessageKeysApart();
    TagListSays(if d.tags != [] then d.tags else [service]);
  }

  lemma TextsFound(ds: seq<Descriptor>, service: string, d: Descriptor, key: string)
    requires DistinctNames(ds) && d in ds
    ensures Said(ds, service, d, [key]) ==
            if key == "name" || key == "title" then Some(Str(d.name))
            else if d.description != "" && (key == "summary" || key == "description") then Some(Str(d.description))
            else if key == "contentType" then Some(Str(d.contentType))
            else if d.payload.Some? && key == "payload" then Some(RefNode(RefTo(Schemas, d.payload.value.name)))
            else if key == "headers" then Some(HeadersNode(d))
            else if key == "tags" then Some(AnyToNode(TagList(if d.tags != [] then d.tags else [service])))
            else None
  {
    hide *;
    SaidAs(ds, service, d, key);
    MessageParts(d, service, key);
  }

  lemma MessageKeysApart()
    ensures "name" != "title" && "title" != "summary" && "contentType" != "name" && "contentType" != "title"
    ensures "summary" != "name" && "description" != "name" && "description" != "title" && "description" != "summary"
    ensures "summary" != "contentType" && "description" != "contentType" && "summary" != "payload"
    ensures "description" != "payload" && "summary" != "headers" && "description" != "headers" && "summary" != "tags"
    ensures "description" != "tags" && "tags" != "name" && "tags" != "title" && "tags" != "contentType"
    ensures "tags" != "payload" && "tags" != "headers" && "payload" != "name" && "payload" != "title"
    ensures "payload" != "contentType" && "headers" != "name" && "headers" != "title" && "headers" != "contentType"
    ensures "headers" != "payload"
  {
    assert "name"[0] == 'n' && "title"[0] == 't' && "summary"[0] == 's' && "description"[0] == 'd';
    assert "contentType"[0] == 'c' && "payload"[0] == 'p' && "headers"[0] == 'h' && "tags"[0] == 't';
    assert "tags"[1] == 'a' && "title"[1] == 'i';
  }

  /** The payload refers to the schema of its type; there is none without a type. */
  lemma PayloadSays(ds: seq<Descriptor>, service: string, d: Descriptor)
    requires DistinctNames(ds) && d in ds
    ensures d.payload.None? ==> Said(ds, service, d, ["payload"]) == None
    ensures d.payload.Some? ==>
              Reads(Said(ds, service, d, ["payload", "$ref"]), "#/components/schemas/" + d.payload.value.name)
  {
    hide Said, MessageNode, At, Find, DistinctNames;
    MessageKeysApart();
    TextsFound(ds, service, d, "payload");
    if d.payload.Some? {
      var ref := RefTo(Schemas, d.payload.value.name);
      SaidAlong(ds, service, d, "payload", ["$ref"]);
      SaidAs(ds, service, d, "payload");
      assert ["payload", "$ref"] == ["payload"] + ["$ref"];
      RefSays(ref);
    }
  }

  lemma RefSays(ref: string)
    ensures At(RefNode(ref), ["$ref"]) == Some(Str(ref))
  {
    hide Find, At;
    AtLast(RefNode(ref), "$ref");
    FindOne("$ref", Str(ref), "$ref");
  }

  /** The headers are an object with the three CloudEvents attributes as string constants. */
  lemma HeadersSay(ds: seq<Descriptor>, service: string, d: Descriptor)
    requires DistinctNames(ds) && d in ds
    ensures Reads(Said(ds, service, d, ["headers", "type"]), "object")
    ensures HeaderSays(Said(ds, service, d, ["headers", "properties", "ce-source"]), d.ceSource)
    ensures HeaderSays(Said(ds, service, d, ["headers", "properties", "ce-specversion"]), d.version)
    ensures HeaderSays(Said(ds, service, d, ["headers", "properties", "ce-type"]), d.ceType)
  {
    hide Said, MessageNode, At, Find, DistinctNames, HeadersNode, HeaderSays;
    MessageKeysApart();
    TextsFound(ds, service, d, "headers");
    SaidAs(ds, service, d, "headers");
    HeadersHold(d);
    forall keys { SaidAlong(ds, service, d, "headers", keys); }
    assert ["headers", "type"] == ["headers"] + ["type"];
    assert ["headers", "properties", "ce-source"] == ["headers"] + ["properties", "ce-source"];
    assert ["headers", "properties", "ce-specversion"] == ["headers"] + ["properties", "ce-specversion"];
    assert ["headers", "properties", "ce-type"] == ["headers"] + ["properties", "ce-type"];
  }

  predicate HeaderSays(n: Option<Node>, value: string) {
    n.Some? && Reads(At(n.value, ["type"]), "string") && Reads(At(n.value, ["const"]), value)
  }

  lemma HeadersHold(d: Descriptor)
    ensures var n := HeadersNode(d);
            && Reads(At(n, ["type"]), "object")
            && HeaderSays(At(n, ["properties", "ce-source"]), d.ceSource)
            && HeaderSays(At(n, ["properties", "ce-specversion"]), d.version)
            && HeaderSays(At(n, ["properties", "ce-type"]), d.ceType)
  {
    var n := HeadersNode(d);
    var props := n.entries[1].value;
    assert n.entries[0].key[0] == 't' && n.entries[1].key[0] == 'p';
    FindAt(n.entries, 0);
    FindAt(n.entries, 1);
    hide Find, At, ConstNode, HeaderSays;
    AtLast(n, "type");
    HeaderHolds(d, n, props);
  }

  lemma HeaderHolds(d: Descriptor, n: Node, props: Node)
    requires n == HeadersNode(d) && props == n.entries[1].value && Find(n.entries, "properties") == Some(props)
    ensures HeaderSays(At(n, ["properties", "ce-source"]), d.ceSource)
    ensures HeaderSays(At(n, ["properties", "ce-specversion"]), d.version)
    ensures HeaderSays(At(n, ["properties", "ce-type"]), d.ceType)
  {
    var names := ["ce-source", "ce-specversion", "ce-type"];
    assert names[0][4] == 'o' && names[1][4] == 'p' && names[2][3] == 't' && names[0][3] == 's' && names[1][3] == 's';
    assert forall i | 0 <= i < 3 :: props.entries[i].key == names[i];
    hide Find, At, ConstNode, HeaderSays;
    forall i | 0 <= i < 3
      ensures At(n, ["properties", names[i]]) == Some(props.entries[i].value)
    {
      FindAt(props.entries, i);
      AtStep(n, "properties", [names[i]]);
      AtLast(props, names[i]);
      assert ["properties", names[i]] == ["properties"] + [names[i]];
    }
    ConstSays(d.ceSource);
    ConstSays(d.version);
    ConstSays(d.ceType);
    assert names[0] == "ce-source" && names[1] == "ce-specversion" && names[2] == "ce-type";
  }

  lemma ConstSays(value: string)
    ensures HeaderSays(Some(ConstNode(value)), value)
  {
    hide Find, At;
    assert "type"[0] != "const"[0];
    FindTwo("type", Str("string"), "const", Str(value), "type");
    FindTwo("type", Str("string"), "const", Str(value), "const");
    AtLast(ConstNode(value), "type");
    AtLast(ConstNode(value), "const");
  }

  /** A payload type is described under its name by the schema of the last descriptor, by name, that carries it. */
  lemma SchemasSay(ds: seq<Descriptor>, service: string, d: Descriptor)
    requires DistinctNames(ds) && d in ds && d.payload.Some? && d.payload.value.schema.Some?
    requires forall e | e in ds && Carries(e, d.payload.value.name) :: e == d || ComesBefore(e.name, d.name)
    ensures At(Document(ds, service), ["components", "schemas", d.payload.value.name])
            == Some(SchemaToNode(d.payload.value.schema.value))
  {
    hide *;
    var i := LastCarrier(ds, d);
    LastCollected(Sort(ByName, ds), i);
    SchemaFound(ds, service, d.payload.value.name);
    SchemaKeys(d.payload.value.name);
  }

  /** Its position among the sorted descriptors; no later one carries a type of that name. */
  lemma LastCarrier(ds: seq<Descriptor>, d: Descriptor) returns (i: nat)
    requires DistinctNames(ds) && d in ds && d.payload.Some?
    requires forall e | e in ds && Carries(e, d.payload.value.name) :: e == d || ComesBefore(e.name, d.name)
    ensures var sorted := Sort(ByName, ds);
            i < |sorted| && sorted[i] == d && forall j | i < j < |sorted| :: !Carries(sorted[j], d.payload.value.name)
  {
    hide Sort, ComesBefore, Carries;
    var sorted, name := Sort(ByName, ds), d.payload.value.name;
    SortedMembers(ds);
    SortedNames(ds);
    assert d in sorted;
    i :| 0 <= i < |sorted| && sorted[i] == d;
    forall j | i < j < |sorted|
      ensures !Carries(sorted[j], name)
    {
      assert sorted[j] in ds;
    }
  }

  lemma SortedNames(ds: seq<Descriptor>)
    requires DistinctNames(ds)
    ensures var sorted := Sort(ByName, ds);
            forall i, j | 0 <= i < j < |sorted| ::
              sorted[i].name != sorted[j].name && !ComesBefore(sorted[j].name, sorted[i].name)
  {
    hide Sort, LexLess, ComesBefore;
    var sorted := Sort(ByName, ds);
    ByNameOrder();
    SortSorted(ByName, ds);
    PermutedNames(ds, sorted);
    forall i, j | 0 <= i < j < |sorted|
      ensures !ComesBefore(sorted[j].name, sorted[i].name)
    {
      LexLessIff(sorted[j].name, sorted[i].name);
      assert !ByName(sorted[j], sorted[i]);
    }
  }

  predicate Carries(d: Descriptor, name: string) {
    d.payload.Some? && d.payload.value.schema.Some? && d.payload.value.name == name
  }

  lemma {:induction false} LastCollected(ds: seq<Descriptor>, i: nat)
    requires i < |ds| && ds[i].payload.Some? && ds[i].payload.value.schema.Some?
    requires forall j | i < j < |ds| :: !Carries(ds[j], ds[i].payload.value.name)
    ensures var dto := ds[i].payload.value; dto.name in Collected(ds) && Collected(ds)[dto.name] == dto.schema.value
  {
    var n := |ds| - 1;
    if i < n {
      assert !Carries(ds[n], ds[i].payload.value.name);
      LastCollected(ds[..n], i);
    }
  }

  // ---------------------------------------------------------------- channels and operations

  /** The address is the first topic that is set in input order, or the key when none is. */
  lemma ChannelAddressSays(ds: seq<Descriptor>, service: string, key: string)
    requires key in GroupKeys(ds)
    ensures var group := Group(ds, key);
            && (forall i | 0 <= i < |group| && group[i].topic != ""
                && (forall j | 0 <= j < i :: group[j].topic == "") ::
                  Reads(At(Document(ds, service), ["channels", key, "address"]), group[i].topic))
            && ((forall d | d in group :: d.topic == "") ==>
                  Reads(At(Document(ds, service), ["channels", key, "address"]), key))
  {
    var group := Group(ds, key);
    hide Document, Group, GroupKeys, At, Find, Sort;
    ChannelFound(ds, service, key);
    ChannelNodeParts(group, key);
    AtConcat(Document(ds, service), ["channels", key], ["address"]);
    assert ["channels", key] + ["address"] == ["channels", key, "address"] && ["channels"] + [key] == ["channels", key];
    AtLast(ChannelNode(group, key), "address");
    forall i | 0 <= i < |group| && group[i].topic != "" && (forall j | 0 <= j < i :: group[j].topic == "")
      ensures ChannelAddress(group, key) == group[i].topic
    {
      FirstTopic(group, key, i);
    }
    if forall d | d in group :: d.topic == "" {
      NoTopic(group, key);
    }
  }

  lemma {:induction false} FirstTopic(group: seq<Descriptor>, key: string, i: nat)
    requires i < |group| && group[i].topic != "" && forall j | 0 <= j < i :: group[j].topic == ""
    ensures ChannelAddress(group, key) == group[i].topic
  {
    if i > 0 {
      FirstTopic(group[1..], key, i - 1);
    }
  }

  lemma {:induction false} NoTopic(group: seq<Descriptor>, key: string)
    requires forall d | d in group :: d.topic == ""
    ensures ChannelAddress(group, key) == key
  {
    if group != [] {
      assert group[0] in group;
      NoTopic(group[1..], key);
    }
  }

  /** Every descriptor is among the messages of its channel: the one of its exposure key, or of its own name
      without one. */
  lemma ChannelHolds(ds: seq<Descriptor>, service: string, d: Descriptor, key: string)
    requires DistinctNames(ds) && d in ds && key == if d.exposureKey != "" then d.exposureKey else d.name
    ensures Reads(At(Document(ds, service), ["channels", key, "messages", d.name, "$ref"]),
                  "#/components/messages/" + d.name)
  {
    hide *;
    var group, keys := Group(ds, key), ["messages"] + ([d.name] + ["$ref"]);
    InOwnGroup(ds, d, key);
    ChannelFound(ds, service, key);
    ChannelNodeParts(group, key);
    MessageRefFound(group, d);
    FirstSection(key);
    assert ["channels", key, "messages", d.name, "$ref"] == ["channels", key] + keys;
    AtConcat(Document(ds, service), ["channels", key], keys);
    ChannelIsMapping(group, key);
    AtStep(ChannelNode(group, key), "messages", [d.name] + ["$ref"]);
    AtStep(Mapping(MessageRefs(Sort(ByName, group))), d.name, ["$ref"]);
    RefSays(RefTo(Messages, d.name));
    MessageRefText(d.name);
    TextReads("#/components/messages/" + d.name);
  }

  lemma InOwnGroup(ds: seq<Descriptor>, d: Descriptor, key: string)
    requires DistinctNames(ds) && d in ds && key == if d.exposureKey != "" then d.exposureKey else d.name
    ensures key in GroupKeys(ds) && d in Group(ds, key) && DistinctNames(Group(ds, key))
  {
    hide Group, DistinctNames;
    assert GroupKey(d) == key;
    GroupMembers(ds, key);
    GroupDistinct(ds, key);
  }

  lemma FirstSection(key: string)
    ensures SectionPath(Channels) + [key] == ["channels", key]
  {
  }

  lemma ChannelIsMapping(group: seq<Descriptor>, key: string)
    ensures ChannelNode(group, key).Mapping?
  {
  }

  lemma TextReads(text: string)
    ensures Reads(Some(Str(text)), text)
  {
  }

  lemma MessageRefText(name: string)
    ensures RefTo(Messages, name) == "#/components/messages/" + name
  {
  }

  lemma MessageRefFound(group: seq<Descriptor>, d: Descriptor)
    requires DistinctNames(group) && d in group
    ensures Find(MessageRefs(Sort(ByName, group)), d.name) == Some(RefNode(RefTo(Messages, d.name)))
  {
    hide RefTo, RefNode, Find, Sort;
    var sorted := Sort(ByName, group);
    SortedMembers(group);
    assert Permutation(group, sorted);
    PermutedNames(group, sorted);
    var i :| 0 <= i < |sorted| && sorted[i] == d;
    FindAt(MessageRefs(sorted), i);
  }

  /** The operation of a channel: it sends, names the service, and points at the channel; its tags are those of
      the first descriptor of the channel in input order. */
  lemma OperationSays(ds: seq<Descriptor>, service: string, key: string)
    requires key in GroupKeys(ds)
    ensures var op := At(Document(ds, service), ["operations", "send_" + key]);
            && op.Some?
            && Reads(At(op.value, ["action"]), "send")
            && Reads(At(op.value, ["description"]), "Publish events from the " + service + " service")
            && Reads(At(op.value, ["channel", "$ref"]), "#/channels/" + key)
            && Group(ds, key) != []
            && var tags := Group(ds, key)[0].tags; ListsTags(At(op.value, ["tags"]), if tags != [] then tags
                else [service])
  {
    GroupNonEmpty(ds, key);
    var tags := OperationTags(Group(ds, key), service);
    hide Document, Group, GroupKeys, At, OperationNode, ListsTags;
    OperationFound(ds, service, key);
    OperationHolds(key, service, tags);
  }

  lemma OperationFound(ds: seq<Descriptor>, service: string, key: string)
    requires key in GroupKeys(ds)
    ensures At(Document(ds, service), ["operations", "send_" + key])
            == Some(OperationNode(key, service, OperationTags(Group(ds, key), service)))
  {
    hide *;
    OperationEntryFound(ds, service, key);
    OperationsFound(ds, service);
    assert ["operations", "send_" + key] == ["operations"] + ["send_" + key];
    AtConcat(Document(ds, service), ["operations"], ["send_" + key]);
    AtLast(Mapping(OperationEntries(ds, service)), "send_" + key);
  }

  lemma OperationsFound(ds: seq<Descriptor>, service: string)
    ensures At(Document(ds, service), ["operations"]) == Some(Mapping(OperationEntries(ds, service)))
  {
    hide OperationEntries, ComponentsTree, ChannelEntries, Sort, Find, At;
    var channels, operations := Entry("channels", Mapping(ChannelEntries(ds))),
        Entry("operations", Mapping(OperationEntries(ds, service)));
    var components := Entry("components", ComponentsTree(Sort(ByName, ds), service));
    OperationsAmong(channels, operations, components);
    AtLast(Document(ds, service), "operations");
  }

  lemma OperationsAmong(channels: Entry, operations: Entry, components: Entry)
    requires channels.key == "channels" && operations.key == "operations"
    ensures Find([channels, operations, components], "operations") == Some(operations.value)
  {
    hide Find;
    assert channels.key[0] == 'c' && operations.key[0] == 'o';
    FindAt([channels, operations, components], 1);
  }

  lemma OperationEntryFound(ds: seq<Descriptor>, service: string, key: string)
    requires key in GroupKeys(ds)
    ensures Find(OperationEntries(ds, service), "send_" + key)
            == Some(OperationNode(key, service, OperationTags(Group(ds, key), service)))
  {
    hide OperationNode, OperationTags, Group, GroupKeys, SortedKeys, Find;
    var keys, entries := SortedKeys(GroupKeys(ds)), OperationEntries(ds, service);
    SortedKeysMembers(GroupKeys(ds));
    assert key in keys;
    var i :| 0 <= i < |keys| && keys[i] == key;
    SortedKeysDistinct(keys);
    forall j | 0 <= j < i
      ensures entries[j].key != entries[i].key
    {
      PrefixedApart("send_", keys[j], keys[i]);
    }
    FindAt(entries, i);
  }

  lemma PrefixedApart(prefix: string, a: string, b: string)
    ensures prefix + a == prefix + b <==> a == b
  {
    assert (prefix + a)[|prefix|..] == a && (prefix + b)[|prefix|..] == b;
  }

  lemma OperationHolds(key: string, service: string, tags: seq<string>)
    ensures var n := OperationNode(key, service, tags);
            && Reads(At(n, ["action"]), "send")
            && Reads(At(n, ["description"]), "Publish events from the " + service + " service")
            && Reads(At(n, ["channel", "$ref"]), "#/channels/" + key)
            && ListsTags(At(n, ["tags"]), tags)
  {
    hide AnyToNode, TagList, At, Find, ListsTags;
    var n, ref := OperationNode(key, service, tags), RefNode(RefTo(Channels, key));
    assert n.entries[0].key[0] == 'a' && n.entries[1].key[0] == 'd' && n.entries[2].key[0] == 't'
           && n.entries[3].key[0] == 'c';
    FindAt(n.entries, 0);
    FindAt(n.entries, 1);
    FindAt(n.entries, 2);
    FindAt(n.entries, 3);
    AtLast(n, "action");
    AtLast(n, "description");
    AtLast(n, "tags");
    TagListSays(tags);
    AtStep(n, "channel", ["$ref"]);
    assert ["channel", "$ref"] == ["channel"] + ["$ref"];
    RefSays(RefTo(Channels, key));
  }

  // ---------------------------------------------------------------- the values file

  /** The exposed group of a key: its topic if it has one, the content type of its first descriptor by name, and
      its event types in order, each as often as it occurs. */
  lemma ExposedSays(ds: seq<Descriptor>, key: string)
    requires DistinctNames(ds) && key in GroupKeys(ds) && TopicsAgree(Group(ds, key))
    ensures forall d | d in Group(ds, key) ::
              if d.topic == "" then At(V.ExposedTree(ds), ["exposed", key, "topic"]) == None
              else Reads(At(V.ExposedTree(ds), ["exposed", key, "topic"]), d.topic)
    ensures forall d | d in Group(ds, key)
                       && (forall e | e in Group(ds, key) :: e.name == d.name || ComesBefore(d.name, e.name)) ::
              Reads(At(V.ExposedTree(ds), ["exposed", key, "contentType"]), d.contentType)
    ensures exists types :: && At(V.ExposedTree(ds), ["exposed", key, "eventTypes"]) == Some(StrList(types))
                            && multiset(types) == multiset(V.CeTypes(Group(ds, key))) && SortedBy(LexLess, types)
    ensures |V.CeTypes(Group(ds, key))| == |Group(ds, key)|
    ensures forall i | 0 <= i < |Group(ds, key)| :: V.CeTypes(Group(ds, key))[i] == Group(ds, key)[i].ceType
  {
    hide Group, GroupKeys, At, Find, V.ExposedTree, V.GroupOf, V.GroupNode, V.CeTypes, ComesBefore, LexLess, SortedBy,
        StrList;
    GroupNonEmpty(ds, key);
    GroupSays(ds, key);
    CeTypesOf(Group(ds, key));
    ExposedParts(V.GroupOf(ds, key));
    ExposedAt(ds, key, "topic");
    ExposedAt(ds, key, "contentType");
    ExposedAt(ds, key, "eventTypes");
  }

  lemma CeTypesOf(group: seq<Descriptor>)
    ensures |V.CeTypes(group)| == |group| && forall i | 0 <= i < |group| :: V.CeTypes(group)[i] == group[i].ceType
  {
  }

  lemma ExposedAt(ds: seq<Descriptor>, key: string, k: string)
    requires key in GroupKeys(ds) && Group(ds, key) != []
    ensures V.GroupNode(V.GroupOf(ds, key)).Mapping?
    ensures At(V.ExposedTree(ds), ["exposed", key, k]) == Find(V.GroupNode(V.GroupOf(ds, key)).entries, k)
  {
    hide Group, GroupKeys, At, Find, V.ExposedTree, V.GroupOf;
    ExposedFound(ds, key);
    AtConcat(V.ExposedTree(ds), ["exposed", key], [k]);
    assert ["exposed", key] + [k] == ["exposed", key, k];
    AtLast(V.GroupNode(V.GroupOf(ds, key)), k);
  }

  /** What a group amounts to, in terms of its members. */
  lemma GroupSays(ds: seq<Descriptor>, key: string)
    requires DistinctNames(ds) && Group(ds, key) != [] && TopicsAgree(Group(ds, key))
    ensures var group, g := Group(ds, key), V.GroupOf(ds, key);
            && (forall d | d in group :: g.topic == d.topic)
            && (forall d | d in group && (forall e | e in group :: e.name == d.name || ComesBefore(d.name, e.name)) ::
                  g.contentType == d.contentType)
            && multiset(g.ceTypes) == multiset(V.CeTypes(group)) && SortedBy(LexLess, g.ceTypes)
  {
    hide Group, ComesBefore, LexLess, SortedBy, Sort, V.CeTypes;
    GroupDistinct(ds, key);
    FirstByName(Group(ds, key));
    SortStringsSorted(V.CeTypes(Group(ds, key)));
  }

  /** The first descriptor of a sorted group is the one whose name comes before all others. */
  lemma FirstByName(group: seq<Descriptor>)
    requires group != [] && DistinctNames(group)
    ensures var sorted := Sort(ByName, group);
            && sorted != [] && sorted[0] in group
            && forall d | d in group && (forall e | e in group :: e.name == d.name || ComesBefore(d.name, e.name)) ::
                 d == sorted[0]
  {
    hide ComesBefore, LexLess, Sort;
    var sorted := Sort(ByName, group);
    SortedMembers(group);
    ByNameOrder();
    SortSorted(ByName, group);
    assert sorted[0] in sorted;
    forall d | d in group && (forall e | e in group :: e.name == d.name || ComesBefore(d.name, e.name))
      ensures d == sorted[0]
    {
      LexLessIff(d.name, sorted[0].name);
      assert d in sorted;
      var i :| 0 <= i < |sorted| && sorted[i] == d;
      assert !ByName(sorted[i], sorted[0]);
      OneOfName(group, d, sorted[0]);
    }
  }

  lemma OneOfName(group: seq<Descriptor>, d: Descriptor, e: Descriptor)
    requires DistinctNames(group) && d in group && e in group && d.name == e.name
    ensures d == e
  {
  }

  lemma ExposedFound(ds: seq<Descriptor>, key: string)
    requires key in GroupKeys(ds) && Group(ds, key) != []
    ensures At(V.ExposedTree(ds), ["exposed", key]) == Some(V.GroupNode(V.GroupOf(ds, key)))
  {
    hide Group, GroupKeys, SortedKeys, Find, At, V.GroupOf, V.GroupNode;
    var keys, entries := SortedKeys(GroupKeys(ds)), V.ExposedEntries(ds);
    SortedKeysMembers(GroupKeys(ds));
    assert key in keys;
    var i :| 0 <= i < |keys| && keys[i] == key;
    SortedKeysDistinct(keys);
    FindAt(entries, i);
    FindOne("exposed", Mapping(entries), "exposed");
    assert ["exposed", key] == ["exposed"] + [key];
    AtStep(V.ExposedTree(ds), "exposed", [key]);
    AtLast(Mapping(entries), key);
  }

  lemma ExposedParts(g: V.ExposedGroup)
    ensures Find(V.GroupNode(g).entries, "topic") == if g.topic == "" then None else Some(Str(g.topic))
    ensures Find(V.GroupNode(g).entries, "contentType") == Some(Str(g.contentType))
    ensures Find(V.GroupNode(g).entries, "eventTypes") == Some(StrList(g.ceTypes))
  {
    GroupNodeParts(g);
    hide StrList;
    var entries := V.GroupNode(g).entries;
    assert "topic"[0] != "contentType"[0];
    FindAt(entries, if g.topic == "" then 0 else 1);
  }
}
