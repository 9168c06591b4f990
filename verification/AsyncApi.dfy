/** The AsyncAPI document: the channels, operations and components of the exposed descriptors.

    The `info` and `servers` parts of the document hold no references and are not modelled. */
module AsyncApi {
  import opened Wrappers
  import opened Ordering
  import opened YamlTree
  import opened JsonSchema
  import opened SpecParts
  import opened Descriptors

  /** The schema generator rejected the payload of this descriptor. */
  datatype BuildError = PayloadUnsupported(name: string)

  // ---------------------------------------------------------------- messages

  function ConstNode(value: string): Node {
    Mapping([Entry("type", Str("string")), Entry("const", Str(value))])
  }

  /** The CloudEvents attributes, as constant header properties in alphabetical order. */
  function HeadersNode(d: Descriptor): Node {
    Mapping([Entry("type", Str("object")),
             Entry("properties", Mapping([Entry("ce-source", ConstNode(d.ceSource)),
                                          Entry("ce-specversion", ConstNode(d.version)),
                                          Entry("ce-type", ConstNode(d.ceType))]))])
  }

  function DescriptionPart(d: Descriptor): seq<Entry> {
    if d.description == "" then [] else [Entry("summary", Str(d.description)), Entry("description", Str(d.description))]
  }

  function PayloadPart(d: Descriptor): seq<Entry> {
    match d.payload case None => [] case Some(dto) => [Entry("payload", RefNode(RefTo(Schemas, dto.name)))]
  }

  function MessageHead(d: Descriptor): seq<Entry> {
    [Entry("name", Str(d.name)),
        Entry("title", Str(d.name))] + DescriptionPart(d) + [Entry("contentType", Str(d.contentType))]
  }

  ghost function MessageNode(d: Descriptor, service: string): Node {
    Mapping(MessageHead(d) + PayloadPart(d)
            + [Entry("headers", HeadersNode(d)), Entry("tags", AnyToNode(TagList(TagsOr(d.tags, service))))])
  }

  predicate Supported(d: Descriptor) {
    d.payload.Some? ==> d.payload.value.schema.Some?
  }

  /** A later payload of the same type name replaces the schema. */
  function Collect(schemas: map<string, Schema>, d: Descriptor): map<string, Schema> {
    if d.payload.Some? && d.payload.value.schema.Some?
        then schemas[d.payload.value.name := d.payload.value.schema.value]
    else schemas
  }

  function Collected(ds: seq<Descriptor>): map<string, Schema> {
    if ds == [] then map[] else Collect(Collected(ds[..|ds| - 1]), ds[|ds| - 1])
  }

  method BuildMessage(d: Descriptor, service: string, schemas: map<string, Schema>)
    returns (r: Result<Node, BuildError>, collected: map<string, Schema>)
    ensures r.Ok? <==> Supported(d)
    ensures r.Ok? ==> r.value == MessageNode(d, service) && collected == Collect(schemas, d)
    ensures r.Err? ==> r.error == PayloadUnsupported(d.name)
  {
    hide AnyToNode, TagList, RefTo, HeadersNode;
    collected := schemas;
    var message := AddScalar([], "name", d.name);
    message := AddScalar(message, "title", d.name);
    if d.description != "" {
      message := AddScalar(message, "summary", d.description);
      message := AddScalar(message, "description", d.description);
    }
    message := AddScalar(message, "contentType", d.contentType);
    assert message == MessageHead(d);
    if d.payload.Some? {
      var payload := AddScalar([], "$ref", RefTo(Schemas, d.payload.value.name));
      assert payload == [Entry("$ref", Str(RefTo(Schemas, d.payload.value.name)))];
      message := AddMapping(message, "payload", Mapping(payload));
      if d.payload.value.schema.None? {
        return Err(PayloadUnsupported(d.name)), schemas;
      }
      collected := collected[d.payload.value.name := d.payload.value.schema.value];
    }
    assert message == MessageHead(d) + PayloadPart(d);
    hide MessageHead, PayloadPart;
    var headers := EmitHeaders(d);
    message := AddMapping(message, "headers", headers);
    var tags := d.tags;
    if |tags| == 0 {
      tags := [service];
    }
    var tagsNode := EmitTagList(tags);
    message := AddMapping(message, "tags", tagsNode);
    assert message == MessageNode(d, service).entries;
    return Ok(Mapping(message)), collected;
  }

  method EmitHeaders(d: Descriptor) returns (n: Node)
    ensures n == HeadersNode(d)
  {
    var props: seq<Entry> := [];
    var names := ["ce-source", "ce-specversion", "ce-type"];
    var values := [d.ceSource, d.version, d.ceType];
    for i := 0 to 3
      invariant |props| == i && forall j :: 0 <= j < i ==> props[j] == Entry(names[j], ConstNode(values[j]))
    {
      var prop := AddScalar([], "type", "string");
      prop := AddScalar(prop, "const", values[i]);
      assert prop == [Entry("type", Str("string")), Entry("const", Str(values[i]))];
      props := AddMapping(props, names[i], Mapping(prop));
    }
    assert props == HeadersNode(d).entries[1].value.entries;
    var headers := AddScalar([], "type", "object");
    headers := AddMapping(headers, "properties", Mapping(props));
    assert headers == HeadersNode(d).entries;
    n := Mapping(headers);
  }

  // ---------------------------------------------------------------- components

  ghost function MessageEntries(ds: seq<Descriptor>, service: string): (entries: seq<Entry>)
    ensures |entries| == |ds|
    ensures forall i :: 0 <= i < |ds| ==> entries[i] == Entry(ds[i].name, MessageNode(ds[i], service))
  {
    seq(|ds|, i requires 0 <= i < |ds| => Entry(ds[i].name, MessageNode(ds[i], service)))
  }

  ghost function ComponentsTree(ds: seq<Descriptor>, service: string): Node {
    Mapping([Entry("messages", Mapping(MessageEntries(ds, service))),
        Entry("schemas", Mapping(SchemaEntries(Collected(ds))))])
  }

  method BuildComponents(ds: seq<Descriptor>, service: string) returns (r: Result<Node, BuildError>)
    ensures r.Ok? <==> forall d | d in ds :: Supported(d)
    ensures r.Ok? ==> r.value == ComponentsTree(ds, service)
    ensures r.Err? ==> exists i :: 0 <= i < |ds| && !Supported(ds[i]) && r.error == PayloadUnsupported(ds[i].name)
                                   && forall j | 0 <= j < i :: Supported(ds[j])
  {
    hide MessageNode, Collect, Supported;
    var schemas: map<string, Schema> := map[];
    var messages: seq<Entry> := [];
    for i := 0 to |ds|
      invariant forall j | 0 <= j < i :: Supported(ds[j])
      invariant messages == MessageEntries(ds, service)[..i] && schemas == Collected(ds[..i])
    {
      assert ds[..i + 1][..i] == ds[..i];
      var message, collected := BuildMessage(ds[i], service, schemas);
      if message.Err? {
        return Err(message.error);
      }
      schemas := collected;
      messages := AddMapping(messages, ds[i].name, message.value);
    }
    assert ds[..|ds|] == ds && messages == MessageEntries(ds, service);
    var schemasNode := EmitSchemas(schemas);
    return Ok(Mapping([Entry("messages", Mapping(messages)), Entry("schemas", schemasNode)]));
  }

  // ---------------------------------------------------------------- channels

  /** The first topic that is set, or the key. */
  function ChannelAddress(group: seq<Descriptor>, key: string): string {
    if group == [] then key else if group[0].topic != "" then group[0].topic else ChannelAddress(group[1..], key)
  }

  method FindAddress(group: seq<Descriptor>, key: string) returns (address: string)
    ensures address == ChannelAddress(group, key)
  {
    for i := 0 to |group|
      invariant ChannelAddress(group, key) == ChannelAddress(group[i..], key)
    {
      assert group[i..][1..] == group[i + 1..];
      if group[i].topic != "" {
        return group[i].topic;
      }
    }
    return key;
  }

  /** When the group agrees on its topic the address is that topic, or the key when it is empty. */
  lemma {:induction false} AddressOfAgreeing(group: seq<Descriptor>, key: string, topic: string)
    requires group != [] && forall d | d in group :: d.topic == topic
    ensures ChannelAddress(group, key) == if topic == "" then key else topic
  {
    assert group[0] in group;
    if |group| > 1 {
      AddressOfAgreeing(group[1..], key, topic);
    }
  }

  function MessageRefs(sorted: seq<Descriptor>): (entries: seq<Entry>)
    ensures |entries| == |sorted|
    ensures forall i :: 0 <= i < |sorted|
                        ==> entries[i] == Entry(sorted[i].name, RefNode(RefTo(Messages, sorted[i].name)))
  {
    seq(|sorted|, i requires 0 <= i < |sorted| => Entry(sorted[i].name, RefNode(RefTo(Messages, sorted[i].name))))
  }

  function ChannelNode(group: seq<Descriptor>, key: string): Node {
    Mapping([Entry("address", Str(ChannelAddress(group, key))),
        Entry("messages", Mapping(MessageRefs(Sort(ByName, group))))])
  }

  ghost function ChannelEntries(ds: seq<Descriptor>): (entries: seq<Entry>)
    ensures |entries| == |SortedKeys(GroupKeys(ds))|
    ensures forall i :: 0 <= i < |entries| ==>
                          entries[i] == Entry(SortedKeys(GroupKeys(ds))[i],
                              ChannelNode(Group(ds, SortedKeys(GroupKeys(ds))[i]), SortedKeys(GroupKeys(ds))[i]))
  {
    var keys := SortedKeys(GroupKeys(ds));
    seq(|keys|, i requires 0 <= i < |keys| => Entry(keys[i], ChannelNode(Group(ds, keys[i]), keys[i])))
  }

  /** Any two sorted arrangements of a group give the same references, also when names repeat. */
  lemma SameMessageRefs(r: seq<Descriptor>, s: seq<Descriptor>)
    requires multiset(r) == multiset(s) && SortedBy(ByName, r) && SortedBy(ByName, s)
    ensures MessageRefs(r) == MessageRefs(s)
  {
    var name := (d: Descriptor) => d.name;
    var nr, ns := Images(name, r), Images(name, s);
    PermutedImages(name, r, s);
    MembersByMultiset(r, s);
    LexOrder();
    assert SortedBy(LexLess, nr) && SortedBy(LexLess, ns);
    SortedIsUnique(LexLess, nr, ns);
    hide SortedBy, LexLess;
    assert forall i | 0 <= i < |r| :: r[i].name == nr[i] == ns[i] == s[i].name;
  }

  method BuildChannel(group: seq<Descriptor>, key: string) returns (n: Node)
    ensures n == ChannelNode(group, key)
  {
    hide SortedBy, ChannelAddress, Sort, MessageRefs;
    var sorted := SortSliceByName(group);
    ByNameOrder();
    SortSorted(ByName, group);
    SameMessageRefs(sorted, Sort(ByName, group));
    var address := FindAddress(group, key);
    var channel := AddScalar([], "address", address);
    var messages := EmitMessageRefs(sorted);
    channel := AddMapping(channel, "messages", Mapping(messages));
    assert channel == ChannelNode(group, key).entries;
    n := Mapping(channel);
  }

  method EmitMessageRefs(sorted: seq<Descriptor>) returns (messages: seq<Entry>)
    ensures messages == MessageRefs(sorted)
  {
    hide RefTo;
    messages := [];
    for i := 0 to |sorted|
      invariant messages == MessageRefs(sorted)[..i]
    {
      var ref := AddScalar([], "$ref", RefTo(Messages, sorted[i].name));
      assert ref == [Entry("$ref", Str(RefTo(Messages, sorted[i].name)))];
      messages := AddMapping(messages, sorted[i].name, Mapping(ref));
    }
  }

  // ---------------------------------------------------------------- operations

  /** The tags of the first descriptor in input order, or the service. */
  function OperationTags(group: seq<Descriptor>, service: string): seq<string> {
    if group == [] then [service] else TagsOr(group[0].tags, service)
  }

  ghost function OperationNode(key: string, service: string, tags: seq<string>): Node {
    Mapping([Entry("action", Str("send")), Entry("description", Str("Publish events from the " + service + " service")),
             Entry("tags", AnyToNode(TagList(tags))), Entry("channel", RefNode(RefTo(Channels, key)))])
  }

  ghost function OperationEntries(ds: seq<Descriptor>, service: string): (entries: seq<Entry>)
    ensures |entries| == |SortedKeys(GroupKeys(ds))|
    ensures forall i :: 0 <= i < |entries| ==>
                          entries[i] == Entry("send_" + SortedKeys(GroupKeys(ds))[i],
                                              OperationNode(SortedKeys(GroupKeys(ds))[i], service,
                                                  OperationTags(Group(ds, SortedKeys(GroupKeys(ds))[i]), service)))
  {
    var keys := SortedKeys(GroupKeys(ds));
    seq(|keys|, i requires 0 <= i < |keys| =>
      Entry("send_" + keys[i], OperationNode(keys[i], service, OperationTags(Group(ds, keys[i]), service))))
  }

  method BuildOperation(key: string, service: string, tags: seq<string>) returns (n: Node)
    ensures n == OperationNode(key, service, tags)
  {
    var op := AddScalar([], "action", "send");
    op := AddScalar(op, "description", "Publish events from the " + service + " service");
    var tagsNode := EmitTagList(tags);
    op := AddMapping(op, "tags", tagsNode);
    var ref := AddScalar([], "$ref", RefTo(Channels, key));
    hide AnyToNode, TagList, RefTo;
    assert ref == [Entry("$ref", Str(RefTo(Channels, key)))];
    op := AddMapping(op, "channel", Mapping(ref));
    assert op == OperationNode(key, service, tags).entries;
    n := Mapping(op);
  }

  // ---------------------------------------------------------------- the document

  function GroupsOf(ds: seq<Descriptor>): map<string, seq<Descriptor>> {
    map key | key in GroupKeys(ds) :: Group(ds, key)
  }

  /** One more descriptor joins its own group. */
  function GroupsWith(groups: map<string, seq<Descriptor>>, d: Descriptor): map<string, seq<Descriptor>> {
    groups[GroupKey(d) := (if GroupKey(d) in groups then groups[GroupKey(d)] else []) + [d]]
  }

  lemma GroupsExtend(ds: seq<Descriptor>, i: nat)
    requires i < |ds|
    ensures GroupsOf(ds[..i + 1]) == GroupsWith(GroupsOf(ds[..i]), ds[i])
  {
    GroupExtend(ds, i, GroupKey(ds[i]));
    forall k | k in GroupsOf(ds[..i + 1])
      ensures k in GroupsWith(GroupsOf(ds[..i]), ds[i])
              && GroupsOf(ds[..i + 1])[k] == GroupsWith(GroupsOf(ds[..i]), ds[i])[k]
    {
      GroupExtend(ds, i, k);
      GroupNonEmpty(ds[..i], k);
    }
    hide Group, GroupKeys;
    assert GroupsOf(ds[..i + 1]).Keys == GroupsWith(GroupsOf(ds[..i]), ds[i]).Keys;
  }

  method CollectGroups(ds: seq<Descriptor>) returns (groups: map<string, seq<Descriptor>>, order: seq<string>)
    ensures groups == GroupsOf(ds) && Lists(order, groups.Keys)
  {
    groups, order := map[], [];
    assert GroupsOf(ds[..0]) == map[];
    for i := 0 to |ds|
      invariant groups == GroupsOf(ds[..i]) && Lists(order, groups.Keys)
    {
      GroupsExtend(ds, i);
      hide GroupsOf, Lists;
      var key := ds[i].exposureKey;
      if key == "" {
        key := ds[i].name;
      }
      ListsAppend(order, groups.Keys, key);
      var group: seq<Descriptor> := [];
      if key in groups {
        group := groups[key];
      } else {
        order := order + [key];
      }
      groups := groups[key := group + [ds[i]]];
    }
    assert ds[..|ds|] == ds;
  }

  /** The document whose messages come in the given order. */
  ghost function DocumentOf(ds: seq<Descriptor>, messages: seq<Descriptor>, service: string): Node {
    Mapping([Entry("channels", Mapping(ChannelEntries(ds))),
        Entry("operations", Mapping(OperationEntries(ds, service))),
             Entry("components", ComponentsTree(messages, service))])
  }

  ghost function Document(ds: seq<Descriptor>, service: string): Node {
    DocumentOf(ds, Sort(ByName, ds), service)
  }

  /** The groups one after another. */
  function Flat(ds: seq<Descriptor>, keys: seq<string>): seq<Descriptor> {
    if keys == [] then [] else Flat(ds, keys[..|keys| - 1]) + Group(ds, keys[|keys| - 1])
  }

  lemma {:induction false} GroupCount(ds: seq<Descriptor>, key: string, d: Descriptor)
    ensures multiset(Group(ds, key))[d] == if GroupKey(d) == key then multiset(ds)[d] else 0
  {
    if ds != [] {
      GroupCount(ds[..|ds| - 1], key, d);
      assert ds == ds[..|ds| - 1] + [ds[|ds| - 1]];
    }
  }

  lemma {:induction false} FlatCount(ds: seq<Descriptor>, keys: seq<string>, d: Descriptor)
    requires NoDup(keys)
    ensures multiset(Flat(ds, keys))[d] == if GroupKey(d) in keys then multiset(ds)[d] else 0
  {
    if keys != [] {
      var n := |keys| - 1;
      FlatCount(ds, keys[..n], d);
      GroupCount(ds, keys[n], d);
      hide Group;
      assert keys == keys[..n] + [keys[n]];
      assert GroupKey(d) == keys[n] ==> GroupKey(d) !in keys[..n];
    }
  }

  /** Grouping neither loses nor repeats a descriptor. */
  lemma FlatIsPermutation(ds: seq<Descriptor>, keys: seq<string>)
    requires Lists(keys, GroupKeys(ds))
    ensures multiset(Flat(ds, keys)) == multiset(ds)
  {
    forall d
      ensures multiset(Flat(ds, keys))[d] == multiset(ds)[d]
    {
      FlatCount(ds, keys, d);
      if d in ds {
        assert GroupKey(d) in GroupKeys(ds);
      }
    }
    hide Flat;
    assert multiset(Flat(ds, keys)) == multiset(ds);
  }

  /** The document is fixed up to the order of messages of one name; it fails exactly when a payload has no schema. */
  method Build(ds: seq<Descriptor>, service: string) returns (r: Result<Node, BuildError>)
    ensures r.Ok? <==> forall d | d in ds :: Supported(d)
    ensures r.Err? ==> exists d | d in ds :: !Supported(d) && r.error == PayloadUnsupported(d.name)
    ensures r.Ok? ==> exists messages :: multiset(messages) == multiset(ds) && SortedBy(ByName, messages)
                                         && r.value == DocumentOf(ds, messages, service)
    ensures r.Ok? && DistinctNames(ds) ==> r.value == Document(ds, service)
  {
    var groups, order := CollectGroups(ds);
    var keys := SortStrings(order);
    SortStringsOfSet(order, GroupKeys(ds));
    SortedKeysList(GroupKeys(ds));
    hide *;
    GroupsOfKeys(ds);
    var channels := BuildChannels(ds, keys, groups);
    var operations := BuildOperations(ds, keys, groups, service);
    var all := FlattenGroups(ds, keys, groups);
    all := SortSliceByName(all);
    MembersByMultiset(all, ds);
    if DistinctNames(ds) {
      SortedByNameUnique(ds, all);
    }
    var components := BuildComponents(all, service);
    if components.Err? {
      return Err(components.error);
    }
    DocumentIs(ds, all, service);
    return Ok(Mapping([Entry("channels", channels), Entry("operations", operations),
        Entry("components", components.value)]));
  }

  lemma DocumentIs(ds: seq<Descriptor>, messages: seq<Descriptor>, service: string)
    ensures DocumentOf(ds, messages, service)
            == Mapping([Entry("channels", Mapping(ChannelEntries(ds))),
                Entry("operations", Mapping(OperationEntries(ds, service))),
                        Entry("components", ComponentsTree(messages, service))])
    ensures Document(ds, service) == DocumentOf(ds, Sort(ByName, ds), service)
  {
  }

  lemma GroupsOfKeys(ds: seq<Descriptor>)
    ensures GroupsOf(ds).Keys == GroupKeys(ds)
    ensures forall key | key in GroupKeys(ds) :: GroupsOf(ds)[key] == Group(ds, key)
  {
  }

  lemma SortedKeysList(keys: set<string>)
    ensures Lists(SortedKeys(keys), keys)
  {
    SortedKeysMembers(keys);
    LexOrder();
  }

  method FlattenGroups(ds: seq<Descriptor>, keys: seq<string>, groups: map<string, seq<Descriptor>>)
    returns (all: seq<Descriptor>)
    requires groups == GroupsOf(ds) && Lists(keys, GroupKeys(ds))
    ensures multiset(all) == multiset(ds)
  {
    FlatIsPermutation(ds, keys);
    hide GroupKeys, Group, NoDup;
    all := [];
    for i := 0 to |keys|
      invariant all == Flat(ds, keys[..i])
    {
      assert keys[..i + 1][..i] == keys[..i] && keys[i] in keys;
      all := all + groups[keys[i]];
    }
    assert keys[..|keys|] == keys;
  }

  method BuildChannels(ds: seq<Descriptor>, keys: seq<string>, groups: map<string, seq<Descriptor>>) returns (n: Node)
    requires groups == GroupsOf(ds) && keys == SortedKeys(GroupKeys(ds)) && Lists(keys, GroupKeys(ds))
    ensures n == Mapping(ChannelEntries(ds))
  {
    hide GroupKeys, Group, NoDup, ChannelNode, SortedKeys;
    var channels: seq<Entry> := [];
    for i := 0 to |keys|
      invariant channels == ChannelEntries(ds)[..i]
    {
      assert keys[i] in keys;
      var channel := BuildChannel(groups[keys[i]], keys[i]);
      channels := AddMapping(channels, keys[i], channel);
    }
    n := Mapping(channels);
  }

  method BuildOperations(ds: seq<Descriptor>, keys: seq<string>, groups: map<string, seq<Descriptor>>, service: string)
    returns (n: Node)
    requires groups == GroupsOf(ds) && keys == SortedKeys(GroupKeys(ds)) && Lists(keys, GroupKeys(ds))
    ensures n == Mapping(OperationEntries(ds, service))
  {
    hide GroupKeys, Group, NoDup, OperationNode, SortedKeys;
    var operations: seq<Entry> := [];
    for i := 0 to |keys|
      invariant operations == OperationEntries(ds, service)[..i]
    {
      assert keys[i] in keys;
      var tags := [service];
      var group := groups[keys[i]];
      if |group| > 0 && |group[0].tags| > 0 {
        tags := group[0].tags;
      }
      var op := BuildOperation(keys[i], service, tags);
      operations := AddMapping(operations, "send_" + keys[i], op);
    }
    n := Mapping(operations);
  }
}
