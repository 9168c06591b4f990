/** The generated Helm values: `cqrs.endpoints` and `events.exposed`. */
module ValuesSpec {
  import opened Wrappers
  import opened Ordering
  import opened YamlTree
  import opened JsonSchema
  import opened SpecParts
  import opened Descriptors

  /** Two descriptors of one group name different topics. */
  datatype BuildError = TopicsDisagree(key: string)

  datatype ExposedGroup = ExposedGroup(topic: string, contentType: string, ceTypes: seq<string>)

  function CeTypes(group: seq<Descriptor>): seq<string> {
    seq(|group|, i requires 0 <= i < |group| => group[i].ceType)
  }

  function GroupNode(g: ExposedGroup): Node {
    Mapping((if g.topic == "" then [] else [Entry("topic", Str(g.topic))])
            + [Entry("contentType", Str(g.contentType)), Entry("eventTypes", StrList(g.ceTypes))])
  }

  /** What a group amounts to: the topic and content type of its first descriptor by name, and all its
      event types in order. */
  function GroupOf(ds: seq<Descriptor>, key: string): ExposedGroup
    requires Group(ds, key) != []
  {
    var sorted := Sort(ByName, Group(ds, key));
    MembersByMultiset(sorted, Group(ds, key));
    ExposedGroup(sorted[0].topic, sorted[0].contentType, SortStrings(CeTypes(Group(ds, key))))
  }

  ghost function ExposedEntries(ds: seq<Descriptor>): (entries: seq<Entry>)
    ensures |entries| == |SortedKeys(GroupKeys(ds))|
    ensures forall i :: 0 <= i < |entries| ==> entries[i].key == SortedKeys(GroupKeys(ds))[i]
  {
    var keys := SortedKeys(GroupKeys(ds));
    seq(|keys|, i requires 0 <= i < |keys| =>
      Entry(keys[i], if Group(ds, keys[i]) == [] then Mapping([]) else GroupNode(GroupOf(ds, keys[i]))))
  }

  ghost function ExposedTree(ds: seq<Descriptor>): Node {
    Mapping([Entry("exposed", Mapping(ExposedEntries(ds)))])
  }

  /** The generator refuses a list exactly when some group disagrees on its topic. */
  ghost predicate AllTopicsAgree(ds: seq<Descriptor>) {
    forall key | key in GroupKeys(ds) :: TopicsAgree(Group(ds, key))
  }

  /** The event types of every group, each in input order. */
  function TypesOf(ds: seq<Descriptor>): map<string, seq<string>> {
    map key | key in GroupKeys(ds) :: CeTypes(Group(ds, key))
  }

  /** One more descriptor extends the event types of its own group. */
  function TypesWith(types: map<string, seq<string>>, d: Descriptor): map<string, seq<string>> {
    types[GroupKey(d) := (if GroupKey(d) in types then types[GroupKey(d)] else []) + [d.ceType]]
  }

  lemma TypesExtend(ds: seq<Descriptor>, i: nat)
    requires i < |ds|
    ensures TypesOf(ds[..i + 1]) == TypesWith(TypesOf(ds[..i]), ds[i])
  {
    GroupExtend(ds, i, GroupKey(ds[i]));
    forall k | k in TypesOf(ds[..i + 1])
      ensures k in TypesWith(TypesOf(ds[..i]), ds[i])
              && TypesOf(ds[..i + 1])[k] == TypesWith(TypesOf(ds[..i]), ds[i])[k]
    {
      TypesExtendAt(ds, i, k);
    }
    hide Group, GroupKeys, CeTypes;
    assert TypesOf(ds[..i + 1]).Keys == TypesWith(TypesOf(ds[..i]), ds[i]).Keys;
  }

  lemma TypesExtendAt(ds: seq<Descriptor>, i: nat, k: string)
    requires i < |ds| && k in TypesOf(ds[..i + 1])
    ensures k in TypesWith(TypesOf(ds[..i]), ds[i])
    ensures TypesOf(ds[..i + 1])[k] == TypesWith(TypesOf(ds[..i]), ds[i])[k]
  {
    hide Group, GroupKeys;
    GroupExtend(ds, i, k);
    GroupNonEmpty(ds[..i], k);
    var before, d := Group(ds[..i], k), ds[i];
    assert CeTypes(before + [d]) == CeTypes(before) + [d.ceType];
    assert before == [] ==> CeTypes(before) == [];
    assert before + [] == before;
  }

  /** First pass: the event types of each group, and the keys in the order they appear. */
  method CollectTypes(ds: seq<Descriptor>) returns (types: map<string, seq<string>>, order: seq<string>)
    ensures types == TypesOf(ds)
    ensures Lists(order, types.Keys)
  {
    types, order := map[], [];
    assert TypesOf(ds[..0]) == map[];
    for i := 0 to |ds|
      invariant types == TypesOf(ds[..i]) && Lists(order, types.Keys)
    {
      TypesExtend(ds, i);
      hide TypesOf, Lists;
      var key := ds[i].exposureKey;
      if key == "" {
        key := ds[i].name;
      }
      ListsAppend(order, types.Keys, key);
      var ceTypes: seq<string> := [];
      if key in types {
        ceTypes := types[key];
      } else {
        order := order + [key];
      }
      types := types[key := ceTypes + [ds[i].ceType]];
    }
    assert ds[..|ds|] == ds;
  }

  /** The descriptors of one group, rescanned from the input. */
  method SelectGroup(ds: seq<Descriptor>, key: string) returns (group: seq<Descriptor>)
    ensures group == Group(ds, key)
  {
    group := [];
    for i := 0 to |ds|
      invariant group == Group(ds[..i], key)
    {
      GroupExtend(ds, i, key);
      var k := ds[i].exposureKey;
      if k == "" {
        k := ds[i].name;
      }
      if k == key {
        group := group + [ds[i]];
      }
    }
    assert ds[..|ds|] == ds;
  }

  /** Second pass over one group: the first descriptor by name decides, the others must agree on the topic. */
  method ResolveGroup(ds: seq<Descriptor>, key: string, ceTypes: seq<string>) returns (r: Option<ExposedGroup>)
    requires Group(ds, key) != [] && ceTypes == CeTypes(Group(ds, key))
    ensures r.Some? <==> TopicsAgree(Group(ds, key))
    ensures r.Some? && DistinctNames(ds) ==> r.value == GroupOf(ds, key)
  {
    var group := SelectGroup(ds, key);
    var sorted := SortSliceByName(group);
    MembersByMultiset(sorted, group);
    var first := sorted[0];
    for i := 1 to |sorted|
      invariant forall j :: 0 <= j < i ==> sorted[j].topic == first.topic
    {
      if sorted[i].topic != first.topic {
        assert sorted[i] in group && first in group;
        return None;
      }
    }
    assert forall d | d in group :: d in sorted;
    if DistinctNames(ds) {
      GroupDistinct(ds, key);
      SortedByNameUnique(group, sorted);
    }
    return Some(ExposedGroup(first.topic, first.contentType, SortStrings(ceTypes)));
  }

  /** `g` is what the group under `key` resolves to. */
  ghost predicate Resolved(ds: seq<Descriptor>, key: string, g: ExposedGroup) {
    && Group(ds, key) != [] && TopicsAgree(Group(ds, key))
    && (DistinctNames(ds) ==> g == GroupOf(ds, key))
  }

  /** Second pass, visiting the group map in arbitrary order; which disagreement is reported depends on it. */
  method ResolveGroups(ds: seq<Descriptor>, types: map<string, seq<string>>)
    returns (r: Result<map<string, ExposedGroup>, BuildError>)
    requires types == TypesOf(ds)
    ensures r.Err? ==> r.error.key in GroupKeys(ds) && !TopicsAgree(Group(ds, r.error.key))
    ensures r.Ok? ==> r.value.Keys == GroupKeys(ds) && forall key | key in r.value :: Resolved(ds, key, r.value[key])
  {
    var groups: map<string, ExposedGroup> := map[];
    var todo := types.Keys;
    while todo != {}
      invariant todo <= types.Keys && groups.Keys == types.Keys - todo
      invariant forall key | key in groups :: Resolved(ds, key, groups[key])
      decreases |todo|
    {
      var key :| key in todo;
      GroupNonEmpty(ds, key);
      var g := ResolveGroup(ds, key, types[key]);
      if g.None? {
        return Err(TopicsDisagree(key));
      }
      assert Resolved(ds, key, g.value);
      hide Resolved;
      groups := groups[key := g.value];
      todo := todo - {key};
    }
    return Ok(groups);
  }

  lemma ExposedAt(ds: seq<Descriptor>, i: nat, g: ExposedGroup)
    requires i < |SortedKeys(GroupKeys(ds))| && Resolved(ds, SortedKeys(GroupKeys(ds))[i], g) && DistinctNames(ds)
    ensures ExposedEntries(ds)[i] == Entry(SortedKeys(GroupKeys(ds))[i], GroupNode(g))
  {
  }

  lemma ResolvedAgree(ds: seq<Descriptor>, groups: map<string, ExposedGroup>)
    requires groups.Keys == GroupKeys(ds) && forall key | key in groups :: Resolved(ds, key, groups[key])
    ensures AllTopicsAgree(ds)
  {
    forall key | key in GroupKeys(ds)
      ensures TopicsAgree(Group(ds, key))
    {
      assert Resolved(ds, key, groups[key]);
    }
  }

  /** No descriptors give no `events` key at all. */
  method BuildExposedNode(ds: seq<Descriptor>) returns (r: Result<Option<Node>, BuildError>)
    ensures r.Ok? <==> AllTopicsAgree(ds)
    ensures r.Err? ==> r.error.key in GroupKeys(ds) && !TopicsAgree(Group(ds, r.error.key))
    ensures r.Ok? ==> (r.value.None? <==> ds == [])
    ensures r.Ok? && ds != [] && DistinctNames(ds) ==> r.value == Some(ExposedTree(ds))
  {
    if |ds| == 0 {
      return Ok(None);
    }
    hide Group, GroupKeys, TopicsAgree, Resolved, GroupOf, StrictlySorted, GroupNode;
    var types, order := CollectTypes(ds);
    var resolved := ResolveGroups(ds, types);
    if resolved.Err? {
      return Err(resolved.error);
    }
    ResolvedAgree(ds, resolved.value);
    var exposed := EmitGroups(ds, order, resolved.value);
    return Ok(Some(Mapping([Entry("exposed", exposed)])));
  }

  /** Third pass: one entry per key, sorted. */
  method EmitGroups(ds: seq<Descriptor>, order: seq<string>, groups: map<string, ExposedGroup>) returns (n: Node)
    requires Lists(order, groups.Keys) && groups.Keys == GroupKeys(ds)
    requires forall key | key in groups :: Resolved(ds, key, groups[key])
    ensures DistinctNames(ds) ==> n == Mapping(ExposedEntries(ds))
  {
    hide *;
    var keys := SortStrings(order);
    SortStringsOfSet(order, GroupKeys(ds));
    SortedKeysMembers(GroupKeys(ds));
    var entries: seq<Entry> := [];
    for i := 0 to |keys|
      invariant |entries| == i
      invariant DistinctNames(ds) ==> entries == ExposedEntries(ds)[..i]
    {
      assert keys[i] in keys;
      var node := EmitGroup(groups[keys[i]]);
      if DistinctNames(ds) {
        ExposedAt(ds, i, groups[keys[i]]);
      }
      entries := entries + [Entry(keys[i], node)];
    }
    n := Mapping(entries);
  }

  method EmitGroup(g: ExposedGroup) returns (n: Node)
    ensures n == GroupNode(g)
  {
    var entry: seq<Entry> := [];
    if g.topic != "" {
      entry := AddScalar(entry, "topic", g.topic);
    }
    entry := AddScalar(entry, "contentType", g.contentType);
    var types := EmitRequired(g.ceTypes);
    entry := AddMapping(entry, "eventTypes", types);
    n := Mapping(entry);
  }

  // ---------------------------------------------------------------- determinism

  /** The order of the descriptors does not matter, nor does any map's visiting order. */
  lemma ExposedTreeIgnoresOrder(a: seq<Descriptor>, b: seq<Descriptor>)
    requires Permutation(a, b) && DistinctNames(a)
    ensures DistinctNames(b) && (AllTopicsAgree(a) <==> AllTopicsAgree(b))
    ensures ExposedTree(a) == ExposedTree(b)
  {
    PermutedGroups(a, b, "");
    forall key
      ensures TopicsAgree(Group(a, key)) <==> TopicsAgree(Group(b, key))
    {
      PermutedGroups(a, b, key);
      PermutedTopics(Group(a, key), Group(b, key));
    }
    var ea, eb := ExposedEntries(a), ExposedEntries(b);
    forall i | 0 <= i < |ea|
      ensures ea[i] == eb[i]
    {
      PermutedEntry(a, b, i);
    }
    assert ea == eb;
  }

  lemma PermutedTopics(a: seq<Descriptor>, b: seq<Descriptor>)
    requires multiset(a) == multiset(b)
    ensures TopicsAgree(a) <==> TopicsAgree(b)
  {
    MembersByMultiset(a, b);
  }

  lemma PermutedEntry(a: seq<Descriptor>, b: seq<Descriptor>, i: nat)
    requires Permutation(a, b) && DistinctNames(a) && GroupKeys(a) == GroupKeys(b) && i < |SortedKeys(GroupKeys(a))|
    ensures ExposedEntries(a)[i] == ExposedEntries(b)[i]
  {
    var key := SortedKeys(GroupKeys(a))[i];
    PermutedGroups(a, b, key);
    MembersByMultiset(Group(a, key), Group(b, key));
    if Group(a, key) != [] {
      PermutedGroup(a, b, key);
    }
  }

  lemma PermutedGroup(a: seq<Descriptor>, b: seq<Descriptor>, key: string)
    requires Permutation(a, b) && DistinctNames(a) && Group(a, key) != [] && Group(b, key) != []
    ensures GroupOf(a, key) == GroupOf(b, key)
  {
    PermutedGroups(a, b, key);
    GroupDistinct(a, key);
    PermutedSort(Group(a, key), Group(b, key));
    PermutedCeTypes(Group(a, key), Group(b, key));
    SortStringsUnique(CeTypes(Group(a, key)), CeTypes(Group(b, key)));
  }

  lemma PermutedCeTypes(a: seq<Descriptor>, b: seq<Descriptor>)
    requires multiset(a) == multiset(b)
    ensures multiset(CeTypes(a)) == multiset(CeTypes(b))
  {
    var ceType := (d: Descriptor) => d.ceType;
    assert CeTypes(a) == Images(ceType, a) && CeTypes(b) == Images(ceType, b);
    PermutedImages(ceType, a, b);
  }

  // ---------------------------------------------------------------- cqrs.endpoints

  datatype Route = Route(eventName: string, method_: string, path: string)

  predicate ByEvent(a: Route, b: Route) {
    LexLess(a.eventName, b.eventName)
  }

  /** The routes that carry an event, in input order. */
  function WithEvents(routes: seq<Route>): seq<Route> {
    if routes == [] then []
    else
      var n := |routes| - 1;
      WithEvents(routes[..n]) + if routes[n].eventName == "" then [] else [routes[n]]
  }

  /** Only equal routes carry the same event. */
  ghost predicate ConsistentEvents(routes: seq<Route>) {
    forall r, s | r in routes && s in routes && r.eventName == s.eventName :: r == s
  }

  /** A result the library sort by event name may give. */
  ghost predicate Arrangement(routes: seq<Route>, r: seq<Route>) {
    multiset(r) == multiset(routes) && SortedBy(ByEvent, r)
  }

  function RouteEntry(r: Route): Entry {
    Entry(r.eventName, Mapping([Entry("method", Str(r.method_)), Entry("endpoint", Str(r.path))]))
  }

  function CqrsTree(sorted: seq<Route>): Node {
    Mapping([Entry("endpoints", Mapping(seq(|sorted|, i requires 0 <= i < |sorted| => RouteEntry(sorted[i]))))])
  }

  /** The library sort by event name; the order of ties is not promised. */
  method SortSliceByEvent(routes: seq<Route>) returns (r: seq<Route>)
    ensures Arrangement(routes, r)
  {
    LexOrder();
    r := Sort(ByEvent, routes);
    SortSorted(ByEvent, routes);
  }

  method BuildCqrsNode(routes: seq<Route>) returns (r: Option<Node>)
    ensures r.None? <==> WithEvents(routes) == []
    ensures r.Some? ==> exists sorted :: Arrangement(WithEvents(routes), sorted) && r.value == CqrsTree(sorted)
    ensures r.Some? && ConsistentEvents(WithEvents(routes)) ==> r.value == CqrsTree(Sort(ByEvent, WithEvents(routes)))
  {
    var entries: seq<Route> := [];
    for i := 0 to |routes|
      invariant entries == WithEvents(routes[..i])
    {
      assert routes[..i + 1][..i] == routes[..i];
      if routes[i].eventName == "" {
        continue;
      }
      entries := entries + [routes[i]];
    }
    assert routes[..|routes|] == routes;
    if |entries| == 0 {
      return None;
    }
    hide WithEvents, CqrsTree, ConsistentEvents, Arrangement;
    var sorted := SortSliceByEvent(entries);
    if ConsistentEvents(entries) {
      SortedByEventUnique(entries, sorted);
    }
    var tree := EmitRoutes(sorted);
    return Some(tree);
  }

  method EmitRoutes(sorted: seq<Route>) returns (n: Node)
    ensures n == CqrsTree(sorted)
  {
    var nodes: seq<Entry> := [];
    for i := 0 to |sorted|
      invariant |nodes| == i && forall j :: 0 <= j < i ==> nodes[j] == RouteEntry(sorted[j])
    {
      var entry := AddScalar([], "method", sorted[i].method_);
      entry := AddScalar(entry, "endpoint", sorted[i].path);
      assert entry == RouteEntry(sorted[i]).value.entries;
      nodes := AddMapping(nodes, sorted[i].eventName, Mapping(entry));
    }
    ghost var all := seq(|sorted|, i requires 0 <= i < |sorted| => RouteEntry(sorted[i]));
    assert nodes == all;
    n := Mapping([Entry("endpoints", Mapping(nodes))]);
  }

  /** Any sorted arrangement is then the same list, whatever the input order. */
  lemma SortedByEventUnique(a: seq<Route>, r: seq<Route>)
    requires ConsistentEvents(a) && Arrangement(a, r)
    ensures r == Sort(ByEvent, a)
  {
    LexOrder();
    SortSorted(ByEvent, a);
    MembersByMultiset(Sort(ByEvent, a), a);
    SortedIsUnique(ByEvent, Sort(ByEvent, a), r);
  }

  /** Where the sort may put two routes in either order and they differ, so do the trees: the tree is
      fixed exactly when only equal routes carry the same event. */
  lemma CqrsTreeFixedIff(routes: seq<Route>)
    ensures (forall r, s | Arrangement(routes, r) && Arrangement(routes, s) :: CqrsTree(r) == CqrsTree(s))
            <==> ConsistentEvents(routes)
  {
    if ConsistentEvents(routes) {
      forall r, s | Arrangement(routes, r) && Arrangement(routes, s)
        ensures CqrsTree(r) == CqrsTree(s)
      {
        SortedByEventUnique(routes, r);
        SortedByEventUnique(routes, s);
      }
    } else {
      var a, b :| a in routes && b in routes && a.eventName == b.eventName && a != b;
      var r, s := TwoArrangements(routes, a, b);
    }
  }

  lemma TwoArrangements(routes: seq<Route>, a: Route, b: Route) returns (r: seq<Route>, s: seq<Route>)
    requires a in routes && b in routes && a.eventName == b.eventName && a != b
    ensures Arrangement(routes, r) && Arrangement(routes, s) && CqrsTree(r) != CqrsTree(s)
  {
    hide Sort, CqrsTree, SortedBy, ByEvent;
    r := Sort(ByEvent, routes);
    SortIsArrangement(routes);
    MembersByMultiset(r, routes);
    var i :| 0 <= i < |r| && r[i] == a;
    var j :| 0 <= j < |r| && r[j] == b;
    s := r[i := b][j := a];
    SwapMultiset(r, i, j);
    SwapKeepsOrder(r, i, j);
    DifferentTrees(r, s, i);
  }

  lemma SortIsArrangement(routes: seq<Route>)
    ensures Arrangement(routes, Sort(ByEvent, routes))
  {
    LexOrder();
    SortSorted(ByEvent, routes);
  }

  lemma SwapKeepsOrder(r: seq<Route>, i: nat, j: nat)
    requires i < |r| && j < |r| && r[i].eventName == r[j].eventName && SortedBy(ByEvent, r)
    ensures SortedBy(ByEvent, r[i := r[j]][j := r[i]])
  {
    var s := r[i := r[j]][j := r[i]];
    assert forall k | 0 <= k < |r| :: s[k].eventName == r[k].eventName;
    hide LexLess;
  }

  lemma DifferentTrees(r: seq<Route>, s: seq<Route>, i: nat)
    requires |r| == |s| && i < |r| && r[i].eventName == s[i].eventName && r[i] != s[i]
    ensures CqrsTree(r) != CqrsTree(s)
  {
    var er, es := CqrsTree(r).entries[0].value.entries, CqrsTree(s).entries[0].value.entries;
    assert er[i] == RouteEntry(r[i]) && es[i] == RouteEntry(s[i]);
    RouteEntryInjective(r[i], s[i]);
  }

  lemma RouteEntryInjective(r: Route, s: Route)
    ensures RouteEntry(r) == RouteEntry(s) ==> r == s
  {
    var er, es := RouteEntry(r).value.entries, RouteEntry(s).value.entries;
    assert RouteEntry(r) == RouteEntry(s) ==> er[0] == es[0] && er[1] == es[1];
  }

  /** Every endpoint with an event is found under it with its method and path. */
  lemma RouteFound(routes: seq<Route>, r: Route)
    requires ConsistentEvents(WithEvents(routes)) && r in routes && r.eventName != ""
    ensures var tree := CqrsTree(Sort(ByEvent, WithEvents(routes)));
            && At(tree, ["endpoints", r.eventName, "method"]) == Some(Str(r.method_))
            && At(tree, ["endpoints", r.eventName, "endpoint"]) == Some(Str(r.path))
  {
    WithEventsCount(routes, r);
    assert r in multiset(WithEvents(routes));
    var sorted := Sort(ByEvent, WithEvents(routes));
    MembersByMultiset(sorted, WithEvents(routes));
    assert ConsistentEvents(sorted);
    hide *;
    RouteAt(sorted, r, "method", Str(r.method_));
    RouteAt(sorted, r, "endpoint", Str(r.path));
  }

  lemma RouteAt(sorted: seq<Route>, r: Route, key: string, value: Node)
    requires ConsistentEvents(sorted) && r in sorted
    requires (key == "method" && value == Str(r.method_)) || (key == "endpoint" && value == Str(r.path))
    ensures At(CqrsTree(sorted), ["endpoints", r.eventName, key]) == Some(value)
  {
    var entries := seq(|sorted|, j requires 0 <= j < |sorted| => RouteEntry(sorted[j]));
    var i :| 0 <= i < |sorted| && sorted[i] == r;
    forall j | 0 <= j < |entries| && entries[j].key == r.eventName
      ensures entries[j] == RouteEntry(r)
    {
      assert sorted[j] in sorted;
    }
    FindAgreeing(entries, i);
    var top := [Entry("endpoints", Mapping(entries))];
    FindAt(top, 0);
    var fields := RouteEntry(r).value.entries;
    assert "method"[0] != "endpoint"[0];
    FindAt(fields, if key == "method" then 0 else 1);
    hide Find, At, ConsistentEvents;
    assert ["endpoints", r.eventName, key] == ["endpoints"] + ([r.eventName] + [key]);
    AtStep(Mapping(top), "endpoints", [r.eventName] + [key]);
    AtStep(Mapping(entries), r.eventName, [key]);
    AtLast(Mapping(fields), key);
  }

  /** The entries are the endpoints with an event, each as often as given, ordered by event name. */
  lemma CqrsSays(routes: seq<Route>, sorted: seq<Route>)
    requires Arrangement(WithEvents(routes), sorted)
    ensures CqrsTree(sorted).entries[0].key == "endpoints"
    ensures var es := CqrsTree(sorted).entries[0].value.entries;
            && |es| == |sorted|
            && (forall i | 0 <= i < |es| ::
                  es[i] == Entry(sorted[i].eventName, Mapping([Entry("method", Scalar("!!str", sorted[i].method_)),
                                                               Entry("endpoint", Scalar("!!str", sorted[i].path))])))
            && forall i, j | 0 <= i < j < |es| :: es[i].key == es[j].key || ComesBefore(es[i].key, es[j].key)
    ensures forall r :: multiset(sorted)[r] == if r.eventName == "" then 0 else multiset(routes)[r]
  {
    forall r { WithEventsCount(routes, r); }
    forall i, j | 0 <= i < j < |sorted|
      ensures sorted[i].eventName == sorted[j].eventName || ComesBefore(sorted[i].eventName, sorted[j].eventName)
    {
      LexOrder();
      LexLessIff(sorted[i].eventName, sorted[j].eventName);
    }
    hide WithEvents, ComesBefore, LexLess, SortedBy;
  }

  lemma CqrsTreeIgnoresOrder(a: seq<Route>, b: seq<Route>)
    requires multiset(a) == multiset(b) && ConsistentEvents(WithEvents(a))
    ensures CqrsTree(Sort(ByEvent, WithEvents(a))) == CqrsTree(Sort(ByEvent, WithEvents(b)))
  {
    PermutedRoutes(a, b);
    LexOrder();
    SortSorted(ByEvent, WithEvents(b));
    SortedByEventUnique(WithEvents(a), Sort(ByEvent, WithEvents(b)));
  }

  lemma {:induction false} WithEventsCount(routes: seq<Route>, r: Route)
    ensures multiset(WithEvents(routes))[r] == if r.eventName == "" then 0 else multiset(routes)[r]
  {
    if routes != [] {
      var n := |routes| - 1;
      WithEventsCount(routes[..n], r);
      assert routes == routes[..n] + [routes[n]];
      assert multiset(routes)[r] == multiset(routes[..n])[r] + multiset([routes[n]])[r];
      hide WithEvents;
      OneMoreRoute(routes, n, r);
    }
  }

  lemma OneMoreRoute(routes: seq<Route>, n: nat, r: Route)
    requires n + 1 == |routes|
    ensures multiset(WithEvents(routes))[r]
            == multiset(WithEvents(routes[..n]))[r] + if routes[n].eventName != "" && routes[n] == r then 1 else 0
  {
  }

  lemma PermutedRoutes(a: seq<Route>, b: seq<Route>)
    requires multiset(a) == multiset(b)
    ensures multiset(WithEvents(a)) == multiset(WithEvents(b))
  {
    forall r
      ensures multiset(WithEvents(a))[r] == multiset(WithEvents(b))[r]
    {
      WithEventsCount(a, r);
      WithEventsCount(b, r);
    }
    hide WithEvents;
    assert multiset(WithEvents(a)) == multiset(WithEvents(b));
  }
}
