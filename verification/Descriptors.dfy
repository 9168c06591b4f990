/** Event descriptors and their grouping by exposure key, shared by the values and AsyncAPI generators. */
module Descriptors {
  import opened Wrappers
  import opened Ordering
  import opened JsonSchema

  /** A payload type: its name and schema, None when the schema generator rejects it. */
  datatype Dto = Dto(name: string, schema: Option<Schema>)

  /** The schema is what the generator makes of a declared type of that name. */
  ghost predicate FromType(env: Env, dto: Dto) {
    exists n :: n in env && n.name == dto.name && Gives(env, env[n], dto.schema)
  }

  /** The schema is that of a declared type of this name; of a struct, it describes the fields. */
  ghost predicate DescribesType(env: Env, name: string, s: Schema) {
    exists n, depth :: && n in env && n.name == name && SchemaFor(env, env[n], depth) == Ended(Some(s))
                       && (env[n].Struct? ==> Describes(env, env[n].fields, depth, s))
  }

  lemma FromTypeRequired(env: Env, dto: Dto)
    requires FromType(env, dto) && dto.schema.Some?
    ensures RequiredDeclared(dto.schema.value) && DescribesType(env, dto.name, dto.schema.value)
  {
    hide Describes, RequiredDeclared;
    var n :| n in env && n.name == dto.name && Gives(env, env[n], dto.schema);
    var depth: nat :| SchemaFor(env, env[n], depth) == Ended(dto.schema);
    SchemaForRequired(env, env[n], depth);
    if env[n].Struct? {
      StructDescribed(env, env[n], depth);
    }
  }

  /** The payload as the generators take it from a declared type. */
  method DtoOf(env: Env, n: TypeName) returns (dto: Dto)
    requires n in env && Ends(env, env[n])
    ensures FromType(env, dto) && dto.name == n.name
  {
    var schema := SchemaFromType(env, n);
    dto := Dto(n.name, schema);
  }

  datatype Descriptor = Descriptor(
    name: string, exposureKey: string, topic: string, ceType: string, ceSource: string, version: string,
    contentType: string, description: string, tags: seq<string>, payload: Option<Dto>)

  /** The exposure key, or the name when there is none. */
  function GroupKey(d: Descriptor): string {
    if d.exposureKey == "" then d.name else d.exposureKey
  }

  /** The descriptors of one group in input order. */
  function Group(ds: seq<Descriptor>, key: string): seq<Descriptor> {
    if ds == [] then []
    else
      var n := |ds| - 1;
      Group(ds[..n], key) + if GroupKey(ds[n]) == key then [ds[n]] else []
  }

  function GroupKeys(ds: seq<Descriptor>): set<string> {
    set d | d in ds :: GroupKey(d)
  }

  ghost predicate DistinctNames(ds: seq<Descriptor>) {
    forall i, j :: 0 <= i < j < |ds| ==> ds[i].name != ds[j].name
  }

  predicate ByName(a: Descriptor, b: Descriptor) {
    LexLess(a.name, b.name)
  }

  /** All descriptors of a group name the same topic. */
  ghost predicate TopicsAgree(group: seq<Descriptor>) {
    forall d, e | d in group && e in group :: d.topic == e.topic
  }

  lemma {:induction false} GroupMembers(ds: seq<Descriptor>, key: string)
    ensures forall d :: d in Group(ds, key) <==> d in ds && GroupKey(d) == key
  {
    if ds != [] {
      GroupMembers(ds[..|ds| - 1], key);
      assert ds == ds[..|ds| - 1] + [ds[|ds| - 1]];
    }
  }

  /** A group is the descriptors of its exposure key, or of its name for those without one, in input order. */
  lemma {:induction false} GroupInOrder(ds: seq<Descriptor>, key: string) returns (positions: seq<nat>)
    ensures InOrder(positions, |ds|) && |positions| == |Group(ds, key)|
    ensures forall k :: 0 <= k < |positions| ==> Group(ds, key)[k] == ds[positions[k]]
    ensures forall i: nat | i < |ds| :: i in positions <==> key == if ds[i].exposureKey != "" then ds[i].exposureKey
            else ds[i].name
  {
    hide InOrder, Group;
    if ds == [] {
      positions := [];
      EmptyGroup(key);
    } else {
      var n := |ds| - 1;
      positions := GroupInOrder(ds[..n], key);
      InOrderAppend(positions, n);
      OneMoreDescriptor(ds, key, n);
      if GroupKey(ds[n]) == key {
        positions := positions + [n];
      }
    }
  }

  lemma EmptyGroup(key: string)
    ensures Group([], key) == [] && InOrder([], 0)
  {
  }

  lemma OneMoreDescriptor(ds: seq<Descriptor>, key: string, n: nat)
    requires n + 1 == |ds|
    ensures Group(ds, key) == Group(ds[..n], key) + if GroupKey(ds[n]) == key then [ds[n]] else []
  {
  }

  lemma {:induction false} GroupDistinct(ds: seq<Descriptor>, key: string)
    requires DistinctNames(ds)
    ensures DistinctNames(Group(ds, key))
  {
    if ds != [] {
      var n := |ds| - 1;
      GroupDistinct(ds[..n], key);
      GroupMembers(ds[..n], key);
      assert forall d :: d in Group(ds[..n], key) ==> d.name != ds[n].name;
    }
  }

  lemma GroupNonEmpty(ds: seq<Descriptor>, key: string)
    ensures Group(ds, key) != [] <==> key in GroupKeys(ds)
  {
    GroupMembers(ds, key);
    if key in GroupKeys(ds) {
      var d :| d in ds && GroupKey(d) == key;
      assert d in Group(ds, key);
    }
    if Group(ds, key) != [] {
      assert Group(ds, key)[0] in Group(ds, key);
    }
  }

  lemma {:induction false} GroupExtend(ds: seq<Descriptor>, i: nat, key: string)
    requires i < |ds|
    ensures Group(ds[..i + 1], key) == Group(ds[..i], key) + if GroupKey(ds[i]) == key then [ds[i]] else []
    ensures GroupKeys(ds[..i + 1]) == GroupKeys(ds[..i]) + {GroupKey(ds[i])}
  {
    assert ds[..i + 1][..i] == ds[..i];
    assert ds[..i + 1] == ds[..i] + [ds[i]];
  }

  lemma ByNameOrder()
    ensures WeakOrder(ByName)
  {
    LexOrder();
  }

  lemma NamesSeparate(ds: seq<Descriptor>)
    requires DistinctNames(ds)
    ensures Separates(ByName, ds) && NoDup(ds)
  {
    LexOrder();
  }

  /** The library sort by name: sorted, the same descriptors, ties in any order. */
  method SortSliceByName(ds: seq<Descriptor>) returns (r: seq<Descriptor>)
    ensures multiset(r) == multiset(ds) && SortedBy(ByName, r)
  {
    r := Sort(ByName, ds);
    ByNameOrder();
    SortSorted(ByName, ds);
  }

  /** With distinct names any sorted arrangement is the same list. */
  lemma SortedByNameUnique(ds: seq<Descriptor>, r: seq<Descriptor>)
    requires DistinctNames(ds) && multiset(r) == multiset(ds) && SortedBy(ByName, r)
    ensures r == Sort(ByName, ds)
  {
    ByNameOrder();
    NamesSeparate(ds);
    SortSorted(ByName, ds);
    MembersByMultiset(Sort(ByName, ds), ds);
    SortedIsUnique(ByName, Sort(ByName, ds), r);
  }

  lemma SortedMembers(ds: seq<Descriptor>)
    ensures |Sort(ByName, ds)| == |ds| && forall d :: d in Sort(ByName, ds) <==> d in ds
  {
    MembersByMultiset(Sort(ByName, ds), ds);
  }

  // ---------------------------------------------------------------- permutations of the input

  ghost predicate Permutation(a: seq<Descriptor>, b: seq<Descriptor>) {
    multiset(a) == multiset(b)
  }

  lemma PermutedNames(a: seq<Descriptor>, b: seq<Descriptor>)
    requires Permutation(a, b) && DistinctNames(a)
    ensures DistinctNames(b)
  {
    MembersByMultiset(a, b);
    NamesSeparate(a);
    NoDupPermuted(a, b);
    forall i, j | 0 <= i < j < |b|
      ensures b[i].name != b[j].name
    {
      assert b[i] in a && b[j] in a;
      var p :| 0 <= p < |a| && a[p] == b[i];
      var q :| 0 <= q < |a| && a[q] == b[j];
    }
  }

  /** A permutation has the same keys, and each group is permuted. */
  lemma PermutedGroups(a: seq<Descriptor>, b: seq<Descriptor>, key: string)
    requires Permutation(a, b) && DistinctNames(a)
    ensures GroupKeys(a) == GroupKeys(b) && Permutation(Group(a, key), Group(b, key)) && DistinctNames(b)
  {
    PermutedNames(a, b);
    MembersByMultiset(a, b);
    GroupMembers(a, key);
    GroupMembers(b, key);
    GroupDistinct(a, key);
    GroupDistinct(b, key);
    forall k
      ensures k in GroupKeys(a) <==> k in GroupKeys(b)
    {
      assert k in GroupKeys(a) <==> exists d :: d in a && GroupKey(d) == k;
      assert k in GroupKeys(b) <==> exists d :: d in b && GroupKey(d) == k;
    }
    NamesSeparate(Group(a, key));
    NamesSeparate(Group(b, key));
    SameMembersSameMultiset(Group(a, key), Group(b, key));
  }

  lemma PermutedSort(a: seq<Descriptor>, b: seq<Descriptor>)
    requires Permutation(a, b) && DistinctNames(a)
    ensures Sort(ByName, a) == Sort(ByName, b)
  {
    ByNameOrder();
    NamesSeparate(a);
    SortIsUnique(ByName, a, b);
  }
}
