/** YAML node trees, and the sort-then-emit conversion that makes them independent of map order. */
module YamlTree {
  import opened Ordering

  datatype Node =
    | Scalar(tag: string, text: string)
    | Mapping(entries: seq<Entry>)
    | Sequence(items: seq<Node>)

  datatype Entry = Entry(key: string, value: Node)

  const STR := "!!str"

  function Str(text: string): Node {
    Scalar(STR, text)
  }

  /** `AddScalar` and `AddMapping` append to the parent's content. */
  function AddScalar(entries: seq<Entry>, key: string, text: string): seq<Entry> {
    entries + [Entry(key, Str(text))]
  }

  function AddMapping(entries: seq<Entry>, key: string, value: Node): seq<Entry> {
    entries + [Entry(key, value)]
  }

  function KeysOf(entries: seq<Entry>): seq<string> {
    seq(|entries|, i requires 0 <= i < |entries| => entries[i].key)
  }

  // ---------------------------------------------------------------- sorted keys

  /** The members of a set in string order. */
  ghost function SortedKeys(keys: set<string>): (r: seq<string>)
    ensures multiset(r) == multiset(keys)
    decreases |keys|
  {
    if keys == {} then []
    else
      var k :| k in keys;
      assert multiset(keys) == multiset(keys - {k}) + multiset{k};
      Insert(LexLess, k, SortedKeys(keys - {k}))
  }

  ghost predicate StrictlySorted(s: seq<string>) {
    forall i, j :: 0 <= i < j < |s| ==> LexLess(s[i], s[j])
  }

  lemma {:induction false} SortedKeysSorted(keys: set<string>)
    ensures SortedBy(LexLess, SortedKeys(keys))
    decreases |keys|
  {
    if keys != {} {
      var k :| k in keys && SortedKeys(keys) == Insert(LexLess, k, SortedKeys(keys - {k}));
      SortedKeysSorted(keys - {k});
      LexOrder();
      InsertSorted(LexLess, k, SortedKeys(keys - {k}));
    }
  }

  lemma SortedKeysMembers(keys: set<string>)
    ensures forall k :: k in SortedKeys(keys) <==> k in keys
    ensures StrictlySorted(SortedKeys(keys))
  {
    var s := SortedKeys(keys);
    SortedKeysSorted(keys);
    LexOrder();
    forall k
      ensures k in s <==> k in keys
    {
      assert k in s <==> k in multiset(s);
    }
    forall i, j | 0 <= i < j < |s|
      ensures s[i] != s[j]
    {
      TwiceInMultiset(s, i, j);
      assert multiset(keys)[s[i]] <= 1;
    }
  }

  /** Any duplicate-free sorted list of the keys is this one: the visiting order of a map is lost in sorting. */
  lemma SortedKeysUnique(keys: set<string>, s: seq<string>)
    requires (forall k :: k in s <==> k in keys) && StrictlySorted(s)
    ensures s == SortedKeys(keys)
  {
    hide *;
    SortedKeysMembers(keys);
    StrictlySortedList(s);
    StrictlySortedList(SortedKeys(keys));
    SameMembersSameMultiset(s, SortedKeys(keys));
    SortedIsUnique(LexLess, s, SortedKeys(keys));
  }

  lemma StrictlySortedList(s: seq<string>)
    requires StrictlySorted(s)
    ensures NoDup(s) && SortedBy(LexLess, s) && Separates(LexLess, s) && WeakOrder(LexLess)
  {
    LexOrder();
    forall i, j | 0 <= i < j < |s|
      ensures !LexLess(s[j], s[i])
    {
      LexAsymmetric(s[i], s[j]);
    }
  }

  /** Collects a map's keys in whatever order the map yields them, then sorts. */
  method KeyList(keys: set<string>) returns (sorted: seq<string>)
    ensures sorted == SortedKeys(keys)
  {
    var unsorted: seq<string> := [];
    var todo := keys;
    while todo != {}
      invariant todo <= keys && Lists(unsorted, keys - todo)
      decreases |todo|
    {
      var k :| k in todo;
      ListsAppend(unsorted, keys - todo, k);
      assert keys - (todo - {k}) == keys - todo + {k};
      unsorted, todo := unsorted + [k], todo - {k};
    }
    sorted := SortStrings(unsorted);
    SortStringsOfSet(unsorted, keys);
  }

  lemma SortStringsOfSet(unsorted: seq<string>, keys: set<string>)
    requires Lists(unsorted, keys)
    ensures SortStrings(unsorted) == SortedKeys(keys)
  {
    SortedKeysMembers(keys);
    LexOrder();
    SameMembersSameMultiset(unsorted, SortedKeys(keys));
    SortStringsUnique(unsorted, SortedKeys(keys));
    SortStringsSorted(SortedKeys(keys));
    SortedKeysSorted(keys);
    MembersByMultiset(SortStrings(SortedKeys(keys)), SortedKeys(keys));
    SortedIsUnique(LexLess, SortStrings(SortedKeys(keys)), SortedKeys(keys));
  }

  // ---------------------------------------------------------------- untyped values

  datatype Any =
    | Null
    | Text(text: string)
    | Bool(value: bool)
    | Number(digits: string)  // an integer in decimal
    | List(items: seq<Any>)
    | Object(fields: map<string, Any>)

  ghost function AnyToNode(v: Any): Node
    decreases v, 1
  {
    match v
    case Null => Scalar("!!null", "null")
    case Text(t) => Str(t)
    case Bool(b) => Scalar("!!bool", if b then "true" else "false")
    case Number(d) => Scalar("!!int", d)
    case List(items) => Sequence(seq(|items|, i requires 0 <= i < |items| => AnyToNode(items[i])))
    case Object(fields) => Mapping(FieldEntries(v, SortedKeys(fields.Keys)))
  }

  ghost function FieldEntries(v: Any, keys: seq<string>): (entries: seq<Entry>)
    requires v.Object?
    ensures |entries| == |keys|
    decreases v, 0, |keys|
  {
    seq(|keys|, i requires 0 <= i < |keys| => Entry(keys[i], if keys[i] in v.fields then AnyToNode(v.fields[keys[i]])
        else Mapping([])))
  }

  /** Converts a value, visiting each of its maps in arbitrary order. */
  method ConvertAny(v: Any) returns (n: Node)
    ensures n == AnyToNode(v)
    decreases v, 1
  {
    match v
    case Null => return Scalar("!!null", "null");
    case Text(t) => return Str(t);
    case Bool(b) =>
      var text := "false";
      if b {
        text := "true";
      }
      return Scalar("!!bool", text);
    case Number(d) => return Scalar("!!int", d);
    case List(items) =>
      var nodes: seq<Node> := [];
      for i := 0 to |items|
        invariant |nodes| == i && forall j :: 0 <= j < i ==> nodes[j] == AnyToNode(items[j])
      {
        var node := ConvertAny(items[i]);
        nodes := nodes + [node];
      }
      assert nodes == AnyToNode(v).items;
      return Sequence(nodes);
    case Object(fields) => n := ConvertObject(v);
  }

  method ConvertObject(v: Any) returns (n: Node)
    requires v.Object?
    ensures n == AnyToNode(v)
    decreases v, 0
  {
    var keys := KeyList(v.fields.Keys);
    SortedKeysMembers(v.fields.Keys);
    hide SortedKeys, StrictlySorted;
    var entries: seq<Entry> := [];
    for i := 0 to |keys|
      invariant |entries| == i && forall j :: 0 <= j < i ==>
                keys[j] in v.fields
                && entries[j] == Entry(keys[j], AnyToNode(v.fields[keys[j]]))
    {
      assert keys[i] in keys;
      var node := ConvertAny(v.fields[keys[i]]);
      entries := AddMapping(entries, keys[i], node);
    }
    assert entries == FieldEntries(v, keys);
    n := Mapping(entries);
  }

  /** The tree holds the text under a `$ref` key. */
  ghost predicate HasRef(n: Node, ref: string) {
    match n
    case Scalar(_, _) => false
    case Mapping(entries) => exists i :: 0 <= i < |entries| && EntryHasRef(entries[i], ref)
    case Sequence(items) => exists i :: 0 <= i < |items| && HasRef(items[i], ref)
  }

  ghost predicate EntryHasRef(e: Entry, ref: string) {
    (e.key == "$ref" && e.value == Str(ref)) || HasRef(e.value, ref)
  }

  ghost predicate AnyHasRef(v: Any, ref: string)
    decreases v, 0
  {
    match v
    case List(items) => exists i :: 0 <= i < |items| && AnyHasRef(items[i], ref)
    case Object(fields) => exists k :: k in fields && FieldHasRef(k, fields[k], ref)
    case _ => false
  }

  ghost predicate FieldHasRef(key: string, v: Any, ref: string)
    decreases v, 1
  {
    (key == "$ref" && v == Text(ref)) || AnyHasRef(v, ref)
  }

  /** Conversion neither adds nor loses a reference. */
  lemma {:induction false} RefsPreserved(v: Any, ref: string)
    ensures HasRef(AnyToNode(v), ref) <==> AnyHasRef(v, ref)
  {
    match v
    case List(items) =>
      forall i | 0 <= i < |items| { RefsPreserved(items[i], ref); }
      ListRefs(items, ref);
    case Object(fields) =>
      forall k | k in fields { RefsPreserved(fields[k], ref); }
      ObjectRefs(v, ref);
    case _ =>
  }

  lemma ListRefs(items: seq<Any>, ref: string)
    requires forall i :: 0 <= i < |items| ==> (HasRef(AnyToNode(items[i]), ref) <==> AnyHasRef(items[i], ref))
    ensures HasRef(AnyToNode(List(items)), ref) <==> AnyHasRef(List(items), ref)
  {
    var nodes := AnyToNode(List(items)).items;
    assert forall i :: 0 <= i < |items| ==> nodes[i] == AnyToNode(items[i]);
    if AnyHasRef(List(items), ref) {
      var i :| 0 <= i < |items| && AnyHasRef(items[i], ref);
      assert HasRef(nodes[i], ref);
    }
  }

  lemma ObjectRefs(v: Any, ref: string)
    requires v.Object? && forall k :: k in v.fields
                                      ==> (HasRef(AnyToNode(v.fields[k]), ref) <==> AnyHasRef(v.fields[k], ref))
    ensures HasRef(AnyToNode(v), ref) <==> AnyHasRef(v, ref)
  {
    var keys := SortedKeys(v.fields.Keys);
    SortedKeysMembers(v.fields.Keys);
    var entries := FieldEntries(v, keys);
    forall i | 0 <= i < |keys|
      ensures keys[i] in v.fields && (EntryHasRef(entries[i], ref) <==> FieldHasRef(keys[i], v.fields[keys[i]], ref))
    {
      assert keys[i] in keys;
      FieldRef(v, keys, i, ref);
    }
    SomeFieldHasRef(v, keys, entries, ref);
  }

  lemma FieldRef(v: Any, keys: seq<string>, i: nat, ref: string)
    requires v.Object? && i < |keys| && keys[i] in v.fields
    requires HasRef(AnyToNode(v.fields[keys[i]]), ref) <==> AnyHasRef(v.fields[keys[i]], ref)
    ensures EntryHasRef(FieldEntries(v, keys)[i], ref) <==> FieldHasRef(keys[i], v.fields[keys[i]], ref)
  {
    TextNodes(v.fields[keys[i]], ref);
  }

  lemma SomeFieldHasRef(v: Any, keys: seq<string>, entries: seq<Entry>, ref: string)
    requires v.Object? && |entries| == |keys| && forall k :: k in keys <==> k in v.fields
    requires forall i :: 0 <= i < |keys|
                         ==> (EntryHasRef(entries[i], ref) <==> FieldHasRef(keys[i], v.fields[keys[i]], ref))
    ensures HasRef(Mapping(entries), ref) <==> AnyHasRef(v, ref)
  {
    hide EntryHasRef, FieldHasRef;
    if AnyHasRef(v, ref) {
      var k :| k in v.fields && FieldHasRef(k, v.fields[k], ref);
      assert k in keys;
      var i :| 0 <= i < |keys| && keys[i] == k;
      assert EntryHasRef(entries[i], ref);
    }
    if HasRef(Mapping(entries), ref) {
      var i :| 0 <= i < |entries| && EntryHasRef(entries[i], ref);
      assert keys[i] in v.fields && FieldHasRef(keys[i], v.fields[keys[i]], ref);
    }
  }

  /** Only a text converts to a string scalar. */
  lemma TextNodes(v: Any, text: string)
    ensures AnyToNode(v) == Str(text) <==> v == Text(text)
  {
  }
}
