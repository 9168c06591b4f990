/** Pieces shared by the OpenAPI and AsyncAPI generators: references, tag lists and component schemas. */
module SpecParts {
  import opened Wrappers
  import opened Ordering
  import opened YamlTree
  import opened JsonSchema

  // ---------------------------------------------------------------- references

  /** The parts of a document that references point into. */
  datatype Section = Channels | Messages | Schemas

  function SectionPath(section: Section): seq<string> {
    match section
    case Channels => ["channels"]
    case Messages => ["components", "messages"]
    case Schemas => ["components", "schemas"]
  }

  function SectionText(section: Section): string {
    match section
    case Channels => "#/channels/"
    case Messages => "#/components/messages/"
    case Schemas => "#/components/schemas/"
  }

  /** References are written by appending the name to a fixed text. */
  function RefTo(section: Section, name: string): string {
    SectionText(section) + name
  }

  lemma SchemaKeys(name: string)
    ensures SectionPath(Schemas) + [name] == ["components", "schemas", name]
  {
  }

  function RefNode(ref: string): Node {
    Mapping([Entry("$ref", Str(ref))])
  }

  /** Section 3 of RFC 6901: `~` is written `~0` and `/` is written `~1`. */
  function Escape(token: string): (r: string)
    ensures '/' !in r
  {
    if token == "" then ""
    else (if token[0] == '~' then "~0" else if token[0] == '/' then "~1" else [token[0]]) + Escape(token[1..])
  }

  /** Section 5 of RFC 6901 gives these two tokens. */
  lemma EscapedExamples()
    ensures Escape("a/b") == "a~1b" && Escape("m~n") == "m~0n"
  {
    assert "a/b"[1..] == "/b" && "/b"[1..] == "b" && "b"[1..] == "";
    assert "m~n"[1..] == "~n" && "~n"[1..] == "n" && "n"[1..] == "";
  }

  function Steps(tokens: seq<string>): string {
    if tokens == [] then "" else "/" + Escape(tokens[0]) + Steps(tokens[1..])
  }

  /** The characters section 3.5 of RFC 3986 allows in a fragment beside percent-encodings. */
  predicate FragmentChar(c: char) {
    || 'a' <= c <= 'z' || 'A' <= c <= 'Z' || '0' <= c <= '9'
    || c == '-' || c == '.' || c == '_' || c == '~'
    || c == '!' || c == '$' || c == '&' || c == '\'' || c == '(' || c == ')' || c == '*' || c == '+' || c == ','
        || c == ';' || c == '='
    || c == ':' || c == '@' || c == '/' || c == '?'
  }

  predicate IsHex(c: char) {
    '0' <= c <= '9' || 'a' <= c <= 'f' || 'A' <= c <= 'F'
  }

  function HexValue(c: char): nat
    requires IsHex(c)
  {
    if c <= '9' then c as int - '0' as int else if c <= 'F' then c as int - 'A' as int + 10
        else c as int - 'a' as int + 10
  }

  /** The text a fragment stands for, percent-encodings decoded; None if it is no fragment. */
  function FragmentText(s: string): Option<string> {
    if s == "" then Some("")
    else if FragmentChar(s[0]) then
      match FragmentText(s[1..]) case None => None case Some(rest) => Some([s[0]] + rest)
    else if s[0] == '%' && |s| >= 3 && IsHex(s[1]) && IsHex(s[2]) then
      match FragmentText(s[3..])
      case None => None
      case Some(rest) => Some([(16 * HexValue(s[1]) + HexValue(s[2])) as char] + rest)
    else None
  }

  /** Section 6 of RFC 6901: the fragment of the reference, once decoded, is the pointer along these keys. */
  predicate LeadsAlong(ref: string, tokens: seq<string>) {
    ref != "" && ref[0] == '#' && FragmentText(ref[1..]) == Some(Steps(tokens))
  }

  /** The node reached by following keys down nested mappings. */
  function At(n: Node, keys: seq<string>): Option<Node>
    decreases |keys|
  {
    if keys == [] then Some(n)
    else if !n.Mapping? then None
    else match Find(n.entries, keys[0]) case None => None case Some(child) => At(child, keys[1..])
  }

  /** The reference leads to this node of the document. */
  ghost predicate Resolves(doc: Node, ref: string, target: Node) {
    exists tokens :: LeadsAlong(ref, tokens) && At(doc, tokens) == Some(target)
  }

  /** Neither the fragment nor the pointer gives any character a meaning of its own. */
  predicate PlainToken(token: string) {
    forall c | c in token :: FragmentChar(c) && c != '~' && c != '/'
  }

  lemma {:induction false} EscapeIsIdentityIff(token: string)
    ensures |Escape(token)| >= |token|
    ensures Escape(token) == token <==> '~' !in token && '/' !in token
  {
    if token != "" {
      EscapeIsIdentityIff(token[1..]);
      assert token == [token[0]] + token[1..];
      if token[0] != '~' && token[0] != '/' {
        assert Escape(token)[1..] == Escape(token[1..]);
      }
    }
  }

  lemma {:induction false} EscapeInjective(a: string, b: string)
    requires Escape(a) == Escape(b)
    ensures a == b
  {
    if a != "" && b != "" {
      var ea, eb := Escape(a), Escape(b);
      var k := if a[0] == '~' || a[0] == '/' then 2 else 1;
      assert ea[0] == eb[0] && (k == 2 ==> ea[1] == eb[1]);
      assert a[0] == b[0];
      assert ea[k..] == Escape(a[1..]) && eb[k..] == Escape(b[1..]);
      EscapeInjective(a[1..], b[1..]);
      assert a == [a[0]] + a[1..] && b == [b[0]] + b[1..];
    }
  }

  lemma TokenEnds(x: string, u: string, y: string, v: string)
    requires x + u == y + v && '/' !in x && '/' !in y
    requires (u == "" || u[0] == '/') && (v == "" || v[0] == '/')
    ensures x == y && u == v
  {
    var w := x + u;
    assert |x| < |w| ==> w[|x|] == '/';
    assert |y| < |w| ==> w[|y|] == '/';
    assert forall i | 0 <= i < |x| :: w[i] == x[i] && x[i] != '/';
    assert forall i | 0 <= i < |y| :: w[i] == y[i] && y[i] != '/';
    assert |x| == |y|;
    assert x == w[..|x|] && y == w[..|y|] && u == w[|x|..] && v == w[|y|..];
  }

  lemma StepsStart(tokens: seq<string>)
    ensures Steps(tokens) == "" || Steps(tokens)[0] == '/'
    ensures tokens == [] <==> Steps(tokens) == ""
  {
  }

  /** A reference leads along one key path only. */
  lemma {:induction false} StepsInjective(a: seq<string>, b: seq<string>)
    requires Steps(a) == Steps(b)
    ensures a == b
  {
    StepsStart(a);
    StepsStart(b);
    hide Steps, Escape;
    if a != [] && b != [] {
      StepsFirst(a);
      StepsFirst(b);
      StepsStart(a[1..]);
      StepsStart(b[1..]);
      var x, y, u, v := Escape(a[0]), Escape(b[0]), Steps(a[1..]), Steps(b[1..]);
      assert ("/" + x + u)[1..] == x + u && ("/" + y + v)[1..] == y + v;
      TokenEnds(Escape(a[0]), Steps(a[1..]), Escape(b[0]), Steps(b[1..]));
      EscapeInjective(a[0], b[0]);
      StepsInjective(a[1..], b[1..]);
      assert a == [a[0]] + a[1..] && b == [b[0]] + b[1..];
    }
  }

  lemma StepsText(section: Section, name: string)
    ensures "#" + Steps(SectionPath(section) + [name]) == RefTo(section, Escape(name))
  {
    hide Escape, Steps, RefTo;
    RefText(section, Escape(name));
    StepsLast(name);
    if section == Channels {
      StepsInto("channels", [name]);
    } else {
      var second := SectionPath(section)[1];
      assert SectionPath(section) + [name] == ["components"] + ([second] + [name]);
      StepsInto("components", [second] + [name]);
      StepsInto(second, [name]);
    }
  }

  lemma RefText(section: Section, rest: string)
    ensures section == Channels ==> RefTo(section, rest) == "#" + ("/" + "channels" + ("/" + rest))
    ensures section == Messages
            ==> RefTo(section, rest) == "#" + ("/" + "components" + ("/" + "messages" + ("/" + rest)))
    ensures section == Schemas ==> RefTo(section, rest) == "#" + ("/" + "components" + ("/" + "schemas" + ("/" + rest)))
  {
    match section
    case Channels =>
      assert "#/channels/" == "#" + ("/" + "channels" + "/");
      Regroup("channels", "/", rest);
    case Messages =>
      assert "#/components/messages/" == "#" + ("/" + "components" + ("/" + "messages" + "/"));
      Regroup("components", "/" + "messages" + "/", rest);
      assert "/" + "messages" + "/" + rest == "/" + "messages" + ("/" + rest);
    case Schemas =>
      assert "#/components/schemas/" == "#" + ("/" + "components" + ("/" + "schemas" + "/"));
      Regroup("components", "/" + "schemas" + "/", rest);
      assert "/" + "schemas" + "/" + rest == "/" + "schemas" + ("/" + rest);
  }

  lemma Regroup(a: string, b: string, c: string)
    ensures "#" + ("/" + a + b) + c == "#" + ("/" + a + (b + c))
  {
  }

  lemma StepsInto(word: string, tokens: seq<string>)
    requires word == "channels" || word == "components" || word == "messages" || word == "schemas"
    ensures Steps([word] + tokens) == "/" + word + Steps(tokens)
  {
    PlainWord(word);
    assert ([word] + tokens)[1..] == tokens;
  }

  lemma StepsFirst(tokens: seq<string>)
    requires tokens != []
    ensures Steps(tokens) == "/" + Escape(tokens[0]) + Steps(tokens[1..])
  {
  }

  lemma StepsLast(name: string)
    ensures Steps([name]) == "/" + Escape(name)
  {
    var none: seq<string> := [];
    assert [name][1..] == none;
  }

  lemma PlainWord(word: string)
    requires word == "channels" || word == "components" || word == "messages" || word == "schemas"
    ensures Escape(word) == word
  {
    EscapeIsIdentityIff(word);
  }

  predicate FragmentChars(s: string) {
    forall c | c in s :: FragmentChar(c)
  }

  lemma {:induction false} FragmentConcat(a: string, b: string)
    requires FragmentChars(a)
    ensures FragmentText(a + b) == match FragmentText(b) case None => None case Some(rest) => Some(a + rest)
  {
    if a == "" {
      assert a + b == b;
      assert FragmentText(b).Some? ==> a + FragmentText(b).value == FragmentText(b).value;
    } else {
      assert a[0] in a && (a + b)[1..] == a[1..] + b;
      FragmentConcat(a[1..], b);
      hide FragmentChar, FragmentChars;
      assert FragmentText(b).Some? ==> [a[0]] + (a[1..] + FragmentText(b).value) == a + FragmentText(b).value;
    }
  }

  /** Decoding never lengthens, and keeps the length exactly when there is nothing to decode. */
  lemma {:induction false} FragmentLength(s: string)
    ensures FragmentChars(s) ==> FragmentText(s) == Some(s)
    ensures FragmentText(s).Some? ==> |FragmentText(s).value| <= |s|
                                      && (|FragmentText(s).value| == |s| ==> FragmentChars(s))
  {
    if s != "" {
      hide IsHex, HexValue, FragmentChar;
      assert s == [s[0]] + s[1..];
      FragmentLength(s[1..]);
      if |s| >= 3 {
        FragmentLength(s[3..]);
      }
    }
  }

  /** A name stands for itself in a pointer inside a fragment exactly when it is plain. */
  lemma NameIsItsOwnFragmentIff(name: string)
    ensures FragmentText(name) == Some(Escape(name)) <==> PlainToken(name)
  {
    FragmentLength(name);
    EscapeIsIdentityIff(name);
    hide FragmentText, Escape, FragmentChar;
  }

  lemma SectionPrefix(section: Section, name: string)
    ensures var text := SectionText(section);
            && |text| > 1 && FragmentChars(text[1..])
            && RefTo(section, name) != "" && RefTo(section, name)[0] == '#'
                && RefTo(section, name)[1..] == text[1..] + name
  {
    var text := SectionText(section);
    SectionTextParts(section);
    hide SectionText, FragmentChars, SectionPath;
    assert (text + name)[1..] == text[1..] + name;
  }

  lemma SectionTextParts(section: Section)
    ensures var text := SectionText(section); |text| > 1 && text[0] == '#' && FragmentChars(text[1..])
  {
    hide FragmentChars;
    match section
    case Channels =>
      assert "#/channels/" == "#" + ("/" + "channels" + "/");
      WordBetweenSlashes("channels", "/");
    case Messages => MessagesTextParts();
    case Schemas => SchemasTextParts();
  }

  lemma MessagesTextParts()
    ensures var text := SectionText(Messages); |text| > 1 && text[0] == '#' && FragmentChars(text[1..])
  {
    hide FragmentChars;
    assert "#/components/messages/" == "#" + ("/" + "components" + ("/" + "messages" + "/"));
    WordBetweenSlashes("messages", "/");
    WordBetweenSlashes("components", "/" + "messages" + "/");
  }

  lemma SchemasTextParts()
    ensures var text := SectionText(Schemas); |text| > 1 && text[0] == '#' && FragmentChars(text[1..])
  {
    hide FragmentChars;
    assert "#/components/schemas/" == "#" + ("/" + "components" + ("/" + "schemas" + "/"));
    WordBetweenSlashes("schemas", "/");
    WordBetweenSlashes("components", "/" + "schemas" + "/");
  }

  lemma WordBetweenSlashes(word: string, rest: string)
    requires word == "channels" || word == "components" || word == "messages" || word == "schemas"
    requires rest == "/" || FragmentChars(rest)
    ensures FragmentChars("/" + word + rest)
    ensures ("#" + ("/" + word + rest))[1..] == "/" + word + rest
  {
    hide FragmentChar;
    WordChars(word);
    SlashChar();
    forall c | c in "/" + word + rest
      ensures FragmentChar(c)
    {
      assert c == '/' || c in word || c in rest;
    }
  }

  lemma SlashChar()
    ensures FragmentChar('/') && FragmentChars("/")
  {
  }

  lemma WordChars(word: string)
    requires word == "channels" || word == "components" || word == "messages" || word == "schemas"
    ensures FragmentChars(word)
  {
    hide FragmentChar;
    assert forall c | c in word :: 'a' <= c <= 'z';
    LowerCaseChars(word);
  }

  lemma LowerCaseChars(word: string)
    requires forall c | c in word :: 'a' <= c <= 'z'
    ensures FragmentChars(word)
  {
  }

  /** Names are appended as they are: the reference leads to that name exactly when it is plain. */
  lemma RefLeadsToNameIff(section: Section, name: string)
    ensures LeadsAlong(RefTo(section, name), SectionPath(section) + [name]) <==> PlainToken(name)
  {
    hide Escape, Steps, RefTo, SectionText, FragmentText, PlainToken, FragmentChars, SectionPath;
    StepsText(section, name);
    SectionPrefix(section, name);
    SectionPrefix(section, Escape(name));
    NameIsItsOwnFragmentIff(name);
    var text, steps := SectionText(section), Steps(SectionPath(section) + [name]);
    assert ("#" + steps)[1..] == steps;
    FragmentConcat(text[1..], name);
    if FragmentText(name).Some? {
      var decoded := FragmentText(name).value;
      assert (text[1..] + decoded)[|text| - 1..] == decoded && (text[1..] + Escape(name))[|text| - 1..] == Escape(name);
    }
  }

  lemma PercentDecoded()
    ensures FragmentText("%41") == Some("A")
  {
    assert "%41"[3..] == "" && ['A'] + "" == "A";
    assert HexValue('4') == 4 && HexValue('1') == 1 && 65 as char == 'A';
  }

  /** A percent-encoding in a name leads to another name. */
  lemma PercentEncodingLeadsElsewhere()
    ensures LeadsAlong(RefTo(Channels, "a%41"), SectionPath(Channels) + ["aA"])
  {
    PercentDecoded();
    EscapeIsIdentityIff("aA");
    hide FragmentText, Escape, Steps, RefTo, SectionText, SectionPath;
    StepsText(Channels, "aA");
    SectionPrefix(Channels, "a%41");
    SectionPrefix(Channels, "aA");
    var steps := Steps(SectionPath(Channels) + ["aA"]);
    assert ("#" + steps)[1..] == steps;
    FragmentConcat("a", "%41");
    assert "a" + "%41" == "a%41" && "a" + "A" == "aA";
    FragmentConcat(SectionText(Channels)[1..], "a%41");
  }

  /** No other key path answers to the same reference. */
  lemma RefIsUnambiguous(ref: string, a: seq<string>, b: seq<string>)
    requires LeadsAlong(ref, a) && LeadsAlong(ref, b)
    ensures a == b
  {
    StepsInjective(a, b);
  }

  /** Every reference of the tree is one of these. */
  ghost predicate RefsWithin(n: Node, allowed: iset<string>) {
    forall ref | HasRef(n, ref) :: ref in allowed
  }

  lemma MappingWithin(entries: seq<Entry>, allowed: iset<string>)
    requires forall i | 0 <= i < |entries| :: RefsWithin(entries[i].value, allowed)
                                              && (entries[i].key == "$ref" ==> !entries[i].value.Scalar?)
    ensures RefsWithin(Mapping(entries), allowed)
  {
    forall ref | HasRef(Mapping(entries), ref)
      ensures ref in allowed
    {
      var i :| 0 <= i < |entries| && EntryHasRef(entries[i], ref);
      assert RefsWithin(entries[i].value, allowed);
    }
  }

  lemma RefNodeWithin(ref: string, allowed: iset<string>)
    requires ref in allowed
    ensures RefsWithin(RefNode(ref), allowed)
  {
    forall other | HasRef(RefNode(ref), other)
      ensures other == ref
    {
      var entries := RefNode(ref).entries;
      var i :| 0 <= i < |entries| && EntryHasRef(entries[i], other);
      assert entries[i] == Entry("$ref", Str(ref)) && !HasRef(Str(ref), other);
      StrInjective(ref, other);
    }
  }

  lemma AtStep(n: Node, key: string, path: seq<string>)
    requires n.Mapping?
    ensures At(n, [key] + path) == match Find(n.entries, key) case None => None case Some(child) => At(child, path)
  {
    assert ([key] + path)[1..] == path;
  }

  lemma AtLast(n: Node, key: string)
    requires n.Mapping?
    ensures At(n, [key]) == Find(n.entries, key)
  {
    var none: seq<string> := [];
    assert [key][1..] == none;
  }

  /** A plain name leads to what is filed under it. */
  lemma RefResolves(doc: Node, section: Section, name: string)
    requires PlainToken(name) && At(doc, SectionPath(section) + [name]).Some?
    ensures Resolves(doc, RefTo(section, name), At(doc, SectionPath(section) + [name]).value)
  {
    RefLeadsToNameIff(section, name);
    hide LeadsAlong, At, PlainToken, SectionPath, RefTo;
  }

  lemma ScalarWithin(text: string, allowed: iset<string>)
    ensures RefsWithin(Str(text), allowed)
  {
  }

  // ---------------------------------------------------------------- tags

  /** The given tags, or the service itself when there are none. */
  function TagsOr(tags: seq<string>, service: string): seq<string> {
    if tags == [] then [service] else tags
  }

  function TagList(tags: seq<string>): Any {
    List(seq(|tags|, i requires 0 <= i < |tags| => Object(map["name" := Text(tags[i])])))
  }

  method EmitTagList(tags: seq<string>) returns (n: Node)
    ensures n == AnyToNode(TagList(tags))
  {
    var items: seq<Any> := [];
    for i := 0 to |tags|
      invariant |items| == i && forall j :: 0 <= j < i ==> items[j] == Object(map["name" := Text(tags[j])])
    {
      items := items + [Object(map["name" := Text(tags[i])])];
    }
    assert List(items) == TagList(tags);
    n := ConvertAny(List(items));
  }

  /** A sequence of one mapping per tag, which names it. */
  predicate ListsTags(n: Option<Node>, tags: seq<string>) {
    && n.Some? && n.value.Sequence? && |n.value.items| == |tags|
    && forall i | 0 <= i < |tags| :: Reads(At(n.value.items[i], ["name"]), tags[i])
  }

  lemma TagListSays(tags: seq<string>)
    ensures ListsTags(Some(AnyToNode(TagList(tags))), tags)
  {
    hide At, Reads;
    forall i | 0 <= i < |tags|
      ensures Reads(At(AnyToNode(TagList(tags)).items[i], ["name"]), tags[i])
    {
      assert AnyToNode(TagList(tags)).items[i] == AnyToNode(TagList(tags).items[i]);
      TagSays(tags[i]);
    }
  }

  lemma TagSays(tag: string)
    ensures Reads(At(AnyToNode(Object(map["name" := Text(tag)])), ["name"]), tag)
  {
    hide At, Within;
    var fields := map["name" := Text(tag)];
    AtIsWithin(Object(fields), ["name"]);
    assert ["name"] == ["name"] + [];
    WithinStep(fields, "name", []);
    WithinAll(Text(tag));
  }

  lemma TagListHasNoRef(tags: seq<string>, allowed: iset<string>)
    ensures RefsWithin(AnyToNode(TagList(tags)), allowed)
  {
    hide AnyToNode, HasRef;
    forall ref
      ensures !HasRef(AnyToNode(TagList(tags)), ref)
    {
      RefsPreserved(TagList(tags), ref);
      TagsHaveNoRef(tags, ref);
    }
  }

  lemma TagsHaveNoRef(tags: seq<string>, ref: string)
    ensures !AnyHasRef(TagList(tags), ref)
  {
    forall i | 0 <= i < |tags|
      ensures !AnyHasRef(TagList(tags).items[i], ref)
    {
      NamedHasNoRef(tags[i], ref);
    }
  }

  lemma NamedHasNoRef(tag: string, ref: string)
    ensures !AnyHasRef(Object(map["name" := Text(tag)]), ref)
  {
    assert "name"[0] != "$ref"[0];
    var fields := map["name" := Text(tag)];
    assert forall k | k in fields :: !FieldHasRef(k, fields[k], ref);
  }

  // ---------------------------------------------------------------- component schemas

  ghost function SchemaEntries(schemas: map<string, Schema>): (entries: seq<Entry>)
    ensures |entries| == |SortedKeys(schemas.Keys)|
    ensures forall i :: 0 <= i < |entries| ==> entries[i].key == SortedKeys(schemas.Keys)[i]
  {
    var keys := SortedKeys(schemas.Keys);
    seq(|keys|, i requires 0 <= i < |keys| =>
      Entry(keys[i], if keys[i] in schemas then SchemaToNode(schemas[keys[i]]) else Mapping([])))
  }

  /** `components.schemas`, visiting the map in arbitrary order. */
  method EmitSchemas(schemas: map<string, Schema>) returns (n: Node)
    ensures n == Mapping(SchemaEntries(schemas))
  {
    var keys := KeyList(schemas.Keys);
    SortedKeysMembers(schemas.Keys);
    hide SchemaToNode, SortedKeys, StrictlySorted;
    var entries: seq<Entry> := [];
    for i := 0 to |keys|
      invariant entries == SchemaEntries(schemas)[..i]
    {
      assert keys[i] in keys;
      var node := EmitSchema(schemas[keys[i]]);
      entries := AddMapping(entries, keys[i], node);
    }
    n := Mapping(entries);
  }

  /** Looking a key up in an emitted mapping with the given distinct keys. */
  lemma {:induction false} FindAt(entries: seq<Entry>, i: nat)
    requires i < |entries| && forall j :: 0 <= j < i ==> entries[j].key != entries[i].key
    ensures Find(entries, entries[i].key) == Some(entries[i].value)
  {
    if i > 0 {
      FindAt(entries[1..], i - 1);
    }
  }

  /** Entries of one key that agree are found as one. */
  lemma {:induction false} FindAgreeing(entries: seq<Entry>, i: nat)
    requires i < |entries| && forall j | 0 <= j < |entries|
             && entries[j].key == entries[i].key :: entries[j] == entries[i]
    ensures Find(entries, entries[i].key) == Some(entries[i].value)
  {
    if entries[0].key != entries[i].key {
      FindAgreeing(entries[1..], i - 1);
    }
  }

  /** Every collected schema is emitted under its own name, and nothing else is. */
  lemma SchemaEmitted(schemas: map<string, Schema>, name: string)
    ensures Find(SchemaEntries(schemas), name) == if name in schemas then Some(SchemaToNode(schemas[name])) else None
  {
    SortedKeysMembers(schemas.Keys);
    hide SortedKeys, SchemaToNode, Find, StrictlySorted;
    var keys, entries := SortedKeys(schemas.Keys), SchemaEntries(schemas);
    if name in schemas {
      assert name in keys;
      var i :| 0 <= i < |keys| && keys[i] == name;
      SortedKeysDistinct(keys);
      FindAt(entries, i);
    } else {
      assert forall i | 0 <= i < |entries| :: entries[i].key in keys;
      FindNothing(entries, name);
    }
  }

  lemma SortedKeysDistinct(keys: seq<string>)
    requires StrictlySorted(keys)
    ensures NoDup(keys)
  {
    LexOrder();
  }

  lemma {:induction false} FindNothing(entries: seq<Entry>, key: string)
    requires forall i | 0 <= i < |entries| :: entries[i].key != key
    ensures Find(entries, key) == None
  {
    if entries != [] {
      FindNothing(entries[1..], key);
    }
  }

  /** What the tree of a schema holds under each part it has. */
  lemma SchemaTreeSays(s: Schema)
    ensures var n := SchemaToNode(s);
            && At(n, ["type"]) == (if s.kind == "" then None else Some(Scalar("!!str", s.kind)))
            && At(n, ["format"]) == (if s.format == "" then None else Some(Scalar("!!str", s.format)))
            && At(n, ["description"]) == (if s.description == "" then None else Some(Scalar("!!str", s.description)))
            && At(n, ["items"]) == (match s.items case None => None case Some(items) => Some(SchemaToNode(items)))
            && At(n, ["required"])
               == (if s.required == [] then None
                   else Some(Sequence(seq(|s.required|,
                       i requires 0 <= i < |s.required| => Scalar("!!str", s.required[i])))))
    ensures forall name :: At(SchemaToNode(s), ["properties", name])
                           == if name in s.properties then Some(SchemaToNode(s.properties[name])) else None
  {
    hide At, Find, SchemaToNode;
    KeysOfSchemaDiffer();
    var n := SchemaToNode(s);
    forall key { SchemaPart(s, key); }
    forall name
      ensures At(n, ["properties", name]) == if name in s.properties then Some(SchemaToNode(s.properties[name]))
              else None
    {
      PropertySays(s, name);
    }
    assert StrList(s.required)
           == Sequence(seq(|s.required|, i requires 0 <= i < |s.required| => Scalar("!!str", s.required[i])));
  }

  lemma SchemaPart(s: Schema, key: string)
    ensures At(SchemaToNode(s), [key]) == Find(SchemaToNode(s).entries, key)
    ensures Find(SchemaToNode(s).entries, key) ==
            if key == "type" && s.kind != "" then Some(Str(s.kind))
            else if key == "format" && s.format != "" then Some(Str(s.format))
            else if key == "description" && s.description != "" then Some(Str(s.description))
            else if key == "properties" && s.properties != map[] then Some(PropertiesNode(s))
            else if key == "required" && s.required != [] then Some(StrList(s.required))
            else if key == "items" && s.items.Some? then Some(ItemsNode(s))
            else None
  {
    hide At, Find, SchemaToNode;
    AtLast(SchemaToNode(s), key);
    NodeParts(s, key);
  }

  lemma KeysOfSchemaDiffer()
    ensures "type" != "format" && "type" != "description" && "type" != "properties" && "type" != "required"
    ensures "type" != "items" && "format" != "description" && "format" != "properties" && "format" != "required"
    ensures "format" != "items" && "description" != "properties" && "description" != "required"
    ensures "description" != "items" && "properties" != "required" && "properties" != "items" && "required" != "items"
  {
    assert "type"[0] == 't' && "format"[0] == 'f' && "description"[0] == 'd';
    assert "properties"[0] == 'p' && "required"[0] == 'r' && "items"[0] == 'i';
  }

  lemma PropertySays(s: Schema, name: string)
    ensures At(SchemaToNode(s), ["properties", name])
            == if name in s.properties then Some(SchemaToNode(s.properties[name])) else None
  {
    hide At, Find, SchemaToNode, SortedKeys, StrictlySorted;
    KeysOfSchemaDiffer();
    SchemaPart(s, "properties");
    AtStep(SchemaToNode(s), "properties", [name]);
    assert ["properties", name] == ["properties"] + [name];
    if s.properties != map[] {
      var keys := SortedKeys(s.properties.Keys);
      SortedKeysMembers(s.properties.Keys);
      AtLast(PropertiesNode(s), name);
      var entries := PropertyEntries(s, keys);
      if name in s.properties {
        assert name in keys;
        var i :| 0 <= i < |keys| && keys[i] == name;
        SortedKeysDistinct(keys);
        FindAt(entries, i);
      } else {
        assert forall i | 0 <= i < |entries| :: entries[i].key in keys;
        FindNothing(entries, name);
      }
    }
  }

  lemma SchemasHaveNoRef(schemas: map<string, Schema>, allowed: iset<string>)
    ensures RefsWithin(Mapping(SchemaEntries(schemas)), allowed)
  {
    var entries := SchemaEntries(schemas);
    SortedKeysMembers(schemas.Keys);
    forall i | 0 <= i < |entries|
      ensures RefsWithin(entries[i].value, allowed) && !entries[i].value.Scalar?
    {
      assert SortedKeys(schemas.Keys)[i] in SortedKeys(schemas.Keys);
      forall ref { SchemaHasNoRef(schemas[entries[i].key], ref); }
    }
    MappingWithin(entries, allowed);
  }

  // ---------------------------------------------------------------- following keys through a value

  /** The value reached by following keys down nested objects. */
  function Within(v: Any, keys: seq<string>): Option<Any>
    decreases |keys|
  {
    if keys == [] then Some(v)
    else if v.Object? && keys[0] in v.fields then Within(v.fields[keys[0]], keys[1..])
    else None
  }

  /** Following keys through the emitted tree is following them through the value. */
  lemma {:induction false} AtIsWithin(v: Any, keys: seq<string>)
    ensures At(AnyToNode(v), keys) == match Within(v, keys) case None => None case Some(inner) => Some(AnyToNode(inner))
    decreases |keys|
  {
    if keys != [] {
      if v.Object? {
        FieldFound(v, keys[0]);
        if keys[0] in v.fields {
          AtIsWithin(v.fields[keys[0]], keys[1..]);
        }
      }
    }
  }

  lemma ObjectIsMapping(v: Any)
    requires v.Object?
    ensures AnyToNode(v) == Mapping(FieldEntries(v, SortedKeys(v.fields.Keys)))
  {
  }

  lemma FieldFound(v: Any, key: string)
    requires v.Object?
    ensures AnyToNode(v).Mapping?
    ensures Find(AnyToNode(v).entries, key) == if key in v.fields then Some(AnyToNode(v.fields[key])) else None
  {
    hide AnyToNode, SortedKeys, StrictlySorted, Find;
    var keys := SortedKeys(v.fields.Keys);
    SortedKeysMembers(v.fields.Keys);
    ObjectIsMapping(v);
    var entries := FieldEntries(v, keys);
    if key in v.fields {
      assert key in keys;
      var i :| 0 <= i < |keys| && keys[i] == key;
      SortedKeysDistinct(keys);
      FindAt(entries, i);
    } else {
      assert forall i | 0 <= i < |entries| :: entries[i].key in keys;
      FindNothing(entries, key);
    }
  }

  lemma WithinStep(fields: map<string, Any>, key: string, keys: seq<string>)
    ensures Within(Object(fields), [key] + keys) == if key in fields then Within(fields[key], keys) else None
  {
    assert ([key] + keys)[1..] == keys;
  }

  lemma WithinAll(v: Any)
    ensures Within(v, []) == Some(v)
  {
  }

  lemma {:induction false} AtConcat(n: Node, a: seq<string>, b: seq<string>)
    ensures At(n, a + b) == match At(n, a) case None => None case Some(inner) => At(inner, b)
    decreases |a|
  {
    if a == [] {
      assert a + b == b;
    } else if n.Mapping? {
      assert (a + b)[1..] == a[1..] + b;
      if Find(n.entries, a[0]).Some? {
        AtConcat(Find(n.entries, a[0]).value, a[1..], b);
      }
    }
  }

  /** A text of the tree. */
  predicate Reads(n: Option<Node>, text: string) {
    n == Some(Scalar("!!str", text))
  }
}
