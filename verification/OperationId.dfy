/** OpenAPI operation identifiers derived from method and path, and path parameters.

    Case conversion is ASCII, which covers every method and route name in use. */
module OperationId {
  import opened Strings

  // ---------------------------------------------------------------- string primitives

  predicate IsUpper(c: char) { 'A' <= c <= 'Z' }
  predicate IsLower(c: char) { 'a' <= c <= 'z' }

  function ToUpper(c: char): char { if IsLower(c) then c - 32 as char else c }
  function ToLower(c: char): char { if IsUpper(c) then c + 32 as char else c }

  function Lowered(s: string): string { seq(|s|, i requires 0 <= i < |s| => ToLower(s[i])) }
  function Raised(s: string): string { seq(|s|, i requires 0 <= i < |s| => ToUpper(s[i])) }

  predicate NoUpper(s: string) { forall i :: 0 <= i < |s| ==> !IsUpper(s[i]) }
  predicate NoLower(s: string) { forall i :: 0 <= i < |s| ==> !IsLower(s[i]) }

  function TrimPrefix(s: string, c: char): string {
    if s != "" && s[0] == c then s[1..] else s
  }

  function TrimSuffix(s: string, c: char): string {
    if s != "" && s[|s| - 1] == c then s[..|s| - 1] else s
  }

  /** Drops one leading and one trailing brace. */
  function Strip(segment: string): string {
    TrimSuffix(TrimPrefix(segment, '{'), '}')
  }

  function Title(word: string): string {
    if word == "" then "" else [ToUpper(word[0])] + word[1..]
  }

  // ---------------------------------------------------------------- the identifier

  /** The non-empty path segments with their braces stripped. */
  function WordsOf(segments: seq<string>): seq<string> {
    if segments == [] then []
    else
      var n := |segments| - 1;
      WordsOf(segments[..n]) + if Strip(segments[n]) == "" then [] else [Strip(segments[n])]
  }

  function Words(path: string): seq<string> {
    WordsOf(SplitOn(path, '/'))
  }

  function Titles(words: seq<string>): string {
    if words == [] then "" else Title(words[0]) + Titles(words[1..])
  }

  function Identifier(method_: string, words: seq<string>): string {
    Lowered(method_) + Titles(words)
  }

  lemma {:induction false} TitlesAppend(words: seq<string>, w: string)
    ensures Titles(words + [w]) == Titles(words) + Title(w)
  {
    if words == [] {
      assert words + [w] == [w] && [w][1..] == [];
    } else {
      assert (words + [w])[1..] == words[1..] + [w];
      TitlesAppend(words[1..], w);
    }
  }

  lemma WordsExtend(method_: string, segments: seq<string>, i: nat)
    requires i < |segments|
    ensures Identifier(method_, WordsOf(segments[..i + 1]))
            == Identifier(method_, WordsOf(segments[..i])) + Title(Strip(segments[i]))
  {
    assert segments[..i + 1][..i] == segments[..i];
    var words, w := WordsOf(segments[..i]), Strip(segments[i]);
    if w == "" {
      assert words + [] == words;
    } else {
      TitlesAppend(words, w);
    }
  }

  lemma EmptySegment()
    ensures Strip("") == ""
  {
  }

  method LowerCamelCase(method_: string, path: string) returns (id: string)
    ensures id == Identifier(method_, Words(path))
  {
    id := Lowered(method_);
    var segments := SplitOn(path, '/');
    for i := 0 to |segments|
      invariant id == Identifier(method_, WordsOf(segments[..i]))
    {
      WordsExtend(method_, segments, i);
      hide *;
      id := AppendSegment(id, segments[i]);
    }
    assert segments[..|segments|] == segments;
  }

  method AppendSegment(id: string, part: string) returns (r: string)
    ensures r == id + Title(Strip(part))
  {
    r := id;
    var segment := part;
    if segment == "" {
      EmptySegment();
      return;
    }
    segment := TrimPrefix(segment, '{');
    segment := TrimSuffix(segment, '}');
    hide ToUpper, TrimPrefix, TrimSuffix;
    if segment == "" {
      return;
    }
    r := r + [ToUpper(segment[0])];
    if |segment| > 1 {
      r := r + segment[1..];
    }
  }

  // ---------------------------------------------------------------- segment by segment

  /** The identifier of the empty path is the method with its ASCII upper-case letters lowered. */
  lemma MethodAlone(method_: string)
    ensures var id := Identifier(method_, Words(""));
            && |id| == |method_|
            && forall i | 0 <= i < |id| ::
                 id[i] == if 'A' <= method_[i] <= 'Z' then method_[i] + 32 as char else method_[i]
  {
    assert SplitOn("", '/') == [""] && [""][..0] == [];
    assert WordsOf([""]) == WordsOf([]) + [];
    assert Lowered(method_) + "" == Lowered(method_);
  }

  /** One more path segment: a name, in braces or not, is appended with its first letter raised, and an empty
      one changes nothing. */
  lemma SegmentAppended(method_: string, path: string, name: string)
    requires name != "" && '/' !in name && name[0] != '{' && name[|name| - 1] != '}'
    ensures var appended := Identifier(method_, Words(path))
                            + [if 'a' <= name[0] <= 'z' then name[0] - 32 as char else name[0]] + name[1..];
            && Identifier(method_, Words(path + "/" + name)) == appended
            && Identifier(method_, Words(path + "/{" + name + "}")) == appended
    ensures Identifier(method_, Words(path + "/")) == Identifier(method_, Words(path))
  {
    hide Strip, Words, SplitOn, Identifier;
    var braced := "{" + name + "}";
    StripsBraces(name);
    assert path + "/{" + name + "}" == path + "/" + braced;
    OneMoreSegment(method_, path, name);
    OneMoreSegment(method_, path, braced);
    OneMoreSegment(method_, path, "");
    assert path + "/" + "" == path + "/";
  }

  lemma StripsBraces(name: string)
    requires name != "" && name[0] != '{' && name[|name| - 1] != '}'
    ensures Strip(name) == name && Strip("{" + name + "}") == name && Strip("") == ""
  {
    assert TrimPrefix("{" + name + "}", '{') == name + "}" && (name + "}")[..|name|] == name;
  }

  lemma OneMoreSegment(method_: string, path: string, segment: string)
    requires '/' !in segment
    ensures Identifier(method_, Words(path + "/" + segment)) == Identifier(method_, Words(path)) + Title(Strip(segment))
  {
    hide SplitOn, Identifier, Title, Strip, WordsOf;
    var segments := SplitOn(path, '/');
    SplitAppend(path, '/', segment);
    WordsExtend(method_, segments + [segment], |segments|);
    assert (segments + [segment])[..|segments|] == segments;
    assert (segments + [segment])[..|segments| + 1] == segments + [segment];
  }

  /** The two examples the source gives. */
  lemma DocumentedExamples()
    ensures Identifier("POST", Words("/v1/ratings")) == "postV1Ratings"
    ensures Identifier("GET", Words("/v1/things/{id}")) == "getV1ThingsId"
  {
    hide Identifier, Words;
    MethodAlone("POST");
    MethodAlone("GET");
    assert Identifier("POST", Words("")) == "post" && Identifier("GET", Words("")) == "get";
    SegmentAppended("POST", "", "v1");
    SegmentAppended("POST", "/v1", "ratings");
    SegmentAppended("GET", "", "v1");
    SegmentAppended("GET", "/v1", "things");
    SegmentAppended("GET", "/v1/things", "id");
    assert "" + "/" + "v1" == "/v1" && "/v1" + "/" + "ratings" == "/v1/ratings"
           && "/v1" + "/" + "things" == "/v1/things";
    assert "/v1/things" + "/{" + "id" + "}" == "/v1/things/{id}";
  }

  // ---------------------------------------------------------------- decoding

  /** A method without lower-case letters, and words that start with a lower-case letter and hold no upper-case one. */
  predicate CleanWord(w: string) {
    w != "" && IsLower(w[0]) && NoUpper(w)
  }

  predicate Clean(method_: string, words: seq<string>) {
    NoLower(method_) && forall w :: w in words ==> CleanWord(w)
  }

  /** The length of the longest prefix without upper-case letters. */
  function PlainPrefix(s: string): (k: nat)
    ensures k <= |s| && NoUpper(s[..k]) && (k < |s| ==> IsUpper(s[k]))
  {
    if s == "" || IsUpper(s[0]) then 0
    else
      var k := PlainPrefix(s[1..]);
      assert s[..k + 1] == [s[0]] + s[1..][..k];
      1 + k
  }

  /** Cuts before every upper-case letter, and lowers the first letter of each piece. */
  function DecodeWords(s: string): (words: seq<string>)
    decreases |s|
  {
    if s == "" then []
    else
      var k := 1 + PlainPrefix(s[1..]);
      [[ToLower(s[0])] + s[1..k]] + DecodeWords(s[k..])
  }

  lemma {:induction false} DecodedWordsAreClean(s: string)
    requires s != "" ==> IsUpper(s[0])
    ensures forall w :: w in DecodeWords(s) ==> CleanWord(w)
    decreases |s|
  {
    if s != "" {
      var k := 1 + PlainPrefix(s[1..]);
      DecodedWordsAreClean(s[k..]);
      assert s[1..k] == s[1..][..k - 1];
    }
  }

  function DecodeMethod(id: string): string {
    Raised(id[..PlainPrefix(id)])
  }

  lemma TitlesStep(head: string, rest: seq<string>)
    ensures Titles([head] + rest) == Title(head) + Titles(rest)
  {
    assert ([head] + rest)[1..] == rest;
  }

  lemma TitleOfLowered(c: char, rest: string)
    requires !IsLower(c)
    ensures Title([ToLower(c)] + rest) == [c] + rest
  {
  }

  lemma DecodeUnfold(s: string) returns (k: nat)
    requires s != ""
    ensures k == 1 + PlainPrefix(s[1..]) && k <= |s| && (s[k..] != "" ==> IsUpper(s[k..][0]))
    ensures DecodeWords(s) == [[ToLower(s[0])] + s[1..k]] + DecodeWords(s[k..])
  {
    k := 1 + PlainPrefix(s[1..]);
  }

  lemma NoWords()
    ensures Titles([]) == "" && DecodeWords("") == []
  {
  }

  lemma {:induction false} TitlesDecode(s: string)
    requires s != "" ==> !IsLower(s[0])
    ensures Titles(DecodeWords(s)) == s
    decreases |s|
  {
    hide Titles, DecodeWords, Title, ToUpper, ToLower, PlainPrefix;
    if s == "" {
      NoWords();
    } else {
      var k := DecodeUnfold(s);
      TitlesDecode(s[k..]);
      TitlesStep([ToLower(s[0])] + s[1..k], DecodeWords(s[k..]));
      TitleOfLowered(s[0], s[1..k]);
      assert s == [s[0]] + s[1..k] + s[k..];
    }
  }

  lemma {:induction false} DecodeTitles(words: seq<string>)
    requires forall w :: w in words ==> CleanWord(w)
    ensures Titles(words) != "" ==> IsUpper(Titles(words)[0])
    ensures DecodeWords(Titles(words)) == words
  {
    hide Titles, DecodeWords, Title, ToUpper, ToLower, PlainPrefix;
    if words == [] {
      NoWords();
    } else {
      var w, rest := words[0], Titles(words[1..]);
      DecodeTitles(words[1..]);
      assert CleanWord(w);
      PrefixStops(w[1..], rest);
      DecodeStep(w, rest);
      TitlesStep(w, words[1..]);
      assert words == [w] + words[1..];
    }
  }

  /** The decoder reads one word off the front. */
  lemma DecodeStep(w: string, rest: string)
    requires CleanWord(w) && (rest != "" ==> IsUpper(rest[0])) && PlainPrefix(w[1..] + rest) == |w| - 1
    ensures IsUpper((Title(w) + rest)[0]) && DecodeWords(Title(w) + rest) == [w] + DecodeWords(rest)
  {
    hide *;
    TitledWord(w, rest);
    var k := DecodeUnfold(Title(w) + rest);
  }

  lemma TitledWord(w: string, rest: string)
    requires CleanWord(w)
    ensures var s := Title(w) + rest;
            && |s| == |w| + |rest| && |w| > 0 && IsUpper(s[0]) && s[1..] == w[1..] + rest
            && [ToLower(s[0])] + s[1..|w|] == w && s[|w|..] == rest
  {
    var s := Title(w) + rest;
    assert s[1..|w|] == w[1..];
  }

  lemma {:induction false} PrefixStops(a: string, b: string)
    requires NoUpper(a) && (b != "" ==> IsUpper(b[0]))
    ensures PlainPrefix(a + b) == |a|
  {
    if a == "" {
      assert a + b == b;
    } else {
      assert (a + b)[1..] == a[1..] + b;
      PrefixStops(a[1..], b);
    }
  }

  /** The decoder undoes the encoder on clean routes. */
  lemma DecodeIdentifier(method_: string, words: seq<string>)
    requires Clean(method_, words)
    ensures var id := Identifier(method_, words);
            PlainPrefix(id) == |method_| && DecodeMethod(id) == method_ && DecodeWords(id[|method_|..]) == words
  {
    DecodeTitles(words);
    PrefixStops(Lowered(method_), Titles(words));
    var id := Identifier(method_, words);
    assert id[..|method_|] == Lowered(method_) && id[|method_|..] == Titles(words);
    assert Raised(Lowered(method_)) == method_;
  }

  /** Every string is the identifier of some clean route. */
  lemma IdentifierDecode(id: string) returns (method_: string, words: seq<string>)
    ensures Clean(method_, words) && Identifier(method_, words) == id
  {
    hide DecodeWords, PlainPrefix, Titles, Lowered, Raised, CleanWord, NoLower, NoUpper, IsUpper;
    var k := PlainPrefix(id);
    StartsUpper(id);
    DecodedWordsAreClean(id[k..]);
    TitlesDecode(id[k..]);
    RaisedRestored(id[..k]);
    method_, words := DecodeMethod(id), DecodeWords(id[k..]);
    assert id == id[..k] + id[k..];
  }

  lemma StartsUpper(id: string)
    ensures var tail := id[PlainPrefix(id)..]; tail != "" ==> IsUpper(tail[0]) && !IsLower(tail[0])
  {
  }

  lemma RaisedRestored(s: string)
    requires NoUpper(s)
    ensures NoLower(Raised(s)) && Lowered(Raised(s)) == s
  {
  }

  /** Clean routes with one identifier have the same method, and paths that differ at most in braces
      and empty segments: what section 4.8.10 of the OpenAPI Specification 3.1.0 asks of operationId. */
  lemma OperationIdsUnique(m: string, p: string, m': string, p': string)
    requires Clean(m, Words(p)) && Clean(m', Words(p'))
    requires Identifier(m, Words(p)) == Identifier(m', Words(p'))
    ensures m == m' && Words(p) == Words(p')
  {
    DecodeIdentifier(m, Words(p));
    DecodeIdentifier(m', Words(p'));
  }

  // ---------------------------------------------------------------- when two routes share an identifier

  predicate IsLetter(c: char) {
    IsUpper(c) || IsLower(c)
  }

  predicate LettersOnly(method_: string) {
    forall c | c in method_ :: IsLetter(c)
  }

  predicate UpperOnly(method_: string) {
    forall c | c in method_ :: IsUpper(c)
  }

  predicate NoEmptyWord(words: seq<string>) {
    forall w | w in words :: w != ""
  }

  /** Pieces that do not start with a letter leave no boundary: the first joins what stands before it. */
  function Glue(before: seq<string>, pieces: seq<string>): seq<string> {
    if before == [] || pieces == [] || (pieces[0] != "" && IsLower(pieces[0][0])) then before + pieces
    else before[..|before| - 1] + [before[|before| - 1] + pieces[0]] + pieces[1..]
  }

  /** The words as far as the identifier tells them apart: each is cut before its upper-case letters and
      lowered, and one that starts with no letter is glued to the word before it. */
  function Canon(words: seq<string>): seq<string> {
    if words == [] then []
    else Glue(Canon(words[..|words| - 1]), DecodeWords(words[|words| - 1]))
  }

  lemma {:induction false} PrefixOfConcat(a: string, b: string)
    ensures PlainPrefix(a + b) == if PlainPrefix(a) < |a| then PlainPrefix(a) else |a| + PlainPrefix(b)
  {
    if a == "" {
      assert a + b == b;
    } else {
      assert (a + b)[1..] == a[1..] + b;
      PrefixOfConcat(a[1..], b);
    }
  }

  /** Decoding a concatenation glues the two decodings, unless the second part starts a word. */
  lemma {:induction false} DecodeConcat(s: string, t: string)
    requires t != "" && !IsLower(t[0])
    ensures DecodeWords(s + t) == Glue(DecodeWords(s), DecodeWords(t))
    decreases |s|
  {
    hide DecodeWords, PlainPrefix;
    if s == "" {
      NoWords();
      assert s + t == t;
      FirstPiece(t);
    } else {
      var k := DecodeUnfold(s);
      PrefixOfConcat(s[1..], t);
      assert (s + t)[1..] == s[1..] + t;
      if k < |s| {
        DecodeConcat(s[k..], t);
        ConcatInside(s, t, k);
        GlueBehind([ToLower(s[0])] + s[1..k], DecodeWords(s[k..]), DecodeWords(t));
      } else {
        ConcatAtEnd(s, t);
      }
    }
  }

  lemma FirstPiece(t: string)
    requires t != "" && !IsLower(t[0])
    ensures DecodeWords(t) != [] && DecodeWords(t)[0] != "" && (IsLower(DecodeWords(t)[0][0]) <==> IsUpper(t[0]))
  {
  }

  lemma ConcatInside(s: string, t: string, k: nat)
    requires s != "" && k == 1 + PlainPrefix(s[1..]) < |s| && PlainPrefix((s + t)[1..]) == k - 1
    ensures DecodeWords(s + t) == [[ToLower(s[0])] + s[1..k]] + DecodeWords(s[k..] + t)
    ensures DecodeWords(s[k..]) != []
  {
    assert (s + t)[1..k] == s[1..k] && (s + t)[k..] == s[k..] + t;
  }

  lemma GlueBehind(first: string, rest: seq<string>, pieces: seq<string>)
    requires rest != []
    ensures [first] + Glue(rest, pieces) == Glue([first] + rest, pieces)
  {
    var all := [first] + rest;
    hide IsLower;
    assert all[|all| - 1] == rest[|rest| - 1] && all[..|all| - 1] == [first] + rest[..|rest| - 1];
    if pieces == [] || (pieces[0] != "" && IsLower(pieces[0][0])) {
      assert [first] + (rest + pieces) == all + pieces;
    } else {
      var glued := [rest[|rest| - 1] + pieces[0]];
      assert [first] + (rest[..|rest| - 1] + glued + pieces[1..]) == [first] + rest[..|rest| - 1] + glued + pieces[1..];
    }
  }

  lemma ConcatAtEnd(s: string, t: string)
    requires s != "" && t != "" && !IsLower(t[0]) && PlainPrefix(s[1..]) == |s| - 1
    requires PlainPrefix((s + t)[1..]) == |s| - 1 + PlainPrefix(t)
    ensures DecodeWords(s + t) == Glue(DecodeWords(s), DecodeWords(t))
  {
    var head := [ToLower(s[0])] + s[1..];
    FirstPiece(t);
    WholeWord(s);
    hide Glue;
    if IsUpper(t[0]) {
      NewWord(s, t);
      GlueApart(head, DecodeWords(t));
    } else {
      OldWord(s, t);
      GlueOnto(head, DecodeWords(t));
    }
  }

  lemma WholeWord(s: string)
    requires s != "" && PlainPrefix(s[1..]) == |s| - 1
    ensures DecodeWords(s) == [[ToLower(s[0])] + s[1..]]
  {
    assert s[1..|s|] == s[1..] && s[|s|..] == "";
  }

  lemma NewWord(s: string, t: string)
    requires s != "" && t != "" && IsUpper(t[0]) && PlainPrefix((s + t)[1..]) == |s| - 1 + PlainPrefix(t)
    ensures DecodeWords(s + t) == [[ToLower(s[0])] + s[1..]] + DecodeWords(t)
  {
    assert (s + t)[1..|s|] == s[1..] && (s + t)[|s|..] == t;
  }

  lemma OldWord(s: string, t: string)
    requires s != "" && t != "" && !IsUpper(t[0]) && PlainPrefix((s + t)[1..]) == |s| - 1 + PlainPrefix(t)
    ensures DecodeWords(t) != []
    ensures DecodeWords(s + t) == [[ToLower(s[0])] + s[1..] + DecodeWords(t)[0]] + DecodeWords(t)[1..]
  {
    hide DecodeWords, PlainPrefix;
    var n := DecodeUnfold(t);
    var k := DecodeUnfold(s + t);
    NotUpperFirst(t);
    OldWordParts(s, t, n);
  }

  lemma NotUpperFirst(t: string)
    requires t != "" && !IsUpper(t[0])
    ensures PlainPrefix(t) == 1 + PlainPrefix(t[1..]) && ToLower(t[0]) == t[0]
  {
  }

  lemma OldWordParts(s: string, t: string, n: nat)
    requires s != "" && t != "" && 1 <= n <= |t|
    ensures [ToLower((s + t)[0])] + (s + t)[1..|s| + n] == [ToLower(s[0])] + s[1..] + ([t[0]] + t[1..n])
    ensures (s + t)[|s| + n..] == t[n..]
  {
  }

  lemma GlueApart(head: string, pieces: seq<string>)
    requires pieces != [] && pieces[0] != "" && IsLower(pieces[0][0])
    ensures Glue([head], pieces) == [head] + pieces
  {
  }

  lemma GlueOnto(head: string, pieces: seq<string>)
    requires pieces != [] && pieces[0] != "" && !IsLower(pieces[0][0])
    ensures Glue([head], pieces) == [head + pieces[0]] + pieces[1..]
  {
  }

  /** Decoding lowers the first letter, so its case does not matter. */
  lemma DecodeIgnoresFirstCase(s: string, t: string)
    requires s != "" && t != "" && s[1..] == t[1..] && ToLower(s[0]) == ToLower(t[0])
    ensures DecodeWords(s) == DecodeWords(t)
  {
    hide *;
    var k := DecodeUnfold(s);
    var n := DecodeUnfold(t);
    assert s[1..k] == s[1..][..k - 1] && t[1..k] == t[1..][..k - 1];
    assert s[k..] == s[1..][k - 1..] && t[k..] == t[1..][k - 1..];
  }

  lemma TitleOf(w: string)
    requires w != ""
    ensures Title(w) != "" && Title(w)[1..] == w[1..] && ToLower(Title(w)[0]) == ToLower(w[0]) && !IsLower(Title(w)[0])
  {
  }

  lemma DecodeTitle(w: string)
    requires w != ""
    ensures DecodeWords(Title(w)) == DecodeWords(w)
    ensures Title(w) != "" && !IsLower(Title(w)[0])
  {
    hide *;
    TitleOf(w);
    DecodeIgnoresFirstCase(Title(w), w);
  }

  /** The canonical words are what the identifier's tail decodes to, and determine it. */
  lemma {:induction false} CanonDecodes(words: seq<string>)
    requires NoEmptyWord(words)
    ensures Canon(words) == DecodeWords(Titles(words))
    ensures Titles(words) != "" ==> !IsLower(Titles(words)[0])
  {
    hide Titles, DecodeWords, Title, Glue;
    if words == [] {
      NoWords();
    } else {
      var n := |words| - 1;
      var w := words[n];
      assert w in words;
      assert NoEmptyWord(words[..n]) by {
        assert forall v | v in words[..n] :: v in words;
      }
      CanonDecodes(words[..n]);
      TitlesAppend(words[..n], w);
      assert words == words[..n] + [w];
      DecodeTitle(w);
      DecodeConcat(Titles(words[..n]), Title(w));
    }
  }

  lemma TitlesAgreeIff(words: seq<string>, words': seq<string>)
    requires NoEmptyWord(words) && NoEmptyWord(words')
    ensures Titles(words) == Titles(words') <==> Canon(words) == Canon(words')
  {
    CanonDecodes(words);
    CanonDecodes(words');
    TitlesDecode(Titles(words));
    TitlesDecode(Titles(words'));
  }

  lemma LetterRunEnds(x: string, u: string, y: string, v: string)
    requires x + u == y + v && (forall c | c in x :: IsLower(c)) && forall c | c in y :: IsLower(c)
    requires (u != "" ==> !IsLower(u[0])) && (v != "" ==> !IsLower(v[0]))
    ensures x == y && u == v
  {
    var w := x + u;
    assert |x| < |w| ==> !IsLower(w[|x|]);
    assert |y| < |w| ==> !IsLower(w[|y|]);
    assert forall i | 0 <= i < |x| :: w[i] == x[i] && x[i] in x;
    assert forall i | 0 <= i < |y| :: w[i] == y[i] && y[i] in y;
    assert |x| == |y|;
    assert x == w[..|x|] && y == w[..|y|] && u == w[|x|..] && v == w[|y|..];
  }

  /** Two routes share an identifier exactly when their methods agree up to case and their words agree
      up to case and boundaries the identifier does not show. */
  lemma IdentifiersAgreeIff(m: string, words: seq<string>, m': string, words': seq<string>)
    requires LettersOnly(m) && LettersOnly(m') && NoEmptyWord(words) && NoEmptyWord(words')
    ensures Identifier(m, words) == Identifier(m', words') <==>
            Lowered(m) == Lowered(m')
            && Canon(words) == Canon(words')
  {
    TitlesAgreeIff(words, words');
    CanonDecodes(words);
    CanonDecodes(words');
    LoweredLetters(m);
    LoweredLetters(m');
    hide Lowered, Titles, Canon;
    if Identifier(m, words) == Identifier(m', words') {
      LetterRunEnds(Lowered(m), Titles(words), Lowered(m'), Titles(words'));
    }
  }

  lemma LoweredLetters(m: string)
    requires LettersOnly(m)
    ensures forall c | c in Lowered(m) :: IsLower(c)
  {
    forall c | c in Lowered(m)
      ensures IsLower(c)
    {
      var i :| 0 <= i < |m| && Lowered(m)[i] == c;
      assert m[i] in m;
    }
  }

  lemma {:induction false} NoEmptyWordsOf(segments: seq<string>)
    ensures NoEmptyWord(WordsOf(segments))
  {
    if segments != [] {
      NoEmptyWordsOf(segments[..|segments| - 1]);
    }
  }

  /** For HTTP methods, written in upper-case letters: the exact condition under which two routes share
      an identifier. The comment claims that different paths never do. */
  lemma RoutesShareIdentifierIff(m: string, p: string, m': string, p': string)
    requires UpperOnly(m) && UpperOnly(m')
    ensures Identifier(m, Words(p)) == Identifier(m', Words(p')) <==> m == m' && Canon(Words(p)) == Canon(Words(p'))
  {
    NoEmptyWordsOf(SplitOn(p, '/'));
    NoEmptyWordsOf(SplitOn(p', '/'));
    IdentifiersAgreeIff(m, Words(p), m', Words(p'));
    UpperRestored(m);
    UpperRestored(m');
  }

  lemma UpperRestored(m: string)
    requires UpperOnly(m)
    ensures Raised(Lowered(m)) == m
  {
    forall i | 0 <= i < |m|
      ensures Raised(Lowered(m))[i] == m[i]
    {
      assert m[i] in m;
    }
  }

  /** Clean words are their own canonical form. */
  lemma CanonOfClean(words: seq<string>)
    requires forall w | w in words :: CleanWord(w)
    ensures Canon(words) == words
  {
    DecodeTitles(words);
    CanonDecodes(words);
  }

  // ---------------------------------------------------------------- paths for words

  predicate Plain(w: string) {
    w != "" && '/' !in w && '{' !in w && '}' !in w
  }

  /** `strings.Join(segments, "/")`. */
  function Join(segments: seq<string>): string {
    if segments == [] then ""
    else if |segments| == 1 then segments[0]
    else segments[0] + "/" + Join(segments[1..])
  }

  function PathFor(segments: seq<string>): string {
    Join([""] + segments)
  }

  lemma {:induction false} SplitJoin(segments: seq<string>)
    requires segments != [] && forall s :: s in segments ==> '/' !in s
    ensures SplitOn(Join(segments), '/') == segments
  {
    var s := segments[0];
    assert s in segments;
    if |segments| == 1 {
      FirstAfter(s, "");
      assert s + "" == s;
    } else {
      var rest := Join(segments[1..]);
      SplitJoin(segments[1..]);
      FirstAfter(s, "/" + rest);
      assert s + "/" + rest == s + ("/" + rest);
      assert (s + "/" + rest)[..|s|] == s && (s + "/" + rest)[|s| + 1..] == rest;
    }
  }

  lemma {:induction false} FirstAfter(w: string, tail: string)
    requires '/' !in w && (tail == "" || tail[0] == '/')
    ensures FirstIndex(w + tail, '/') == |w|
  {
    if w == "" {
      assert w + tail == tail;
    } else {
      assert w[0] in w && (w + tail)[1..] == w[1..] + tail;
      FirstAfter(w[1..], tail);
    }
  }

  /** The words of a path written with one slash before each segment. */
  lemma WordsOfPath(segments: seq<string>)
    requires forall s :: s in segments ==> '/' !in s && Strip(s) != ""
    ensures Words(PathFor(segments)) == seq(|segments|, i requires 0 <= i < |segments| => Strip(segments[i]))
  {
    hide Strip, SplitOn, Join, WordsOf;
    var all := [""] + segments;
    SplitJoin(all);
    StrippedWords(all, |all|);
    assert all[..|all|] == all;
  }

  lemma {:induction false} StrippedWords(segments: seq<string>, n: nat)
    requires 1 <= n <= |segments| && segments[0] == "" && forall i :: 1 <= i < |segments| ==> Strip(segments[i]) != ""
    ensures WordsOf(segments[..n]) == seq(n - 1, i requires 0 <= i < n - 1 => Strip(segments[i + 1]))
  {
    EmptySegment();
    hide Strip;
    assert segments[..n][..n - 1] == segments[..n - 1];
    if n == 1 {
      assert WordsOf([]) == [];
    } else {
      StrippedWords(segments, n - 1);
    }
  }

  /** Every list of plain words is the word list of some path, so collisions of words are collisions of paths. */
  lemma PlainWordsHaveAPath(words: seq<string>)
    requires forall w :: w in words ==> Plain(w)
    ensures Words(PathFor(words)) == words
  {
    forall w | w in words
      ensures Strip(w) == w
    {
      assert Plain(w) && w[0] in w && w[|w| - 1] in w;
    }
    WordsOfPath(words);
  }

  /** A parameter and a literal of the same name share an identifier. */
  lemma ParameterCollidesWithLiteral(method_: string, before: seq<string>, name: string)
    requires (forall w :: w in before ==> Plain(w)) && Plain(name)
    ensures PathFor(before + ["{" + name + "}"]) != PathFor(before + [name])
    ensures Identifier(method_, Words(PathFor(before + ["{" + name + "}"])))
            == Identifier(method_, Words(PathFor(before + [name])))
  {
    var p, q := before + ["{" + name + "}"], before + [name];
    assert name[0] in name && name[|name| - 1] in name;
    assert Strip("{" + name + "}") == name == Strip(name);
    forall w | w in before
      ensures Strip(w) == w && '/' !in w && w != ""
    {
      assert Plain(w) && w[0] in w && w[|w| - 1] in w;
    }
    WordsOfPath(p);
    WordsOfPath(q);
    assert Words(PathFor(p)) == Words(PathFor(q));
    SplitJoin([""] + p);
    SplitJoin([""] + q);
    assert ([""] + p)[|p|] != ([""] + q)[|q|];
  }

  /** A camel-case segment shares its identifier with two segments: `/fooBar` with `/foo/bar`. */
  lemma CamelCaseCollidesWithTwoSegments(method_: string, a: string, b: string)
    requires Plain(a) && Plain(b)
    ensures Words(PathFor([a + Title(b)])) != Words(PathFor([a, b]))
    ensures Identifier(method_, Words(PathFor([a + Title(b)]))) == Identifier(method_, Words(PathFor([a, b])))
  {
    TitleIsPlain(b);
    PlainWordsHaveAPath([a + Title(b)]);
    PlainWordsHaveAPath([a, b]);
    hide Words, PathFor;
    TitlesOfTwo(a, b);
  }

  lemma TitlesOfTwo(a: string, b: string)
    requires a != ""
    ensures Titles([a + Title(b)]) == Titles([a, b])
  {
    hide *;
    NoWords();
    TitlesStep(a + Title(b), []);
    TitlesStep(a, [b]);
    TitlesStep(b, []);
    TitleConcat(a, Title(b));
    assert [a + Title(b)] + [] == [a + Title(b)] && [b] + [] == [b] && [a] + [b] == [a, b];
    assert Title(a) + Title(b) + "" == Title(a) + (Title(b) + "");
  }

  lemma TitleConcat(a: string, b: string)
    requires a != ""
    ensures Title(a + b) == Title(a) + b
  {
    assert (a + b)[1..] == a[1..] + b;
  }

  lemma TitleIsPlain(w: string)
    requires Plain(w)
    ensures Plain(Title(w))
  {
    assert forall c :: c in Title(w) ==> c == ToUpper(w[0]) || c in w[1..];
    assert w[0] in w && forall c :: c in w[1..] ==> c in w;
  }

  // ---------------------------------------------------------------- path parameters

  predicate IsParam(segment: string) {
    |segment| >= 3 && segment[0] == '{' && segment[|segment| - 1] == '}'
  }

  function ParamsOf(segments: seq<string>): seq<string> {
    if segments == [] then []
    else
      var n := |segments| - 1;
      var before := ParamsOf(segments[..n]);
      if IsParam(segments[n]) && segments[n][1..|segments[n]| - 1] !in before
      then before + [segments[n][1..|segments[n]| - 1]] else before
  }

  method ExtractPathParams(path: string) returns (params: seq<string>)
    ensures params == ParamsOf(SplitOn(path, '/'))
  {
    params := [];
    var seen: set<string> := {};
    var segments := SplitOn(path, '/');
    for i := 0 to |segments|
      invariant params == ParamsOf(segments[..i]) && seen == set p | p in params
    {
      assert segments[..i + 1][..i] == segments[..i];
      var segment := segments[i];
      if |segment| >= 3 && segment[0] == '{' && segment[|segment| - 1] == '}' {
        var name := segment[1..|segment| - 1];
        if name !in seen {
          params := params + [name];
          seen := seen + {name};
        }
      }
    }
    assert segments[..|segments|] == segments;
  }

  /** Each parameter of the path is listed once, and nothing else is. */
  lemma {:induction false} ParamsListedOnce(segments: seq<string>)
    ensures forall i, j :: 0 <= i < j < |ParamsOf(segments)| ==> ParamsOf(segments)[i] != ParamsOf(segments)[j]
    ensures forall name :: name in ParamsOf(segments) <==> name != "" && "{" + name + "}" in segments
  {
    if segments != [] {
      var n := |segments| - 1;
      ParamsListedOnce(segments[..n]);
      assert segments == segments[..n] + [segments[n]];
      forall name
        ensures name in ParamsOf(segments) <==> name != "" && "{" + name + "}" in segments
      {
        assert IsParam(segments[n]) ==> segments[n] == "{" + segments[n][1..|segments[n]| - 1] + "}";
        assert ("{" + name + "}")[1..|name| + 1] == name;
      }
    }
  }
}
