/** Idempotency keys: the pre-hash encoding of the fields, and the in-memory key store.

    The digest is a parameter: a function from strings to strings, injective where a result needs it. */
module Idempotency {
  import opened Strings

  /** ASCII Unit Separator, written after every field. */
  const SEPARATOR: char := '\U{1f}'

  ghost predicate Injective<A(!new), B>(h: A -> B) {
    forall x, y :: h(x) == h(y) ==> x == y
  }

  /** The byte stream fed to the digest. */
  function Encode(fields: seq<string>): string {
    if fields == [] then "" else fields[0] + [SEPARATOR] + Encode(fields[1..])
  }

  /** Cuts a stream after every separator: the inverse parser. */
  function Decode(s: string): seq<string> {
    if s == "" then []
    else
      var k := FirstIndex(s, SEPARATOR);
      if k == |s| then [s] else [s[..k]] + Decode(s[k + 1..])
  }

  predicate SeparatorFree(fields: seq<string>) {
    forall i :: 0 <= i < |fields| ==> SEPARATOR !in fields[i]
  }

  /** No other list of as many fields hashes the same stream. */
  ghost predicate UniquelyEncoded(fields: seq<string>) {
    forall other: seq<string> :: |other| == |fields| && Encode(other) == Encode(fields) ==> other == fields
  }

  lemma {:induction false} DecodeEncode(fields: seq<string>)
    requires SeparatorFree(fields)
    ensures Decode(Encode(fields)) == fields
  {
    if fields != [] {
      DecodeStep(fields[0], Encode(fields[1..]));
      DecodeEncode(fields[1..]);
    }
  }

  lemma DecodeStep(field: string, rest: string)
    requires SEPARATOR !in field
    ensures Decode(field + [SEPARATOR] + rest) == [field] + Decode(rest)
  {
    hide FirstIndex;
    var s := field + [SEPARATOR] + rest;
    assert s[..|field|] == field && s[|field| + 1..] == rest;
    FirstAt(s, SEPARATOR, |field|);
  }

  function Separators(s: string): nat {
    if s == "" then 0 else (if s[0] == SEPARATOR then 1 else 0) + Separators(s[1..])
  }

  lemma {:induction false} SeparatorsConcat(a: string, b: string)
    ensures Separators(a + b) == Separators(a) + Separators(b)
  {
    if a == "" {
      assert a + b == b;
    } else {
      assert (a + b)[1..] == a[1..] + b;
      SeparatorsConcat(a[1..], b);
    }
  }

  lemma {:induction false} NoSeparators(s: string)
    ensures Separators(s) == 0 <==> SEPARATOR !in s
  {
    if s != "" {
      NoSeparators(s[1..]);
      assert s == [s[0]] + s[1..];
    }
  }

  /** An encoding holds one separator per field, and more exactly when some field holds one. */
  lemma {:induction false} SeparatorsOfEncoding(fields: seq<string>)
    ensures Separators(Encode(fields)) >= |fields|
    ensures Separators(Encode(fields)) == |fields| <==> SeparatorFree(fields)
  {
    if fields != [] {
      var rest := fields[1..];
      SeparatorsOfEncoding(rest);
      SeparatorsConcat(fields[0] + [SEPARATOR], Encode(rest));
      SeparatorsConcat(fields[0], [SEPARATOR]);
      NoSeparators(fields[0]);
      assert Separators([SEPARATOR]) == 1 + Separators([SEPARATOR][1..]);
      assert SeparatorFree(fields) <==> SEPARATOR !in fields[0] && SeparatorFree(rest) by {
        assert forall i :: 0 <= i < |rest| ==> rest[i] == fields[i + 1];
        assert forall i :: 1 <= i < |fields| ==> fields[i] == rest[i - 1];
      }
    }
  }

  lemma {:induction false} EncodeConcat(a: seq<string>, b: seq<string>)
    ensures Encode(a + b) == Encode(a) + Encode(b)
  {
    if a == [] {
      assert a + b == b;
    } else {
      assert (a + b)[1..] == a[1..] + b;
      EncodeConcat(a[1..], b);
    }
  }

  /** The stream is the fields in order, the separator after each. */
  lemma EncodeTriple(x: string, y: string, z: string)
    ensures Encode([x, y, z]) == x + [SEPARATOR] + y + [SEPARATOR] + z + [SEPARATOR]
  {
    assert [x, y, z] == [x, y] + [z];
    EncodePair(x, y);
    EncodeConcat([x, y], [z]);
    assert [z][1..] == [];
    assert Encode([z]) == z + [SEPARATOR];
  }

  lemma EncodePair(x: string, y: string)
    ensures Encode([x, y]) == x + [SEPARATOR] + y + [SEPARATOR]
  {
    assert [x, y][1..] == [y] && [y][1..] == [];
    assert Encode([y]) == y + [SEPARATOR];
  }

  /** A separator inside a field lets the boundary with its neighbour move. */
  lemma BoundaryMoves(before: seq<string>, x: string, y: string, z: string, after: seq<string>)
    ensures Encode(before + [x + [SEPARATOR] + y, z] + after) == Encode(before + [x, y + [SEPARATOR] + z] + after)
  {
    var left, right := [x + [SEPARATOR] + y, z], [x, y + [SEPARATOR] + z];
    EncodePair(x + [SEPARATOR] + y, z);
    EncodePair(x, y + [SEPARATOR] + z);
    assert Encode(left) == Encode(right);
    EncodeConcat(before + left, after);
    EncodeConcat(before, left);
    EncodeConcat(before + right, after);
    EncodeConcat(before, right);
  }

  /** The separator keeps field boundaries apart exactly when no field contains it: the claim that
      it prevents collisions holds for separator-free fields, and for no other list of two or more. */
  lemma EncodingIsUniqueIff(fields: seq<string>)
    requires |fields| >= 2
    ensures UniquelyEncoded(fields) <==> SeparatorFree(fields)
  {
    if SeparatorFree(fields) {
      forall other: seq<string> | |other| == |fields| && Encode(other) == Encode(fields)
        ensures other == fields
      {
        SeparatorsOfEncoding(fields);
        SeparatorsOfEncoding(other);
        DecodeEncode(fields);
        DecodeEncode(other);
      }
    } else {
      var other := Collision(fields);
    }
  }

  /** A second list of the same length with the same encoding. */
  lemma Collision(fields: seq<string>) returns (other: seq<string>)
    requires |fields| >= 2 && !SeparatorFree(fields)
    ensures |other| == |fields| && other != fields && Encode(other) == Encode(fields)
  {
    var i :| 0 <= i < |fields| && SEPARATOR in fields[i];
    var f := fields[i];
    var k :| 0 <= k < |f| && f[k] == SEPARATOR;
    var x, y := f[..k], f[k + 1..];
    assert f == x + [SEPARATOR] + y;
    if i + 1 < |fields| {
      var before, z, after := fields[..i], fields[i + 1], fields[i + 2..];
      other := before + [x, y + [SEPARATOR] + z] + after;
      assert fields == before + [x + [SEPARATOR] + y, z] + after;
      BoundaryMoves(before, x, y, z, after);
      assert other[i] == x;
    } else {
      var before, w, after := fields[..i - 1], fields[i - 1], fields[i + 1..];
      other := before + [w + [SEPARATOR] + x, y] + after;
      assert fields == before + [w, x + [SEPARATOR] + y] + after;
      BoundaryMoves(before, w, x, y, after);
      assert other[i] == y;
    }
  }

  /** The hasher consumes the fields one by one. */
  method NaturalKey(hash: string -> string, fields: seq<string>) returns (key: string)
    ensures key == hash(Encode(fields))
  {
    var written := "";
    for i := 0 to |fields|
      invariant written == Encode(fields[..i])
    {
      assert fields[..i + 1] == fields[..i] + [fields[i]];
      EncodeConcat(fields[..i], [fields[i]]);
      written := written + fields[i] + [SEPARATOR];
    }
    assert fields[..|fields|] == fields;
    key := hash(written);
  }

  function KeyFor(hash: string -> string, explicitKey: string, fields: seq<string>): string {
    if explicitKey != "" then explicitKey else hash(Encode(fields))
  }

  method Resolve(hash: string -> string, explicitKey: string, fields: seq<string>) returns (key: string)
    ensures key == KeyFor(hash, explicitKey, fields)
    ensures explicitKey != "" ==> key == explicitKey
    ensures explicitKey == "" ==> key == hash(Encode(fields))
  {
    if explicitKey != "" {
      return explicitKey;
    }
    key := NaturalKey(hash, fields);
  }

  // ---------------------------------------------------------------- the key store

  class MemoryStore {
    var keys: set<string>

    constructor ()
      ensures keys == {}
    {
      keys := {};
    }

    /** Atomic: the first caller of a key records it and is told so; every later caller finds it. */
    method CheckAndRecord(key: string) returns (alreadyProcessed: bool)
      modifies this
      ensures alreadyProcessed <==> key in old(keys)
      ensures keys == old(keys) + {key}
    {
      if key in keys {
        return true;
      }
      keys := keys + {key};
      return false;
    }
  }
}
