/** String operations of the Go library used by several components. */
module Strings {
  /** The position of the first `c`, or the length. */
  function FirstIndex(s: string, c: char): (k: nat)
    ensures k <= |s| && c !in s[..k] && (k < |s| ==> s[k] == c)
  {
    if s == "" || s[0] == c then 0 else 1 + FirstIndex(s[1..], c)
  }

  /** `strings.Split` with a one-character separator. */
  function SplitOn(s: string, c: char): (parts: seq<string>)
    ensures parts != []
  {
    var k := FirstIndex(s, c);
    if k == |s| then [s] else [s[..k]] + SplitOn(s[k + 1..], c)
  }

  lemma NotBefore(s: string, c: char, n: nat)
    requires n <= |s|
    ensures c !in s[..n] ==> forall i | 0 <= i < n :: s[i] != c
  {
    assert forall i | 0 <= i < n :: s[i] == s[..n][i];
  }

  lemma FirstAt(s: string, c: char, k: nat)
    requires k < |s| && s[k] == c && c !in s[..k]
    ensures FirstIndex(s, c) == k
  {
    hide FirstIndex;
    NotBefore(s, c, k);
    NotBefore(s, c, FirstIndex(s, c));
  }

  lemma SplitAt(s: string, c: char, k: nat)
    requires k < |s| && s[k] == c && c !in s[..k]
    ensures SplitOn(s, c) == [s[..k]] + SplitOn(s[k + 1..], c)
  {
    hide FirstIndex;
    FirstAt(s, c, k);
  }

  lemma SplitNone(s: string, c: char)
    requires c !in s
    ensures SplitOn(s, c) == [s]
  {
    assert s[..|s|] == s;
    NotBefore(s, c, |s|);
  }

  /** A separator and a part without one add just that part. */
  lemma {:induction false} SplitAppend(s: string, c: char, part: string)
    requires c !in part
    ensures SplitOn(part, c) == [part] && SplitOn(s + [c] + part, c) == SplitOn(s, c) + [part]
    decreases |s|
  {
    hide SplitOn, FirstIndex;
    var k, whole := FirstIndex(s, c), s + [c] + part;
    SplitNone(part, c);
    assert whole[..k] == s[..k] && whole[k] == c;
    SplitAt(whole, c, k);
    if k == |s| {
      assert s[..k] == s && whole[k + 1..] == part;
      SplitNone(s, c);
    } else {
      assert whole[k + 1..] == s[k + 1..] + [c] + part;
      SplitAt(s, c, k);
      SplitAppend(s[k + 1..], c, part);
    }
  }

  // ---------------------------------------------------------------- decimal integers

  function Digit(d: nat): char
    requires d < 10
  {
    '0' + d as char
  }

  function Digits(n: nat): (s: string)
    ensures |s| > 0 && forall c | c in s :: '0' <= c <= '9'
  {
    if n < 10 then [Digit(n)] else Digits(n / 10) + [Digit(n % 10)]
  }

  /** `strconv.Itoa`. */
  function Itoa(n: int): string {
    if n < 0 then "-" + Digits(-n) else Digits(n)
  }

  function DigitsValue(s: string): int {
    if s == "" then 0 else DigitsValue(s[..|s| - 1]) * 10 + (s[|s| - 1] as int - '0' as int)
  }

  function Atoi(s: string): int {
    if s != "" && s[0] == '-' then -DigitsValue(s[1..]) else DigitsValue(s)
  }

  /** One character per decimal digit, the most significant first, after a minus for a negative number. */
  lemma ItoaSays(n: int)
    ensures 0 <= n < 10 ==> Itoa(n) == ["0123456789"[n]]
    ensures n >= 10 ==> Itoa(n) == Itoa(n / 10) + Itoa(n % 10)
    ensures n < 0 ==> Itoa(n) == "-" + Itoa(-n)
  {
  }

  lemma {:induction false} DigitsRoundTrip(n: nat)
    ensures DigitsValue(Digits(n)) == n
  {
    if n < 10 {
      assert [Digit(n)][..0] == "";
    } else {
      var s := Digits(n);
      assert s[..|s| - 1] == Digits(n / 10);
      DigitsRoundTrip(n / 10);
    }
  }

  lemma AtoiItoa(n: int)
    ensures Atoi(Itoa(n)) == n && forall c | c in Itoa(n) :: c == '-' || '0' <= c <= '9'
  {
    if n < 0 {
      DigitsRoundTrip(-n);
      assert Itoa(n)[1..] == Digits(-n);
    } else {
      DigitsRoundTrip(n);
      assert Itoa(n)[0] in Digits(n);
    }
  }
}
