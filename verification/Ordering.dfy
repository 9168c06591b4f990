/** Sorting, and why its result does not depend on the algorithm.

    `Sort` stands for the library sorts: it keeps ties in place, as a stable sort must. `SortedIsUnique`
    shows that once distinct elements are ordered, any sorted permutation is the same list. */
module Ordering {
  ghost predicate WeakOrder<T(!new)>(less: (T, T) -> bool) {
    && (forall x :: !less(x, x))
    && (forall x, y, z :: less(x, y) && less(y, z) ==> less(x, z))
    && (forall x, y, z :: less(x, z) ==> less(x, y) || less(y, z))
  }

  ghost predicate SortedBy<T(!new)>(less: (T, T) -> bool, s: seq<T>) {
    forall i, j :: 0 <= i < j < |s| ==> !less(s[j], s[i])
  }

  /** Distinct elements of the list are strictly ordered one way or the other. */
  ghost predicate Separates<T(!new)>(less: (T, T) -> bool, s: seq<T>) {
    forall x, y :: x in s && y in s && x != y ==> less(x, y) || less(y, x)
  }

  ghost predicate NoDup<T>(s: seq<T>) {
    forall i, j :: 0 <= i < j < |s| ==> s[i] != s[j]
  }

  /** Positions below `n`, each once and in order. */
  ghost predicate InOrder(positions: seq<nat>, n: nat) {
    && (forall k :: 0 <= k < |positions| ==> positions[k] < n)
    && (forall k, l :: 0 <= k < l < |positions| ==> positions[k] < positions[l])
  }

  /** One more position at the end. */
  lemma InOrderAppend(positions: seq<nat>, n: nat)
    requires InOrder(positions, n)
    ensures InOrder(positions, n + 1) && InOrder(positions + [n], n + 1)
    ensures n !in positions && forall i: nat :: i in positions + [n] <==> i in positions || i == n
  {
  }

  /** Places `x` before the first element it is less than. */
  function Insert<T>(less: (T, T) -> bool, x: T, s: seq<T>): (r: seq<T>)
    ensures multiset(r) == multiset(s) + multiset{x}
  {
    if s == [] then [x]
    else if less(x, s[0]) then [x] + s
    else
      assert s == [s[0]] + s[1..];
      [s[0]] + Insert(less, x, s[1..])
  }

  function Sort<T>(less: (T, T) -> bool, s: seq<T>): (r: seq<T>)
    ensures multiset(r) == multiset(s)
  {
    if s == [] then []
    else
      assert s == s[..|s| - 1] + [s[|s| - 1]];
      Insert(less, s[|s| - 1], Sort(less, s[..|s| - 1]))
  }

  lemma MembersByMultiset<T>(a: seq<T>, b: seq<T>)
    requires multiset(a) == multiset(b)
    ensures |a| == |b| && forall x :: x in a <==> x in b
  {
    assert |multiset(a)| == |multiset(b)|;
    assert forall x :: x in a <==> x in multiset(a);
    assert forall x :: x in b <==> x in multiset(b);
  }

  lemma {:induction false} InsertSorted<T(!new)>(less: (T, T) -> bool, x: T, s: seq<T>)
    requires WeakOrder(less) && SortedBy(less, s)
    ensures SortedBy(less, Insert(less, x, s))
  {
    if s != [] && !less(x, s[0]) {
      var rest := Insert(less, x, s[1..]);
      InsertSorted(less, x, s[1..]);
      forall y | y in rest
        ensures !less(y, s[0])
      {
        assert y in multiset(rest);
        assert y == x || y in s[1..];
      }
    } else if s != [] {
      forall y | y in s
        ensures !less(y, x)
      {
      }
    }
  }

  lemma {:induction false} SortSorted<T(!new)>(less: (T, T) -> bool, s: seq<T>)
    requires WeakOrder(less)
    ensures SortedBy(less, Sort(less, s))
  {
    if s != [] {
      SortSorted(less, s[..|s| - 1]);
      InsertSorted(less, s[|s| - 1], Sort(less, s[..|s| - 1]));
    }
  }

  lemma HeadIsLeast<T(!new)>(less: (T, T) -> bool, s: seq<T>)
    requires WeakOrder(less) && SortedBy(less, s) && s != []
    ensures SortedBy(less, s[1..]) && forall y :: y in s ==> !less(y, s[0])
  {
  }

  lemma HeadsAgree<T(!new)>(less: (T, T) -> bool, a: seq<T>, b: seq<T>)
    requires WeakOrder(less) && SortedBy(less, a) && SortedBy(less, b) && a != [] && b != []
    requires (forall x :: x in a <==> x in b) && Separates(less, a)
    ensures a[0] == b[0]
    ensures SortedBy(less, a[1..]) && SortedBy(less, b[1..]) && Separates(less, a[1..])
  {
    HeadIsLeast(less, a);
    HeadIsLeast(less, b);
    hide WeakOrder, SortedBy;
    assert a[0] in b && b[0] in a;
  }

  /** Two sorted lists with the same elements are equal when the order tells distinct elements apart. */
  lemma {:induction false} SortedIsUnique<T(!new)>(less: (T, T) -> bool, a: seq<T>, b: seq<T>)
    requires WeakOrder(less) && SortedBy(less, a) && SortedBy(less, b)
    requires multiset(a) == multiset(b) && Separates(less, a)
    ensures a == b
  {
    hide *;
    MembersByMultiset(a, b);
    if a != [] {
      HeadsAgree(less, a, b);
      HeadMultiset(a);
      HeadMultiset(b);
      SameRest(multiset(a[1..]), multiset(b[1..]), a[0]);
      SortedIsUnique(less, a[1..], b[1..]);
      assert a == [a[0]] + a[1..] && b == [b[0]] + b[1..];
    }
  }

  lemma SortIsUnique<T(!new)>(less: (T, T) -> bool, a: seq<T>, b: seq<T>)
    requires WeakOrder(less) && multiset(a) == multiset(b) && Separates(less, a)
    ensures Sort(less, a) == Sort(less, b)
  {
    SortSorted(less, a);
    SortSorted(less, b);
    MembersByMultiset(Sort(less, a), a);
    SortedIsUnique(less, Sort(less, a), Sort(less, b));
  }

  /** The list holds each member of the set once. */
  ghost predicate Lists<T(!new)>(list: seq<T>, members: set<T>) {
    NoDup(list) && forall x :: x in list <==> x in members
  }

  lemma ListsAppend<T(!new)>(list: seq<T>, members: set<T>, x: T)
    requires Lists(list, members)
    ensures x !in members ==> Lists(list + [x], members + {x})
    ensures x in members ==> members + {x} == members
  {
  }

  lemma {:induction false} NoDupMultiset<T>(s: seq<T>)
    requires NoDup(s)
    ensures forall x :: multiset(s)[x] == if x in s then 1 else 0
  {
    if s != [] {
      var rest := s[..|s| - 1];
      NoDupMultiset(rest);
      assert s == rest + [s[|s| - 1]];
    }
  }

  lemma TwiceInMultiset<T>(s: seq<T>, i: nat, j: nat)
    requires i < j < |s|
    ensures s[i] == s[j] ==> multiset(s)[s[i]] >= 2
  {
    assert s == s[..i] + [s[i]] + s[i + 1..j] + [s[j]] + s[j + 1..];
  }

  lemma HeadMultiset<T>(s: seq<T>)
    requires s != []
    ensures multiset(s) == multiset(s[1..]) + multiset{s[0]}
  {
    assert s == [s[0]] + s[1..];
  }

  lemma CutMultiset<T>(s: seq<T>, i: nat)
    requires i < |s|
    ensures multiset(s) == multiset(s[..i] + s[i + 1..]) + multiset{s[i]}
  {
    assert s == s[..i] + [s[i]] + s[i + 1..];
  }

  lemma SwapMultiset<T>(s: seq<T>, i: nat, j: nat)
    requires i < |s| && j < |s|
    ensures multiset(s[i := s[j]][j := s[i]]) == multiset(s)
  {
  }

  lemma NoDupPermuted<T>(a: seq<T>, b: seq<T>)
    requires NoDup(a) && multiset(a) == multiset(b)
    ensures NoDup(b)
  {
    NoDupMultiset(a);
    forall i, j | 0 <= i < j < |b|
      ensures b[i] != b[j]
    {
      TwiceInMultiset(b, i, j);
      assert multiset(a)[b[i]] <= 1;
    }
  }

  /** Duplicate-free lists with the same members hold the same multiset. */
  lemma SameMembersSameMultiset<T>(a: seq<T>, b: seq<T>)
    requires NoDup(a) && NoDup(b) && forall x :: x in a <==> x in b
    ensures multiset(a) == multiset(b)
  {
    NoDupMultiset(a);
    NoDupMultiset(b);
  }

  // ---------------------------------------------------------------- images

  function Images<T, U>(f: T -> U, s: seq<T>): seq<U> {
    seq(|s|, i requires 0 <= i < |s| => f(s[i]))
  }

  lemma TakeOut<T, U>(f: T -> U, s: seq<T>, i: nat)
    requires i < |s|
    ensures multiset(Images(f, s)) == multiset(Images(f, s[..i] + s[i + 1..])) + multiset{f(s[i])}
  {
    var rest := s[..i] + s[i + 1..];
    assert s == s[..i] + [s[i]] + s[i + 1..];
    assert Images(f, s) == Images(f, rest)[..i] + [f(s[i])] + Images(f, rest)[i..];
    assert Images(f, rest) == Images(f, rest)[..i] + Images(f, rest)[i..];
  }

  lemma SameRest<T>(a: multiset<T>, b: multiset<T>, x: T)
    requires a + multiset{x} == b + multiset{x}
    ensures a == b
  {
    assert a == a + multiset{x} - multiset{x} && b == b + multiset{x} - multiset{x};
  }

  /** Permuting a list permutes its image. */
  lemma {:induction false} PermutedImages<T, U>(f: T -> U, a: seq<T>, b: seq<T>)
    requires multiset(a) == multiset(b)
    ensures multiset(Images(f, a)) == multiset(Images(f, b))
  {
    hide Images;
    MembersByMultiset(a, b);
    if a == [] {
      assert a == b;
    } else {
      assert a[0] in b;
      var i :| 0 <= i < |b| && b[i] == a[0];
      CutMultiset(a, 0);
      CutMultiset(b, i);
      TakeOut(f, a, 0);
      TakeOut(f, b, i);
      var ra, rb := a[..0] + a[1..], b[..i] + b[i + 1..];
      SameRest(multiset(ra), multiset(rb), a[0]);
      PermutedImages(f, ra, rb);
    }
  }

  // ---------------------------------------------------------------- strings

  /** Go's string order: lexicographic. */
  predicate LexLess(a: string, b: string) {
    if b == "" then false
    else if a == "" then true
    else if a[0] != b[0] then a[0] < b[0]
    else LexLess(a[1..], b[1..])
  }

  lemma {:induction false} LexIrreflexive(a: string)
    ensures !LexLess(a, a)
  {
    if a != "" {
      LexIrreflexive(a[1..]);
    }
  }

  lemma {:induction false} LexTransitive(a: string, b: string, c: string)
    requires LexLess(a, b) && LexLess(b, c)
    ensures LexLess(a, c)
  {
    if a != "" && a[0] == b[0] == c[0] {
      LexTransitive(a[1..], b[1..], c[1..]);
    }
  }

  lemma LexAsymmetric(a: string, b: string)
    requires LexLess(a, b)
    ensures !LexLess(b, a)
  {
    LexIrreflexive(a);
    if LexLess(b, a) {
      LexTransitive(a, b, a);
    }
  }

  lemma {:induction false} LexTotal(a: string, b: string)
    ensures LexLess(a, b) || a == b || LexLess(b, a)
  {
    if a != "" && b != "" && a[0] == b[0] {
      LexTotal(a[1..], b[1..]);
      assert a == [a[0]] + a[1..] && b == [b[0]] + b[1..];
    }
  }

  /** The strings are the same up to position `k`, where `a` has the smaller character. */
  predicate DiffersAt(a: string, b: string, k: nat) {
    k < |a| && k < |b| && a[..k] == b[..k] && a[k] < b[k]
  }

  /** String order by what the strings hold: a proper prefix comes first, and otherwise the first difference
      decides. */
  ghost predicate ComesBefore(a: string, b: string) {
    (|a| < |b| && a == b[..|a|]) || exists k :: DiffersAt(a, b, k)
  }

  lemma {:induction false} LexLessIff(a: string, b: string)
    ensures LexLess(a, b) <==> ComesBefore(a, b)
  {
    if a != "" && b != "" && a[0] == b[0] {
      LexLessIff(a[1..], b[1..]);
      assert a == [a[0]] + a[1..] && b == [a[0]] + b[1..];
      hide LexLess, ComesBefore;
      LexLessTail(a, b);
      ComesBeforeTail(a[0], a[1..], b[1..]);
    } else {
      FirstCharDecides(a, b);
    }
  }

  lemma LexLessTail(a: string, b: string)
    requires a != "" && b != "" && a[0] == b[0]
    ensures LexLess(a, b) == LexLess(a[1..], b[1..])
  {
  }

  lemma FirstCharDecides(a: string, b: string)
    requires a == "" || b == "" || a[0] != b[0]
    ensures LexLess(a, b) <==> ComesBefore(a, b)
  {
    if a != "" && b != "" {
      assert DiffersAt(a, b, 0) <==> a[0] < b[0];
      assert forall k: nat | 0 < k < |a| && k < |b| :: a[..k][0] == a[0] && b[..k][0] == b[0];
    }
  }

  lemma ComesBeforeTail(c: char, a: string, b: string)
    ensures ComesBefore([c] + a, [c] + b) <==> ComesBefore(a, b)
  {
    hide DiffersAt;
    if k: nat :| DiffersAt([c] + a, [c] + b, k) {
      NoDifferenceAtFirst(c, a, b);
      DiffersTail(c, a, b, k - 1);
    }
    if k: nat :| DiffersAt(a, b, k) {
      DiffersTail(c, a, b, k);
    }
    if |a| < |b| {
      SamePrefix(c, a, b, |a|);
    }
  }

  lemma NoDifferenceAtFirst(c: char, a: string, b: string)
    ensures !DiffersAt([c] + a, [c] + b, 0)
  {
  }

  lemma DiffersTail(c: char, a: string, b: string, k: nat)
    ensures DiffersAt([c] + a, [c] + b, k + 1) <==> DiffersAt(a, b, k)
  {
    if k < |a| && k < |b| {
      SamePrefix(c, a, b, k);
    }
  }

  lemma SamePrefix(c: char, a: string, b: string, k: nat)
    requires k <= |a| && k <= |b|
    ensures ([c] + a)[..k + 1] == ([c] + b)[..k + 1] <==> a[..k] == b[..k]
    ensures ([c] + a)[..|a| + 1] == [c] + a && a[..|a|] == a
  {
    assert ([c] + a)[..k + 1] == [c] + a[..k] && ([c] + b)[..k + 1] == [c] + b[..k];
    assert ([c] + a[..k])[1..] == a[..k] && ([c] + b[..k])[1..] == b[..k];
  }

  lemma LexOrder()
    ensures WeakOrder(LexLess)
    ensures forall a, b :: LexLess(a, b) || a == b || LexLess(b, a)
  {
    forall a { LexIrreflexive(a); }
    forall a, b { LexTotal(a, b); }
    forall a, b, c | LexLess(a, b) && LexLess(b, c)
      ensures LexLess(a, c)
    {
      LexTransitive(a, b, c);
    }
    forall a, b, c | LexLess(a, c)
      ensures LexLess(a, b) || LexLess(b, c)
    {
      if a != b && LexLess(b, a) {
        LexTransitive(b, a, c);
      }
    }
  }

  /** `sort.Strings`. */
  function SortStrings(s: seq<string>): (r: seq<string>)
    ensures multiset(r) == multiset(s)
  {
    Sort(LexLess, s)
  }

  lemma SortStringsSorted(s: seq<string>)
    ensures SortedBy(LexLess, SortStrings(s))
  {
    LexOrder();
    SortSorted(LexLess, s);
  }

  lemma SortStringsUnique(a: seq<string>, b: seq<string>)
    requires multiset(a) == multiset(b)
    ensures SortStrings(a) == SortStrings(b)
  {
    LexOrder();
    SortIsUnique(LexLess, a, b);
  }
}
