/** Go's 64-bit integers and rounded-up division. */
module Arithmetic {
  const MAX_INT64: int := 0x7fff_ffff_ffff_ffff
  const TWO_TO_64: int := 0x1_0000_0000_0000_0000

  /** The value an int64 holds after an arithmetic operation. */
  function WrapInt64(x: int): (w: int)
    ensures -MAX_INT64 - 1 <= w <= MAX_INT64
    ensures -MAX_INT64 - 1 <= x <= MAX_INT64 ==> w == x
  {
    (x + MAX_INT64 + 1) % TWO_TO_64 - MAX_INT64 - 1
  }

  /** Division rounded up. */
  function CeilDiv(m: nat, n: nat): nat
    requires n > 0
  {
    (m + n - 1) / n
  }

  /** `k` blocks of `n` hold `m` items exactly when there are at least `CeilDiv(m, n)` of them. */
  lemma CeilDivBound(m: nat, n: nat, k: nat)
    requires n > 0
    ensures m <= k * n <==> k >= CeilDiv(m, n)
  {
    var q := CeilDiv(m, n);
    CeilDivFits(m, n);
    hide CeilDiv;
    if k >= q {
      Scaled(q, k, n);
    } else {
      Scaled(k + 1, q, n);
      assert (k + 1) * n == k * n + n;
    }
  }

  lemma CeilDivFits(m: nat, n: nat)
    requires n > 0
    ensures var q := CeilDiv(m, n); q * n - n < m <= q * n
  {
    var sum := m + n - 1;
    assert sum == (sum / n) * n + sum % n;
  }

  lemma Scaled(a: nat, b: nat, n: nat)
    requires a <= b
    ensures a * n <= b * n
  {
  }
}
