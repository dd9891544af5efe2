/** Facts about integer division that batching and rounding rely on. */
module Arith {

  lemma MulAtLeast(a: int, m: int)
    requires a >= 1 && m >= 0
    ensures a * m >= m
  {
    assert a * m == (a - 1) * m + m;
    assert (a - 1) * m >= 0;
  }

  lemma MulMonotone(n: nat, a: nat, b: nat)
    requires a <= b
    ensures n * a <= n * b
  {
    assert n * b == n * a + n * (b - a);
  }

  lemma QuotientBounds(x: nat, n: nat)
    requires n >= 1
    ensures n * (x / n) <= x < n * (x / n + 1)
  {
    assert n * (x / n + 1) == n * (x / n) + n;
  }

  lemma NextMultiple(q: nat, m: nat)
    ensures (q + 1) * m == q * m + m
  {
  }

  lemma RemainderUnique(x: nat, m: nat, q: nat, r: nat)
    requires m >= 1 && r < m && x == q * m + r
    ensures x % m == r && x / m == q
  {
    var q', r' := x / m, x % m;
    assert x == q' * m + r';
    if q > q' {
      MulAtLeast(q - q', m);
    } else if q < q' {
      MulAtLeast(q' - q, m);
    }
  }

  /** `x` is a multiple of `m`. */
  predicate Multiple(x: nat, m: nat)
    requires m >= 1
  {
    x == 0 || (x >= m && Multiple(x - m, m))
  }

  lemma {:induction false} MultipleLeaves(x: nat, m: nat, r: nat) returns (q: nat)
    requires m >= 1 && Multiple(x, m) && r < m
    ensures x == q * m && (x + r) % m == r
  {
    if x == 0 {
      q := 0;
    } else {
      q := MultipleLeaves(x - m, m, r);
      q := q + 1;
    }
    RemainderUnique(x + r, m, q, r);
  }

  /** `x` rounded down to a multiple of `m`. */
  function Truncated(x: nat, m: nat): nat
    requires m >= 1
  {
    x - x % m
  }

  lemma TruncatedIsMultiple(x: nat, m: nat)
    requires m >= 1
    ensures Truncated(x, m) % m == 0
  {
    RemainderUnique(Truncated(x, m), m, x / m, 0);
  }
}
