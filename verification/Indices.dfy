/** Positions in flat arrays: a + n b with 0 <= a < n determines a and b. */
module Indices {

  lemma ProductAtLeast(n: nat, k: int)
    requires k >= 1
    ensures n * k >= n
  {}

  lemma ProductStep(n: nat, b: int, m: int)
    requires b < m
    ensures n * b + n <= n * m
  {
    ProductAtLeast(n, m - b);
    assert n * m == n * b + n * (m - b);
  }

  lemma DigitInRange(n: nat, a: nat, b: nat, m: nat)
    requires a < n && b < m
    ensures 0 <= n * b <= a + n * b < n * m
  {
    ProductStep(n, b, m);
    ProductAtLeast(n, b + 1);
    assert n * (b + 1) == n * b + n;
  }

  lemma DigitsUnique(n: nat, a: nat, b: int, c: nat, d: int)
    requires a < n && c < n && a + n * b == c + n * d
    ensures a == c && b == d
  {
    if b < d {
      ProductStep(n, b, d);
      assert false;
    } else if d < b {
      ProductStep(n, d, b);
      assert false;
    }
  }

  /** The position of (a, b) in a flat array whose first index runs fastest. */
  function Flat(n: nat, a: nat, b: nat): nat {
    a + n * b
  }

  lemma FlatIs(n: nat, a: nat, b: nat)
    ensures Flat(n, a, b) == a + n * b
  {}

  lemma FlatDistinct(n: nat, m: nat)
    ensures forall i: nat, j: nat {:trigger Flat(n, i, j)} :: i < n && j < m ==> Flat(n, i, j) < n * m
    ensures forall i: nat, j: nat, k: nat, l: nat {:trigger Flat(n, i, j), Flat(n, k, l)} ::
      i < n && k < n && Flat(n, i, j) == Flat(n, k, l) ==> i == k && j == l
  {
    forall i: nat, j: nat | i < n && j < m
      ensures Flat(n, i, j) < n * m
    {
      DigitInRange(n, i, j, m);
    }
    forall i: nat, j: nat, k: nat, l: nat | i < n && k < n && Flat(n, i, j) == Flat(n, k, l)
      ensures i == k && j == l
    {
      DigitsUnique(n, i, j, k, l);
    }
  }

  /** Every position below n m is that of exactly one pair: its remainder and its quotient. */
  lemma FlatOnto(n: nat, m: nat, p: nat)
    requires p < n * m
    ensures n > 0 && p % n < n && p / n < m && Flat(n, p % n, p / n) == p
  {
    assert p == p % n + n * (p / n);
    if p / n >= m {
      ProductMonotone(n, m, p / n);
      assert false;
    }
  }

  lemma ProductMonotone(n: nat, m: int, q: int)
    requires m <= q
    ensures n * m <= n * q
  {
    assert n * q == n * m + n * (q - m);
  }

  lemma FlatInverse(n: nat, a: nat, b: nat)
    requires a < n
    ensures Flat(n, a, b) % n == a && Flat(n, a, b) / n == b
  {
    var p := Flat(n, a, b);
    assert p == p % n + n * (p / n);
    DigitsUnique(n, a, b, p % n, p / n);
  }

  // The two digits of a position.

  function Low(n: nat, p: nat): nat {
    if n == 0 then 0 else p % n
  }

  function High(n: nat, p: nat): nat {
    if n == 0 then 0 else p / n
  }

  function Volume(a: nat, b: nat, c: nat): nat {
    a * (b * c)
  }

  /** Three digits (i, j, k), the first running fastest. */
  function Flat3(a: nat, b: nat, i: nat, j: nat, k: nat): nat {
    Flat(a, i, Flat(b, j, k))
  }

  lemma Flat3Inverse(a: nat, b: nat, c: nat, i: nat, j: nat, k: nat)
    requires i < a && j < b && k < c
    ensures var n := Flat3(a, b, i, j, k);
      n < Volume(a, b, c) && Low(a, n) == i && Low(b, High(a, n)) == j && High(b, High(a, n)) == k
  {
    hide Flat;
    FlatIs(b, j, k);
    DigitInRange(b, j, k, c);
    FlatIs(a, i, Flat(b, j, k));
    DigitInRange(a, i, Flat(b, j, k), b * c);
    FlatInverse(a, i, Flat(b, j, k));
    FlatInverse(b, j, k);
  }

  lemma Flat3Onto(a: nat, b: nat, c: nat, n: nat)
    requires n < Volume(a, b, c)
    ensures Low(a, n) < a && Low(b, High(a, n)) < b && High(b, High(a, n)) < c
    ensures Flat3(a, b, Low(a, n), Low(b, High(a, n)), High(b, High(a, n))) == n
  {
    hide Flat;
    FlatOnto(a, b * c, n);
    FlatOnto(b, c, n / a);
  }
}
