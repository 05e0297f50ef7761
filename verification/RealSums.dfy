/** Finite sums of reals, as needed for matrices, n-component alloys and grids. */
module RealSums {
  import opened RealFacts

  // The entry at a position, and zero beyond the ends.
  function At(x: seq<real>, n: int): real {
    if 0 <= n < |x| then x[n] else 0.0
  }

  function Sum(n: nat, f: int -> real): real {
    if n == 0 then 0.0 else Sum(n - 1, f) + f(n - 1)
  }

  lemma {:induction false} SumSame(n: nat, f: int -> real, g: int -> real)
    requires forall i :: 0 <= i < n ==> f(i) == g(i)
    ensures Sum(n, f) == Sum(n, g)
  {
    if n > 0 {
      SumSame(n - 1, f, g);
    }
  }

  lemma {:induction false} SumZero(n: nat, f: int -> real)
    requires forall i :: 0 <= i < n ==> f(i) == 0.0
    ensures Sum(n, f) == 0.0
  {
    if n > 0 {
      SumZero(n - 1, f);
    }
  }

  lemma {:induction false} SumAdd(n: nat, f: int -> real, g: int -> real, h: int -> real)
    requires forall i :: 0 <= i < n ==> h(i) == f(i) + g(i)
    ensures Sum(n, h) == Sum(n, f) + Sum(n, g)
  {
    if n > 0 {
      SumAdd(n - 1, f, g, h);
    }
  }

  lemma {:induction false} SumScale(n: nat, c: real, f: int -> real, h: int -> real)
    requires forall i :: 0 <= i < n ==> h(i) == c * f(i)
    ensures Sum(n, h) == c * Sum(n, f)
  {
    if n > 0 {
      SumScale(n - 1, c, f, h);
    }
  }

  lemma {:induction false} SumTimes(n: nat, c: real, f: int -> real, h: int -> real)
    requires forall i :: 0 <= i < n ==> h(i) == Times(c, f(i))
    ensures Sum(n, h) == Times(c, Sum(n, f))
  {
    if n > 0 {
      SumTimes(n - 1, c, f, h);
      assert c * (Sum(n - 1, f) + f(n - 1)) == c * Sum(n - 1, f) + c * f(n - 1);
    }
  }

  // Only the term at k is not zero.
  lemma {:induction false} SumSingle(n: nat, k: nat, f: int -> real)
    requires k < n && forall i :: 0 <= i < n && i != k ==> f(i) == 0.0
    ensures Sum(n, f) == f(k)
  {
    if k == n - 1 {
      SumZero(n - 1, f);
    } else {
      SumSingle(n - 1, k, f);
    }
  }

  lemma {:induction false} SumNonneg(n: nat, f: int -> real)
    requires forall i :: 0 <= i < n ==> f(i) >= 0.0
    ensures Sum(n, f) >= 0.0
  {
    if n > 0 {
      SumNonneg(n - 1, f);
    }
  }

  lemma {:induction false} SumPositive(n: nat, k: nat, f: int -> real)
    requires k < n && f(k) > 0.0 && forall i :: 0 <= i < n ==> f(i) >= 0.0
    ensures Sum(n, f) > 0.0
  {
    if k == n - 1 {
      SumNonneg(n - 1, f);
    } else {
      SumPositive(n - 1, k, f);
    }
  }

  // ----- double sums -----

  function RowSum(m: nat, f: (int, int) -> real, i: int): real {
    Sum(m, j => f(i, j))
  }

  function ColSum(n: nat, f: (int, int) -> real, j: int): real {
    Sum(n, i => f(i, j))
  }

  function ByRows(n: nat, m: nat, f: (int, int) -> real): real {
    Sum(n, i => RowSum(m, f, i))
  }

  function ByCols(n: nat, m: nat, f: (int, int) -> real): real {
    Sum(m, j => ColSum(n, f, j))
  }

  lemma RowSumIs(m: nat, f: (int, int) -> real, i: int, g: int -> real)
    requires forall j :: 0 <= j < m ==> g(j) == f(i, j)
    ensures RowSum(m, f, i) == Sum(m, g)
  {
    SumSame(m, j => f(i, j), g);
  }

  lemma ColSumIs(n: nat, f: (int, int) -> real, j: int, g: int -> real)
    requires forall i :: 0 <= i < n ==> g(i) == f(i, j)
    ensures ColSum(n, f, j) == Sum(n, g)
  {
    SumSame(n, i => f(i, j), g);
  }

  lemma {:induction false} SumSwap(n: nat, m: nat, f: (int, int) -> real)
    ensures ByRows(n, m, f) == ByCols(n, m, f)
  {
    if n == 0 {
      SumZero(m, j => ColSum(0, f, j));
    } else {
      SumSwap(n - 1, m, f);
      SumAdd(m, j => ColSum(n - 1, f, j), j => f(n - 1, j), j => ColSum(n, f, j));
      RowStep(n, m, f);
    }
  }

  lemma RowStep(n: nat, m: nat, f: (int, int) -> real)
    requires n > 0
    ensures ByRows(n, m, f) == ByRows(n - 1, m, f) + Sum(m, j => f(n - 1, j))
  {
    var rows := i => RowSum(m, f, i);
    assert Sum(n, rows) == Sum(n - 1, rows) + rows(n - 1);
  }
}
