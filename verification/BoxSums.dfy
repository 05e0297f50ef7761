/** Sums over three indices, and summation by parts along lines of cells and faces. */
module BoxSums {
  import opened RealSums

  type Field = (int, int, int) -> real

  function LineSum(n: nat, g: Field, j: int, k: int): real {
    Sum(n, i => g(i, j, k))
  }

  function PlaneSum(n: nat, m: nat, g: Field, k: int): real {
    Sum(m, j => LineSum(n, g, j, k))
  }

  /** The sum of g(i, j, k) over i < n, j < m, k < l. */
  function BoxSum(n: nat, m: nat, l: nat, g: Field): real {
    Sum(l, k => PlaneSum(n, m, g, k))
  }

  lemma BoxSumSame(n: nat, m: nat, l: nat, g: Field, h: Field)
    requires forall i, j, k :: 0 <= i < n && 0 <= j < m && 0 <= k < l ==> g(i, j, k) == h(i, j, k)
    ensures BoxSum(n, m, l, g) == BoxSum(n, m, l, h)
  {
    forall k | 0 <= k < l
      ensures PlaneSum(n, m, g, k) == PlaneSum(n, m, h, k)
    {
      forall j | 0 <= j < m
        ensures LineSum(n, g, j, k) == LineSum(n, h, j, k)
      {
        SumSame(n, i => g(i, j, k), i => h(i, j, k));
      }
      SumSame(m, j => LineSum(n, g, j, k), j => LineSum(n, h, j, k));
    }
    SumSame(l, k => PlaneSum(n, m, g, k), k => PlaneSum(n, m, h, k));
  }

  lemma BoxSumAdd(n: nat, m: nat, l: nat, f: Field, g: Field, h: Field)
    requires forall i, j, k :: 0 <= i < n && 0 <= j < m && 0 <= k < l ==> h(i, j, k) == f(i, j, k) + g(i, j, k)
    ensures BoxSum(n, m, l, h) == BoxSum(n, m, l, f) + BoxSum(n, m, l, g)
  {
    forall k | 0 <= k < l
      ensures PlaneSum(n, m, h, k) == PlaneSum(n, m, f, k) + PlaneSum(n, m, g, k)
    {
      forall j | 0 <= j < m
        ensures LineSum(n, h, j, k) == LineSum(n, f, j, k) + LineSum(n, g, j, k)
      {
        SumAdd(n, i => f(i, j, k), i => g(i, j, k), i => h(i, j, k));
      }
      SumAdd(m, j => LineSum(n, f, j, k), j => LineSum(n, g, j, k), j => LineSum(n, h, j, k));
    }
    SumAdd(l, k => PlaneSum(n, m, f, k), k => PlaneSum(n, m, g, k), k => PlaneSum(n, m, h, k));
  }

  lemma BoxSumNonneg(n: nat, m: nat, l: nat, g: Field)
    requires forall i, j, k :: 0 <= i < n && 0 <= j < m && 0 <= k < l ==> g(i, j, k) >= 0.0
    ensures BoxSum(n, m, l, g) >= 0.0
    ensures forall k :: 0 <= k < l ==> PlaneSum(n, m, g, k) >= 0.0
    ensures forall j, k :: 0 <= j < m && 0 <= k < l ==> LineSum(n, g, j, k) >= 0.0
  {
    forall j, k | 0 <= j < m && 0 <= k < l
      ensures LineSum(n, g, j, k) >= 0.0
    {
      SumNonneg(n, i => g(i, j, k));
    }
    forall k | 0 <= k < l
      ensures PlaneSum(n, m, g, k) >= 0.0
    {
      SumNonneg(m, j => LineSum(n, g, j, k));
    }
    SumNonneg(l, k => PlaneSum(n, m, g, k));
  }

  lemma BoxSumPositive(n: nat, m: nat, l: nat, g: Field, i: nat, j: nat, k: nat)
    requires forall i, j, k :: 0 <= i < n && 0 <= j < m && 0 <= k < l ==> g(i, j, k) >= 0.0
    requires i < n && j < m && k < l && g(i, j, k) > 0.0
    ensures BoxSum(n, m, l, g) > 0.0
  {
    BoxSumNonneg(n, m, l, g);
    SumPositive(n, i, i => g(i, j, k));
    SumPositive(m, j, j => LineSum(n, g, j, k));
    SumPositive(l, k, k => PlaneSum(n, m, g, k));
  }

  // ----- changing the innermost index -----

  function SwapIJ(g: Field): Field {
    (j: int, i: int, k: int) => g(i, j, k)
  }

  function SwapIK(g: Field): Field {
    (k: int, j: int, i: int) => g(i, j, k)
  }

  lemma PlaneSwap(n: nat, m: nat, g: Field, k: int)
    ensures PlaneSum(n, m, g, k) == PlaneSum(m, n, SwapIJ(g), k)
  {
    var f, h := (j: int, i: int) => g(i, j, k), SwapIJ(g);
    assert forall j, i :: h(j, i, k) == g(i, j, k);
    forall j
      ensures RowSum(n, f, j) == LineSum(n, g, j, k)
    {
      SumSame(n, i => f(j, i), i => g(i, j, k));
    }
    forall i
      ensures ColSum(m, f, i) == LineSum(m, h, i, k)
    {
      SumSame(m, j => f(j, i), j => h(j, i, k));
    }
    SumSwap(m, n, f);
    SumSame(m, j => RowSum(n, f, j), j => LineSum(n, g, j, k));
    SumSame(n, i => ColSum(m, f, i), i => LineSum(m, h, i, k));
  }

  lemma BoxSwapIJ(n: nat, m: nat, l: nat, g: Field)
    ensures BoxSum(n, m, l, g) == BoxSum(m, n, l, SwapIJ(g))
  {
    forall k
      ensures PlaneSum(n, m, g, k) == PlaneSum(m, n, SwapIJ(g), k)
    {
      PlaneSwap(n, m, g, k);
    }
    SumSame(l, k => PlaneSum(n, m, g, k), k => PlaneSum(m, n, SwapIJ(g), k));
  }

  // The two outer indices.
  function SwapJK(g: Field): Field {
    (i: int, k: int, j: int) => g(i, j, k)
  }

  lemma BoxSwapJK(n: nat, m: nat, l: nat, g: Field)
    ensures BoxSum(n, m, l, g) == BoxSum(n, l, m, SwapJK(g))
  {
    var f, h := (k: int, j: int) => LineSum(n, g, j, k), SwapJK(g);
    assert forall i, k, j :: h(i, k, j) == g(i, j, k);
    forall k
      ensures RowSum(m, f, k) == PlaneSum(n, m, g, k)
    {
      SumSame(m, j => f(k, j), j => LineSum(n, g, j, k));
    }
    forall j
      ensures ColSum(l, f, j) == PlaneSum(n, l, h, j)
    {
      forall k
        ensures LineSum(n, g, j, k) == LineSum(n, h, k, j)
      {
        SumSame(n, i => g(i, j, k), i => h(i, k, j));
      }
      SumSame(l, k => f(k, j), k => LineSum(n, h, k, j));
    }
    SumSwap(l, m, f);
    SumSame(l, k => RowSum(m, f, k), k => PlaneSum(n, m, g, k));
    SumSame(m, j => ColSum(l, f, j), j => PlaneSum(n, l, h, j));
  }

  lemma BoxSwapIK(n: nat, m: nat, l: nat, g: Field)
    ensures BoxSum(n, m, l, g) == BoxSum(l, m, n, SwapIK(g))
  {
    BoxSwapJK(n, m, l, g);
    BoxSwapIJ(n, l, m, SwapJK(g));
    BoxSwapJK(l, n, m, SwapIJ(SwapJK(g)));
    BoxSumSame(l, m, n, SwapJK(SwapIJ(SwapJK(g))), SwapIK(g));
  }

  // ----- from cells to faces -----

  // Face f lies between cells f - 1 and f.
  function FaceTerm(n: nat, lower: int -> real, upper: int -> real, f: int): real {
    (if f < n then lower(f) else 0.0) + (if f > 0 then upper(f - 1) else 0.0)
  }

  lemma LineToFaces(n: nat, t: int -> real, lower: int -> real, upper: int -> real, e: int -> real)
    requires forall i :: 0 <= i < n ==> t(i) == lower(i) + upper(i)
    requires forall f :: 0 <= f <= n ==> e(f) == FaceTerm(n, lower, upper, f)
    ensures Sum(n, t) == Sum(n + 1, e)
  {
    LinePrefix(n, t, lower, upper, e, n);
  }

  // The first c cells and the faces below them, short of the last lower part.
  lemma {:induction false} LinePrefix(n: nat, t: int -> real, lower: int -> real, upper: int -> real, e: int -> real, c: nat)
    requires c <= n
    requires forall i :: 0 <= i < n ==> t(i) == lower(i) + upper(i)
    requires forall f :: 0 <= f <= n ==> e(f) == FaceTerm(n, lower, upper, f)
    ensures Sum(c, t) + (if c < n then lower(c) else 0.0) == Sum(c + 1, e)
  {
    if c == 0 {
      assert Sum(1, e) == Sum(0, e) + e(0);
    } else {
      LinePrefix(n, t, lower, upper, e, c - 1);
      assert Sum(c + 1, e) == Sum(c, e) + e(c);
    }
  }

  function FaceTerm3(n: nat, lower: Field, upper: Field, f: int, j: int, k: int): real {
    (if f < n then lower(f, j, k) else 0.0) + (if f > 0 then upper(f - 1, j, k) else 0.0)
  }

  /** Each cell has a part at its lower and one at its upper face; summed over all lines, the faces collect them. */
  lemma BoxToFaces(n: nat, m: nat, l: nat, t: Field, lower: Field, upper: Field, e: Field)
    requires forall i, j, k :: 0 <= i < n && 0 <= j < m && 0 <= k < l ==> t(i, j, k) == lower(i, j, k) + upper(i, j, k)
    requires forall f, j, k :: 0 <= f <= n && 0 <= j < m && 0 <= k < l ==>
      e(f, j, k) == FaceTerm3(n, lower, upper, f, j, k)
    ensures BoxSum(n, m, l, t) == BoxSum(n + 1, m, l, e)
  {
    forall k | 0 <= k < l
      ensures PlaneSum(n, m, t, k) == PlaneSum(n + 1, m, e, k)
    {
      forall j | 0 <= j < m
        ensures LineSum(n, t, j, k) == LineSum(n + 1, e, j, k)
      {
        LineToFaces(n, i => t(i, j, k), i => lower(i, j, k), i => upper(i, j, k), f => e(f, j, k));
      }
      SumSame(m, j => LineSum(n, t, j, k), j => LineSum(n + 1, e, j, k));
    }
    SumSame(l, k => PlaneSum(n, m, t, k), k => PlaneSum(n + 1, m, e, k));
  }
}
