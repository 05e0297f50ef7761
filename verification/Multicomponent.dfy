/**
 Mixing energies of alloys with any number of components (source/CALPHADFunctions.C:169-271).  There
 are n independent concentrations; the last one is 1 minus their sum.  All pairs share one set of
 Redlich-Kister coefficients.
 */
module Multicomponent {
  import opened Calculus
  import opened SmoothLog
  import opened RealFacts
  import opened RealSums
  import opened Indices
  import opened RedlichKister
  import T = TernaryMixing
  import opened CalphadFunctions
  import opened PhaseEnergies
  import opened Determinant

  // ----- all concentrations, and the lines along which they move -----

  function Total(conc: Row): real {
    Sum(|conc|, i => At(conc, i))
  }

  /** The independent concentrations followed by the eliminated one. */
  function Full(conc: Row): (g: Row)
    ensures |g| == |conc| + 1
  {
    conc + [1.0 - Total(conc)]
  }

  lemma FullEntries(conc: Row)
    ensures |Full(conc)| == |conc| + 1 && Full(conc)[|conc|] == 1.0 - Total(conc)
    ensures forall i :: 0 <= i < |conc| ==> Full(conc)[i] == conc[i]
  {}

  // The unit vector i among n.
  function Axis(n: nat, i: int): (r: Row)
    ensures |r| == n && forall k :: 0 <= k < n ==> r[k] == if k == i then 1.0 else 0.0
  {
    seq(n, k => if k == i then 1.0 else 0.0)
  }

  // Growing concentration i shrinks the last one as much.
  function Direction(n: nat, i: nat): (r: Row)
    requires i < n
    ensures |r| == n + 1
    ensures forall k :: 0 <= k <= n ==> r[k] == if k == i then 1.0 else if k == n then -1.0 else 0.0
  {
    seq(n + 1, k => if k == i then 1.0 else if k == n then -1.0 else 0.0)
  }

  function Moved(a: Row, p: Row, t: real): (r: Row)
    requires |a| == |p|
    ensures |r| == |a| && forall k :: 0 <= k < |a| ==> r[k] == Line(a[k], p[k], t)
  {
    seq(|a|, k requires 0 <= k < |a| => Line(a[k], p[k], t))
  }

  /** Changing one independent concentration moves all of them along its direction. */
  lemma FullMoves(conc: Row, i: nat, t: real)
    requires i < |conc|
    ensures Full(conc[i := t]) == Moved(Full(conc[i := 0.0]), Direction(|conc|, i), t)
  {
    var a, b := conc[i := t], conc[i := 0.0];
    TotalOfUpdate(conc, i, t);
    forall k | 0 <= k <= |conc|
      ensures Full(a)[k] == Moved(Full(b), Direction(|conc|, i), t)[k]
    {
      MovedEntry(Full(b)[k], t);
    }
  }

  lemma MovedEntry(x: real, t: real)
    ensures Line(x, 0.0, t) == x && Line(x, -1.0, t) == x - t && Line(x, 1.0, t) == x + t
  {}

  lemma TotalOfUpdate(conc: Row, i: nat, t: real)
    requires i < |conc|
    ensures Total(conc[i := t]) == Total(conc[i := 0.0]) + t
  {
    var f, g := k => At(conc[i := 0.0], k), k => At(Axis(|conc|, i), k) * t;
    SumAdd(|conc|, f, g, k => At(conc[i := t], k));
    SumSingle(|conc|, i, g);
  }

  // ----- the pairwise mixing energy and its directional derivatives -----

  function PairAt(l: RK, g: Row, i: int, j: int): real {
    Pair(l, At(g, i), At(g, j))
  }

  function PairColumn(l: RK, g: Row, j: int): real {
    if j < 0 then 0.0 else Sum(j, i => PairAt(l, g, i, j))
  }

  /** The sum over all pairs i < j of c_i c_j (l0 + l1 (c_i - c_j) + ...). */
  function PairSum(l: RK, g: Row): real {
    Sum(|g|, j => PairColumn(l, g, j))
  }

  function Pair1At(l: RK, g: Row, p: Row, i: int, j: int): real {
    Pair1(l, At(g, i), At(g, j), At(p, i), At(p, j))
  }

  function PairColumn1(l: RK, g: Row, p: Row, j: int): real {
    if j < 0 then 0.0 else Sum(j, i => Pair1At(l, g, p, i, j))
  }

  function PairSum1(l: RK, g: Row, p: Row): real {
    Sum(|g|, j => PairColumn1(l, g, p, j))
  }

  function Pair2At(l: RK, g: Row, p: Row, r: Row, i: int, j: int): real {
    Pair2(l, At(g, i), At(g, j), At(p, i), At(p, j), At(r, i), At(r, j))
  }

  function PairColumn2(l: RK, g: Row, p: Row, r: Row, j: int): real {
    if j < 0 then 0.0 else Sum(j, i => Pair2At(l, g, p, r, i, j))
  }

  function PairSum2(l: RK, g: Row, p: Row, r: Row): real {
    Sum(|g|, j => PairColumn2(l, g, p, r, j))
  }

  function SumAt(n: nat, f: int -> real -> real, t: real): real {
    Sum(n, k => f(k)(t))
  }

  /** A finite sum of functions has the sum of the derivatives. */
  lemma {:induction false} DerivSum(n: nat, f: int -> real -> real, h: real -> real, x: real, d: int -> real, s: real)
    requires forall k :: 0 <= k < n ==> HasDeriv(f(k), x, d(k))
    requires forall t :: h(t) == SumAt(n, f, t)
    requires s == Sum(n, d)
    ensures HasDeriv(h, x, s)
  {
    hide HasDeriv;
    if n == 0 {
      DerivLine(h, 0.0, 0.0, x);
    } else {
      var h' := t => SumAt(n - 1, f, t);
      DerivSum(n - 1, f, h', x, d, Sum(n - 1, d));
      DerivAdd(h', f(n - 1), h, x, Sum(n - 1, d), d(n - 1), s);
    }
  }

  lemma PairAtDeriv(l: RK, a: Row, p: Row, i: nat, j: nat, x: real, f: real -> real)
    requires |a| == |p| && i < |a| && j < |a| && forall t :: f(t) == PairAt(l, Moved(a, p, t), i, j)
    ensures HasDeriv(f, x, Pair1At(l, Moved(a, p, x), p, i, j))
  {
    hide HasDeriv, Pair, Pair1, Line;
    PairDeriv(l, a[i], p[i], a[j], p[j], x, f, Pair1At(l, Moved(a, p, x), p, i, j));
  }

  lemma ColumnDeriv(l: RK, a: Row, p: Row, j: nat, x: real, h: real -> real)
    requires |a| == |p| && j < |a| && forall t :: h(t) == PairColumn(l, Moved(a, p, t), j)
    ensures HasDeriv(h, x, PairColumn1(l, Moved(a, p, x), p, j))
  {
    hide HasDeriv, PairAt, Pair1At, Moved;
    var f := (i: int) => (t: real) => PairAt(l, Moved(a, p, t), i, j);
    var d := i => Pair1At(l, Moved(a, p, x), p, i, j);
    forall i | 0 <= i < j
      ensures HasDeriv(f(i), x, d(i))
    {
      PairAtDeriv(l, a, p, i, j, x, f(i));
    }
    forall t
      ensures h(t) == SumAt(j, f, t)
    {
      SumSame(j, i => PairAt(l, Moved(a, p, t), i, j), k => f(k)(t));
    }
    DerivSum(j, f, h, x, d, PairColumn1(l, Moved(a, p, x), p, j));
  }

  lemma PairSumDeriv(l: RK, a: Row, p: Row, x: real, h: real -> real)
    requires |a| == |p| && forall t :: h(t) == PairSum(l, Moved(a, p, t))
    ensures HasDeriv(h, x, PairSum1(l, Moved(a, p, x), p))
  {
    hide HasDeriv, PairColumn, PairColumn1;
    var f := (j: int) => (t: real) => PairColumn(l, Moved(a, p, t), j);
    var d := j => PairColumn1(l, Moved(a, p, x), p, j);
    forall j | 0 <= j < |a|
      ensures HasDeriv(f(j), x, d(j))
    {
      ColumnDeriv(l, a, p, j, x, f(j));
    }
    forall t
      ensures h(t) == SumAt(|a|, f, t)
    {
      SumSame(|a|, j => PairColumn(l, Moved(a, p, t), j), k => f(k)(t));
    }
    DerivSum(|a|, f, h, x, d, PairSum1(l, Moved(a, p, x), p));
  }

  lemma Pair1AtDeriv(l: RK, a: Row, p: Row, r: Row, i: nat, j: nat, x: real, f: real -> real)
    requires |a| == |p| == |r| && i < |a| && j < |a| && forall t :: f(t) == Pair1At(l, Moved(a, r, t), p, i, j)
    ensures HasDeriv(f, x, Pair2At(l, Moved(a, r, x), p, r, i, j))
  {
    hide HasDeriv, Pair1, Pair2, Line;
    Pair1Deriv(l, a[i], r[i], a[j], r[j], p[i], p[j], x, f, Pair2At(l, Moved(a, r, x), p, r, i, j));
  }

  lemma Column1Deriv(l: RK, a: Row, p: Row, r: Row, j: nat, x: real, h: real -> real)
    requires |a| == |p| == |r| && j < |a| && forall t :: h(t) == PairColumn1(l, Moved(a, r, t), p, j)
    ensures HasDeriv(h, x, PairColumn2(l, Moved(a, r, x), p, r, j))
  {
    hide HasDeriv, Pair1At, Pair2At, Moved;
    var f := (i: int) => (t: real) => Pair1At(l, Moved(a, r, t), p, i, j);
    var d := i => Pair2At(l, Moved(a, r, x), p, r, i, j);
    forall i | 0 <= i < j
      ensures HasDeriv(f(i), x, d(i))
    {
      Pair1AtDeriv(l, a, p, r, i, j, x, f(i));
    }
    forall t
      ensures h(t) == SumAt(j, f, t)
    {
      SumSame(j, i => Pair1At(l, Moved(a, r, t), p, i, j), k => f(k)(t));
    }
    DerivSum(j, f, h, x, d, PairColumn2(l, Moved(a, r, x), p, r, j));
  }

  lemma PairSum1Deriv(l: RK, a: Row, p: Row, r: Row, x: real, h: real -> real)
    requires |a| == |p| == |r| && forall t :: h(t) == PairSum1(l, Moved(a, r, t), p)
    ensures HasDeriv(h, x, PairSum2(l, Moved(a, r, x), p, r))
  {
    hide HasDeriv, PairColumn1, PairColumn2;
    var f := (j: int) => (t: real) => PairColumn1(l, Moved(a, r, t), p, j);
    var d := j => PairColumn2(l, Moved(a, r, x), p, r, j);
    forall j | 0 <= j < |a|
      ensures HasDeriv(f(j), x, d(j))
    {
      Column1Deriv(l, a, p, r, j, x, f(j));
    }
    forall t
      ensures h(t) == SumAt(|a|, f, t)
    {
      SumSame(|a|, j => PairColumn1(l, Moved(a, r, t), p, j), k => f(k)(t));
    }
    DerivSum(|a|, f, h, x, d, PairSum2(l, Moved(a, r, x), p, r));
  }

  // ----- the mixing energy over the independent concentrations -----

  function FMix(l: RK, conc: Row): real {
    PairSum(l, Full(conc))
  }

  function FMixSlope(l: RK, conc: Row, i: nat): real
    requires i < |conc|
  {
    PairSum1(l, Full(conc), Direction(|conc|, i))
  }

  function FMixCurvature(l: RK, conc: Row, i: nat, j: nat): real
    requires i < |conc| && j < |conc|
  {
    PairSum2(l, Full(conc), Direction(|conc|, i), Direction(|conc|, j))
  }

  /** For one and two independent concentrations it is the binary and the ternary mixing energy. */
  lemma FMixSpecialises(l: RK, cA: real, cB: real)
    ensures FMix(l, [cA]) == FMixBinary(l, cA)
    ensures FMix(l, [cA, cB]) == FMixTernary(T.Interaction(l, l, l, T.ABC(0.0, 0.0, 0.0)), cA, cB)
  {
    hide Pair, FMixBinary, FMixTernary, PairSum, Full, T.Mix;
    OneFull(cA);
    TwoFull(cA, cB);
    BinaryIsPair(l, cA);
    PairsOfTwo(l, cA, 1.0 - cA);
    TernaryIsMix(T.Interaction(l, l, l, T.ABC(0.0, 0.0, 0.0)), cA, cB);
    PairsOfThree(l, cA, cB, 1.0 - cA - cB);
  }

  lemma PairsOfTwo(l: RK, u: real, v: real)
    ensures PairSum(l, [u, v]) == Pair(l, u, v)
  {
    hide Pair;
    var g := [u, v];
    var columns, pairs := j => PairColumn(l, g, j), i => PairAt(l, g, i, 1);
    assert Sum(2, columns) == Sum(1, columns) + columns(1);
    assert Sum(1, columns) == Sum(0, columns) + columns(0);
    assert Sum(1, pairs) == Sum(0, pairs) + pairs(0);
  }

  lemma PairsOfThree(l: RK, u: real, v: real, w: real)
    ensures PairSum(l, [u, v, w]) == T.Mix(T.Interaction(l, l, l, T.ABC(0.0, 0.0, 0.0)), u, v, w)
  {
    hide Pair;
    var g := [u, v, w];
    var columns := j => PairColumn(l, g, j);
    var pairs1, pairs2 := i => PairAt(l, g, i, 1), i => PairAt(l, g, i, 2);
    assert Sum(3, columns) == Sum(2, columns) + columns(2);
    assert Sum(2, columns) == Sum(1, columns) + columns(1);
    assert Sum(1, columns) == Sum(0, columns) + columns(0);
    assert Sum(1, pairs1) == Sum(0, pairs1) + pairs1(0);
    assert Sum(2, pairs2) == Sum(1, pairs2) + pairs2(1);
    assert Sum(1, pairs2) == Sum(0, pairs2) + pairs2(0);
    assert T.Phi(T.ABC(0.0, 0.0, 0.0), u, v, w) == 0.0;
  }

  lemma TwoFull(cA: real, cB: real)
    ensures Full([cA, cB]) == [cA, cB, 1.0 - cA - cB]
  {
    var g := i => At([cA, cB], i);
    assert Sum(2, g) == Sum(1, g) + g(1);
    assert Sum(1, g) == Sum(0, g) + g(0);
  }

  /** FMixSlope is the gradient of FMix and FMixCurvature its Hessian, for any number of components. */
  lemma FMixExact(l: RK, conc: Row, i: nat, j: nat)
    requires i < |conc| && j < |conc|
    ensures HasDeriv(t => FMix(l, conc[i := t]), conc[i], FMixSlope(l, conc, i))
    ensures HasDeriv(t => FMixSlope(l, conc[j := t], i), conc[j], FMixCurvature(l, conc, i, j))
  {
    hide HasDeriv, PairSum, PairSum1, PairSum2, Full, Moved, Direction;
    var n := |conc|;
    var f, s := t => FMix(l, conc[i := t]), t => FMixSlope(l, conc[j := t], i);
    forall t
      ensures f(t) == PairSum(l, Moved(Full(conc[i := 0.0]), Direction(n, i), t))
      ensures s(t) == PairSum1(l, Moved(Full(conc[j := 0.0]), Direction(n, j), t), Direction(n, i))
    {
      FullMoves(conc, i, t);
      FullMoves(conc, j, t);
    }
    FullMoves(conc, i, conc[i]);
    FullMoves(conc, j, conc[j]);
    assert conc[i := conc[i]] == conc && conc[j := conc[j]] == conc;
    PairSumDeriv(l, Full(conc[i := 0.0]), Direction(n, i), conc[i], f);
    PairSum1Deriv(l, Full(conc[j := 0.0]), Direction(n, i), Direction(n, j), conc[j], s);
  }

  // ----- the Hessian with all concentrations independent -----

  function Hessian(l: RK, g: Row, i: int, j: int): real {
    PairSum2(l, g, Axis(|g|, i), Axis(|g|, j))
  }

  lemma Pair2Minus(l: RK, u: real, v: real, p: real, q: real, p': real, q': real, r: real, s: real)
    ensures Pair2(l, u, v, p - p', q - q', r, s) == Pair2(l, u, v, p, q, r, s) - Pair2(l, u, v, p', q', r, s)
  {
    hide Poly, Poly1, Poly2;
    var k, k1, k2 := Poly(l, u - v), Poly1(l, u - v), u * (v * Poly2(l, u - v));
    Pair2MinusTerms(u, v, p, q, p', q', r, s, k, k1, k2);
  }

  lemma Pair2MinusTerms(u: real, v: real, p: real, q: real, p': real, q': real, r: real, s: real, k: real, k1: real, k2: real)
    ensures ((p - p') * s + r * (q - q')) * k
      + (((p - p') * v + u * (q - q')) * (r - s) + ((p - p') - (q - q')) * (r * v + u * s)) * k1
      + ((p - p') - (q - q')) * (r - s) * k2
      == ((p * s + r * q) * k + ((p * v + u * q) * (r - s) + (p - q) * (r * v + u * s)) * k1 + (p - q) * (r - s) * k2)
      - ((p' * s + r * q') * k + ((p' * v + u * q') * (r - s) + (p' - q') * (r * v + u * s)) * k1 + (p' - q') * (r - s) * k2)
  {}

  lemma Pair2Swap(l: RK, u: real, v: real, p: real, q: real, r: real, s: real)
    ensures Pair2(l, u, v, p, q, r, s) == Pair2(l, u, v, r, s, p, q)
  {
    hide Poly, Poly1, Poly2;
  }

  lemma Pair2Zero(l: RK, u: real, v: real, p: real, q: real, r: real, s: real)
    requires p == q == 0.0 || r == s == 0.0
    ensures Pair2(l, u, v, p, q, r, s) == 0.0
  {
    hide Poly, Poly1, Poly2;
  }

  lemma PairSum2Swap(l: RK, g: Row, p: Row, r: Row)
    ensures PairSum2(l, g, p, r) == PairSum2(l, g, r, p)
  {
    hide Pair2;
    forall j | 0 <= j < |g|
      ensures PairColumn2(l, g, p, r, j) == PairColumn2(l, g, r, p, j)
    {
      forall i | 0 <= i < j
        ensures Pair2At(l, g, p, r, i, j) == Pair2At(l, g, r, p, i, j)
      {
        Pair2Swap(l, At(g, i), At(g, j), At(p, i), At(p, j), At(r, i), At(r, j));
      }
      SumSame(j, i => Pair2At(l, g, p, r, i, j), i => Pair2At(l, g, r, p, i, j));
    }
    SumSame(|g|, j => PairColumn2(l, g, p, r, j), j => PairColumn2(l, g, r, p, j));
  }

  // d == p - p'.
  ghost predicate IsDifference(d: Row, p: Row, p': Row) {
    |d| == |p| == |p'| && forall k :: 0 <= k < |d| ==> d[k] == p[k] - p'[k]
  }

  lemma PairSum2Minus(l: RK, g: Row, d: Row, p: Row, p': Row, r: Row)
    requires |g| == |d| && IsDifference(d, p, p')
    ensures PairSum2(l, g, d, r) == PairSum2(l, g, p, r) - PairSum2(l, g, p', r)
  {
    hide Pair2;
    forall j | 0 <= j < |g|
      ensures PairColumn2(l, g, p, r, j) == PairColumn2(l, g, p', r, j) + PairColumn2(l, g, d, r, j)
    {
      forall i | 0 <= i < j
        ensures Pair2At(l, g, p, r, i, j) == Pair2At(l, g, p', r, i, j) + Pair2At(l, g, d, r, i, j)
      {
        Pair2Minus(l, At(g, i), At(g, j), At(p, i), At(p, j), At(p', i), At(p', j), At(r, i), At(r, j));
      }
      SumAdd(j, i => Pair2At(l, g, p', r, i, j), i => Pair2At(l, g, d, r, i, j), i => Pair2At(l, g, p, r, i, j));
    }
    SumAdd(|g|, j => PairColumn2(l, g, p', r, j), j => PairColumn2(l, g, d, r, j), j => PairColumn2(l, g, p, r, j));
  }

  lemma DirectionIsMinus(n: nat, i: nat)
    requires i < n
    ensures IsDifference(Direction(n, i), Axis(n + 1, i), Axis(n + 1, n))
  {}

  /** Eliminating the last concentration turns the Hessian H into H_ij - H_iN - H_jN + H_NN. */
  lemma CurvatureIsHessian(l: RK, conc: Row, i: nat, j: nat)
    requires i < |conc| && j < |conc|
    ensures var g, n := Full(conc), |conc|;
      FMixCurvature(l, conc, i, j) == Hessian(l, g, i, j) - Hessian(l, g, i, n) - Hessian(l, g, j, n) + Hessian(l, g, n, n)
  {
    hide PairSum2, IsDifference, Axis, Direction, Full;
    var g, n := Full(conc), |conc|;
    var u, v, w, d, e := Axis(n + 1, i), Axis(n + 1, j), Axis(n + 1, n), Direction(n, i), Direction(n, j);
    DirectionIsMinus(n, i);
    DirectionIsMinus(n, j);
    PairSum2Minus(l, g, d, u, w, e);
    PairSum2Swap(l, g, u, e);
    PairSum2Swap(l, g, w, e);
    PairSum2Minus(l, g, e, v, w, u);
    PairSum2Minus(l, g, e, v, w, w);
    PairSum2Swap(l, g, v, u);
    PairSum2Swap(l, g, w, u);
  }

  // ----- what the code computes -----

  function NoCubic(l: RK): RK {
    l.(l3 := 0.0)
  }

  /** The scalar cross derivative. */
  function MixDeriv2(l: RK, c0: real, c1: real): real {
    var dc := c0 - c1;
    var dc2 := dc * dc;
    l.l0 + 2.0 * l.l1 * dc + l.l2 * (3.0 * dc2 - 2.0 * c0 * c1) + l.l3 * (4.0 * dc2 * dc - 6.0 * c0 * c1 * dc)
  }

  lemma MixDeriv2IsPair2(l: RK, u: real, v: real)
    ensures MixDeriv2(l, u, v) == Pair2(l, u, v, 1.0, 0.0, 0.0, 1.0)
  {}

  /** The scalar formula is the cross derivative of the pair energy, for i < j. */
  lemma MixedIsHessian(l: RK, g: Row, i: nat, j: nat)
    requires i < j < |g|
    ensures Hessian(l, g, i, j) == MixDeriv2(l, g[i], g[j])
  {
    hide Pair2, MixDeriv2;
    var p, r := Axis(|g|, i), Axis(|g|, j);
    var column := J => PairColumn2(l, g, p, r, J);
    forall J | 0 <= J < |g| && J != j
      ensures column(J) == 0.0
    {
      ColumnZero(l, g, p, r, J);
    }
    SumSingle(|g|, j, column);
    var row := k => Pair2At(l, g, p, r, k, j);
    forall k | 0 <= k < j && k != i
      ensures row(k) == 0.0
    {
      Pair2Zero(l, g[k], g[j], p[k], p[j], r[k], r[j]);
    }
    SumSingle(j, i, row);
    MixDeriv2IsPair2(l, g[i], g[j]);
  }

  lemma ColumnZero(l: RK, g: Row, p: Row, r: Row, j: nat)
    requires j < |g| == |p| == |r|
    requires forall k :: 0 <= k < j ==> p[k] == p[j] == 0.0 || r[k] == r[j] == 0.0
    ensures PairColumn2(l, g, p, r, j) == 0.0
  {
    hide Pair2;
    forall k | 0 <= k < j
      ensures Pair2At(l, g, p, r, k, j) == 0.0
    {
      Pair2Zero(l, g[k], g[j], p[k], p[j], r[k], r[j]);
    }
    SumZero(j, k => Pair2At(l, g, p, r, k, j));
  }

  // The two summands that component i contributes to the second derivative along ic.

  function SlopePart(l: RK, c: real, dc: real): real {
    2.0 * c * (l.l1 + 2.0 * l.l2 * dc)
  }

  function BendPart(l: RK, c0: real, c1: real): real {
    c0 * c1 * l.l2 * 2.0
  }

  function SlopeTerm(l: RK, g: Row, ic: int, i: int): real {
    if i < ic then -SlopePart(l, At(g, i), At(g, i) - At(g, ic))
    else if i > ic then SlopePart(l, At(g, i), At(g, ic) - At(g, i))
    else 0.0
  }

  function BendTerm(l: RK, g: Row, ic: int, i: int): real {
    if i == ic then 0.0 else BendPart(l, At(g, i), At(g, ic))
  }

  // The pair of component i with ic.
  function PairTerm(l: RK, g: Row, ic: int, i: int): real {
    if i < ic then Pair2(l, At(g, i), At(g, ic), 0.0, 1.0, 0.0, 1.0)
    else if i > ic then Pair2(l, At(g, ic), At(g, i), 1.0, 0.0, 1.0, 0.0)
    else 0.0
  }

  lemma PairTermIs(l: RK, g: Row, ic: int, i: int)
    ensures PairTerm(NoCubic(l), g, ic, i) == SlopeTerm(l, g, ic, i) + BendTerm(l, g, ic, i)
  {}

  method GMixDeriv2(l: RK, conc: Row, ic: nat) returns (gmixDeriv2: real)
    requires l.l3 <= 0.000000000000001 && ic < |conc|
    ensures gmixDeriv2 == Hessian(NoCubic(l), conc, ic, ic)
  {
    hide Hessian, SlopePart, BendPart;
    var n := |conc|;
    ghost var slope, bend := i => SlopeTerm(l, conc, ic, i), i => BendTerm(l, conc, ic, i);
    gmixDeriv2 := 0.0;
    for i := 0 to ic
      invariant gmixDeriv2 == Sum(i, slope)
    {
      gmixDeriv2 := gmixDeriv2 - SlopePart(l, conc[i], conc[i] - conc[ic]);
    }
    assert slope(ic) == 0.0;
    for i := ic + 1 to n
      invariant gmixDeriv2 == Sum(i, slope)
    {
      gmixDeriv2 := gmixDeriv2 + SlopePart(l, conc[i], conc[ic] - conc[i]);
    }
    for i := 0 to ic
      invariant gmixDeriv2 == Sum(n, slope) + Sum(i, bend)
    {
      gmixDeriv2 := gmixDeriv2 + BendPart(l, conc[i], conc[ic]);
    }
    assert bend(ic) == 0.0;
    for i := ic + 1 to n
      invariant gmixDeriv2 == Sum(n, slope) + Sum(i, bend)
    {
      gmixDeriv2 := gmixDeriv2 + BendPart(l, conc[i], conc[ic]);
    }
    DiagonalIsHessian(l, conc, ic, slope, bend);
  }

  lemma DiagonalIsHessian(l: RK, g: Row, ic: nat, slope: int -> real, bend: int -> real)
    requires ic < |g|
    requires forall i :: slope(i) == SlopeTerm(l, g, ic, i) && bend(i) == BendTerm(l, g, ic, i)
    ensures Sum(|g|, slope) + Sum(|g|, bend) == Hessian(NoCubic(l), g, ic, ic)
  {
    hide SlopeTerm, BendTerm, PairTerm, Hessian;
    var term := i => PairTerm(NoCubic(l), g, ic, i);
    forall i | 0 <= i < |g|
      ensures term(i) == slope(i) + bend(i)
    {
      PairTermIs(l, g, ic, i);
    }
    SumAdd(|g|, slope, bend, term);
    HessianDiagonal(NoCubic(l), g, ic, term);
  }

  /** A diagonal entry of the Hessian adds up the pairs of its component. */
  lemma HessianDiagonal(l: RK, g: Row, ic: nat, term: int -> real)
    requires ic < |g| && forall i :: term(i) == PairTerm(l, g, ic, i)
    ensures Hessian(l, g, ic, ic) == Sum(|g|, term)
  {
    hide PairTerm, PairColumn2;
    var column := j => PairColumn2(l, g, Axis(|g|, ic), Axis(|g|, ic), j);
    forall j | 0 <= j < |g|
      ensures column(j) == if j < ic then 0.0 else if j == ic then Sum(ic, term) else term(j)
    {
      DiagonalColumn(l, g, ic, j, term);
    }
    NoSelfPair(l, g, ic);
    ByColumns(|g|, ic, column, term);
  }

  lemma NoSelfPair(l: RK, g: Row, ic: nat)
    ensures PairTerm(l, g, ic, ic) == 0.0
  {}

  lemma DiagonalColumn(l: RK, g: Row, ic: nat, j: nat, term: int -> real)
    requires ic < |g| && j < |g| && forall i :: term(i) == PairTerm(l, g, ic, i)
    ensures PairColumn2(l, g, Axis(|g|, ic), Axis(|g|, ic), j)
      == if j < ic then 0.0 else if j == ic then Sum(ic, term) else term(j)
  {
    hide Pair2;
    var p := Axis(|g|, ic);
    var row := k => Pair2At(l, g, p, p, k, j);
    if j < ic {
      ColumnZero(l, g, p, p, j);
    } else if j == ic {
      SumSame(ic, row, term);
    } else {
      forall k | 0 <= k < j && k != ic
        ensures row(k) == 0.0
      {
        Pair2Zero(l, g[k], g[j], p[k], p[j], p[k], p[j]);
      }
      SumSingle(j, ic, row);
    }
  }

  // The terms below ic are collected in column ic.
  lemma {:induction false} ByColumns(n: nat, ic: nat, column: int -> real, term: int -> real)
    requires ic < n && term(ic) == 0.0
    requires forall j :: 0 <= j < n ==> column(j) == if j < ic then 0.0 else if j == ic then Sum(ic, term) else term(j)
    ensures Sum(n, column) == Sum(n, term)
  {
    if n == ic + 1 {
      SumZero(ic, column);
    } else {
      ByColumns(n - 1, ic, column, term);
    }
  }

  // The vector version, with the branch on equal indices.
  function MixDeriv2At(l: RK, g: Row, ic0: nat, ic1: nat): real
    requires ic0 < |g| && ic1 < |g|
  {
    if ic0 == ic1 then Hessian(NoCubic(l), g, ic0, ic0) else MixDeriv2(l, g[ic0], g[ic1])
  }

  method GMixMixDeriv2(l: RK, conc: Row, ic0: nat, ic1: nat) returns (r: real)
    requires ic0 < |conc| && ic1 < |conc| && (ic0 == ic1 ==> l.l3 <= 0.000000000000001)
    ensures r == MixDeriv2At(l, conc, ic0, ic1)
  {
    if ic0 == ic1 {
      r := GMixDeriv2(l, conc, ic0);
    } else {
      r := MixDeriv2(l, conc[ic0], conc[ic1]);
    }
  }

  method FMixMixDeriv2(l: RK, concf: Row, ic0: nat, ic1: nat) returns (df2: real)
    requires l.l3 <= 0.000000000000001 && ic0 < |concf| && ic1 < |concf|
    ensures df2 == FMixMixDeriv2Value(l, concf, ic0, ic1)
  {
    hide MixDeriv2At, Hessian;
    var icN := |concf|;
    var cN := 1.0;
    for i := 0 to icN
      invariant cN == 1.0 - Sum(i, k => At(concf, k))
    {
      assert At(concf, i) == concf[i];
      cN := cN - concf[i];
    }
    var concg := concf + [cN];
    var g01 := GMixMixDeriv2(l, concg, ic0, ic1);
    var g0N := GMixMixDeriv2(l, concg, ic0, icN);
    var g1N := GMixMixDeriv2(l, concg, ic1, icN);
    var gNN := GMixDeriv2(l, concg, icN);
    assert concg == Full(concf);
    df2 := g01 - g0N - g1N + gNN;
  }

  function FMixMixDeriv2Value(l: RK, conc: Row, ic0: nat, ic1: nat): real
    requires ic0 < |conc| && ic1 < |conc|
  {
    var g, n := Full(conc), |conc|;
    MixDeriv2At(l, g, ic0, ic1) - MixDeriv2At(l, g, ic0, n) - MixDeriv2At(l, g, ic1, n) + Hessian(NoCubic(l), g, n, n)
  }

  // The second derivative along component k that one pair owes to the cubic coefficient, per unit of l3.
  function CubicTerm(g: Row, k: int, i: int): real {
    6.0 * (At(g, i) * ((if i < k then At(g, i) - At(g, k) else At(g, k) - At(g, i)) * (2.0 * At(g, k) - At(g, i))))
  }

  /** What the diagonal routine leaves out for component k, per unit of l3. */
  function CubicPart(g: Row, k: int): real {
    Sum(|g|, i => CubicTerm(g, k, i))
  }

  // Exchanging the arguments of the scalar formula changes it by this much.
  function OrderPart(l: RK, a: real, b: real): real {
    (a - b) * (4.0 * l.l1 + l.l3 * (8.0 * ((a - b) * (a - b)) - 12.0 * (a * b)))
  }

  lemma CubicTermIs(l: RK, g: Row, k: int, i: int)
    ensures PairTerm(l, g, k, i) == PairTerm(NoCubic(l), g, k, i) + Times(l.l3, CubicTerm(g, k, i))
  {
    if i < k {
      CubicUpper(l, At(g, i), At(g, k));
    } else if i > k {
      CubicLower(l, At(g, k), At(g, i));
    }
  }

  lemma CubicLower(l: RK, u: real, v: real)
    ensures Pair2(l, u, v, 1.0, 0.0, 1.0, 0.0)
      == Pair2(NoCubic(l), u, v, 1.0, 0.0, 1.0, 0.0) + Times(l.l3, 6.0 * (v * ((u - v) * (2.0 * u - v))))
  {}

  lemma CubicUpper(l: RK, u: real, v: real)
    ensures Pair2(l, u, v, 0.0, 1.0, 0.0, 1.0)
      == Pair2(NoCubic(l), u, v, 0.0, 1.0, 0.0, 1.0) + Times(l.l3, 6.0 * (u * ((u - v) * (2.0 * v - u))))
  {}

  lemma CubicDiagonal(l: RK, g: Row, k: nat)
    requires k < |g|
    ensures Hessian(l, g, k, k) == Hessian(NoCubic(l), g, k, k) + Times(l.l3, CubicPart(g, k))
  {
    hide Hessian, PairTerm, CubicTerm, Times;
    var term, rest, cubic := i => PairTerm(l, g, k, i), i => PairTerm(NoCubic(l), g, k, i), i => CubicTerm(g, k, i);
    var scaled := i => Times(l.l3, CubicTerm(g, k, i));
    HessianDiagonal(l, g, k, term);
    HessianDiagonal(NoCubic(l), g, k, rest);
    forall i | 0 <= i < |g|
      ensures term(i) == rest(i) + scaled(i)
    {
      CubicTermIs(l, g, k, i);
    }
    SumAdd(|g|, rest, scaled, term);
    SumTimes(|g|, l.l3, cubic, scaled);
  }

  // By how much the n-component routine is off.
  function MixError(l: RK, g: Row, ic0: nat, ic1: nat): real
    requires ic0 < |g| && ic1 < |g| && |g| > 0
  {
    (if ic1 < ic0 then OrderPart(l, g[ic0], g[ic1]) else 0.0)
    - Times(l.l3, CubicPart(g, |g| - 1)) - (if ic0 == ic1 then Times(l.l3, CubicPart(g, ic0)) else 0.0)
  }

  /** The n-component routine against the exact second partial derivative, for all coefficients and indices. */
  lemma FMixMixDeriv2Error(l: RK, conc: Row, ic0: nat, ic1: nat)
    requires ic0 < |conc| && ic1 < |conc|
    ensures FMixMixDeriv2Value(l, conc, ic0, ic1) == FMixCurvature(l, conc, ic0, ic1) + MixError(l, Full(conc), ic0, ic1)
  {
    hide Hessian, MixDeriv2, FMixCurvature, Full, OrderPart, CubicPart, Times;
    var g, n := Full(conc), |conc|;
    FullEntries(conc);
    CurvatureIsHessian(l, conc, ic0, ic1);
    MixedIsHessian(l, g, ic0, n);
    MixedIsHessian(l, g, ic1, n);
    CubicDiagonal(l, g, n);
    if ic0 < ic1 {
      MixedIsHessian(l, g, ic0, ic1);
    } else if ic1 < ic0 {
      MixedIsHessian(l, g, ic1, ic0);
      HessianSymmetric(l, g, ic0, ic1);
      WrongOrder(l, g[ic0], g[ic1]);
    } else {
      CubicDiagonal(l, g, ic0);
    }
  }

  /**
   So, without a cubic coefficient, the routine is exact if and only if ic0 <= ic1 or
   l1 (c_ic0 - c_ic1) is zero.
   */
  lemma FMixMixDeriv2Exact(l: RK, conc: Row, ic0: nat, ic1: nat)
    requires l.l3 == 0.0 && ic0 < |conc| && ic1 < |conc|
    ensures FMixMixDeriv2Value(l, conc, ic0, ic1) == FMixCurvature(l, conc, ic0, ic1)
      <==> (ic0 <= ic1 || l.l1 * (conc[ic0] - conc[ic1]) == 0.0)
  {
    hide FMixMixDeriv2Value, FMixCurvature, Full, CubicPart;
    FullEntries(conc);
    FMixMixDeriv2Error(l, conc, ic0, ic1);
    NoCubicPart(l, CubicPart(Full(conc), |conc|));
    NoCubicPart(l, CubicPart(Full(conc), ic0));
    PlainOrder(l, conc[ic0], conc[ic1]);
  }

  lemma NoCubicPart(l: RK, x: real)
    requires l.l3 == 0.0
    ensures Times(l.l3, x) == 0.0
  {}

  lemma PlainOrder(l: RK, a: real, b: real)
    requires l.l3 == 0.0
    ensures OrderPart(l, a, b) == 4.0 * (l.l1 * (a - b))
  {
    assert l.l3 * (8.0 * ((a - b) * (a - b)) - 12.0 * (a * b)) == 0.0;
  }

  /**
   With indices in the wrong order the routine is wrong already for three components and a linear
   coefficient, whenever the two concentrations differ: at (1/4, 1/2), for one.
   */
  lemma WrongOrderExample(c0: real, c1: real)
    requires c0 != c1
    ensures FMixMixDeriv2Value(RK(0.0, 1.0, 0.0, 0.0), [c0, c1], 1, 0) != FMixCurvature(RK(0.0, 1.0, 0.0, 0.0), [c0, c1], 1, 0)
  {
    hide FMixMixDeriv2Value, FMixCurvature;
    FMixMixDeriv2Exact(RK(0.0, 1.0, 0.0, 0.0), [c0, c1], 1, 0);
  }

  lemma HessianSymmetric(l: RK, g: Row, i: int, j: int)
    ensures Hessian(l, g, i, j) == Hessian(l, g, j, i)
  {
    PairSum2Swap(l, g, Axis(|g|, i), Axis(|g|, j));
  }

  lemma WrongOrder(l: RK, a: real, b: real)
    ensures MixDeriv2(l, a, b) - MixDeriv2(l, b, a) == OrderPart(l, a, b)
  {}

  /**
   With one independent concentration the routine is the binary second derivative, but for the cubic
   coefficient, which its diagonal terms leave out.  The assertion on l3 admits negative values.
   */
  lemma OneComponentIsBinary(l: RK, c: real)
    ensures FMixMixDeriv2Value(l, [c], 0, 0) == FMixDeriv2Binary(l, c)
      <==> l.l3 == 0.0 || c == 0.5 || 6.0 * (c * (1.0 - c)) == 1.0
  {
    hide FMixDeriv2Binary, Hessian, Pair2, MixDeriv2;
    var g := Full([c]);
    OneFull(c);
    TwoHessian(NoCubic(l), c, 1.0 - c, 0);
    TwoHessian(NoCubic(l), c, 1.0 - c, 1);
    MixDeriv2IsPair2(l, c, 1.0 - c);
    BinaryIsPair2(l, c);
    AllCorners(l, c, 1.0 - c);
    CubicCorners(l, c);
    var z := 2.0 * c - 1.0;
    NoZeroProduct(l.l3, z, 6.0 * (c * (1.0 - c)) - 1.0);
  }

  /** A negative cubic coefficient passes the assertion, and the routine is wrong: at c = 1/4, for one. */
  lemma CubicExample(c: real)
    requires c != 0.5 && 6.0 * (c * (1.0 - c)) != 1.0
    ensures FMixMixDeriv2Value(RK(0.0, 0.0, 0.0, -1.0), [c], 0, 0) != FMixDeriv2Binary(RK(0.0, 0.0, 0.0, -1.0), c)
  {
    hide FMixMixDeriv2Value, FMixDeriv2Binary;
    OneComponentIsBinary(RK(0.0, 0.0, 0.0, -1.0), c);
  }

  lemma OneFull(c: real)
    ensures Full([c]) == [c, 1.0 - c]
  {
    var total := i => At([c], i);
    assert Sum(1, total) == Sum(0, total) + c;
  }

  // The diagonal of the Hessian of a single pair.
  lemma TwoHessian(l: RK, u: real, v: real, k: nat)
    requires k < 2
    ensures Hessian(l, [u, v], k, k)
      == if k == 0 then Pair2(l, u, v, 1.0, 0.0, 1.0, 0.0) else Pair2(l, u, v, 0.0, 1.0, 0.0, 1.0)
  {
    hide Pair2;
    var g, d := [u, v], Axis(2, k);
    var column, row := j => PairColumn2(l, g, d, d, j), i => Pair2At(l, g, d, d, i, 1);
    assert Sum(2, column) == Sum(1, column) + column(1);
    assert Sum(1, column) == Sum(0, column) + column(0);
    assert Sum(1, row) == Sum(0, row) + row(0);
  }

  // Along (1, -1) the four second derivatives add up.
  lemma AllCorners(l: RK, u: real, v: real)
    ensures Pair2(l, u, v, 1.0, -1.0, 1.0, -1.0)
      == Pair2(l, u, v, 1.0, 0.0, 1.0, 0.0) - 2.0 * Pair2(l, u, v, 1.0, 0.0, 0.0, 1.0) + Pair2(l, u, v, 0.0, 1.0, 0.0, 1.0)
  {
    hide Pair2;
    Pair2Minus(l, u, v, 1.0, 0.0, 0.0, 1.0, 1.0, -1.0);
    Pair2Swap(l, u, v, 1.0, 0.0, 1.0, -1.0);
    Pair2Swap(l, u, v, 0.0, 1.0, 1.0, -1.0);
    Pair2Minus(l, u, v, 1.0, 0.0, 0.0, 1.0, 1.0, 0.0);
    Pair2Minus(l, u, v, 1.0, 0.0, 0.0, 1.0, 0.0, 1.0);
    Pair2Swap(l, u, v, 0.0, 1.0, 1.0, 0.0);
  }

  // What the cubic coefficient contributes to the two diagonal terms.
  lemma CubicCorners(l: RK, c: real)
    ensures Pair2(l, c, 1.0 - c, 1.0, 0.0, 1.0, 0.0) + Pair2(l, c, 1.0 - c, 0.0, 1.0, 0.0, 1.0)
      == Pair2(NoCubic(l), c, 1.0 - c, 1.0, 0.0, 1.0, 0.0) + Pair2(NoCubic(l), c, 1.0 - c, 0.0, 1.0, 0.0, 1.0)
      + 6.0 * (l.l3 * ((2.0 * c - 1.0) * (6.0 * (c * (1.0 - c)) - 1.0)))
  {}

  lemma NoZeroProduct(x: real, y: real, z: real)
    ensures x * (y * z) == 0.0 <==> x == 0.0 || y == 0.0 || z == 0.0
  {}

  // ----- ideal mixing -----

  function IdealTerm(ln: real -> real, g: Row, k: int): real {
    XLogX(ln, At(g, k))
  }

  function FIdealMix(ln: real -> real, rt: real, conc: Row): real {
    rt * Sum(|conc| + 1, k => IdealTerm(ln, Full(conc), k))
  }

  function FIdealMixSlope(ln: real -> real, rt: real, conc: Row, i: int): real {
    rt * (XLogXDeriv(ln, At(Full(conc), i)) - XLogXDeriv(ln, At(Full(conc), |conc|)))
  }

  /** The second derivative along i and j: a diagonal plus a constant. */
  function FIdealMixCurvature(rt: real, conc: Row, i: int, j: int): real {
    rt * ((if i == j then XLogXDeriv2(At(conc, i)) else 0.0) + XLogXDeriv2(1.0 - Total(conc)))
  }

  /** Writes all nc^2 entries: the diagonal first, then both halves together. */
  method FIdealMixDeriv2(rt: real, conc: Row, d2fdc2: array<real>)
    requires d2fdc2.Length == |conc| * |conc|
    modifies d2fdc2
    ensures forall i: nat, j: nat :: i < |conc| && j < |conc| ==>
      Flat(|conc|, i, j) < d2fdc2.Length && d2fdc2[Flat(|conc|, i, j)] == FIdealMixCurvature(rt, conc, i, j)
  {
    hide Flat, FIdealMixCurvature, XLogXDeriv2;
    var nc := |conc|;
    FlatDistinct(nc, nc);
    var cN := 1.0;
    for ic := 0 to nc
      invariant cN == 1.0 - Sum(ic, k => At(conc, k))
    {
      assert At(conc, ic) == conc[ic];
      cN := cN - conc[ic];
    }
    assert cN == 1.0 - Total(conc);
    // diagonal terms
    for ic := 0 to nc
      invariant forall i: nat :: i < ic ==> d2fdc2[Flat(nc, i, i)] == FIdealMixCurvature(rt, conc, i, i)
    {
      CurvatureEntry(rt, conc, cN, ic, ic);
      d2fdc2[Flat(nc, ic, ic)] := rt * (XLogXDeriv2(conc[ic]) + XLogXDeriv2(cN));
    }
    var val := rt * XLogXDeriv2(cN);
    for ic := 0 to nc
      invariant forall i: nat, j: nat :: i < nc && j < nc && (i == j || (i < ic && j < ic)) ==>
        d2fdc2[Flat(nc, i, j)] == FIdealMixCurvature(rt, conc, i, j)
    {
      for jc := 0 to ic
        invariant forall i: nat, j: nat :: i < nc && j < nc && (i == j || (i < ic && j < ic) || (i == ic && j < jc) || (j == ic && i < jc)) ==>
          d2fdc2[Flat(nc, i, j)] == FIdealMixCurvature(rt, conc, i, j)
      {
        CurvatureEntry(rt, conc, cN, ic, jc);
        CurvatureEntry(rt, conc, cN, jc, ic);
        d2fdc2[Flat(nc, ic, jc)] := val;
        d2fdc2[Flat(nc, jc, ic)] := val;
      }
    }
  }

  lemma CurvatureEntry(rt: real, conc: Row, cN: real, i: nat, j: nat)
    requires cN == 1.0 - Total(conc) && i < |conc|
    ensures FIdealMixCurvature(rt, conc, i, j)
      == if i == j then rt * (XLogXDeriv2(conc[i]) + XLogXDeriv2(cN)) else rt * XLogXDeriv2(cN)
  {
    hide XLogXDeriv2;
  }

  /** Slope and curvature are the first and second partial derivatives of the ideal mixing energy. */
  lemma FIdealMixExact(ln: real -> real, rt: real, conc: Row, i: nat, j: nat)
    requires IsLog(ln) && i < |conc| && j < |conc|
    ensures HasDeriv(t => FIdealMix(ln, rt, conc[i := t]), conc[i], FIdealMixSlope(ln, rt, conc, i))
    ensures HasDeriv(t => FIdealMixSlope(ln, rt, conc[j := t], i), conc[j], FIdealMixCurvature(rt, conc, i, j))
  {
    hide HasDeriv, IsLog, FIdealMix, FIdealMixSlope, FIdealMixCurvature;
    IdealEnergyDeriv(ln, rt, conc, i, t => FIdealMix(ln, rt, conc[i := t]));
    IdealSlopeDeriv(ln, rt, conc, i, j, t => FIdealMixSlope(ln, rt, conc[j := t], i));
  }

  lemma IdealTermDeriv(ln: real -> real, a: Row, p: Row, x: real, k: nat, f: real -> real, d: real)
    requires IsLog(ln) && |a| == |p| && k < |a| && d == Rate(ln, Moved(a, p, x), p, k)
    requires forall t :: f(t) == IdealTerm(ln, Moved(a, p, t), k)
    ensures HasDeriv(f, x, d)
  {
    hide HasDeriv, IsLog, XLogX, XLogXDeriv, XLogXDeriv2, Line;
    var g, g1 := XLogXAlong(ln, a[k], p[k], x, d, p[k] * XLogXDeriv2(Line(a[k], p[k], x)));
    DerivSame(g, f, x, d, d);
  }

  // p_k x'(c_k).
  function Rate(ln: real -> real, g: Row, p: Row, k: int): real {
    At(p, k) * XLogXDeriv(ln, At(g, k))
  }

  // The terms of the energy along a line of compositions.
  function IdealTerms(ln: real -> real, a: Row, p: Row): int -> real -> real
    requires |a| == |p|
  {
    (k: int) => (t: real) => IdealTerm(ln, Moved(a, p, t), k)
  }

  lemma IdealFamily(ln: real -> real, a: Row, p: Row, x: real, d: int -> real)
    requires IsLog(ln) && |a| == |p|
    requires forall k :: d(k) == Rate(ln, Moved(a, p, x), p, k)
    ensures forall k :: 0 <= k < |a| ==> HasDeriv(IdealTerms(ln, a, p)(k), x, d(k))
  {
    hide HasDeriv, IsLog, IdealTerm, Moved, Rate;
    var f := IdealTerms(ln, a, p);
    forall k | 0 <= k < |a|
      ensures HasDeriv(f(k), x, d(k))
    {
      IdealTermDeriv(ln, a, p, x, k, f(k), d(k));
    }
  }

  lemma IdealEnergyDeriv(ln: real -> real, rt: real, conc: Row, i: nat, h: real -> real)
    requires IsLog(ln) && i < |conc| && forall t :: h(t) == FIdealMix(ln, rt, conc[i := t])
    ensures HasDeriv(h, conc[i], FIdealMixSlope(ln, rt, conc, i))
  {
    hide HasDeriv, IsLog, Rate, IdealTerm, IdealTerms, Full, Moved, Direction, FIdealMix, SumAt, Sum, FIdealMixSlope, Times;
    var n := |conc|;
    var a, p := Full(conc[i := 0.0]), Direction(n, i);
    var f := IdealTerms(ln, a, p);
    var d := k => Rate(ln, Full(conc), p, k);
    FullMoves(conc, i, conc[i]);
    assert conc[i := conc[i]] == conc;
    IdealFamily(ln, a, p, conc[i], d);
    IdealRateSum(ln, conc, i, p, d);
    SlopeIs(ln, rt, conc, i, Sum(n + 1, d));
    forall t
      ensures h(t) == Times(rt, SumAt(n + 1, f, t))
    {
      IdealMoves(ln, rt, conc, i, t);
    }
    ScaledSumDeriv(n + 1, f, h, rt, conc[i], d, FIdealMixSlope(ln, rt, conc, i));
  }

  lemma IdealRateSum(ln: real -> real, conc: Row, i: nat, p: Row, d: int -> real)
    requires i < |conc| && p == Direction(|conc|, i) && forall k :: d(k) == Rate(ln, Full(conc), p, k)
    ensures Sum(|conc| + 1, d) == XLogXDeriv(ln, At(Full(conc), i)) - XLogXDeriv(ln, At(Full(conc), |conc|))
  {
    hide XLogXDeriv, Full, Rate, Direction;
    var u, v := XLogXDeriv(ln, At(Full(conc), i)), XLogXDeriv(ln, At(Full(conc), |conc|));
    forall k | 0 <= k <= |conc|
      ensures d(k) == if k == i then u else if k == |conc| then -v else 0.0
    {
      RateEntry(ln, Full(conc), p, k);
    }
    SumSingle(|conc|, i, d);
  }

  lemma SlopeIs(ln: real -> real, rt: real, conc: Row, i: nat, x: real)
    requires x == XLogXDeriv(ln, At(Full(conc), i)) - XLogXDeriv(ln, At(Full(conc), |conc|))
    ensures FIdealMixSlope(ln, rt, conc, i) == Times(rt, x)
  {
    hide XLogXDeriv, Full;
  }

  lemma RateEntry(ln: real -> real, g: Row, p: Row, k: nat)
    requires k < |p| && (p[k] == 1.0 || p[k] == -1.0 || p[k] == 0.0)
    ensures Rate(ln, g, p, k) == var y := XLogXDeriv(ln, At(g, k)); if p[k] == 1.0 then y else if p[k] == -1.0 then -y else 0.0
  {
    hide XLogXDeriv;
  }

  lemma ScaledSumDeriv(n: nat, f: int -> real -> real, h: real -> real, rt: real, x: real, d: int -> real, s: real)
    requires forall k :: 0 <= k < n ==> HasDeriv(f(k), x, d(k))
    requires forall t :: h(t) == Times(rt, SumAt(n, f, t))
    requires s == Times(rt, Sum(n, d))
    ensures HasDeriv(h, x, s)
  {
    hide HasDeriv, SumAt, Sum;
    var total := t => SumAt(n, f, t);
    DerivSum(n, f, total, x, d, Sum(n, d));
    var g := DerivScale(total, rt, x, Sum(n, d), s);
    DerivSame(g, h, x, s, s);
  }

  lemma IdealMoves(ln: real -> real, rt: real, conc: Row, i: nat, t: real)
    requires i < |conc|
    ensures var f := IdealTerms(ln, Full(conc[i := 0.0]), Direction(|conc|, i));
      FIdealMix(ln, rt, conc[i := t]) == Times(rt, SumAt(|conc| + 1, f, t))
  {
    hide IdealTerm, Full, Moved, Direction;
    var f := IdealTerms(ln, Full(conc[i := 0.0]), Direction(|conc|, i));
    FullMoves(conc, i, t);
    SumSame(|conc| + 1, k => IdealTerm(ln, Full(conc[i := t]), k), k => f(k)(t));
  }

  lemma IdealSlopeDeriv(ln: real -> real, rt: real, conc: Row, i: nat, j: nat, h: real -> real)
    requires IsLog(ln) && i < |conc| && j < |conc| && forall t :: h(t) == FIdealMixSlope(ln, rt, conc[j := t], i)
    ensures HasDeriv(h, conc[j], FIdealMixCurvature(rt, conc, i, j))
  {
    hide HasDeriv, IsLog, XLogXDeriv, XLogXDeriv2, Full, Line;
    var n := |conc|;
    var a, p := Full(conc[j := 0.0]), Direction(n, j);
    FullEntries(conc);
    FullEntries(conc[j := 0.0]);
    forall t
      ensures h(t) == rt * (XLogXDeriv(ln, Line(a[i], p[i], t)) - XLogXDeriv(ln, Line(a[n], p[n], t)))
    {
      FullMoves(conc, j, t);
    }
    FullMoves(conc, j, conc[j]);
    assert conc[j := conc[j]] == conc;
    IdealSlopeAlong(ln, rt, a[i], p[i], a[n], p[n], conc[j], h, FIdealMixCurvature(rt, conc, i, j));
  }

  lemma FIdealMixSymmetric(rt: real, conc: Row, i: int, j: int)
    ensures FIdealMixCurvature(rt, conc, i, j) == FIdealMixCurvature(rt, conc, j, i)
  {}

  // z_i H_ij z_j.
  function QuadraticTerm(rt: real, conc: Row, z: Row, i: int, j: int): real {
    At(z, i) * (FIdealMixCurvature(rt, conc, i, j) * At(z, j))
  }

  function QuadraticForm(rt: real, conc: Row, z: Row): real {
    ByRows(|conc|, |conc|, (i, j) => QuadraticTerm(rt, conc, z, i, j))
  }

  function SquareTerm(rt: real, conc: Row, z: Row, i: int): real {
    rt * XLogXDeriv2(At(conc, i)) * (At(z, i) * At(z, i))
  }

  function SquareSum(rt: real, conc: Row, z: Row): real {
    Sum(|conc|, i => SquareTerm(rt, conc, z, i))
  }

  /** The quadratic form is a sum of n + 1 squares ... */
  lemma QuadraticIsSquares(rt: real, conc: Row, z: Row)
    requires |z| == |conc|
    ensures QuadraticForm(rt, conc, z)
      == SquareSum(rt, conc, z) + rt * XLogXDeriv2(1.0 - Total(conc)) * (Total(z) * Total(z))
  {
    hide QuadraticTerm, SquareTerm, XLogXDeriv2, Times, Sum;
    var k, s := rt * XLogXDeriv2(1.0 - Total(conc)), Total(z);
    var f := (i: int, j: int) => QuadraticTerm(rt, conc, z, i, j);
    forall i: nat | i < |conc|
      ensures RowSum(|conc|, f, i) == SquareTerm(rt, conc, z, i) + Times(k * s, At(z, i))
    {
      QuadraticRow(rt, conc, z, i, k, s, f);
    }
    RowsAddUp(rt, conc, z, k * s, i => RowSum(|conc|, f, i));
    SpreadTotal(rt, XLogXDeriv2(1.0 - Total(conc)), s, k * s);
  }

  lemma RowsAddUp(rt: real, conc: Row, z: Row, k: real, row: int -> real)
    requires |z| == |conc| && forall i: nat :: i < |conc| ==> row(i) == SquareTerm(rt, conc, z, i) + Times(k, At(z, i))
    ensures Sum(|conc|, row) == SquareSum(rt, conc, z) + Times(k, Total(z))
  {
    hide SquareTerm, Times;
    var square, entry := i => SquareTerm(rt, conc, z, i), i => At(z, i);
    var spread := i => Times(k, At(z, i));
    SumTimes(|conc|, k, entry, spread);
    SumAdd(|conc|, square, spread, row);
  }

  lemma SpreadTotal(rt: real, x: real, s: real, k: real)
    requires k == rt * x * s
    ensures Times(k, s) == rt * x * (s * s)
  {
    assert k * s == rt * x * s * s;
  }

  lemma QuadraticRow(rt: real, conc: Row, z: Row, i: nat, k: real, s: real, f: (int, int) -> real)
    requires |z| == |conc| && i < |conc| && k == rt * XLogXDeriv2(1.0 - Total(conc)) && s == Total(z)
    requires forall i, j :: f(i, j) == QuadraticTerm(rt, conc, z, i, j)
    ensures RowSum(|conc|, f, i) == SquareTerm(rt, conc, z, i) + Times(k * s, At(z, i))
  {
    hide QuadraticTerm, SquareTerm, Total, XLogXDeriv2, Times, RowSum;
    var m := k * At(z, i);
    forall j: nat | j < |conc|
      ensures f(i, j) == (if j == i then SquareTerm(rt, conc, z, i) else 0.0) + Times(m, At(z, j))
    {
      QuadraticEntry(rt, conc, z, i, j, k, m);
    }
    DiagonalPlusSpread(f, z, i, SquareTerm(rt, conc, z, i), m);
    Reassociate(k, At(z, i), s, m, k * s);
  }

  lemma DiagonalPlusSpread(f: (int, int) -> real, z: Row, i: nat, d: real, k: real)
    requires i < |z| && forall j: nat :: j < |z| ==> f(i, j) == (if j == i then d else 0.0) + Times(k, At(z, j))
    ensures RowSum(|z|, f, i) == d + Times(k, Total(z))
  {
    hide Times;
    var n := |z|;
    var diagonal, entry := (j: int) => if j == i then d else 0.0, j => At(z, j);
    var spread := j => Times(k, At(z, j));
    SumSingle(n, i, diagonal);
    SumTimes(n, k, entry, spread);
    SumAdd(n, diagonal, spread, j => f(i, j));
  }

  lemma Reassociate(k: real, z: real, s: real, m: real, m': real)
    requires m == k * z && m' == k * s
    ensures Times(m, s) == Times(m', z)
  {
    assert (k * z) * s == (k * s) * z;
  }

  lemma QuadraticEntry(rt: real, conc: Row, z: Row, i: nat, j: nat, k: real, m: real)
    requires |z| == |conc| && i < |conc| && j < |conc| && k == rt * XLogXDeriv2(1.0 - Total(conc)) && m == k * At(z, i)
    ensures QuadraticTerm(rt, conc, z, i, j) == (if j == i then SquareTerm(rt, conc, z, i) else 0.0) + Times(m, At(z, j))
  {
    hide XLogXDeriv2, Total, Times;
    EntryProduct(rt, if i == j then XLogXDeriv2(At(conc, i)) else 0.0, XLogXDeriv2(1.0 - Total(conc)), At(z, i), At(z, j), k, m);
  }

  lemma EntryProduct(rt: real, a: real, b: real, x: real, y: real, k: real, m: real)
    requires k == rt * b && m == k * x
    ensures x * ((rt * (a + b)) * y) == rt * a * (x * y) + Times(m, y)
  {
    assert x * ((rt * (a + b)) * y) == rt * a * (x * y) + ((rt * b) * x) * y;
  }

  /** ... so the ideal-mixing Hessian is positive definite for rt > 0, at every composition. */
  lemma FIdealMixPositive(rt: real, conc: Row, z: Row, k: nat)
    requires rt > 0.0 && |z| == |conc| && k < |z| && z[k] != 0.0
    ensures QuadraticForm(rt, conc, z) > 0.0
  {
    hide QuadraticForm, SquareTerm, XLogXDeriv2, Total;
    QuadraticIsSquares(rt, conc, z);
    forall i | 0 <= i < |z|
      ensures SquareTerm(rt, conc, z, i) >= 0.0 && (z[i] != 0.0 ==> SquareTerm(rt, conc, z, i) > 0.0)
    {
      SquareTermPositive(rt, conc, z, i);
    }
    SumPositive(|conc|, k, i => SquareTerm(rt, conc, z, i));
    IdealSquare(rt, XLogXDeriv2(1.0 - Total(conc)), Total(z), rt * XLogXDeriv2(1.0 - Total(conc)) * (Total(z) * Total(z)));
  }

  lemma SquareTermPositive(rt: real, conc: Row, z: Row, i: nat)
    requires rt > 0.0 && i < |z|
    ensures SquareTerm(rt, conc, z, i) >= 0.0 && (z[i] != 0.0 ==> SquareTerm(rt, conc, z, i) > 0.0)
  {
    hide XLogXDeriv2;
    IdealSquare(rt, XLogXDeriv2(At(conc, i)), z[i], SquareTerm(rt, conc, z, i));
  }

  lemma IdealSquare(rt: real, w: real, x: real, r: real)
    requires rt > 0.0 && w > 0.0 && r == rt * w * (x * x)
    ensures r >= 0.0 && (x != 0.0 ==> r > 0.0)
  {
    PositiveProduct(rt, w);
    WeightedSquare(rt * w, x, r);
  }

  /** One and two independent concentrations give the binary and the ternary second derivatives. */
  lemma FIdealMixSpecialises(rt: real, cA: real, cB: real)
    ensures FIdealMixCurvature(rt, [cA], 0, 0) == FIdealMixDeriv2Binary(rt, cA)
    ensures FIdealMixCurvature(rt, [cA, cB], 0, 0) == FIdealMixAA(rt, cA, cB)
    ensures FIdealMixCurvature(rt, [cA, cB], 0, 1) == FIdealMixAB(rt, cA, cB)
    ensures FIdealMixCurvature(rt, [cA, cB], 1, 1) == FIdealMixBB(rt, cA, cB)
  {
    hide XLogXDeriv2;
    var f, g := i => At([cA], i), i => At([cA, cB], i);
    assert Sum(1, f) == Sum(0, f) + f(0);
    assert Sum(2, g) == Sum(1, g) + g(1);
    assert Sum(1, g) == Sum(0, g) + g(0);
    assert 1.0 - Total([cA, cB]) == 1.0 - cA - cB;
  }
}
