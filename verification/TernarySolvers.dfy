/**
 The two ternary Newton systems: the 4x4 partition between two phases at given phase fraction
 (source/CALPHADConcSolverTernary.C) and the 5x5 common tangent plane with the lever rule
 (source/CALPHADEqPhaseConcSolverTernary.C).
 */
module TernarySolvers {
  import opened RealFacts
  import opened Calculus
  import opened SmoothLog
  import opened TernaryMixing
  import opened CalphadFunctions
  import opened PhaseEnergies
  import opened Determinant
  import N = NewtonSolver
  import Q = PhaseEquilibrium
  import M = EnergyMinima

  // The slopes and curvatures of a phase, as each solver adds them up.

  method ComputeSlopes(ln: real -> real, rt: real, p: TernaryPhase, cA: real, cB: real) returns (sA: real, sB: real)
    ensures sA == SlopeA(ln, rt, p, cA, cB) && sB == SlopeB(ln, rt, p, cA, cB)
  {
    hide FIdealMixA, FIdealMixB, MixA, MixB;
    var derivIdealMix := new real[2];
    FIdealMixDerivTernary(ln, rt, cA, cB, derivIdealMix);
    var derivFMix := new real[2];
    FMixDerivTernary(p.k, cA, cB, derivFMix);
    assert derivIdealMix[..][0] == derivIdealMix[0] && derivIdealMix[..][1] == derivIdealMix[1];
    // 1st species
    sA := p.fA - p.fC + derivFMix[0] + derivIdealMix[0];
    // 2nd species
    sB := p.fB - p.fC + derivFMix[1] + derivIdealMix[1];
  }

  // Only one cross term is kept; the other is equal by symmetry.
  method ComputeCurvatures(rt: real, p: TernaryPhase, cA: real, cB: real) returns (aa: real, ab: real, bb: real)
    ensures aa == CurvatureAA(rt, p, cA, cB) && ab == CurvatureAB(rt, p, cA, cB) && bb == CurvatureBB(rt, p, cA, cB)
  {
    hide FIdealMixAA, FIdealMixAB, FIdealMixBB, MixAA, MixAB, MixBA, MixBB;
    var deriv2IdealMix := new real[4];
    FIdealMixDeriv2Ternary(rt, cA, cB, deriv2IdealMix);
    var deriv2FMix := new real[4];
    FMixDeriv2Ternary(p.k, cA, cB, deriv2FMix);
    var d := deriv2IdealMix[..];
    assert deriv2IdealMix[0] == d[0] && deriv2IdealMix[1] == d[1] && deriv2IdealMix[3] == d[3];
    aa := deriv2FMix[0] + deriv2IdealMix[0];
    ab := deriv2FMix[1] + deriv2IdealMix[1];
    bb := deriv2FMix[3] + deriv2IdealMix[3];
  }

  // ----- partition of a composition between two phases -----

  datatype Partition = Partition(rt: real, c0: real, c1: real, hphi: real, L: TernaryPhase, S: TernaryPhase)

  function Balance(h: real, cL: real, cS: real, c0: real): real {
    (1.0 - h) * cL + h * cS - c0
  }

  function DiffA(ln: real -> real, q: Partition, a: real, b: real, c: real, d: real): real {
    SlopeA(ln, q.rt, q.L, a, b) - SlopeA(ln, q.rt, q.S, c, d)
  }

  function DiffB(ln: real -> real, q: Partition, a: real, b: real, c: real, d: real): real {
    SlopeB(ln, q.rt, q.L, a, b) - SlopeB(ln, q.rt, q.S, c, d)
  }

  // x = (cL, cS), two concentrations each.
  function PartitionRhs(ln: real -> real, q: Partition, x: Row): Row
    requires |x| == 4
  {
    [Balance(q.hphi, x[0], x[2], q.c0), Balance(q.hphi, x[1], x[3], q.c1),
     DiffA(ln, q, x[0], x[1], x[2], x[3]), DiffB(ln, q, x[0], x[1], x[2], x[3])]
  }

  function PartitionJac(q: Partition, x: Row): Matrix
    requires |x| == 4
  {
    var h := q.hphi;
    var lAA, lAB, lBB := CurvatureAA(q.rt, q.L, x[0], x[1]), CurvatureAB(q.rt, q.L, x[0], x[1]), CurvatureBB(q.rt, q.L, x[0], x[1]);
    var sAA, sAB, sBB := CurvatureAA(q.rt, q.S, x[2], x[3]), CurvatureAB(q.rt, q.S, x[2], x[3]), CurvatureBB(q.rt, q.S, x[2], x[3]);
    [[1.0 - h, 0.0, h, 0.0],
     [0.0, 1.0 - h, 0.0, h],
     [lAA, lAB, -sAA, -sAB],
     [lAB, lBB, -sAB, -sBB]]
  }

  class ConcSolverTernary {
    const ln: real -> real
    var q: Partition

    constructor (ln: real -> real, q: Partition)
      ensures this.ln == ln && this.q == q
    {
      this.ln := ln;
      this.q := q;
    }

    method RHS(c: array<real>, fvec: array<real>)
      requires c.Length == 4 && fvec.Length == 4 && c != fvec
      modifies fvec
      ensures fvec[..] == PartitionRhs(ln, q, c[..])
    {
      hide SlopeA, SlopeB;
      hide Balance;
      var eq0 := MassResidual(q.hphi, c[0], c[2], q.c0);
      var eq1 := MassResidual(q.hphi, c[1], c[3], q.c1);
      var dfLdA, dfLdB := ComputeSlopes(ln, q.rt, q.L, c[0], c[1]);
      var dfSdA, dfSdB := ComputeSlopes(ln, q.rt, q.S, c[2], c[3]);
      Fill4(fvec, eq0, eq1, dfLdA - dfSdA, dfLdB - dfSdB);
    }

    method MassResidual(h: real, cL: real, cS: real, c: real) returns (r: real)
      ensures r == Balance(h, cL, cS, c)
    {
      r := (1.0 - h) * cL + h * cS - c;
    }

    method Fill4(fvec: array<real>, r0: real, r1: real, r2: real, r3: real)
      requires fvec.Length == 4
      modifies fvec
      ensures fvec[..] == [r0, r1, r2, r3]
    {
      fvec[0] := r0;
      fvec[1] := r1;
      fvec[2] := r2;
      fvec[3] := r3;
    }

    method Jacobian(c: array<real>, fjac: array2<real>)
      requires c.Length == 4 && fjac.Length0 == fjac.Length1 == 4
      modifies fjac
      ensures N.Rows(fjac) == PartitionJac(q, c[..])
    {
      hide CurvatureAA, CurvatureAB, CurvatureBB;
      var lAA, lAB, lBB := ComputeCurvatures(q.rt, q.L, c[0], c[1]);
      var sAA, sAB, sBB := ComputeCurvatures(q.rt, q.S, c[2], c[3]);
      var h := q.hphi;
      N.SetRow(fjac, 0, [1.0 - h, 0.0, h, 0.0]);
      N.SetRow(fjac, 1, [0.0, 1.0 - h, 0.0, h]);
      N.SetRow(fjac, 2, [lAA, lAB, -sAA, -sAB]);
      N.SetRow(fjac, 3, [lAB, lBB, -sAB, -sBB]);
    }
  }

  /** What the four residuals measure: the excesses of both averages, and the differences of both slopes. */
  lemma PartitionResiduals(ln: real -> real, q: Partition, a: real, b: real, c: real, d: real)
    ensures var r := PartitionRhs(ln, q, [a, b, c, d]);
      && r[0] == (1.0 - q.hphi) * a + q.hphi * c - q.c0 && r[1] == (1.0 - q.hphi) * b + q.hphi * d - q.c1
      && r[2] == SlopeA(ln, q.rt, q.L, a, b) - SlopeA(ln, q.rt, q.S, c, d)
      && r[3] == SlopeB(ln, q.rt, q.L, a, b) - SlopeB(ln, q.rt, q.S, c, d)
  {
    hide SlopeA, SlopeB;
  }

  // Row i of the partition system as a function of unknown j alone.
  function PartitionEntry(ln: real -> real, q: Partition, x: Row, i: nat, j: nat, t: real): real
    requires |x| == 4 && i < 4 && j < 4
  {
    PartitionRhs(ln, q, x[j := t])[i]
  }

  /** Each of the 16 entries of the partition Jacobian is the exact partial derivative of its row. */
  lemma PartitionJacobianExact(ln: real -> real, q: Partition, x: Row, i: nat, j: nat)
    requires IsLog(ln) && |x| == 4 && i < 4 && j < 4
    ensures |PartitionJac(q, x)| == 4 && |PartitionJac(q, x)[i]| == 4
    ensures HasDeriv(t => PartitionEntry(ln, q, x, i, j, t), x[j], PartitionJac(q, x)[i][j])
  {
    hide HasDeriv, IsLog, SlopeA, SlopeB, CurvatureAA, CurvatureAB, CurvatureBB, PartitionEntry, PartitionJac;
    var f := t => PartitionEntry(ln, q, x, i, j, t);
    if i < 2 {
      PartitionBalanceEntry(ln, q, x, i, j, f);
    } else if j < 2 {
      TernarySlopesExact(ln, q.rt, q.L, x[0], x[1]);
      PartitionLiquidEntry(ln, q, x, i, j, f);
    } else {
      TernarySlopesExact(ln, q.rt, q.S, x[2], x[3]);
      PartitionSolidEntry(ln, q, x, i, j, f);
    }
    DerivSame(f, t => PartitionEntry(ln, q, x, i, j, t), x[j], PartitionJac(q, x)[i][j], PartitionJac(q, x)[i][j]);
  }

  lemma PartitionBalanceEntry(ln: real -> real, q: Partition, x: Row, i: nat, j: nat, f: real -> real)
    requires |x| == 4 && i < 2 && j < 4
    requires forall t :: f(t) == PartitionEntry(ln, q, x, i, j, t)
    ensures |PartitionJac(q, x)| == 4 && |PartitionJac(q, x)[i]| == 4
    ensures HasDeriv(f, x[j], PartitionJac(q, x)[i][j])
  {
    hide HasDeriv, DiffA, DiffB, CurvatureAA, CurvatureAB, CurvatureBB;
    var d := PartitionJac(q, x)[i][j];
    var c := if i == 0 then q.c0 else q.c1;
    var rest := if j == i then q.hphi * x[i + 2] else if j == i + 2 then (1.0 - q.hphi) * x[i]
                else (1.0 - q.hphi) * x[i] + q.hphi * x[i + 2];
    DerivLine(f, rest - c, d, x[j]);
  }

  lemma PartitionLiquidEntry(ln: real -> real, q: Partition, x: Row, i: nat, j: nat, f: real -> real)
    requires |x| == 4 && 2 <= i < 4 && j < 2
    requires forall t :: f(t) == PartitionEntry(ln, q, x, i, j, t)
    requires SlopesExactAt(ln, q.rt, q.L, x[0], x[1])
    ensures |PartitionJac(q, x)| == 4 && |PartitionJac(q, x)[i]| == 4
    ensures HasDeriv(f, x[j], PartitionJac(q, x)[i][j])
  {
    hide HasDeriv, SlopeA, SlopeB, CurvatureAA, CurvatureAB, CurvatureBB, Balance;
    var d := PartitionJac(q, x)[i][j];
    var s := if i == 2 then SlopeA(ln, q.rt, q.S, x[2], x[3]) else SlopeB(ln, q.rt, q.S, x[2], x[3]);
    if i == 2 && j == 0 {
      DerivAddLine(t => SlopeA(ln, q.rt, q.L, t, x[1]), f, x[0], d, -s, 0.0, d);
    } else if i == 2 {
      DerivAddLine(t => SlopeA(ln, q.rt, q.L, x[0], t), f, x[1], d, -s, 0.0, d);
    } else if j == 0 {
      DerivAddLine(t => SlopeB(ln, q.rt, q.L, t, x[1]), f, x[0], d, -s, 0.0, d);
    } else {
      DerivAddLine(t => SlopeB(ln, q.rt, q.L, x[0], t), f, x[1], d, -s, 0.0, d);
    }
  }

  ghost predicate SlopesExactAt(ln: real -> real, rt: real, p: TernaryPhase, cA: real, cB: real) {
    && HasDeriv(t => SlopeA(ln, rt, p, t, cB), cA, CurvatureAA(rt, p, cA, cB))
    && HasDeriv(t => SlopeA(ln, rt, p, cA, t), cB, CurvatureAB(rt, p, cA, cB))
    && HasDeriv(t => SlopeB(ln, rt, p, t, cB), cA, CurvatureAB(rt, p, cA, cB))
    && HasDeriv(t => SlopeB(ln, rt, p, cA, t), cB, CurvatureBB(rt, p, cA, cB))
  }

  lemma PartitionSolidEntry(ln: real -> real, q: Partition, x: Row, i: nat, j: nat, f: real -> real)
    requires |x| == 4 && 2 <= i < 4 && 2 <= j < 4
    requires forall t :: f(t) == PartitionEntry(ln, q, x, i, j, t)
    requires SlopesExactAt(ln, q.rt, q.S, x[2], x[3])
    ensures |PartitionJac(q, x)| == 4 && |PartitionJac(q, x)[i]| == 4
    ensures HasDeriv(f, x[j], PartitionJac(q, x)[i][j])
  {
    hide HasDeriv, SlopeA, SlopeB, CurvatureAA, CurvatureAB, CurvatureBB, Balance;
    var d := PartitionJac(q, x)[i][j];
    var s := if i == 2 then SlopeA(ln, q.rt, q.L, x[0], x[1]) else SlopeB(ln, q.rt, q.L, x[0], x[1]);
    if i == 2 && j == 2 {
      MinusSlope(t => SlopeA(ln, q.rt, q.S, t, x[3]), f, x[2], d, s);
    } else if i == 2 {
      MinusSlope(t => SlopeA(ln, q.rt, q.S, x[2], t), f, x[3], d, s);
    } else if j == 2 {
      MinusSlope(t => SlopeB(ln, q.rt, q.S, t, x[3]), f, x[2], d, s);
    } else {
      MinusSlope(t => SlopeB(ln, q.rt, q.S, x[2], t), f, x[3], d, s);
    }
  }

  // s - g.
  lemma MinusSlope(g: real -> real, f: real -> real, x: real, d: real, s: real)
    requires HasDeriv(g, x, -d) && forall t :: f(t) == s - g(t)
    ensures HasDeriv(f, x, d)
  {
    hide *;
    var m := DerivScale(g, -1.0, x, -d, d);
    DerivAddLine(m, f, x, d, s, 0.0, d);
  }

  // ----- the partition Jacobian is nonsingular -----

  // A symmetric 2x2 matrix (a, b; b, c) is positive definite, with determinant at least m.
  predicate PositiveHessian(a: real, b: real, c: real, m: real) {
    a > 0.0 && c > 0.0 && a * c - b * b >= m > 0.0
  }

  function MixedEntry(h: real, s: real, l: real): real {
    (1.0 - h) * s + h * l
  }

  /** The determinant of the 4x4 Jacobian is that of the Hessian (1 - h) H_S + h H_L. */
  lemma PartitionDeterminant(q: Partition, x: Row)
    requires |x| == 4
    ensures Square(PartitionJac(q, x))
    ensures var aa := MixedEntry(q.hphi, CurvatureAA(q.rt, q.S, x[2], x[3]), CurvatureAA(q.rt, q.L, x[0], x[1]));
      var ab := MixedEntry(q.hphi, CurvatureAB(q.rt, q.S, x[2], x[3]), CurvatureAB(q.rt, q.L, x[0], x[1]));
      var bb := MixedEntry(q.hphi, CurvatureBB(q.rt, q.S, x[2], x[3]), CurvatureBB(q.rt, q.L, x[0], x[1]));
      Det(PartitionJac(q, x)) == aa * bb - ab * ab
  {
    hide CurvatureAA, CurvatureAB, CurvatureBB, Det, MixedEntry;
    N.Det4(PartitionJac(q, x));
    BlockDeterminant(q.hphi, PartitionJac(q, x),
      CurvatureAA(q.rt, q.L, x[0], x[1]), CurvatureAB(q.rt, q.L, x[0], x[1]), CurvatureBB(q.rt, q.L, x[0], x[1]),
      CurvatureAA(q.rt, q.S, x[2], x[3]), CurvatureAB(q.rt, q.S, x[2], x[3]), CurvatureBB(q.rt, q.S, x[2], x[3]));
  }

  lemma BlockDeterminant(h: real, m: Matrix, lA: real, lX: real, lB: real, sA: real, sX: real, sB: real)
    requires m == [[1.0 - h, 0.0, h, 0.0], [0.0, 1.0 - h, 0.0, h], [lA, lX, -sA, -sX], [lX, lB, -sX, -sB]]
    ensures N.Determinant4(m) == MixedEntry(h, sA, lA) * MixedEntry(h, sB, lB) - MixedEntry(h, sX, lX) * MixedEntry(h, sX, lX)
  {}

  /** Mixing two positive definite Hessians cannot lower the determinant below the smaller of the two. */
  lemma MixedDeterminant(h: real, a: real, b: real, c: real, a': real, b': real, c': real, m: real)
    requires 0.0 <= h <= 1.0 && PositiveHessian(a, b, c, m) && PositiveHessian(a', b', c', m)
    ensures MixedEntry(h, a, a') * MixedEntry(h, c, c') - MixedEntry(h, b, b') * MixedEntry(h, b, b') >= m
  {
    hide MixedEntry;
    var x := a * c' + a' * c - 2.0 * (b * b');
    CrossTerm(a, b, c, a', b', c', m);
    var d := MixedExpand(h, a, b, c, a', b', c');
    var k := 1.0 - h;
    NonNegativeProduct(k, k);
    NonNegativeProduct(h, h);
    NonNegativeProduct(k, h);
    WeightedSquares(k * k, h * h, k * h, a * c - b * b, a' * c' - b' * b', x, m, d);
  }

  lemma MixedExpand(h: real, a: real, b: real, c: real, a': real, b': real, c': real) returns (d: real)
    ensures d == MixedEntry(h, a, a') * MixedEntry(h, c, c') - MixedEntry(h, b, b') * MixedEntry(h, b, b')
    ensures d == (1.0 - h) * (1.0 - h) * (a * c - b * b) + h * h * (a' * c' - b' * b')
      + (1.0 - h) * h * (a * c' + a' * c - 2.0 * (b * b'))
  {
    d := MixedEntry(h, a, a') * MixedEntry(h, c, c') - MixedEntry(h, b, b') * MixedEntry(h, b, b');
  }

  // Weights of the form k^2, h^2 and k h with k + h == 1.
  lemma WeightedSquares(kk: real, hh: real, kh: real, p: real, q: real, x: real, m: real, d: real)
    requires kk >= 0.0 && hh >= 0.0 && kh >= 0.0 && kk + hh + 2.0 * kh == 1.0
    requires p >= m && q >= m && x >= 2.0 * m
    requires d == kk * p + hh * q + kh * x
    ensures d >= m
  {
    NonNegativeProduct(kk, p - m);
    NonNegativeProduct(hh, q - m);
    NonNegativeProduct(kh, x - 2.0 * m);
    assert d - (kk + hh + 2.0 * kh) * m == kk * (p - m) + hh * (q - m) + kh * (x - 2.0 * m);
  }

  lemma ScaleProduct(k: real, h: real, x: real, y: real)
    requires k >= 0.0 && h >= 0.0 && x >= y
    ensures k * h * x >= k * h * y
  {
    NonNegativeProduct(k, h);
    NonNegativeProduct(k * h, x - y);
  }

  lemma AbsBounds(x: real)
    ensures Abs(x) >= x && Abs(x) >= 0.0
  {}

  lemma CrossTerm(a: real, b: real, c: real, a': real, b': real, c': real, m: real)
    requires PositiveHessian(a, b, c, m) && PositiveHessian(a', b', c', m)
    ensures a * c' + a' * c - 2.0 * (b * b') >= 2.0 * m
  {
    hide Abs;
    var z := Abs(b * b');
    AbsBounds(b * b');
    ProductBound(a * c, a' * c', b, b', m);
    MeanBound(a, c', a', c, z + m);
  }

  // (b^2 + m)(b'^2 + m) >= (|b b'| + m)^2.
  lemma ProductBound(u: real, v: real, b: real, b': real, m: real)
    requires m > 0.0 && u - b * b >= m && v - b' * b' >= m
    ensures u * v >= (Abs(b * b') + m) * (Abs(b * b') + m)
  {
    var p, q := b * b + m, b' * b' + m;
    assert p > 0.0 && q > 0.0;
    assert u * v >= p * q by { assert (u - p) * v >= 0.0 && p * (v - q) >= 0.0; }
    var z := b * b';
    assert p * q == z * z + m * (b * b + b' * b') + m * m;
    assert b * b + b' * b' >= 2.0 * Abs(z) by { SquareGap(b, b'); }
    ScaleProduct(1.0, m, b * b + b' * b', 2.0 * Abs(z));
    assert Abs(z) * Abs(z) == z * z;
  }

  lemma SquareGap(b: real, b': real)
    ensures b * b + b' * b' >= 2.0 * (b * b') && b * b + b' * b' >= -2.0 * (b * b')
  {
    NonNegativeSquare(b - b');
    NonNegativeSquare(b + b');
  }

  // The geometric mean of u v and w y is at most their arithmetic mean.
  lemma MeanBound(u: real, v: real, w: real, y: real, t: real)
    requires u > 0.0 && v > 0.0 && w > 0.0 && y > 0.0 && t > 0.0 && (u * y) * (w * v) >= t * t
    ensures u * v + w * y >= 2.0 * t
  {
    var p, q := u * v, w * y;
    assert p > 0.0 && q > 0.0;
    assert p * q == (u * y) * (w * v);
    var s := p + q;
    assert s * s == (p - q) * (p - q) + 4.0 * (p * q);
    NonNegativeSquare(p - q);
    SquareOrder(s, 2.0 * t);
  }

  lemma SquareOrder(s: real, r: real)
    requires s > 0.0 && r > 0.0 && s * s >= r * r
    ensures s >= r
  {
    assert (s - r) * (s + r) >= 0.0;
  }

  /** With positive definite phase Hessians the 4x4 system is nonsingular for every phase fraction. */
  lemma PartitionNonsingular(q: Partition, x: Row, m: real)
    requires |x| == 4 && 0.0 <= q.hphi <= 1.0
    requires PositiveHessian(CurvatureAA(q.rt, q.L, x[0], x[1]), CurvatureAB(q.rt, q.L, x[0], x[1]), CurvatureBB(q.rt, q.L, x[0], x[1]), m)
    requires PositiveHessian(CurvatureAA(q.rt, q.S, x[2], x[3]), CurvatureAB(q.rt, q.S, x[2], x[3]), CurvatureBB(q.rt, q.S, x[2], x[3]), m)
    ensures Square(PartitionJac(q, x)) && Det(PartitionJac(q, x)) >= m
    ensures m > N.DET_TOLERANCE ==> N.Regular(PartitionJac(q, x))
  {
    hide CurvatureAA, CurvatureAB, CurvatureBB, Det, MixedEntry, PositiveHessian, PartitionJac;
    PartitionDeterminant(q, x);
    MixedDeterminant(q.hphi,
      CurvatureAA(q.rt, q.S, x[2], x[3]), CurvatureAB(q.rt, q.S, x[2], x[3]), CurvatureBB(q.rt, q.S, x[2], x[3]),
      CurvatureAA(q.rt, q.L, x[0], x[1]), CurvatureAB(q.rt, q.L, x[0], x[1]), CurvatureBB(q.rt, q.L, x[0], x[1]), m);
  }

  // ----- mass balance and meaning of the partition -----

  function PartitionSystem(ln: real -> real, q: Partition): N.System {
    N.System(4, x => if |x| == 4 then PartitionRhs(ln, q, x) else [], x => if |x| == 4 then PartitionJac(q, x) else [])
  }

  // The weights of the liquid and solid concentration of species s.
  function BalanceWeights(h: real, s: nat): (r: Row)
    requires s < 2
    ensures |r| == 4
  {
    if s == 0 then [1.0 - h, 0.0, h, 0.0] else [0.0, 1.0 - h, 0.0, h]
  }

  function Target(q: Partition, s: nat): real {
    if s == 0 then q.c0 else q.c1
  }

  lemma PartitionSystemShape(ln: real -> real, q: Partition, s: nat)
    requires s < 2
    ensures N.WellFormed(PartitionSystem(ln, q))
    ensures N.AffineRow(PartitionSystem(ln, q), s, BalanceWeights(q.hphi, s), Target(q, s))
  {
    hide PartitionRhs, PartitionJac, N.Dot, Det, BalanceWeights, Target, Square;
    var y, w, b := PartitionSystem(ln, q), BalanceWeights(q.hphi, s), Target(q, s);
    forall x: Row | |x| == 4
      ensures |y.rhs(x)| == 4 && |y.jac(x)| == 4 && Square(y.jac(x))
      ensures y.rhs(x)[s] == N.Dot(w, x) - b && y.jac(x)[s] == w
    {
      PartitionSystemAt(ln, q, x, s);
    }
  }

  lemma PartitionSystemAt(ln: real -> real, q: Partition, x: Row, s: nat)
    requires |x| == 4 && s < 2
    ensures |PartitionRhs(ln, q, x)| == 4 && |PartitionJac(q, x)| == 4 && Square(PartitionJac(q, x))
    ensures PartitionRhs(ln, q, x)[s] == N.Dot(BalanceWeights(q.hphi, s), x) - Target(q, s)
    ensures PartitionJac(q, x)[s] == BalanceWeights(q.hphi, s)
  {
    hide DiffA, DiffB, CurvatureAA, CurvatureAB, CurvatureBB, N.Dot;
    N.Dot4(BalanceWeights(q.hphi, s), x);
  }

  /** In every unclamped run each of the two average compositions approaches its target by a factor 1 - alpha a step. */
  lemma PartitionMassBalance(ln: real -> real, q: Partition, alpha: real, x: Row, k: nat, s: nat)
    requires |x| == 4 && s < 2 && N.WellFormed(PartitionSystem(ln, q))
    requires N.Runs(PartitionSystem(ln, q), alpha, x, k) && N.UnclampedRun(PartitionSystem(ln, q), alpha, x, k)
    ensures var y := N.Iterate(PartitionSystem(ln, q), alpha, x, k);
      Balance(q.hphi, y[s], y[s + 2], Target(q, s))
      == N.Power(1.0 - alpha, k) * Balance(q.hphi, x[s], x[s + 2], Target(q, s))
  {
    hide N.Power, N.Runs, N.UnclampedRun, N.Iterate, N.WellFormed, N.AffineRow, DiffA, DiffB, Balance;
    PartitionSystemShape(ln, q, s);
    N.MassBalance(PartitionSystem(ln, q), alpha, x, k, s, BalanceWeights(q.hphi, s), Target(q, s));
  }

  // A phase as an energy over points, with its two slopes.

  function EnergyAt(ln: real -> real, rt: real, p: TernaryPhase): Q.Point -> real {
    (x: Q.Point) => Energy3(ln, rt, p, x.a, x.b)
  }

  function SlopesAt(ln: real -> real, rt: real, p: TernaryPhase): Q.Point -> Q.Point {
    (x: Q.Point) => Q.Point(SlopeA(ln, rt, p, x.a, x.b), SlopeB(ln, rt, p, x.a, x.b))
  }

  function Liquid(x: Row): Q.Point
    requires |x| >= 4
  {
    Q.Point(x[0], x[1])
  }

  function Solid(x: Row): Q.Point
    requires |x| >= 4
  {
    Q.Point(x[2], x[3])
  }

  lemma PartitionRows(ln: real -> real, q: Partition, x: Row)
    requires |x| == 4
    ensures PartitionRhs(ln, q, x) == [0.0, 0.0, 0.0, 0.0] <==>
      (Balance(q.hphi, x[0], x[2], q.c0) == 0.0 && Balance(q.hphi, x[1], x[3], q.c1) == 0.0
       && SlopesAt(ln, q.rt, q.L)(Liquid(x)) == SlopesAt(ln, q.rt, q.S)(Solid(x)))
  {
    hide SlopeA, SlopeB, Balance;
  }

  lemma SameTargets(q: Partition, x: Row, y: Row)
    requires |x| == |y| == 4
    requires Balance(q.hphi, x[0], x[2], q.c0) == 0.0 && Balance(q.hphi, x[1], x[3], q.c1) == 0.0
    requires Balance(q.hphi, y[0], y[2], q.c0) == 0.0 && Balance(q.hphi, y[1], y[3], q.c1) == 0.0
    ensures Q.SameAverage(q.hphi, Liquid(x), Solid(x), q.hphi, Liquid(y), Solid(y))
  {}

  lemma SlopesDot(ln: real -> real, rt: real, p: TernaryPhase, x: Q.Point, s: Q.Point)
    ensures M.Dot(SlopesAt(ln, rt, p)(x), s) == s.a * SlopeA(ln, rt, p, x.a, x.b) + s.b * SlopeB(ln, rt, p, x.a, x.b)
  {
    hide SlopeA, SlopeB;
  }

  lemma HasGradient(ln: real -> real, rt: real, p: TernaryPhase, x: Q.Point)
    requires IsLog(ln)
    ensures M.HasGradient(EnergyAt(ln, rt, p), x, SlopesAt(ln, rt, p)(x))
  {
    hide HasDeriv, IsLog, Energy3, SlopeA, SlopeB, Line;
    forall s: Q.Point
      ensures HasDeriv(M.On(EnergyAt(ln, rt, p), x, s), 0.0, M.Dot(SlopesAt(ln, rt, p)(x), s))
    {
      var f := M.On(EnergyAt(ln, rt, p), x, s);
      forall t
        ensures f(t) == Energy3(ln, rt, p, Line(x.a, s.a, t), Line(x.b, s.b, t))
      {
        assert f(t) == EnergyAt(ln, rt, p)(M.Step(x, s, t));
      }
      SlopesDot(ln, rt, p, x, s);
      TernaryEnergyAlong(ln, rt, p, x.a, s.a, x.b, s.b, f, M.Dot(SlopesAt(ln, rt, p)(x), s));
    }
  }

  /** For 0 < h < 1 and compositions inside the domain, the zeros are exactly the pairs of least energy. */
  lemma PartitionIffLeast(ln: real -> real, q: Partition, dom: Q.Point -> bool, x: Row, r: real)
    requires IsLog(ln) && |x| == 4 && 0.0 < q.hphi < 1.0
    requires Q.StrictlyConvex2(EnergyAt(ln, q.rt, q.L), SlopesAt(ln, q.rt, q.L), dom)
    requires Q.StrictlyConvex2(EnergyAt(ln, q.rt, q.S), SlopesAt(ln, q.rt, q.S), dom)
    requires M.Inside2(dom, Liquid(x), r) && M.Inside2(dom, Solid(x), r)
    requires Balance(q.hphi, x[0], x[2], q.c0) == 0.0 && Balance(q.hphi, x[1], x[3], q.c1) == 0.0
    ensures PartitionRhs(ln, q, x) == [0.0, 0.0, 0.0, 0.0]
      <==> M.LeastPartition2(EnergyAt(ln, q.rt, q.L), EnergyAt(ln, q.rt, q.S), dom, q.hphi, Liquid(x), Solid(x))
  {
    hide IsLog, EnergyAt, SlopesAt, Q.StrictlyConvex2, M.Inside2, M.HasGradient, M.LeastPartition2, PartitionRhs, Balance;
    PartitionRows(ln, q, x);
    HasGradient(ln, q.rt, q.L, Liquid(x));
    HasGradient(ln, q.rt, q.S, Solid(x));
    M.PartitionIffLeast2(EnergyAt(ln, q.rt, q.L), SlopesAt(ln, q.rt, q.L), EnergyAt(ln, q.rt, q.S), SlopesAt(ln, q.rt, q.S),
                         dom, q.hphi, Liquid(x), Solid(x), r);
  }

  /**
   For convex phases at most one zero exists, and it has the least energy (1 - h) f_L + h f_S among
   all pairs of the same average composition.
   */
  lemma PartitionZero(ln: real -> real, q: Partition, dom: Q.Point -> bool, x: Row, y: Row)
    requires |x| == |y| == 4 && 0.0 <= q.hphi <= 1.0
    requires Q.StrictlyConvex2(EnergyAt(ln, q.rt, q.L), SlopesAt(ln, q.rt, q.L), dom)
    requires Q.StrictlyConvex2(EnergyAt(ln, q.rt, q.S), SlopesAt(ln, q.rt, q.S), dom)
    requires dom(Liquid(x)) && dom(Solid(x)) && dom(Liquid(y)) && dom(Solid(y))
    requires PartitionRhs(ln, q, x) == [0.0, 0.0, 0.0, 0.0]
    ensures PartitionRhs(ln, q, y) == [0.0, 0.0, 0.0, 0.0] ==> y == x
    ensures Balance(q.hphi, y[0], y[2], q.c0) == 0.0 && Balance(q.hphi, y[1], y[3], q.c1) == 0.0 ==>
      (1.0 - q.hphi) * Energy3(ln, q.rt, q.L, y[0], y[1]) + q.hphi * Energy3(ln, q.rt, q.S, y[2], y[3])
      >= (1.0 - q.hphi) * Energy3(ln, q.rt, q.L, x[0], x[1]) + q.hphi * Energy3(ln, q.rt, q.S, x[2], x[3])
  {
    hide Energy3, SlopesAt, Q.StrictlyConvex2, PartitionRhs, Balance, Q.SameAverage;
    PartitionRows(ln, q, x);
    PartitionRows(ln, q, y);
    var fL, dL := EnergyAt(ln, q.rt, q.L), SlopesAt(ln, q.rt, q.L);
    var fS, dS := EnergyAt(ln, q.rt, q.S), SlopesAt(ln, q.rt, q.S);
    if Balance(q.hphi, y[0], y[2], q.c0) == 0.0 && Balance(q.hphi, y[1], y[3], q.c1) == 0.0 {
      SameTargets(q, x, y);
      Q.PartitionMinimal2(fL, dL, fS, dS, dom, q.hphi, Liquid(x), Solid(x), Liquid(y), Solid(y));
      if PartitionRhs(ln, q, y) == [0.0, 0.0, 0.0, 0.0] {
        Q.PartitionUnique2(fL, dL, fS, dS, dom, q.hphi, Liquid(x), Solid(x), Liquid(y), Solid(y));
      }
    }
  }

  // ----- the common tangent plane with the lever rule -----

  datatype Equilibrium = Equilibrium(rt: real, c0: real, c1: real, L: TernaryPhase, S: TernaryPhase)

  // The partition with phase fraction phi that an equilibrium also solves.
  function AsPartition(e: Equilibrium, phi: real): Partition {
    Partition(e.rt, e.c0, e.c1, phi, e.L, e.S)
  }

  // fL - fS - (cL - cS).dfL.
  function Chord(ln: real -> real, e: Equilibrium, a: real, b: real, c: real, d: real): real {
    Energy3(ln, e.rt, e.L, a, b) - Energy3(ln, e.rt, e.S, c, d)
    - (a - c) * SlopeA(ln, e.rt, e.L, a, b)
    - (b - d) * SlopeB(ln, e.rt, e.L, a, b)
  }

  function ChordDA(e: Equilibrium, a: real, b: real, c: real, d: real): real {
    -(a - c) * CurvatureAA(e.rt, e.L, a, b) - (b - d) * CurvatureAB(e.rt, e.L, a, b)
  }

  function ChordDB(e: Equilibrium, a: real, b: real, c: real, d: real): real {
    -(a - c) * CurvatureAB(e.rt, e.L, a, b) - (b - d) * CurvatureBB(e.rt, e.L, a, b)
  }

  // x = (cL, cS, phi).
  function EquilibriumRhs(ln: real -> real, e: Equilibrium, x: Row): Row
    requires |x| == 5
  {
    var q := AsPartition(e, x[4]);
    [Chord(ln, e, x[0], x[1], x[2], x[3]),
     DiffA(ln, q, x[0], x[1], x[2], x[3]), DiffB(ln, q, x[0], x[1], x[2], x[3]),
     Balance(x[4], x[0], x[2], e.c0), Balance(x[4], x[1], x[3], e.c1)]
  }

  function EquilibriumJac(ln: real -> real, e: Equilibrium, x: Row): Matrix
    requires |x| == 5
  {
    var lAA, lAB, lBB := CurvatureAA(e.rt, e.L, x[0], x[1]), CurvatureAB(e.rt, e.L, x[0], x[1]), CurvatureBB(e.rt, e.L, x[0], x[1]);
    var sAA, sAB, sBB := CurvatureAA(e.rt, e.S, x[2], x[3]), CurvatureAB(e.rt, e.S, x[2], x[3]), CurvatureBB(e.rt, e.S, x[2], x[3]);
    [[ChordDA(e, x[0], x[1], x[2], x[3]), ChordDB(e, x[0], x[1], x[2], x[3]),
      SlopeA(ln, e.rt, e.L, x[0], x[1]) - SlopeA(ln, e.rt, e.S, x[2], x[3]),
      SlopeB(ln, e.rt, e.L, x[0], x[1]) - SlopeB(ln, e.rt, e.S, x[2], x[3]), 0.0],
     [lAA, lAB, -sAA, -sAB, 0.0],
     [lAB, lBB, -sAB, -sBB, 0.0],
     [1.0 - x[4], 0.0, x[4], 0.0, x[2] - x[0]],
     [0.0, 1.0 - x[4], 0.0, x[4], x[3] - x[1]]]
  }

  class EqPhaseConcSolverTernary {
    const ln: real -> real
    var e: Equilibrium

    constructor (ln: real -> real, e: Equilibrium)
      ensures this.ln == ln && this.e == e
    {
      this.ln := ln;
      this.e := e;
    }

    method RHS(x: array<real>, fvec: array<real>)
      requires x.Length == 5 && fvec.Length == 5 && x != fvec
      modifies fvec
      ensures fvec[..] == EquilibriumRhs(ln, e, x[..])
    {
      hide SlopeA, SlopeB, Energy3, Chord, Balance;
      var cL0, cL1, cS0, cS1, phi := x[0], x[1], x[2], x[3], x[4];
      var dfLdA, dfLdB := ComputeSlopes(ln, e.rt, e.L, cL0, cL1);
      var dfSdA, dfSdB := ComputeSlopes(ln, e.rt, e.S, cS0, cS1);
      fvec[0] := ComputeChord(cL0, cL1, cS0, cS1, dfLdA, dfLdB);
      // equal chemical potentials
      fvec[1] := dfLdA - dfSdA;
      fvec[2] := dfLdB - dfSdB;
      fvec[3] := Lever(phi, cL0, cS0, e.c0);
      fvec[4] := Lever(phi, cL1, cS1, e.c1);
    }

    method ComputeChord(cL0: real, cL1: real, cS0: real, cS1: real, dfLdA: real, dfLdB: real) returns (r: real)
      requires dfLdA == SlopeA(ln, e.rt, e.L, cL0, cL1) && dfLdB == SlopeB(ln, e.rt, e.L, cL0, cL1)
      ensures r == Chord(ln, e, cL0, cL1, cS0, cS1)
    {
      hide SlopeA, SlopeB, FIdealMixTernary, FMixTernary;
      var fL := cL0 * e.L.fA + cL1 * e.L.fB + (1.0 - cL0 - cL1) * e.L.fC
        + FIdealMixTernary(ln, e.rt, cL0, cL1)
        + FMixTernary(e.L.k, cL0, cL1);
      var fS := cS0 * e.S.fA + cS1 * e.S.fB + (1.0 - cS0 - cS1) * e.S.fC
        + FIdealMixTernary(ln, e.rt, cS0, cS1)
        + FMixTernary(e.S.k, cS0, cS1);
      assert fL == Energy3(ln, e.rt, e.L, cL0, cL1) && fS == Energy3(ln, e.rt, e.S, cS0, cS1);
      hide Energy3;
      r := fL - fS - (cL0 - cS0) * dfLdA - (cL1 - cS1) * dfLdB;
    }

    method Lever(phi: real, cL: real, cS: real, c: real) returns (r: real)
      ensures r == Balance(phi, cL, cS, c)
    {
      r := phi * cS + (1.0 - phi) * cL - c;
    }

    method Jacobian(x: array<real>, fjac: array2<real>)
      requires x.Length == 5 && fjac.Length0 == fjac.Length1 == 5
      modifies fjac
      ensures N.Rows(fjac) == EquilibriumJac(ln, e, x[..])
    {
      hide CurvatureAA, CurvatureAB, CurvatureBB, SlopeA, SlopeB, ChordDA, ChordDB;
      var cL0, cL1, cS0, cS1, phi := x[0], x[1], x[2], x[3], x[4];
      var lAA, lAB, lBB := ComputeCurvatures(e.rt, e.L, cL0, cL1);
      var sAA, sAB, sBB := ComputeCurvatures(e.rt, e.S, cS0, cS1);
      var r0, r1, r2, r3 := JacobianRow0(cL0, cL1, cS0, cS1, lAA, lAB, lBB);
      N.SetRow(fjac, 0, [r0, r1, r2, r3, 0.0]);
      N.SetRow(fjac, 1, [lAA, lAB, -sAA, -sAB, 0.0]);
      N.SetRow(fjac, 2, [lAB, lBB, -sAB, -sBB, 0.0]);
      N.SetRow(fjac, 3, [1.0 - phi, 0.0, phi, 0.0, cS0 - cL0]);
      N.SetRow(fjac, 4, [0.0, 1.0 - phi, 0.0, phi, cS1 - cL1]);
    }

    // Row 0: the liquid slopes are added and subtracted again in the liquid columns.
    method JacobianRow0(cL0: real, cL1: real, cS0: real, cS1: real, lAA: real, lAB: real, lBB: real)
      returns (r0: real, r1: real, r2: real, r3: real)
      requires lAA == CurvatureAA(e.rt, e.L, cL0, cL1) && lAB == CurvatureAB(e.rt, e.L, cL0, cL1)
      requires lBB == CurvatureBB(e.rt, e.L, cL0, cL1)
      ensures r0 == ChordDA(e, cL0, cL1, cS0, cS1) && r1 == ChordDB(e, cL0, cL1, cS0, cS1)
      ensures r2 == SlopeA(ln, e.rt, e.L, cL0, cL1) - SlopeA(ln, e.rt, e.S, cS0, cS1)
      ensures r3 == SlopeB(ln, e.rt, e.L, cL0, cL1) - SlopeB(ln, e.rt, e.S, cS0, cS1)
    {
      hide CurvatureAA, CurvatureAB, CurvatureBB, FIdealMixA, FIdealMixB, MixA, MixB;
      var idealL, idealS := new real[2], new real[2];
      var mixL, mixS := new real[2], new real[2];
      FIdealMixDerivTernary(ln, e.rt, cL0, cL1, idealL);
      FMixDerivTernary(e.L.k, cL0, cL1, mixL);
      FIdealMixDerivTernary(ln, e.rt, cS0, cS1, idealS);
      FMixDerivTernary(e.S.k, cS0, cS1, mixS);
      assert idealL[..][0] == idealL[0] && idealL[..][1] == idealL[1];
      assert idealS[..][0] == idealS[0] && idealS[..][1] == idealS[1];
      var dfLdA := e.L.fA - e.L.fC + mixL[0] + idealL[0];
      var dfLdB := e.L.fB - e.L.fC + mixL[1] + idealL[1];
      r0 := e.L.fA - e.L.fC + idealL[0] + mixL[0] - dfLdA - (cL0 - cS0) * lAA - (cL1 - cS1) * lAB;
      r1 := e.L.fB - e.L.fC + idealL[1] + mixL[1] - dfLdB - (cL0 - cS0) * lAB - (cL1 - cS1) * lBB;
      r2 := -e.S.fA + e.S.fC - idealS[0] - mixS[0] + dfLdA;
      r3 := -e.S.fB + e.S.fC - idealS[1] - mixS[1] + dfLdB;
    }
  }

  /**
   What the five residuals measure: the depth of f_S at (c, d) below the tangent plane of f_L at (a, b),
   the differences of both slopes, and the excesses of both averages.
   */
  lemma EquilibriumResiduals(ln: real -> real, e: Equilibrium, a: real, b: real, c: real, d: real, phi: real)
    ensures var r := EquilibriumRhs(ln, e, [a, b, c, d, phi]);
      && r[0] == Energy3(ln, e.rt, e.L, a, b) + SlopeA(ln, e.rt, e.L, a, b) * (c - a) + SlopeB(ln, e.rt, e.L, a, b) * (d - b)
                 - Energy3(ln, e.rt, e.S, c, d)
      && r[1] == SlopeA(ln, e.rt, e.L, a, b) - SlopeA(ln, e.rt, e.S, c, d)
      && r[2] == SlopeB(ln, e.rt, e.L, a, b) - SlopeB(ln, e.rt, e.S, c, d)
      && r[3] == (1.0 - phi) * a + phi * c - e.c0 && r[4] == (1.0 - phi) * b + phi * d - e.c1
  {
    hide Energy3, SlopeA, SlopeB;
  }

  /**
   Raising the reference energies of the solid by x, y and z lowers the first residual by their mean at
   the solid composition, and the slope residuals by x - z and y - z.
   */
  lemma EquilibriumShift(ln: real -> real, e: Equilibrium, x: real, y: real, z: real, a: real, b: real, c: real, d: real, phi: real)
    ensures var g := e.(S := e.S.(fA := e.S.fA + x, fB := e.S.fB + y, fC := e.S.fC + z));
      var r, t := EquilibriumRhs(ln, e, [a, b, c, d, phi]), EquilibriumRhs(ln, g, [a, b, c, d, phi]);
      && t[0] == r[0] - (c * x + d * y + (1.0 - c - d) * z)
      && t[1] == r[1] - (x - z) && t[2] == r[2] - (y - z) && t[3..] == r[3..]
  {
    hide Energy3, SlopeA, SlopeB;
    ReferenceShift3(ln, e.rt, e.S, x, y, z, c, d);
  }

  // Row i of the equilibrium system as a function of unknown j alone.
  function EquilibriumEntry(ln: real -> real, e: Equilibrium, x: Row, i: nat, j: nat, t: real): real
    requires |x| == 5 && i < 5 && j < 5
  {
    EquilibriumRhs(ln, e, x[j := t])[i]
  }

  /** Each of the 25 entries of the equilibrium Jacobian is the exact partial derivative of its row. */
  lemma EquilibriumJacobianExact(ln: real -> real, e: Equilibrium, x: Row, i: nat, j: nat)
    requires IsLog(ln) && |x| == 5 && i < 5 && j < 5
    ensures |EquilibriumJac(ln, e, x)| == 5 && |EquilibriumJac(ln, e, x)[i]| == 5
    ensures HasDeriv(t => EquilibriumEntry(ln, e, x, i, j, t), x[j], EquilibriumJac(ln, e, x)[i][j])
  {
    hide HasDeriv, IsLog, EquilibriumEntry, EquilibriumJac;
    var f := t => EquilibriumEntry(ln, e, x, i, j, t);
    if j == 4 {
      LeverColumn(ln, e, x, i, f);
    } else if i == 0 {
      TernaryEnergyExact(ln, e.rt, e.L, x[0], x[1]);
      TernaryEnergyExact(ln, e.rt, e.S, x[2], x[3]);
      TernarySlopesExact(ln, e.rt, e.L, x[0], x[1]);
      ChordRow(ln, e, x, j, f);
    } else {
      SharedRow(ln, e, x, i, j, f);
    }
    DerivSame(f, t => EquilibriumEntry(ln, e, x, i, j, t), x[j], EquilibriumJac(ln, e, x)[i][j], EquilibriumJac(ln, e, x)[i][j]);
  }

  // The phase fraction enters only the lever rule.
  lemma LeverColumn(ln: real -> real, e: Equilibrium, x: Row, i: nat, f: real -> real)
    requires |x| == 5 && i < 5
    requires forall t :: f(t) == EquilibriumEntry(ln, e, x, i, 4, t)
    ensures |EquilibriumJac(ln, e, x)| == 5 && |EquilibriumJac(ln, e, x)[i]| == 5
    ensures HasDeriv(f, x[4], EquilibriumJac(ln, e, x)[i][4])
  {
    hide HasDeriv, Chord, SlopeA, SlopeB, CurvatureAA, CurvatureAB, CurvatureBB, ChordDA, ChordDB;
    if i < 3 {
      forall t
        ensures f(t) == f(0.0) + 0.0 * t
      {}
      DerivLine(f, f(0.0), 0.0, x[4]);
    } else {
      var c := if i == 3 then e.c0 else e.c1;
      DerivLine(f, x[i - 3] - c, x[i - 1] - x[i - 3], x[4]);
    }
  }

  // The row of the partition system that row i >= 1 repeats.
  function PartitionRowOf(i: nat): (r: nat)
    requires 1 <= i < 5
    ensures r < 4
  {
    if i < 3 then i + 1 else i - 3
  }

  lemma SharedRow(ln: real -> real, e: Equilibrium, x: Row, i: nat, j: nat, f: real -> real)
    requires IsLog(ln) && |x| == 5 && 1 <= i < 5 && j < 4
    requires forall t :: f(t) == EquilibriumEntry(ln, e, x, i, j, t)
    ensures |EquilibriumJac(ln, e, x)| == 5 && |EquilibriumJac(ln, e, x)[i]| == 5
    ensures HasDeriv(f, x[j], EquilibriumJac(ln, e, x)[i][j])
  {
    hide HasDeriv, IsLog, EquilibriumEntry, PartitionEntry, PartitionJac, EquilibriumJac, PartitionRowOf;
    var q, y, r := AsPartition(e, x[4]), x[..4], PartitionRowOf(i);
    PartitionJacobianExact(ln, q, y, r, j);
    var g := t => PartitionEntry(ln, q, y, r, j, t);
    forall t
      ensures g(t) == f(t)
    {
      SharedEntry(ln, e, x, i, j, t);
    }
    SharedJac(ln, e, x, i, j);
    DerivSame(g, f, x[j], PartitionJac(q, y)[r][j], EquilibriumJac(ln, e, x)[i][j]);
  }

  lemma SharedEntry(ln: real -> real, e: Equilibrium, x: Row, i: nat, j: nat, t: real)
    requires |x| == 5 && 1 <= i < 5 && j < 4
    ensures PartitionEntry(ln, AsPartition(e, x[4]), x[..4], PartitionRowOf(i), j, t) == EquilibriumEntry(ln, e, x, i, j, t)
  {
    hide DiffA, DiffB, Balance, Chord;
    var y, z := x[..4][j := t], x[j := t];
    assert forall k :: 0 <= k < 4 ==> y[k] == z[k];
    assert z[4] == x[4];
    SameDiff(ln, AsPartition(e, x[4]), y, z);
  }

  lemma SameDiff(ln: real -> real, q: Partition, y: Row, z: Row)
    requires |y| == 4 && |z| == 5 && forall k :: 0 <= k < 4 ==> y[k] == z[k]
    ensures DiffA(ln, q, y[0], y[1], y[2], y[3]) == DiffA(ln, q, z[0], z[1], z[2], z[3])
    ensures DiffB(ln, q, y[0], y[1], y[2], y[3]) == DiffB(ln, q, z[0], z[1], z[2], z[3])
  {}

  lemma SharedJac(ln: real -> real, e: Equilibrium, x: Row, i: nat, j: nat)
    requires |x| == 5 && 1 <= i < 5 && j < 4
    ensures var m, q := PartitionJac(AsPartition(e, x[4]), x[..4]), EquilibriumJac(ln, e, x);
      && |m| == 4 && |q| == 5 && |m[PartitionRowOf(i)]| == 4 && |q[i]| == 5
      && m[PartitionRowOf(i)][j] == q[i][j]
  {
    hide CurvatureAA, CurvatureAB, CurvatureBB, ChordDA, ChordDB, SlopeA, SlopeB;
  }

  // f and its slopes at the liquid composition, along each axis.
  ghost predicate EnergyExactAt(ln: real -> real, rt: real, p: TernaryPhase, cA: real, cB: real) {
    && HasDeriv(t => Energy3(ln, rt, p, t, cB), cA, SlopeA(ln, rt, p, cA, cB))
    && HasDeriv(t => Energy3(ln, rt, p, cA, t), cB, SlopeB(ln, rt, p, cA, cB))
  }

  lemma ChordRow(ln: real -> real, e: Equilibrium, x: Row, j: nat, f: real -> real)
    requires |x| == 5 && j < 4
    requires forall t :: f(t) == EquilibriumEntry(ln, e, x, 0, j, t)
    requires EnergyExactAt(ln, e.rt, e.L, x[0], x[1]) && EnergyExactAt(ln, e.rt, e.S, x[2], x[3])
    requires SlopesExactAt(ln, e.rt, e.L, x[0], x[1])
    ensures |EquilibriumJac(ln, e, x)| == 5 && |EquilibriumJac(ln, e, x)[0]| == 5
    ensures HasDeriv(f, x[j], EquilibriumJac(ln, e, x)[0][j])
  {
    hide HasDeriv, Chord, SlopeA, SlopeB, CurvatureAA, CurvatureAB, CurvatureBB, ChordDA, ChordDB, EnergyExactAt, SlopesExactAt;
    if j == 0 {
      ChordLiquidA(ln, e, x[0], x[1], x[2], x[3], f);
    } else if j == 1 {
      ChordLiquidB(ln, e, x[0], x[1], x[2], x[3], f);
    } else if j == 2 {
      ChordSolidA(ln, e, x[0], x[1], x[2], x[3], f);
    } else {
      ChordSolidB(ln, e, x[0], x[1], x[2], x[3], f);
    }
  }

  lemma ChordLiquidA(ln: real -> real, e: Equilibrium, a: real, b: real, c: real, d: real, f: real -> real)
    requires forall t :: f(t) == Chord(ln, e, t, b, c, d)
    requires EnergyExactAt(ln, e.rt, e.L, a, b) && SlopesExactAt(ln, e.rt, e.L, a, b)
    ensures HasDeriv(f, a, ChordDA(e, a, b, c, d))
  {
    hide HasDeriv, Energy3, SlopeA, SlopeB, CurvatureAA, CurvatureAB, CurvatureBB;
    DerivForm(t => Energy3(ln, e.rt, e.L, t, b), t => SlopeA(ln, e.rt, e.L, t, b), t => SlopeB(ln, e.rt, e.L, t, b), f, a,
              SlopeA(ln, e.rt, e.L, a, b), CurvatureAA(e.rt, e.L, a, b), CurvatureAB(e.rt, e.L, a, b),
              1.0, c, -1.0, -(b - d), -Energy3(ln, e.rt, e.S, c, d), 0.0, ChordDA(e, a, b, c, d));
  }

  lemma ChordLiquidB(ln: real -> real, e: Equilibrium, a: real, b: real, c: real, d: real, f: real -> real)
    requires forall t :: f(t) == Chord(ln, e, a, t, c, d)
    requires EnergyExactAt(ln, e.rt, e.L, a, b) && SlopesExactAt(ln, e.rt, e.L, a, b)
    ensures HasDeriv(f, b, ChordDB(e, a, b, c, d))
  {
    hide HasDeriv, Energy3, SlopeA, SlopeB, CurvatureAA, CurvatureAB, CurvatureBB;
    DerivForm(t => Energy3(ln, e.rt, e.L, a, t), t => SlopeB(ln, e.rt, e.L, a, t), t => SlopeA(ln, e.rt, e.L, a, t), f, b,
              SlopeB(ln, e.rt, e.L, a, b), CurvatureBB(e.rt, e.L, a, b), CurvatureAB(e.rt, e.L, a, b),
              1.0, d, -1.0, -(a - c), -Energy3(ln, e.rt, e.S, c, d), 0.0, ChordDB(e, a, b, c, d));
  }

  lemma ChordSolidA(ln: real -> real, e: Equilibrium, a: real, b: real, c: real, d: real, f: real -> real)
    requires forall t :: f(t) == Chord(ln, e, a, b, t, d)
    requires EnergyExactAt(ln, e.rt, e.S, c, d)
    ensures HasDeriv(f, c, SlopeA(ln, e.rt, e.L, a, b) - SlopeA(ln, e.rt, e.S, c, d))
  {
    hide HasDeriv, Energy3, SlopeA, SlopeB;
    var s, m := SlopeA(ln, e.rt, e.S, c, d), SlopeA(ln, e.rt, e.L, a, b);
    var g := DerivScale(t => Energy3(ln, e.rt, e.S, t, d), -1.0, c, s, -s);
    DerivAddLine(g, f, c, -s, Energy3(ln, e.rt, e.L, a, b) - (b - d) * SlopeB(ln, e.rt, e.L, a, b) - a * m, m, m - s);
  }

  lemma ChordSolidB(ln: real -> real, e: Equilibrium, a: real, b: real, c: real, d: real, f: real -> real)
    requires forall t :: f(t) == Chord(ln, e, a, b, c, t)
    requires EnergyExactAt(ln, e.rt, e.S, c, d)
    ensures HasDeriv(f, d, SlopeB(ln, e.rt, e.L, a, b) - SlopeB(ln, e.rt, e.S, c, d))
  {
    hide HasDeriv, Energy3, SlopeA, SlopeB;
    var s, m := SlopeB(ln, e.rt, e.S, c, d), SlopeB(ln, e.rt, e.L, a, b);
    var g := DerivScale(t => Energy3(ln, e.rt, e.S, c, t), -1.0, d, s, -s);
    DerivAddLine(g, f, d, -s, Energy3(ln, e.rt, e.L, a, b) - (a - c) * SlopeA(ln, e.rt, e.L, a, b) - b * m, m, m - s);
  }

  // ----- what an equilibrium is -----

  // The system with the two phases exchanged.
  function Swap(e: Equilibrium): Equilibrium {
    e.(L := e.S, S := e.L)
  }

  function SwapUnknowns(x: Row): Row
    requires |x| == 5
  {
    [x[2], x[3], x[0], x[1], 1.0 - x[4]]
  }

  // A zero in the chord and slope rows.
  ghost predicate TangentRows(ln: real -> real, e: Equilibrium, x: Row)
    requires |x| == 5
  {
    var f := EquilibriumRhs(ln, e, x);
    f[0] == 0.0 && f[1] == 0.0 && f[2] == 0.0
  }

  // A zero in the two lever-rule rows.
  ghost predicate LeverRows(e: Equilibrium, x: Row)
    requires |x| == 5
  {
    Balance(x[4], x[0], x[2], e.c0) == 0.0 && Balance(x[4], x[1], x[3], e.c1) == 0.0
  }

  // The chord and slope rows, in terms of the two energies.
  ghost predicate Touching(ln: real -> real, e: Equilibrium, x: Row)
    requires |x| == 5
  {
    Q.EquilibriumZero2(EnergyAt(ln, e.rt, e.L), SlopesAt(ln, e.rt, e.L), EnergyAt(ln, e.rt, e.S), SlopesAt(ln, e.rt, e.S),
                       Liquid(x), Solid(x))
  }

  lemma EquilibriumRows(ln: real -> real, e: Equilibrium, x: Row)
    requires |x| == 5
    ensures EquilibriumRhs(ln, e, x) == [0.0, 0.0, 0.0, 0.0, 0.0] <==> (TangentRows(ln, e, x) && LeverRows(e, x))
  {
    hide Chord, DiffA, DiffB, Balance;
  }

  lemma TangentIsTouching(ln: real -> real, e: Equilibrium, x: Row)
    requires |x| == 5
    ensures TangentRows(ln, e, x) <==> Touching(ln, e, x)
  {
    hide Energy3, SlopeA, SlopeB, Balance;
  }

  lemma TouchingSwap(ln: real -> real, e: Equilibrium, x: Row)
    requires |x| == 5
    ensures Touching(ln, e, x) <==> Touching(ln, Swap(e), SwapUnknowns(x))
    ensures LeverRows(e, x) <==> LeverRows(Swap(e), SwapUnknowns(x))
  {
    hide Energy3, SlopeA, SlopeB, Q.EquilibriumZero2;
    Q.ZeroIffPlane(EnergyAt(ln, e.rt, e.L), SlopesAt(ln, e.rt, e.L), EnergyAt(ln, e.rt, e.S), SlopesAt(ln, e.rt, e.S), Liquid(x), Solid(x));
  }

  /**
   The first three rows vanish exactly at a common tangent plane; the last two say that phi is the
   lever-rule fraction.  Exchanging the phases (and phi with 1 - phi) does not change the zeros.
   */
  lemma EquilibriumIsTangentPlane(ln: real -> real, e: Equilibrium, x: Row)
    requires |x| == 5
    ensures EquilibriumRhs(ln, e, x) == [0.0, 0.0, 0.0, 0.0, 0.0] <==>
      (Q.HasCommonPlane(EnergyAt(ln, e.rt, e.L), SlopesAt(ln, e.rt, e.L), EnergyAt(ln, e.rt, e.S), SlopesAt(ln, e.rt, e.S),
                        Liquid(x), Solid(x))
       && Q.SameAverage(x[4], Liquid(x), Solid(x), 0.0, Q.Point(e.c0, e.c1), Q.Point(e.c0, e.c1)))
    ensures EquilibriumRhs(ln, e, x) == [0.0, 0.0, 0.0, 0.0, 0.0]
      <==> EquilibriumRhs(ln, Swap(e), SwapUnknowns(x)) == [0.0, 0.0, 0.0, 0.0, 0.0]
  {
    hide EquilibriumRhs, EnergyAt, SlopesAt, Q.EquilibriumZero2, Q.HasCommonPlane, TangentRows, LeverRows, Q.SameAverage;
    Q.ZeroIffPlane(EnergyAt(ln, e.rt, e.L), SlopesAt(ln, e.rt, e.L), EnergyAt(ln, e.rt, e.S), SlopesAt(ln, e.rt, e.S), Liquid(x), Solid(x));
    TangentIsTouching(ln, e, x);
    EquilibriumRows(ln, e, x);
    LeverIsAverage(e, x, x);
    TouchingSwap(ln, e, x);
    TangentIsTouching(ln, Swap(e), SwapUnknowns(x));
    EquilibriumRows(ln, Swap(e), SwapUnknowns(x));
  }

  lemma LeverIsAverage(e: Equilibrium, x: Row, y: Row)
    requires |x| == |y| == 5
    ensures LeverRows(e, x) <==> Q.SameAverage(x[4], Liquid(x), Solid(x), 0.0, Q.Point(e.c0, e.c1), Q.Point(e.c0, e.c1))
    ensures LeverRows(e, x) && LeverRows(e, y) ==> Q.SameAverage(x[4], Liquid(x), Solid(x), y[4], Liquid(y), Solid(y))
  {}

  /** With convex phases a zero gives the split of least energy over all phase fractions and compositions. */
  lemma EquilibriumSplitMinimal(ln: real -> real, e: Equilibrium, dom: Q.Point -> bool, x: Row, y: Row)
    requires |x| == |y| == 5 && EquilibriumRhs(ln, e, x) == [0.0, 0.0, 0.0, 0.0, 0.0]
    requires Q.StrictlyConvex2(EnergyAt(ln, e.rt, e.L), SlopesAt(ln, e.rt, e.L), dom)
    requires Q.StrictlyConvex2(EnergyAt(ln, e.rt, e.S), SlopesAt(ln, e.rt, e.S), dom)
    requires dom(Liquid(x)) && dom(Solid(x)) && dom(Liquid(y)) && dom(Solid(y)) && 0.0 <= y[4] <= 1.0
    requires LeverRows(e, y)
    ensures (1.0 - y[4]) * Energy3(ln, e.rt, e.L, y[0], y[1]) + y[4] * Energy3(ln, e.rt, e.S, y[2], y[3])
      >= (1.0 - x[4]) * Energy3(ln, e.rt, e.L, x[0], x[1]) + x[4] * Energy3(ln, e.rt, e.S, x[2], x[3])
  {
    hide Energy3, SlopesAt, Q.StrictlyConvex2, Q.SameAverage, LeverRows, TangentRows, EquilibriumRhs, Q.EquilibriumZero2;
    EquilibriumRows(ln, e, x);
    TangentIsTouching(ln, e, x);
    LeverIsAverage(e, x, y);
    Q.EquilibriumMinimal2(EnergyAt(ln, e.rt, e.L), SlopesAt(ln, e.rt, e.L), EnergyAt(ln, e.rt, e.S), SlopesAt(ln, e.rt, e.S), dom,
                          Liquid(x), Solid(x), x[4], Liquid(y), Solid(y), y[4]);
  }

  /** For 0 < phi < 1 and compositions inside the domain, the zeros are exactly the splits of least energy. */
  lemma EquilibriumIffLeast(ln: real -> real, e: Equilibrium, dom: Q.Point -> bool, x: Row, r: real)
    requires IsLog(ln) && |x| == 5 && 0.0 < x[4] < 1.0 && LeverRows(e, x)
    requires Q.StrictlyConvex2(EnergyAt(ln, e.rt, e.L), SlopesAt(ln, e.rt, e.L), dom)
    requires Q.StrictlyConvex2(EnergyAt(ln, e.rt, e.S), SlopesAt(ln, e.rt, e.S), dom)
    requires M.Inside2(dom, Liquid(x), r) && M.Inside2(dom, Solid(x), r)
    ensures EquilibriumRhs(ln, e, x) == [0.0, 0.0, 0.0, 0.0, 0.0]
      <==> M.LeastSplit2(EnergyAt(ln, e.rt, e.L), EnergyAt(ln, e.rt, e.S), dom, x[4], Liquid(x), Solid(x))
  {
    hide IsLog, EnergyAt, SlopesAt, Q.StrictlyConvex2, M.Inside2, M.HasGradient, M.LeastSplit2, EquilibriumRhs, LeverRows, TangentRows, Q.EquilibriumZero2;
    EquilibriumRows(ln, e, x);
    TangentIsTouching(ln, e, x);
    HasGradient(ln, e.rt, e.L, Liquid(x));
    HasGradient(ln, e.rt, e.S, Solid(x));
    M.EquilibriumIffLeast2(EnergyAt(ln, e.rt, e.L), SlopesAt(ln, e.rt, e.L), EnergyAt(ln, e.rt, e.S), SlopesAt(ln, e.rt, e.S),
                           dom, x[4], Liquid(x), Solid(x), r);
  }
}
