/**
 The molar energy of one phase as the Newton systems use it: reference energies plus ideal mixing
 plus Redlich-Kister mixing.  Slope and curvature are what the solvers add up from the derivative
 routines; the lemmas say they are the derivatives of the energy, for every composition.
 */
module PhaseEnergies {
  import opened Calculus
  import opened SmoothLog
  import opened RedlichKister
  import opened TernaryMixing
  import opened CalphadFunctions

  // ----- binary -----

  datatype BinaryPhase = BinaryPhase(fA: real, fB: real, l: RK)

  function Energy(ln: real -> real, rt: real, p: BinaryPhase, c: real): real {
    c * p.fA + (1.0 - c) * p.fB + FIdealMixBinary(ln, rt, c) + FMixBinary(p.l, c)
  }

  function Slope(ln: real -> real, rt: real, p: BinaryPhase, c: real): real {
    p.fA - p.fB + FMixDerivBinary(p.l, c) + FIdealMixDerivBinary(ln, rt, c)
  }

  function Curvature(rt: real, p: BinaryPhase, c: real): real {
    FMixDeriv2Binary(p.l, c) + FIdealMixDeriv2Binary(rt, c)
  }

  lemma UpDown(c: real)
    ensures Line(0.0, 1.0, c) == c && Line(1.0, -1.0, c) == 1.0 - c
  {}

  /** The binary mixing energy and its two hand-expanded derivatives. */
  lemma MixBinaryExact(l: RK, c: real)
    ensures HasDeriv(t => FMixBinary(l, t), c, FMixDerivBinary(l, c))
    ensures HasDeriv(t => FMixDerivBinary(l, t), c, FMixDeriv2Binary(l, c))
  {
    hide HasDeriv, Pair, Pair1, Pair2, FMixBinary, FMixDerivBinary, FMixDeriv2Binary, Line;
    var F := t => FMixBinary(l, t);
    var F1 := t => FMixDerivBinary(l, t);
    forall t
      ensures F(t) == Pair(l, Line(0.0, 1.0, t), Line(1.0, -1.0, t))
      ensures F1(t) == Pair1(l, Line(0.0, 1.0, t), Line(1.0, -1.0, t), 1.0, -1.0)
    {
      UpDown(t);
      BinaryIsPair(l, t);
    }
    BinaryIsPair(l, c);
    BinaryIsPair2(l, c);
    UpDown(c);
    PairDeriv(l, 0.0, 1.0, 1.0, -1.0, c, F, FMixDerivBinary(l, c));
    Pair1Deriv(l, 0.0, 1.0, 1.0, -1.0, 1.0, -1.0, c, F1, FMixDeriv2Binary(l, c));
  }

  lemma XLogXAlong(ln: real -> real, a: real, b: real, x: real, d: real, d2: real) returns (f: real -> real, f1: real -> real)
    requires IsLog(ln) && d == b * XLogXDeriv(ln, Line(a, b, x)) && d2 == b * XLogXDeriv2(Line(a, b, x))
    ensures HasDeriv(f, x, d) && forall t :: f(t) == XLogX(ln, Line(a, b, t))
    ensures HasDeriv(f1, x, d2) && forall t :: f1(t) == XLogXDeriv(ln, Line(a, b, t))
  {
    hide HasDeriv, XLogX, XLogXDeriv, XLogXDeriv2, Line, IsLog;
    XLogXIsC1(ln, Line(a, b, x));
    XLogXIsC2(ln, Line(a, b, x));
    f := t => XLogX(ln, Line(a, b, t));
    f1 := t => XLogXDeriv(ln, Line(a, b, t));
    DerivAffine(t => XLogX(ln, t), f, a, b, x, XLogXDeriv(ln, Line(a, b, x)), d);
    DerivAffine(t => XLogXDeriv(ln, t), f1, a, b, x, XLogXDeriv2(Line(a, b, x)), d2);
  }

  // rt u + rt v and rt u - rt v, the shapes of the ideal-mixing terms.
  lemma ScaledPair(u: real -> real, v: real -> real, F: real -> real, rt: real, c: real, a: real, b: real, sign: real, d: real)
    requires HasDeriv(u, c, a) && HasDeriv(v, c, b) && d == rt * (a + sign * b)
    requires forall t :: F(t) == rt * (u(t) + sign * v(t))
    ensures HasDeriv(F, c, d)
  {
    hide *;
    var k := t => u(t) + sign * v(t);
    DerivCombination(u, v, k, c, a, b, 1.0, sign, a + sign * b);
    var g := DerivScale(k, rt, c, a + sign * b, d);
    DerivSame(g, F, c, d, d);
  }

  lemma IdealBinaryExact(ln: real -> real, rt: real, c: real)
    requires IsLog(ln)
    ensures HasDeriv(t => FIdealMixBinary(ln, rt, t), c, FIdealMixDerivBinary(ln, rt, c))
    ensures HasDeriv(t => FIdealMixDerivBinary(ln, rt, t), c, FIdealMixDeriv2Binary(rt, c))
  {
    hide HasDeriv, XLogX, XLogXDeriv, XLogXDeriv2, Line, IsLog;
    UpDown(c);
    var a, a2 := XLogXDeriv(ln, c), XLogXDeriv2(c);
    var b, b2 := -XLogXDeriv(ln, 1.0 - c), -XLogXDeriv2(1.0 - c);
    var u, u1 := XLogXAlong(ln, 0.0, 1.0, c, a, a2);
    var v, v1 := XLogXAlong(ln, 1.0, -1.0, c, b, b2);
    IdealFirst(ln, rt, c, u, v, a, b);
    IdealSecond(ln, rt, c, u1, v1, a2, b2);
  }

  lemma IdealFirst(ln: real -> real, rt: real, c: real, u: real -> real, v: real -> real, a: real, b: real)
    requires HasDeriv(u, c, a) && forall t :: u(t) == XLogX(ln, Line(0.0, 1.0, t))
    requires HasDeriv(v, c, b) && forall t :: v(t) == XLogX(ln, Line(1.0, -1.0, t))
    requires a == XLogXDeriv(ln, c) && b == -XLogXDeriv(ln, 1.0 - c)
    ensures HasDeriv(t => FIdealMixBinary(ln, rt, t), c, FIdealMixDerivBinary(ln, rt, c))
  {
    hide HasDeriv, XLogX, XLogXDeriv, Line;
    var F := t => FIdealMixBinary(ln, rt, t);
    forall t
      ensures F(t) == rt * (u(t) + 1.0 * v(t))
    {
      UpDown(t);
    }
    ScaledPair(u, v, F, rt, c, a, b, 1.0, FIdealMixDerivBinary(ln, rt, c));
  }

  lemma IdealSecond(ln: real -> real, rt: real, c: real, u: real -> real, v: real -> real, a: real, b: real)
    requires HasDeriv(u, c, a) && forall t :: u(t) == XLogXDeriv(ln, Line(0.0, 1.0, t))
    requires HasDeriv(v, c, b) && forall t :: v(t) == XLogXDeriv(ln, Line(1.0, -1.0, t))
    requires a == XLogXDeriv2(c) && b == -XLogXDeriv2(1.0 - c)
    ensures HasDeriv(t => FIdealMixDerivBinary(ln, rt, t), c, FIdealMixDeriv2Binary(rt, c))
  {
    hide HasDeriv, XLogXDeriv, XLogXDeriv2, Line;
    var F := t => FIdealMixDerivBinary(ln, rt, t);
    forall t
      ensures F(t) == rt * (u(t) + -1.0 * v(t))
    {
      UpDown(t);
    }
    ScaledPair(u, v, F, rt, c, a, b, -1.0, FIdealMixDeriv2Binary(rt, c));
  }

  /** Slope is the derivative of Energy and Curvature that of Slope. */
  lemma BinaryPhaseExact(ln: real -> real, rt: real, p: BinaryPhase, c: real)
    requires IsLog(ln)
    ensures HasDeriv(t => Energy(ln, rt, p, t), c, Slope(ln, rt, p, c))
    ensures HasDeriv(t => Slope(ln, rt, p, t), c, Curvature(rt, p, c))
  {
    hide HasDeriv, FIdealMixBinary, FIdealMixDerivBinary, FIdealMixDeriv2Binary, IsLog;
    hide FMixBinary, FMixDerivBinary, FMixDeriv2Binary;
    MixBinaryExact(p.l, c);
    IdealBinaryExact(ln, rt, c);
    var m, i := t => FMixBinary(p.l, t), t => FIdealMixBinary(ln, rt, t);
    var m1, i1 := t => FMixDerivBinary(p.l, t), t => FIdealMixDerivBinary(ln, rt, t);
    var s := t => m(t) + i(t);
    DerivAdd(m, i, s, c, FMixDerivBinary(p.l, c), FIdealMixDerivBinary(ln, rt, c), Slope(ln, rt, p, c) - (p.fA - p.fB));
    DerivAddLine(s, t => Energy(ln, rt, p, t), c, Slope(ln, rt, p, c) - (p.fA - p.fB), p.fB, p.fA - p.fB, Slope(ln, rt, p, c));
    var s1 := t => m1(t) + i1(t);
    DerivAdd(m1, i1, s1, c, FMixDeriv2Binary(p.l, c), FIdealMixDeriv2Binary(rt, c), Curvature(rt, p, c));
    DerivAddLine(s1, t => Slope(ln, rt, p, t), c, Curvature(rt, p, c), p.fA - p.fB, 0.0, Curvature(rt, p, c));
  }

  /** The ideal part away from the two ends, where both logarithms are used. */
  lemma IdealAboveCutoff(ln: real -> real, rt: real, cA: real, cB: real)
    requires cA + cB == 1.0 && cA > 0.00000001 && cB > 0.00000001
    ensures FIdealMixBinary(ln, rt, cA) == rt * (cA * ln(cA) + cB * ln(cB))
  {
    assert 1.0 - cA == cB;
  }

  /** With pure A or pure B the energy is the reference energy of that species, and the cutoff of x log x. */
  lemma PureSpecies(ln: real -> real, rt: real, p: BinaryPhase)
    ensures Energy(ln, rt, p, 1.0) == p.fA + rt * (XLogX(ln, 1.0) + XLogX(ln, 0.0))
    ensures Energy(ln, rt, p, 0.0) == p.fB + rt * (XLogX(ln, 1.0) + XLogX(ln, 0.0))
  {
    hide Poly, XLogX;
  }

  /** Raising the reference energies raises the energy by their mean and the slope by their difference. */
  lemma ReferenceShift(ln: real -> real, rt: real, p: BinaryPhase, a: real, b: real, c: real)
    ensures var q := p.(fA := p.fA + a, fB := p.fB + b);
      && Energy(ln, rt, q, c) == Energy(ln, rt, p, c) + (c * a + (1.0 - c) * b)
      && Slope(ln, rt, q, c) == Slope(ln, rt, p, c) + (a - b)
      && Curvature(rt, q, c) == Curvature(rt, p, c)
  {
    hide FIdealMixBinary, FMixBinary, FMixDerivBinary, FIdealMixDerivBinary, FMixDeriv2Binary, FIdealMixDeriv2Binary;
  }

  // ----- ternary -----

  datatype TernaryPhase = TernaryPhase(fA: real, fB: real, fC: real, k: Interaction)

  function Energy3(ln: real -> real, rt: real, p: TernaryPhase, cA: real, cB: real): real {
    cA * p.fA + cB * p.fB + (1.0 - cA - cB) * p.fC + FIdealMixTernary(ln, rt, cA, cB) + FMixTernary(p.k, cA, cB)
  }

  function SlopeA(ln: real -> real, rt: real, p: TernaryPhase, cA: real, cB: real): real {
    p.fA - p.fC + MixA(p.k, cA, cB) + FIdealMixA(ln, rt, cA, cB)
  }

  function SlopeB(ln: real -> real, rt: real, p: TernaryPhase, cA: real, cB: real): real {
    p.fB - p.fC + MixB(p.k, cA, cB) + FIdealMixB(ln, rt, cA, cB)
  }

  function CurvatureAA(rt: real, p: TernaryPhase, cA: real, cB: real): real {
    MixAA(p.k, cA, cB) + FIdealMixAA(rt, cA, cB)
  }

  function CurvatureAB(rt: real, p: TernaryPhase, cA: real, cB: real): real {
    MixAB(p.k, cA, cB) + FIdealMixAB(rt, cA, cB)
  }

  function CurvatureBB(rt: real, p: TernaryPhase, cA: real, cB: real): real {
    MixBB(p.k, cA, cB) + FIdealMixBB(rt, cA, cB)
  }

  // rt (x'(a + p t) - x'(c + r t)): the ideal part of a slope along a line.
  lemma IdealSlopeAlong(ln: real -> real, rt: real, a: real, p: real, c: real, r: real, x: real, F: real -> real, d: real)
    requires IsLog(ln)
    requires forall t :: F(t) == rt * (XLogXDeriv(ln, Line(a, p, t)) - XLogXDeriv(ln, Line(c, r, t)))
    requires d == rt * (p * XLogXDeriv2(Line(a, p, x)) - r * XLogXDeriv2(Line(c, r, x)))
    ensures HasDeriv(F, x, d)
  {
    hide HasDeriv, XLogX, XLogXDeriv, XLogXDeriv2, Line, IsLog;
    var du, dv := p * XLogXDeriv2(Line(a, p, x)), r * XLogXDeriv2(Line(c, r, x));
    var u0, u := XLogXAlong(ln, a, p, x, p * XLogXDeriv(ln, Line(a, p, x)), du);
    var v0, v := XLogXAlong(ln, c, r, x, r * XLogXDeriv(ln, Line(c, r, x)), dv);
    ScaledPair(u, v, F, rt, x, du, dv, -1.0, d);
  }

  // rt (x(t) + x(b) + x(c - t)): the ideal part of the energy along one axis.
  lemma IdealEnergyAlong(ln: real -> real, rt: real, b: real, c: real, x: real, F: real -> real, d: real)
    requires IsLog(ln)
    requires forall t :: F(t) == rt * (XLogX(ln, Line(0.0, 1.0, t)) + XLogX(ln, b) + XLogX(ln, Line(c, -1.0, t)))
    requires d == rt * (XLogXDeriv(ln, Line(0.0, 1.0, x)) - XLogXDeriv(ln, Line(c, -1.0, x)))
    ensures HasDeriv(F, x, d)
  {
    hide HasDeriv, XLogX, XLogXDeriv, XLogXDeriv2, Line, IsLog;
    var du, dv := XLogXDeriv(ln, Line(0.0, 1.0, x)), -XLogXDeriv(ln, Line(c, -1.0, x));
    var u, u1 := XLogXAlong(ln, 0.0, 1.0, x, du, XLogXDeriv2(Line(0.0, 1.0, x)));
    var v, v1 := XLogXAlong(ln, c, -1.0, x, dv, -XLogXDeriv2(Line(c, -1.0, x)));
    ShiftedPair(u, v, F, rt, x, du, dv, XLogX(ln, b), d);
  }

  lemma ShiftedPair(u: real -> real, v: real -> real, F: real -> real, rt: real, x: real, a: real, b: real, shift: real, d: real)
    requires HasDeriv(u, x, a) && HasDeriv(v, x, b) && d == rt * (a + b)
    requires forall t :: F(t) == rt * (u(t) + shift + v(t))
    ensures HasDeriv(F, x, d)
  {
    hide *;
    var w := t => v(t) + (shift + 0.0 * t);
    DerivAddLine(v, w, x, b, shift, 0.0, b);
    ScaledPair(u, w, F, rt, x, a, b, 1.0, d);
  }

  /** SlopeA and SlopeB are the partial derivatives of the ternary energy. */
  lemma TernaryEnergyExact(ln: real -> real, rt: real, p: TernaryPhase, cA: real, cB: real)
    requires IsLog(ln)
    ensures HasDeriv(t => Energy3(ln, rt, p, t, cB), cA, SlopeA(ln, rt, p, cA, cB))
    ensures HasDeriv(t => Energy3(ln, rt, p, cA, t), cB, SlopeB(ln, rt, p, cA, cB))
  {
    hide HasDeriv, IsLog, MixA, MixB, FMixTernary, FIdealMixA, FIdealMixB, FIdealMixTernary;
    MixPartials(p.k, cA, cB);
    IdealPartials(ln, rt, cA, cB);
    EnergySum(t => FIdealMixTernary(ln, rt, t, cB), t => FMixTernary(p.k, t, cB), t => Energy3(ln, rt, p, t, cB), cA,
              FIdealMixA(ln, rt, cA, cB), MixA(p.k, cA, cB), cB * p.fB + (1.0 - cB) * p.fC, p.fA - p.fC, SlopeA(ln, rt, p, cA, cB));
    EnergySum(t => FIdealMixTernary(ln, rt, cA, t), t => FMixTernary(p.k, cA, t), t => Energy3(ln, rt, p, cA, t), cB,
              FIdealMixB(ln, rt, cA, cB), MixB(p.k, cA, cB), cA * p.fA + (1.0 - cA) * p.fC, p.fB - p.fC, SlopeB(ln, rt, p, cA, cB));
  }

  // Ideal part + mixing part + (a + b t).
  lemma EnergySum(i: real -> real, m: real -> real, F: real -> real, x: real, di: real, dm: real, a: real, b: real, d: real)
    requires HasDeriv(i, x, di) && HasDeriv(m, x, dm) && d == b + dm + di
    requires forall t :: F(t) == i(t) + m(t) + (a + b * t)
    ensures HasDeriv(F, x, d)
  {
    hide *;
    var s := t => i(t) + m(t);
    DerivAdd(i, m, s, x, di, dm, di + dm);
    DerivAddLine(s, F, x, di + dm, a, b, d);
  }

  lemma MixPartials(k: Interaction, cA: real, cB: real)
    ensures HasDeriv(t => FMixTernary(k, t, cB), cA, MixA(k, cA, cB))
    ensures HasDeriv(t => FMixTernary(k, cA, t), cB, MixB(k, cA, cB))
  {
    hide HasDeriv, Mix, MixA, MixB, FMixTernary;
    MixFirstExact(k, cA, cB);
    var FA, FB := t => FMixTernary(k, t, cB), t => FMixTernary(k, cA, t);
    forall t
      ensures FA(t) == Mix(k, t, cB, 1.0 - t - cB) && FB(t) == Mix(k, cA, t, 1.0 - cA - t)
    {
      TernaryIsMix(k, t, cB);
      TernaryIsMix(k, cA, t);
    }
    DerivSame(t => Mix(k, t, cB, 1.0 - t - cB), FA, cA, MixA(k, cA, cB), MixA(k, cA, cB));
    DerivSame(t => Mix(k, cA, t, 1.0 - cA - t), FB, cB, MixB(k, cA, cB), MixB(k, cA, cB));
  }

  // Ideal mixing treats the two independent concentrations alike.
  lemma IdealSwap(ln: real -> real, rt: real, cA: real, cB: real)
    ensures FIdealMixTernary(ln, rt, cA, cB) == FIdealMixTernary(ln, rt, cB, cA)
    ensures FIdealMixB(ln, rt, cA, cB) == FIdealMixA(ln, rt, cB, cA)
    ensures FIdealMixBB(rt, cA, cB) == FIdealMixAA(rt, cB, cA)
    ensures FIdealMixAB(rt, cA, cB) == FIdealMixAB(rt, cB, cA)
  {
    hide XLogX, XLogXDeriv, XLogXDeriv2;
    assert 1.0 - cA - cB == 1.0 - cB - cA;
  }

  lemma IdealPartials(ln: real -> real, rt: real, cA: real, cB: real)
    requires IsLog(ln)
    ensures HasDeriv(t => FIdealMixTernary(ln, rt, t, cB), cA, FIdealMixA(ln, rt, cA, cB))
    ensures HasDeriv(t => FIdealMixTernary(ln, rt, cA, t), cB, FIdealMixB(ln, rt, cA, cB))
  {
    hide HasDeriv, IsLog, FIdealMixTernary, FIdealMixA, FIdealMixB;
    IdealPartialA(ln, rt, cA, cB);
    IdealPartialA(ln, rt, cB, cA);
    var F, G := t => FIdealMixTernary(ln, rt, cA, t), t => FIdealMixTernary(ln, rt, t, cA);
    forall t
      ensures G(t) == F(t)
    {
      IdealSwap(ln, rt, cA, t);
    }
    IdealSwap(ln, rt, cA, cB);
    DerivSame(G, F, cB, FIdealMixA(ln, rt, cB, cA), FIdealMixB(ln, rt, cA, cB));
  }

  lemma IdealPartialA(ln: real -> real, rt: real, cA: real, cB: real)
    requires IsLog(ln)
    ensures HasDeriv(t => FIdealMixTernary(ln, rt, t, cB), cA, FIdealMixA(ln, rt, cA, cB))
  {
    hide HasDeriv, XLogX, XLogXDeriv, Line, IsLog;
    var F := t => FIdealMixTernary(ln, rt, t, cB);
    forall t
      ensures F(t) == rt * (XLogX(ln, Line(0.0, 1.0, t)) + XLogX(ln, cB) + XLogX(ln, Line(1.0 - cB, -1.0, t)))
    {
      AxisA(cB, t);
    }
    AxisA(cB, cA);
    IdealEnergyAlong(ln, rt, cB, 1.0 - cB, cA, F, FIdealMixA(ln, rt, cA, cB));
  }

  /** The curvatures are the partial derivatives of the slopes; the cross term serves both. */
  lemma TernarySlopesExact(ln: real -> real, rt: real, p: TernaryPhase, cA: real, cB: real)
    requires IsLog(ln)
    ensures HasDeriv(t => SlopeA(ln, rt, p, t, cB), cA, CurvatureAA(rt, p, cA, cB))
    ensures HasDeriv(t => SlopeA(ln, rt, p, cA, t), cB, CurvatureAB(rt, p, cA, cB))
    ensures HasDeriv(t => SlopeB(ln, rt, p, t, cB), cA, CurvatureAB(rt, p, cA, cB))
    ensures HasDeriv(t => SlopeB(ln, rt, p, cA, t), cB, CurvatureBB(rt, p, cA, cB))
  {
    hide HasDeriv, IsLog, MixA, MixB, MixAA, MixAB, MixBA, MixBB;
    hide FIdealMixA, FIdealMixB, FIdealMixAA, FIdealMixAB, FIdealMixBB;
    MixSecondExact(p.k, cA, cB);
    CrossTermsAgree(p.k, cA, cB);
    IdealSlopePartials(ln, rt, cA, cB);
    EnergySum(t => FIdealMixA(ln, rt, t, cB), t => MixA(p.k, t, cB), t => SlopeA(ln, rt, p, t, cB), cA,
              FIdealMixAA(rt, cA, cB), MixAA(p.k, cA, cB), p.fA - p.fC, 0.0, CurvatureAA(rt, p, cA, cB));
    EnergySum(t => FIdealMixA(ln, rt, cA, t), t => MixA(p.k, cA, t), t => SlopeA(ln, rt, p, cA, t), cB,
              FIdealMixAB(rt, cA, cB), MixAB(p.k, cA, cB), p.fA - p.fC, 0.0, CurvatureAB(rt, p, cA, cB));
    EnergySum(t => FIdealMixB(ln, rt, t, cB), t => MixB(p.k, t, cB), t => SlopeB(ln, rt, p, t, cB), cA,
              FIdealMixAB(rt, cA, cB), MixBA(p.k, cA, cB), p.fB - p.fC, 0.0, CurvatureAB(rt, p, cA, cB));
    EnergySum(t => FIdealMixB(ln, rt, cA, t), t => MixB(p.k, cA, t), t => SlopeB(ln, rt, p, cA, t), cB,
              FIdealMixBB(rt, cA, cB), MixBB(p.k, cA, cB), p.fB - p.fC, 0.0, CurvatureBB(rt, p, cA, cB));
  }

  lemma IdealSlopePartials(ln: real -> real, rt: real, cA: real, cB: real)
    requires IsLog(ln)
    ensures HasDeriv(t => FIdealMixA(ln, rt, t, cB), cA, FIdealMixAA(rt, cA, cB))
    ensures HasDeriv(t => FIdealMixA(ln, rt, cA, t), cB, FIdealMixAB(rt, cA, cB))
    ensures HasDeriv(t => FIdealMixB(ln, rt, t, cB), cA, FIdealMixAB(rt, cA, cB))
    ensures HasDeriv(t => FIdealMixB(ln, rt, cA, t), cB, FIdealMixBB(rt, cA, cB))
  {
    hide HasDeriv, IsLog, FIdealMixA, FIdealMixB, FIdealMixAA, FIdealMixAB, FIdealMixBB;
    IdealSlopeA(ln, rt, cA, cB);
    IdealSlopeA(ln, rt, cB, cA);
    var FA, GA := t => FIdealMixB(ln, rt, t, cB), t => FIdealMixA(ln, rt, cB, t);
    var FB, GB := t => FIdealMixB(ln, rt, cA, t), t => FIdealMixA(ln, rt, t, cA);
    forall t
      ensures FA(t) == GA(t) && FB(t) == GB(t)
    {
      IdealSwap(ln, rt, t, cB);
      IdealSwap(ln, rt, cA, t);
    }
    IdealSwap(ln, rt, cA, cB);
    DerivSame(GA, FA, cA, FIdealMixAB(rt, cB, cA), FIdealMixAB(rt, cA, cB));
    DerivSame(GB, FB, cB, FIdealMixAA(rt, cB, cA), FIdealMixBB(rt, cA, cB));
  }

  lemma IdealSlopeA(ln: real -> real, rt: real, cA: real, cB: real)
    requires IsLog(ln)
    ensures HasDeriv(t => FIdealMixA(ln, rt, t, cB), cA, FIdealMixAA(rt, cA, cB))
    ensures HasDeriv(t => FIdealMixA(ln, rt, cA, t), cB, FIdealMixAB(rt, cA, cB))
  {
    hide HasDeriv, XLogX, XLogXDeriv, XLogXDeriv2, Line, IsLog;
    var AA, AB := t => FIdealMixA(ln, rt, t, cB), t => FIdealMixA(ln, rt, cA, t);
    forall t
      ensures AA(t) == rt * (XLogXDeriv(ln, Line(0.0, 1.0, t)) - XLogXDeriv(ln, Line(1.0 - cB, -1.0, t)))
      ensures AB(t) == rt * (XLogXDeriv(ln, Line(cA, 0.0, t)) - XLogXDeriv(ln, Line(1.0 - cA, -1.0, t)))
    {
      AxisA(cB, t);
      AxisB(cA, t);
    }
    AxisA(cB, cA);
    AxisB(cA, cB);
    IdealSlopeAlong(ln, rt, 0.0, 1.0, 1.0 - cB, -1.0, cA, AA, FIdealMixAA(rt, cA, cB));
    IdealSlopeAlong(ln, rt, cA, 0.0, 1.0 - cA, -1.0, cB, AB, FIdealMixAB(rt, cA, cB));
  }

  /** On each edge of the triangle the energy is the binary one of the two species left, and the cutoff for the third. */
  lemma EnergyOnEdges(ln: real -> real, rt: real, p: TernaryPhase, c: real)
    ensures Energy3(ln, rt, p, c, 1.0 - c) == Energy(ln, rt, BinaryPhase(p.fA, p.fB, p.k.AB), c) + rt * XLogX(ln, 0.0)
    ensures Energy3(ln, rt, p, c, 0.0) == Energy(ln, rt, BinaryPhase(p.fA, p.fC, p.k.AC), c) + rt * XLogX(ln, 0.0)
    ensures Energy3(ln, rt, p, 0.0, c) == Energy(ln, rt, BinaryPhase(p.fB, p.fC, p.k.BC), c) + rt * XLogX(ln, 0.0)
  {
    hide FMixTernary, FMixBinary, XLogX;
    MixOnEdges(p.k, c);
    IdealOnEdges(ln, rt, c);
  }

  lemma IdealOnEdges(ln: real -> real, rt: real, c: real)
    ensures FIdealMixTernary(ln, rt, c, 1.0 - c) == FIdealMixBinary(ln, rt, c) + rt * XLogX(ln, 0.0)
    ensures FIdealMixTernary(ln, rt, c, 0.0) == FIdealMixBinary(ln, rt, c) + rt * XLogX(ln, 0.0)
    ensures FIdealMixTernary(ln, rt, 0.0, c) == FIdealMixBinary(ln, rt, c) + rt * XLogX(ln, 0.0)
  {
    hide XLogX;
    assert 1.0 - c - (1.0 - c) == 0.0 && 1.0 - c - 0.0 == 1.0 - c && 1.0 - 0.0 - c == 1.0 - c;
  }

  lemma IdealAboveCutoff3(ln: real -> real, rt: real, cA: real, cB: real, cC: real)
    requires cA + cB + cC == 1.0 && cA > 0.00000001 && cB > 0.00000001 && cC > 0.00000001
    ensures FIdealMixTernary(ln, rt, cA, cB) == rt * (cA * ln(cA) + cB * ln(cB) + cC * ln(cC))
  {
    assert 1.0 - cA - cB == cC;
  }

  /** The reference energies enter the energy by their mean and the slopes by their differences from the third. */
  lemma ReferenceShift3(ln: real -> real, rt: real, p: TernaryPhase, a: real, b: real, c: real, cA: real, cB: real)
    ensures var q := p.(fA := p.fA + a, fB := p.fB + b, fC := p.fC + c);
      && Energy3(ln, rt, q, cA, cB) == Energy3(ln, rt, p, cA, cB) + (cA * a + cB * b + (1.0 - cA - cB) * c)
      && SlopeA(ln, rt, q, cA, cB) == SlopeA(ln, rt, p, cA, cB) + (a - c)
      && SlopeB(ln, rt, q, cA, cB) == SlopeB(ln, rt, p, cA, cB) + (b - c)
  {
    hide FIdealMixTernary, FMixTernary, MixA, MixB, FIdealMixA, FIdealMixB;
  }

  // ----- the ternary energy along any line -----

  lemma ThirdLine(cA: real, x: real, cB: real, y: real, t: real)
    ensures 1.0 - Line(cA, x, t) - Line(cB, y, t) == Line(1.0 - cA - cB, -(x + y), t)
    ensures Line(cA, x, 0.0) == cA
  {}

  lemma IdealAlong(ln: real -> real, rt: real, cA: real, x: real, cB: real, y: real, F: real -> real, d: real)
    requires IsLog(ln) && forall t :: F(t) == FIdealMixTernary(ln, rt, Line(cA, x, t), Line(cB, y, t))
    requires d == x * FIdealMixA(ln, rt, cA, cB) + y * FIdealMixB(ln, rt, cA, cB)
    ensures HasDeriv(F, 0.0, d)
  {
    hide HasDeriv, XLogX, XLogXDeriv, XLogXDeriv2, Line, IsLog;
    var c, z := 1.0 - cA - cB, -(x + y);
    ThirdLine(cA, x, cB, y, 0.0);
    ThirdLine(cB, y, cA, x, 0.0);
    ThirdLine(c, z, cA, x, 0.0);
    var u, dA := LogFromStart(ln, cA, x);
    var v, dB := LogFromStart(ln, cB, y);
    var w, dC := LogFromStart(ln, c, z);
    forall t
      ensures F(t) == rt * (u(t) + v(t) + w(t))
    {
      ThirdLine(cA, x, cB, y, t);
    }
    IdealSlopes(ln, rt, cA, x, cB, y, c, z, dA, dB, dC, d);
    ScaledTriple(u, v, w, F, rt, dA, dB, dC, d);
  }

  lemma IdealSlopes(ln: real -> real, rt: real, cA: real, x: real, cB: real, y: real, c: real, z: real, dA: real, dB: real, dC: real, d: real)
    requires c == 1.0 - cA - cB && z == -(x + y) && d == x * FIdealMixA(ln, rt, cA, cB) + y * FIdealMixB(ln, rt, cA, cB)
    requires dA == x * XLogXDeriv(ln, cA) && dB == y * XLogXDeriv(ln, cB) && dC == z * XLogXDeriv(ln, c)
    ensures d == rt * (dA + dB + dC)
  {
    hide XLogXDeriv;
    IdealRates(rt, x, y, XLogXDeriv(ln, cA), XLogXDeriv(ln, cB), XLogXDeriv(ln, c), dA, dB, dC);
  }

  lemma LogFromStart(ln: real -> real, a: real, p: real) returns (u: real -> real, d: real)
    requires IsLog(ln)
    ensures HasDeriv(u, 0.0, d) && d == p * XLogXDeriv(ln, a) && forall t :: u(t) == XLogX(ln, Line(a, p, t))
  {
    hide HasDeriv, XLogX, XLogXDeriv, XLogXDeriv2, Line, IsLog;
    ThirdLine(a, p, 0.0, 0.0, 0.0);
    d := p * XLogXDeriv(ln, a);
    var u1;
    u, u1 := XLogXAlong(ln, a, p, 0.0, d, p * XLogXDeriv2(a));
  }

  lemma IdealRates(rt: real, x: real, y: real, a: real, b: real, c: real, dA: real, dB: real, dC: real)
    requires dA == x * a && dB == y * b && dC == -(x + y) * c
    ensures x * (rt * (a - c)) + y * (rt * (b - c)) == rt * (dA + dB + dC)
  {
    assert x * (rt * (a - c)) == rt * (x * a) - rt * (x * c) && y * (rt * (b - c)) == rt * (y * b) - rt * (y * c);
    assert rt * (-(x + y) * c) == -(rt * (x * c)) - rt * (y * c);
  }

  lemma ScaledTriple(u: real -> real, v: real -> real, w: real -> real, F: real -> real, rt: real, a: real, b: real, c: real, d: real)
    requires HasDeriv(u, 0.0, a) && HasDeriv(v, 0.0, b) && HasDeriv(w, 0.0, c) && d == rt * (a + b + c)
    requires forall t :: F(t) == rt * (u(t) + v(t) + w(t))
    ensures HasDeriv(F, 0.0, d)
  {
    hide *;
    var uv := SumOf(u, v);
    DerivAdd(u, v, uv, 0.0, a, b, a + b);
    var s := SumOf(uv, w);
    DerivAdd(uv, w, s, 0.0, a + b, c, a + b + c);
    var g := DerivScale(s, rt, 0.0, a + b + c, d);
    DerivSame(g, F, 0.0, d, d);
  }

  lemma MixAlong(k: Interaction, cA: real, x: real, cB: real, y: real, F: real -> real, d: real)
    requires forall t :: F(t) == FMixTernary(k, Line(cA, x, t), Line(cB, y, t))
    requires d == x * MixA(k, cA, cB) + y * MixB(k, cA, cB)
    ensures HasDeriv(F, 0.0, d)
  {
    hide HasDeriv, Mix, Mix1, MixA, MixB, FMixTernary, Line;
    var c, z := 1.0 - cA - cB, -(x + y);
    forall t
      ensures F(t) == Mix(k, Line(cA, x, t), Line(cB, y, t), Line(c, z, t))
    {
      TernaryIsMix(k, Line(cA, x, t), Line(cB, y, t));
      ThirdLine(cA, x, cB, y, t);
    }
    ThirdLine(cA, x, cB, y, 0.0);
    ThirdLine(cB, y, cA, x, 0.0);
    ThirdLine(c, z, cA, x, 0.0);
    MixRates(k, cA, cB, x, y);
    MixDeriv(k, cA, x, cB, y, c, z, 0.0, F, d);
  }

  /** Along any line of compositions the ternary energy changes by its two slopes. */
  lemma TernaryEnergyAlong(ln: real -> real, rt: real, p: TernaryPhase, cA: real, x: real, cB: real, y: real, F: real -> real, d: real)
    requires IsLog(ln) && forall t :: F(t) == Energy3(ln, rt, p, Line(cA, x, t), Line(cB, y, t))
    requires d == x * SlopeA(ln, rt, p, cA, cB) + y * SlopeB(ln, rt, p, cA, cB)
    ensures HasDeriv(F, 0.0, d)
  {
    hide HasDeriv, IsLog, MixA, MixB, FMixTernary, FIdealMixA, FIdealMixB, FIdealMixTernary, Energy3, SlopeA, SlopeB, Line;
    var i := t => FIdealMixTernary(ln, rt, Line(cA, x, t), Line(cB, y, t));
    var m := t => FMixTernary(p.k, Line(cA, x, t), Line(cB, y, t));
    var di := x * FIdealMixA(ln, rt, cA, cB) + y * FIdealMixB(ln, rt, cA, cB);
    var dm := x * MixA(p.k, cA, cB) + y * MixB(p.k, cA, cB);
    IdealAlong(ln, rt, cA, x, cB, y, i, di);
    MixAlong(p.k, cA, x, cB, y, m, dm);
    var a, b := Reference(p, cA, cB), x * (p.fA - p.fC) + y * (p.fB - p.fC);
    forall t
      ensures F(t) == i(t) + m(t) + (a + b * t)
    {
      EnergyOnLine(ln, rt, p, cA, x, cB, y, t, b);
    }
    SlopesAlong(ln, rt, p, cA, x, cB, y);
    EnergySum(i, m, F, 0.0, di, dm, a, b, d);
  }

  function Reference(p: TernaryPhase, cA: real, cB: real): real {
    cA * p.fA + cB * p.fB + (1.0 - cA - cB) * p.fC
  }

  lemma EnergyOnLine(ln: real -> real, rt: real, p: TernaryPhase, cA: real, x: real, cB: real, y: real, t: real, b: real)
    requires b == x * (p.fA - p.fC) + y * (p.fB - p.fC)
    ensures Energy3(ln, rt, p, Line(cA, x, t), Line(cB, y, t))
      == FIdealMixTernary(ln, rt, Line(cA, x, t), Line(cB, y, t)) + FMixTernary(p.k, Line(cA, x, t), Line(cB, y, t)) + (Reference(p, cA, cB) + b * t)
  {
    hide FIdealMixTernary, FMixTernary, Line;
    ReferenceOnLine(p.fA, p.fB, p.fC, cA, x, cB, y, t);
  }

  lemma ReferenceOnLine(fA: real, fB: real, fC: real, cA: real, x: real, cB: real, y: real, t: real)
    ensures Line(cA, x, t) * fA + Line(cB, y, t) * fB + (1.0 - Line(cA, x, t) - Line(cB, y, t)) * fC
      == cA * fA + cB * fB + (1.0 - cA - cB) * fC + (x * (fA - fC) + y * (fB - fC)) * t
  {}

  lemma SlopesAlong(ln: real -> real, rt: real, p: TernaryPhase, cA: real, x: real, cB: real, y: real)
    ensures x * SlopeA(ln, rt, p, cA, cB) + y * SlopeB(ln, rt, p, cA, cB)
      == x * (p.fA - p.fC) + y * (p.fB - p.fC) + (x * MixA(p.k, cA, cB) + y * MixB(p.k, cA, cB))
      + (x * FIdealMixA(ln, rt, cA, cB) + y * FIdealMixB(ln, rt, cA, cB))
  {
    hide MixA, MixB, FIdealMixA, FIdealMixB;
    TimesThree(x, p.fA - p.fC, MixA(p.k, cA, cB), FIdealMixA(ln, rt, cA, cB));
    TimesThree(y, p.fB - p.fC, MixB(p.k, cA, cB), FIdealMixB(ln, rt, cA, cB));
  }

  lemma TimesThree(k: real, x: real, y: real, z: real)
    ensures k * (x + y + z) == k * x + k * y + k * z
  {}
}
