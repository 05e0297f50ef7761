/**
 The two binary Newton systems: the partition of a composition between two phases at given phase
 fraction (source/CALPHADConcSolverBinary.C) and the common tangent
 (source/CALPHADEqConcSolverBinary.C), each with or without penalties (the ...WithPenalty.C files).
 */
module BinarySolvers {
  import opened RealFacts
  import opened Calculus
  import opened SmoothLog
  import opened CalphadFunctions
  import opened PhaseEnergies
  import opened Determinant
  import P = Penalty
  import N = NewtonSolver
  import Q = PhaseEquilibrium
  import M = EnergyMinima

  datatype Option<T> = None | Some(value: T)

  // ----- one phase, penalised or not -----

  datatype Phase = Phase(base: BinaryPhase, penalty: Option<P.Params>)

  function PenaltyValue(p: Phase, c: real): real {
    match p.penalty case None => 0.0 case Some(q) => P.Value(q, c)
  }

  function PenaltyDeriv(p: Phase, c: real): real {
    match p.penalty case None => 0.0 case Some(q) => P.Deriv(q, c)
  }

  function PenaltyDeriv2(p: Phase, c: real): real {
    match p.penalty case None => 0.0 case Some(q) => P.Deriv2(q, c)
  }

  function F(ln: real -> real, rt: real, p: Phase, c: real): real {
    Energy(ln, rt, p.base, c) + PenaltyValue(p, c)
  }

  function DF(ln: real -> real, rt: real, p: Phase, c: real): real {
    Slope(ln, rt, p.base, c) + PenaltyDeriv(p, c)
  }

  function D2F(rt: real, p: Phase, c: real): real {
    Curvature(rt, p.base, c) + PenaltyDeriv2(p, c)
  }

  // Where the penalty, if any, has the first and the second derivative that its routines give.

  predicate Joined(p: Phase, c: real) {
    p.penalty.Some? ==> P.Joined(p.penalty.value, c)
  }

  predicate Smooth(p: Phase, c: real) {
    p.penalty.Some? ==> P.SmoothAt(p.penalty.value, c)
  }

  lemma SmoothOffThresholds(p: Phase, c: real)
    requires p.penalty.Some? ==> c != p.penalty.value.alpha1 && c != p.penalty.value.alpha2
    ensures Joined(p, c) && Smooth(p, c)
  {}

  /** DF is the derivative of F, and D2F that of DF, exactly where the penalty is smooth. */
  lemma PhaseExact(ln: real -> real, rt: real, p: Phase, c: real)
    requires IsLog(ln)
    ensures HasDeriv(t => F(ln, rt, p, t), c, DF(ln, rt, p, c)) <==> Joined(p, c)
    ensures HasDeriv(t => DF(ln, rt, p, t), c, D2F(rt, p, c)) <==> Smooth(p, c)
  {
    hide HasDeriv, IsLog, Energy, Slope, Curvature, P.Value, P.Deriv, P.Deriv2, P.Joined, P.SmoothAt;
    BinaryPhaseExact(ln, rt, p.base, c);
    var e, s := t => Energy(ln, rt, p.base, t), t => Slope(ln, rt, p.base, t);
    var f, g := t => F(ln, rt, p, t), t => DF(ln, rt, p, t);
    match p.penalty {
      case None =>
        DerivSame(e, f, c, Slope(ln, rt, p.base, c), DF(ln, rt, p, c));
        DerivSame(s, g, c, Curvature(rt, p.base, c), D2F(rt, p, c));
      case Some(q) =>
        P.DerivExactIff(q, c);
        P.Deriv2ExactIff(q, c);
        AddedDeriv(e, t => P.Value(q, t), f, c, Slope(ln, rt, p.base, c), P.Deriv(q, c), DF(ln, rt, p, c));
        AddedDeriv(s, t => P.Deriv(q, t), g, c, Curvature(rt, p.base, c), P.Deriv2(q, c), D2F(rt, p, c));
    }
  }

  // Adding a differentiable function neither makes nor breaks a derivative.
  lemma AddedDeriv(e: real -> real, v: real -> real, f: real -> real, c: real, a: real, b: real, d: real)
    requires HasDeriv(e, c, a) && d == a + b && forall t :: f(t) == e(t) + v(t)
    ensures HasDeriv(f, c, d) <==> HasDeriv(v, c, b)
  {
    hide *;
    if HasDeriv(v, c, b) {
      DerivAdd(e, v, f, c, a, b, d);
    }
    if HasDeriv(f, c, d) {
      var m := DerivScale(e, -1.0, c, a, -a);
      DerivAdd(f, m, v, c, d, -a, b);
    }
  }

  /** Between the thresholds, or without a penalty, it is the phase energy of the base class. */
  lemma UnpenalisedPhase(ln: real -> real, rt: real, p: Phase, c: real)
    requires p.penalty.Some? ==> p.penalty.value.alpha1 <= c < p.penalty.value.alpha2
    ensures F(ln, rt, p, c) == Energy(ln, rt, p.base, c) && DF(ln, rt, p, c) == Slope(ln, rt, p.base, c)
    ensures D2F(rt, p, c) == Curvature(rt, p.base, c)
  {
    hide Energy, Slope, Curvature;
  }

  // ----- partition of a composition between two phases -----

  datatype Partition = Partition(c0: real, hphi: real, rtinv: real, L: Phase, S: Phase)

  function BaseXi(q: Partition, p: Phase, c: real): real {
    q.rtinv * (p.base.fA - p.base.fB + FMixDerivBinary(p.base.l, c))
  }

  function BaseDXi(q: Partition, p: Phase, c: real): real {
    q.rtinv * FMixDeriv2Binary(p.base.l, c)
  }

  function Xi(q: Partition, p: Phase, c: real): real {
    BaseXi(q, p, c) + q.rtinv * PenaltyDeriv(p, c)
  }

  function DXi(q: Partition, p: Phase, c: real): real {
    BaseDXi(q, p, c) + q.rtinv * PenaltyDeriv2(p, c)
  }

  function PartitionRow0(q: Partition, a: real, b: real): real {
    -q.c0 + (1.0 - q.hphi) * a + q.hphi * b
  }

  function PartitionRow1(ln: real -> real, q: Partition, a: real, b: real): real {
    XLogXDeriv(ln, a) - XLogXDeriv(ln, 1.0 - a) - XLogXDeriv(ln, b) + XLogXDeriv(ln, 1.0 - b)
    + (Xi(q, q.L, a) - Xi(q, q.S, b))
  }

  function PartitionRhs(ln: real -> real, q: Partition, x: Row): Row
    requires |x| == 2
  {
    [PartitionRow0(q, x[0], x[1]), PartitionRow1(ln, q, x[0], x[1])]
  }

  function PartitionJac(q: Partition, x: Row): Matrix
    requires |x| == 2
  {
    [[1.0 - q.hphi, q.hphi],
     [DXi(q, q.L, x[0]) + XLogXDeriv2(x[0]) + XLogXDeriv2(1.0 - x[0]),
      -DXi(q, q.S, x[1]) - XLogXDeriv2(x[1]) - XLogXDeriv2(1.0 - x[1])]]
  }

  class ConcSolverBinary {
    const ln: real -> real
    var q: Partition

    constructor (ln: real -> real, q: Partition)
      ensures this.ln == ln && this.q == q
    {
      this.ln := ln;
      this.q := q;
    }

    // The parameters of phase ii: 0 is the liquid, 1 the solid.
    function PhaseAt(ii: nat): Phase
      requires ii < 2
      reads this
    {
      if ii == 0 then q.L else q.S
    }

    method ComputeBaseXi(c: array<real>, out: array<real>)
      requires c.Length == 2 && out.Length == 2 && c != out
      modifies out
      ensures out[..] == [BaseXi(q, q.L, c[0]), BaseXi(q, q.S, c[1])]
    {
      hide FMixDerivBinary, FMixDeriv2Binary;
      for ii := 0 to 2
        invariant forall k :: 0 <= k < ii ==> out[k] == BaseXi(q, PhaseAt(k), c[k])
      {
        var omega := FMixDerivBinary(PhaseAt(ii).base.l, c[ii]);
        var eps := PhaseAt(ii).base.fA - PhaseAt(ii).base.fB;
        out[ii] := q.rtinv * (eps + omega);
      }
    }

    method ComputeXi(c: array<real>, out: array<real>)
      requires c.Length == 2 && out.Length == 2 && c != out
      modifies out
      ensures out[..] == [Xi(q, q.L, c[0]), Xi(q, q.S, c[1])]
    {
      hide BaseXi;
      ComputeBaseXi(c, out);
      assert out[0] == out[..][0] && out[1] == out[..][1];
      // The penalised class adds to what its base class computed.
      for ii := 0 to 2
        invariant forall k :: 0 <= k < 2 ==> out[k] == if k < ii then Xi(q, PhaseAt(k), c[k]) else BaseXi(q, PhaseAt(k), c[k])
      {
        out[ii] := out[ii] + q.rtinv * PenaltyDeriv(PhaseAt(ii), c[ii]);
      }
    }

    method ComputeBaseDXi(c: array<real>, out: array<real>)
      requires c.Length == 2 && out.Length == 2 && c != out
      modifies out
      ensures out[..] == [BaseDXi(q, q.L, c[0]), BaseDXi(q, q.S, c[1])]
    {
      hide FMixDerivBinary, FMixDeriv2Binary;
      for ii := 0 to 2
        invariant forall k :: 0 <= k < ii ==> out[k] == BaseDXi(q, PhaseAt(k), c[k])
      {
        out[ii] := q.rtinv * FMixDeriv2Binary(PhaseAt(ii).base.l, c[ii]);
      }
    }

    method ComputeDXi(c: array<real>, out: array<real>)
      requires c.Length == 2 && out.Length == 2 && c != out
      modifies out
      ensures out[..] == [DXi(q, q.L, c[0]), DXi(q, q.S, c[1])]
    {
      hide BaseDXi;
      ComputeBaseDXi(c, out);
      assert out[0] == out[..][0] && out[1] == out[..][1];
      // The penalised class adds to what its base class computed.
      for ii := 0 to 2
        invariant forall k :: 0 <= k < 2 ==> out[k] == if k < ii then DXi(q, PhaseAt(k), c[k]) else BaseDXi(q, PhaseAt(k), c[k])
      {
        out[ii] := out[ii] + q.rtinv * PenaltyDeriv2(PhaseAt(ii), c[ii]);
      }
    }

    method RHS(c: array<real>, fvec: array<real>)
      requires c.Length == 2 && fvec.Length == 2 && c != fvec
      modifies fvec
      ensures fvec[..] == PartitionRhs(ln, q, c[..])
    {
      hide Xi, XLogXDeriv;
      var xi := new real[2];
      ComputeXi(c, xi);
      assert xi[0] == xi[..][0] && xi[1] == xi[..][1];
      fvec[0] := -q.c0 + (1.0 - q.hphi) * c[0] + q.hphi * c[1];
      fvec[1] := XLogXDeriv(ln, c[0]) - XLogXDeriv(ln, 1.0 - c[0])
        - XLogXDeriv(ln, c[1]) + XLogXDeriv(ln, 1.0 - c[1])
        + (xi[0] - xi[1]);
      assert fvec[0] == PartitionRow0(q, c[0], c[1]);
      assert fvec[1] == PartitionRow1(ln, q, c[0], c[1]);
    }

    method Jacobian(c: array<real>, fjac: array2<real>)
      requires c.Length == 2 && fjac.Length0 == fjac.Length1 == 2
      modifies fjac
      ensures N.Rows(fjac) == PartitionJac(q, c[..])
    {
      hide DXi, XLogXDeriv2;
      var dxidc := new real[2];
      ComputeDXi(c, dxidc);
      assert dxidc[0] == dxidc[..][0] && dxidc[1] == dxidc[..][1];
      fjac[0, 0] := 1.0 - q.hphi;
      fjac[0, 1] := q.hphi;
      fjac[1, 0] := dxidc[0] + XLogXDeriv2(c[0]) + XLogXDeriv2(1.0 - c[0]);
      fjac[1, 1] := -dxidc[1] - XLogXDeriv2(c[1]) - XLogXDeriv2(1.0 - c[1]);
      N.TwoRows(fjac, PartitionJac(q, c[..]));
    }
  }

  // Row 1 compares the slopes of the two phase energies, in units of RT.
  lemma PartitionRowIsSlopes(ln: real -> real, q: Partition, rt: real, a: real, b: real)
    requires rt * q.rtinv == 1.0
    ensures PartitionRow1(ln, q, a, b) == Times(q.rtinv, DF(ln, rt, q.L, a)) - Times(q.rtinv, DF(ln, rt, q.S, b))
  {
    hide PenaltyDeriv, XLogXDeriv, FMixDerivBinary;
    PartitionSide(ln, q, rt, q.L, a);
    PartitionSide(ln, q, rt, q.S, b);
  }

  lemma PartitionSide(ln: real -> real, q: Partition, rt: real, p: Phase, c: real)
    requires rt * q.rtinv == 1.0
    ensures Xi(q, p, c) + (XLogXDeriv(ln, c) - XLogXDeriv(ln, 1.0 - c)) == Times(q.rtinv, DF(ln, rt, p, c))
    ensures DXi(q, p, c) + (XLogXDeriv2(c) + XLogXDeriv2(1.0 - c)) == Times(q.rtinv, D2F(rt, p, c))
  {
    hide PenaltyDeriv, PenaltyDeriv2, XLogXDeriv, XLogXDeriv2, FMixDerivBinary, FMixDeriv2Binary;
    UnitScale(q.rtinv, rt, XLogXDeriv(ln, c) - XLogXDeriv(ln, 1.0 - c));
    UnitScale(q.rtinv, rt, XLogXDeriv2(c) + XLogXDeriv2(1.0 - c));
  }

  /** What the two residuals measure: the excess of the average over c0, and the difference of the slopes. */
  lemma PartitionResiduals(ln: real -> real, q: Partition, rt: real, a: real, b: real)
    requires rt * q.rtinv == 1.0
    ensures var f := PartitionRhs(ln, q, [a, b]);
      && f[0] == (1.0 - q.hphi) * a + q.hphi * b - q.c0
      && rt * f[1] == DF(ln, rt, q.L, a) - DF(ln, rt, q.S, b)
  {
    hide DF, PartitionRow1;
    var u, v := DF(ln, rt, q.L, a), DF(ln, rt, q.S, b);
    PartitionRowIsSlopes(ln, q, rt, a, b);
    Unscaled(q.rtinv, rt, u, v);
  }

  lemma Unscaled(r: real, rt: real, u: real, v: real)
    requires rt * r == 1.0
    ensures rt * (Times(r, u) - Times(r, v)) == u - v
  {
    assert rt * (r * u - r * v) == (rt * r) * (u - v);
  }

  lemma UnitScale(r: real, rt: real, x: real)
    requires rt * r == 1.0
    ensures r * (rt * x) == x
  {
    assert r * (rt * x) == (rt * r) * x;
  }

  /** Every entry of the partition Jacobian is the partial derivative of its row. */
  lemma PartitionJacobianExact(ln: real -> real, q: Partition, rt: real, a: real, b: real)
    requires IsLog(ln) && rt * q.rtinv == 1.0 && Smooth(q.L, a) && Smooth(q.S, b)
    ensures HasDeriv(t => PartitionRow0(q, t, b), a, PartitionJac(q, [a, b])[0][0])
    ensures HasDeriv(t => PartitionRow0(q, a, t), b, PartitionJac(q, [a, b])[0][1])
    ensures HasDeriv(t => PartitionRow1(ln, q, t, b), a, PartitionJac(q, [a, b])[1][0])
    ensures HasDeriv(t => PartitionRow1(ln, q, a, t), b, PartitionJac(q, [a, b])[1][1])
  {
    hide *;
    PartitionRow0Exact(q, a, b);
    PhaseExact(ln, rt, q.L, a);
    PhaseExact(ln, rt, q.S, b);
    PartitionEntries(q, rt, a, b);
    PartitionColumn(ln, q, rt, a, b, PartitionJac(q, [a, b])[1][0], PartitionJac(q, [a, b])[1][1]);
  }

  lemma PartitionEntries(q: Partition, rt: real, a: real, b: real)
    requires rt * q.rtinv == 1.0
    ensures var j := PartitionJac(q, [a, b]);
      && |j| == 2 && |j[0]| == |j[1]| == 2 && j[0] == [1.0 - q.hphi, q.hphi]
      && j[1][0] == Times(q.rtinv, D2F(rt, q.L, a)) && j[1][1] == Times(-q.rtinv, D2F(rt, q.S, b))
  {
    hide DXi, XLogXDeriv2, D2F, Xi, XLogXDeriv, DF, Times;
    NegatedTimes(q.rtinv, D2F(rt, q.S, b));
    PartitionSide((t: real) => 0.0, q, rt, q.L, a);
    PartitionSide((t: real) => 0.0, q, rt, q.S, b);
  }

  lemma PartitionRow0Exact(q: Partition, a: real, b: real)
    ensures HasDeriv(t => PartitionRow0(q, t, b), a, 1.0 - q.hphi)
    ensures HasDeriv(t => PartitionRow0(q, a, t), b, q.hphi)
  {
    hide HasDeriv;
    DerivLine(t => PartitionRow0(q, t, b), -q.c0 + q.hphi * b, 1.0 - q.hphi, a);
    DerivLine(t => PartitionRow0(q, a, t), -q.c0 + (1.0 - q.hphi) * a, q.hphi, b);
  }

  lemma PartitionColumn(ln: real -> real, q: Partition, rt: real, a: real, b: real, da: real, db: real)
    requires rt * q.rtinv == 1.0
    requires HasDeriv(t => DF(ln, rt, q.L, t), a, D2F(rt, q.L, a)) && da == Times(q.rtinv, D2F(rt, q.L, a))
    requires HasDeriv(t => DF(ln, rt, q.S, t), b, D2F(rt, q.S, b)) && db == Times(-q.rtinv, D2F(rt, q.S, b))
    ensures HasDeriv(t => PartitionRow1(ln, q, t, b), a, da)
    ensures HasDeriv(t => PartitionRow1(ln, q, a, t), b, db)
  {
    hide HasDeriv, DF, D2F, PartitionRow1;
    var f, g := t => PartitionRow1(ln, q, t, b), t => PartitionRow1(ln, q, a, t);
    PartitionColumnA(ln, q, rt, a, b, da, t => DF(ln, rt, q.L, t), f);
    PartitionColumnB(ln, q, rt, a, b, db, t => DF(ln, rt, q.S, t), g);
  }

  lemma PartitionColumnA(ln: real -> real, q: Partition, rt: real, a: real, b: real, da: real, u: real -> real, f: real -> real)
    requires rt * q.rtinv == 1.0 && HasDeriv(u, a, D2F(rt, q.L, a)) && da == Times(q.rtinv, D2F(rt, q.L, a))
    requires forall t :: u(t) == DF(ln, rt, q.L, t) && f(t) == PartitionRow1(ln, q, t, b)
    ensures HasDeriv(f, a, da)
  {
    hide *;
    var ru := ScaleTimes(u, q.rtinv, a, D2F(rt, q.L, a), da);
    var rest := Times(q.rtinv, DF(ln, rt, q.S, b));
    forall t
      ensures f(t) == ru(t) + (-rest + 0.0 * t)
    {
      PartitionRowIsSlopes(ln, q, rt, t, b);
    }
    DerivAddLine(ru, f, a, da, -rest, 0.0, da);
  }

  lemma PartitionColumnB(ln: real -> real, q: Partition, rt: real, a: real, b: real, db: real, v: real -> real, g: real -> real)
    requires rt * q.rtinv == 1.0 && HasDeriv(v, b, D2F(rt, q.S, b)) && db == Times(-q.rtinv, D2F(rt, q.S, b))
    requires forall t :: v(t) == DF(ln, rt, q.S, t) && g(t) == PartitionRow1(ln, q, a, t)
    ensures HasDeriv(g, b, db)
  {
    hide *;
    var rv := ScaleTimes(v, -q.rtinv, b, D2F(rt, q.S, b), db);
    var rest := Times(q.rtinv, DF(ln, rt, q.L, a));
    forall t
      ensures g(t) == rv(t) + (rest + 0.0 * t)
    {
      PartitionRowIsSlopes(ln, q, rt, a, t);
      NegatedTimes(q.rtinv, v(t));
    }
    DerivAddLine(rv, g, b, db, rest, 0.0, db);
  }

  lemma NegatedTimes(r: real, x: real)
    ensures Times(-r, x) == -Times(r, x)
  {}

  /** The partition Jacobian has determinant -((1 - h) g_S' + h g_L') / RT ... */
  lemma PartitionDeterminant(q: Partition, rt: real, x: Row)
    requires |x| == 2 && rt * q.rtinv == 1.0
    ensures Square(PartitionJac(q, x))
    ensures Det(PartitionJac(q, x)) == -(q.rtinv * ((1.0 - q.hphi) * D2F(rt, q.S, x[1]) + q.hphi * D2F(rt, q.L, x[0])))
  {
    hide D2F, PartitionJac, Det;
    var j := PartitionJac(q, x);
    assert x == [x[0], x[1]];
    PartitionEntries(q, rt, x[0], x[1]);
    N.Det2(j);
    TwoByTwo(q.hphi, q.rtinv, D2F(rt, q.L, x[0]), D2F(rt, q.S, x[1]), j[1][0], j[1][1]);
  }

  lemma TwoByTwo(h: real, r: real, l: real, s: real, j10: real, j11: real)
    requires j10 == Times(r, l) && j11 == Times(-r, s)
    ensures (1.0 - h) * j11 - j10 * h == -(r * ((1.0 - h) * s + h * l))
  {}

  /** ... so if both curvatures are at least g > 0 its size is at least g / RT and the Newton step exists. */
  lemma PartitionNonsingular(q: Partition, rt: real, x: Row, g: real)
    requires |x| == 2 && rt * q.rtinv == 1.0 && q.rtinv > 0.0 && 0.0 <= q.hphi <= 1.0
    requires 0.0 < g <= D2F(rt, q.L, x[0]) && g <= D2F(rt, q.S, x[1])
    ensures Square(PartitionJac(q, x)) && Det(PartitionJac(q, x)) <= -(q.rtinv * g) < 0.0
  {
    hide D2F, PartitionJac, Det;
    PartitionDeterminant(q, rt, x);
    var l, s := D2F(rt, q.L, x[0]), D2F(rt, q.S, x[1]);
    Q.WeightedLe(q.hphi, g, g, s, l);
    ScaleLe(q.rtinv, g, (1.0 - q.hphi) * s + q.hphi * l);
  }

  lemma ScaleLe(r: real, x: real, y: real)
    requires r > 0.0 && 0.0 < x <= y
    ensures 0.0 < r * x <= r * y
  {}

  function PartitionSystem(ln: real -> real, q: Partition): N.System {
    N.System(2, x => if |x| == 2 then PartitionRhs(ln, q, x) else [], x => if |x| == 2 then PartitionJac(q, x) else [])
  }

  lemma PartitionSystemShape(ln: real -> real, q: Partition)
    ensures N.WellFormed(PartitionSystem(ln, q))
    ensures N.AffineRow(PartitionSystem(ln, q), 0, [1.0 - q.hphi, q.hphi], q.c0)
  {
    hide PartitionRhs, PartitionJac, N.Dot, Det, Square;
    var s, w := PartitionSystem(ln, q), [1.0 - q.hphi, q.hphi];
    forall x: Row | |x| == 2
      ensures |s.rhs(x)| == 2 && |s.jac(x)| == 2 && Square(s.jac(x))
      ensures s.rhs(x)[0] == N.Dot(w, x) - q.c0 && s.jac(x)[0] == w
    {
      PartitionSystemAt(ln, q, x);
    }
  }

  lemma PartitionSystemAt(ln: real -> real, q: Partition, x: Row)
    requires |x| == 2
    ensures |PartitionRhs(ln, q, x)| == 2 && |PartitionJac(q, x)| == 2 && Square(PartitionJac(q, x))
    ensures PartitionRhs(ln, q, x)[0] == N.Dot([1.0 - q.hphi, q.hphi], x) - q.c0
    ensures PartitionJac(q, x)[0] == [1.0 - q.hphi, q.hphi]
  {
    hide PartitionRow1, DXi, XLogXDeriv2, N.Dot;
    N.Dot2([1.0 - q.hphi, q.hphi], x);
  }

  /** In every unclamped run the average composition approaches c0 by a factor 1 - alpha a step. */
  lemma PartitionMassBalance(ln: real -> real, q: Partition, alpha: real, x: Row, k: nat)
    requires |x| == 2 && N.WellFormed(PartitionSystem(ln, q))
    requires N.Runs(PartitionSystem(ln, q), alpha, x, k) && N.UnclampedRun(PartitionSystem(ln, q), alpha, x, k)
    ensures var y := N.Iterate(PartitionSystem(ln, q), alpha, x, k);
      (1.0 - q.hphi) * y[0] + q.hphi * y[1] - q.c0
      == N.Power(1.0 - alpha, k) * ((1.0 - q.hphi) * x[0] + q.hphi * x[1] - q.c0)
  {
    hide N.Power, N.Runs, N.UnclampedRun, N.Iterate, N.WellFormed, N.AffineRow, PartitionRow1;
    PartitionSystemShape(ln, q);
    N.MassBalance(PartitionSystem(ln, q), alpha, x, k, 0, [1.0 - q.hphi, q.hphi], q.c0);
  }

  /**
   For convex phases at most one zero exists, and it has the least energy (1 - h) f_L + h f_S among
   all pairs of the same average composition.
   */
  lemma PartitionZero(ln: real -> real, q: Partition, rt: real, dom: real -> bool, x: Row, y: Row)
    requires |x| == |y| == 2 && rt * q.rtinv == 1.0 && 0.0 <= q.hphi <= 1.0
    requires Q.StrictlyConvex(t => F(ln, rt, q.L, t), t => DF(ln, rt, q.L, t), dom)
    requires Q.StrictlyConvex(t => F(ln, rt, q.S, t), t => DF(ln, rt, q.S, t), dom)
    requires dom(x[0]) && dom(x[1]) && dom(y[0]) && dom(y[1])
    requires PartitionRhs(ln, q, x) == [0.0, 0.0]
    ensures PartitionRhs(ln, q, y) == [0.0, 0.0] ==> y == x
    ensures PartitionRow0(q, y[0], y[1]) == 0.0 ==>
      (1.0 - q.hphi) * F(ln, rt, q.L, y[0]) + q.hphi * F(ln, rt, q.S, y[1])
      >= (1.0 - q.hphi) * F(ln, rt, q.L, x[0]) + q.hphi * F(ln, rt, q.S, x[1])
  {
    hide F, DF, Q.StrictlyConvex, PartitionRow0, PartitionRow1;
    var fL, dL := t => F(ln, rt, q.L, t), t => DF(ln, rt, q.L, t);
    var fS, dS := t => F(ln, rt, q.S, t), t => DF(ln, rt, q.S, t);
    EqualSlopes(ln, q, rt, x[0], x[1]);
    EqualSlopes(ln, q, rt, y[0], y[1]);
    if PartitionRow0(q, y[0], y[1]) == 0.0 {
      EqualAverages(q, x[0], x[1], y[0], y[1]);
      Q.PartitionMinimalAt(fL, dL, fS, dS, dom, q.hphi, x[0], x[1], y[0], y[1],
                           F(ln, rt, q.L, x[0]), F(ln, rt, q.S, x[1]), F(ln, rt, q.L, y[0]), F(ln, rt, q.S, y[1]));
      if PartitionRow1(ln, q, y[0], y[1]) == 0.0 {
        Q.PartitionUnique(fL, dL, fS, dS, dom, q.hphi, x[0], x[1], y[0], y[1]);
      }
    }
  }

  /** For 0 < h < 1 and compositions inside the domain, the zeros are exactly the pairs of least energy. */
  lemma PartitionIffLeast(ln: real -> real, q: Partition, rt: real, dom: real -> bool, x: Row, r: real)
    requires IsLog(ln) && |x| == 2 && rt * q.rtinv == 1.0 && 0.0 < q.hphi < 1.0
    requires Q.StrictlyConvex(t => F(ln, rt, q.L, t), t => DF(ln, rt, q.L, t), dom)
    requires Q.StrictlyConvex(t => F(ln, rt, q.S, t), t => DF(ln, rt, q.S, t), dom)
    requires M.Inside(dom, x[0], r) && M.Inside(dom, x[1], r) && Joined(q.L, x[0]) && Joined(q.S, x[1])
    requires PartitionRow0(q, x[0], x[1]) == 0.0
    ensures PartitionRhs(ln, q, x) == [0.0, 0.0]
      <==> M.LeastPartition(t => F(ln, rt, q.L, t), t => F(ln, rt, q.S, t), dom, q.hphi, x[0], x[1])
  {
    hide HasDeriv, IsLog, F, DF, D2F, Joined, Smooth, Q.StrictlyConvex, M.Inside, M.LeastPartition, PartitionRow0, PartitionRow1;
    EqualSlopes(ln, q, rt, x[0], x[1]);
    PhaseExact(ln, rt, q.L, x[0]);
    PhaseExact(ln, rt, q.S, x[1]);
    M.PartitionIffLeast(t => F(ln, rt, q.L, t), t => DF(ln, rt, q.L, t), t => F(ln, rt, q.S, t), t => DF(ln, rt, q.S, t),
                        dom, q.hphi, x[0], x[1], r);
  }

  lemma EqualAverages(q: Partition, a: real, b: real, a': real, b': real)
    requires PartitionRow0(q, a, b) == 0.0 && PartitionRow0(q, a', b') == 0.0
    ensures (1.0 - q.hphi) * a + q.hphi * b == (1.0 - q.hphi) * a' + q.hphi * b'
  {}

  lemma EqualSlopes(ln: real -> real, q: Partition, rt: real, a: real, b: real)
    requires rt * q.rtinv == 1.0
    ensures PartitionRow1(ln, q, a, b) == 0.0 <==> DF(ln, rt, q.L, a) == DF(ln, rt, q.S, b)
  {
    hide DF, PartitionRow1;
    PartitionRowIsSlopes(ln, q, rt, a, b);
    var u, v := DF(ln, rt, q.L, a), DF(ln, rt, q.S, b);
    assert q.rtinv * u - q.rtinv * v == q.rtinv * (u - v);
  }

  // ----- the common tangent -----

  datatype Equilibrium = Equilibrium(rt: real, L: Phase, S: Phase)

  function EquilibriumRow0(ln: real -> real, e: Equilibrium, a: real, b: real): real {
    F(ln, e.rt, e.L, a) - F(ln, e.rt, e.S, b) - (a - b) * DF(ln, e.rt, e.S, b)
  }

  function EquilibriumRow1(ln: real -> real, e: Equilibrium, a: real, b: real): real {
    DF(ln, e.rt, e.L, a) - DF(ln, e.rt, e.S, b)
  }

  function EquilibriumJac(ln: real -> real, e: Equilibrium, a: real, b: real): (m: Matrix)
    ensures |m| == 2 && |m[0]| == |m[1]| == 2
  {
    [[DF(ln, e.rt, e.L, a) - DF(ln, e.rt, e.S, b), -(a - b) * D2F(e.rt, e.S, b)],
     [D2F(e.rt, e.L, a), -D2F(e.rt, e.S, b)]]
  }

  // What the unpenalised class computes, and what the penalised class adds, in row 0.

  function BaseRow0(ln: real -> real, e: Equilibrium, a: real, b: real): real {
    Energy(ln, e.rt, e.L.base, a) - Energy(ln, e.rt, e.S.base, b) - (a - b) * Slope(ln, e.rt, e.S.base, b)
  }

  function AddedRow0(e: Equilibrium, a: real, b: real): real {
    PenaltyValue(e.L, a) - PenaltyValue(e.S, b) - (a - b) * PenaltyDeriv(e.S, b)
  }

  function BaseChord(e: Equilibrium, a: real, b: real): real {
    -(a - b) * Curvature(e.rt, e.S.base, b)
  }

  function AddedChord(e: Equilibrium, a: real, b: real): real {
    (a - b) * PenaltyDeriv2(e.S, b)
  }

  lemma PenaltyAdds(ln: real -> real, e: Equilibrium, a: real, b: real)
    ensures EquilibriumRow0(ln, e, a, b) == BaseRow0(ln, e, a, b) + AddedRow0(e, a, b)
    ensures var j := EquilibriumJac(ln, e, a, b);
      && j[0][0] == (Slope(ln, e.rt, e.L.base, a) - Slope(ln, e.rt, e.S.base, b)) + (PenaltyDeriv(e.L, a) - PenaltyDeriv(e.S, b))
      && j[0][1] == BaseChord(e, a, b) - AddedChord(e, a, b)
      && j[1][0] == Curvature(e.rt, e.L.base, a) + PenaltyDeriv2(e.L, a)
      && j[1][1] == -Curvature(e.rt, e.S.base, b) - PenaltyDeriv2(e.S, b)
  {
    hide Energy, Slope, Curvature, PenaltyValue, PenaltyDeriv, PenaltyDeriv2;
    Split(a - b, Slope(ln, e.rt, e.S.base, b), PenaltyDeriv(e.S, b));
    Split(a - b, Curvature(e.rt, e.S.base, b), PenaltyDeriv2(e.S, b));
  }

  lemma Split(d: real, x: real, y: real)
    ensures d * (x + y) == d * x + d * y
    ensures -d * (x + y) == -d * x - d * y
  {}

  class EqConcSolverBinary {
    const ln: real -> real
    var e: Equilibrium

    constructor (ln: real -> real, e: Equilibrium)
      ensures this.ln == ln && this.e == e
    {
      this.ln := ln;
      this.e := e;
    }

    function PhaseAt(ii: nat): Phase
      requires ii < 2
      reads this
    {
      if ii == 0 then e.L else e.S
    }

    // The unpenalised slopes of the two phases.
    method ComputeSlopes(c: array<real>, dfdci: array<real>)
      requires c.Length == 2 && dfdci.Length == 2 && c != dfdci
      modifies dfdci
      ensures dfdci[0] == Slope(ln, e.rt, e.L.base, c[0]) && dfdci[1] == Slope(ln, e.rt, e.S.base, c[1])
    {
      hide FMixDerivBinary, FIdealMixDerivBinary;
      for ii := 0 to 2
        invariant forall k :: 0 <= k < ii ==> dfdci[k] == Slope(ln, e.rt, PhaseAt(k).base, c[k])
      {
        dfdci[ii] := PhaseAt(ii).base.fA - PhaseAt(ii).base.fB
          + FMixDerivBinary(PhaseAt(ii).base.l, c[ii])
          + FIdealMixDerivBinary(ln, e.rt, c[ii]);
      }
    }

    method BaseRHS(c: array<real>, fvec: array<real>)
      requires c.Length == 2 && fvec.Length == 2 && c != fvec
      modifies fvec
      ensures fvec[0] == BaseRow0(ln, e, c[0], c[1])
      ensures fvec[1] == Slope(ln, e.rt, e.L.base, c[0]) - Slope(ln, e.rt, e.S.base, c[1])
    {
      hide FMixBinary, FIdealMixBinary, Slope;
      var dfdci := new real[2];
      ComputeSlopes(c, dfdci);
      var L, S := e.L.base, e.S.base;
      fvec[0] :=
        c[0] * L.fA + (1.0 - c[0]) * L.fB
        + FIdealMixBinary(ln, e.rt, c[0])
        + FMixBinary(L.l, c[0])
        - c[1] * S.fA - (1.0 - c[1]) * S.fB
        - FIdealMixBinary(ln, e.rt, c[1])
        - FMixBinary(S.l, c[1])
        - (c[0] - c[1]) * dfdci[1];
      fvec[1] := dfdci[0] - dfdci[1];
    }

    // The penalised class adds to what its base class computed.
    method RHS(c: array<real>, fvec: array<real>)
      requires c.Length == 2 && fvec.Length == 2 && c != fvec
      modifies fvec
      ensures fvec[..] == [EquilibriumRow0(ln, e, c[0], c[1]), EquilibriumRow1(ln, e, c[0], c[1])]
    {
      hide Energy, Slope, PenaltyDeriv, EquilibriumRow0, BaseRow0, AddedRow0;
      BaseRHS(c, fvec);
      var d0, d1 := PenaltyDeriv(e.L, c[0]), PenaltyDeriv(e.S, c[1]);
      PenaltyAdds(ln, e, c[0], c[1]);
      fvec[0] := fvec[0] + AddedRow0(e, c[0], c[1]);
      fvec[1] := fvec[1] + (d0 - d1);
    }

    method BaseJacobian(c: array<real>, fjac: array2<real>)
      requires c.Length == 2 && fjac.Length0 == fjac.Length1 == 2
      modifies fjac
      ensures fjac[0, 0] == Slope(ln, e.rt, e.L.base, c[0]) - Slope(ln, e.rt, e.S.base, c[1])
      ensures fjac[0, 1] == BaseChord(e, c[0], c[1])
      ensures fjac[1, 0] == Curvature(e.rt, e.L.base, c[0]) && fjac[1, 1] == -Curvature(e.rt, e.S.base, c[1])
    {
      hide FMixDeriv2Binary, FIdealMixDeriv2Binary, Slope;
      var dfdci := new real[2];
      ComputeSlopes(c, dfdci);
      var L, S := e.L.base, e.S.base;
      fjac[0, 0] := dfdci[0] - dfdci[1];
      fjac[0, 1] := -(c[0] - c[1]) * (FIdealMixDeriv2Binary(e.rt, c[1]) + FMixDeriv2Binary(S.l, c[1]));
      fjac[1, 0] := FMixDeriv2Binary(L.l, c[0]) + FIdealMixDeriv2Binary(e.rt, c[0]);
      fjac[1, 1] := -FMixDeriv2Binary(S.l, c[1]) - FIdealMixDeriv2Binary(e.rt, c[1]);
    }

    method Jacobian(c: array<real>, fjac: array2<real>)
      requires c.Length == 2 && fjac.Length0 == fjac.Length1 == 2
      modifies fjac
      ensures N.Rows(fjac) == EquilibriumJac(ln, e, c[0], c[1])
    {
      hide Slope, Curvature, PenaltyDeriv, PenaltyDeriv2, BaseChord, AddedChord, EquilibriumJac;
      BaseJacobian(c, fjac);
      PenaltyAdds(ln, e, c[0], c[1]);
      fjac[0, 0] := fjac[0, 0] + (PenaltyDeriv(e.L, c[0]) - PenaltyDeriv(e.S, c[1]));
      fjac[0, 1] := fjac[0, 1] - AddedChord(e, c[0], c[1]);
      fjac[1, 0] := fjac[1, 0] + PenaltyDeriv2(e.L, c[0]);
      fjac[1, 1] := fjac[1, 1] - PenaltyDeriv2(e.S, c[1]);
      N.TwoRows(fjac, EquilibriumJac(ln, e, c[0], c[1]));
    }
  }

  /**
   What the two residuals measure: the height of f_L at a above the tangent of f_S at b, and the
   difference of the slopes.
   */
  lemma EquilibriumResiduals(ln: real -> real, e: Equilibrium, a: real, b: real)
    ensures EquilibriumRow0(ln, e, a, b) == F(ln, e.rt, e.L, a) - (F(ln, e.rt, e.S, b) + DF(ln, e.rt, e.S, b) * (a - b))
    ensures EquilibriumRow1(ln, e, a, b) == DF(ln, e.rt, e.L, a) - DF(ln, e.rt, e.S, b)
  {
    hide F, DF;
  }

  /** Raising the reference energies of the liquid by x and y raises the residuals by a x + (1 - a) y and x - y. */
  lemma EquilibriumShift(ln: real -> real, e: Equilibrium, x: real, y: real, a: real, b: real)
    ensures var g := e.(L := e.L.(base := e.L.base.(fA := e.L.base.fA + x, fB := e.L.base.fB + y)));
      && EquilibriumRow0(ln, g, a, b) == EquilibriumRow0(ln, e, a, b) + (a * x + (1.0 - a) * y)
      && EquilibriumRow1(ln, g, a, b) == EquilibriumRow1(ln, e, a, b) + (x - y)
  {
    hide F, DF;
    RaisedPhase(ln, e.rt, e.L, x, y, a);
  }

  lemma RaisedPhase(ln: real -> real, rt: real, p: Phase, x: real, y: real, c: real)
    ensures var q := p.(base := p.base.(fA := p.base.fA + x, fB := p.base.fB + y));
      && F(ln, rt, q, c) == F(ln, rt, p, c) + (c * x + (1.0 - c) * y)
      && DF(ln, rt, q, c) == DF(ln, rt, p, c) + (x - y)
  {
    hide Energy, Slope, PenaltyValue, PenaltyDeriv;
    SamePenalty(p, p.(base := p.base.(fA := p.base.fA + x, fB := p.base.fB + y)), c);
    ReferenceShift(ln, rt, p.base, x, y, c);
  }

  lemma SamePenalty(p: Phase, q: Phase, c: real)
    requires p.penalty == q.penalty
    ensures PenaltyValue(p, c) == PenaltyValue(q, c) && PenaltyDeriv(p, c) == PenaltyDeriv(q, c)
  {}

  /** Every entry of the equilibrium Jacobian is the partial derivative of its row, the cancellation in row 0 included. */
  lemma EquilibriumJacobianExact(ln: real -> real, e: Equilibrium, a: real, b: real)
    requires IsLog(ln) && Joined(e.L, a) && Smooth(e.L, a) && Joined(e.S, b) && Smooth(e.S, b)
    ensures var j := EquilibriumJac(ln, e, a, b);
      && HasDeriv(t => EquilibriumRow0(ln, e, t, b), a, j[0][0])
      && HasDeriv(t => EquilibriumRow0(ln, e, a, t), b, j[0][1])
      && HasDeriv(t => EquilibriumRow1(ln, e, t, b), a, j[1][0])
      && HasDeriv(t => EquilibriumRow1(ln, e, a, t), b, j[1][1])
  {
    hide HasDeriv, IsLog, F, DF, D2F, Joined, Smooth;
    PhaseExact(ln, e.rt, e.L, a);
    PhaseExact(ln, e.rt, e.S, b);
    EquilibriumColumnA(ln, e, a, b);
    EquilibriumColumnB(ln, e, a, b);
    var j := EquilibriumJac(ln, e, a, b);
    assert j[0][1] == -(a - b) * D2F(e.rt, e.S, b) && j[1][1] == -D2F(e.rt, e.S, b);
  }

  lemma EquilibriumColumnA(ln: real -> real, e: Equilibrium, a: real, b: real)
    requires HasDeriv(t => F(ln, e.rt, e.L, t), a, DF(ln, e.rt, e.L, a))
    requires HasDeriv(t => DF(ln, e.rt, e.L, t), a, D2F(e.rt, e.L, a))
    ensures HasDeriv(t => EquilibriumRow0(ln, e, t, b), a, DF(ln, e.rt, e.L, a) - DF(ln, e.rt, e.S, b))
    ensures HasDeriv(t => EquilibriumRow1(ln, e, t, b), a, D2F(e.rt, e.L, a))
  {
    hide HasDeriv, F, DF, D2F;
    var f, g, m := t => F(ln, e.rt, e.L, t), t => DF(ln, e.rt, e.L, t), DF(ln, e.rt, e.S, b);
    DerivAddLine(f, t => EquilibriumRow0(ln, e, t, b), a, DF(ln, e.rt, e.L, a), -F(ln, e.rt, e.S, b) + b * m, -m, DF(ln, e.rt, e.L, a) - m);
    DerivAddLine(g, t => EquilibriumRow1(ln, e, t, b), a, D2F(e.rt, e.L, a), -m, 0.0, D2F(e.rt, e.L, a));
  }

  lemma EquilibriumColumnB(ln: real -> real, e: Equilibrium, a: real, b: real)
    requires HasDeriv(t => F(ln, e.rt, e.S, t), b, DF(ln, e.rt, e.S, b))
    requires HasDeriv(t => DF(ln, e.rt, e.S, t), b, D2F(e.rt, e.S, b))
    ensures HasDeriv(t => EquilibriumRow0(ln, e, a, t), b, -(a - b) * D2F(e.rt, e.S, b))
    ensures HasDeriv(t => EquilibriumRow1(ln, e, a, t), b, -D2F(e.rt, e.S, b))
  {
    hide HasDeriv, F, DF, D2F, EquilibriumRow0, EquilibriumRow1;
    ChordColumnB(ln, e, a, b, t => EquilibriumRow0(ln, e, a, t));
    SlopeColumnB(ln, e, a, b, t => EquilibriumRow1(ln, e, a, t));
  }

  lemma SlopeColumnB(ln: real -> real, e: Equilibrium, a: real, b: real, row1: real -> real)
    requires HasDeriv(t => DF(ln, e.rt, e.S, t), b, D2F(e.rt, e.S, b))
    requires forall t :: row1(t) == EquilibriumRow1(ln, e, a, t)
    ensures HasDeriv(row1, b, -D2F(e.rt, e.S, b))
  {
    hide HasDeriv, F, DF, D2F;
    var g := t => DF(ln, e.rt, e.S, t);
    var h := DerivScale(g, -1.0, b, D2F(e.rt, e.S, b), -D2F(e.rt, e.S, b));
    DerivAddLine(h, row1, b, -D2F(e.rt, e.S, b), DF(ln, e.rt, e.L, a), 0.0, -D2F(e.rt, e.S, b));
  }

  lemma ChordColumnB(ln: real -> real, e: Equilibrium, a: real, b: real, row0: real -> real)
    requires HasDeriv(t => F(ln, e.rt, e.S, t), b, DF(ln, e.rt, e.S, b))
    requires HasDeriv(t => DF(ln, e.rt, e.S, t), b, D2F(e.rt, e.S, b))
    requires forall t :: row0(t) == EquilibriumRow0(ln, e, a, t)
    ensures HasDeriv(row0, b, -(a - b) * D2F(e.rt, e.S, b))
  {
    hide HasDeriv, F, DF, D2F;
    var f, g := t => F(ln, e.rt, e.S, t), t => DF(ln, e.rt, e.S, t);
    DerivForm(f, g, g, row0, b, DF(ln, e.rt, e.S, b), D2F(e.rt, e.S, b), D2F(e.rt, e.S, b),
              -1.0, -a, 1.0, 0.0, F(ln, e.rt, e.L, a), 0.0, -(a - b) * D2F(e.rt, e.S, b));
  }

  /** A zero of the system is exactly a common tangent; for convex phases it gives the split of least energy. */
  lemma EquilibriumIsTangent(ln: real -> real, e: Equilibrium, a: real, b: real)
    ensures var fL, dL := t => F(ln, e.rt, e.L, t), t => DF(ln, e.rt, e.L, t);
      var fS, dS := t => F(ln, e.rt, e.S, t), t => DF(ln, e.rt, e.S, t);
      EquilibriumRow0(ln, e, a, b) == 0.0 && EquilibriumRow1(ln, e, a, b) == 0.0
      <==> Q.HasCommonTangent(fL, dL, fS, dS, a, b)
    ensures EquilibriumRow0(ln, e, a, b) == 0.0 && EquilibriumRow1(ln, e, a, b) == 0.0
      <==> EquilibriumRow0(ln, e.(L := e.S, S := e.L), b, a) == 0.0 && EquilibriumRow1(ln, e.(L := e.S, S := e.L), b, a) == 0.0
  {
    hide F, DF, Q.HasCommonTangent;
    Q.ZeroIffTangent(t => F(ln, e.rt, e.L, t), t => DF(ln, e.rt, e.L, t), t => F(ln, e.rt, e.S, t), t => DF(ln, e.rt, e.S, t), a, b);
  }

  lemma EquilibriumSplitMinimal(ln: real -> real, e: Equilibrium, dom: real -> bool,
                                a: real, b: real, h: real, a': real, b': real, h': real)
    requires Q.StrictlyConvex(t => F(ln, e.rt, e.L, t), t => DF(ln, e.rt, e.L, t), dom)
    requires Q.StrictlyConvex(t => F(ln, e.rt, e.S, t), t => DF(ln, e.rt, e.S, t), dom)
    requires dom(a) && dom(b) && dom(a') && dom(b') && 0.0 <= h' <= 1.0
    requires EquilibriumRow0(ln, e, a, b) == 0.0 && EquilibriumRow1(ln, e, a, b) == 0.0
    requires (1.0 - h) * a + h * b == (1.0 - h') * a' + h' * b'
    ensures (1.0 - h') * F(ln, e.rt, e.L, a') + h' * F(ln, e.rt, e.S, b')
      >= (1.0 - h) * F(ln, e.rt, e.L, a) + h * F(ln, e.rt, e.S, b)
  {
    hide F, DF, Q.StrictlyConvex;
    Q.EquilibriumMinimal(t => F(ln, e.rt, e.L, t), t => DF(ln, e.rt, e.L, t),
                         t => F(ln, e.rt, e.S, t), t => DF(ln, e.rt, e.S, t), dom, a, b, h, a', b', h');
  }

  /** For 0 < h < 1 and compositions inside the domain, the zeros are exactly the splits of least energy. */
  lemma EquilibriumIffLeast(ln: real -> real, e: Equilibrium, dom: real -> bool, a: real, b: real, h: real, r: real)
    requires IsLog(ln) && 0.0 < h < 1.0
    requires Q.StrictlyConvex(t => F(ln, e.rt, e.L, t), t => DF(ln, e.rt, e.L, t), dom)
    requires Q.StrictlyConvex(t => F(ln, e.rt, e.S, t), t => DF(ln, e.rt, e.S, t), dom)
    requires M.Inside(dom, a, r) && M.Inside(dom, b, r) && Joined(e.L, a) && Joined(e.S, b)
    ensures EquilibriumRow0(ln, e, a, b) == 0.0 && EquilibriumRow1(ln, e, a, b) == 0.0
      <==> M.LeastSplit(t => F(ln, e.rt, e.L, t), t => F(ln, e.rt, e.S, t), dom, h, a, b)
  {
    hide HasDeriv, IsLog, F, DF, D2F, Joined, Smooth, Q.StrictlyConvex, M.Inside, M.LeastSplit;
    PhaseExact(ln, e.rt, e.L, a);
    PhaseExact(ln, e.rt, e.S, b);
    M.EquilibriumIffLeast(t => F(ln, e.rt, e.L, t), t => DF(ln, e.rt, e.L, t), t => F(ln, e.rt, e.S, t), t => DF(ln, e.rt, e.S, t),
                          dom, h, a, b, r);
  }
}
