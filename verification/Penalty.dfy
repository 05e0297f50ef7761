/**
 The penalty that keeps a composition between alpha1 and alpha2, and its two derivative routines
 (source/CALPHADFunctions.C).  The first derivative is exact wherever the thresholds
 are in order.  The second is exact except at a threshold whose quadratic coefficient is not zero.
 */
module Penalty {
  import opened RealFacts
  import opened Calculus
  import opened RedlichKister

  datatype Params = Params(alpha1: real, p12: real, p13: real, alpha2: real, p22: real, p23: real)

  function Value(q: Params, conc: real): real {
    if conc < q.alpha1 then
      var dd := q.alpha1 - conc;
      (q.p12 + q.p13 * dd) * dd * dd
    else if conc >= q.alpha2 then
      var dd := conc - q.alpha2;
      (q.p22 + q.p23 * dd) * dd * dd
    else
      0.0
  }

  function Deriv(q: Params, conc: real): real {
    if conc < q.alpha1 then
      var dd := q.alpha1 - conc;
      (-2.0 * q.p12 - 3.0 * q.p13 * dd) * dd
    else if conc >= q.alpha2 then
      var dd := conc - q.alpha2;
      (2.0 * q.p22 + 3.0 * q.p23 * dd) * dd
    else
      0.0
  }

  function Deriv2(q: Params, conc: real): real {
    if conc < q.alpha1 then
      var dd := q.alpha1 - conc;
      2.0 * q.p12 + 6.0 * q.p13 * dd
    else if conc >= q.alpha2 then
      var dd := conc - q.alpha2;
      2.0 * q.p22 + 6.0 * q.p23 * dd
    else
      0.0
  }

  /** No penalty between the thresholds; at a distance d below or above them, p2 d^2 + p3 d^3 of that threshold. */
  lemma PenaltyLevel(q: Params, d: real)
    ensures forall c :: q.alpha1 <= c < q.alpha2 ==> Value(q, c) == 0.0
    ensures d > 0.0 ==> Value(q, q.alpha1 - d) == q.p12 * (d * d) + q.p13 * (d * d * d)
    ensures d >= 0.0 && q.alpha2 + d >= q.alpha1 ==> Value(q, q.alpha2 + d) == q.p22 * (d * d) + q.p23 * (d * d * d)
  {
    assert (q.p12 + q.p13 * d) * d * d == q.p12 * (d * d) + q.p13 * (d * d * d);
    assert (q.p22 + q.p23 * d) * d * d == q.p22 * (d * d) + q.p23 * (d * d * d);
    assert q.alpha1 - (q.alpha1 - d) == d && q.alpha2 + d - q.alpha2 == d;
  }

  // One side of the penalty, continued to all compositions: a dd^2 + b dd^3 with dd = sign * (t - alpha).

  function Side(alpha: real, sign: real, a: real, b: real, t: real): real {
    var dd := sign * (t - alpha);
    (a + b * dd) * dd * dd
  }

  function Side1(alpha: real, sign: real, a: real, b: real, t: real): real {
    var dd := sign * (t - alpha);
    sign * ((2.0 * a + 3.0 * b * dd) * dd)
  }

  function Side2(alpha: real, sign: real, a: real, b: real, t: real): real {
    2.0 * a + 6.0 * b * (sign * (t - alpha))
  }

  lemma SideForm(alpha: real, sign: real, a: real, b: real, t: real)
    requires sign == 1.0 || sign == -1.0
    ensures var l, z := RK(0.0, 0.0, a, b), Line(-sign * alpha, sign, t);
      && Side(alpha, sign, a, b, t) == Poly(l, z)
      && Side1(alpha, sign, a, b, t) == sign * Poly1(l, z)
      && Side2(alpha, sign, a, b, t) == sign * (sign * Poly2(l, z))
  {}

  lemma SideExact(alpha: real, sign: real, a: real, b: real, c: real)
    requires sign == 1.0 || sign == -1.0
    ensures HasDeriv(t => Side(alpha, sign, a, b, t), c, Side1(alpha, sign, a, b, c))
    ensures HasDeriv(t => Side1(alpha, sign, a, b, t), c, Side2(alpha, sign, a, b, c))
  {
    hide HasDeriv, Line, Side, Side1, Side2, Poly, Poly1, Poly2;
    var l := RK(0.0, 0.0, a, b);
    var z := Line(-sign * alpha, sign, c);
    var d1, d2 := sign * Poly1(l, z), sign * Poly2(l, z);
    var g := PolyDeriv(l, -sign * alpha, sign, c, d1);
    var h := Poly1Deriv(l, -sign * alpha, sign, c, d2);
    var k := DerivScale(h, sign, c, d2, sign * d2);
    var F, F1 := t => Side(alpha, sign, a, b, t), t => Side1(alpha, sign, a, b, t);
    forall t
      ensures g(t) == F(t) && k(t) == F1(t)
    {
      SideForm(alpha, sign, a, b, t);
    }
    SideForm(alpha, sign, a, b, c);
    DerivSame(g, F, c, d1, Side1(alpha, sign, a, b, c));
    DerivSame(k, F1, c, sign * d2, Side2(alpha, sign, a, b, c));
  }

  lemma ZeroExact(c: real)
    ensures HasDeriv(t => 0.0, c, 0.0)
  {
    hide HasDeriv;
    DerivLine((t: real) => 0.0, 0.0, 0.0, c);
  }

  // The three branches of each routine, each continued to all compositions.
  datatype Branch = Low | Mid | High

  function Value'(q: Params, b: Branch, t: real): real {
    match b
    case Low => Side(q.alpha1, -1.0, q.p12, q.p13, t)
    case Mid => 0.0
    case High => Side(q.alpha2, 1.0, q.p22, q.p23, t)
  }

  function Deriv'(q: Params, b: Branch, t: real): real {
    match b
    case Low => Side1(q.alpha1, -1.0, q.p12, q.p13, t)
    case Mid => 0.0
    case High => Side1(q.alpha2, 1.0, q.p22, q.p23, t)
  }

  function Deriv2'(q: Params, b: Branch, t: real): real {
    match b
    case Low => Side2(q.alpha1, -1.0, q.p12, q.p13, t)
    case Mid => 0.0
    case High => Side2(q.alpha2, 1.0, q.p22, q.p23, t)
  }

  function BranchAt(q: Params, t: real): Branch {
    if t < q.alpha1 then Low else if t >= q.alpha2 then High else Mid
  }

  lemma BranchForm(q: Params, t: real)
    ensures Value(q, t) == Value'(q, BranchAt(q, t), t)
    ensures Deriv(q, t) == Deriv'(q, BranchAt(q, t), t)
    ensures Deriv2(q, t) == Deriv2'(q, BranchAt(q, t), t)
  {}

  lemma BranchExact(q: Params, b: Branch, c: real)
    ensures HasDeriv(t => Value'(q, b, t), c, Deriv'(q, b, c))
    ensures HasDeriv(t => Deriv'(q, b, t), c, Deriv2'(q, b, c))
  {
    hide HasDeriv, Side, Side1, Side2;
    var F, F1 := t => Value'(q, b, t), t => Deriv'(q, b, t);
    match b {
      case Low =>
        SideExact(q.alpha1, -1.0, q.p12, q.p13, c);
        DerivSame(t => Side(q.alpha1, -1.0, q.p12, q.p13, t), F, c, Deriv'(q, b, c), Deriv'(q, b, c));
        DerivSame(t => Side1(q.alpha1, -1.0, q.p12, q.p13, t), F1, c, Deriv2'(q, b, c), Deriv2'(q, b, c));
      case Mid =>
        ZeroExact(c);
        DerivSame(t => 0.0, F, c, 0.0, 0.0);
        DerivSame(t => 0.0, F1, c, 0.0, 0.0);
      case High =>
        SideExact(q.alpha2, 1.0, q.p22, q.p23, c);
        DerivSame(t => Side(q.alpha2, 1.0, q.p22, q.p23, t), F, c, Deriv'(q, b, c), Deriv'(q, b, c));
        DerivSame(t => Side1(q.alpha2, 1.0, q.p22, q.p23, t), F1, c, Deriv2'(q, b, c), Deriv2'(q, b, c));
    }
  }

  // The branch in force just below c; just above c it is BranchAt(q, c).
  function Below(q: Params, c: real): Branch {
    if c <= q.alpha1 then Low else if c > q.alpha2 then High else Mid
  }

  // How far from c no other threshold is met.
  function Reach(q: Params, c: real): (r: real)
    ensures r > 0.0
    ensures forall t :: c - r < t < c ==> BranchAt(q, t) == Below(q, c)
    ensures forall t :: c < t < c + r ==> BranchAt(q, t) == BranchAt(q, c)
  {
    var r1 := if q.alpha1 == c then 1.0 else Abs(c - q.alpha1);
    var r2 := if q.alpha2 == c then 1.0 else Abs(c - q.alpha2);
    Min(r1, r2)
  }

  // With the thresholds in the wrong order the upper branch starts at alpha1, away from its own zero.
  predicate Joined(q: Params, c: real) {
    q.alpha1 <= q.alpha2 || c != q.alpha1 || (q.p22 == 0.0 && q.p23 == 0.0)
  }

  // The two branches that meet at c have the same value and the same first derivative.
  predicate Meet(q: Params, c: real) {
    && Value'(q, Below(q, c), c) == Value'(q, BranchAt(q, c), c)
    && Deriv'(q, Below(q, c), c) == Deriv'(q, BranchAt(q, c), c)
  }

  lemma JoinedIffMeet(q: Params, c: real)
    ensures Joined(q, c) <==> Meet(q, c)
  {
    hide Side, Side1;
    AtThreshold(q.alpha1, -1.0, q.p12, q.p13);
    AtThreshold(q.alpha2, 1.0, q.p22, q.p23);
    if c == q.alpha1 > q.alpha2 {
      AwayFromThreshold(q.alpha2, q.p22, q.p23, c);
    }
  }

  lemma AtThreshold(alpha: real, sign: real, a: real, b: real)
    ensures Side(alpha, sign, a, b, alpha) == 0.0 && Side1(alpha, sign, a, b, alpha) == 0.0 && Side2(alpha, sign, a, b, alpha) == 2.0 * a
  {
    assert sign * (alpha - alpha) == 0.0;
  }

  lemma AwayFromThreshold(alpha: real, a: real, b: real, t: real)
    requires t > alpha
    ensures Side(alpha, 1.0, a, b, t) == 0.0 && Side1(alpha, 1.0, a, b, t) == 0.0 <==> a == 0.0 && b == 0.0
    ensures Side1(alpha, 1.0, a, b, t) == 0.0 <==> 2.0 * a + 3.0 * b * (t - alpha) == 0.0
  {
    var dd := t - alpha;
    NoFactor(a + b * dd, dd);
    NoFactor((a + b * dd) * dd, dd);
    NoFactor(2.0 * a + 3.0 * b * dd, dd);
    NoFactor(b, dd);
  }

  lemma NoFactor(x: real, dd: real)
    requires dd > 0.0
    ensures x * dd == 0.0 <==> x == 0.0
  {}

  /** The first derivative routine is exact everywhere, but for the first of two thresholds in the wrong order. */
  lemma DerivExactIff(q: Params, c: real)
    ensures HasDeriv(t => Value(q, t), c, Deriv(q, c)) <==> Joined(q, c)
  {
    hide HasDeriv, Value, Deriv, Value', Deriv', BranchAt, Below, Joined;
    var F := t => Value(q, t);
    var left, right := t => Value'(q, Below(q, c), t), t => Value'(q, BranchAt(q, c), t);
    BranchExact(q, Below(q, c), c);
    BranchExact(q, BranchAt(q, c), c);
    JoinedIffMeet(q, c);
    BranchForm(q, c);
    forall t
      ensures F(t) == Value'(q, BranchAt(q, t), t)
    {
      BranchForm(q, t);
    }
    if Joined(q, c) {
      Assemble(F, left, right, c, Reach(q, c), Deriv(q, c));
    }
    if HasDeriv(F, c, Deriv(q, c)) {
      FromLeft(F, left, c, Deriv(q, c), Deriv'(q, Below(q, c), c), Reach(q, c));
    }
  }

  // F agrees with `left` just below c and with `right` just above it.
  lemma Assemble(F: real -> real, left: real -> real, right: real -> real, c: real, r: real, d: real)
    requires HasDeriv(left, c, d) && HasDeriv(right, c, d) && left(c) == F(c) == right(c) && r > 0.0
    requires forall t :: c - r < t < c ==> F(t) == left(t)
    requires forall t :: c < t < c + r ==> F(t) == right(t)
    ensures HasDeriv(F, c, d)
  {
    hide HasDeriv;
    var h := t => if t < c then left(t) else right(t);
    DerivGlue(left, right, h, c, d);
    DerivNear(h, F, c, d, r);
  }

  lemma FromLeft(F: real -> real, left: real -> real, c: real, a: real, b: real, r: real)
    requires HasDeriv(F, c, a) && HasDeriv(left, c, b) && r > 0.0
    requires forall t :: c - r < t < c ==> F(t) == left(t)
    ensures F(c) == left(c) && a == b
  {
    hide *;
    DerivContinuous(F, c, a);
    DerivContinuous(left, c, b);
    SameLimit(F, left, c, r, true);
    DerivOneSided(F, left, c, a, b, r, true);
  }

  // The first and second derivatives of the two branches that meet at c agree.
  predicate SmoothAt(q: Params, c: real) {
    if c == q.alpha1 > q.alpha2 then
      2.0 * q.p22 + 3.0 * q.p23 * (q.alpha1 - q.alpha2) == 0.0 && q.p12 == q.p22 + 3.0 * q.p23 * (q.alpha1 - q.alpha2)
    else if c == q.alpha1 == q.alpha2 then
      q.p12 == q.p22
    else
      (c == q.alpha1 ==> q.p12 == 0.0) && (c == q.alpha2 >= q.alpha1 ==> q.p22 == 0.0)
  }

  predicate Meet2(q: Params, c: real) {
    && Deriv'(q, Below(q, c), c) == Deriv'(q, BranchAt(q, c), c)
    && Deriv2'(q, Below(q, c), c) == Deriv2'(q, BranchAt(q, c), c)
  }

  /**
   The second derivative routine is exact away from the thresholds, and at a threshold exactly when
   its quadratic coefficient vanishes (when the thresholds coincide, when the coefficients are equal;
   when they are in the wrong order, when slope and curvature of the upper branch fit the lower one).
   */
  lemma Deriv2ExactIff(q: Params, c: real)
    ensures HasDeriv(t => Deriv(q, t), c, Deriv2(q, c)) <==> SmoothAt(q, c)
  {
    hide HasDeriv, Value, Deriv, Deriv2, Value', Deriv', Deriv2', BranchAt, Below, SmoothAt;
    var F := t => Deriv(q, t);
    var left, right := t => Deriv'(q, Below(q, c), t), t => Deriv'(q, BranchAt(q, c), t);
    BranchExact(q, Below(q, c), c);
    BranchExact(q, BranchAt(q, c), c);
    BranchForm(q, c);
    SmoothIff(q, c);
    forall t
      ensures F(t) == Deriv'(q, BranchAt(q, t), t)
    {
      BranchForm(q, t);
    }
    if SmoothAt(q, c) {
      Assemble(F, left, right, c, Reach(q, c), Deriv2(q, c));
    }
    if HasDeriv(F, c, Deriv2(q, c)) {
      FromLeft(F, left, c, Deriv2(q, c), Deriv2'(q, Below(q, c), c), Reach(q, c));
    }
  }

  lemma SmoothIff(q: Params, c: real)
    ensures SmoothAt(q, c) <==> Meet2(q, c)
  {
    hide Side1, Side2;
    AtThreshold(q.alpha1, -1.0, q.p12, q.p13);
    AtThreshold(q.alpha2, 1.0, q.p22, q.p23);
    if c == q.alpha1 > q.alpha2 {
      AwayFromThreshold(q.alpha2, q.p22, q.p23, c);
      CurvatureAway(q.alpha2, q.p22, q.p23, c);
    }
  }

  lemma CurvatureAway(alpha: real, a: real, b: real, t: real)
    ensures Side2(alpha, 1.0, a, b, t) == 2.0 * (a + 3.0 * b * (t - alpha))
  {}

  /** Off the thresholds both derivative routines are exact, whatever their order. */
  lemma ExactOffThresholds(q: Params, c: real)
    requires c != q.alpha1 && c != q.alpha2
    ensures HasDeriv(t => Value(q, t), c, Deriv(q, c)) && HasDeriv(t => Deriv(q, t), c, Deriv2(q, c))
  {
    hide HasDeriv, Value, Deriv, Deriv2;
    DerivExactIff(q, c);
    Deriv2ExactIff(q, c);
  }

  /** A quadratic coefficient at a threshold, say 1/4 below 3/4: the second derivative routine is wrong there, the first right. */
  lemma KinkAtThreshold(alpha1: real, alpha2: real)
    requires alpha1 < alpha2
    ensures var q := Params(alpha1, 1.0, 0.0, alpha2, 0.0, 0.0);
      !HasDeriv(t => Deriv(q, t), alpha1, Deriv2(q, alpha1)) && HasDeriv(t => Value(q, t), alpha1, Deriv(q, alpha1))
  {
    hide HasDeriv, Value, Deriv, Deriv2;
    var q := Params(alpha1, 1.0, 0.0, alpha2, 0.0, 0.0);
    DerivExactIff(q, alpha1);
    Deriv2ExactIff(q, alpha1);
  }

  /** Thresholds in the wrong order, say 1 before 0: the penalty jumps, and the first derivative routine is wrong as well. */
  lemma JumpAtThreshold(alpha1: real, alpha2: real)
    requires alpha1 > alpha2
    ensures var q := Params(alpha1, 0.0, 0.0, alpha2, 1.0, 0.0);
      !HasDeriv(t => Value(q, t), alpha1, Deriv(q, alpha1))
  {
    hide HasDeriv, Value, Deriv;
    DerivExactIff(Params(alpha1, 0.0, 0.0, alpha2, 1.0, 0.0), alpha1);
  }
}
