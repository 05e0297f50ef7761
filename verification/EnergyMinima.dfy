/**
 Converses to PhaseEquilibrium: where the energies are differentiable, a partition or a split of least
 energy in the interior of the domain is a zero of the system.  With the results there, the zeros are
 exactly the constrained minima.
 */
module EnergyMinima {
  import opened RealFacts
  import opened Calculus
  import opened PhaseEquilibrium

  // ----- moving along a path of splits -----

  // The fraction h + k s, and energies u(s) and v(s) of the two phases.
  function PathEnergy(h: real, k: real, u: real, v: real, s: real): real {
    Times(Line(1.0 - h, -k, s), u) + Times(Line(h, k, s), v)
  }

  // How it changes at the start.
  function PathSlope(h: real, k: real, u: real, v: real, du: real, dv: real): real {
    k * (v - u) + ((1.0 - h) * du + h * dv)
  }

  lemma PathDeriv(h: real, k: real, u: real -> real, v: real -> real, du: real, dv: real, e: real -> real, d: real)
    requires HasDeriv(u, 0.0, du) && HasDeriv(v, 0.0, dv) && forall s :: e(s) == PathEnergy(h, k, u(s), v(s), s)
    requires d == PathSlope(h, k, u(0.0), v(0.0), du, dv)
    ensures HasDeriv(e, 0.0, d)
  {
    hide HasDeriv, Times, Line, PathSlope;
    var a, b := Times(-k, u(0.0)) + Times(Line(1.0 - h, -k, 0.0), du), Times(k, v(0.0)) + Times(Line(h, k, 0.0), dv);
    var hu := LineTimes(u, 1.0 - h, -k, 0.0, du, a);
    var hv := LineTimes(v, h, k, 0.0, dv, b);
    PathRate(h, k, u(0.0), v(0.0), du, dv, a, b);
    DerivAdd(hu, hv, e, 0.0, a, b, d);
  }

  lemma PathRate(h: real, k: real, u: real, v: real, du: real, dv: real, a: real, b: real)
    requires a == Times(-k, u) + Times(Line(1.0 - h, -k, 0.0), du) && b == Times(k, v) + Times(Line(h, k, 0.0), dv)
    ensures a + b == PathSlope(h, k, u, v, du, dv)
  {
    assert k * (v - u) == k * v - k * u;
  }

  /** If no point of the path near its start has less energy, the energy is stationary there. */
  lemma Stationary(h: real, k: real, u: real -> real, v: real -> real, du: real, dv: real, r: real)
    requires HasDeriv(u, 0.0, du) && HasDeriv(v, 0.0, dv) && r > 0.0
    requires forall s :: -r < s < r ==> PathEnergy(h, k, u(s), v(s), s) >= PathEnergy(h, k, u(0.0), v(0.0), 0.0)
    ensures PathSlope(h, k, u(0.0), v(0.0), du, dv) == 0.0
  {
    hide *;
    var e := PathOf(h, k, u, v);
    var d := PathSlope(h, k, u(0.0), v(0.0), du, dv);
    PathDeriv(h, k, u, v, du, dv, e, d);
    forall t | 0.0 - r < t < 0.0 + r
      ensures e(t) >= e(0.0)
    {
      assert -r < t < r;
    }
    InteriorMinimum(e, 0.0, d, r);
  }

  lemma PathOf(h: real, k: real, u: real -> real, v: real -> real) returns (e: real -> real)
    ensures forall s :: e(s) == PathEnergy(h, k, u(s), v(s), s)
  {
    e := s => PathEnergy(h, k, u(s), v(s), s);
  }

  lemma EqualRates(h: real, p: real, q: real, u: real, v: real, du: real, dv: real)
    requires 0.0 < h < 1.0 && du == h * p && dv == -(1.0 - h) * q && PathSlope(h, 0.0, u, v, du, dv) == 0.0
    ensures p == q
  {
    var w := (1.0 - h) * h;
    PositiveProduct(1.0 - h, h);
    assert (1.0 - h) * (h * p) == w * p && h * (-(1.0 - h) * q) == -(w * q);
    NoFactor(w, p, q);
  }

  lemma NoFactor(w: real, p: real, q: real)
    requires w > 0.0 && w * p - w * q == 0.0
    ensures p == q
  {
    assert w * (p - q) == 0.0;
  }

  lemma Shrinks(h: real, s: real, r: real)
    requires 0.0 <= h <= 1.0 && -r < s < r
    ensures -r < h * s < r
  {
    if s >= 0.0 {
      NonNegativeProduct(h, s);
      NonNegativeProduct(1.0 - h, s);
    } else {
      NonNegativeProduct(h, -s);
      NonNegativeProduct(1.0 - h, -s);
    }
  }

  // ----- one independent composition -----

  predicate SameMean(h: real, a: real, b: real, h': real, a': real, b': real) {
    (1.0 - h) * a + h * b == (1.0 - h') * a' + h' * b'
  }

  function MeanEnergy(fL: real -> real, fS: real -> real, h: real, a: real, b: real): real {
    (1.0 - h) * fL(a) + h * fS(b)
  }

  /** No pair of compositions with the same average has less energy at the fraction h. */
  ghost predicate LeastPartition(fL: real -> real, fS: real -> real, dom: real -> bool, h: real, a: real, b: real) {
    forall a', b' :: dom(a') && dom(b') && SameMean(h, a, b, h, a', b') ==> MeanEnergy(fL, fS, h, a', b') >= MeanEnergy(fL, fS, h, a, b)
  }

  /** No fraction and pair of compositions with the same average have less energy. */
  ghost predicate LeastSplit(fL: real -> real, fS: real -> real, dom: real -> bool, h: real, a: real, b: real) {
    forall h', a', b' :: 0.0 <= h' <= 1.0 && dom(a') && dom(b') && SameMean(h, a, b, h', a', b') ==>
      MeanEnergy(fL, fS, h', a', b') >= MeanEnergy(fL, fS, h, a, b)
  }

  ghost predicate Inside(dom: real -> bool, a: real, r: real) {
    r > 0.0 && forall t :: a - r < t < a + r ==> dom(t)
  }

  lemma AlongLine(f: real -> real, a: real, p: real, d: real, du: real) returns (u: real -> real)
    requires HasDeriv(f, a, d) && du == p * d
    ensures HasDeriv(u, 0.0, du) && u(0.0) == f(a) && forall s :: u(s) == f(Line(a, p, s))
  {
    hide HasDeriv, Line;
    u := s => f(Line(a, p, s));
    LineStart(a, p);
    DerivAffine(f, u, a, p, 0.0, d, du);
  }

  lemma LineStart(a: real, p: real)
    ensures Line(a, p, 0.0) == a
  {}

  lemma LeastHasEqualSlopes(fL: real -> real, dL: real, fS: real -> real, dS: real, dom: real -> bool, h: real, a: real, b: real, r: real)
    requires 0.0 < h < 1.0 && Inside(dom, a, r) && Inside(dom, b, r) && HasDeriv(fL, a, dL) && HasDeriv(fS, b, dS)
    requires LeastPartition(fL, fS, dom, h, a, b)
    ensures dL == dS
  {
    hide HasDeriv, PathEnergy, PathSlope, MeanEnergy, SameMean, Line;
    var du, dv := h * dL, -(1.0 - h) * dS;
    var u := AlongLine(fL, a, h, dL, du);
    var v := AlongLine(fS, b, -(1.0 - h), dS, dv);
    forall s | -r < s < r
      ensures PathEnergy(h, 0.0, u(s), v(s), s) >= PathEnergy(h, 0.0, u(0.0), v(0.0), 0.0)
    {
      Exchange(h, a, b, s, r);
      PathIsMean(fL, fS, h, 0.0, Line(a, h, s), Line(b, -(1.0 - h), s), s);
      PathIsMean(fL, fS, h, 0.0, a, b, 0.0);
    }
    Stationary(h, 0.0, u, v, du, dv, r);
    EqualRates(h, dL, dS, u(0.0), v(0.0), du, dv);
  }

  // Moving h s of composition to the first phase and (1 - h) s from the second keeps the average.
  lemma Exchange(h: real, a: real, b: real, s: real, r: real)
    requires 0.0 < h < 1.0 && -r < s < r
    ensures a - r < Line(a, h, s) < a + r && b - r < Line(b, -(1.0 - h), s) < b + r
    ensures SameMean(h, a, b, h, Line(a, h, s), Line(b, -(1.0 - h), s)) && h + 0.0 * s == h
  {
    Shrinks(h, s, r);
    Shrinks(1.0 - h, s, r);
    assert -(1.0 - h) * s == -((1.0 - h) * s);
    assert (1.0 - h) * (a + h * s) + h * (b + -(1.0 - h) * s) == (1.0 - h) * a + h * b;
  }

  lemma PathIsMean(fL: real -> real, fS: real -> real, h: real, k: real, a: real, b: real, s: real)
    ensures PathEnergy(h, k, fL(a), fS(b), s) == MeanEnergy(fL, fS, h + k * s, a, b)
  {
    assert Line(1.0 - h, -k, s) == 1.0 - (h + k * s);
  }

  /** For convex, differentiable energies equal slopes are exactly a partition of least energy. */
  lemma PartitionIffLeast(fL: real -> real, dL: real -> real, fS: real -> real, dS: real -> real, dom: real -> bool,
                          h: real, a: real, b: real, r: real)
    requires StrictlyConvex(fL, dL, dom) && StrictlyConvex(fS, dS, dom) && 0.0 < h < 1.0
    requires Inside(dom, a, r) && Inside(dom, b, r) && HasDeriv(fL, a, dL(a)) && HasDeriv(fS, b, dS(b))
    ensures dL(a) == dS(b) <==> LeastPartition(fL, fS, dom, h, a, b)
  {
    hide HasDeriv, StrictlyConvex;
    if dL(a) == dS(b) {
      forall a', b' | dom(a') && dom(b') && SameMean(h, a, b, h, a', b')
        ensures MeanEnergy(fL, fS, h, a', b') >= MeanEnergy(fL, fS, h, a, b)
      {
        PartitionMinimal(fL, dL, fS, dS, dom, h, a, b, a', b');
      }
    }
    if LeastPartition(fL, fS, dom, h, a, b) {
      LeastHasEqualSlopes(fL, dL(a), fS, dS(b), dom, h, a, b, r);
    }
  }

  lemma SplitIsPartition(fL: real -> real, fS: real -> real, dom: real -> bool, h: real, a: real, b: real)
    requires LeastSplit(fL, fS, dom, h, a, b) && 0.0 <= h <= 1.0
    ensures LeastPartition(fL, fS, dom, h, a, b)
  {
    hide MeanEnergy, SameMean;
  }

  lemma LeastHasChord(fL: real -> real, dL: real, fS: real -> real, dS: real, dom: real -> bool, h: real, a: real, b: real, r: real,
                      m: real, du: real, dv: real)
    requires 0.0 < h < 1.0 && Inside(dom, a, r) && Inside(dom, b, r) && HasDeriv(fL, a, dL) && HasDeriv(fS, b, dS)
    requires LeastSplit(fL, fS, dom, h, a, b) && m == -(b - a) && du == m * dL && dv == m * dS
    ensures PathSlope(h, 1.0, fL(a), fS(b), du, dv) == 0.0
  {
    hide HasDeriv, PathEnergy, PathSlope, LeastSplit, Inside, Line, Abs;
    var u := AlongLine(fL, a, m, dL, du);
    var v := AlongLine(fS, b, m, dS, dv);
    Centre(dom, a, r);
    var r1 := Shrunk(m, r);
    var r' := Min(r1, Min(h, 1.0 - h));
    forall s | -r' < s < r'
      ensures PathEnergy(h, 1.0, u(s), v(s), s) >= PathEnergy(h, 1.0, u(0.0), v(0.0), 0.0)
    {
      ShiftIsNoBetter(fL, fS, dom, h, a, b, m, s, r, r1);
    }
    Stationary(h, 1.0, u, v, du, dv, r');
  }

  lemma Centre(dom: real -> bool, a: real, r: real)
    requires Inside(dom, a, r)
    ensures r > 0.0 && dom(a)
  {}

  lemma ShiftIsNoBetter(fL: real -> real, fS: real -> real, dom: real -> bool, h: real, a: real, b: real,
                        m: real, s: real, r: real, r1: real)
    requires Inside(dom, a, r) && Inside(dom, b, r) && LeastSplit(fL, fS, dom, h, a, b) && 0.0 <= h + s <= 1.0
    requires m == -(b - a) && r1 > 0.0 && Abs(m) * r1 <= r && -r1 < s < r1
    ensures PathEnergy(h, 1.0, fL(Line(a, m, s)), fS(Line(b, m, s)), s) >= PathEnergy(h, 1.0, fL(a), fS(b), 0.0)
  {
    hide PathEnergy, MeanEnergy, SameMean, Line, Abs;
    ShiftBoth(h, a, b, m, s, r, r1);
    PathIsMean(fL, fS, h, 1.0, Line(a, m, s), Line(b, m, s), s);
    PathIsMean(fL, fS, h, 1.0, a, b, 0.0);
  }

  // Growing the fraction by s and shifting both compositions by -(b - a) s keeps the average.
  lemma ShiftBoth(h: real, a: real, b: real, m: real, s: real, r: real, r1: real)
    requires m == -(b - a) && r > 0.0 && r1 > 0.0 && Abs(m) * r1 <= r && -r1 < s < r1
    ensures a - r < Line(a, m, s) < a + r && b - r < Line(b, m, s) < b + r
    ensures SameMean(h, a, b, h + 1.0 * s, Line(a, m, s), Line(b, m, s))
  {
    AffineInside(a, m, 0.0, s, r, r1);
    AffineInside(b, m, 0.0, s, r, r1);
    MeanKept(h, a, b, s);
  }

  lemma MeanKept(h: real, a: real, b: real, s: real)
    ensures (1.0 - h) * a + h * b == (1.0 - (h + s)) * (a + -(b - a) * s) + (h + s) * (b + -(b - a) * s)
  {}

  /** For convex, differentiable energies a zero of the equilibrium system is exactly a split of least energy. */
  lemma EquilibriumIffLeast(fL: real -> real, dL: real -> real, fS: real -> real, dS: real -> real, dom: real -> bool,
                            h: real, a: real, b: real, r: real)
    requires StrictlyConvex(fL, dL, dom) && StrictlyConvex(fS, dS, dom) && 0.0 < h < 1.0
    requires Inside(dom, a, r) && Inside(dom, b, r) && HasDeriv(fL, a, dL(a)) && HasDeriv(fS, b, dS(b))
    ensures EquilibriumZero(fL, dL, fS, dS, a, b) <==> LeastSplit(fL, fS, dom, h, a, b)
  {
    hide HasDeriv, StrictlyConvex, EquilibriumZero;
    if EquilibriumZero(fL, dL, fS, dS, a, b) {
      forall h', a', b' | 0.0 <= h' <= 1.0 && dom(a') && dom(b') && SameMean(h, a, b, h', a', b')
        ensures MeanEnergy(fL, fS, h', a', b') >= MeanEnergy(fL, fS, h, a, b)
      {
        EquilibriumMinimal(fL, dL, fS, dS, dom, a, b, h, a', b', h');
      }
    }
    if LeastSplit(fL, fS, dom, h, a, b) {
      SplitIsPartition(fL, fS, dom, h, a, b);
      LeastHasEqualSlopes(fL, dL(a), fS, dS(b), dom, h, a, b, r);
      var m := -(b - a);
      LeastHasChord(fL, dL(a), fS, dS(b), dom, h, a, b, r, m, m * dL(a), m * dS(b));
      ChordIsZero(fL, dL, fS, dS, h, a, b);
    }
  }

  lemma ChordIsZero(fL: real -> real, dL: real -> real, fS: real -> real, dS: real -> real, h: real, a: real, b: real)
    requires dL(a) == dS(b)
    requires PathSlope(h, 1.0, fL(a), fS(b), -(b - a) * dL(a), -(b - a) * dS(b)) == 0.0
    ensures EquilibriumZero(fL, dL, fS, dS, a, b)
  {
    WeightsAddUp(h, -(b - a) * dS(b));
    assert -(b - a) * dS(b) == (a - b) * dS(b);
  }

  lemma WeightsAddUp(h: real, x: real)
    ensures (1.0 - h) * x + h * x == x
  {}

  // ----- two independent compositions -----

  function Step(x: Point, p: Point, s: real): Point {
    Point(Line(x.a, p.a, s), Line(x.b, p.b, s))
  }

  function On(f: Point -> real, x: Point, p: Point): real -> real {
    s => f(Step(x, p, s))
  }

  function Dot(g: Point, p: Point): real {
    g.a * p.a + g.b * p.b
  }

  /** g is the gradient of f at x: along every direction p the derivative is g . p. */
  ghost predicate HasGradient(f: Point -> real, x: Point, g: Point) {
    forall p: Point :: HasDeriv(On(f, x, p), 0.0, Dot(g, p))
  }

  ghost predicate Inside2(dom: Point -> bool, x: Point, r: real) {
    r > 0.0 && forall y: Point :: x.a - r < y.a < x.a + r && x.b - r < y.b < x.b + r ==> dom(y)
  }

  lemma Centre2(dom: Point -> bool, x: Point, r: real)
    requires Inside2(dom, x, r)
    ensures r > 0.0 && dom(x)
  {}

  function MeanEnergy2(fL: Point -> real, fS: Point -> real, h: real, x: Point, y: Point): real {
    (1.0 - h) * fL(x) + h * fS(y)
  }

  ghost predicate LeastPartition2(fL: Point -> real, fS: Point -> real, dom: Point -> bool, h: real, x: Point, y: Point) {
    forall x', y' :: dom(x') && dom(y') && SameAverage(h, x, y, h, x', y') ==> MeanEnergy2(fL, fS, h, x', y') >= MeanEnergy2(fL, fS, h, x, y)
  }

  ghost predicate LeastSplit2(fL: Point -> real, fS: Point -> real, dom: Point -> bool, h: real, x: Point, y: Point) {
    forall h', x', y' :: 0.0 <= h' <= 1.0 && dom(x') && dom(y') && SameAverage(h, x, y, h', x', y') ==>
      MeanEnergy2(fL, fS, h', x', y') >= MeanEnergy2(fL, fS, h, x, y)
  }

  lemma AlongStep(f: Point -> real, x: Point, g: Point, p: Point, du: real) returns (u: real -> real)
    requires HasGradient(f, x, g) && du == Dot(g, p)
    ensures HasDeriv(u, 0.0, du) && u(0.0) == f(x) && forall s :: u(s) == f(Step(x, p, s))
  {
    hide HasDeriv, Dot;
    u := On(f, x, p);
    LineStart(x.a, p.a);
    LineStart(x.b, p.b);
    assert Step(x, p, 0.0) == x;
  }

  lemma PathIsMean2(fL: Point -> real, fS: Point -> real, h: real, k: real, x: Point, y: Point, s: real)
    ensures PathEnergy(h, k, fL(x), fS(y), s) == MeanEnergy2(fL, fS, h + k * s, x, y)
  {
    assert Line(1.0 - h, -k, s) == 1.0 - (h + k * s);
  }

  function Scale(c: real, p: Point): Point {
    Point(c * p.a, c * p.b)
  }

  lemma DotScale(g: Point, c: real, p: Point)
    ensures Dot(g, Scale(c, p)) == c * Dot(g, p)
  {
    assert g.a * (c * p.a) == c * (g.a * p.a) && g.b * (c * p.b) == c * (g.b * p.b);
  }

  predicate UnitStep(p: Point) {
    p == Point(1.0, 0.0) || p == Point(0.0, 1.0)
  }

  lemma LeastHasEqualRates2(fL: Point -> real, gL: Point, fS: Point -> real, gS: Point, dom: Point -> bool,
                            h: real, x: Point, y: Point, r: real, p: Point)
    requires 0.0 < h < 1.0 && Inside2(dom, x, r) && Inside2(dom, y, r) && HasGradient(fL, x, gL) && HasGradient(fS, y, gS)
    requires LeastPartition2(fL, fS, dom, h, x, y) && UnitStep(p)
    ensures Dot(gL, p) == Dot(gS, p)
  {
    hide HasDeriv, HasGradient, PathEnergy, PathSlope, LeastPartition2, Dot, Scale, Step, UnitStep;
    var pu, pv := Scale(h, p), Scale(-(1.0 - h), p);
    var du, dv := Dot(gL, pu), Dot(gS, pv);
    var u := AlongStep(fL, x, gL, pu, du);
    var v := AlongStep(fS, y, gS, pv, dv);
    forall s | -r < s < r
      ensures PathEnergy(h, 0.0, u(s), v(s), s) >= PathEnergy(h, 0.0, u(0.0), v(0.0), 0.0)
    {
      ExchangeIsNoBetter2(fL, fS, dom, h, x, y, r, p, s);
    }
    Stationary(h, 0.0, u, v, du, dv, r);
    DotScale(gL, h, p);
    DotScale(gS, -(1.0 - h), p);
    EqualRates(h, Dot(gL, p), Dot(gS, p), u(0.0), v(0.0), du, dv);
  }

  lemma ExchangeIsNoBetter2(fL: Point -> real, fS: Point -> real, dom: Point -> bool, h: real, x: Point, y: Point, r: real, p: Point, s: real)
    requires 0.0 < h < 1.0 && Inside2(dom, x, r) && Inside2(dom, y, r) && LeastPartition2(fL, fS, dom, h, x, y) && UnitStep(p) && -r < s < r
    ensures PathEnergy(h, 0.0, fL(Step(x, Scale(h, p), s)), fS(Step(y, Scale(-(1.0 - h), p), s)), s) >= PathEnergy(h, 0.0, fL(x), fS(y), 0.0)
  {
    hide PathEnergy, MeanEnergy2, SameAverage, Step, Scale, UnitStep;
    var x', y' := Step(x, Scale(h, p), s), Step(y, Scale(-(1.0 - h), p), s);
    ExchangePoint(h, x, y, r, p, s, x', y');
    PathIsMean2(fL, fS, h, 0.0, x', y', s);
    PathIsMean2(fL, fS, h, 0.0, x, y, 0.0);
  }

  lemma ExchangePoint(h: real, x: Point, y: Point, r: real, p: Point, s: real, x': Point, y': Point)
    requires 0.0 < h < 1.0 && UnitStep(p) && -r < s < r
    requires x' == Step(x, Scale(h, p), s) && y' == Step(y, Scale(-(1.0 - h), p), s)
    ensures x.a - r < x'.a < x.a + r && x.b - r < x'.b < x.b + r && y.a - r < y'.a < y.a + r && y.b - r < y'.b < y.b + r
    ensures SameAverage(h, x, y, h, x', y') && h + 0.0 * s == h
  {
    hide SameMean;
    Exchange(h, x.a, y.a, s, r);
    Exchange(h, x.b, y.b, s, r);
    if p.a == 1.0 {
      MovedAndKept(h, x.a, y.a, x.b, y.b, s, x'.a, y'.a, x'.b, y'.b);
    } else {
      MovedAndKept(h, x.b, y.b, x.a, y.a, s, x'.b, y'.b, x'.a, y'.a);
    }
  }

  lemma MovedAndKept(h: real, a: real, b: real, c: real, d: real, s: real, a': real, b': real, c': real, d': real)
    requires SameMean(h, a, b, h, Line(a, h, s), Line(b, -(1.0 - h), s))
    requires a' == Line(a, h * 1.0, s) && b' == Line(b, -(1.0 - h) * 1.0, s) && c' == Line(c, h * 0.0, s) && d' == Line(d, -(1.0 - h) * 0.0, s)
    ensures a' == Line(a, h, s) && b' == Line(b, -(1.0 - h), s) && c' == c && d' == d
    ensures (1.0 - h) * a + h * b == (1.0 - h) * a' + h * b'
  {}

  lemma LeastHasEqualSlopes2(fL: Point -> real, gL: Point, fS: Point -> real, gS: Point, dom: Point -> bool,
                             h: real, x: Point, y: Point, r: real)
    requires 0.0 < h < 1.0 && Inside2(dom, x, r) && Inside2(dom, y, r) && HasGradient(fL, x, gL) && HasGradient(fS, y, gS)
    requires LeastPartition2(fL, fS, dom, h, x, y)
    ensures gL == gS
  {
    hide HasGradient, Inside2, LeastPartition2;
    LeastHasEqualRates2(fL, gL, fS, gS, dom, h, x, y, r, Point(1.0, 0.0));
    LeastHasEqualRates2(fL, gL, fS, gS, dom, h, x, y, r, Point(0.0, 1.0));
  }

  /** For convex, differentiable energies equal slopes are exactly a partition of least energy. */
  lemma PartitionIffLeast2(fL: Point -> real, dL: Point -> Point, fS: Point -> real, dS: Point -> Point, dom: Point -> bool,
                           h: real, x: Point, y: Point, r: real)
    requires StrictlyConvex2(fL, dL, dom) && StrictlyConvex2(fS, dS, dom) && 0.0 < h < 1.0
    requires Inside2(dom, x, r) && Inside2(dom, y, r) && HasGradient(fL, x, dL(x)) && HasGradient(fS, y, dS(y))
    ensures dL(x) == dS(y) <==> LeastPartition2(fL, fS, dom, h, x, y)
  {
    hide HasGradient, StrictlyConvex2, SameAverage, Inside2;
    Centre2(dom, x, r);
    Centre2(dom, y, r);
    if dL(x) == dS(y) {
      forall x', y' | dom(x') && dom(y') && SameAverage(h, x, y, h, x', y')
        ensures MeanEnergy2(fL, fS, h, x', y') >= MeanEnergy2(fL, fS, h, x, y)
      {
        PartitionMinimal2(fL, dL, fS, dS, dom, h, x, y, x', y');
      }
    }
    if LeastPartition2(fL, fS, dom, h, x, y) {
      LeastHasEqualSlopes2(fL, dL(x), fS, dS(y), dom, h, x, y, r);
    }
  }

  lemma SplitIsPartition2(fL: Point -> real, fS: Point -> real, dom: Point -> bool, h: real, x: Point, y: Point)
    requires LeastSplit2(fL, fS, dom, h, x, y) && 0.0 <= h <= 1.0
    ensures LeastPartition2(fL, fS, dom, h, x, y)
  {
    hide MeanEnergy2, SameAverage;
  }

  lemma LeastHasChord2(fL: Point -> real, gL: Point, fS: Point -> real, gS: Point, dom: Point -> bool,
                       h: real, x: Point, y: Point, r: real, m: Point)
    requires 0.0 < h < 1.0 && Inside2(dom, x, r) && Inside2(dom, y, r) && HasGradient(fL, x, gL) && HasGradient(fS, y, gS)
    requires LeastSplit2(fL, fS, dom, h, x, y) && m == Point(-(y.a - x.a), -(y.b - x.b))
    ensures PathSlope(h, 1.0, fL(x), fS(y), Dot(gL, m), Dot(gS, m)) == 0.0
  {
    hide HasDeriv, HasGradient, PathEnergy, PathSlope, LeastSplit2, Inside2, Dot, Step, Abs;
    Centre2(dom, x, r);
    var u := AlongStep(fL, x, gL, m, Dot(gL, m));
    var v := AlongStep(fS, y, gS, m, Dot(gS, m));
    var r1 := Shrunk(m.a, r);
    var r2 := Shrunk(m.b, r);
    var r' := Min(Min(r1, r2), Min(h, 1.0 - h));
    forall s | -r' < s < r'
      ensures PathEnergy(h, 1.0, u(s), v(s), s) >= PathEnergy(h, 1.0, u(0.0), v(0.0), 0.0)
    {
      ShiftIsNoBetter2(fL, fS, dom, h, x, y, m, s, r, r1, r2);
    }
    Stationary(h, 1.0, u, v, Dot(gL, m), Dot(gS, m), r');
  }

  lemma ShiftIsNoBetter2(fL: Point -> real, fS: Point -> real, dom: Point -> bool, h: real, x: Point, y: Point,
                         m: Point, s: real, r: real, r1: real, r2: real)
    requires Inside2(dom, x, r) && Inside2(dom, y, r) && LeastSplit2(fL, fS, dom, h, x, y) && 0.0 <= h + s <= 1.0
    requires m == Point(-(y.a - x.a), -(y.b - x.b)) && r1 > 0.0 && r2 > 0.0
    requires Abs(m.a) * r1 <= r && -r1 < s < r1 && Abs(m.b) * r2 <= r && -r2 < s < r2
    ensures PathEnergy(h, 1.0, fL(Step(x, m, s)), fS(Step(y, m, s)), s) >= PathEnergy(h, 1.0, fL(x), fS(y), 0.0)
  {
    hide PathEnergy, MeanEnergy2, SameAverage, SameMean, Line, Abs;
    ShiftBoth(h, x.a, y.a, m.a, s, r, r1);
    ShiftBoth(h, x.b, y.b, m.b, s, r, r2);
    SameMeans(h, x, y, h + 1.0 * s, Step(x, m, s), Step(y, m, s));
    PathIsMean2(fL, fS, h, 1.0, Step(x, m, s), Step(y, m, s), s);
    PathIsMean2(fL, fS, h, 1.0, x, y, 0.0);
  }

  lemma SameMeans(h: real, x: Point, y: Point, h': real, x': Point, y': Point)
    requires SameMean(h, x.a, y.a, h', x'.a, y'.a) && SameMean(h, x.b, y.b, h', x'.b, y'.b)
    ensures SameAverage(h, x, y, h', x', y')
  {}

  /** For convex, differentiable energies a zero of the equilibrium system is exactly a split of least energy. */
  lemma EquilibriumIffLeast2(fL: Point -> real, dL: Point -> Point, fS: Point -> real, dS: Point -> Point, dom: Point -> bool,
                             h: real, x: Point, y: Point, r: real)
    requires StrictlyConvex2(fL, dL, dom) && StrictlyConvex2(fS, dS, dom) && 0.0 < h < 1.0
    requires Inside2(dom, x, r) && Inside2(dom, y, r) && HasGradient(fL, x, dL(x)) && HasGradient(fS, y, dS(y))
    ensures EquilibriumZero2(fL, dL, fS, dS, x, y) <==> LeastSplit2(fL, fS, dom, h, x, y)
  {
    hide HasGradient, StrictlyConvex2, EquilibriumZero2, SameAverage, Inside2, Dot;
    Centre2(dom, x, r);
    Centre2(dom, y, r);
    if EquilibriumZero2(fL, dL, fS, dS, x, y) {
      forall h', x', y' | 0.0 <= h' <= 1.0 && dom(x') && dom(y') && SameAverage(h, x, y, h', x', y')
        ensures MeanEnergy2(fL, fS, h', x', y') >= MeanEnergy2(fL, fS, h, x, y)
      {
        EquilibriumMinimal2(fL, dL, fS, dS, dom, x, y, h, x', y', h');
      }
    }
    if LeastSplit2(fL, fS, dom, h, x, y) {
      var m := Point(-(y.a - x.a), -(y.b - x.b));
      SplitIsPartition2(fL, fS, dom, h, x, y);
      LeastHasEqualSlopes2(fL, dL(x), fS, dS(y), dom, h, x, y, r);
      LeastHasChord2(fL, dL(x), fS, dS(y), dom, h, x, y, r, m);
      ChordIsZero2(fL, dL, fS, dS, h, x, y, m);
    }
  }

  lemma ChordIsZero2(fL: Point -> real, dL: Point -> Point, fS: Point -> real, dS: Point -> Point, h: real, x: Point, y: Point, m: Point)
    requires dL(x) == dS(y) && m == Point(-(y.a - x.a), -(y.b - x.b))
    requires PathSlope(h, 1.0, fL(x), fS(y), Dot(dL(x), m), Dot(dS(y), m)) == 0.0
    ensures EquilibriumZero2(fL, dL, fS, dS, x, y)
  {
    WeightsAddUp(h, Dot(dL(x), m));
    assert dL(x).a * -(y.a - x.a) == (x.a - y.a) * dL(x).a && dL(x).b * -(y.b - x.b) == (x.b - y.b) * dL(x).b;
  }
}
