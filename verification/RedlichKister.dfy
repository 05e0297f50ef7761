/**
 The Redlich-Kister pair energy u v (l0 + l1 (u-v) + l2 (u-v)^2 + l3 (u-v)^3), the building block of
 the CALPHAD mixing energies, with its first and second derivatives along a straight line of
 compositions.  The binary, ternary and n-component formulas of source/CALPHADFunctions.C are all
 sums of this one term along suitable lines.
 */
module RedlichKister {
  import opened RealFacts
  import opened Calculus

  datatype RK = RK(l0: real, l1: real, l2: real, l3: real)

  function Poly(l: RK, z: real): real {
    l.l0 + l.l1 * z + l.l2 * z * z + l.l3 * z * z * z
  }

  function Poly1(l: RK, z: real): real {
    l.l1 + 2.0 * l.l2 * z + 3.0 * l.l3 * z * z
  }

  function Poly2(l: RK, z: real): real {
    2.0 * l.l2 + 6.0 * l.l3 * z
  }

  function Pair(l: RK, u: real, v: real): real {
    u * (v * Poly(l, u - v))
  }

  /** The derivative of Pair when u grows at rate p and v at rate q. */
  function Pair1(l: RK, u: real, v: real, p: real, q: real): real {
    (p * v + u * q) * Poly(l, u - v) + (p - q) * (u * (v * Poly1(l, u - v)))
  }

  /** The derivative of Pair1(l, u, v, p, q) when u grows at rate r and v at rate s. */
  function Pair2(l: RK, u: real, v: real, p: real, q: real, r: real, s: real): real {
    (p * s + r * q) * Poly(l, u - v)
    + ((p * v + u * q) * (r - s) + (p - q) * (r * v + u * s)) * Poly1(l, u - v)
    + (p - q) * (r - s) * (u * (v * Poly2(l, u - v)))
  }

  lemma PolyDeriv(l: RK, a: real, b: real, x: real, d: real) returns (f: real -> real)
    requires d == b * Poly1(l, Line(a, b, x))
    ensures HasDeriv(f, x, d) && forall t :: f(t) == Poly(l, Line(a, b, t))
  {
    hide *;
    var p := t => Poly(l, t);
    PolyDerivDirect(l, p, Line(a, b, x));
    f := t => p(Line(a, b, t));
    DerivAffine(p, f, a, b, x, Poly1(l, Line(a, b, x)), d);
  }

  lemma Poly1Deriv(l: RK, a: real, b: real, x: real, d: real) returns (f: real -> real)
    requires d == b * Poly2(l, Line(a, b, x))
    ensures HasDeriv(f, x, d) && forall t :: f(t) == Poly1(l, Line(a, b, t))
  {
    hide *;
    var p := t => Poly1(l, t);
    Poly1DerivDirect(l, p, Line(a, b, x));
    f := t => p(Line(a, b, t));
    DerivAffine(p, f, a, b, x, Poly2(l, Line(a, b, x)), d);
  }

  lemma PolyDerivDirect(l: RK, p: real -> real, z: real)
    requires forall t :: p(t) == Poly(l, t)
    ensures HasDeriv(p, z, Poly1(l, z))
  {
    hide HasDeriv, Poly, Poly1, Times;
    var h0 := (t: real) => l.l2 + l.l3 * t;
    DerivLine(h0, l.l2, l.l3, z);
    var d1 := h0(z) + Times(z, l.l3);
    var h1 := Horner(h0, z, l.l3, l.l1, d1);
    var d2 := h1(z) + Times(z, d1);
    var h2 := Horner(h1, z, d1, l.l0, d2);
    forall t
      ensures h2(t) == p(t)
    {
      HornerForm(l, t, h0(t), h1(t), h2(t));
    }
    HornerSlope(l, z, h0(z), h1(z), d1, d2);
    DerivSame(h2, p, z, d2, Poly1(l, z));
  }

  lemma Poly1DerivDirect(l: RK, p: real -> real, z: real)
    requires forall t :: p(t) == Poly1(l, t)
    ensures HasDeriv(p, z, Poly2(l, z))
  {
    hide HasDeriv, Poly1, Poly2, Times;
    var h0 := (t: real) => 2.0 * l.l2 + (3.0 * l.l3) * t;
    DerivLine(h0, 2.0 * l.l2, 3.0 * l.l3, z);
    var d1 := h0(z) + Times(z, 3.0 * l.l3);
    var h1 := Horner(h0, z, 3.0 * l.l3, l.l1, d1);
    forall t
      ensures h1(t) == p(t)
    {
      HornerForm1(l, t, h0(t), h1(t));
    }
    HornerSlope1(l, z, h0(z), d1);
    DerivSame(h1, p, z, d1, Poly2(l, z));
  }

  lemma Horner(g: real -> real, x: real, dg: real, c: real, d: real) returns (h: real -> real)
    requires HasDeriv(g, x, dg) && d == g(x) + Times(x, dg)
    ensures HasDeriv(h, x, d) && forall t :: h(t) == c + Times(t, g(t))
  {
    hide *;
    var id := (t: real) => t;
    DerivLine(id, 0.0, 1.0, x);
    var zg := TimesOf(id, g);
    TimesIs(1.0, g(x));
    DerivTimes(id, g, zg, x, 1.0, dg, d);
    h := t => c + zg(t);
    DerivAddLine(zg, h, x, d, c, 0.0, d);
  }

  lemma HornerForm(l: RK, z: real, y0: real, y1: real, y2: real)
    requires y0 == l.l2 + l.l3 * z && y1 == l.l1 + Times(z, y0) && y2 == l.l0 + Times(z, y1)
    ensures y2 == Poly(l, z)
  {
    assert y1 == l.l1 + z * (l.l2 + l.l3 * z);
    assert y2 == l.l0 + z * (l.l1 + z * (l.l2 + l.l3 * z));
  }

  lemma HornerSlope(l: RK, z: real, y0: real, y1: real, d1: real, d2: real)
    requires y0 == l.l2 + l.l3 * z && y1 == l.l1 + Times(z, y0) && d1 == y0 + Times(z, l.l3) && d2 == y1 + Times(z, d1)
    ensures d2 == Poly1(l, z)
  {
    assert y1 == l.l1 + z * (l.l2 + l.l3 * z);
    assert d2 == (l.l1 + z * (l.l2 + l.l3 * z)) + z * ((l.l2 + l.l3 * z) + z * l.l3);
  }

  lemma HornerForm1(l: RK, z: real, y0: real, y1: real)
    requires y0 == 2.0 * l.l2 + (3.0 * l.l3) * z && y1 == l.l1 + Times(z, y0)
    ensures y1 == Poly1(l, z)
  {
    assert y1 == l.l1 + z * (2.0 * l.l2 + (3.0 * l.l3) * z);
  }

  lemma HornerSlope1(l: RK, z: real, y0: real, d1: real)
    requires y0 == 2.0 * l.l2 + (3.0 * l.l3) * z && d1 == y0 + Times(z, 3.0 * l.l3)
    ensures d1 == Poly2(l, z)
  {}

  lemma LineDifference(a: real, p: real, b: real, q: real, t: real)
    ensures Line(a, p, t) - Line(b, q, t) == Line(a - b, p - q, t)
  {}

  /** u v g along a line, for a function g with derivative dg. */
  lemma PairProduct(g: real -> real, a: real, p: real, b: real, q: real, x: real, dg: real, d: real) returns (h: real -> real)
    requires HasDeriv(g, x, dg)
    requires d == (p * Line(b, q, x) + Line(a, p, x) * q) * g(x) + Line(a, p, x) * (Line(b, q, x) * dg)
    ensures HasDeriv(h, x, d) && forall t :: h(t) == Times(Line(a, p, t), Times(Line(b, q, t), g(t)))
  {
    hide HasDeriv, Times;
    var u, v := Line(a, p, x), Line(b, q, x);
    var d1 := Times(q, g(x)) + Times(v, dg);
    var vg := LineTimes(g, b, q, x, dg, d1);
    PairProductRule(u, v, p, q, g(x), dg, vg(x), d1, d);
    h := LineTimes(vg, a, p, x, d1, d);
    forall t
      ensures h(t) == Times(Line(a, p, t), Times(Line(b, q, t), g(t)))
    {
      assert vg(t) == Times(Line(b, q, t), g(t));
    }
  }

  lemma PairProductRule(u: real, v: real, p: real, q: real, g: real, dg: real, vg: real, d1: real, d: real)
    requires vg == Times(v, g) && d1 == Times(q, g) + Times(v, dg) && d == (p * v + u * q) * g + u * (v * dg)
    ensures d == Times(p, vg) + Times(u, d1)
  {
    assert p * (v * g) + u * (q * g + v * dg) == (p * v + u * q) * g + u * (v * dg);
  }

  /** Along a line of compositions, Pair1 is the derivative of Pair ... */
  lemma PairDeriv(l: RK, a: real, p: real, b: real, q: real, x: real, F: real -> real, d: real)
    requires forall t :: F(t) == Pair(l, Line(a, p, t), Line(b, q, t))
    requires d == Pair1(l, Line(a, p, x), Line(b, q, x), p, q)
    ensures HasDeriv(F, x, d)
  {
    hide HasDeriv, Poly, Poly1, Line, Times, Pair;
    var u, v := Line(a, p, x), Line(b, q, x);
    LineDifference(a, p, b, q, x);
    var dP := (p - q) * Poly1(l, u - v);
    var P := PolyDeriv(l, a - b, p - q, x, dP);
    Pull(u, v, p - q, Poly1(l, u - v));
    var h := PairProduct(P, a, p, b, q, x, dP, d);
    forall t
      ensures h(t) == F(t)
    {
      LineDifference(a, p, b, q, t);
      PairValue(l, Line(a, p, t), Line(b, q, t));
    }
    DerivSame(h, F, x, d, d);
  }

  lemma PairValue(l: RK, u: real, v: real)
    ensures Pair(l, u, v) == Times(u, Times(v, Poly(l, u - v)))
  {}

  lemma Pull(u: real, v: real, w: real, g: real)
    ensures u * (v * (w * g)) == w * (u * (v * g))
  {}

  // The rate of u v when u grows at rate p and v at rate q.
  function Mixed(u: real, v: real, p: real, q: real): real {
    p * v + u * q
  }

  /** ... and Pair2 that of Pair1. */
  lemma Pair1Deriv(l: RK, a: real, r: real, b: real, s: real, p: real, q: real, x: real, F: real -> real, d: real)
    requires forall t :: F(t) == Pair1(l, Line(a, r, t), Line(b, s, t), p, q)
    requires d == Pair2(l, Line(a, r, x), Line(b, s, x), p, q, r, s)
    ensures HasDeriv(F, x, d)
  {
    hide HasDeriv, Poly, Poly1, Poly2, Line, Pair1, Pair2, Times, Mixed;
    var u, v := Line(a, r, x), Line(b, s, x);
    LineDifference(a, r, b, s, x);
    var dP, dP1 := (r - s) * Poly1(l, u - v), (r - s) * Poly2(l, u - v);
    var P := PolyDeriv(l, a - b, r - s, x, dP);
    var P1 := Poly1Deriv(l, a - b, r - s, x, dP1);
    var d1 := (p * s + r * q) * P(x) + (p * v + u * q) * dP;
    var d2 := (r * v + u * s) * P1(x) + u * (v * dP1);
    var d3 := Times(p - q, d2);
    var first := FirstPart(P, a, r, b, s, p, q, x, dP, d1);
    var h := PairProduct(P1, a, r, b, s, x, dP1, d2);
    var second := ScaleTimes(h, p - q, x, d2, d3);
    Pair2Form(l, u, v, p, q, r, s, P(x), P1(x), dP, dP1, d1, d2, d3);
    Pair1Sum(l, a, r, b, s, p, q, P, P1, first, h, second, F);
    DerivAdd(first, second, F, x, d1, d3, d);
  }

  lemma Pair1Sum(l: RK, a: real, r: real, b: real, s: real, p: real, q: real, P: real -> real, P1: real -> real,
                 first: real -> real, h: real -> real, second: real -> real, F: real -> real)
    requires forall t :: F(t) == Pair1(l, Line(a, r, t), Line(b, s, t), p, q)
    requires forall t :: P(t) == Poly(l, Line(a - b, r - s, t)) && P1(t) == Poly1(l, Line(a - b, r - s, t))
    requires forall t :: first(t) == Times(Mixed(Line(a, r, t), Line(b, s, t), p, q), P(t))
    requires forall t :: h(t) == Times(Line(a, r, t), Times(Line(b, s, t), P1(t)))
    requires forall t :: second(t) == Times(p - q, h(t))
    ensures forall t :: F(t) == first(t) + second(t)
  {
    hide *;
    forall t
      ensures F(t) == first(t) + second(t)
    {
      LineDifference(a, r, b, s, t);
      Pair1Split(l, Line(a, r, t), Line(b, s, t), p, q, P(t), P1(t), first(t), h(t), second(t));
    }
  }

  lemma Pair1Split(l: RK, u: real, v: real, p: real, q: real, P: real, P1: real, f: real, h: real, k: real)
    requires P == Poly(l, u - v) && P1 == Poly1(l, u - v)
    requires f == Times(Mixed(u, v, p, q), P) && h == Times(u, Times(v, P1)) && k == Times(p - q, h)
    ensures Pair1(l, u, v, p, q) == f + k
  {
    hide Poly, Poly1;
    assert f == (p * v + u * q) * Poly(l, u - v);
    assert h == u * (v * Poly1(l, u - v));
    assert k == (p - q) * (u * (v * Poly1(l, u - v)));
  }

  // (p v + u q) P along a line.
  lemma FirstPart(P: real -> real, a: real, r: real, b: real, s: real, p: real, q: real, x: real, dP: real, d: real)
    returns (h: real -> real)
    requires HasDeriv(P, x, dP)
    requires d == (p * s + r * q) * P(x) + (p * Line(b, s, x) + Line(a, r, x) * q) * dP
    ensures HasDeriv(h, x, d)
    ensures forall t :: h(t) == Times(Mixed(Line(a, r, t), Line(b, s, t), p, q), P(t))
  {
    hide HasDeriv, Times, Mixed, Line;
    MixLines(a, r, b, s, p, q, x);
    MixedRate(p * s + r * q, P(x), p * Line(b, s, x) + Line(a, r, x) * q, Line(p * b + a * q, p * s + r * q, x), dP, d);
    var g := LineTimes(P, p * b + a * q, p * s + r * q, x, dP, d);
    h := g;
    forall t
      ensures h(t) == Times(Mixed(Line(a, r, t), Line(b, s, t), p, q), P(t))
    {
      MixLines(a, r, b, s, p, q, t);
    }
  }

  lemma MixedRate(w: real, P: real, m: real, m': real, dP: real, d: real)
    requires m == m' && d == w * P + m * dP
    ensures d == Times(w, P) + Times(m', dP)
  {}

  lemma MixLines(a: real, r: real, b: real, s: real, p: real, q: real, t: real)
    ensures p * Line(b, s, t) + Line(a, r, t) * q == Line(p * b + a * q, p * s + r * q, t)
    ensures Mixed(Line(a, r, t), Line(b, s, t), p, q) == Line(p * b + a * q, p * s + r * q, t)
  {}

  lemma Pair2Form(l: RK, u: real, v: real, p: real, q: real, r: real, s: real,
                  P: real, P1: real, dP: real, dP1: real, d1: real, d2: real, d3: real)
    requires P == Poly(l, u - v) && P1 == Poly1(l, u - v)
    requires dP == (r - s) * Poly1(l, u - v) && dP1 == (r - s) * Poly2(l, u - v)
    requires d1 == (p * s + r * q) * P + (p * v + u * q) * dP && d2 == (r * v + u * s) * P1 + u * (v * dP1)
    requires d3 == Times(p - q, d2)
    ensures Pair2(l, u, v, p, q, r, s) == d1 + d3
  {
    hide Poly, Poly1, Poly2;
    Pair2Sum(u, v, p, q, r, s, P, P1, Poly2(l, u - v));
  }

  lemma Pair2Sum(u: real, v: real, p: real, q: real, r: real, s: real, P: real, P1: real, P2: real)
    ensures (p * s + r * q) * P + (p * v + u * q) * ((r - s) * P1) + (p - q) * ((r * v + u * s) * P1 + u * (v * ((r - s) * P2)))
      == (p * s + r * q) * P + ((p * v + u * q) * (r - s) + (p - q) * (r * v + u * s)) * P1
       + (p - q) * (r - s) * (u * (v * P2))
  {}
}
