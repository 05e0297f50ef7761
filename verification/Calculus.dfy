/**
 Derivatives of functions of one real variable.

 A derivative is given in Caratheodory's form: f(y) - f(x) == phi(y) * (y - x) for a function phi
 that is continuous at x, and the derivative is phi(x).  Continuity is the usual epsilon-delta
 statement.  Every "is the exact derivative" theorem of the project is a HasDeriv fact.
 */
module Calculus {
  import opened RealFacts

  function Line(a: real, b: real, t: real): real {
    a + b * t
  }

  // Functions are named before they are reasoned about.

  lemma TimesOf(f: real -> real, g: real -> real) returns (h: real -> real)
    ensures forall t :: h(t) == Times(f(t), g(t))
  {
    h := t => Times(f(t), g(t));
  }

  lemma SumOf(f: real -> real, g: real -> real) returns (h: real -> real)
    ensures forall t :: h(t) == f(t) + g(t)
  {
    h := t => f(t) + g(t);
  }

  lemma ScaledBy(c: real, f: real -> real) returns (h: real -> real)
    ensures forall t :: h(t) == Times(c, f(t))
  {
    h := t => Times(c, f(t));
  }

  lemma LineOf(a: real, b: real) returns (l: real -> real)
    ensures forall t :: l(t) == a + b * t && l(t) == Line(a, b, t)
  {
    l := t => Line(a, b, t);
  }

  // Within delta of x, f stays within eps of f(x).
  ghost predicate Close(f: real -> real, x: real, eps: real, delta: real) {
    delta > 0.0 && forall y :: x - delta < y < x + delta ==> f(x) - eps < f(y) < f(x) + eps
  }

  ghost predicate HasDelta(f: real -> real, x: real, eps: real) {
    exists delta :: Close(f, x, eps, delta)
  }

  ghost predicate Continuous(f: real -> real, x: real) {
    forall eps :: eps > 0.0 ==> HasDelta(f, x, eps)
  }

  // How far a line of slope p rises from x to y.
  function Rise(p: real, x: real, y: real): real {
    p * (y - x)
  }

  ghost predicate SecantSlope(f: real -> real, x: real, d: real, phi: real -> real) {
    && phi(x) == d
    && Continuous(phi, x)
    && forall y :: f(y) - f(x) == Rise(phi(y), x, y)
  }

  ghost predicate HasDeriv(f: real -> real, x: real, d: real) {
    exists phi: real -> real :: SecantSlope(f, x, d, phi)
  }

  lemma SlopeOf(f: real -> real, x: real, d: real) returns (phi: real -> real)
    requires HasDeriv(f, x, d)
    ensures phi(x) == d && Continuous(phi, x)
    ensures forall y :: f(y) - f(x) == Rise(phi(y), x, y)
  {
    hide Continuous, Rise;
    phi :| SecantSlope(f, x, d, phi);
  }

  lemma FromSlope(f: real -> real, x: real, d: real, phi: real -> real)
    requires phi(x) == d && Continuous(phi, x)
    requires forall y :: f(y) - f(x) == Rise(phi(y), x, y)
    ensures HasDeriv(f, x, d)
  {
    hide Continuous, Rise;
    assert SecantSlope(f, x, d, phi);
  }

  // ----- continuity -----

  lemma ContinuousNear(f: real -> real, g: real -> real, x: real, r: real)
    requires Continuous(f, x) && r > 0.0
    requires forall y :: x - r < y < x + r ==> f(y) == g(y)
    ensures Continuous(g, x)
  {
    forall eps | eps > 0.0
      ensures HasDelta(g, x, eps)
    {
      assert HasDelta(f, x, eps);
      var delta :| Close(f, x, eps, delta);
      assert f(x) == g(x);
      assert Close(g, x, eps, Min(delta, r));
    }
  }

  lemma ContinuousAffine(f: real -> real, g: real -> real, a: real, b: real, x: real)
    requires Continuous(f, Line(a, b, x))
    requires forall t :: g(t) == f(Line(a, b, t))
    ensures Continuous(g, x)
  {
    forall eps | eps > 0.0
      ensures HasDelta(g, x, eps)
    {
      assert HasDelta(f, Line(a, b, x), eps);
      var delta :| Close(f, Line(a, b, x), eps, delta);
      var delta' := Shrunk(b, delta);
      AffineClose(f, g, a, b, x, eps, delta, delta');
    }
  }

  lemma AffineClose(f: real -> real, g: real -> real, a: real, b: real, x: real, eps: real, delta: real, delta': real)
    requires Close(f, Line(a, b, x), eps, delta)
    requires delta' > 0.0 && Abs(b) * delta' <= delta
    requires forall t :: g(t) == f(Line(a, b, t))
    ensures Close(g, x, eps, delta')
  {
    forall y | x - delta' < y < x + delta'
      ensures g(x) - eps < g(y) < g(x) + eps
    {
      AffineInside(a, b, x, y, delta, delta');
    }
  }

  lemma AffineInside(a: real, b: real, x: real, y: real, delta: real, delta': real)
    requires delta > 0.0 && delta' > 0.0 && Abs(b) * delta' <= delta && x - delta' < y < x + delta'
    ensures a + b * x - delta < a + b * y < a + b * x + delta
  {
    BoundScaled(y - x, b, delta');
    assert b * y == b * x + (y - x) * b;
  }

  lemma Shrunk(b: real, delta: real) returns (d: real)
    requires delta > 0.0
    ensures d > 0.0 && Abs(b) * d <= delta
  {
    d := Quotient(delta, Abs(b) + 1.0);
  }

  lemma BoundScaled(p: real, b: real, d: real)
    requires -d < p < d && d > 0.0
    ensures b == 0.0 || -(Abs(b) * d) < p * b < Abs(b) * d
    ensures b == 0.0 ==> p * b == 0.0
  {}

  lemma ContinuousAdd(f: real -> real, g: real -> real, h: real -> real, x: real)
    requires Continuous(f, x) && Continuous(g, x)
    requires forall t :: h(t) == f(t) + g(t)
    ensures Continuous(h, x)
  {
    forall eps | eps > 0.0
      ensures HasDelta(h, x, eps)
    {
      assert HasDelta(f, x, eps / 2.0) && HasDelta(g, x, eps / 2.0);
      var d1 :| Close(f, x, eps / 2.0, d1);
      var d2 :| Close(g, x, eps / 2.0, d2);
      assert Close(h, x, eps, Min(d1, d2));
    }
  }

  lemma ContinuousMul(f: real -> real, g: real -> real, h: real -> real, x: real)
    requires Continuous(f, x) && Continuous(g, x)
    requires forall t :: h(t) == Times(f(t), g(t))
    ensures Continuous(h, x)
  {
    hide Times, Fits;
    forall eps | eps > 0.0
      ensures HasDelta(h, x, eps)
    {
      var e := SmallFactor(f(x), g(x), eps);
      assert HasDelta(f, x, e) && HasDelta(g, x, e);
      var d1 :| Close(f, x, e, d1);
      var d2 :| Close(g, x, e, d2);
      forall y | x - Min(d1, d2) < y < x + Min(d1, d2)
        ensures h(x) - eps < h(y) < h(x) + eps
      {
        ProductClose(f(x), g(x), f(y), g(y), e, eps);
      }
      assert Close(h, x, eps, Min(d1, d2));
    }
  }

  ghost predicate Fits(e: real, u: real, v: real, eps: real) {
    0.0 < e <= 1.0 && e * (1.0 + Abs(u) + Abs(v)) <= eps
  }

  lemma SmallFactor(u: real, v: real, eps: real) returns (e: real)
    requires eps > 0.0
    ensures Fits(e, u, v, eps) && e > 0.0
  {
    var s := 1.0 + Abs(u) + Abs(v);
    e := Quotient(eps, s);
    if e > 1.0 {
      PositiveProduct(e - 1.0, s);
      e := 1.0;
    }
  }

  lemma Quotient(x: real, y: real) returns (q: real)
    requires x > 0.0 && y > 0.0
    ensures q > 0.0 && q * y == x
  {
    q := x / y;
    if q <= 0.0 {
      NonNegativeProduct(-q, y);
    }
  }

  lemma ProductClose(u: real, v: real, u': real, v': real, e: real, eps: real)
    requires Fits(e, u, v, eps) && u - e < u' < u + e && v - e < v' < v + e
    ensures Times(u, v) - eps < Times(u', v') < Times(u, v) + eps
  {
    var p, q := u' - u, v' - v;
    assert u' * v' == u * v + (p * v + q * u + p * q) by { Expand(u, v, p, q); }
    assert -eps < p * v + q * u + p * q < eps by { SumClose(p, q, u, v, e, eps); }
  }

  lemma Expand(u: real, v: real, p: real, q: real)
    ensures (u + p) * (v + q) == u * v + (p * v + q * u + p * q)
  {}

  lemma SumClose(p: real, q: real, u: real, v: real, e: real, eps: real)
    requires Fits(e, u, v, eps) && -e < p < e && -e < q < e
    ensures -eps < p * v + q * u + p * q < eps
  {
    BoundMul(p, v, e);
    BoundMul(q, u, e);
    BoundUnit(p, q, e);
    assert e * (1.0 + Abs(u) + Abs(v)) == e + e * Abs(u) + e * Abs(v);
  }

  lemma BoundMul(p: real, u: real, e: real)
    requires -e < p < e
    ensures -(e * Abs(u)) <= p * u <= e * Abs(u)
  {}

  lemma BoundUnit(p: real, q: real, e: real)
    requires -e < p < e && -1.0 <= q <= 1.0
    ensures -e < p * q < e
  {
    BoundMul(p, 1.0, e);
    BoundMulLe(q, p);
  }

  lemma BoundMulLe(q: real, p: real)
    requires -1.0 <= q <= 1.0
    ensures -Abs(p) <= p * q <= Abs(p)
  {
    BoundNonneg(q, Abs(p));
    assert p * q == if p < 0.0 then -(Abs(p) * q) else Abs(p) * q;
  }

  lemma BoundNonneg(q: real, a: real)
    requires -1.0 <= q <= 1.0 && a >= 0.0
    ensures -a <= a * q <= a
  {}

  lemma ContinuousLine(f: real -> real, a: real, b: real, x: real)
    requires forall t :: f(t) == a + b * t
    ensures Continuous(f, x)
  {
    var id := (t: real) => t;
    IdContinuous(id, Line(a, b, x));
    ContinuousAffine(id, f, a, b, x);
  }

  lemma IdContinuous(id: real -> real, x: real)
    requires forall t :: id(t) == t
    ensures Continuous(id, x)
  {
    forall eps | eps > 0.0
      ensures HasDelta(id, x, eps)
    {
      assert Close(id, x, eps, eps);
    }
  }

  lemma DerivContinuous(f: real -> real, x: real, d: real)
    requires HasDeriv(f, x, d)
    ensures Continuous(f, x)
  {
    hide *;
    var phi := SlopeOf(f, x, d);
    var step := (t: real) => -x + 1.0 * t;
    ContinuousLine(step, -x, 1.0, x);
    var rise := TimesOf(phi, step);
    ContinuousMul(phi, step, rise, x);
    var base := (t: real) => f(x) + 0.0 * t;
    ContinuousLine(base, f(x), 0.0, x);
    RiseFromBase(f, phi, step, rise, base, x);
    ContinuousAdd(rise, base, f, x);
  }

  lemma RiseFromBase(f: real -> real, phi: real -> real, step: real -> real, rise: real -> real, base: real -> real, x: real)
    requires forall y :: f(y) - f(x) == Rise(phi(y), x, y)
    requires forall t :: step(t) == -x + 1.0 * t
    requires forall t :: rise(t) == Times(phi(t), step(t))
    requires forall t :: base(t) == f(x) + 0.0 * t
    ensures forall t :: f(t) == rise(t) + base(t)
  {
    hide Rise, Times;
    forall t
      ensures f(t) == rise(t) + base(t)
    {
      RiseIs(phi(t), x, t, step(t), rise(t));
    }
  }

  lemma RiseIs(p: real, x: real, y: real, h: real, r: real)
    requires h == -x + 1.0 * y && r == Times(p, h)
    ensures Rise(p, x, y) == r
  {}

  // ----- rules -----

  lemma DerivSame(f: real -> real, g: real -> real, x: real, df: real, d: real)
    requires HasDeriv(f, x, df) && df == d
    requires forall y :: f(y) == g(y)
    ensures HasDeriv(g, x, d)
  {
    hide *;
    var phi := SlopeOf(f, x, d);
    FromSlope(g, x, d, phi);
  }

  lemma DerivLine(f: real -> real, a: real, b: real, x: real)
    requires forall t :: f(t) == a + b * t
    ensures HasDeriv(f, x, b)
  {
    hide *;
    var phi := (t: real) => b + 0.0 * t;
    ContinuousLine(phi, b, 0.0, x);
    forall y
      ensures f(y) - f(x) == Rise(phi(y), x, y)
    {
      LineRise(a, b, x, y, phi(y));
    }
    FromSlope(f, x, b, phi);
  }

  lemma LineRise(a: real, b: real, x: real, y: real, p: real)
    requires p == b + 0.0 * y
    ensures (a + b * y) - (a + b * x) == Rise(p, x, y)
  {}

  lemma DerivAdd(f: real -> real, g: real -> real, h: real -> real, x: real, a: real, b: real, d: real)
    requires HasDeriv(f, x, a) && HasDeriv(g, x, b) && d == a + b
    requires forall t :: h(t) == f(t) + g(t)
    ensures HasDeriv(h, x, d)
  {
    hide *;
    var p := SlopeOf(f, x, a);
    var q := SlopeOf(g, x, b);
    var phi := SumOf(p, q);
    ContinuousAdd(p, q, phi, x);
    forall y
      ensures h(y) - h(x) == Rise(phi(y), x, y)
    {
      SumStep(p(y), q(y), x, y);
    }
    FromSlope(h, x, d, phi);
  }

  lemma SumStep(p: real, q: real, x: real, y: real)
    ensures Rise(p + q, x, y) == Rise(p, x, y) + Rise(q, x, y)
  {}

  /** The product rule. */
  lemma DerivTimes(f: real -> real, g: real -> real, h: real -> real, x: real, a: real, b: real, d: real)
    requires HasDeriv(f, x, a) && HasDeriv(g, x, b) && d == Times(a, g(x)) + Times(f(x), b)
    requires forall t :: h(t) == Times(f(t), g(t))
    ensures HasDeriv(h, x, d)
  {
    hide *;
    var p := SlopeOf(f, x, a);
    var q := SlopeOf(g, x, b);
    var phi := ProductSlope(f, g, p, q, x, a, b);
    forall y
      ensures h(y) - h(x) == Rise(phi(y), x, y)
    {
      ProductStep(f(x), f(y), g(x), g(y), p(y), q(y), x, y, phi(y));
    }
    FromSlope(h, x, d, phi);
  }

  lemma ProductSlope(f: real -> real, g: real -> real, p: real -> real, q: real -> real, x: real, a: real, b: real)
    returns (phi: real -> real)
    requires HasDeriv(g, x, b) && Continuous(p, x) && Continuous(q, x)
    ensures forall t :: phi(t) == Times(p(t), g(t)) + Times(f(x), q(t))
    ensures Continuous(phi, x)
  {
    hide *;
    DerivContinuous(g, x, b);
    var pg := MulContinuous(p, g, x);
    var cq := ScaleContinuous(q, f(x), x);
    phi := SumOf(pg, cq);
    ContinuousAdd(pg, cq, phi, x);
  }

  lemma MulContinuous(p: real -> real, g: real -> real, x: real) returns (pg: real -> real)
    requires Continuous(p, x) && Continuous(g, x)
    ensures Continuous(pg, x) && forall t :: pg(t) == Times(p(t), g(t))
  {
    hide *;
    pg := TimesOf(p, g);
    ContinuousMul(p, g, pg, x);
  }

  lemma ScaleContinuous(q: real -> real, c: real, x: real) returns (cq: real -> real)
    requires Continuous(q, x)
    ensures Continuous(cq, x) && forall t :: cq(t) == Times(c, q(t))
  {
    hide *;
    var k := (t: real) => c + 0.0 * t;
    ContinuousLine(k, c, 0.0, x);
    cq := MulContinuous(k, q, x);
    forall t
      ensures cq(t) == Times(c, q(t))
    {
      assert k(t) == c;
    }
  }

  lemma ProductStep(f0: real, f1: real, g0: real, g1: real, p: real, q: real, x: real, y: real, r: real)
    requires f1 - f0 == Rise(p, x, y) && g1 - g0 == Rise(q, x, y) && r == Times(p, g1) + Times(f0, q)
    ensures Times(f1, g1) - Times(f0, g0) == Rise(r, x, y)
  {
    assert f1 * g1 - f0 * g0 == (f1 - f0) * g1 + f0 * (g1 - g0);
  }

  /** The chain rule for an affine inner function. */
  lemma DerivAffine(f: real -> real, g: real -> real, a: real, b: real, x: real, df: real, d: real)
    requires HasDeriv(f, Line(a, b, x), df) && d == b * df
    requires forall t :: g(t) == f(Line(a, b, t))
    ensures HasDeriv(g, x, d)
  {
    hide *;
    var p := SlopeOf(f, Line(a, b, x), df);
    var phi := AffineSlope(p, a, b, x);
    forall y
      ensures g(y) - g(x) == Rise(phi(y), x, y)
    {
      AffineStep(p(Line(a, b, y)), a, b, x, y, phi(y));
    }
    TimesIs(b, df);
    FromSlope(g, x, d, phi);
  }

  lemma AffineSlope(p: real -> real, a: real, b: real, x: real) returns (phi: real -> real)
    requires Continuous(p, Line(a, b, x))
    ensures Continuous(phi, x) && forall t :: phi(t) == Times(b, p(Line(a, b, t)))
  {
    hide *;
    var pa := t => p(Line(a, b, t));
    ContinuousAffine(p, pa, a, b, x);
    phi := ScaleContinuous(pa, b, x);
  }

  lemma AffineStep(p: real, a: real, b: real, x: real, y: real, r: real)
    requires r == Times(b, p)
    ensures Rise(p, Line(a, b, x), Line(a, b, y)) == Rise(r, x, y)
  {}

  lemma ScaleTimes(f: real -> real, c: real, x: real, df: real, d: real) returns (g: real -> real)
    requires HasDeriv(f, x, df) && d == Times(c, df)
    ensures HasDeriv(g, x, d) && forall t :: g(t) == Times(c, f(t))
  {
    hide *;
    var p := SlopeOf(f, x, df);
    var phi := ScaleContinuous(p, c, x);
    g := ScaledBy(c, f);
    forall y
      ensures g(y) - g(x) == Rise(phi(y), x, y)
    {
      ScaleStep(f(x), f(y), p(y), x, y, c, phi(y));
    }
    FromSlope(g, x, d, phi);
  }

  lemma ScaleStep(f0: real, f1: real, p: real, x: real, y: real, c: real, r: real)
    requires f1 - f0 == Rise(p, x, y) && r == Times(c, p)
    ensures Times(c, f1) - Times(c, f0) == Rise(r, x, y)
  {
    assert c * f1 - c * f0 == c * (f1 - f0);
  }

  lemma DerivScale(f: real -> real, c: real, x: real, df: real, d: real) returns (g: real -> real)
    requires HasDeriv(f, x, df) && d == c * df
    ensures HasDeriv(g, x, d) && forall t :: g(t) == c * f(t)
  {
    hide *;
    TimesIs(c, df);
    g := ScaleTimes(f, c, x, df, d);
    forall t
      ensures g(t) == c * f(t)
    {
      TimesIs(c, f(t));
    }
  }

  lemma DerivCombination(f: real -> real, g: real -> real, h: real -> real, x: real, df: real, dg: real,
                         a: real, b: real, d: real)
    requires HasDeriv(f, x, df) && HasDeriv(g, x, dg) && d == a * df + b * dg
    requires forall t :: h(t) == a * f(t) + b * g(t)
    ensures HasDeriv(h, x, d)
  {
    hide *;
    var af := DerivScale(f, a, x, df, a * df);
    var bg := DerivScale(g, b, x, dg, b * dg);
    DerivAdd(af, bg, h, x, a * df, b * dg, d);
  }

  lemma LineTimes(g: real -> real, a: real, b: real, x: real, dg: real, d: real) returns (h: real -> real)
    requires HasDeriv(g, x, dg) && d == Times(b, g(x)) + Times(Line(a, b, x), dg)
    ensures HasDeriv(h, x, d) && forall t :: h(t) == Times(Line(a, b, t), g(t))
  {
    hide *;
    var l := LineOf(a, b);
    DerivLine(l, a, b, x);
    h := TimesOf(l, g);
    DerivTimes(l, g, h, x, b, dg, d);
  }

  lemma DerivLineMul(g: real -> real, a: real, b: real, x: real, dg: real, d: real) returns (h: real -> real)
    requires HasDeriv(g, x, dg) && d == b * g(x) + (a + b * x) * dg
    ensures HasDeriv(h, x, d) && forall t :: h(t) == (a + b * t) * g(t)
  {
    hide *;
    TimesIs(b, g(x));
    LineTimesIs(a, b, x, dg);
    h := LineTimes(g, a, b, x, dg, d);
    forall t
      ensures h(t) == (a + b * t) * g(t)
    {
      LineTimesIs(a, b, t, g(t));
    }
  }

  lemma LineTimesIs(a: real, b: real, t: real, y: real)
    ensures Times(Line(a, b, t), y) == (a + b * t) * y
  {}

  lemma DerivAddLine(f: real -> real, h: real -> real, x: real, df: real, p: real, q: real, d: real)
    requires HasDeriv(f, x, df) && d == df + q
    requires forall t :: h(t) == f(t) + (p + q * t)
    ensures HasDeriv(h, x, d)
  {
    hide *;
    var m := (t: real) => p + q * t;
    DerivLine(m, p, q, x);
    DerivAdd(f, m, h, x, df, q, d);
  }

  lemma DerivAdd3(f: real -> real, g: real -> real, k: real -> real, x: real, df: real, dg: real, dk: real, d: real)
    returns (s: real -> real)
    requires HasDeriv(f, x, df) && HasDeriv(g, x, dg) && HasDeriv(k, x, dk) && d == df + dg + dk
    ensures HasDeriv(s, x, d) && forall t :: s(t) == f(t) + g(t) + k(t)
  {
    hide *;
    var s1 := SumOf(f, g);
    DerivAdd(f, g, s1, x, df, dg, df + dg);
    s := SumOf(s1, k);
    DerivAdd(s1, k, s, x, df + dg, dk, d);
  }

  /**
   The derivative of c f(t) + (a + b t) g(t) + e k(t) + (p + q t).  Every row of the Newton systems,
   as a function of one unknown, has this shape.
   */
  lemma DerivForm(f: real -> real, g: real -> real, k: real -> real, row: real -> real, x: real,
                  df: real, dg: real, dk: real, c: real, a: real, b: real, e: real, p: real, q: real, d: real)
    requires HasDeriv(f, x, df) && HasDeriv(g, x, dg) && HasDeriv(k, x, dk)
    requires forall t :: row(t) == c * f(t) + (a + b * t) * g(t) + e * k(t) + (p + q * t)
    requires d == c * df + (b * g(x) + (a + b * x) * dg) + e * dk + q
    ensures HasDeriv(row, x, d)
  {
    hide *;
    var f' := DerivScale(f, c, x, df, c * df);
    var g' := DerivLineMul(g, a, b, x, dg, b * g(x) + (a + b * x) * dg);
    var k' := DerivScale(k, e, x, dk, e * dk);
    var s := DerivAdd3(f', g', k', x, c * df, b * g(x) + (a + b * x) * dg, e * dk, d - q);
    DerivAddLine(s, row, x, d - q, p, q, d);
  }

  // ----- functions given by cases -----

  /** Two functions that agree near x have the same derivative there. */
  lemma DerivNear(f: real -> real, g: real -> real, x: real, d: real, r: real)
    requires HasDeriv(f, x, d) && r > 0.0
    requires forall y :: x - r < y < x + r ==> f(y) == g(y)
    ensures HasDeriv(g, x, d)
  {
    hide *;
    var p := SlopeOf(f, x, d);
    var q := Slopes(g, x, d);
    forall y | x - r < y < x + r
      ensures p(y) == q(y)
    {
      if y != x {
        SameRise(p(y), q(y), x, y);
      }
    }
    ContinuousNear(p, q, x, r);
    FromSlope(g, x, d, q);
  }

  // The difference quotients of g at x, and d at x itself.
  lemma Slopes(g: real -> real, x: real, d: real) returns (q: real -> real)
    ensures q(x) == d && forall y :: g(y) - g(x) == Rise(q(y), x, y)
  {
    hide Rise, Secant;
    q := (y: real) => if y == x then d else Secant(g(y) - g(x), x, y);
    forall y
      ensures g(y) - g(x) == Rise(q(y), x, y)
    {
      if y == x {
        NoRise(q(y), x);
      } else {
        SlopeRises(g(y) - g(x), x, y);
      }
    }
  }

  function Secant(rise: real, x: real, y: real): real
    requires x != y
  {
    rise / (y - x)
  }

  lemma SlopeRises(rise: real, x: real, y: real)
    requires x != y
    ensures Rise(Secant(rise, x, y), x, y) == rise
  {}

  lemma NoRise(p: real, x: real)
    ensures Rise(p, x, x) == 0.0
  {}

  lemma SameRise(p: real, q: real, x: real, y: real)
    requires x != y && Rise(p, x, y) == Rise(q, x, y)
    ensures p == q
  {
    assert (p - q) * (y - x) == 0.0;
  }

  /** Two branches that meet with the same value and the same derivative make a differentiable whole. */
  lemma DerivGlue(f: real -> real, g: real -> real, h: real -> real, x: real, d: real)
    requires HasDeriv(f, x, d) && HasDeriv(g, x, d)
    requires f(x) == h(x) == g(x)
    requires forall y :: y < x ==> h(y) == f(y)
    requires forall y :: y > x ==> h(y) == g(y)
    ensures HasDeriv(h, x, d)
  {
    hide *;
    var p := SlopeOf(f, x, d);
    var q := SlopeOf(g, x, d);
    var phi := y => if y < x then p(y) else q(y);
    ContinuousGlue(p, q, phi, x);
    FromSlope(h, x, d, phi);
  }

  lemma ContinuousGlue(p: real -> real, q: real -> real, phi: real -> real, x: real)
    requires Continuous(p, x) && Continuous(q, x) && p(x) == q(x)
    requires forall y :: phi(y) == if y < x then p(y) else q(y)
    ensures Continuous(phi, x)
  {
    forall eps | eps > 0.0
      ensures HasDelta(phi, x, eps)
    {
      assert HasDelta(p, x, eps) && HasDelta(q, x, eps);
      var d1 :| Close(p, x, eps, d1);
      var d2 :| Close(q, x, eps, d2);
      assert Close(phi, x, eps, Min(d1, d2));
    }
  }

  /** Agreement on one side of x, however short, already forces equal derivatives. */
  lemma DerivOneSided(f: real -> real, g: real -> real, x: real, a: real, b: real, r: real, left: bool)
    requires HasDeriv(f, x, a) && HasDeriv(g, x, b) && r > 0.0
    requires f(x) == g(x)
    requires forall y :: (if left then x - r < y < x else x < y < x + r) ==> f(y) == g(y)
    ensures a == b
  {
    hide *;
    var p := SlopeOf(f, x, a);
    var q := SlopeOf(g, x, b);
    forall y | if left then x - r < y < x else x < y < x + r
      ensures p(y) == q(y)
    {
      SameRise(p(y), q(y), x, y);
    }
    SameLimit(p, q, x, r, left);
  }

  lemma SameLimit(p: real -> real, q: real -> real, x: real, r: real, left: bool)
    requires Continuous(p, x) && Continuous(q, x) && r > 0.0
    requires forall y :: (if left then x - r < y < x else x < y < x + r) ==> p(y) == q(y)
    ensures p(x) == q(x)
  {
    if p(x) != q(x) {
      var eps := Abs(p(x) - q(x)) / 2.0;
      assert HasDelta(p, x, eps) && HasDelta(q, x, eps);
      var d1 :| Close(p, x, eps, d1);
      var d2 :| Close(q, x, eps, d2);
      var h := Min(Min(d1, d2), r) / 2.0;
      var y := if left then x - h else x + h;
      var at := p(y);
      assert false;
    }
  }

  /** At an interior minimum the derivative is zero. */
  lemma InteriorMinimum(f: real -> real, x: real, d: real, r: real)
    requires HasDeriv(f, x, d) && r > 0.0 && forall t :: x - r < t < x + r ==> f(t) >= f(x)
    ensures d == 0.0
  {
    hide *;
    var phi := SlopeOf(f, x, d);
    if d != 0.0 {
      var y := SameSignNear(phi, x, r);
      Downhill(phi(y), d, x, y);
    }
  }

  // A point near x, on the side where f is lower if its slopes keep the sign they have at x.
  lemma SameSignNear(phi: real -> real, x: real, r: real) returns (y: real)
    requires Continuous(phi, x) && phi(x) != 0.0 && r > 0.0
    ensures x - r < y < x + r && (if phi(x) > 0.0 then y < x && phi(y) > 0.0 else y > x && phi(y) < 0.0)
  {
    var eps := Abs(phi(x));
    assert HasDelta(phi, x, eps);
    var delta :| Close(phi, x, eps, delta);
    var h := Min(delta, r) / 2.0;
    y := if phi(x) > 0.0 then x - h else x + h;
  }

  lemma Downhill(p: real, d: real, x: real, y: real)
    requires if d > 0.0 then y < x && p > 0.0 else y > x && p < 0.0
    ensures Rise(p, x, y) < 0.0
  {
    hide Rise;
    if d > 0.0 {
      Uphill(p, y, x);
      RiseBack(p, x, y);
    } else {
      Uphill(-p, x, y);
      RiseNegated(p, x, y);
    }
  }

  lemma Uphill(p: real, x: real, y: real)
    requires p > 0.0 && y > x
    ensures Rise(p, x, y) > 0.0
  {
    PositiveProduct(p, y - x);
  }

  lemma RiseBack(p: real, x: real, y: real)
    ensures Rise(p, x, y) == -Rise(p, y, x)
  {}

  lemma RiseNegated(p: real, x: real, y: real)
    ensures Rise(-p, x, y) == -Rise(p, x, y)
  {}

  /** A function has at most one derivative at a point. */
  lemma DerivUnique(f: real -> real, x: real, a: real, b: real)
    requires HasDeriv(f, x, a) && HasDeriv(f, x, b)
    ensures a == b
  {
    hide *;
    DerivOneSided(f, f, x, a, b, 1.0, true);
  }
}
