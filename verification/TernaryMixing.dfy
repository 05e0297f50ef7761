module TernaryMixing {
  import opened RealFacts
  import opened Calculus
  import opened RedlichKister

  datatype ABC = ABC(m0: real, m1: real, m2: real)

  datatype Interaction = Interaction(AB: RK, AC: RK, BC: RK, ABC: ABC)

  function Phi(m: ABC, u: real, v: real, w: real): real {
    u * m.m0 + v * m.m1 + w * m.m2
  }

  function Four(u: real, v: real, w: real, f: real): real {
    u * (v * (w * f))
  }

  function Four1(u: real, v: real, w: real, f: real, p: real, q: real, r: real, g: real): real {
    Four(p, v, w, f) + Four(u, q, w, f) + Four(u, v, r, f) + Four(u, v, w, g)
  }

  lemma FourDeriv(a: real, p: real, b: real, q: real, c: real, r: real, e: real, g: real, x: real, F: real -> real, d: real)
    requires forall t :: F(t) == Four(Line(a, p, t), Line(b, q, t), Line(c, r, t), Line(e, g, t))
    requires d == Four1(Line(a, p, x), Line(b, q, x), Line(c, r, x), Line(e, g, x), p, q, r, g)
    ensures HasDeriv(F, x, d)
  {
    hide HasDeriv, Line, Times, Four, Four1;
    var u, v, w, f := Line(a, p, x), Line(b, q, x), Line(c, r, x), Line(e, g, x);
    var f0 := LineFrom(e, g, x);
    var d1 := Times(r, f) + Times(w, g);
    var f1 := LineTimes(f0, c, r, x, g, d1);
    var d2 := Times(q, f1(x)) + Times(v, d1);
    var f2 := LineTimes(f1, b, q, x, d1, d2);
    FourRate(u, v, w, f, p, q, r, g, f1(x), f2(x), d1, d2, d);
    var f3 := LineTimes(f2, a, p, x, d2, d);
    forall t
      ensures f3(t) == F(t)
    {
      FourIs(Line(a, p, t), Line(b, q, t), Line(c, r, t), Line(e, g, t));
    }
    DerivSame(f3, F, x, d, d);
  }

  lemma FourIs(u: real, v: real, w: real, f: real)
    ensures Four(u, v, w, f) == Times(u, Times(v, Times(w, f)))
  {}

  lemma FourRate(u: real, v: real, w: real, f: real, p: real, q: real, r: real, g: real, y1: real, y2: real, d1: real, d2: real, d: real)
    requires y1 == Times(w, f) && d1 == Times(r, f) + Times(w, g) && y2 == Times(v, y1) && d2 == Times(q, y1) + Times(v, d1)
    requires d == Four1(u, v, w, f, p, q, r, g)
    ensures d == Times(p, y2) + Times(u, d2)
  {
    assert u * (q * (w * f) + v * (r * f + w * g)) == u * (q * (w * f)) + u * (v * (r * f)) + u * (v * (w * g));
  }

  lemma LineFrom(a: real, b: real, x: real) returns (f: real -> real)
    ensures HasDeriv(f, x, b) && forall t :: f(t) == Line(a, b, t)
  {
    hide HasDeriv;
    f := LineOf(a, b);
    DerivLine(f, a, b, x);
  }

  function Four2(u: real, v: real, w: real, f: real, p: real, q: real, r: real, g: real,
                 p': real, q': real, r': real, g': real): real
  {
    Four1(p, v, w, f, 0.0, q', r', g') + Four1(u, q, w, f, p', 0.0, r', g')
    + (Four1(u, v, r, f, p', q', 0.0, g') + Four1(u, v, w, g, p', q', r', 0.0))
  }

  lemma Four1Deriv(a: real, p': real, b: real, q': real, c: real, r': real, e: real, g': real,
                   p: real, q: real, r: real, g: real, x: real, F: real -> real, d: real)
    requires forall t :: F(t) == Four1(Line(a, p', t), Line(b, q', t), Line(c, r', t), Line(e, g', t), p, q, r, g)
    requires d == Four2(Line(a, p', x), Line(b, q', x), Line(c, r', x), Line(e, g', x), p, q, r, g, p', q', r', g')
    ensures HasDeriv(F, x, d)
  {
    hide HasDeriv, Line, Four;
    var u, v, w, f := Line(a, p', x), Line(b, q', x), Line(c, r', x), Line(e, g', x);
    ConstLine(p); ConstLine(q); ConstLine(r); ConstLine(g);
    var f1 := t => Four(Line(p, 0.0, t), Line(b, q', t), Line(c, r', t), Line(e, g', t));
    var f2 := t => Four(Line(a, p', t), Line(q, 0.0, t), Line(c, r', t), Line(e, g', t));
    var f3 := t => Four(Line(a, p', t), Line(b, q', t), Line(r, 0.0, t), Line(e, g', t));
    var f4 := t => Four(Line(a, p', t), Line(b, q', t), Line(c, r', t), Line(g, 0.0, t));
    var d1, d2 := Four1(p, v, w, f, 0.0, q', r', g'), Four1(u, q, w, f, p', 0.0, r', g');
    var d3, d4 := Four1(u, v, r, f, p', q', 0.0, g'), Four1(u, v, w, g, p', q', r', 0.0);
    FourDeriv(p, 0.0, b, q', c, r', e, g', x, f1, d1);
    FourDeriv(a, p', q, 0.0, c, r', e, g', x, f2, d2);
    FourDeriv(a, p', b, q', r, 0.0, e, g', x, f3, d3);
    FourDeriv(a, p', b, q', c, r', g, 0.0, x, f4, d4);
    DerivAdd4(f1, f2, f3, f4, F, x, d1, d2, d3, d4, d);
  }

  lemma ConstLine(c: real)
    ensures forall t :: Line(c, 0.0, t) == c
  {}

  lemma DerivAdd4(f1: real -> real, f2: real -> real, f3: real -> real, f4: real -> real, F: real -> real, x: real,
                  d1: real, d2: real, d3: real, d4: real, d: real)
    requires HasDeriv(f1, x, d1) && HasDeriv(f2, x, d2) && HasDeriv(f3, x, d3) && HasDeriv(f4, x, d4)
    requires forall t :: F(t) == f1(t) + f2(t) + f3(t) + f4(t)
    requires d == d1 + d2 + d3 + d4
    ensures HasDeriv(F, x, d)
  {
    hide *;
    var s := DerivAdd3(f1, f2, f3, x, d1, d2, d3, d1 + d2 + d3);
    DerivAdd(s, f4, F, x, d1 + d2 + d3, d4, d);
  }

  // ----- the mixing energy of a composition (u, v, w), and its derivatives along (p, q, r) -----

  function Mix(k: Interaction, u: real, v: real, w: real): real {
    Pair(k.AB, u, v) + Pair(k.AC, u, w) + Pair(k.BC, v, w) + Four(u, v, w, Phi(k.ABC, u, v, w))
  }

  function Mix1(k: Interaction, u: real, v: real, w: real, p: real, q: real, r: real): real {
    Pair1(k.AB, u, v, p, q) + Pair1(k.AC, u, w, p, r) + Pair1(k.BC, v, w, q, r)
    + Four1(u, v, w, Phi(k.ABC, u, v, w), p, q, r, Phi(k.ABC, p, q, r))
  }

  function Mix2(k: Interaction, u: real, v: real, w: real, p: real, q: real, r: real, p': real, q': real, r': real): real {
    Pair2(k.AB, u, v, p, q, p', q') + Pair2(k.AC, u, w, p, r, p', r') + Pair2(k.BC, v, w, q, r, q', r')
    + Four2(u, v, w, Phi(k.ABC, u, v, w), p, q, r, Phi(k.ABC, p, q, r), p', q', r', Phi(k.ABC, p', q', r'))
  }

  lemma PhiLine(m: ABC, a: real, p: real, b: real, q: real, c: real, r: real, t: real)
    ensures Phi(m, Line(a, p, t), Line(b, q, t), Line(c, r, t)) == Line(Phi(m, a, b, c), Phi(m, p, q, r), t)
  {}

  lemma MixDeriv(k: Interaction, a: real, p: real, b: real, q: real, c: real, r: real, x: real, F: real -> real, d: real)
    requires forall t :: F(t) == Mix(k, Line(a, p, t), Line(b, q, t), Line(c, r, t))
    requires d == Mix1(k, Line(a, p, x), Line(b, q, x), Line(c, r, x), p, q, r)
    ensures HasDeriv(F, x, d)
  {
    hide HasDeriv, Line, Pair, Pair1, Four, Four1, Phi;
    var u, v, w := Line(a, p, x), Line(b, q, x), Line(c, r, x);
    var f1 := t => Pair(k.AB, Line(a, p, t), Line(b, q, t));
    var f2 := t => Pair(k.AC, Line(a, p, t), Line(c, r, t));
    var f3 := t => Pair(k.BC, Line(b, q, t), Line(c, r, t));
    var e, g := Phi(k.ABC, a, b, c), Phi(k.ABC, p, q, r);
    var f4 := t => Four(Line(a, p, t), Line(b, q, t), Line(c, r, t), Line(e, g, t));
    var d1, d2, d3 := Pair1(k.AB, u, v, p, q), Pair1(k.AC, u, w, p, r), Pair1(k.BC, v, w, q, r);
    var d4 := Four1(u, v, w, Line(e, g, x), p, q, r, g);
    PairDeriv(k.AB, a, p, b, q, x, f1, d1);
    PairDeriv(k.AC, a, p, c, r, x, f2, d2);
    PairDeriv(k.BC, b, q, c, r, x, f3, d3);
    FourDeriv(a, p, b, q, c, r, e, g, x, f4, d4);
    forall t
      ensures F(t) == f1(t) + f2(t) + f3(t) + f4(t)
    {
      PhiLine(k.ABC, a, p, b, q, c, r, t);
    }
    PhiLine(k.ABC, a, p, b, q, c, r, x);
    DerivAdd4(f1, f2, f3, f4, F, x, d1, d2, d3, d4, d);
  }

  lemma Mix1Deriv(k: Interaction, a: real, p': real, b: real, q': real, c: real, r': real,
                  p: real, q: real, r: real, x: real, F: real -> real, d: real)
    requires forall t :: F(t) == Mix1(k, Line(a, p', t), Line(b, q', t), Line(c, r', t), p, q, r)
    requires d == Mix2(k, Line(a, p', x), Line(b, q', x), Line(c, r', x), p, q, r, p', q', r')
    ensures HasDeriv(F, x, d)
  {
    hide HasDeriv, Line, Pair1, Pair2, Four1, Four2, Phi;
    var u, v, w := Line(a, p', x), Line(b, q', x), Line(c, r', x);
    var f1 := t => Pair1(k.AB, Line(a, p', t), Line(b, q', t), p, q);
    var f2 := t => Pair1(k.AC, Line(a, p', t), Line(c, r', t), p, r);
    var f3 := t => Pair1(k.BC, Line(b, q', t), Line(c, r', t), q, r);
    var e, g', g := Phi(k.ABC, a, b, c), Phi(k.ABC, p', q', r'), Phi(k.ABC, p, q, r);
    var f4 := t => Four1(Line(a, p', t), Line(b, q', t), Line(c, r', t), Line(e, g', t), p, q, r, g);
    var d1, d2, d3 := Pair2(k.AB, u, v, p, q, p', q'), Pair2(k.AC, u, w, p, r, p', r'), Pair2(k.BC, v, w, q, r, q', r');
    var d4 := Four2(u, v, w, Line(e, g', x), p, q, r, g, p', q', r', g');
    Pair1Deriv(k.AB, a, p', b, q', p, q, x, f1, d1);
    Pair1Deriv(k.AC, a, p', c, r', p, r, x, f2, d2);
    Pair1Deriv(k.BC, b, q', c, r', q, r, x, f3, d3);
    Four1Deriv(a, p', b, q', c, r', e, g', p, q, r, g, x, f4, d4);
    forall t
      ensures F(t) == f1(t) + f2(t) + f3(t) + f4(t)
    {
      PhiLine(k.ABC, a, p', b, q', c, r', t);
    }
    PhiLine(k.ABC, a, p', b, q', c, r', x);
    DerivAdd4(f1, f2, f3, f4, F, x, d1, d2, d3, d4, d);
  }

  // The partial derivatives with respect to cA and cB, the third concentration being 1 - cA - cB.

  function MixA(k: Interaction, cA: real, cB: real): real {
    Mix1(k, cA, cB, 1.0 - cA - cB, 1.0, 0.0, -1.0)
  }

  function MixB(k: Interaction, cA: real, cB: real): real {
    Mix1(k, cA, cB, 1.0 - cA - cB, 0.0, 1.0, -1.0)
  }

  function MixAA(k: Interaction, cA: real, cB: real): real {
    Mix2(k, cA, cB, 1.0 - cA - cB, 1.0, 0.0, -1.0, 1.0, 0.0, -1.0)
  }

  function MixAB(k: Interaction, cA: real, cB: real): real {
    Mix2(k, cA, cB, 1.0 - cA - cB, 1.0, 0.0, -1.0, 0.0, 1.0, -1.0)
  }

  function MixBA(k: Interaction, cA: real, cB: real): real {
    Mix2(k, cA, cB, 1.0 - cA - cB, 0.0, 1.0, -1.0, 1.0, 0.0, -1.0)
  }

  function MixBB(k: Interaction, cA: real, cB: real): real {
    Mix2(k, cA, cB, 1.0 - cA - cB, 0.0, 1.0, -1.0, 0.0, 1.0, -1.0)
  }

  /** The two cross terms are written separately in the source; they agree (equality of mixed partials). */
  lemma CrossTermsAgree(k: Interaction, cA: real, cB: real)
    ensures MixAB(k, cA, cB) == MixBA(k, cA, cB)
  {
    hide Phi;
    var cC := 1.0 - cA - cB;
    PairSymmetric(k.AB, cA, cB, 1.0, 0.0, 0.0, 1.0);
    PairSymmetric(k.AC, cA, cC, 1.0, -1.0, 0.0, -1.0);
    PairSymmetric(k.BC, cB, cC, 0.0, -1.0, 1.0, -1.0);
    FourSymmetric(cA, cB, cC, Phi(k.ABC, cA, cB, cC), 1.0, 0.0, -1.0, Phi(k.ABC, 1.0, 0.0, -1.0),
                  0.0, 1.0, -1.0, Phi(k.ABC, 0.0, 1.0, -1.0));
  }

  lemma PairSymmetric(l: RK, u: real, v: real, p: real, q: real, r: real, s: real)
    ensures Pair2(l, u, v, p, q, r, s) == Pair2(l, u, v, r, s, p, q)
  {}

  lemma FourSymmetric(u: real, v: real, w: real, f: real, p: real, q: real, r: real, g: real,
                      p': real, q': real, r': real, g': real)
    ensures Four2(u, v, w, f, p, q, r, g, p', q', r', g') == Four2(u, v, w, f, p', q', r', g', p, q, r, g)
  {}

  // Along cA the composition is the line (t, cB, 1 - t - cB), along cB the line (cA, t, 1 - cA - t).

  lemma AxisA(cB: real, t: real)
    ensures Line(0.0, 1.0, t) == t && Line(cB, 0.0, t) == cB && Line(1.0 - cB, -1.0, t) == 1.0 - t - cB
  {}

  lemma AxisB(cA: real, t: real)
    ensures Line(cA, 0.0, t) == cA && Line(0.0, 1.0, t) == t && Line(1.0 - cA, -1.0, t) == 1.0 - cA - t
  {}

  /** MixA and MixB are the partial derivatives of the ternary mixing energy ... */
  lemma MixFirstExact(k: Interaction, cA: real, cB: real)
    ensures HasDeriv(t => Mix(k, t, cB, 1.0 - t - cB), cA, MixA(k, cA, cB))
    ensures HasDeriv(t => Mix(k, cA, t, 1.0 - cA - t), cB, MixB(k, cA, cB))
  {
    hide HasDeriv, Mix, Mix1, Line;
    var FA := t => Mix(k, t, cB, 1.0 - t - cB);
    forall t
      ensures FA(t) == Mix(k, Line(0.0, 1.0, t), Line(cB, 0.0, t), Line(1.0 - cB, -1.0, t))
    {
      AxisA(cB, t);
    }
    AxisA(cB, cA);
    MixDeriv(k, 0.0, 1.0, cB, 0.0, 1.0 - cB, -1.0, cA, FA, MixA(k, cA, cB));
    var FB := t => Mix(k, cA, t, 1.0 - cA - t);
    forall t
      ensures FB(t) == Mix(k, Line(cA, 0.0, t), Line(0.0, 1.0, t), Line(1.0 - cA, -1.0, t))
    {
      AxisB(cA, t);
    }
    AxisB(cA, cB);
    MixDeriv(k, cA, 0.0, 0.0, 1.0, 1.0 - cA, -1.0, cB, FB, MixB(k, cA, cB));
  }

  lemma Mix1AlongA(k: Interaction, cA: real, cB: real, p: real, q: real, r: real, F: real -> real, d: real)
    requires forall t :: F(t) == Mix1(k, t, cB, 1.0 - t - cB, p, q, r)
    requires d == Mix2(k, cA, cB, 1.0 - cA - cB, p, q, r, 1.0, 0.0, -1.0)
    ensures HasDeriv(F, cA, d)
  {
    hide HasDeriv, Mix1, Mix2, Line;
    forall t
      ensures F(t) == Mix1(k, Line(0.0, 1.0, t), Line(cB, 0.0, t), Line(1.0 - cB, -1.0, t), p, q, r)
    {
      AxisA(cB, t);
    }
    AxisA(cB, cA);
    Mix1Deriv(k, 0.0, 1.0, cB, 0.0, 1.0 - cB, -1.0, p, q, r, cA, F, d);
  }

  lemma Mix1AlongB(k: Interaction, cA: real, cB: real, p: real, q: real, r: real, F: real -> real, d: real)
    requires forall t :: F(t) == Mix1(k, cA, t, 1.0 - cA - t, p, q, r)
    requires d == Mix2(k, cA, cB, 1.0 - cA - cB, p, q, r, 0.0, 1.0, -1.0)
    ensures HasDeriv(F, cB, d)
  {
    hide HasDeriv, Mix1, Mix2, Line;
    forall t
      ensures F(t) == Mix1(k, Line(cA, 0.0, t), Line(0.0, 1.0, t), Line(1.0 - cA, -1.0, t), p, q, r)
    {
      AxisB(cA, t);
    }
    AxisB(cA, cB);
    Mix1Deriv(k, cA, 0.0, 0.0, 1.0, 1.0 - cA, -1.0, p, q, r, cB, F, d);
  }

  /** ... and MixAA, MixAB, MixBA, MixBB those of MixA and MixB. */
  lemma MixSecondExact(k: Interaction, cA: real, cB: real)
    ensures HasDeriv(t => MixA(k, t, cB), cA, MixAA(k, cA, cB)) && HasDeriv(t => MixA(k, cA, t), cB, MixAB(k, cA, cB))
    ensures HasDeriv(t => MixB(k, t, cB), cA, MixBA(k, cA, cB)) && HasDeriv(t => MixB(k, cA, t), cB, MixBB(k, cA, cB))
  {
    hide HasDeriv, Mix1, Mix2, Line;
    Mix1AlongA(k, cA, cB, 1.0, 0.0, -1.0, t => MixA(k, t, cB), MixAA(k, cA, cB));
    Mix1AlongB(k, cA, cB, 1.0, 0.0, -1.0, t => MixA(k, cA, t), MixAB(k, cA, cB));
    Mix1AlongA(k, cA, cB, 0.0, 1.0, -1.0, t => MixB(k, t, cB), MixBA(k, cA, cB));
    Mix1AlongB(k, cA, cB, 0.0, 1.0, -1.0, t => MixB(k, cA, t), MixBB(k, cA, cB));
  }

  // ----- all directions -----

  lemma PairRates(l: RK, u: real, v: real, x: real, y: real, p: real, q: real, p': real, q': real, p'': real, q'': real)
    requires p == x * p' + y * p'' && q == x * q' + y * q''
    ensures Pair1(l, u, v, p, q) == x * Pair1(l, u, v, p', q') + y * Pair1(l, u, v, p'', q'')
  {
    hide Poly, Poly1;
    var k, k1 := Poly(l, u - v), u * (v * Poly1(l, u - v));
    RateTerms(u, v, x, y, p', q', p'', q'', k, k1);
  }

  lemma RateTerms(u: real, v: real, x: real, y: real, p': real, q': real, p'': real, q'': real, k: real, k1: real)
    ensures ((x * p' + y * p'') * v + u * (x * q' + y * q'')) * k + ((x * p' + y * p'') - (x * q' + y * q'')) * k1
      == x * ((p' * v + u * q') * k + (p' - q') * k1) + y * ((p'' * v + u * q'') * k + (p'' - q'') * k1)
  {}

  lemma FourRates(u: real, v: real, w: real, f: real, x: real, y: real, g: real, g': real, g'': real)
    requires g == x * g' + y * g''
    ensures Four1(u, v, w, f, x, y, -(x + y), g) == x * Four1(u, v, w, f, 1.0, 0.0, -1.0, g') + y * Four1(u, v, w, f, 0.0, 1.0, -1.0, g'')
  {}

  lemma PhiRates(m: ABC, x: real, y: real)
    ensures Phi(m, x, y, -(x + y)) == x * Phi(m, 1.0, 0.0, -1.0) + y * Phi(m, 0.0, 1.0, -1.0)
  {}

  /** Along any direction the mixing energy changes by the two partial derivatives. */
  lemma MixRates(k: Interaction, cA: real, cB: real, x: real, y: real)
    ensures Mix1(k, cA, cB, 1.0 - cA - cB, x, y, -(x + y)) == x * MixA(k, cA, cB) + y * MixB(k, cA, cB)
  {
    hide Pair1, Four1, Phi;
    var c := 1.0 - cA - cB;
    PairRates(k.AB, cA, cB, x, y, x, y, 1.0, 0.0, 0.0, 1.0);
    PairRates(k.AC, cA, c, x, y, x, -(x + y), 1.0, -1.0, 0.0, -1.0);
    PairRates(k.BC, cB, c, x, y, y, -(x + y), 0.0, -1.0, 1.0, -1.0);
    PhiRates(k.ABC, x, y);
    FourRates(cA, cB, c, Phi(k.ABC, cA, cB, c), x, y, Phi(k.ABC, x, y, -(x + y)), Phi(k.ABC, 1.0, 0.0, -1.0), Phi(k.ABC, 0.0, 1.0, -1.0));
    FourTerms(x, Pair1(k.AB, cA, cB, 1.0, 0.0), Pair1(k.AC, cA, c, 1.0, -1.0), Pair1(k.BC, cB, c, 0.0, -1.0),
              Four1(cA, cB, c, Phi(k.ABC, cA, cB, c), 1.0, 0.0, -1.0, Phi(k.ABC, 1.0, 0.0, -1.0)));
    FourTerms(y, Pair1(k.AB, cA, cB, 0.0, 1.0), Pair1(k.AC, cA, c, 0.0, -1.0), Pair1(k.BC, cB, c, 1.0, -1.0),
              Four1(cA, cB, c, Phi(k.ABC, cA, cB, c), 0.0, 1.0, -1.0, Phi(k.ABC, 0.0, 1.0, -1.0)));
  }

  lemma FourTerms(x: real, a: real, b: real, c: real, d: real)
    ensures x * (a + b + c + d) == x * a + x * b + x * c + x * d
  {}
}
