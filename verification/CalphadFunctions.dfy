/**
 The CALPHAD energies and their hand-expanded derivatives (source/CALPHADFunctions.C).
 Pure expressions are functions; the routines that fill a `deriv` array are methods, each proved
 against the derivative that the calculus of RedlichKister assigns to the energy.
 */
module CalphadFunctions {
  import opened RealFacts
  import opened RedlichKister
  import opened SmoothLog
  import opened TernaryMixing

  // ----- binary alloys -----

  function FMixBinary(l: RK, conc: real): real {
    var z := 2.0 * conc - 1.0;
    conc * (1.0 - conc) * Poly(l, z)
  }

  // The factor of conc (1 - conc) in the first derivative.
  function SlopeFactor(l: RK, z: real): real {
    2.0 * l.l1 + 4.0 * l.l2 * z + 6.0 * l.l3 * z * z
  }

  function FMixDerivBinary(l: RK, conc: real): real {
    var z := 2.0 * conc - 1.0;
    conc * (1.0 - conc) * SlopeFactor(l, z) - z * Poly(l, z)
  }

  function FMixDeriv2Binary(l: RK, conc: real): real {
    var conc2 := conc * conc;
    -2.0 * (l.l0
      + l.l1 * (-3.0 + 6.0 * conc)
      + l.l2 * (5.0 - 24.0 * conc + 24.0 * conc2)
      + l.l3 * (-7.0 + 54.0 * conc - 120.0 * conc2 + 80.0 * conc2 * conc))
  }

  function FIdealMixBinary(ln: real -> real, rt: real, conc: real): real {
    rt * (XLogX(ln, conc) + XLogX(ln, 1.0 - conc))
  }

  function FIdealMixDerivBinary(ln: real -> real, rt: real, conc: real): real {
    rt * (XLogXDeriv(ln, conc) - XLogXDeriv(ln, 1.0 - conc))
  }

  function FIdealMixDeriv2Binary(rt: real, conc: real): real {
    rt * (XLogXDeriv2(conc) + XLogXDeriv2(1.0 - conc))
  }

  /** The Redlich-Kister form: the two fractions times a cubic in their difference; even in it but for l1 and l3. */
  lemma RedlichKisterForm(l: RK, cA: real, cB: real, d: real)
    requires cA + cB == 1.0 && d == cA - cB
    ensures FMixBinary(l, cA) == cA * cB * (l.l0 + l.l1 * d + l.l2 * (d * d) + l.l3 * (d * d * d))
    ensures FMixBinary(l, cA) == FMixBinary(RK(l.l0, -l.l1, l.l2, -l.l3), cB)
  {
    assert 2.0 * cA - 1.0 == d && 2.0 * cB - 1.0 == -d;
    assert Poly(l, d) == l.l0 + l.l1 * d + l.l2 * (d * d) + l.l3 * (d * d * d);
    assert Poly(RK(l.l0, -l.l1, l.l2, -l.l3), -d) == Poly(l, d);
  }

  lemma BinaryIsPair(l: RK, c: real)
    ensures FMixBinary(l, c) == Pair(l, c, 1.0 - c)
    ensures FMixDerivBinary(l, c) == Pair1(l, c, 1.0 - c, 1.0, -1.0)
  {
    hide *;
    var z := 2.0 * c - 1.0;
    MixAt(l, c, z);
    BinaryPairAt(l, c, z);
    FactorsAgree(l, z);
    SlopeProduct(c, z, Poly(l, z), SlopeFactor(l, z), Poly1(l, z));
  }

  lemma MixAt(l: RK, c: real, z: real)
    requires z == 2.0 * c - 1.0
    ensures FMixBinary(l, c) == c * (1.0 - c) * Poly(l, z)
    ensures FMixDerivBinary(l, c) == c * (1.0 - c) * SlopeFactor(l, z) - z * Poly(l, z)
  {
    hide Poly, SlopeFactor;
  }

  lemma BinaryPairAt(l: RK, c: real, z: real)
    requires z == 2.0 * c - 1.0
    ensures Pair(l, c, 1.0 - c) == c * ((1.0 - c) * Poly(l, z))
    ensures Pair1(l, c, 1.0 - c, 1.0, -1.0) == (1.0 * (1.0 - c) + c * -1.0) * Poly(l, z) + (1.0 - -1.0) * (c * ((1.0 - c) * Poly1(l, z)))
  {
    hide Pair, Pair1, Poly, Poly1;
    PairAtDifference(l, c, 1.0 - c, z, 1.0, -1.0);
  }

  lemma PairAtDifference(l: RK, u: real, v: real, z: real, p: real, q: real)
    requires z == u - v
    ensures Pair(l, u, v) == u * (v * Poly(l, z))
    ensures Pair1(l, u, v, p, q) == (p * v + u * q) * Poly(l, z) + (p - q) * (u * (v * Poly1(l, z)))
  {
    hide Poly, Poly1;
  }

  lemma FactorsAgree(l: RK, z: real)
    ensures SlopeFactor(l, z) == 2.0 * Poly1(l, z)
  {}

  lemma SlopeProduct(c: real, z: real, p: real, s: real, p1: real)
    requires z == 2.0 * c - 1.0 && s == 2.0 * p1
    ensures c * (1.0 - c) * p == c * ((1.0 - c) * p)
    ensures c * (1.0 - c) * s - z * p == (1.0 * (1.0 - c) + c * -1.0) * p + (1.0 - -1.0) * (c * ((1.0 - c) * p1))
  {
    assert c * (1.0 - c) * (2.0 * p1) == 2.0 * (c * ((1.0 - c) * p1));
    assert z * p == -((1.0 * (1.0 - c) + c * -1.0) * p);
  }

  lemma BinaryIsPair2(l: RK, c: real)
    ensures FMixDeriv2Binary(l, c) == Pair2(l, c, 1.0 - c, 1.0, -1.0, 1.0, -1.0)
  {
    hide *;
    var z, w, k2, k3 := 2.0 * c - 1.0, c * (1.0 - c), 5.0 - 24.0 * c + 24.0 * (c * c), -7.0 + 54.0 * c - 120.0 * (c * c) + 80.0 * (c * c) * c;
    var z2, z3, w1 := z * z, z * z * z, w * z;
    Deriv2At(l, c, k2, k3);
    BinaryCoefficients(c, z, w, z2, z3, w1, k2, k3);
    Combine(l.l0, l.l1, l.l2, l.l3, z, z2, z3, w, w1, -3.0 + 6.0 * c, k2, k3);
    PolyAt(l, z, z2, z3);
    SlopeAt(l, z, z2, z3);
    BendAt(l, z, w, w1);
    BinaryPair2At(l, c, z, w);
  }

  lemma Deriv2At(l: RK, c: real, k2: real, k3: real)
    requires k2 == 5.0 - 24.0 * c + 24.0 * (c * c) && k3 == -7.0 + 54.0 * c - 120.0 * (c * c) + 80.0 * (c * c) * c
    ensures FMixDeriv2Binary(l, c) == -2.0 * (l.l0 + Times(l.l1, -3.0 + 6.0 * c) + Times(l.l2, k2) + Times(l.l3, k3))
  {}

  lemma BinaryCoefficients(c: real, z: real, w: real, z2: real, z3: real, w1: real, k2: real, k3: real)
    requires z == 2.0 * c - 1.0 && w == c * (1.0 - c) && z2 == z * z && z3 == z * z * z && w1 == w * z
    requires k2 == 5.0 - 24.0 * c + 24.0 * (c * c) && k3 == -7.0 + 54.0 * c - 120.0 * (c * c) + 80.0 * (c * c) * c
    ensures 3.0 * z == -3.0 + 6.0 * c && 5.0 * z2 - 4.0 * w == k2 && 7.0 * z3 - 12.0 * w1 == k3
  {
    assert z3 == (2.0 * c - 1.0) * (2.0 * c - 1.0) * (2.0 * c - 1.0) && w1 == c * (1.0 - c) * (2.0 * c - 1.0);
  }

  // The expanded second derivative, coefficient by coefficient.
  lemma Combine(l0: real, l1: real, l2: real, l3: real, z: real, z2: real, z3: real, w: real, w1: real, k1: real, k2: real, k3: real)
    requires 3.0 * z == k1 && 5.0 * z2 - 4.0 * w == k2 && 7.0 * z3 - 12.0 * w1 == k3
    ensures -2.0 * (l0 + Times(l1, k1) + Times(l2, k2) + Times(l3, k3))
      == -2.0 * (l0 + Times(l1, z) + Times(l2, z2) + Times(l3, z3))
       - 4.0 * (Times(l1, z) + 2.0 * Times(l2, z2) + 3.0 * Times(l3, z3)) + 4.0 * (2.0 * Times(l2, w) + 6.0 * Times(l3, w1))
  {
    assert l1 * k1 == l1 * (3.0 * z);
    assert l2 * k2 == l2 * (5.0 * z2 - 4.0 * w);
    assert l3 * k3 == l3 * (7.0 * z3 - 12.0 * w1);
  }

  lemma PolyAt(l: RK, z: real, z2: real, z3: real)
    requires z2 == z * z && z3 == z * z * z
    ensures Poly(l, z) == l.l0 + Times(l.l1, z) + Times(l.l2, z2) + Times(l.l3, z3)
  {
    assert l.l2 * z2 == l.l2 * z * z && l.l3 * z3 == l.l3 * z * z * z;
  }

  lemma SlopeAt(l: RK, z: real, z2: real, z3: real)
    requires z2 == z * z && z3 == z * z * z
    ensures Times(z, Poly1(l, z)) == Times(l.l1, z) + 2.0 * Times(l.l2, z2) + 3.0 * Times(l.l3, z3)
  {
    SlopeTerms(l.l1, l.l2, l.l3, z, z2, z3, Poly1(l, z));
  }

  lemma SlopeTerms(l1: real, l2: real, l3: real, z: real, z2: real, z3: real, p: real)
    requires z2 == z * z && z3 == z * z * z && p == l1 + 2.0 * l2 * z + 3.0 * l3 * z * z
    ensures Times(z, p) == Times(l1, z) + 2.0 * Times(l2, z2) + 3.0 * Times(l3, z3)
  {
    assert z * p == z * (l1 + 2.0 * l2 * z + 3.0 * l3 * z * z);
    assert l2 * z2 == l2 * z * z && l3 * z3 == l3 * z * z * z;
  }

  lemma BendAt(l: RK, z: real, w: real, w1: real)
    requires w1 == w * z
    ensures Times(w, Poly2(l, z)) == 2.0 * Times(l.l2, w) + 6.0 * Times(l.l3, w1)
  {
    BendTerms(l.l2, l.l3, z, w, w1, Poly2(l, z));
  }

  lemma BendTerms(l2: real, l3: real, z: real, w: real, w1: real, p: real)
    requires w1 == w * z && p == 2.0 * l2 + 6.0 * l3 * z
    ensures Times(w, p) == 2.0 * Times(l2, w) + 6.0 * Times(l3, w1)
  {
    assert w * p == w * (2.0 * l2 + 6.0 * l3 * z);
    assert l3 * w1 == l3 * w * z;
  }

  lemma BinaryPair2At(l: RK, c: real, z: real, w: real)
    requires z == 2.0 * c - 1.0 && w == c * (1.0 - c)
    ensures Pair2(l, c, 1.0 - c, 1.0, -1.0, 1.0, -1.0) == -2.0 * Poly(l, z) - 4.0 * Times(z, Poly1(l, z)) + 4.0 * Times(w, Poly2(l, z))
  {
    hide Poly, Poly1, Poly2;
    assert z == c - (1.0 - c);
    Pair2Terms(c, z, w, Poly1(l, z), Poly2(l, z));
  }

  lemma Pair2Terms(c: real, z: real, w: real, P1: real, P2: real)
    requires z == 2.0 * c - 1.0 && w == c * (1.0 - c)
    ensures ((1.0 * (1.0 - c) + c * -1.0) * (1.0 - -1.0) + (1.0 - -1.0) * (1.0 * (1.0 - c) + c * -1.0)) * P1 == -4.0 * Times(z, P1)
    ensures (1.0 - -1.0) * (1.0 - -1.0) * (c * ((1.0 - c) * P2)) == 4.0 * Times(w, P2)
  {
    assert z * P1 == (2.0 * c - 1.0) * P1;
    assert w * P2 == c * (1.0 - c) * P2;
  }

  // ----- ternary alloys -----

  function FMixTernary(k: Interaction, cA: real, cB: real): real {
    var cC := 1.0 - cA - cB;
    cA * cB * Poly(k.AB, cA - cB)
    + cA * cC * Poly(k.AC, cA - cC)
    + cB * cC * Poly(k.BC, cB - cC)
    + cA * cB * cC * (cA * k.ABC.m0 + cB * k.ABC.m1 + cC * k.ABC.m2)
  }

  lemma TernaryIsMix(k: Interaction, cA: real, cB: real)
    ensures FMixTernary(k, cA, cB) == Mix(k, cA, cB, 1.0 - cA - cB)
  {
    hide Poly;
  }

  /** On each edge of the triangle of compositions the mixing energy is the binary one of the two species left. */
  lemma MixOnEdges(k: Interaction, c: real)
    ensures FMixTernary(k, c, 1.0 - c) == FMixBinary(k.AB, c)
    ensures FMixTernary(k, c, 0.0) == FMixBinary(k.AC, c)
    ensures FMixTernary(k, 0.0, c) == FMixBinary(k.BC, c)
  {
    hide Poly;
    assert c - (1.0 - c) == 2.0 * c - 1.0;
    assert 1.0 - c - (1.0 - c) == 0.0;
  }

  /** What three species add to the three binary terms. */
  lemma MixOfThree(k: Interaction, cA: real, cB: real, cC: real)
    requires cA + cB + cC == 1.0
    ensures FMixTernary(k, cA, cB) - FMixTernary(k.(ABC := ABC(0.0, 0.0, 0.0)), cA, cB)
      == cA * cB * cC * (cA * k.ABC.m0 + cB * k.ABC.m1 + cC * k.ABC.m2)
  {
    hide Poly;
    assert cC == 1.0 - cA - cB;
    assert cA * 0.0 + cB * 0.0 + cC * 0.0 == 0.0;
  }

  // The bracketed factors of the hand-expanded derivatives, with the coefficients written there.

  function First(l: RK, a: real, b: real, c: real, z: real): real {
    l.l1 * a + l.l2 * b * z + l.l3 * c * z * z
  }

  function Second(l: RK, a: real, b: real, z: real): real {
    l.l2 * a + l.l3 * b * z
  }

  // The labelled blocks of the first derivatives.  With cA the pair (cA, cB) grows at rates (1, 0),
  // (cA, cC) at (1, -1) and (cB, cC) at (0, -1); with cB, at (0, 1), (0, -1) and (1, -1).

  function BlockABdA(l: RK, cA: real, cB: real): (r: real)
    ensures r == Pair1(l, cA, cB, 1.0, 0.0)
  {
    var z := cA - cB;
    cB * Poly(l, z) + cA * cB * First(l, 1.0, 2.0, 3.0, z)
  }

  function BlockACdA(l: RK, cA: real, cB: real, cC: real): (r: real)
    requires cC == 1.0 - cA - cB
    ensures r == Pair1(l, cA, cC, 1.0, -1.0)
  {
    var z := cA - cC;
    (1.0 - 2.0 * cA - cB) * Poly(l, z) + cA * cC * First(l, 2.0, 4.0, 6.0, z)
  }

  function BlockBCdA(l: RK, cA: real, cB: real, cC: real): (r: real)
    requires cC == 1.0 - cA - cB
    ensures r == Pair1(l, cB, cC, 0.0, -1.0)
  {
    var z := cB - cC;
    -(cB * Poly(l, z)) + cB * cC * First(l, 1.0, 2.0, 3.0, z)
  }

  function BlockABdB(l: RK, cA: real, cB: real): (r: real)
    ensures r == Pair1(l, cA, cB, 0.0, 1.0)
  {
    var z := cA - cB;
    cA * Poly(l, z) - cA * cB * First(l, 1.0, 2.0, 3.0, z)
  }

  function BlockACdB(l: RK, cA: real, cB: real, cC: real): (r: real)
    requires cC == 1.0 - cA - cB
    ensures r == Pair1(l, cA, cC, 0.0, -1.0)
  {
    var z := cA - cC;
    -(cA * Poly(l, z)) + cA * cC * First(l, 1.0, 2.0, 3.0, z)
  }

  function BlockBCdB(l: RK, cA: real, cB: real, cC: real): (r: real)
    requires cC == 1.0 - cA - cB
    ensures r == Pair1(l, cB, cC, 1.0, -1.0)
  {
    var z := cB - cC;
    (1.0 - cA - 2.0 * cB) * Poly(l, z) + cB * cC * First(l, 2.0, 4.0, 6.0, z)
  }

  function BlockABCdA(m: ABC, cA: real, cB: real, cC: real): (r: real)
    ensures r == Four1(cA, cB, cC, Phi(m, cA, cB, cC), 1.0, 0.0, -1.0, Phi(m, 1.0, 0.0, -1.0))
  {
    var lphi := cA * m.m0 + cB * m.m1 + cC * m.m2;
    cB * cC * lphi - cA * cB * lphi + cA * cB * cC * (m.m0 - m.m2)
  }

  function BlockABCdB(m: ABC, cA: real, cB: real, cC: real): (r: real)
    ensures r == Four1(cA, cB, cC, Phi(m, cA, cB, cC), 0.0, 1.0, -1.0, Phi(m, 0.0, 1.0, -1.0))
  {
    var lphi := cA * m.m0 + cB * m.m1 + cC * m.m2;
    cA * cC * lphi - cA * cB * lphi + cA * cB * cC * (m.m1 - m.m2)
  }

  method FMixDerivTernary(k: Interaction, cA: real, cB: real, deriv: array<real>)
    requires deriv.Length == 2
    modifies deriv
    ensures deriv[0] == MixA(k, cA, cB) && deriv[1] == MixB(k, cA, cB)
  {
    hide BlockABdA, BlockACdA, BlockBCdA, BlockABdB, BlockACdB, BlockBCdB, BlockABCdA, BlockABCdB, Pair1, Four1, Phi;
    var cC := 1.0 - cA - cB;

    deriv[0] := BlockABdA(k.AB, cA, cB);
    deriv[0] := deriv[0] + BlockACdA(k.AC, cA, cB, cC);
    deriv[0] := deriv[0] + BlockBCdA(k.BC, cA, cB, cC);

    deriv[1] := BlockABdB(k.AB, cA, cB);
    deriv[1] := deriv[1] + BlockACdB(k.AC, cA, cB, cC);
    deriv[1] := deriv[1] + BlockBCdB(k.BC, cA, cB, cC);

    deriv[0] := deriv[0] + BlockABCdA(k.ABC, cA, cB, cC);
    deriv[1] := deriv[1] + BlockABCdB(k.ABC, cA, cB, cC);
  }

  // The labelled blocks of the second derivatives.

  function BlockABdAdA(l: RK, cA: real, cB: real): (r: real)
    ensures r == Pair2(l, cA, cB, 1.0, 0.0, 1.0, 0.0)
  {
    var z := cA - cB;
    cB * First(l, 1.0, 2.0, 3.0, z)
    + cB * First(l, 1.0, 2.0, 3.0, z)
    + cA * cB * Second(l, 2.0, 6.0, z)
  }

  function BlockACdAdA(l: RK, cA: real, cB: real, cC: real): (r: real)
    requires cC == 1.0 - cA - cB
    ensures r == Pair2(l, cA, cC, 1.0, -1.0, 1.0, -1.0)
  {
    var z := cA - cC;
    -2.0 * Poly(l, z)
    + (1.0 - 2.0 * cA - cB) * First(l, 2.0, 4.0, 6.0, z)
    + (1.0 - 2.0 * cA - cB) * First(l, 2.0, 4.0, 6.0, z)
    + cA * cC * Second(l, 8.0, 24.0, z)
  }

  function BlockBCdAdA(l: RK, cA: real, cB: real, cC: real): (r: real)
    requires cC == 1.0 - cA - cB
    ensures r == Pair2(l, cB, cC, 0.0, -1.0, 0.0, -1.0)
  {
    var z := cB - cC;
    -(cB * First(l, 1.0, 2.0, 3.0, z))
    - cB * First(l, 1.0, 2.0, 3.0, z)
    + cB * cC * Second(l, 2.0, 6.0, z)
  }

  function BlockABdAdB(l: RK, cA: real, cB: real): (r: real)
    ensures r == Pair2(l, cA, cB, 1.0, 0.0, 0.0, 1.0)
  {
    var z := cA - cB;
    Poly(l, z)
    - cB * First(l, 1.0, 2.0, 3.0, z)
    + cA * First(l, 1.0, 2.0, 3.0, z)
    - cA * cB * Second(l, 2.0, 6.0, z)
  }

  function BlockACdAdB(l: RK, cA: real, cB: real, cC: real): (r: real)
    requires cC == 1.0 - cA - cB
    ensures r == Pair2(l, cA, cC, 1.0, -1.0, 0.0, -1.0)
  {
    var z := cA - cC;
    -1.0 * Poly(l, z)
    + (1.0 - 2.0 * cA - cB) * First(l, 1.0, 2.0, 3.0, z)
    + -cA * First(l, 2.0, 4.0, 6.0, z)
    + cA * cC * Second(l, 4.0, 12.0, z)
  }

  function BlockBCdAdB(l: RK, cA: real, cB: real, cC: real): (r: real)
    requires cC == 1.0 - cA - cB
    ensures r == Pair2(l, cB, cC, 0.0, -1.0, 1.0, -1.0)
  {
    var z := cB - cC;
    -Poly(l, z)
    - cB * First(l, 2.0, 4.0, 6.0, z)
    + (1.0 - cA - 2.0 * cB) * First(l, 1.0, 2.0, 3.0, z)
    + cB * cC * Second(l, 4.0, 12.0, z)
  }

  function BlockABdBdA(l: RK, cA: real, cB: real): (r: real)
    ensures r == Pair2(l, cA, cB, 0.0, 1.0, 1.0, 0.0)
  {
    var z := cA - cB;
    Poly(l, z)
    + cA * First(l, 1.0, 2.0, 3.0, z)
    - cB * First(l, 1.0, 2.0, 3.0, z)
    - cA * cB * Second(l, 2.0, 6.0, z)
  }

  function BlockACdBdA(l: RK, cA: real, cB: real, cC: real): (r: real)
    requires cC == 1.0 - cA - cB
    ensures r == Pair2(l, cA, cC, 0.0, -1.0, 1.0, -1.0)
  {
    var z := cA - cC;
    -1.0 * Poly(l, z)
    + (1.0 - 2.0 * cA - cB) * First(l, 1.0, 2.0, 3.0, z)
    + -cA * First(l, 2.0, 4.0, 6.0, z)
    + cA * cC * Second(l, 4.0, 12.0, z)
  }

  function BlockBCdBdA(l: RK, cA: real, cB: real, cC: real): (r: real)
    requires cC == 1.0 - cA - cB
    ensures r == Pair2(l, cB, cC, 1.0, -1.0, 0.0, -1.0)
  {
    var z := cB - cC;
    -Poly(l, z)
    - cB * First(l, 2.0, 4.0, 6.0, z)
    + (1.0 - 2.0 * cB - cA) * First(l, 1.0, 2.0, 3.0, z)
    + cB * cC * Second(l, 4.0, 12.0, z)
  }

  function BlockABdBdB(l: RK, cA: real, cB: real): (r: real)
    ensures r == Pair2(l, cA, cB, 0.0, 1.0, 0.0, 1.0)
  {
    var z := cA - cB;
    cA * -First(l, 1.0, 2.0, 3.0, z)
    - cA * First(l, 1.0, 2.0, 3.0, z)
    + cA * cB * Second(l, 2.0, 6.0, z)
  }

  function BlockACdBdB(l: RK, cA: real, cB: real, cC: real): (r: real)
    requires cC == 1.0 - cA - cB
    ensures r == Pair2(l, cA, cC, 0.0, -1.0, 0.0, -1.0)
  {
    var z := cA - cC;
    -cA * First(l, 1.0, 2.0, 3.0, z)
    + -cA * First(l, 1.0, 2.0, 3.0, z)
    + cA * cC * Second(l, 2.0, 6.0, z)
  }

  function BlockBCdBdB(l: RK, cA: real, cB: real, cC: real): (r: real)
    requires cC == 1.0 - cA - cB
    ensures r == Pair2(l, cB, cC, 1.0, -1.0, 1.0, -1.0)
  {
    var z := cB - cC;
    -2.0 * Poly(l, z)
    + (1.0 - cA - 2.0 * cB) * First(l, 2.0, 4.0, 6.0, z)
    + (1.0 - cA - 2.0 * cB) * First(l, 2.0, 4.0, 6.0, z)
    + cB * cC * Second(l, 8.0, 24.0, z)
  }

  // The ternary terms, with f = lphi growing at rate a with cA and at rate b with cB.

  function TermAA(u: real, v: real, w: real, f: real, a: real): real {
    -2.0 * v * f + 2.0 * (v * w - u * v) * a
  }

  function TermAB(u: real, v: real, w: real, f: real, a: real, b: real): real {
    (w - v - u) * f + v * (w - u) * b + u * (w - v) * a
  }

  function TermBA(u: real, v: real, w: real, f: real, a: real, b: real): real {
    (w - u - v) * f + u * (w - v) * a + v * (w - u) * b
  }

  function TermBB(u: real, v: real, w: real, f: real, b: real): real {
    -2.0 * u * f + 2.0 * (u * w - u * v) * b
  }

  lemma TermsAreExact(u: real, v: real, w: real, f: real, a: real, b: real)
    ensures Four2(u, v, w, f, 1.0, 0.0, -1.0, a, 1.0, 0.0, -1.0, a) == TermAA(u, v, w, f, a)
    ensures Four2(u, v, w, f, 1.0, 0.0, -1.0, a, 0.0, 1.0, -1.0, b) == TermAB(u, v, w, f, a, b)
    ensures Four2(u, v, w, f, 0.0, 1.0, -1.0, b, 1.0, 0.0, -1.0, a) == TermBA(u, v, w, f, a, b)
    ensures Four2(u, v, w, f, 0.0, 1.0, -1.0, b, 0.0, 1.0, -1.0, b) == TermBB(u, v, w, f, b)
  {}

  lemma PhiAlongAxes(m: ABC)
    ensures Phi(m, 1.0, 0.0, -1.0) == m.m0 - m.m2 && Phi(m, 0.0, 1.0, -1.0) == m.m1 - m.m2
  {}

  lemma ABCBlocks(m: ABC, cA: real, cB: real, cC: real)
    ensures BlockABCdAdA(m, cA, cB, cC)
      == Four2(cA, cB, cC, Phi(m, cA, cB, cC), 1.0, 0.0, -1.0, Phi(m, 1.0, 0.0, -1.0), 1.0, 0.0, -1.0, Phi(m, 1.0, 0.0, -1.0))
    ensures BlockABCdAdB(m, cA, cB, cC)
      == Four2(cA, cB, cC, Phi(m, cA, cB, cC), 1.0, 0.0, -1.0, Phi(m, 1.0, 0.0, -1.0), 0.0, 1.0, -1.0, Phi(m, 0.0, 1.0, -1.0))
    ensures BlockABCdBdA(m, cA, cB, cC)
      == Four2(cA, cB, cC, Phi(m, cA, cB, cC), 0.0, 1.0, -1.0, Phi(m, 0.0, 1.0, -1.0), 1.0, 0.0, -1.0, Phi(m, 1.0, 0.0, -1.0))
    ensures BlockABCdBdB(m, cA, cB, cC)
      == Four2(cA, cB, cC, Phi(m, cA, cB, cC), 0.0, 1.0, -1.0, Phi(m, 0.0, 1.0, -1.0), 0.0, 1.0, -1.0, Phi(m, 0.0, 1.0, -1.0))
  {
    hide Four2, Phi, TermAA, TermAB, TermBA, TermBB;
    PhiAlongAxes(m);
    TermsAreExact(cA, cB, cC, Phi(m, cA, cB, cC), m.m0 - m.m2, m.m1 - m.m2);
  }

  function BlockABCdAdA(m: ABC, cA: real, cB: real, cC: real): real {
    TermAA(cA, cB, cC, Phi(m, cA, cB, cC), m.m0 - m.m2)
  }

  function BlockABCdAdB(m: ABC, cA: real, cB: real, cC: real): real {
    TermAB(cA, cB, cC, Phi(m, cA, cB, cC), m.m0 - m.m2, m.m1 - m.m2)
  }

  function BlockABCdBdA(m: ABC, cA: real, cB: real, cC: real): real {
    TermBA(cA, cB, cC, Phi(m, cA, cB, cC), m.m0 - m.m2, m.m1 - m.m2)
  }

  function BlockABCdBdB(m: ABC, cA: real, cB: real, cC: real): real {
    TermBB(cA, cB, cC, Phi(m, cA, cB, cC), m.m1 - m.m2)
  }

  method FMixDeriv2Ternary(k: Interaction, cA: real, cB: real, deriv: array<real>)
    requires deriv.Length == 4
    modifies deriv
    ensures deriv[0] == MixAA(k, cA, cB) && deriv[1] == MixAB(k, cA, cB)
    ensures deriv[2] == MixBA(k, cA, cB) && deriv[3] == MixBB(k, cA, cB)
  {
    hide BlockABdAdA, BlockACdAdA, BlockBCdAdA, BlockABdAdB, BlockACdAdB, BlockBCdAdB, BlockABCdAdA, BlockABCdAdB;
    hide BlockABdBdA, BlockACdBdA, BlockBCdBdA, BlockABdBdB, BlockACdBdB, BlockBCdBdB, BlockABCdBdA, BlockABCdBdB;
    hide Pair2, Four2, Phi;
    var cC := 1.0 - cA - cB;

    deriv[0] := BlockABdAdA(k.AB, cA, cB);
    deriv[0] := deriv[0] + BlockACdAdA(k.AC, cA, cB, cC);
    deriv[0] := deriv[0] + BlockBCdAdA(k.BC, cA, cB, cC);

    deriv[1] := BlockABdAdB(k.AB, cA, cB);
    deriv[1] := deriv[1] + BlockACdAdB(k.AC, cA, cB, cC);
    deriv[1] := deriv[1] + BlockBCdAdB(k.BC, cA, cB, cC);

    deriv[2] := BlockABdBdA(k.AB, cA, cB);
    deriv[2] := deriv[2] + BlockACdBdA(k.AC, cA, cB, cC);
    deriv[2] := deriv[2] + BlockBCdBdA(k.BC, cA, cB, cC);

    deriv[3] := BlockABdBdB(k.AB, cA, cB);
    deriv[3] := deriv[3] + BlockACdBdB(k.AC, cA, cB, cC);
    deriv[3] := deriv[3] + BlockBCdBdB(k.BC, cA, cB, cC);

    ABCBlocks(k.ABC, cA, cB, cC);
    deriv[0] := deriv[0] + BlockABCdAdA(k.ABC, cA, cB, cC);
    deriv[1] := deriv[1] + BlockABCdAdB(k.ABC, cA, cB, cC);
    deriv[2] := deriv[2] + BlockABCdBdA(k.ABC, cA, cB, cC);
    deriv[3] := deriv[3] + BlockABCdBdB(k.ABC, cA, cB, cC);
  }

  // ----- ternary ideal mixing -----

  function FIdealMixTernary(ln: real -> real, rt: real, conc0: real, conc1: real): real {
    rt * (XLogX(ln, conc0) + XLogX(ln, conc1) + XLogX(ln, 1.0 - conc0 - conc1))
  }

  function FIdealMixA(ln: real -> real, rt: real, cA: real, cB: real): real {
    rt * (XLogXDeriv(ln, cA) - XLogXDeriv(ln, 1.0 - cA - cB))
  }

  function FIdealMixB(ln: real -> real, rt: real, cA: real, cB: real): real {
    rt * (XLogXDeriv(ln, cB) - XLogXDeriv(ln, 1.0 - cA - cB))
  }

  function FIdealMixAA(rt: real, cA: real, cB: real): real {
    rt * (XLogXDeriv2(cA) + XLogXDeriv2(1.0 - cA - cB))
  }

  function FIdealMixAB(rt: real, cA: real, cB: real): real {
    rt * XLogXDeriv2(1.0 - cA - cB)
  }

  function FIdealMixBB(rt: real, cA: real, cB: real): real {
    rt * (XLogXDeriv2(cB) + XLogXDeriv2(1.0 - cA - cB))
  }

  method FIdealMixDerivTernary(ln: real -> real, rt: real, cA: real, cB: real, deriv: array<real>)
    requires deriv.Length == 2
    modifies deriv
    ensures deriv[..] == [FIdealMixA(ln, rt, cA, cB), FIdealMixB(ln, rt, cA, cB)]
  {
    deriv[0] := rt * (XLogXDeriv(ln, cA) - XLogXDeriv(ln, 1.0 - cA - cB));
    deriv[1] := rt * (XLogXDeriv(ln, cB) - XLogXDeriv(ln, 1.0 - cA - cB));
  }

  method FIdealMixDeriv2Ternary(rt: real, cA: real, cB: real, deriv: array<real>)
    requires deriv.Length == 4
    modifies deriv
    ensures deriv[..] == [FIdealMixAA(rt, cA, cB), FIdealMixAB(rt, cA, cB), FIdealMixAB(rt, cA, cB), FIdealMixBB(rt, cA, cB)]
  {
    deriv[0] := rt * (XLogXDeriv2(cA) + XLogXDeriv2(1.0 - cA - cB));
    deriv[1] := rt * XLogXDeriv2(1.0 - cA - cB);
    deriv[2] := deriv[1];
    deriv[3] := rt * (XLogXDeriv2(cB) + XLogXDeriv2(1.0 - cA - cB));
  }
}
