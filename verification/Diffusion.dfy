/**
 The local diffusion matrix of a phase: the mobility matrix (source/CALPHADMobility.C) times the
 Hessian of the energy (source/DiffusionForConcInPhaseStrategy.C).  The atomic mobilities are functions
 of composition and temperature.
 */
module Diffusion {
  import opened RealFacts
  import opened RealSums
  import opened Indices
  import opened SmoothLog
  import opened Calculus
  import R = RedlichKister
  import opened TernaryMixing
  import opened CalphadFunctions
  import opened PhaseEnergies
  import opened Determinant

  const M2_TO_UM2: real := 1000000000000.0

  // ----- mobilities -----

  function MobilityBinary(c0: real, m0: real, m1: real): real {
    var c1 := 1.0 - c0;
    var mm := c0 * m1 + c1 * m0;
    c0 * c1 * mm * M2_TO_UM2
  }

  // Composition (c0, c1, 1 - c0 - c1) and the three atomic mobilities.
  datatype Alloy = Alloy(c0: real, c1: real, m0: real, m1: real, m2: real) {
    function C2(): real {
      1.0 - c0 - c1
    }

    // Each species k contributes m_k c_k (w_k . x)^2, with w_k its velocity in the mean frame.
    function W0(x: real, y: real): real {
      (1.0 - c0) * x - c1 * y
    }

    function W1(x: real, y: real): real {
      (1.0 - c1) * y - c0 * x
    }

    function W2(x: real, y: real): real {
      -c0 * x - c1 * y
    }

    predicate InSimplex() {
      c0 >= 0.0 && c1 >= 0.0 && C2() >= 0.0
    }

    predicate Mobile() {
      m0 >= 0.0 && m1 >= 0.0 && m2 >= 0.0
    }
  }

  // A symmetric 2x2 matrix.
  datatype Sym = Sym(xx: real, xy: real, yy: real) {
    function Form(x: real, y: real): real {
      xx * (x * x) + 2.0 * (xy * (x * y)) + yy * (y * y)
    }

    function Det(): real {
      xx * yy - xy * xy
    }
  }

  function MobilityXX(c0: real, c1: real, c2: real, m0: real, m1: real, m2: real): real {
    c0 * ((1.0 - c0) * (1.0 - c0) * m0 + c0 * c1 * m1 + c0 * c2 * m2)
  }

  function MobilityXY(c0: real, c1: real, c2: real, m0: real, m1: real, m2: real): real {
    c0 * c1 * (-(1.0 - c0) * m0 - (1.0 - c1) * m1 + c2 * m2)
  }

  function MobilityYY(c0: real, c1: real, c2: real, m0: real, m1: real, m2: real): real {
    c1 * (c0 * c1 * m0 + (1.0 - c1) * (1.0 - c1) * m1 + c1 * c2 * m2)
  }

  function Mobility(a: Alloy): Sym {
    Sym(MobilityXX(a.c0, a.c1, a.C2(), a.m0, a.m1, a.m2) * M2_TO_UM2,
        MobilityXY(a.c0, a.c1, a.C2(), a.m0, a.m1, a.m2) * M2_TO_UM2,
        MobilityYY(a.c0, a.c1, a.C2(), a.m0, a.m1, a.m2) * M2_TO_UM2)
  }

  // The atomic mobility of a species at a composition and temperature.
  type AtomicMobility = (real, real, real, real) -> real

  /** The alloy at a composition and temperature, for three species. */
  function AlloyAt(c0: real, c1: real, temp: real, atomic: seq<AtomicMobility>): Alloy
    requires |atomic| == 3
  {
    var c2 := 1.0 - c0 - c1;
    Alloy(c0, c1, atomic[0](c0, c1, c2, temp), atomic[1](c0, c1, c2, temp), atomic[2](c0, c1, c2, temp))
  }

  method ComputeDiffusionMobilityTernaryPhase(c0: real, c1: real, temp: real, atomic: seq<AtomicMobility>, mobility: array<real>)
    requires |atomic| == 3 && mobility.Length == 4
    modifies mobility
    ensures mobility[..] == var m := Mobility(AlloyAt(c0, c1, temp, atomic)); [m.xx, m.xy, m.xy, m.yy]
  {
    hide MobilityXX, MobilityXY, MobilityYY;
    var c2 := 1.0 - c0 - c1;
    var m0 := atomic[0](c0, c1, c2, temp);
    var m1 := atomic[1](c0, c1, c2, temp);
    var m2 := atomic[2](c0, c1, c2, temp);
    mobility[0] := MobilityXX(c0, c1, c2, m0, m1, m2) * M2_TO_UM2;
    mobility[2] := MobilityXY(c0, c1, c2, m0, m1, m2) * M2_TO_UM2;
    mobility[1] := mobility[2];
    mobility[3] := MobilityYY(c0, c1, c2, m0, m1, m2) * M2_TO_UM2;
  }

  lemma DiagonalTerms(c0: real, c1: real, c2: real, m0: real, m1: real, m2: real)
    ensures c0 * ((1.0 - c0) * (1.0 - c0) * m0 + c0 * c1 * m1 + c0 * c2 * m2)
      == m0 * c0 * ((1.0 - c0) * (1.0 - c0)) + m1 * c1 * (-c0 * -c0) + m2 * c2 * (-c0 * -c0)
  {}

  lemma CrossTerms(c0: real, c1: real, c2: real, m0: real, m1: real, m2: real)
    ensures c0 * c1 * (-(1.0 - c0) * m0 - (1.0 - c1) * m1 + c2 * m2)
      == m0 * c0 * ((1.0 - c0) * -c1) + m1 * c1 * (-c0 * (1.0 - c1)) + m2 * c2 * (-c0 * -c1)
  {}

  lemma LastTerms(c0: real, c1: real, c2: real, m0: real, m1: real, m2: real)
    ensures c1 * (c0 * c1 * m0 + (1.0 - c1) * (1.0 - c1) * m1 + c1 * c2 * m2)
      == m0 * c0 * (-c1 * -c1) + m1 * c1 * ((1.0 - c1) * (1.0 - c1)) + m2 * c2 * (-c1 * -c1)
  {}

  // What a species of mobility m and concentration c contributes, moving at velocity w.
  function Species(m: real, c: real, w: real): real {
    m * c * (w * w)
  }

  // The matrix in the source's units.
  function Unscaled(a: Alloy): Sym {
    Sym(MobilityXX(a.c0, a.c1, a.C2(), a.m0, a.m1, a.m2), MobilityXY(a.c0, a.c1, a.C2(), a.m0, a.m1, a.m2),
        MobilityYY(a.c0, a.c1, a.C2(), a.m0, a.m1, a.m2))
  }

  // The rank-one matrix of a species of mobility m and concentration c.
  function Rank1(m: real, c: real, p: real, q: real): Sym {
    Sym(m * c * (p * p), m * c * (p * q), m * c * (q * q))
  }

  lemma Rank1Form(m: real, c: real, p: real, q: real, x: real, y: real, w: real)
    requires w == p * x + q * y
    ensures Rank1(m, c, p, q).Form(x, y) == Species(m, c, w)
  {
    SquareOfSum(m * c, p, q, x, y);
  }

  lemma SquareOfSum(a: real, p: real, q: real, x: real, y: real)
    ensures a * (p * p) * (x * x) + 2.0 * (a * (p * q) * (x * y)) + a * (q * q) * (y * y)
      == a * ((p * x + q * y) * (p * x + q * y))
  {}

  ghost predicate AddUp(m: Sym, r0: Sym, r1: Sym, r2: Sym) {
    m.xx == r0.xx + r1.xx + r2.xx && m.xy == r0.xy + r1.xy + r2.xy && m.yy == r0.yy + r1.yy + r2.yy
  }

  lemma FormsAddUp(m: Sym, r0: Sym, r1: Sym, r2: Sym, x: real, y: real)
    requires AddUp(m, r0, r1, r2)
    ensures m.Form(x, y) == r0.Form(x, y) + r1.Form(x, y) + r2.Form(x, y)
  {
    SumTimes3(r0.xx, r1.xx, r2.xx, x * x);
    SumTimes3(r0.xy, r1.xy, r2.xy, x * y);
    SumTimes3(r0.yy, r1.yy, r2.yy, y * y);
  }

  lemma SumTimes3(a: real, b: real, c: real, x: real)
    ensures (a + b + c) * x == a * x + b * x + c * x
  {}

  lemma SpeciesAddUp(c0: real, c1: real, c2: real, m0: real, m1: real, m2: real)
    ensures AddUp(Sym(MobilityXX(c0, c1, c2, m0, m1, m2), MobilityXY(c0, c1, c2, m0, m1, m2), MobilityYY(c0, c1, c2, m0, m1, m2)),
                  Rank1(m0, c0, 1.0 - c0, -c1), Rank1(m1, c1, -c0, 1.0 - c1), Rank1(m2, c2, -c0, -c1))
  {
    hide Rank1, MobilityXX, MobilityXY, MobilityYY;
    FirstEntries(c0, c1, c2, m0, m1, m2);
    CrossEntries(c0, c1, c2, m0, m1, m2);
    LastEntries(c0, c1, c2, m0, m1, m2);
  }

  lemma FirstEntries(c0: real, c1: real, c2: real, m0: real, m1: real, m2: real)
    ensures MobilityXX(c0, c1, c2, m0, m1, m2)
      == Rank1(m0, c0, 1.0 - c0, -c1).xx + Rank1(m1, c1, -c0, 1.0 - c1).xx + Rank1(m2, c2, -c0, -c1).xx
  {
    DiagonalTerms(c0, c1, c2, m0, m1, m2);
  }

  lemma CrossEntries(c0: real, c1: real, c2: real, m0: real, m1: real, m2: real)
    ensures MobilityXY(c0, c1, c2, m0, m1, m2)
      == Rank1(m0, c0, 1.0 - c0, -c1).xy + Rank1(m1, c1, -c0, 1.0 - c1).xy + Rank1(m2, c2, -c0, -c1).xy
  {
    hide Rank1;
    CrossTerms(c0, c1, c2, m0, m1, m2);
    Rank1Entries(m0, c0, 1.0 - c0, -c1);
    Rank1Entries(m1, c1, -c0, 1.0 - c1);
    Rank1Entries(m2, c2, -c0, -c1);
  }

  lemma Rank1Entries(m: real, c: real, p: real, q: real)
    ensures Rank1(m, c, p, q) == Sym(m * c * (p * p), m * c * (p * q), m * c * (q * q))
  {}

  lemma LastEntries(c0: real, c1: real, c2: real, m0: real, m1: real, m2: real)
    ensures MobilityYY(c0, c1, c2, m0, m1, m2)
      == Rank1(m0, c0, 1.0 - c0, -c1).yy + Rank1(m1, c1, -c0, 1.0 - c1).yy + Rank1(m2, c2, -c0, -c1).yy
  {
    LastTerms(c0, c1, c2, m0, m1, m2);
  }

  lemma UnscaledForm(a: Alloy, x: real, y: real)
    ensures Unscaled(a).Form(x, y)
      == Species(a.m0, a.c0, a.W0(x, y)) + Species(a.m1, a.c1, a.W1(x, y)) + Species(a.m2, a.C2(), a.W2(x, y))
  {
    hide Alloy.C2, Alloy.W0, Alloy.W1, Alloy.W2, MobilityXX, MobilityXY, MobilityYY, Sym.Form, Species, Rank1, AddUp;
    var r0, r1, r2 := Rank1(a.m0, a.c0, 1.0 - a.c0, -a.c1), Rank1(a.m1, a.c1, -a.c0, 1.0 - a.c1), Rank1(a.m2, a.C2(), -a.c0, -a.c1);
    SpeciesAddUp(a.c0, a.c1, a.C2(), a.m0, a.m1, a.m2);
    FormsAddUp(Unscaled(a), r0, r1, r2, x, y);
    Velocities(a, x, y);
    Rank1Form(a.m0, a.c0, 1.0 - a.c0, -a.c1, x, y, a.W0(x, y));
    Rank1Form(a.m1, a.c1, -a.c0, 1.0 - a.c1, x, y, a.W1(x, y));
    Rank1Form(a.m2, a.C2(), -a.c0, -a.c1, x, y, a.W2(x, y));
  }

  lemma Velocities(a: Alloy, x: real, y: real)
    ensures a.W0(x, y) == (1.0 - a.c0) * x + -a.c1 * y
    ensures a.W1(x, y) == -a.c0 * x + (1.0 - a.c1) * y
    ensures a.W2(x, y) == -a.c0 * x + -a.c1 * y
  {}

  /** The quadratic form of the mobility matrix: a square per species. */
  lemma MobilityIsSquares(a: Alloy, x: real, y: real)
    ensures Mobility(a).Form(x, y) == M2_TO_UM2 *
      (Species(a.m0, a.c0, a.W0(x, y)) + Species(a.m1, a.c1, a.W1(x, y)) + Species(a.m2, a.C2(), a.W2(x, y)))
  {
    hide Alloy.C2, Alloy.W0, Alloy.W1, Alloy.W2, MobilityXX, MobilityXY, MobilityYY, Sym.Form, Species;
    UnscaledForm(a, x, y);
    ScaledForm(M2_TO_UM2, Unscaled(a), Mobility(a), x, y);
  }

  lemma ScaledForm(k: real, m: Sym, m': Sym, x: real, y: real)
    requires m'.xx == m.xx * k && m'.xy == m.xy * k && m'.yy == m.yy * k
    ensures m'.Form(x, y) == k * m.Form(x, y)
    ensures m'.Det() == k * k * m.Det()
  {
    ScaledParts(k, m.xx, m.xy, m.yy, x * x, x * y, y * y);
  }

  lemma ScaledParts(k: real, a: real, b: real, c: real, p: real, q: real, r: real)
    ensures a * k * p + 2.0 * (b * k * q) + c * k * r == k * (a * p + 2.0 * (b * q) + c * r)
    ensures (a * k) * (c * k) - (b * k) * (b * k) == k * k * (a * c - b * b)
  {}

  /**
   From the atomic mobilities directly: species k has the k-th of them, evaluated at the three
   concentrations and the temperature, and 1e12 turns square metres into square micrometres.
   */
  lemma MobilityOfSpecies(c0: real, c1: real, c2: real, temp: real, atomic: seq<AtomicMobility>, x: real, y: real, w0: real, w1: real, w2: real)
    requires |atomic| == 3 && c0 + c1 + c2 == 1.0
    requires w0 == (1.0 - c0) * x - c1 * y && w1 == (1.0 - c1) * y - c0 * x && w2 == -c0 * x - c1 * y
    ensures var m := Mobility(AlloyAt(c0, c1, temp, atomic));
      m.xx * (x * x) + 2.0 * (m.xy * (x * y)) + m.yy * (y * y) == 1000000000000.0 *
      (atomic[0](c0, c1, c2, temp) * c0 * (w0 * w0) + atomic[1](c0, c1, c2, temp) * c1 * (w1 * w1) + atomic[2](c0, c1, c2, temp) * c2 * (w2 * w2))
  {
    hide Mobility, Species, Alloy.W0, Alloy.W1, Alloy.W2, Sym.Form;
    var a := AlloyAt(c0, c1, temp, atomic);
    assert c2 == 1.0 - c0 - c1 == a.C2() && a.c0 == c0 && a.c1 == c1;
    var m0, m1, m2 := atomic[0](c0, c1, c2, temp), atomic[1](c0, c1, c2, temp), atomic[2](c0, c1, c2, temp);
    assert a.m0 == m0 && a.m1 == m1 && a.m2 == m2;
    hide AlloyAt, Alloy.C2;
    VelocitiesAre(a, c0, c1, x, y, w0, w1, w2);
    MobilityIsSquares(a, x, y);
    FormIs(Mobility(a), x, y);
    SpeciesIs(m0, c0, w0);
    SpeciesIs(m1, c1, w1);
    SpeciesIs(m2, c2, w2);
  }

  lemma SpeciesIs(m: real, c: real, w: real)
    ensures Species(m, c, w) == m * c * (w * w)
  {}

  lemma FormIs(m: Sym, x: real, y: real)
    ensures m.Form(x, y) == m.xx * (x * x) + 2.0 * (m.xy * (x * y)) + m.yy * (y * y)
  {}

  lemma VelocitiesAre(a: Alloy, c0: real, c1: real, x: real, y: real, w0: real, w1: real, w2: real)
    requires a.c0 == c0 && a.c1 == c1
    requires w0 == (1.0 - c0) * x - c1 * y && w1 == (1.0 - c1) * y - c0 * x && w2 == -c0 * x - c1 * y
    ensures a.W0(x, y) == w0 && a.W1(x, y) == w1 && a.W2(x, y) == w2
  {}

  lemma MobilityDeterminant(a: Alloy)
    ensures Mobility(a).Det() == M2_TO_UM2 * M2_TO_UM2 *
      (a.c0 * a.c1 * a.C2() * (a.m0 * a.m1 * a.C2() + a.m0 * a.m2 * a.c1 + a.m1 * a.m2 * a.c0))
  {
    hide Sym.Det, Alloy.C2, MobilityXX, MobilityXY, MobilityYY;
    ThirdFraction(a);
    UnscaledDeterminant(a.c0, a.c1, a.C2(), a.m0, a.m1, a.m2, Unscaled(a));
    ScaledForm(M2_TO_UM2, Unscaled(a), Mobility(a), 0.0, 0.0);
  }

  lemma ThirdFraction(a: Alloy)
    ensures a.C2() == 1.0 - a.c0 - a.c1
  {}

  // What two summands contribute together to a determinant.
  function Mixed(r: Sym, t: Sym): real {
    r.xx * t.yy + t.xx * r.yy - 2.0 * (r.xy * t.xy)
  }

  lemma DeterminantsAddUp(m: Sym, r0: Sym, r1: Sym, r2: Sym)
    requires AddUp(m, r0, r1, r2)
    ensures m.Det() == r0.Det() + r1.Det() + r2.Det() + Mixed(r0, r1) + Mixed(r0, r2) + Mixed(r1, r2)
  {}

  lemma Rank1Determinant(m: real, c: real, p: real, q: real)
    ensures Rank1(m, c, p, q).Det() == 0.0
  {}

  lemma Rank1Mixed(m: real, c: real, p: real, q: real, m': real, c': real, p': real, q': real, k: real)
    requires k == p * q' - q * p'
    ensures Mixed(Rank1(m, c, p, q), Rank1(m', c', p', q')) == m * c * (m' * c') * (k * k)
  {
    SquareOfCross(m * c, p, q, m' * c', p', q');
  }

  lemma SquareOfCross(a: real, p: real, q: real, b: real, p': real, q': real)
    ensures a * (p * p) * (b * (q' * q')) + b * (p' * p') * (a * (q * q)) - 2.0 * (a * (p * q) * (b * (p' * q')))
      == a * b * ((p * q' - q * p') * (p * q' - q * p'))
  {}

  lemma UnscaledDeterminant(c0: real, c1: real, c2: real, m0: real, m1: real, m2: real, m: Sym)
    requires m == Sym(MobilityXX(c0, c1, c2, m0, m1, m2), MobilityXY(c0, c1, c2, m0, m1, m2), MobilityYY(c0, c1, c2, m0, m1, m2))
    requires c2 == 1.0 - c0 - c1
    ensures m.Det() == c0 * c1 * c2 * (m0 * m1 * c2 + m0 * m2 * c1 + m1 * m2 * c0)
  {
    hide MobilityXX, MobilityXY, MobilityYY, Rank1, AddUp, Sym.Det, Mixed;
    SpeciesAddUp(c0, c1, c2, m0, m1, m2);
    DeterminantsAddUp(m, Rank1(m0, c0, 1.0 - c0, -c1), Rank1(m1, c1, -c0, 1.0 - c1), Rank1(m2, c2, -c0, -c1));
    Rank1Determinant(m0, c0, 1.0 - c0, -c1);
    Rank1Determinant(m1, c1, -c0, 1.0 - c1);
    Rank1Determinant(m2, c2, -c0, -c1);
    CrossProducts(c0, c1);
    Rank1Mixed(m0, c0, 1.0 - c0, -c1, m1, c1, -c0, 1.0 - c1, c2);
    Rank1Mixed(m0, c0, 1.0 - c0, -c1, m2, c2, -c0, -c1, -c1);
    Rank1Mixed(m1, c1, -c0, 1.0 - c1, m2, c2, -c0, -c1, c0);
    PairProducts(c0, c1, c2, m0, m1, m2);
  }

  lemma CrossProducts(c0: real, c1: real)
    ensures (1.0 - c0) * (1.0 - c1) - -c1 * -c0 == 1.0 - c0 - c1
    ensures (1.0 - c0) * -c1 - -c1 * -c0 == -c1
    ensures -c0 * -c1 - (1.0 - c1) * -c0 == c0
  {}

  lemma PairProducts(c0: real, c1: real, c2: real, m0: real, m1: real, m2: real)
    ensures m0 * c0 * (m1 * c1) * (c2 * c2) + m0 * c0 * (m2 * c2) * (-c1 * -c1) + m1 * c1 * (m2 * c2) * (c0 * c0)
      == c0 * c1 * c2 * (m0 * m1 * c2 + m0 * m2 * c1 + m1 * m2 * c0)
  {}

  predicate Semidefinite(m: Sym) {
    m.xx >= 0.0 && m.yy >= 0.0 && m.Det() >= 0.0
  }

  /** It is positive semidefinite for compositions in the simplex: as a form, and by its minors. */
  lemma MobilitySemidefinite(a: Alloy, x: real, y: real)
    requires a.InSimplex() && a.Mobile()
    ensures Mobility(a).Form(x, y) >= 0.0
    ensures Semidefinite(Mobility(a))
  {
    hide Mobility;
    FormNonNegative(a, x, y);
    FormNonNegative(a, 1.0, 0.0);
    FormNonNegative(a, 0.0, 1.0);
    MobilityDeterminant(a);
    DeterminantNonNegative(a.c0, a.c1, a.C2(), a.m0, a.m1, a.m2);
  }

  lemma SpeciesNonNegative(m: real, c: real, w: real)
    requires m >= 0.0 && c >= 0.0
    ensures Species(m, c, w) >= 0.0
  {
    NonNegativeProduct(m, c);
    WeightedSquare(m * c, w, Species(m, c, w));
  }

  lemma FormNonNegative(a: Alloy, x: real, y: real)
    requires a.InSimplex() && a.Mobile()
    ensures Mobility(a).Form(x, y) >= 0.0
  {
    hide Mobility, Sym.Form, Species, Alloy.W0, Alloy.W1, Alloy.W2;
    MobilityIsSquares(a, x, y);
    SpeciesNonNegative(a.m0, a.c0, a.W0(x, y));
    SpeciesNonNegative(a.m1, a.c1, a.W1(x, y));
    SpeciesNonNegative(a.m2, a.C2(), a.W2(x, y));
  }

  lemma DeterminantNonNegative(c0: real, c1: real, c2: real, m0: real, m1: real, m2: real)
    requires c0 >= 0.0 && c1 >= 0.0 && c2 >= 0.0 && m0 >= 0.0 && m1 >= 0.0 && m2 >= 0.0
    ensures c0 * c1 * c2 * (m0 * m1 * c2 + m0 * m2 * c1 + m1 * m2 * c0) >= 0.0
  {
    NonNegativeProduct(m0, m1);
    NonNegativeProduct(m0 * m1, c2);
    NonNegativeProduct(m0, m2);
    NonNegativeProduct(m0 * m2, c1);
    NonNegativeProduct(m1, m2);
    NonNegativeProduct(m1 * m2, c0);
    NonNegativeProduct(c0, c1);
    NonNegativeProduct(c0 * c1, c2);
    NonNegativeProduct(c0 * c1 * c2, m0 * m1 * c2 + m0 * m2 * c1 + m1 * m2 * c0);
  }

  /** Without the third species the ternary mobility is the binary one. */
  lemma TernaryReducesToBinary(c0: real, m0: real, m1: real, m2: real)
    ensures Mobility(Alloy(c0, 1.0 - c0, m0, m1, m2)).xx == MobilityBinary(c0, m0, m1)
    ensures Mobility(Alloy(c0, 1.0 - c0, m0, m1, m2)).Form(1.0, -1.0) == 4.0 * MobilityBinary(c0, m0, m1)
  {}

  // ----- products of small matrices -----

  function ProductTerm(n: nat, a: Row, b: Row, k: nat, i: nat, j: int): real {
    if j < 0 then 0.0 else At(a, Flat(n, j, k)) * At(b, Flat(n, i, j))
  }

  /** Entry (k, i) of the product of two n x n matrices stored by rows. */
  function Product(n: nat, a: Row, b: Row, k: nat, i: nat): real {
    Sum(n, j => ProductTerm(n, a, b, k, i, j))
  }

  method SmallMatMult(n: nat, a: array<real>, b: array<real>, c: array<real>)
    requires a.Length == b.Length == c.Length == n * n && c != a && c != b
    modifies c
    ensures forall k: nat, i: nat :: k < n && i < n ==>
      Flat(n, i, k) < c.Length && c[Flat(n, i, k)] == Product(n, a[..], b[..], k, i)
  {
    hide Flat, Product, ProductTerm;
    FlatDistinct(n, n);
    for k := 0 to n
      invariant forall k': nat, i': nat :: k' < k && i' < n ==> c[Flat(n, i', k')] == Product(n, a[..], b[..], k', i')
    {
      for i := 0 to n
        invariant forall k': nat, i': nat :: (k' < k && i' < n) || (k' == k && i' < i) ==>
          c[Flat(n, i', k')] == Product(n, a[..], b[..], k', i')
      {
        MultiplyEntry(n, a, b, c, k, i);
      }
    }
  }

  // The innermost loop accumulates into entry (k, i) only.
  method MultiplyEntry(n: nat, a: array<real>, b: array<real>, c: array<real>, k: nat, i: nat)
    requires a.Length == b.Length == c.Length == n * n && c != a && c != b && k < n && i < n
    requires Flat(n, i, k) < n * n
    modifies c
    ensures c[..] == old(c[..])[Flat(n, i, k) := Product(n, a[..], b[..], k, i)]
  {
    hide Flat;
    FlatDistinct(n, n);
    ghost var a', b' := a[..], b[..];
    ghost var term := l => ProductTerm(n, a', b', k, i, l);
    c[Flat(n, i, k)] := 0.0;
    for j := 0 to n
      invariant c[..] == old(c[..])[Flat(n, i, k) := Sum(j, term)]
    {
      assert Flat(n, j, k) < n * n && Flat(n, i, j) < n * n;
      var x, y := a[Flat(n, j, k)], b[Flat(n, i, j)];
      assert term(j) == x * y;
      var t := x * y;
      assert c[Flat(n, i, k)] == Sum(j, term);
      c[Flat(n, i, k)] := c[Flat(n, i, k)] + t;
    }
    SumSame(n, term, l => ProductTerm(n, a', b', k, i, l));
  }

  // Row k of an n x n matrix stored by rows, times the vector x.

  function ActTerm(n: nat, a: Row, x: Row, k: nat, j: int): real {
    Times(At(a, j + n * k), At(x, j))
  }

  function Act(n: nat, a: Row, x: Row, k: nat): real {
    Sum(n, j => ActTerm(n, a, x, k, j))
  }

  function Image(n: nat, a: Row, x: Row): (y: Row)
    ensures |y| == n
  {
    seq(n, k requires 0 <= k < n => Act(n, a, x, k))
  }

  // What a_kj b_ji x_i contributes.
  function PathTerm(n: nat, a: Row, b: Row, x: Row, k: nat, i: int, j: int): real {
    Times(At(a, j + n * k), Times(At(b, i + n * j), At(x, i)))
  }

  /** The product of two matrices maps every vector as the second and then the first do: entry by entry, it is A B and not B A. */
  lemma ProductActs(n: nat, a: Row, b: Row, c: Row, x: Row, k: nat)
    requires |a| == |b| == |c| == n * n && |x| == n && k < n
    requires forall k': nat, i: nat :: k' < n && i < n ==> Flat(n, i, k') < n * n && c[Flat(n, i, k')] == Product(n, a, b, k', i)
    ensures Act(n, c, x, k) == Act(n, a, Image(n, b, x), k)
  {
    hide Product, Act, Image, Flat, ActTerm, PathTerm, Sum;
    var f := (i, j) => PathTerm(n, a, b, x, k, i, j);
    var y := Image(n, b, x);
    var rows, cols := i => RowSum(n, f, i), j => ColSum(n, f, j);
    forall i | 0 <= i < n
      ensures rows(i) == ActTerm(n, c, x, k, i)
    {
      FlatIs(n, i, k);
      assert c[Flat(n, i, k)] == Product(n, a, b, k, i);
      PathsTo(n, a, b, x, k, i, f, c);
    }
    forall j | 0 <= j < n
      ensures cols(j) == ActTerm(n, a, y, k, j)
    {
      PathsFrom(n, a, b, x, k, j, f);
    }
    ActIs(n, c, x, k, rows);
    ActIs(n, a, y, k, cols);
    SumSwap(n, n, f);
    SumsByRowsAndCols(n, f, rows, cols);
  }

  lemma SumsByRowsAndCols(n: nat, f: (int, int) -> real, rows: int -> real, cols: int -> real)
    requires forall i :: rows(i) == RowSum(n, f, i) && cols(i) == ColSum(n, f, i)
    ensures Sum(n, rows) == ByRows(n, n, f) && Sum(n, cols) == ByCols(n, n, f)
  {
    SumSame(n, rows, i => RowSum(n, f, i));
    SumSame(n, cols, j => ColSum(n, f, j));
  }

  lemma ActIs(n: nat, a: Row, x: Row, k: nat, g: int -> real)
    requires forall j :: 0 <= j < n ==> g(j) == ActTerm(n, a, x, k, j)
    ensures Act(n, a, x, k) == Sum(n, g)
  {
    hide ActTerm;
    SumSame(n, g, j => ActTerm(n, a, x, k, j));
  }

  lemma PathsTo(n: nat, a: Row, b: Row, x: Row, k: nat, i: nat, f: (int, int) -> real, c: Row)
    requires forall i', j :: f(i', j) == PathTerm(n, a, b, x, k, i', j)
    requires i < n && i + n * k < |c| && c[i + n * k] == Product(n, a, b, k, i)
    ensures RowSum(n, f, i) == ActTerm(n, c, x, k, i)
  {
    hide PathTerm, ProductTerm, Sum, Times;
    var xi := At(x, i);
    var term, path := j => ProductTerm(n, a, b, k, i, j), j => f(i, j);
    forall j | 0 <= j < n
      ensures path(j) == Times(xi, term(j))
    {
      PathIsTerm(n, a, b, x, k, i, j);
    }
    SumTimes(n, xi, term, path);
    RowSumIs(n, f, i, path);
    assert Times(xi, Product(n, a, b, k, i)) == Times(Product(n, a, b, k, i), xi) by {
      TimesCommutes(xi, Product(n, a, b, k, i));
    }
  }

  lemma TimesCommutes(x: real, y: real)
    ensures Times(x, y) == Times(y, x)
  {}

  lemma PathIsTerm(n: nat, a: Row, b: Row, x: Row, k: nat, i: nat, j: nat)
    ensures PathTerm(n, a, b, x, k, i, j) == Times(At(x, i), ProductTerm(n, a, b, k, i, j))
  {
    hide At, Flat;
    FlatIs(n, j, k);
    FlatIs(n, i, j);
    Rotate(At(a, j + n * k), At(b, i + n * j), At(x, i));
  }

  lemma Rotate(a: real, b: real, x: real)
    ensures Times(a, Times(b, x)) == Times(x, a * b)
  {}

  lemma PathsFrom(n: nat, a: Row, b: Row, x: Row, k: nat, j: nat, f: (int, int) -> real)
    requires forall i, j' :: f(i, j') == PathTerm(n, a, b, x, k, i, j')
    requires j < n
    ensures ColSum(n, f, j) == ActTerm(n, a, Image(n, b, x), k, j)
  {
    hide Sum, Times, At;
    var w := At(a, j + n * k);
    var act, path := i => ActTerm(n, b, x, j, i), i => f(i, j);
    forall i | 0 <= i < n
      ensures path(i) == Times(w, act(i))
    {
      assert f(i, j) == PathTerm(n, a, b, x, k, i, j);
    }
    SumTimes(n, w, act, path);
    ColSumIs(n, f, j, path);
    ActIs(n, b, x, j, act);
    ImageAt(n, b, x, j);
  }

  lemma ImageAt(n: nat, a: Row, x: Row, j: nat)
    requires j < n
    ensures At(Image(n, a, x), j) == Act(n, a, x, j)
  {
    hide Act;
  }

  // ----- the diffusion matrix of a ternary phase -----

  function Pairing(p: real, q: real, u: real, v: real): real {
    p * u + q * v
  }

  /** Mobility times Hessian, by rows. */
  function DiffusionMatrix(m: Sym, h: Sym): (d: Row)
    ensures |d| == 4
  {
    [Pairing(m.xx, m.xy, h.xx, h.xy), Pairing(m.xx, m.xy, h.xy, h.yy),
     Pairing(m.xy, m.yy, h.xx, h.xy), Pairing(m.xy, m.yy, h.xy, h.yy)]
  }

  function Hessian(rt: real, p: TernaryPhase, c0: real, c1: real): Sym {
    Sym(CurvatureAA(rt, p, c0, c1), CurvatureAB(rt, p, c0, c1), CurvatureBB(rt, p, c0, c1))
  }

  function Entries(m: Sym): Row {
    [m.xx, m.xy, m.xy, m.yy]
  }

  lemma ProductOfTwo(m: Sym, h: Sym, k: nat, i: nat)
    requires k < 2 && i < 2
    ensures Product(2, Entries(m), Entries(h), k, i) == DiffusionMatrix(m, h)[2 * k + i]
  {
    hide Flat;
    var term := j => ProductTerm(2, Entries(m), Entries(h), k, i, j);
    assert Sum(2, term) == Sum(1, term) + term(1);
    assert Sum(1, term) == Sum(0, term) + term(0);
    FlatIs(2, 0, k);
    FlatIs(2, 1, k);
    FlatIs(2, i, 0);
    FlatIs(2, i, 1);
  }

  lemma FourEntries(m: Sym, h: Sym, d: Row)
    requires |d| == 4
    requires d[0] == Product(2, Entries(m), Entries(h), 0, 0) && d[1] == Product(2, Entries(m), Entries(h), 0, 1)
    requires d[2] == Product(2, Entries(m), Entries(h), 1, 0) && d[3] == Product(2, Entries(m), Entries(h), 1, 1)
    ensures d == DiffusionMatrix(m, h)
  {
    hide Product, Pairing, Entries;
    ProductOfTwo(m, h, 0, 0);
    ProductOfTwo(m, h, 0, 1);
    ProductOfTwo(m, h, 1, 0);
    ProductOfTwo(m, h, 1, 1);
  }

  class DiffusionForConcInPhase {
    const n: nat
    const d2f: array<real>
    const mobmat: array<real>
    const localDmat: array<real>

    ghost predicate Valid() {
      && d2f.Length == mobmat.Length == localDmat.Length == n * n
      && localDmat != d2f && localDmat != mobmat && d2f != mobmat
    }

    constructor (n: nat)
      ensures Valid() && this.n == n && fresh(d2f) && fresh(mobmat) && fresh(localDmat)
    {
      this.n := n;
      d2f := new real[n * n];
      mobmat := new real[n * n];
      localDmat := new real[n * n];
    }

    // What a strategy writes to a work array.
    method Fill(a: array<real>, x: Row)
      requires a.Length == |x|
      modifies a
      ensures a[..] == x
    {
      for i := 0 to |x|
        invariant a[..i] == x[..i]
      {
        a[i] := x[i];
      }
    }

    /** For any number of compositions, and whatever the energy and mobility strategies return. */
    method ComputeLocalDiffusionMatrix(temp: real, c: Row, energy: (real, Row) -> Row, mobility: (Row, real) -> Row)
      requires Valid() && |c| == n && |energy(temp, c)| == |mobility(c, temp)| == n * n
      modifies d2f, mobmat, localDmat
      ensures forall k: nat, i: nat :: k < n && i < n ==>
        Flat(n, i, k) < localDmat.Length && localDmat[Flat(n, i, k)] == Product(n, mobility(c, temp), energy(temp, c), k, i)
    {
      hide Product, Flat;
      Fill(d2f, energy(temp, c));
      Fill(mobmat, mobility(c, temp));
      SmallMatMult(n, mobmat, d2f, localDmat);
    }

    method ComputeSecondDerivative(rt: real, p: TernaryPhase, c0: real, c1: real)
      requires Valid() && n == 2
      modifies d2f
      ensures d2f[..] == Entries(Hessian(rt, p, c0, c1))
    {
      hide FIdealMixAA, FIdealMixAB, FIdealMixBB, MixAA, MixAB, MixBA, MixBB;
      var deriv1, deriv2 := new real[4], new real[4];
      FIdealMixDeriv2Ternary(rt, c0, c1, deriv1);
      FMixDeriv2Ternary(p.k, c0, c1, deriv2);
      CrossTermsAgree(p.k, c0, c1);
      assert forall k :: 0 <= k < 4 ==> deriv1[k] == deriv1[..][k];
      d2f[0] := deriv1[0] + deriv2[0];
      d2f[1] := deriv1[1] + deriv2[1];
      d2f[2] := deriv1[2] + deriv2[2];
      d2f[3] := deriv1[3] + deriv2[3];
    }

    /** For a ternary phase, with the strategies written out. */
    method ComputeTernaryDiffusionMatrix(rt: real, temp: real, p: TernaryPhase, c0: real, c1: real, atomic: seq<AtomicMobility>)
      requires Valid() && n == 2 && |atomic| == 3
      modifies d2f, mobmat, localDmat
      ensures localDmat[..] == DiffusionMatrix(Mobility(AlloyAt(c0, c1, temp, atomic)), Hessian(rt, p, c0, c1))
      ensures forall m {:trigger IdealAlloy(p, c0, c1, temp, atomic, m)} :: IdealAlloy(p, c0, c1, temp, atomic, m) ==>
        localDmat[..] == [m * rt * 1000000000000.0, 0.0, 0.0, m * rt * 1000000000000.0]
    {
      hide Mobility, Hessian, DiffusionMatrix, Product, Flat, AlloyAt, IdealAlloy;
      ComputeSecondDerivative(rt, p, c0, c1);
      ComputeDiffusionMobilityTernaryPhase(c0, c1, temp, atomic, mobmat);
      SmallMatMult(2, mobmat, d2f, localDmat);
      ghost var m, h := Mobility(AlloyAt(c0, c1, temp, atomic)), Hessian(rt, p, c0, c1);
      assert mobmat[..] == Entries(m);
      FlatIs(2, 0, 0);
      FlatIs(2, 1, 0);
      FlatIs(2, 0, 1);
      FlatIs(2, 1, 1);
      FourEntries(m, h, localDmat[..]);
      EveryIdealAlloy(rt, temp, p, c0, c1, atomic);
    }
  }

  predicate Definite(h: Sym) {
    h.xx > 0.0 && h.Det() > 0.0
  }

  function Trace(d: Row): real
    requires |d| == 4
  {
    d[0] + d[3]
  }

  function DetOf(d: Row): real
    requires |d| == 4
  {
    d[0] * d[3] - d[1] * d[2]
  }

  lemma ProductDeterminant(m: Sym, h: Sym)
    ensures DetOf(DiffusionMatrix(m, h)) == m.Det() * h.Det()
    ensures Trace(DiffusionMatrix(m, h)) == m.xx * h.xx + 2.0 * (m.xy * h.xy) + m.yy * h.yy
  {}

  // h.xx times the trace is the form of m at the first row of h, plus a non-negative rest.
  lemma TraceNonNegative(p: real, q: real, r: real, a: real, b: real, c: real)
    requires p * (a * a) + 2.0 * (q * (a * b)) + r * (b * b) >= 0.0 && r >= 0.0
    requires a > 0.0 && a * c - b * b > 0.0
    ensures p * a + 2.0 * (q * b) + r * c >= 0.0
  {
    var t := p * a + 2.0 * (q * b) + r * c;
    NonNegativeProduct(r, a * c - b * b);
    assert a * t == (p * (a * a) + 2.0 * (q * (a * b)) + r * (b * b)) + r * (a * c - b * b);
    PositiveFactor(a, t);
  }

  lemma PositiveFactor(a: real, t: real)
    requires a > 0.0 && a * t >= 0.0
    ensures t >= 0.0
  {}

  // a c (trace^2 - 4 det) is a sum of two squares with non-negative weights.
  lemma DiscriminantIdentity(p: real, q: real, r: real, a: real, b: real, c: real)
    ensures (a * c) * ((p * a + 2.0 * (q * b) + r * c) * (p * a + 2.0 * (q * b) + r * c) - 4.0 * ((p * r - q * q) * (a * c - b * b)))
      == (2.0 * (a * c * q) + b * (p * a + r * c)) * (2.0 * (a * c * q) + b * (p * a + r * c))
        + (a * c - b * b) * ((p * a - r * c) * (p * a - r * c))
  {}

  lemma DiscriminantNonNegative(p: real, q: real, r: real, a: real, b: real, c: real, t: real, d: real)
    requires a > 0.0 && a * c - b * b > 0.0
    requires t == p * a + 2.0 * (q * b) + r * c && d == (p * r - q * q) * (a * c - b * b)
    ensures t * t - 4.0 * d >= 0.0
  {
    DiscriminantIdentity(p, q, r, a, b, c);
    NonNegativeSquare(b);
    NonNegativeSquare(2.0 * (a * c * q) + b * (p * a + r * c));
    NonNegativeSquare(p * a - r * c);
    NonNegativeProduct(a * c - b * b, (p * a - r * c) * (p * a - r * c));
    PositiveFactor(a * c, t * t - 4.0 * d);
  }

  /**
   The diffusion matrix of a phase with a positive definite Hessian has two real eigenvalues, and no
   negative one: trace >= 0, determinant >= 0 and trace^2 >= 4 determinant.
   */
  lemma DiffusionSpectrum(a: Alloy, h: Sym)
    requires a.InSimplex() && a.Mobile() && Definite(h)
    ensures var d := DiffusionMatrix(Mobility(a), h);
      && Trace(d) >= 0.0 && DetOf(d) >= 0.0 && Trace(d) * Trace(d) >= 4.0 * DetOf(d)
      && forall x {:trigger NoEigenvalue(d, x)} :: x < 0.0 ==> NoEigenvalue(d, x)
  {
    hide Mobility, DiffusionMatrix, Trace, DetOf, NoEigenvalue, Alloy.InSimplex, Alloy.Mobile;
    var m := Mobility(a);
    var d := DiffusionMatrix(m, h);
    MobilitySemidefinite(a, h.xx, h.xy);
    ProductDeterminant(m, h);
    TraceNonNegative(m.xx, m.xy, m.yy, h.xx, h.xy, h.yy);
    NonNegativeProduct(m.Det(), h.Det());
    DiscriminantNonNegative(m.xx, m.xy, m.yy, h.xx, h.xy, h.yy, Trace(d), DetOf(d));
    forall x | x < 0.0
      ensures NoEigenvalue(d, x)
    {
      NegativeIsNoRoot(d, x);
    }
  }

  // det(D - x I) != 0.
  predicate NoEigenvalue(d: Row, x: real)
    requires |d| == 4
  {
    (d[0] - x) * (d[3] - x) - d[1] * d[2] != 0.0
  }

  lemma NegativeIsNoRoot(d: Row, x: real)
    requires |d| == 4 && Trace(d) >= 0.0 && DetOf(d) >= 0.0 && x < 0.0
    ensures NoEigenvalue(d, x)
  {
    NoNegativeRoot(d[0], d[1], d[2], d[3], -x);
  }

  lemma NoNegativeRoot(a: real, b: real, c: real, e: real, y: real)
    requires a + e >= 0.0 && a * e - b * c >= 0.0 && y > 0.0
    ensures (a + y) * (e + y) - b * c > 0.0
  {
    var t := a + e;
    var s := ScaledTrace(t, y);
    Shifted(a, e, t, y, s);
  }

  lemma ScaledTrace(t: real, y: real) returns (s: real)
    requires t >= 0.0 && y > 0.0
    ensures s > 0.0 && s == (t + y) * y
  {
    s := (t + y) * y;
    PositiveProduct(t + y, y);
  }

  lemma Shifted(a: real, e: real, t: real, y: real, s: real)
    requires t == a + e && s == (t + y) * y
    ensures (a + y) * (e + y) == a * e + s
  {}

  /** The matrix that multiplies the mobility holds the second partial derivatives of the phase energy. */
  lemma HessianExact(ln: real -> real, rt: real, p: TernaryPhase, c0: real, c1: real)
    requires IsLog(ln)
    ensures HasDeriv(t => Energy3(ln, rt, p, t, c1), c0, SlopeA(ln, rt, p, c0, c1))
    ensures HasDeriv(t => Energy3(ln, rt, p, c0, t), c1, SlopeB(ln, rt, p, c0, c1))
    ensures HasDeriv(t => SlopeA(ln, rt, p, t, c1), c0, Hessian(rt, p, c0, c1).xx)
    ensures HasDeriv(t => SlopeA(ln, rt, p, c0, t), c1, Hessian(rt, p, c0, c1).xy)
    ensures HasDeriv(t => SlopeB(ln, rt, p, t, c1), c0, Hessian(rt, p, c0, c1).xy)
    ensures HasDeriv(t => SlopeB(ln, rt, p, c0, t), c1, Hessian(rt, p, c0, c1).yy)
  {
    hide HasDeriv, IsLog, Energy3, SlopeA, SlopeB, CurvatureAA, CurvatureAB, CurvatureBB;
    TernaryEnergyExact(ln, rt, p, c0, c1);
    TernarySlopesExact(ln, rt, p, c0, c1);
  }

  const NO_INTERACTION: Interaction :=
    Interaction(R.RK(0.0, 0.0, 0.0, 0.0), R.RK(0.0, 0.0, 0.0, 0.0), R.RK(0.0, 0.0, 0.0, 0.0), ABC(0.0, 0.0, 0.0))

  lemma NoInteraction(cA: real, cB: real)
    ensures MixAA(NO_INTERACTION, cA, cB) == 0.0 && MixAB(NO_INTERACTION, cA, cB) == 0.0 && MixBB(NO_INTERACTION, cA, cB) == 0.0
  {}

  // The alloy of an ideal phase: no interaction, and the same mobility m for all species.
  ghost predicate IdealAlloy(p: TernaryPhase, c0: real, c1: real, temp: real, atomic: seq<AtomicMobility>, m: real) {
    && |atomic| == 3 && p.k == NO_INTERACTION && (forall k :: 0 <= k < 3 ==> atomic[k](c0, c1, 1.0 - c0 - c1, temp) == m)
    && c0 > 0.00000001 && c1 > 0.00000001 && 1.0 - c0 - c1 > 0.00000001
  }

  /** For such an alloy the diffusion matrix is m RT 1e12 times the identity. */
  lemma IdealAlloyDiffusion(rt: real, temp: real, p: TernaryPhase, c0: real, c1: real, atomic: seq<AtomicMobility>, m: real)
    requires IdealAlloy(p, c0, c1, temp, atomic, m)
    ensures DiffusionMatrix(Mobility(AlloyAt(c0, c1, temp, atomic)), Hessian(rt, p, c0, c1))
      == [m * rt * 1000000000000.0, 0.0, 0.0, m * rt * 1000000000000.0]
  {
    hide Mobility, DiffusionMatrix, FIdealMixAA, FIdealMixAB, FIdealMixBB, MixAA, MixAB, MixBB;
    NoInteraction(c0, c1);
    assert AlloyAt(c0, c1, temp, atomic) == Alloy(c0, c1, m, m, m);
    var h := Hessian(rt, p, c0, c1);
    assert h == Sym(FIdealMixAA(rt, c0, c1), FIdealMixAB(rt, c0, c1), FIdealMixBB(rt, c0, c1));
    hide Hessian, AlloyAt;
    var k := m * rt * M2_TO_UM2;
    assert k == m * rt * 1000000000000.0;
    IdealDiffusion(c0, c1, m, rt);
    var d := DiffusionMatrix(Mobility(Alloy(c0, c1, m, m, m)), h);
    assert d == [k, 0.0, 0.0, k];
  }

  lemma EveryIdealAlloy(rt: real, temp: real, p: TernaryPhase, c0: real, c1: real, atomic: seq<AtomicMobility>)
    requires |atomic| == 3
    ensures forall m {:trigger IdealAlloy(p, c0, c1, temp, atomic, m)} :: IdealAlloy(p, c0, c1, temp, atomic, m) ==>
      DiffusionMatrix(Mobility(AlloyAt(c0, c1, temp, atomic)), Hessian(rt, p, c0, c1))
      == [m * rt * 1000000000000.0, 0.0, 0.0, m * rt * 1000000000000.0]
  {
    hide *;
    forall m | IdealAlloy(p, c0, c1, temp, atomic, m)
      ensures DiffusionMatrix(Mobility(AlloyAt(c0, c1, temp, atomic)), Hessian(rt, p, c0, c1))
        == [m * rt * 1000000000000.0, 0.0, 0.0, m * rt * 1000000000000.0]
    {
      IdealAlloyDiffusion(rt, temp, p, c0, c1, atomic, m);
    }
  }

  /** With equal atomic mobilities m and an ideal solution, the matrix is m RT 1e12 times the identity. */
  lemma IdealDiffusion(c0: real, c1: real, m: real, rt: real)
    requires c0 > SMALL_X && c1 > SMALL_X && 1.0 - c0 - c1 > SMALL_X
    ensures var k := m * rt * M2_TO_UM2;
      DiffusionMatrix(Mobility(Alloy(c0, c1, m, m, m)), Sym(FIdealMixAA(rt, c0, c1), FIdealMixAB(rt, c0, c1), FIdealMixBB(rt, c0, c1)))
      == [k, 0.0, 0.0, k]
  {
    hide *;
    var k := m * M2_TO_UM2;
    var u0, u1, u2, h := IdealHessian(c0, c1, rt);
    var q := EqualMobilities(c0, c1, m, k);
    IdealProduct(c0, c1, k, rt, u0, u1, u2, q.xx, q.xy, q.yy, h.xx, h.xy, h.yy, m * rt * M2_TO_UM2);
  }

  lemma IdealHessian(c0: real, c1: real, rt: real) returns (u0: real, u1: real, u2: real, h: Sym)
    requires c0 > SMALL_X && c1 > SMALL_X && 1.0 - c0 - c1 > SMALL_X
    ensures c0 * u0 == 1.0 && c1 * u1 == 1.0 && (1.0 - c0 - c1) * u2 == 1.0
    ensures h == Sym(FIdealMixAA(rt, c0, c1), FIdealMixAB(rt, c0, c1), FIdealMixBB(rt, c0, c1))
    ensures h.xx == rt * (u0 + u2) && h.xy == rt * u2 && h.yy == rt * (u1 + u2)
  {
    hide XLogXDeriv2;
    u0, u1, u2 := XLogXDeriv2(c0), XLogXDeriv2(c1), XLogXDeriv2(1.0 - c0 - c1);
    h := Sym(FIdealMixAA(rt, c0, c1), FIdealMixAB(rt, c0, c1), FIdealMixBB(rt, c0, c1));
    InverseOf(c0);
    InverseOf(c1);
    InverseOf(1.0 - c0 - c1);
  }

  lemma InverseOf(x: real)
    requires x > SMALL_X
    ensures x * XLogXDeriv2(x) == 1.0
  {}

  lemma EqualMobilities(c0: real, c1: real, m: real, k: real) returns (q: Sym)
    requires k == m * M2_TO_UM2
    ensures q == Mobility(Alloy(c0, c1, m, m, m))
    ensures q.xx == k * (c0 * (1.0 - c0)) && q.xy == -k * (c0 * c1) && q.yy == k * (c1 * (1.0 - c1))
  {
    hide MobilityXX, MobilityXY, MobilityYY;
    q := Mobility(Alloy(c0, c1, m, m, m));
    EqualEntries(c0, c1, m);
  }

  lemma EqualEntries(c0: real, c1: real, m: real)
    ensures MobilityXX(c0, c1, 1.0 - c0 - c1, m, m, m) == m * (c0 * (1.0 - c0))
    ensures MobilityXY(c0, c1, 1.0 - c0 - c1, m, m, m) == -m * (c0 * c1)
    ensures MobilityYY(c0, c1, 1.0 - c0 - c1, m, m, m) == m * (c1 * (1.0 - c1))
  {}

  lemma IdealProduct(c0: real, c1: real, k: real, rt: real, u0: real, u1: real, u2: real,
                     xx: real, xy: real, yy: real, hxx: real, hxy: real, hyy: real, d: real)
    requires c0 * u0 == 1.0 && c1 * u1 == 1.0 && (1.0 - c0 - c1) * u2 == 1.0 && d == k * rt
    requires xx == k * (c0 * (1.0 - c0)) && xy == -k * (c0 * c1) && yy == k * (c1 * (1.0 - c1))
    requires hxx == rt * (u0 + u2) && hxy == rt * u2 && hyy == rt * (u1 + u2)
    ensures DiffusionMatrix(Sym(xx, xy, yy), Sym(hxx, hxy, hyy)) == [d, 0.0, 0.0, d]
  {
    hide Pairing;
    IdealRow(c0, c1, k, rt, u0, u2, xx, xy, hxx, hxy);
    IdealRow(c1, c0, k, rt, u1, u2, yy, xy, hyy, hxy);
    IdealCross(c0, c1, k, rt, u1, u2, xx, xy, hyy, hxy);
    IdealCross(c1, c0, k, rt, u0, u2, yy, xy, hxx, hxy);
  }

  lemma IdealRow(c0: real, c1: real, k: real, rt: real, u0: real, u2: real, xx: real, xy: real, hxx: real, hxy: real)
    requires c0 * u0 == 1.0 && (1.0 - c0 - c1) * u2 == 1.0
    requires xx == k * (c0 * (1.0 - c0)) && xy == -k * (c0 * c1) && hxx == rt * (u0 + u2) && hxy == rt * u2
    ensures Pairing(xx, xy, hxx, hxy) == k * rt && Pairing(xy, xx, hxy, hxx) == k * rt
  {
    RowIdentity(c0, c1, k, rt, u0, u2);
    UnitMix(c0, c0 * u0, (1.0 - c0 - c1) * u2);
    assert Pairing(xx, xy, hxx, hxy) == (k * rt) * ((1.0 - c0) * (c0 * u0) + c0 * ((1.0 - c0 - c1) * u2));
  }

  lemma UnitMix(c: real, x: real, y: real)
    requires x == 1.0 && y == 1.0
    ensures (1.0 - c) * x + c * y == 1.0 && c * y - c * x == 0.0
  {}

  lemma RowIdentity(c0: real, c1: real, k: real, rt: real, u0: real, u2: real)
    ensures k * (c0 * (1.0 - c0)) * (rt * (u0 + u2)) + -k * (c0 * c1) * (rt * u2)
      == (k * rt) * ((1.0 - c0) * (c0 * u0) + c0 * ((1.0 - c0 - c1) * u2))
  {}

  lemma IdealCross(c0: real, c1: real, k: real, rt: real, u1: real, u2: real, xx: real, xy: real, hyy: real, hxy: real)
    requires c1 * u1 == 1.0 && (1.0 - c0 - c1) * u2 == 1.0
    requires xx == k * (c0 * (1.0 - c0)) && xy == -k * (c0 * c1) && hyy == rt * (u1 + u2) && hxy == rt * u2
    ensures Pairing(xx, xy, hxy, hyy) == 0.0 && Pairing(xy, xx, hyy, hxy) == 0.0
  {
    CrossIdentity(c0, c1, k, rt, u1, u2);
    UnitMix(c0, c1 * u1, (1.0 - c0 - c1) * u2);
  }

  lemma CrossIdentity(c0: real, c1: real, k: real, rt: real, u1: real, u2: real)
    ensures k * (c0 * (1.0 - c0)) * (rt * u2) + -k * (c0 * c1) * (rt * (u1 + u2))
      == (k * rt) * (c0 * ((1.0 - c0 - c1) * u2) - c0 * (c1 * u1))
  {}
}
