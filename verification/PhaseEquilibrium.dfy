/**
 What a zero of the two-phase systems means, for any pair of strictly convex phase energies:
 uniqueness and energy minimality of the partition, and the common tangent.  Energies enter as
 functions f with derivative df; convexity is the tangent inequality on a domain of compositions.
 */
module PhaseEquilibrium {
  import opened RealFacts

  // ----- one independent composition -----

  ghost predicate StrictlyConvex(f: real -> real, df: real -> real, dom: real -> bool) {
    forall x, y :: dom(x) && dom(y) && x != y ==> f(y) > f(x) + df(x) * (y - x)
  }

  lemma AboveTangent(f: real -> real, df: real -> real, dom: real -> bool, x: real, y: real)
    requires StrictlyConvex(f, df, dom) && dom(x) && dom(y)
    ensures f(y) >= f(x) + df(x) * (y - x)
    ensures x != y ==> f(y) > f(x) + df(x) * (y - x)
  {
    if x == y {
      assert df(x) * (y - x) == 0.0;
    }
  }

  lemma SlopesIncrease(f: real -> real, df: real -> real, dom: real -> bool, x: real, y: real)
    requires StrictlyConvex(f, df, dom) && dom(x) && dom(y) && x != y
    ensures (df(y) - df(x)) * (y - x) > 0.0
  {
    hide StrictlyConvex;
    AboveTangent(f, df, dom, x, y);
    AboveTangent(f, df, dom, y, x);
    assert (df(y) - df(x)) * (y - x) == -(df(x) * (y - x)) - df(y) * (x - y);
  }

  /** At most one pair of compositions has the given average and equal slopes, for every fraction h in [0, 1]. */
  lemma PartitionUnique(fL: real -> real, dL: real -> real, fS: real -> real, dS: real -> real, dom: real -> bool,
                        h: real, a: real, b: real, a': real, b': real)
    requires StrictlyConvex(fL, dL, dom) && StrictlyConvex(fS, dS, dom) && 0.0 <= h <= 1.0
    requires dom(a) && dom(b) && dom(a') && dom(b')
    requires dL(a) == dS(b) && dL(a') == dS(b')
    requires (1.0 - h) * a + h * b == (1.0 - h) * a' + h * b'
    ensures a == a' && b == b'
  {
    hide StrictlyConvex;
    if a != a' {
      SlopesIncrease(fL, dL, dom, a, a');
    }
    if b != b' {
      SlopesIncrease(fS, dS, dom, b, b');
    }
    SameSign(h, a' - a, b' - b, dL(a') - dL(a));
  }

  lemma SameSign(h: real, u: real, v: real, d: real)
    requires 0.0 <= h <= 1.0 && (1.0 - h) * u + h * v == 0.0
    requires if u == 0.0 then d == 0.0 else d * u > 0.0
    requires if v == 0.0 then d == 0.0 else d * v > 0.0
    ensures u == 0.0 && v == 0.0
  {
    if u != 0.0 || v != 0.0 {
      assert d * u > 0.0 && d * v > 0.0;
      assert (1.0 - h) * (d * u) + h * (d * v) == d * ((1.0 - h) * u + h * v) == 0.0;
      PositiveMix(h, d * u, d * v);
      assert false;
    }
  }

  lemma PositiveMix(h: real, p: real, q: real)
    requires 0.0 <= h <= 1.0 && p > 0.0 && q > 0.0
    ensures (1.0 - h) * p + h * q > 0.0
  {
    if h == 0.0 {
    } else {
      assert (1.0 - h) * p >= 0.0 && h * q > 0.0;
    }
  }

  /** A partition with equal slopes has the least energy among all pairs of the same average composition. */
  lemma PartitionMinimal(fL: real -> real, dL: real -> real, fS: real -> real, dS: real -> real, dom: real -> bool,
                         h: real, a: real, b: real, a': real, b': real)
    requires StrictlyConvex(fL, dL, dom) && StrictlyConvex(fS, dS, dom) && 0.0 <= h <= 1.0
    requires dom(a) && dom(b) && dom(a') && dom(b') && dL(a) == dS(b)
    requires (1.0 - h) * a + h * b == (1.0 - h) * a' + h * b'
    ensures (1.0 - h) * fL(a') + h * fS(b') >= (1.0 - h) * fL(a) + h * fS(b)
    ensures 0.0 < h < 1.0 && (a != a' || b != b') ==> (1.0 - h) * fL(a') + h * fS(b') > (1.0 - h) * fL(a) + h * fS(b)
  {
    hide StrictlyConvex;
    AboveTangent(fL, dL, dom, a, a');
    AboveTangent(fS, dS, dom, b, b');
    AverageOut(h, dL(a), a' - a, b' - b);
    MixBound(h, fL(a), fS(b), fL(a'), fS(b'), dL(a) * (a' - a), dL(a) * (b' - b), a != a' || b != b');
  }

  // The same with the four energies given by name.
  lemma PartitionMinimalAt(fL: real -> real, dL: real -> real, fS: real -> real, dS: real -> real, dom: real -> bool,
                           h: real, a: real, b: real, a': real, b': real, u: real, v: real, u': real, v': real)
    requires StrictlyConvex(fL, dL, dom) && StrictlyConvex(fS, dS, dom) && 0.0 <= h <= 1.0
    requires dom(a) && dom(b) && dom(a') && dom(b') && dL(a) == dS(b)
    requires (1.0 - h) * a + h * b == (1.0 - h) * a' + h * b'
    requires u == fL(a) && v == fS(b) && u' == fL(a') && v' == fS(b')
    ensures (1.0 - h) * u' + h * v' >= (1.0 - h) * u + h * v
  {
    hide StrictlyConvex;
    PartitionMinimal(fL, dL, fS, dS, dom, h, a, b, a', b');
  }

  lemma AverageOut(h: real, m: real, u: real, v: real)
    requires (1.0 - h) * u + h * v == 0.0
    ensures (1.0 - h) * (m * u) + h * (m * v) == 0.0
  {
    assert (1.0 - h) * (m * u) + h * (m * v) == m * ((1.0 - h) * u + h * v);
  }

  // p and q are lower bounds up to offsets u and v that average out.
  lemma MixBound(h: real, p: real, q: real, p': real, q': real, u: real, v: real, strict: bool)
    requires 0.0 <= h <= 1.0 && (1.0 - h) * u + h * v == 0.0
    requires p' >= p + u && q' >= q + v
    requires strict ==> p' > p + u || q' > q + v
    ensures (1.0 - h) * p' + h * q' >= (1.0 - h) * p + h * q
    ensures 0.0 < h < 1.0 && strict ==> (1.0 - h) * p' + h * q' > (1.0 - h) * p + h * q
  {
    var s, t := p' - p - u, q' - q - v;
    assert (1.0 - h) * p' + h * q' == (1.0 - h) * p + h * q + ((1.0 - h) * s + h * t) + ((1.0 - h) * u + h * v);
    Weighted(h, s, t);
  }

  lemma Weighted(h: real, s: real, t: real)
    requires 0.0 <= h <= 1.0 && s >= 0.0 && t >= 0.0
    ensures (1.0 - h) * s + h * t >= 0.0
    ensures 0.0 < h < 1.0 && (s > 0.0 || t > 0.0) ==> (1.0 - h) * s + h * t > 0.0
  {
    NonNegativeProduct(1.0 - h, s);
    NonNegativeProduct(h, t);
    if 0.0 < h < 1.0 && s > 0.0 {
      PositiveProduct(1.0 - h, s);
    } else if 0.0 < h < 1.0 && t > 0.0 {
      PositiveProduct(h, t);
    }
  }

  // ----- the common tangent -----

  // The two rows of the equilibrium system at (a, b).
  ghost predicate EquilibriumZero(fL: real -> real, dL: real -> real, fS: real -> real, dS: real -> real, a: real, b: real) {
    && fL(a) - fS(b) - (a - b) * dS(b) == 0.0
    && dL(a) - dS(b) == 0.0
  }

  // The line m c + k touches both energies, at a and at b.
  ghost predicate CommonTangent(fL: real -> real, dL: real -> real, fS: real -> real, dS: real -> real,
                                a: real, b: real, m: real, k: real)
  {
    fL(a) == m * a + k && dL(a) == m && fS(b) == m * b + k && dS(b) == m
  }

  ghost predicate HasCommonTangent(fL: real -> real, dL: real -> real, fS: real -> real, dS: real -> real, a: real, b: real) {
    exists m, k :: CommonTangent(fL, dL, fS, dS, a, b, m, k)
  }

  /** The rows vanish exactly when the two energies have a common tangent there, however they are paired. */
  lemma ZeroIffTangent(fL: real -> real, dL: real -> real, fS: real -> real, dS: real -> real, a: real, b: real)
    ensures EquilibriumZero(fL, dL, fS, dS, a, b) <==> HasCommonTangent(fL, dL, fS, dS, a, b)
    ensures EquilibriumZero(fL, dL, fS, dS, a, b) <==> EquilibriumZero(fS, dS, fL, dL, b, a)
  {
    var m, k := dS(b), fS(b) - dS(b) * b;
    if EquilibriumZero(fL, dL, fS, dS, a, b) {
      assert (a - b) * m == m * a - m * b;
      assert CommonTangent(fL, dL, fS, dS, a, b, m, k);
    }
    if HasCommonTangent(fL, dL, fS, dS, a, b) {
      var m', k' :| CommonTangent(fL, dL, fS, dS, a, b, m', k');
      assert (a - b) * m' == m' * a - m' * b;
    }
    assert (b - a) * dL(a) == -((a - b) * dL(a));
  }

  /** With convex energies a zero of the system gives a split of least energy, over all fractions and compositions. */
  lemma EquilibriumMinimal(fL: real -> real, dL: real -> real, fS: real -> real, dS: real -> real, dom: real -> bool,
                           a: real, b: real, h: real, a': real, b': real, h': real)
    requires StrictlyConvex(fL, dL, dom) && StrictlyConvex(fS, dS, dom) && 0.0 <= h' <= 1.0
    requires dom(a) && dom(b) && dom(a') && dom(b') && EquilibriumZero(fL, dL, fS, dS, a, b)
    requires (1.0 - h) * a + h * b == (1.0 - h') * a' + h' * b'
    ensures (1.0 - h') * fL(a') + h' * fS(b') >= (1.0 - h) * fL(a) + h * fS(b)
  {
    hide StrictlyConvex, EquilibriumZero, CommonTangent;
    ZeroIffTangent(fL, dL, fS, dS, a, b);
    var m, k :| CommonTangent(fL, dL, fS, dS, a, b, m, k);
    TangentBelow(fL, dL, fS, dS, dom, a, b, m, k, a', b');
    OnLine(h, a, b, m, k);
    OnLine(h', a', b', m, k);
    WeightedLe(h', m * a' + k, m * b' + k, fL(a'), fS(b'));
    TangentValues(fL, dL, fS, dS, a, b, m, k);
  }

  lemma TangentValues(fL: real -> real, dL: real -> real, fS: real -> real, dS: real -> real,
                      a: real, b: real, m: real, k: real)
    requires CommonTangent(fL, dL, fS, dS, a, b, m, k)
    ensures fL(a) == m * a + k && fS(b) == m * b + k
  {}

  lemma TangentBelow(fL: real -> real, dL: real -> real, fS: real -> real, dS: real -> real, dom: real -> bool,
                     a: real, b: real, m: real, k: real, a': real, b': real)
    requires StrictlyConvex(fL, dL, dom) && StrictlyConvex(fS, dS, dom)
    requires dom(a) && dom(b) && dom(a') && dom(b') && CommonTangent(fL, dL, fS, dS, a, b, m, k)
    ensures m * a' + k <= fL(a') && m * b' + k <= fS(b')
  {
    hide StrictlyConvex;
    AboveTangent(fL, dL, dom, a, a');
    AboveTangent(fS, dS, dom, b, b');
  }

  lemma OnLine(h: real, a: real, b: real, m: real, k: real)
    ensures (1.0 - h) * (m * a + k) + h * (m * b + k) == m * ((1.0 - h) * a + h * b) + k
  {}

  lemma WeightedLe(h: real, p: real, q: real, p': real, q': real)
    requires 0.0 <= h <= 1.0 && p <= p' && q <= q'
    ensures (1.0 - h) * p + h * q <= (1.0 - h) * p' + h * q'
  {
    assert (1.0 - h) * (p' - p) >= 0.0 && h * (q' - q) >= 0.0;
  }

  // ----- two independent compositions -----

  /** Two compositions, or the two slopes of an energy at them. */
  datatype Point = Point(a: real, b: real)

  function Along(g: Point, x: Point, y: Point): real {
    g.a * (y.a - x.a) + g.b * (y.b - x.b)
  }

  ghost predicate StrictlyConvex2(f: Point -> real, df: Point -> Point, dom: Point -> bool) {
    forall x, y :: dom(x) && dom(y) && x != y ==> f(y) > f(x) + Along(df(x), x, y)
  }

  // (1 - h) x + h y == (1 - h) x' + h y'.
  predicate SameAverage(h: real, x: Point, y: Point, h': real, x': Point, y': Point) {
    && (1.0 - h) * x.a + h * y.a == (1.0 - h') * x'.a + h' * y'.a
    && (1.0 - h) * x.b + h * y.b == (1.0 - h') * x'.b + h' * y'.b
  }

  lemma AboveTangent2(f: Point -> real, df: Point -> Point, dom: Point -> bool, x: Point, y: Point)
    requires StrictlyConvex2(f, df, dom) && dom(x) && dom(y)
    ensures f(y) >= f(x) + Along(df(x), x, y)
    ensures x != y ==> f(y) > f(x) + Along(df(x), x, y)
  {
    if x == y {
      assert df(x).a * (y.a - x.a) == 0.0 && df(x).b * (y.b - x.b) == 0.0;
    }
  }

  lemma SlopesIncrease2(f: Point -> real, df: Point -> Point, dom: Point -> bool, x: Point, y: Point)
    requires StrictlyConvex2(f, df, dom) && dom(x) && dom(y) && x != y
    ensures Along(df(y), x, y) > Along(df(x), x, y)
  {
    hide StrictlyConvex2;
    AboveTangent2(f, df, dom, x, y);
    AboveTangent2(f, df, dom, y, x);
    AlongBack(df(y), x, y);
  }

  lemma AlongBack(g: Point, x: Point, y: Point)
    ensures Along(g, y, x) == -Along(g, x, y)
  {}

  lemma AlongAverage(h: real, g: Point, x: Point, y: Point, x': Point, y': Point)
    requires SameAverage(h, x, y, h, x', y')
    ensures (1.0 - h) * Along(g, x, x') + h * Along(g, y, y') == 0.0
  {
    AverageOut(h, g.a, x'.a - x.a, y'.a - y.a);
    AverageOut(h, g.b, x'.b - x.b, y'.b - y.b);
    MeanOfSums(h, g.a * (x'.a - x.a), g.b * (x'.b - x.b), g.a * (y'.a - y.a), g.b * (y'.b - y.b));
  }

  lemma MeanOfSums(h: real, p: real, q: real, r: real, s: real)
    ensures (1.0 - h) * (p + q) + h * (r + s) == ((1.0 - h) * p + h * r) + ((1.0 - h) * q + h * s)
  {}

  /** At most one pair of compositions has the given average and equal slopes. */
  lemma PartitionUnique2(fL: Point -> real, dL: Point -> Point, fS: Point -> real, dS: Point -> Point, dom: Point -> bool,
                         h: real, x: Point, y: Point, x': Point, y': Point)
    requires StrictlyConvex2(fL, dL, dom) && StrictlyConvex2(fS, dS, dom) && 0.0 <= h <= 1.0
    requires dom(x) && dom(y) && dom(x') && dom(y')
    requires dL(x) == dS(y) && dL(x') == dS(y') && SameAverage(h, x, y, h, x', y')
    ensures x == x' && y == y'
  {
    hide StrictlyConvex2, Along, SameAverage;
    var g, g' := dL(x), dL(x');
    AlongAverage(h, g, x, y, x', y');
    AlongAverage(h, g', x, y, x', y');
    var u, v := Along(g', x, x') - Along(g, x, x'), Along(g', y, y') - Along(g, y, y');
    Subtract(h, Along(g', x, x'), Along(g', y, y'), Along(g, x, x'), Along(g, y, y'));
    if x != x' {
      SlopesIncrease2(fL, dL, dom, x, x');
    }
    if y != y' {
      SlopesIncrease2(fS, dS, dom, y, y');
    }
    BothZero(h, u, v, x != x', y != y');
  }

  lemma Subtract(h: real, p: real, q: real, r: real, s: real)
    requires (1.0 - h) * p + h * q == 0.0 && (1.0 - h) * r + h * s == 0.0
    ensures (1.0 - h) * (p - r) + h * (q - s) == 0.0
  {}

  lemma BothZero(h: real, u: real, v: real, movedX: bool, movedY: bool)
    requires 0.0 <= h <= 1.0 && (1.0 - h) * u + h * v == 0.0
    requires if movedX then u > 0.0 else u == v == 0.0
    requires if movedY then v > 0.0 else u == v == 0.0
    ensures !movedX && !movedY
  {
    if movedX && movedY {
      PositiveMix(h, u, v);
      assert false;
    }
  }

  /** A partition with equal slopes has the least energy among all pairs of the same average composition. */
  lemma PartitionMinimal2(fL: Point -> real, dL: Point -> Point, fS: Point -> real, dS: Point -> Point, dom: Point -> bool,
                          h: real, x: Point, y: Point, x': Point, y': Point)
    requires StrictlyConvex2(fL, dL, dom) && StrictlyConvex2(fS, dS, dom) && 0.0 <= h <= 1.0
    requires dom(x) && dom(y) && dom(x') && dom(y') && dL(x) == dS(y) && SameAverage(h, x, y, h, x', y')
    ensures (1.0 - h) * fL(x') + h * fS(y') >= (1.0 - h) * fL(x) + h * fS(y)
    ensures 0.0 < h < 1.0 && (x != x' || y != y') ==> (1.0 - h) * fL(x') + h * fS(y') > (1.0 - h) * fL(x) + h * fS(y)
  {
    hide StrictlyConvex2, Along, SameAverage;
    AboveTangent2(fL, dL, dom, x, x');
    AboveTangent2(fS, dS, dom, y, y');
    AlongAverage(h, dL(x), x, y, x', y');
    MixBound(h, fL(x), fS(y), fL(x'), fS(y'), Along(dL(x), x, x'), Along(dL(x), y, y'), x != x' || y != y');
  }

  // The three rows of the ternary equilibrium system at (x, y); row 0 uses the slopes of the first phase.
  ghost predicate EquilibriumZero2(fL: Point -> real, dL: Point -> Point, fS: Point -> real, dS: Point -> Point,
                                   x: Point, y: Point)
  {
    && fL(x) - fS(y) - (x.a - y.a) * dL(x).a - (x.b - y.b) * dL(x).b == 0.0
    && dL(x).a - dS(y).a == 0.0 && dL(x).b - dS(y).b == 0.0
  }

  function Plane(m: Point, k: real, x: Point): real {
    m.a * x.a + m.b * x.b + k
  }

  // The plane (m, k) touches both energies, at x and at y.
  ghost predicate CommonPlane(fL: Point -> real, dL: Point -> Point, fS: Point -> real, dS: Point -> Point,
                              x: Point, y: Point, m: Point, k: real)
  {
    fL(x) == Plane(m, k, x) && dL(x) == m && fS(y) == Plane(m, k, y) && dS(y) == m
  }

  ghost predicate HasCommonPlane(fL: Point -> real, dL: Point -> Point, fS: Point -> real, dS: Point -> Point, x: Point, y: Point) {
    exists m, k :: CommonPlane(fL, dL, fS, dS, x, y, m, k)
  }

  /** The rows vanish exactly when the two energies have a common tangent plane there, however they are paired. */
  lemma ZeroIffPlane(fL: Point -> real, dL: Point -> Point, fS: Point -> real, dS: Point -> Point, x: Point, y: Point)
    ensures EquilibriumZero2(fL, dL, fS, dS, x, y) <==> HasCommonPlane(fL, dL, fS, dS, x, y)
    ensures EquilibriumZero2(fL, dL, fS, dS, x, y) <==> EquilibriumZero2(fS, dS, fL, dL, y, x)
  {
    hide Plane;
    var m := dL(x);
    var k := PlaneThrough(m, x, fL(x));
    if EquilibriumZero2(fL, dL, fS, dS, x, y) {
      assert dS(y) == m;
      PlaneTouches(m, x, y, k, fL(x), fS(y));
      assert CommonPlane(fL, dL, fS, dS, x, y, m, k);
    }
    if HasCommonPlane(fL, dL, fS, dS, x, y) {
      var m', k' :| CommonPlane(fL, dL, fS, dS, x, y, m', k');
      PlaneDrop(m', x, y, k');
    }
    PlaneDrop(dS(y), x, y, k);
    PlaneDrop(dS(y), y, x, k);
  }

  lemma PlaneThrough(m: Point, x: Point, f: real) returns (k: real)
    ensures Plane(m, k, x) == f
  {
    k := f - m.a * x.a - m.b * x.b;
  }

  lemma PlaneTouches(m: Point, x: Point, y: Point, k: real, u: real, v: real)
    requires Plane(m, k, x) == u && u - v - (x.a - y.a) * m.a - (x.b - y.b) * m.b == 0.0
    ensures Plane(m, k, y) == v
  {
    PlaneDrop(m, x, y, k);
  }

  lemma PlaneDrop(m: Point, x: Point, y: Point, k: real)
    ensures Plane(m, k, x) - Plane(m, k, y) == (x.a - y.a) * m.a + (x.b - y.b) * m.b
  {
    Drop(m.a, x.a, y.a);
    Drop(m.b, x.b, y.b);
  }

  lemma Drop(m: real, x: real, y: real)
    ensures m * x - m * y == (x - y) * m
  {}

  /** With convex energies a zero of the system gives a split of least energy, over all fractions and compositions. */
  lemma EquilibriumMinimal2(fL: Point -> real, dL: Point -> Point, fS: Point -> real, dS: Point -> Point, dom: Point -> bool,
                            x: Point, y: Point, h: real, x': Point, y': Point, h': real)
    requires StrictlyConvex2(fL, dL, dom) && StrictlyConvex2(fS, dS, dom) && 0.0 <= h' <= 1.0
    requires dom(x) && dom(y) && dom(x') && dom(y') && EquilibriumZero2(fL, dL, fS, dS, x, y)
    requires SameAverage(h, x, y, h', x', y')
    ensures (1.0 - h') * fL(x') + h' * fS(y') >= (1.0 - h) * fL(x) + h * fS(y)
  {
    hide StrictlyConvex2, EquilibriumZero2, CommonPlane, Plane, SameAverage, Along;
    ZeroIffPlane(fL, dL, fS, dS, x, y);
    var m, k :| CommonPlane(fL, dL, fS, dS, x, y, m, k);
    PlaneBelow(fL, dL, fS, dS, dom, x, y, m, k, x', y');
    SamePlaneAverage(h, x, y, h', x', y', m, k);
    WeightedLe(h', Plane(m, k, x'), Plane(m, k, y'), fL(x'), fS(y'));
  }

  lemma PlaneBelow(fL: Point -> real, dL: Point -> Point, fS: Point -> real, dS: Point -> Point, dom: Point -> bool,
                   x: Point, y: Point, m: Point, k: real, x': Point, y': Point)
    requires StrictlyConvex2(fL, dL, dom) && StrictlyConvex2(fS, dS, dom)
    requires dom(x) && dom(y) && dom(x') && dom(y') && CommonPlane(fL, dL, fS, dS, x, y, m, k)
    ensures Plane(m, k, x') <= fL(x') && Plane(m, k, y') <= fS(y')
    ensures Plane(m, k, x) == fL(x) && Plane(m, k, y) == fS(y)
  {
    hide StrictlyConvex2, Along, Plane;
    AboveTangent2(fL, dL, dom, x, x');
    AboveTangent2(fS, dS, dom, y, y');
    PlaneAlong(m, k, x, x');
    PlaneAlong(m, k, y, y');
  }

  lemma PlaneAlong(m: Point, k: real, x: Point, y: Point)
    ensures Plane(m, k, y) == Plane(m, k, x) + Along(m, x, y)
  {}

  lemma SamePlaneAverage(h: real, x: Point, y: Point, h': real, x': Point, y': Point, m: Point, k: real)
    requires SameAverage(h, x, y, h', x', y')
    ensures (1.0 - h) * Plane(m, k, x) + h * Plane(m, k, y) == (1.0 - h') * Plane(m, k, x') + h' * Plane(m, k, y')
  {
    hide Plane;
    PlaneOfAverage(h, x, y, m, k, (1.0 - h) * x.a + h * y.a, (1.0 - h) * x.b + h * y.b);
    PlaneOfAverage(h', x', y', m, k, (1.0 - h) * x.a + h * y.a, (1.0 - h) * x.b + h * y.b);
  }

  lemma PlaneOfAverage(h: real, x: Point, y: Point, m: Point, k: real, a: real, b: real)
    requires a == (1.0 - h) * x.a + h * y.a && b == (1.0 - h) * x.b + h * y.b
    ensures (1.0 - h) * Plane(m, k, x) + h * Plane(m, k, y) == Plane(m, k, Point(a, b))
  {
    OnLine(h, x.a, y.a, m.a, k);
    OnLine(h, x.b, y.b, m.b, 0.0);
    MeanOfSums(h, m.a * x.a + k, m.b * x.b + 0.0, m.a * y.a + k, m.b * y.b + 0.0);
  }
}
