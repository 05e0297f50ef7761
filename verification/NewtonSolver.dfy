/**
 The damped Newton solver (source/NewtonSolver.C, source/DampedNewtonSolver.C) and the determinant
 routines it calls (source/math_utilities.C).
 */
module NewtonSolver {
  import opened RealFacts
  import opened RealSums
  import opened Determinant

  // ----- determinant routines -----

  function Determinant3(m: Matrix): real
    requires Square(m) && |m| == 3
  {
    m[0][0] * m[1][1] * m[2][2] -
    m[0][0] * m[1][2] * m[2][1] -
    m[0][1] * m[1][0] * m[2][2] +
    m[0][1] * m[1][2] * m[2][0] +
    m[0][2] * m[1][0] * m[2][1] -
    m[0][2] * m[1][1] * m[2][0]
  }

  function Determinant4(m: Matrix): real
    requires Square(m) && |m| == 4
  {
    m[0][0] * (m[1][1] * m[2][2] * m[3][3] -
               m[1][1] * m[2][3] * m[3][2] -
               m[1][2] * m[2][1] * m[3][3] +
               m[1][2] * m[2][3] * m[3][1] +
               m[1][3] * m[2][1] * m[3][2] -
               m[1][3] * m[2][2] * m[3][1])

    - m[0][1] * (m[1][0] * m[2][2] * m[3][3] -
                 m[1][0] * m[2][3] * m[3][2] -
                 m[1][2] * m[2][0] * m[3][3] +
                 m[1][2] * m[2][3] * m[3][0] +
                 m[1][3] * m[2][0] * m[3][2] -
                 m[1][3] * m[2][2] * m[3][0])

    + m[0][2] * (m[1][0] * m[2][1] * m[3][3] -
                 m[1][0] * m[2][3] * m[3][1] -
                 m[1][1] * m[2][0] * m[3][3] +
                 m[1][1] * m[2][3] * m[3][0] +
                 m[1][3] * m[2][0] * m[3][1] -
                 m[1][3] * m[2][1] * m[3][0])

    - m[0][3] * (m[1][0] * m[2][1] * m[3][2] -
                 m[1][0] * m[2][2] * m[3][1] -
                 m[1][1] * m[2][0] * m[3][2] +
                 m[1][1] * m[2][2] * m[3][0] +
                 m[1][2] * m[2][0] * m[3][1] -
                 m[1][2] * m[2][1] * m[3][0])
  }

  lemma Det1(m: Matrix)
    requires Square(m) && |m| == 1
    ensures Det(m) == m[0][0]
  {
    assert Expand(m, 1) == Expand(m, 0) + Term(m, 0);
    assert |Minor(m, 0)| == 0;
  }

  lemma Det2(m: Matrix)
    requires Square(m) && |m| == 2
    ensures Det(m) == m[0][0] * m[1][1] - m[1][0] * m[0][1]
  {
    Det1(Minor(m, 0));
    Det1(Minor(m, 1));
    assert Expand(m, 2) == Expand(m, 1) + Term(m, 1);
    assert Expand(m, 1) == Expand(m, 0) + Term(m, 0);
  }

  /** The six-term formula is the expansion along the first column ... */
  lemma Det3(m: Matrix)
    requires Square(m) && |m| == 3
    ensures Det(m) == Determinant3(m)
  {
    var a, b, c := Minor(m, 0), Minor(m, 1), Minor(m, 2);
    Det2(a);
    Det2(b);
    Det2(c);
    assert Expand(m, 3) == Expand(m, 2) + Term(m, 2);
    assert Expand(m, 2) == Expand(m, 1) + Term(m, 1);
    assert Expand(m, 1) == Expand(m, 0) + Term(m, 0);
  }

  /** ... and so is the 24-term formula. */
  lemma Det4(m: Matrix)
    requires Square(m) && |m| == 4
    ensures Det(m) == Determinant4(m)
  {
    var a, b, c, d := Minor(m, 0), Minor(m, 1), Minor(m, 2), Minor(m, 3);
    Det3(a);
    Det3(b);
    Det3(c);
    Det3(d);
    assert Expand(m, 4) == Expand(m, 3) + Term(m, 3);
    assert Expand(m, 3) == Expand(m, 2) + Term(m, 2);
    assert Expand(m, 2) == Expand(m, 1) + Term(m, 1);
    assert Expand(m, 1) == Expand(m, 0) + Term(m, 0);
  }

  /** The recursive routine, over rows given as slices: the submatrix drops row c and the first column. */
  method DeterminantN(mat: Matrix) returns (d: real)
    requires Square(mat) && |mat| >= 2
    ensures d == Det(mat)
    decreases |mat|
  {
    var n := |mat|;
    if n == 2 {
      Det2(mat);
      return mat[0][0] * mat[1][1] - mat[1][0] * mat[0][1];
    }
    d := 0.0;
    for c := 0 to n
      invariant d == Expand(mat, c)
    {
      var submat: Matrix := [];
      for i := 0 to n
        invariant |submat| == if i <= c then i else i - 1
        invariant forall k :: 0 <= k < |submat| ==> submat[k] == mat[if k < c then k else k + 1][1..]
      {
        if i != c {
          submat := submat + [mat[i][1..]];
        }
      }
      assert submat == Minor(mat, c);
      var minor := DeterminantN(submat);
      d := d + Sign(c) * mat[c][0] * minor;
    }
  }

  method DeterminantOf(m: Matrix) returns (d: real)
    requires Square(m) && 2 <= |m| <= 5
    ensures d == Det(m)
  {
    if |m| == 5 {
      d := DeterminantN(m);
    } else if |m| == 4 {
      Det4(m);
      d := Determinant4(m);
    } else if |m| == 3 {
      Det3(m);
      d := Determinant3(m);
    } else {
      Det2(m);
      d := m[0][0] * m[1][1] - m[1][0] * m[0][1];
    }
  }

  // ----- one damped step -----

  const MAX_DEL: real := 0.25

  const DET_TOLERANCE: real := 0.000000000000001

  function Clamp(x: real): real {
    if Abs(x) > MAX_DEL then (if x > 0.0 then MAX_DEL else -MAX_DEL) else x
  }

  /**
   A change d of one unknown with Cramer value x: never more than alpha / 4, never against the
   direction of x, exactly alpha / 4 if |x| > 1/4, and alpha x if not.
   */
  predicate Limited(x: real, alpha: real, d: real) {
    Abs(d) <= 0.25 * alpha && d * x >= 0.0 && if Abs(x) > 0.25 then Abs(d) == 0.25 * alpha else d == alpha * x
  }

  lemma ClampIsLimited(x: real, alpha: real, d: real)
    requires alpha >= 0.0 && d == alpha * Clamp(x)
    ensures Limited(x, alpha, d)
  {
    SameDirection(x, alpha, Clamp(x));
    if Abs(x) <= 0.25 {
      NonNegativeProduct(alpha, 0.25 - x);
      NonNegativeProduct(alpha, 0.25 + x);
    }
  }

  lemma SameDirection(x: real, alpha: real, y: real)
    requires alpha >= 0.0 && ((x >= 0.0 && y >= 0.0) || (x <= 0.0 && y <= 0.0))
    ensures (alpha * y) * x >= 0.0
  {
    if x >= 0.0 && y >= 0.0 {
      NonNegativeProduct(alpha, y);
      NonNegativeProduct(alpha * y, x);
    } else {
      NonNegativeProduct(alpha, -y);
      NonNegativeProduct(alpha * -y, -x);
      assert (alpha * -y) * -x == (alpha * y) * x;
    }
  }

  /** Every component of the step is limited in this way. */
  lemma StepIsLimited(c: Row, f: Row, jac: Matrix, alpha: real, i: nat)
    requires Square(jac) && |c| == |f| == |jac| && Det(jac) != 0.0 && i < |c| && alpha >= 0.0
    ensures Limited(Cramer(jac, f)[i], alpha, c[i] - NewtonStep(c, f, jac, alpha)[i])
  {
    hide Det, Cramer, Clamp, Limited;
    var x, y := Cramer(jac, f)[i], NewtonStep(c, f, jac, alpha)[i];
    assert y == c[i] - alpha * Clamp(x);
    ClampIsLimited(x, alpha, c[i] - y);
  }

  lemma AllLimited(c: Row, f: Row, jac: Matrix, alpha: real)
    requires Square(jac) && |c| == |f| == |jac| && Det(jac) != 0.0
    ensures alpha >= 0.0 ==> forall i :: 0 <= i < |c| ==> Limited(Cramer(jac, f)[i], alpha, c[i] - NewtonStep(c, f, jac, alpha)[i])
  {
    hide *;
    if alpha >= 0.0 {
      forall i | 0 <= i < |c|
        ensures Limited(Cramer(jac, f)[i], alpha, c[i] - NewtonStep(c, f, jac, alpha)[i])
      {
        StepIsLimited(c, f, jac, alpha, i);
      }
    }
  }

  // What the source asserts of a Jacobian before it is used.
  ghost predicate Regular(jac: Matrix) {
    Square(jac) && Abs(Det(jac)) > DET_TOLERANCE
  }

  function NewtonStep(c: Row, f: Row, jac: Matrix, alpha: real): (r: Row)
    requires Square(jac) && |c| == |f| == |jac| && Det(jac) != 0.0
    ensures |r| == |c|
  {
    seq(|c|, i requires 0 <= i < |c| => c[i] - alpha * Clamp(Cramer(jac, f)[i]))
  }

  // No component of the Newton step exceeds the limit.
  ghost predicate Unclamped(f: Row, jac: Matrix)
    requires Square(jac) && |f| == |jac| && Det(jac) != 0.0
  {
    forall j :: 0 <= j < |f| ==> Abs(Cramer(jac, f)[j]) <= MAX_DEL
  }

  function DotAt(a: Row, x: Row, j: int): real {
    At(a, j) * At(x, j)
  }

  function Dot(a: Row, x: Row): real
    requires |a| == |x|
  {
    Sum(|a|, j => DotAt(a, x, j))
  }

  function ChangeAt(a: Row, c: Row, c': Row, j: int): real {
    At(a, j) * (At(c, j) - At(c', j))
  }

  // a.(c - c').
  function DotChange(a: Row, c: Row, c': Row): real
    requires |a| == |c| == |c'|
  {
    Sum(|a|, j => ChangeAt(a, c, c', j))
  }

  lemma DotChangeSplit(a: Row, c: Row, c': Row)
    requires |a| == |c| == |c'|
    ensures DotChange(a, c, c') == Dot(a, c) - Dot(a, c')
  {
    SumAdd(|a|, j => ChangeAt(a, c, c', j), j => DotAt(a, c', j), j => DotAt(a, c, j));
  }

  lemma DotChangeScale(a: Row, c: Row, c': Row, x: Row, alpha: real)
    requires |a| == |c| == |c'| == |x|
    requires forall j :: 0 <= j < |a| ==> ChangeAt(a, c, c', j) == alpha * DotAt(a, x, j)
    ensures DotChange(a, c, c') == alpha * Dot(a, x)
  {
    hide ChangeAt, DotAt;
    SumScale(|a|, alpha, j => DotAt(a, x, j), j => ChangeAt(a, c, c', j));
  }

  lemma ChangeEntry(a: Row, c: Row, c': Row, x: Row, alpha: real, j: nat)
    requires j < |a| == |c| == |c'| == |x| && c'[j] == c[j] - alpha * x[j]
    ensures ChangeAt(a, c, c', j) == alpha * DotAt(a, x, j)
  {
    Reorder(a[j], alpha, x[j]);
  }

  /** An unclamped step c -> c' satisfies J (c - c') == alpha f exactly, row by row, for every size. */
  lemma StepSolvesSystem(c: Row, f: Row, jac: Matrix, alpha: real, i: nat)
    requires Square(jac) && |c| == |f| == |jac| && Det(jac) != 0.0 && i < |f|
    requires Unclamped(f, jac)
    ensures DotChange(jac[i], c, NewtonStep(c, f, jac, alpha)) == alpha * f[i]
  {
    hide Det, Cramer, Dot, DotChange, ChangeAt, DotAt, Sum, NewtonStep, Unclamped, Apply;
    var x, c' := Cramer(jac, f), NewtonStep(c, f, jac, alpha);
    forall j | 0 <= j < |c|
      ensures ChangeAt(jac[i], c, c', j) == alpha * DotAt(jac[i], x, j)
    {
      UnclampedAt(c, f, jac, alpha, j);
      ChangeEntry(jac[i], c, c', x, alpha, j);
    }
    CramerSolves(jac, f, i);
    DotIsApply(jac, x, i);
    DotChangeScale(jac[i], c, c', x, alpha);
  }

  lemma DotIsApply(m: Matrix, x: Row, i: nat)
    requires Square(m) && |x| == |m| && i < |m|
    ensures Dot(m[i], x) == Apply(m, x, i)
  {
    SumSame(|m|, j => DotAt(m[i], x, j), j => At(m[i], j) * At(x, j));
  }

  lemma UnclampedAt(c: Row, f: Row, jac: Matrix, alpha: real, j: nat)
    requires Square(jac) && |c| == |f| == |jac| && Det(jac) != 0.0 && j < |f| && Unclamped(f, jac)
    ensures NewtonStep(c, f, jac, alpha)[j] == c[j] - alpha * Cramer(jac, f)[j]
  {
    hide Det, Cramer;
  }

  // ----- whole runs -----

  /** A nonlinear system: the RHS and Jacobian routines of a solver as functions of the unknowns. */
  datatype System = System(n: nat, rhs: Row -> Row, jac: Row -> Matrix)

  ghost predicate WellFormed(s: System) {
    && 2 <= s.n <= 5
    && (forall x :: |x| == s.n ==> |s.rhs(x)| == s.n)
    && (forall x :: |x| == s.n ==> |s.jac(x)| == s.n && Square(s.jac(x)))
  }

  function Next(s: System, alpha: real, x: Row): (r: Row)
    requires WellFormed(s) && |x| == s.n && Det(s.jac(x)) != 0.0
    ensures |r| == s.n
  {
    NewtonStep(x, s.rhs(x), s.jac(x), alpha)
  }

  // k steps from x, each from a point whose Jacobian the solver accepts.
  ghost predicate Runs(s: System, alpha: real, x: Row, k: nat)
    requires WellFormed(s) && |x| == s.n
    decreases k
  {
    k == 0 || (Regular(s.jac(x)) && Runs(s, alpha, Next(s, alpha, x), k - 1))
  }

  ghost function Iterate(s: System, alpha: real, x: Row, k: nat): (r: Row)
    requires WellFormed(s) && |x| == s.n && Runs(s, alpha, x, k)
    ensures |r| == s.n
    decreases k
  {
    hide Det, NewtonStep;
    if k == 0 then x else Iterate(s, alpha, Next(s, alpha, x), k - 1)
  }

  lemma {:induction false} RunsLonger(s: System, alpha: real, x: Row, k: nat)
    requires WellFormed(s) && |x| == s.n && Runs(s, alpha, x, k) && Regular(s.jac(Iterate(s, alpha, x, k)))
    ensures Runs(s, alpha, x, k + 1)
    ensures Iterate(s, alpha, x, k + 1) == Next(s, alpha, Iterate(s, alpha, x, k))
    decreases k
  {
    hide Det, NewtonStep;
    if k > 0 {
      RunsLonger(s, alpha, Next(s, alpha, x), k - 1);
    }
  }

  // |u - v| <= d.
  predicate Near(u: real, v: real, d: real) {
    Abs(u - v) <= d
  }

  // A step of size d, k times.
  function Steps(d: real, k: nat): real {
    if k == 0 then 0.0 else Steps(d, k - 1) + d
  }

  lemma {:induction false} StepsIs(d: real, k: nat)
    ensures Steps(d, k) == d * k as real
  {
    if k > 0 {
      StepsIs(d, k - 1);
      assert d * k as real == d * (k - 1) as real + d;
    }
  }

  /** No run gets further from its start than alpha / 4 per step in any unknown. */
  lemma RunStaysNear(s: System, alpha: real, x: Row, k: nat, i: nat)
    requires WellFormed(s) && |x| == s.n && Runs(s, alpha, x, k) && i < s.n && alpha >= 0.0
    ensures Abs(Iterate(s, alpha, x, k)[i] - x[i]) <= 0.25 * alpha * k as real
  {
    hide Det, NewtonStep, Iterate, Runs, WellFormed;
    RunStaysWithin(s, alpha, x, k, i, 0.25 * alpha);
    StepsIs(0.25 * alpha, k);
  }

  lemma {:induction false} RunStaysWithin(s: System, alpha: real, x: Row, k: nat, i: nat, d: real)
    requires WellFormed(s) && |x| == s.n && Runs(s, alpha, x, k) && i < s.n && alpha >= 0.0 && d == 0.25 * alpha
    ensures Near(Iterate(s, alpha, x, k)[i], x[i], Steps(d, k))
    decreases k
  {
    hide Det, NewtonStep, Near, Next, WellFormed, Iterate, Runs, IsNext;
    if k > 0 {
      FirstIsRegular(s, alpha, x, k);
      var y := Next(s, alpha, x);
      FirstStep(s, alpha, x, k, y);
      StepBefore(s, alpha, x, k, y);
      StepStaysNear(s, alpha, x, i);
      RunStaysWithin(s, alpha, y, k - 1, i, d);
      Farther(d, k, Iterate(s, alpha, y, k - 1)[i], y[i], x[i]);
    } else {
      RunStart(s, alpha, x);
      NearItself(x[i]);
    }
  }

  lemma FirstIsRegular(s: System, alpha: real, x: Row, k: nat)
    requires WellFormed(s) && |x| == s.n && Runs(s, alpha, x, k) && k > 0
    ensures |s.jac(x)| == s.n && Square(s.jac(x)) && Abs(Det(s.jac(x))) > 0.000000000000001
    ensures Det(s.jac(x)) != 0.0 && IsNext(s, alpha, x, Next(s, alpha, x))
  {
    hide Det, Next;
  }

  ghost predicate IsNext(s: System, alpha: real, x: Row, y: Row)
    requires WellFormed(s) && |x| == s.n
  {
    Regular(s.jac(x)) && y == Next(s, alpha, x)
  }

  lemma FirstStep(s: System, alpha: real, x: Row, k: nat, y: Row)
    requires WellFormed(s) && |x| == |y| == s.n && Runs(s, alpha, x, k) && k > 0 && IsNext(s, alpha, x, y)
    ensures Runs(s, alpha, y, k - 1)
  {
    hide Det, Next;
  }

  lemma StepBefore(s: System, alpha: real, x: Row, k: nat, y: Row)
    requires WellFormed(s) && |x| == |y| == s.n && IsNext(s, alpha, x, y) && k > 0 && Runs(s, alpha, y, k - 1)
    ensures Runs(s, alpha, x, k)
    ensures Iterate(s, alpha, x, k) == Iterate(s, alpha, y, k - 1)
  {
    hide Det, Next;
  }

  lemma StepStaysNear(s: System, alpha: real, x: Row, i: nat)
    requires WellFormed(s) && |x| == s.n && Det(s.jac(x)) != 0.0 && i < s.n && alpha >= 0.0
    ensures Near(Next(s, alpha, x)[i], x[i], 0.25 * alpha)
  {
    hide Det, NewtonStep, Cramer;
    StepIsLimited(x, s.rhs(x), s.jac(x), alpha, i);
  }

  lemma NearItself(u: real)
    ensures Near(u, u, 0.0)
  {}

  lemma Farther(d: real, k: nat, z: real, y: real, x: real)
    requires k > 0 && Near(y, x, d) && Near(z, y, Steps(d, k - 1))
    ensures Near(z, x, Steps(d, k))
  {}

  /** A run only steps from iterates whose Jacobian the solver accepts. */
  lemma {:induction false} RunIsRegular(s: System, alpha: real, x: Row, k: nat, i: nat)
    requires WellFormed(s) && |x| == s.n && Runs(s, alpha, x, k) && i < k
    ensures Runs(s, alpha, x, i) && Square(s.jac(Iterate(s, alpha, x, i)))
    ensures Abs(Det(s.jac(Iterate(s, alpha, x, i)))) > 0.000000000000001
    decreases k
  {
    hide Det, NewtonStep, Next, WellFormed, Iterate, Runs, IsNext;
    FirstIsRegular(s, alpha, x, k);
    if i == 0 {
      RunStart(s, alpha, x);
    } else {
      var y := Next(s, alpha, x);
      FirstStep(s, alpha, x, k, y);
      RunIsRegular(s, alpha, y, k - 1, i - 1);
      StepBefore(s, alpha, x, i, y);
    }
  }

  // Every step of the run is unclamped.
  ghost predicate UnclampedRun(s: System, alpha: real, x: Row, k: nat)
    requires WellFormed(s) && |x| == s.n && Runs(s, alpha, x, k)
    decreases k
  {
    k == 0 || (Unclamped(s.rhs(x), s.jac(x)) && UnclampedRun(s, alpha, Next(s, alpha, x), k - 1))
  }

  // Row r of the system is a.x - b: a mass balance.
  ghost predicate AffineRow(s: System, r: nat, a: Row, b: real)
    requires WellFormed(s) && r < s.n && |a| == s.n
  {
    forall x :: |x| == s.n ==> s.rhs(x)[r] == Dot(a, x) - b && s.jac(x)[r] == a
  }

  lemma Dot2(a: Row, x: Row)
    requires |a| == |x| == 2
    ensures Dot(a, x) == a[0] * x[0] + a[1] * x[1]
  {
    var f := j => DotAt(a, x, j);
    assert Sum(2, f) == Sum(1, f) + f(1);
    assert Sum(1, f) == Sum(0, f) + f(0);
  }

  lemma Dot4(a: Row, x: Row)
    requires |a| == |x| == 4
    ensures Dot(a, x) == a[0] * x[0] + a[1] * x[1] + a[2] * x[2] + a[3] * x[3]
  {
    var f := j => DotAt(a, x, j);
    assert Sum(4, f) == Sum(3, f) + f(3);
    assert Sum(3, f) == Sum(2, f) + f(2);
    assert Sum(2, f) == Sum(1, f) + f(1);
    assert Sum(1, f) == Sum(0, f) + f(0);
  }

  function Power(q: real, k: nat): real {
    if k == 0 then 1.0 else q * Power(q, k - 1)
  }

  lemma AffineStep(s: System, alpha: real, x: Row, r: nat, a: Row, b: real)
    requires WellFormed(s) && |x| == s.n && r < s.n && |a| == s.n && AffineRow(s, r, a, b)
    requires Det(s.jac(x)) != 0.0 && Unclamped(s.rhs(x), s.jac(x))
    ensures s.rhs(Next(s, alpha, x))[r] == Times(1.0 - alpha, s.rhs(x)[r])
  {
    hide Det, NewtonStep, Unclamped, Dot, Times;
    RowAfterStep(x, s.rhs(x), s.jac(x), alpha, r, b);
  }

  lemma RowAfterStep(x: Row, f: Row, jac: Matrix, alpha: real, r: nat, b: real)
    requires Square(jac) && |x| == |f| == |jac| && Det(jac) != 0.0 && r < |f| && Unclamped(f, jac)
    requires f[r] == Dot(jac[r], x) - b
    ensures Dot(jac[r], NewtonStep(x, f, jac, alpha)) - b == Times(1.0 - alpha, f[r])
  {
    hide Det, NewtonStep, Unclamped, Dot, DotChange;
    StepSolvesSystem(x, f, jac, alpha, r);
    DotChangeSplit(jac[r], x, NewtonStep(x, f, jac, alpha));
  }

  // f, multiplied by q at each of k steps.
  function Decay(q: real, k: nat, f: real): real {
    if k == 0 then f else Decay(q, k - 1, Times(q, f))
  }

  lemma {:induction false} DecayIsPower(q: real, k: nat, f: real)
    ensures Decay(q, k, f) == Power(q, k) * f
  {
    if k > 0 {
      DecayIsPower(q, k - 1, Times(q, f));
      Reorder(Power(q, k - 1), q, f);
    }
  }

  lemma {:induction false} ResidualDecays(s: System, alpha: real, x: Row, k: nat, r: nat, a: Row, b: real)
    requires WellFormed(s) && |x| == s.n && r < s.n && |a| == s.n && AffineRow(s, r, a, b)
    requires Runs(s, alpha, x, k) && UnclampedRun(s, alpha, x, k)
    ensures s.rhs(Iterate(s, alpha, x, k))[r] == Decay(1.0 - alpha, k, s.rhs(x)[r])
    decreases k
  {
    hide Det, NewtonStep, Unclamped, AffineRow, Next, Times;
    if k > 0 {
      AffineStep(s, alpha, x, r, a, b);
      ResidualDecays(s, alpha, Next(s, alpha, x), k - 1, r, a, b);
    }
  }

  /**
   Mass balance over whole runs: after k unclamped steps with damping alpha, the residual of an
   affine row is (1 - alpha)^k times what it was, whatever the other rows do.
   */
  lemma MassBalance(s: System, alpha: real, x: Row, k: nat, r: nat, a: Row, b: real)
    requires WellFormed(s) && |x| == s.n && r < s.n && |a| == s.n && AffineRow(s, r, a, b)
    requires Runs(s, alpha, x, k) && UnclampedRun(s, alpha, x, k)
    ensures s.rhs(Iterate(s, alpha, x, k))[r] == Power(1.0 - alpha, k) * s.rhs(x)[r]
  {
    hide *;
    ResidualDecays(s, alpha, x, k, r, a, b);
    RhsSize(s, x);
    DecayIsPower(1.0 - alpha, k, s.rhs(x)[r]);
  }

  /** A full step (alpha = 1) satisfies the mass balance exactly, and it stays satisfied. */
  lemma FullStepBalances(s: System, x: Row, k: nat, r: nat, a: Row, b: real)
    requires WellFormed(s) && |x| == s.n && r < s.n && |a| == s.n && AffineRow(s, r, a, b)
    requires Runs(s, 1.0, x, k) && UnclampedRun(s, 1.0, x, k) && k > 0
    ensures Dot(a, Iterate(s, 1.0, x, k)) == b
  {
    hide Det, Power, Decay, Runs, UnclampedRun, Next, Dot;
    MassBalance(s, 1.0, x, k, r, a, b);
    ZeroPower(k);
  }

  lemma ZeroPower(k: nat)
    requires k > 0
    ensures Power(0.0, k) == 0.0
  {}

  function Rows(a: array2<real>): (m: Matrix)
    reads a
    ensures |m| == a.Length0 && forall i :: 0 <= i < a.Length0 ==> |m[i]| == a.Length1
    ensures forall i, j :: 0 <= i < a.Length0 && 0 <= j < a.Length1 ==> m[i][j] == a[i, j]
  {
    seq(a.Length0, i requires 0 <= i < a.Length0 reads a =>
      seq(a.Length1, j requires 0 <= j < a.Length1 reads a => a[i, j]))
  }

  lemma TwoRows(a: array2<real>, m: Matrix)
    requires a.Length0 == a.Length1 == |m| == 2 && |m[0]| == |m[1]| == 2
    requires a[0, 0] == m[0][0] && a[0, 1] == m[0][1] && a[1, 0] == m[1][0] && a[1, 1] == m[1][1]
    ensures Rows(a) == m
  {
    assert Rows(a)[0] == m[0] && Rows(a)[1] == m[1];
  }

  // Assigns the entries of one row, from left to right.
  method SetRow(fjac: array2<real>, i: nat, row: Row)
    requires i < fjac.Length0 && |row| == fjac.Length1
    modifies fjac
    ensures Rows(fjac) == old(Rows(fjac))[i := row]
  {
    ghost var m := Rows(fjac);
    for j := 0 to |row|
      invariant forall k, l :: 0 <= k < fjac.Length0 && 0 <= l < fjac.Length1 ==>
        fjac[k, l] == if k == i && l < j then row[l] else m[k][l]
    {
      fjac[i, j] := row[j];
    }
    assert forall k :: 0 <= k < fjac.Length0 ==> Rows(fjac)[k] == m[i := row][k];
  }

  class DampedNewtonSolver {
    const size: nat
    var alpha: real
    // Scratch storage, static in the source.
    const mwork: array2<real>
    const del: array<real>

    ghost predicate Valid()
    {
      2 <= size <= 5 && mwork.Length0 == mwork.Length1 == size && del.Length == size
    }

    constructor (n: nat, damping: real)
      requires 2 <= n <= 5
      ensures Valid() && size == n && alpha == damping && fresh(mwork) && fresh(del)
    {
      size := n;
      alpha := damping;
      mwork := new real[n, n];
      del := new real[n];
    }

    method CopyMatrix(src: array2<real>)
      requires Valid() && src != mwork && src.Length0 == src.Length1 == size
      modifies mwork
      ensures Rows(mwork) == Rows(src)
    {
      for jj := 0 to size
        invariant forall j, i :: 0 <= j < jj && 0 <= i < size ==> mwork[j, i] == src[j, i]
      {
        for ii := 0 to size
          invariant forall j, i :: 0 <= j < jj && 0 <= i < size ==> mwork[j, i] == src[j, i]
          invariant forall i :: 0 <= i < ii ==> mwork[jj, i] == src[jj, i]
        {
          mwork[jj, ii] := src[jj, ii];
        }
      }
      assert forall i :: 0 <= i < size ==> Rows(mwork)[i] == Rows(src)[i];
    }

    // Column jj of the scratch copy of fjac, replaced by fvec.
    method ReplaceColumn(fjac: array2<real>, fvec: array<real>, jj: nat)
      requires Valid() && jj < size && fvec.Length == size
      requires fjac != mwork && fjac.Length0 == fjac.Length1 == size
      modifies mwork
      ensures Rows(mwork) == SetCol(Rows(fjac), jj, fvec[..])
    {
      CopyMatrix(fjac);
      ghost var m := Rows(fjac);
      assert forall i, l :: 0 <= i < size && 0 <= l < size ==> mwork[i, l] == Rows(mwork)[i][l] == m[i][l];
      for ii := 0 to size
        invariant forall i, l :: 0 <= i < size && 0 <= l < size ==>
          mwork[i, l] == if l == jj && i < ii then fvec[i] else m[i][l]
      {
        mwork[ii, jj] := fvec[ii];
      }
      assert forall i :: 0 <= i < size ==> Rows(mwork)[i] == SetCol(m, jj, fvec[..])[i];
    }

    // The clamped Cramer steps.
    method ComputeSteps(fvec: array<real>, fjac: array2<real>)
      requires Valid() && fvec.Length == size && fjac.Length0 == fjac.Length1 == size
      requires fvec != del && fjac != mwork && Regular(Rows(fjac))
      modifies mwork, del
      ensures forall j :: 0 <= j < size ==> del[j] == Clamp(Cramer(Rows(fjac), fvec[..])[j])
    {
      hide Det, SetCol;
      ghost var m, f := Rows(fjac), fvec[..];
      var D := DeterminantOf(Rows(fjac));
      var D_inv := 1.0 / D;
      for jj := 0 to size
        invariant forall j :: 0 <= j < jj ==> del[j] == Clamp(Cramer(m, f)[j])
      {
        ReplaceColumn(fjac, fvec, jj);
        var Dmwork := DeterminantOf(Rows(mwork));
        del[jj] := D_inv * Dmwork;
        if Abs(del[jj]) > MAX_DEL {
          del[jj] := if del[jj] > 0.0 then MAX_DEL else -MAX_DEL;
        }
      }
    }

    method UpdateSolution(c: array<real>, fvec: array<real>, fjac: array2<real>)
      requires Valid() && c.Length == fvec.Length == size && fjac.Length0 == fjac.Length1 == size
      requires c != fvec && c != del && fvec != del && fjac != mwork
      requires Regular(Rows(fjac))
      modifies c, mwork, del
      ensures c[..] == NewtonStep(old(c[..]), fvec[..], Rows(fjac), alpha)
      ensures alpha >= 0.0 ==> forall i :: 0 <= i < size ==> Limited(Cramer(Rows(fjac), fvec[..])[i], alpha, old(c[i]) - c[i])
    {
      hide Det, Cramer, Clamp, Limited;
      ghost var m, f := Rows(fjac), fvec[..];
      ComputeSteps(fvec, fjac);
      var w := alpha;
      for ii := 0 to size
        invariant Rows(fjac) == m && fvec[..] == f
        invariant forall j :: 0 <= j < size ==> del[j] == Clamp(Cramer(m, f)[j])
        invariant forall i :: 0 <= i < ii ==> c[i] == old(c[i]) - w * Clamp(Cramer(m, f)[i])
        invariant forall i :: ii <= i < size ==> c[i] == old(c[i])
      {
        c[ii] := c[ii] - w * del[ii];
      }
      ghost var step := NewtonStep(old(c[..]), f, m, alpha);
      assert forall i :: 0 <= i < size ==> step[i] == old(c[..])[i] - alpha * Clamp(Cramer(m, f)[i]);
      assert forall i :: 0 <= i < size ==> c[..][i] == step[i];
      AllLimited(old(c[..]), f, m, alpha);
    }

    // What the RHS and Jacobian routines leave in the solver's arrays.

    method FillVector(f: Row, fvec: array<real>)
      requires |f| == fvec.Length
      modifies fvec
      ensures fvec[..] == f
    {
      for i := 0 to |f|
        invariant forall k :: 0 <= k < i ==> fvec[k] == f[k]
      {
        fvec[i] := f[i];
      }
    }

    method FillMatrix(m: Matrix, fjac: array2<real>)
      requires Square(m) && fjac.Length0 == fjac.Length1 == |m|
      modifies fjac
      ensures Rows(fjac) == m
    {
      for i := 0 to |m|
        invariant forall k, l :: 0 <= k < i && 0 <= l < |m| ==> fjac[k, l] == m[k][l]
      {
        for j := 0 to |m|
          invariant forall k, l :: 0 <= k < i && 0 <= l < |m| ==> fjac[k, l] == m[k][l]
          invariant forall l :: 0 <= l < j ==> fjac[i, l] == m[i][l]
        {
          fjac[i, j] := m[i][j];
        }
      }
      assert forall i :: 0 <= i < |m| ==> Rows(fjac)[i] == m[i];
    }

    method CheckTolerance(fvec: array<real>, tolerance: real) returns (ok: bool)
      ensures ok <==> Within(fvec[..], tolerance)
      ensures if ok then forall i :: 0 <= i < fvec.Length ==> Abs(fvec[i]) < tolerance
              else exists i :: 0 <= i < fvec.Length && Abs(fvec[i]) >= tolerance
    {
      for ii := 0 to fvec.Length
        invariant forall k :: 0 <= k < ii ==> Abs(fvec[k]) < tolerance
      {
        if Abs(fvec[ii]) >= tolerance {
          return false;
        }
      }
      return true;
    }

    /**
     The Newton loop.  It stops at the first iterate whose residual is within tolerance, gives up
     after maxIters steps, and stops where the source would abort, on a singular Jacobian.
     */
    method ComputeSolution(s: System, conc: array<real>, maxIters: nat, tolerance: real) returns (outcome: Outcome)
      requires Valid() && WellFormed(s) && s.n == size && conc.Length == size && conc != del && maxIters > 1
      modifies conc, mwork, del
      ensures var k := outcome.iterations;
        && k <= maxIters && Runs(s, alpha, old(conc[..]), k)
        && conc[..] == Iterate(s, alpha, old(conc[..]), k)
        && (outcome.Converged? ==> Within(s.rhs(conc[..]), tolerance))
        && (outcome.TooManyIterations? ==> k == maxIters && !Within(s.rhs(conc[..]), tolerance))
        && (outcome.Aborted? ==> !Within(s.rhs(conc[..]), tolerance) && Abs(Det(s.jac(conc[..]))) <= 0.000000000000001)
        && forall i :: 0 <= i < k ==> Missed(s, alpha, old(conc[..]), i, tolerance)
      ensures |s.rhs(conc[..])| == size
      ensures if outcome.Converged? then forall i :: 0 <= i < size ==> Abs(s.rhs(conc[..])[i]) < tolerance
              else exists i :: 0 <= i < size && Abs(s.rhs(conc[..])[i]) >= tolerance
    {
      hide *;
      var fvec := new real[size];
      var fjac := new real[size, size];
      var iterations := 0;
      ghost var x0 := conc[..];
      RunStart(s, alpha, x0);
      while true
        invariant iterations <= maxIters && Runs(s, alpha, x0, iterations)
        invariant conc[..] == Iterate(s, alpha, x0, iterations)
        invariant forall i :: 0 <= i < iterations ==> Missed(s, alpha, x0, i, tolerance)
        decreases maxIters - iterations
      {
        RhsSize(s, conc[..]);
        FillVector(s.rhs(conc[..]), fvec);
        var small := CheckTolerance(fvec, tolerance);
        if small {
          return Converged(iterations);
        }
        if iterations == maxIters {
          return TooManyIterations(iterations);
        }
        var accepted := Step(s, conc, fvec, fjac);
        if !accepted {
          return Aborted(iterations);
        }
        RunsLonger(s, alpha, x0, iterations);
        MissedIs(s, alpha, x0, iterations, tolerance);
        iterations := iterations + 1;
      }
    }

    // One pass of the loop after the tolerance test.
    method Step(s: System, conc: array<real>, fvec: array<real>, fjac: array2<real>) returns (accepted: bool)
      requires Valid() && WellFormed(s) && s.n == size && conc.Length == fvec.Length == size
      requires fjac.Length0 == fjac.Length1 == size
      requires conc != fvec && conc != del && fvec != del && fjac != mwork && fvec[..] == s.rhs(conc[..])
      modifies conc, mwork, del, fjac
      ensures accepted <==> Regular(s.jac(old(conc[..])))
      ensures accepted <==> Abs(Det(s.jac(old(conc[..])))) > 0.000000000000001
      ensures conc[..] == if accepted then Next(s, alpha, old(conc[..])) else old(conc[..])
    {
      hide Det, NewtonStep;
      FillMatrix(s.jac(conc[..]), fjac);
      var D := DeterminantOf(Rows(fjac));
      accepted := Abs(D) > DET_TOLERANCE;
      if accepted {
        UpdateSolution(conc, fvec, fjac);
      }
    }
  }

  datatype Outcome =
    | Converged(iterations: nat)
    | TooManyIterations(iterations: nat)
    | Aborted(iterations: nat)

  ghost predicate Within(f: Row, tolerance: real) {
    forall i :: 0 <= i < |f| ==> Abs(f[i]) < tolerance
  }

  // The i-th iterate was reached and its residual was still too large.
  ghost predicate Missed(s: System, alpha: real, x: Row, i: nat, tolerance: real)
    requires WellFormed(s) && |x| == s.n
  {
    Runs(s, alpha, x, i) && !Within(s.rhs(Iterate(s, alpha, x, i)), tolerance)
  }

  lemma RunStart(s: System, alpha: real, x: Row)
    requires WellFormed(s) && |x| == s.n
    ensures Runs(s, alpha, x, 0) && Iterate(s, alpha, x, 0) == x
  {}

  lemma MissedIs(s: System, alpha: real, x: Row, i: nat, tolerance: real)
    requires WellFormed(s) && |x| == s.n && Runs(s, alpha, x, i) && !Within(s.rhs(Iterate(s, alpha, x, i)), tolerance)
    ensures Missed(s, alpha, x, i, tolerance)
  {}

  lemma RhsSize(s: System, x: Row)
    requires WellFormed(s) && |x| == s.n
    ensures |s.rhs(x)| == s.n
  {}
}
