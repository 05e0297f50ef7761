/**
 Determinants by expansion along the first column (DeterminantN in source/math_utilities.C), for
 every size, and Cramer's rule.
 */
module Determinant {
  import opened RealFacts
  import opened RealSums

  type Row = seq<real>
  type Matrix = seq<seq<real>>

  ghost predicate Square(m: Matrix) {
    forall i :: 0 <= i < |m| ==> |m[i]| == |m|
  }

  // m without row c and without its first column.
  function Minor(m: Matrix, c: nat): (r: Matrix)
    requires Square(m) && c < |m|
    ensures |r| == |m| - 1 && Square(r)
  {
    seq(|m| - 1, i requires 0 <= i < |m| - 1 => if i < c then m[i][1..] else m[i + 1][1..])
  }

  function Sign(c: nat): real {
    if c % 2 == 0 then 1.0 else -1.0
  }

  function Det(m: Matrix): real
    requires Square(m)
    decreases |m|, |m| + 1
  {
    if |m| == 0 then 1.0 else Expand(m, |m|)
  }

  function Term(m: Matrix, i: nat): real
    requires Square(m) && i < |m|
    decreases |m|, 0
  {
    Sign(i) * m[i][0] * Det(Minor(m, i))
  }

  // The first c terms of the expansion of m along its first column.
  function Expand(m: Matrix, c: nat): real
    requires Square(m) && c <= |m|
    decreases |m|, c
  {
    if c == 0 then 0.0 else Expand(m, c - 1) + Term(m, c - 1)
  }

  // If each term of x is the same combination of the terms of y and z, so is the expansion.
  lemma {:induction false} ExpandCombine(x: Matrix, y: Matrix, z: Matrix, a: real, b: real, c: nat)
    requires Square(x) && Square(y) && Square(z) && c <= |x| == |y| == |z|
    requires forall i :: 0 <= i < c ==> Term(x, i) == a * Term(y, i) + b * Term(z, i)
    ensures Expand(x, c) == a * Expand(y, c) + b * Expand(z, c)
  {
    hide Det, Term;
    if c > 0 {
      ExpandCombine(x, y, z, a, b, c - 1);
      SplitCombination(a, Expand(y, c - 1), Term(y, c - 1), b, Expand(z, c - 1), Term(z, c - 1));
    }
  }

  lemma SplitCombination(a: real, x: real, p: real, b: real, y: real, q: real)
    ensures a * (x + p) + b * (y + q) == (a * x + b * y) + (a * p + b * q)
  {}

  // ----- dependence on one row -----

  function Comb(a: real, u: Row, b: real, v: Row): (w: Row)
    requires |u| == |v|
    ensures |w| == |u| && forall j :: 0 <= j < |u| ==> w[j] == a * u[j] + b * v[j]
  {
    seq(|u|, j requires 0 <= j < |u| => a * u[j] + b * v[j])
  }

  lemma CombTail(a: real, u: Row, b: real, v: Row)
    requires |u| == |v| > 0
    ensures Comb(a, u, b, v)[1..] == Comb(a, u[1..], b, v[1..])
  {
    var l, r := Comb(a, u, b, v)[1..], Comb(a, u[1..], b, v[1..]);
    forall j | 0 <= j < |r|
      ensures l[j] == r[j]
    {
      assert u[1..][j] == u[j + 1] && v[1..][j] == v[j + 1];
    }
  }

  // The place of row k among the rows that remain when row c is dropped.
  function Place(k: nat, c: nat): nat
    requires k != c
  {
    if k < c then k else k - 1
  }

  lemma MinorSetRow(m: Matrix, k: nat, w: Row, c: nat)
    requires Square(m) && k < |m| && c < |m| && |w| == |m|
    ensures k == c ==> Minor(m[k := w], c) == Minor(m, c)
    ensures k != c ==> Minor(m[k := w], c) == Minor(m, c)[Place(k, c) := w[1..]]
  {}

  /** The determinant is linear in each row. */
  lemma {:induction false} RowLinear(m: Matrix, k: nat, a: real, u: Row, b: real, v: Row)
    requires Square(m) && k < |m| == |u| == |v|
    ensures Det(m[k := Comb(a, u, b, v)]) == a * Det(m[k := u]) + b * Det(m[k := v])
    decreases |m|
  {
    hide Expand, Comb, Term, Minor;
    var x, y, z := m[k := Comb(a, u, b, v)], m[k := u], m[k := v];
    forall i | 0 <= i < |m|
      ensures Term(x, i) == a * Term(y, i) + b * Term(z, i)
    {
      if i != k {
        RowLinear(Minor(m, i), Place(k, i), a, u[1..], b, v[1..]);
      }
      TermRowLinear(m, k, a, u, b, v, i);
    }
    ExpandCombine(x, y, z, a, b, |m|);
  }

  lemma TermRowLinear(m: Matrix, k: nat, a: real, u: Row, b: real, v: Row, i: nat)
    requires Square(m) && i < |m| && k < |m| == |u| == |v|
    requires i != k ==>
      Det(Minor(m, i)[Place(k, i) := Comb(a, u[1..], b, v[1..])])
      == a * Det(Minor(m, i)[Place(k, i) := u[1..]]) + b * Det(Minor(m, i)[Place(k, i) := v[1..]])
    ensures Term(m[k := Comb(a, u, b, v)], i) == a * Term(m[k := u], i) + b * Term(m[k := v], i)
  {
    hide Det, Minor;
    MinorSetRow(m, k, Comb(a, u, b, v), i);
    MinorSetRow(m, k, u, i);
    MinorSetRow(m, k, v, i);
    CombTail(a, u, b, v);
    if i == k {
      HeadLinear(Sign(i), a, u[0], b, v[0], Det(Minor(m, i)));
    } else {
      TermLinear(Sign(i) * m[i][0], a, Det(Minor(m, i)[Place(k, i) := u[1..]]), b, Det(Minor(m, i)[Place(k, i) := v[1..]]));
    }
  }

  lemma TermLinear(s: real, a: real, x: real, b: real, y: real)
    ensures s * (a * x + b * y) == a * (s * x) + b * (s * y)
  {}

  lemma HeadLinear(s: real, a: real, x: real, b: real, y: real, d: real)
    ensures s * (a * x + b * y) * d == a * (s * x * d) + b * (s * y * d)
  {}

  function Zeros(n: nat): Row {
    seq(n, j => 0.0)
  }

  lemma ZeroRow(m: Matrix, k: nat)
    requires Square(m) && k < |m| && m[k] == Zeros(|m|)
    ensures Det(m) == 0.0
  {
    hide Det;
    RowLinear(m, k, 0.0, m[k], 0.0, m[k]);
    assert Comb(0.0, m[k], 0.0, m[k]) == m[k];
    assert m[k := m[k]] == m;
  }

  // ----- equal rows -----

  lemma {:induction false} AdjacentEqual(m: Matrix, k: nat)
    requires Square(m) && k + 1 < |m| && m[k] == m[k + 1]
    ensures Det(m) == 0.0
    decreases |m|, |m| + 1
  {
    ExpandAdjacentEqual(m, k, |m|);
  }

  lemma {:induction false} ExpandAdjacentEqual(m: Matrix, k: nat, c: nat)
    requires Square(m) && k + 1 < |m| && m[k] == m[k + 1] && c <= |m|
    ensures Expand(m, c) == if c == k + 1 then Term(m, k) else 0.0
    decreases |m|, c
  {
    hide Term, Det, Minor;
    if c > 0 {
      ExpandAdjacentEqual(m, k, c - 1);
      if c - 1 == k + 1 {
        OppositeTerms(m, k);
      } else if c - 1 != k {
        MinorAdjacent(m, k, c - 1);
        AdjacentEqual(Minor(m, c - 1), Place(k, c - 1));
        ZeroTerm(m, c - 1);
      }
    }
  }

  lemma OppositeTerms(m: Matrix, k: nat)
    requires Square(m) && k + 1 < |m| && m[k] == m[k + 1]
    ensures Term(m, k) + Term(m, k + 1) == 0.0
  {
    hide Det;
    assert Minor(m, k) == Minor(m, k + 1);
    assert Sign(k + 1) == -Sign(k);
  }

  lemma MinorAdjacent(m: Matrix, k: nat, c: nat)
    requires Square(m) && k + 1 < |m| && m[k] == m[k + 1] && c < |m| && c != k && c != k + 1
    ensures Place(k, c) + 1 < |m| - 1 && Minor(m, c)[Place(k, c)] == Minor(m, c)[Place(k, c) + 1]
  {}

  lemma ZeroTerm(m: Matrix, i: nat)
    requires Square(m) && i < |m| && (m[i][0] == 0.0 || Det(Minor(m, i)) == 0.0)
    ensures Term(m, i) == 0.0
  {
    hide Det, Minor;
  }

  lemma AdjacentSwap(m: Matrix, k: nat)
    requires Square(m) && k + 1 < |m|
    ensures Det(m[k := m[k + 1]][k + 1 := m[k]]) == -Det(m)
  {
    hide Det, Comb;
    var u, v := m[k], m[k + 1];
    var w := Comb(1.0, u, 1.0, v);
    AdjacentEqual(m[k := w][k + 1 := w], k);
    RowLinear(m[k := w], k + 1, 1.0, u, 1.0, v);
    SumAbove(m, k, u, u, v);
    SumAbove(m, k, v, u, v);
    AdjacentEqual(m[k := u][k + 1 := u], k);
    AdjacentEqual(m[k := v][k + 1 := v], k);
    assert m[k := u][k + 1 := v] == m;
  }

  lemma SumAbove(m: Matrix, k: nat, x: Row, u: Row, v: Row)
    requires Square(m) && k + 1 < |m| == |u| == |v| == |x|
    ensures Det(m[k := Comb(1.0, u, 1.0, v)][k + 1 := x]) == Det(m[k := u][k + 1 := x]) + Det(m[k := v][k + 1 := x])
  {
    hide Det, Comb;
    var n := m[k + 1 := x];
    RowLinear(n, k, 1.0, u, 1.0, v);
    assert n[k := Comb(1.0, u, 1.0, v)] == m[k := Comb(1.0, u, 1.0, v)][k + 1 := x];
    assert n[k := u] == m[k := u][k + 1 := x];
    assert n[k := v] == m[k := v][k + 1 := x];
  }

  /** Two equal rows, wherever they stand, make the determinant vanish. */
  lemma {:induction false} EqualRows(m: Matrix, p: nat, q: nat)
    requires Square(m) && p < q < |m| && m[p] == m[q]
    ensures Det(m) == 0.0
    decreases q - p
  {
    hide Det;
    if q == p + 1 {
      AdjacentEqual(m, p);
    } else {
      AdjacentSwap(m, q - 1);
      EqualRows(m[q - 1 := m[q]][q := m[q - 1]], p, q - 1);
    }
  }

  // ----- dependence on one column -----

  function SetCol(m: Matrix, j: nat, f: Row): (r: Matrix)
    requires Square(m) && j < |m| == |f|
    ensures |r| == |m| && Square(r)
    ensures forall i, l :: 0 <= i < |m| && 0 <= l < |m| ==> r[i][l] == if l == j then f[i] else m[i][l]
  {
    seq(|m|, i requires 0 <= i < |m| => m[i][j := f[i]])
  }

  function Drop(f: Row, c: nat): (r: Row)
    requires c < |f|
    ensures |r| == |f| - 1
  {
    f[..c] + f[c + 1..]
  }

  lemma MinorSetCol(m: Matrix, j: nat, f: Row, c: nat)
    requires Square(m) && j < |m| == |f| && c < |m|
    ensures j == 0 ==> Minor(SetCol(m, j, f), c) == Minor(m, c)
    ensures j > 0 ==> Minor(SetCol(m, j, f), c) == SetCol(Minor(m, c), j - 1, Drop(f, c))
  {}

  lemma CombDrop(a: real, u: Row, b: real, v: Row, c: nat)
    requires |u| == |v| && c < |u|
    ensures Drop(Comb(a, u, b, v), c) == Comb(a, Drop(u, c), b, Drop(v, c))
  {
    var l, r := Drop(Comb(a, u, b, v), c), Comb(a, Drop(u, c), b, Drop(v, c));
    forall j | 0 <= j < |r|
      ensures l[j] == r[j]
    {
      CombDropAt(a, u, b, v, c, j);
    }
  }

  lemma CombDropAt(a: real, u: Row, b: real, v: Row, c: nat, j: nat)
    requires |u| == |v| && c < |u| && j < |u| - 1
    ensures Drop(Comb(a, u, b, v), c)[j] == Comb(a, Drop(u, c), b, Drop(v, c))[j]
  {
    var j' := if j < c then j else j + 1;
    var x, y := u[j'], v[j'];
    assert Drop(u, c)[j] == x && Drop(v, c)[j] == y;
    assert Comb(a, u, b, v)[j'] == a * x + b * y;
  }

  /** The determinant is linear in each column. */
  lemma {:induction false} ColLinear(m: Matrix, j: nat, a: real, u: Row, b: real, v: Row)
    requires Square(m) && j < |m| == |u| == |v|
    ensures Det(SetCol(m, j, Comb(a, u, b, v))) == a * Det(SetCol(m, j, u)) + b * Det(SetCol(m, j, v))
    decreases |m|
  {
    hide Expand, Comb, Term, Minor, SetCol, Drop;
    forall i | 0 <= i < |m|
      ensures Term(SetCol(m, j, Comb(a, u, b, v)), i) == a * Term(SetCol(m, j, u), i) + b * Term(SetCol(m, j, v), i)
    {
      if j > 0 {
        ColLinear(Minor(m, i), j - 1, a, Drop(u, i), b, Drop(v, i));
      }
      TermColLinear(m, j, a, u, b, v, i);
    }
    ExpandCombine(SetCol(m, j, Comb(a, u, b, v)), SetCol(m, j, u), SetCol(m, j, v), a, b, |m|);
  }

  lemma TermColLinear(m: Matrix, j: nat, a: real, u: Row, b: real, v: Row, i: nat)
    requires Square(m) && i < |m| && j < |m| == |u| == |v|
    requires j > 0 ==>
      Det(SetCol(Minor(m, i), j - 1, Comb(a, Drop(u, i), b, Drop(v, i))))
      == a * Det(SetCol(Minor(m, i), j - 1, Drop(u, i))) + b * Det(SetCol(Minor(m, i), j - 1, Drop(v, i)))
    ensures Term(SetCol(m, j, Comb(a, u, b, v)), i) == a * Term(SetCol(m, j, u), i) + b * Term(SetCol(m, j, v), i)
  {
    hide Det, Minor, Drop, Comb, SetCol;
    MinorSetCol(m, j, Comb(a, u, b, v), i);
    MinorSetCol(m, j, u, i);
    MinorSetCol(m, j, v, i);
    CombDrop(a, u, b, v, i);
    if j == 0 {
      HeadLinear(Sign(i), a, u[i], b, v[i], Det(Minor(m, i)));
    } else {
      TermLinear(Sign(i) * m[i][0], a, Det(SetCol(Minor(m, i), j - 1, Drop(u, i))), b, Det(SetCol(Minor(m, i), j - 1, Drop(v, i))));
    }
  }

  lemma ZeroCol(m: Matrix, j: nat)
    requires Square(m) && j < |m|
    ensures Det(SetCol(m, j, Zeros(|m|))) == 0.0
  {
    hide Det, SetCol;
    ColLinear(m, j, 0.0, Zeros(|m|), 0.0, Zeros(|m|));
    assert Comb(0.0, Zeros(|m|), 0.0, Zeros(|m|)) == Zeros(|m|);
  }

  // ----- triangular matrices -----

  ghost predicate UpperTriangular(m: Matrix)
    requires Square(m)
  {
    forall i, j :: 0 <= j < i < |m| ==> m[i][j] == 0.0
  }

  // The diagonal entries from k on.
  function DiagonalProduct(m: Matrix, k: nat): real
    requires Square(m)
    decreases |m| - k
  {
    if k >= |m| then 1.0 else m[k][k] * DiagonalProduct(m, k + 1)
  }

  lemma {:induction false} MinorDiagonal(m: Matrix, k: nat)
    requires Square(m) && |m| > 0 && k < |m|
    ensures DiagonalProduct(Minor(m, 0), k) == DiagonalProduct(m, k + 1)
    decreases |m| - k
  {
    if k + 1 < |m| {
      MinorDiagonal(m, k + 1);
    }
  }

  lemma {:induction false} ExpandFirst(m: Matrix, c: nat)
    requires Square(m) && 0 < c <= |m| && UpperTriangular(m)
    ensures Expand(m, c) == Term(m, 0)
  {
    hide Term, Det;
    if c > 1 {
      ExpandFirst(m, c - 1);
      ZeroTerm(m, c - 1);
    }
  }

  /** The determinant of a triangular matrix is the product of its diagonal, so that of the identity is 1. */
  lemma {:induction false} TriangularDeterminant(m: Matrix)
    requires Square(m) && UpperTriangular(m)
    ensures Det(m) == DiagonalProduct(m, 0)
    decreases |m|
  {
    hide Expand;
    if |m| > 0 {
      ExpandFirst(m, |m|);
      assert forall i :: 0 <= i < |m| - 1 ==> Minor(m, 0)[i] == m[i + 1][1..];
      TriangularDeterminant(Minor(m, 0));
      MinorDiagonal(m, 0);
    }
  }

  // ----- cofactors -----

  function Unit(n: nat, j: nat): (r: Row)
    requires j < n
    ensures |r| == n
  {
    Zeros(n)[j := 1.0]
  }

  /** Putting a unit row in row k or a unit column in column j leaves the same cofactor. */
  lemma {:induction false} UnitRowIsUnitCol(m: Matrix, k: nat, j: nat)
    requires Square(m) && k < |m| && j < |m|
    ensures Det(m[k := Unit(|m|, j)]) == Det(SetCol(m, j, Unit(|m|, k)))
    decreases |m|
  {
    hide Expand, Term, Minor, SetCol, Unit;
    var x, y := m[k := Unit(|m|, j)], SetCol(m, j, Unit(|m|, k));
    forall i | 0 <= i < |m|
      ensures Term(x, i) == 1.0 * Term(y, i) + 0.0 * Term(y, i)
    {
      if j > 0 && i != k {
        UnitRowIsUnitCol(Minor(m, i), Place(k, i), j - 1);
      }
      TermUnit(m, k, j, i);
    }
    ExpandCombine(x, y, y, 1.0, 0.0, |m|);
  }

  lemma TermUnit(m: Matrix, k: nat, j: nat, i: nat)
    requires Square(m) && k < |m| && j < |m| && i < |m|
    requires j > 0 && i != k ==>
      Det(Minor(m, i)[Place(k, i) := Unit(|m| - 1, j - 1)])
      == Det(SetCol(Minor(m, i), j - 1, Unit(|m| - 1, Place(k, i))))
    ensures Term(m[k := Unit(|m|, j)], i) == Term(SetCol(m, j, Unit(|m|, k)), i)
  {
    hide Det, Minor, Drop, SetCol;
    MinorSetRow(m, k, Unit(|m|, j), i);
    MinorSetCol(m, j, Unit(|m|, k), i);
    var x, y := m[k := Unit(|m|, j)], SetCol(m, j, Unit(|m|, k));
    if j == 0 {
      if i != k {
        assert Unit(|m|, j)[1..] == Zeros(|m| - 1);
        ZeroRow(Minor(x, i), Place(k, i));
        ZeroTerm(x, i);
        ZeroTerm(y, i);
      }
    } else if i == k {
      ZeroTerm(x, i);
      DropUnit(|m|, k, i);
      ZeroCol(Minor(m, i), j - 1);
      ZeroTerm(y, i);
    } else {
      assert Unit(|m|, j)[1..] == Unit(|m| - 1, j - 1);
      DropUnit(|m|, k, i);
    }
  }

  lemma DropUnit(n: nat, k: nat, i: nat)
    requires k < n && i < n
    ensures Drop(Unit(n, k), i) == if i == k then Zeros(n - 1) else Unit(n - 1, Place(k, i))
  {}

  // ----- Cramer's rule -----

  // The first t entries of w, followed by zeros.
  function Head(w: Row, t: nat): (r: Row)
    requires t <= |w|
    ensures |r| == |w|
  {
    w[..t] + Zeros(|w| - t)
  }

  lemma HeadStep(w: Row, t: nat)
    requires t < |w|
    ensures Head(w, t + 1) == Comb(1.0, Head(w, t), w[t], Unit(|w|, t))
  {
    var l, r := Head(w, t + 1), Comb(1.0, Head(w, t), w[t], Unit(|w|, t));
    forall j | 0 <= j < |w|
      ensures l[j] == r[j]
    {
      assert r[j] == 1.0 * Head(w, t)[j] + w[t] * Unit(|w|, t)[j];
    }
  }

  function UnitRowDet(m: Matrix, k: nat, j: int): real
    requires Square(m) && k < |m|
  {
    if 0 <= j < |m| then Det(m[k := Unit(|m|, j)]) else 0.0
  }

  /** A row is the combination of unit rows that its entries say. */
  lemma {:induction false} RowSpread(m: Matrix, k: nat, w: Row, t: nat)
    requires Square(m) && k < |m| == |w| && t <= |w|
    ensures Det(m[k := Head(w, t)]) == Sum(t, j => At(w, j) * UnitRowDet(m, k, j))
  {
    hide Det, Head, Unit, Comb;
    if t == 0 {
      assert Head(w, 0) == Zeros(|m|) by { HeadEmpty(w); }
      ZeroRow(m[k := Head(w, 0)], k);
    } else {
      RowSpread(m, k, w, t - 1);
      HeadStep(w, t - 1);
      RowLinear(m, k, 1.0, Head(w, t - 1), w[t - 1], Unit(|m|, t - 1));
      var f := j => At(w, j) * UnitRowDet(m, k, j);
      SumSame(t - 1, j => At(w, j) * UnitRowDet(m, k, j), f);
      assert Sum(t, f) == Sum(t - 1, f) + f(t - 1);
      SumSame(t, f, j => At(w, j) * UnitRowDet(m, k, j));
    }
  }

  lemma HeadEmpty(w: Row)
    ensures Head(w, 0) == Zeros(|w|)
  {}

  function ColDet(m: Matrix, f: Row, j: int): real
    requires Square(m) && |f| == |m|
  {
    if 0 <= j < |m| then Det(SetCol(m, j, f)) else 0.0
  }

  /** The determinant with column j replaced by f, expanded along that column. */
  lemma {:induction false} ColSpread(m: Matrix, j: nat, f: Row, t: nat)
    requires Square(m) && j < |m| == |f| && t <= |f|
    ensures Det(SetCol(m, j, Head(f, t))) == Sum(t, k => At(f, k) * Cofactor(m, k, j))
  {
    hide Det, Head, Unit, Comb, SetCol;
    if t == 0 {
      HeadEmpty(f);
      ZeroCol(m, j);
    } else {
      ColSpread(m, j, f, t - 1);
      HeadStep(f, t - 1);
      ColLinear(m, j, 1.0, Head(f, t - 1), f[t - 1], Unit(|m|, t - 1));
      UnitRowIsUnitCol(m, t - 1, j);
      var g := k => At(f, k) * Cofactor(m, k, j);
      SumSame(t - 1, k => At(f, k) * Cofactor(m, k, j), g);
      assert Sum(t, g) == Sum(t - 1, g) + g(t - 1);
      SumSame(t, g, k => At(f, k) * Cofactor(m, k, j));
    }
  }

  function Cofactor(m: Matrix, k: int, j: int): real
    requires Square(m)
  {
    if 0 <= k < |m| then UnitRowDet(m, k, j) else 0.0
  }

  // One term of the double sum behind Cramer's rule.
  function CramerTerm(m: Matrix, f: Row, i: nat, j: int, k: int): real
    requires Square(m) && |f| == |m| && i < |m|
  {
    At(m[i], j) * (At(f, k) * Cofactor(m, k, j))
  }

  lemma CramerRow(m: Matrix, f: Row, i: nat, j: nat, F: (int, int) -> real)
    requires Square(m) && |f| == |m| && i < |m| && j < |m|
    requires forall j, k :: F(j, k) == CramerTerm(m, f, i, j, k)
    ensures RowSum(|m|, F, j) == At(m[i], j) * ColDet(m, f, j)
  {
    hide Det, Head, SetCol, Cofactor, RowSum, Sum;
    var n := |m|;
    ColSpread(m, j, f, n);
    HeadFull(f);
    var g := k => At(f, k) * Cofactor(m, k, j);
    var h := k => F(j, k);
    SumSame(n, k => At(f, k) * Cofactor(m, k, j), g);
    SumScale(n, At(m[i], j), g, h);
    RowSumIs(n, F, j, h);
  }

  lemma HeadFull(f: Row)
    ensures Head(f, |f|) == f
  {}

  lemma CramerCol(m: Matrix, f: Row, i: nat, k: nat, F: (int, int) -> real)
    requires Square(m) && |f| == |m| && i < |m| && k < |m|
    requires forall j, k :: F(j, k) == CramerTerm(m, f, i, j, k)
    ensures ColSum(|m|, F, k) == At(f, k) * Det(m[k := m[i]])
  {
    hide Det, Head, UnitRowDet, ColSum, Sum;
    var n := |m|;
    RowSpread(m, k, m[i], n);
    HeadFull(m[i]);
    var g := j => At(m[i], j) * UnitRowDet(m, k, j);
    var h := j => F(j, k);
    forall j | 0 <= j < n
      ensures h(j) == At(f, k) * g(j)
    {
      Reorder(At(m[i], j), At(f, k), UnitRowDet(m, k, j));
    }
    SumSame(n, j => At(m[i], j) * UnitRowDet(m, k, j), g);
    SumScale(n, At(f, k), g, h);
    ColSumIs(n, F, k, h);
  }

  lemma Reorder(a: real, b: real, c: real)
    ensures a * (b * c) == b * (a * c)
  {}

  /** Row i of m times the vector of column-replaced determinants is f[i] times the determinant. */
  lemma CramerIdentity(m: Matrix, f: Row, i: nat)
    requires Square(m) && |f| == |m| && i < |m|
    ensures Sum(|m|, j => At(m[i], j) * ColDet(m, f, j)) == f[i] * Det(m)
  {
    hide Det, ColDet, CramerTerm;
    var n := |m|;
    var F := (j, k) => CramerTerm(m, f, i, j, k);
    forall j | 0 <= j < n
      ensures RowSum(n, F, j) == At(m[i], j) * ColDet(m, f, j)
    {
      CramerRow(m, f, i, j, F);
    }
    SumSame(n, j => RowSum(n, F, j), j => At(m[i], j) * ColDet(m, f, j));
    forall k | 0 <= k < n
      ensures ColSum(n, F, k) == if k == i then f[i] * Det(m) else 0.0
    {
      CramerCol(m, f, i, k, F);
      RowCopied(m, i, k);
    }
    SumSingle(n, i, k => ColSum(n, F, k));
    SumSwap(n, n, F);
  }

  lemma RowCopied(m: Matrix, i: nat, k: nat)
    requires Square(m) && i < |m| && k < |m|
    ensures Det(m[k := m[i]]) == if k == i then Det(m) else 0.0
  {
    hide Det;
    if k == i {
      assert m[k := m[i]] == m;
    } else if i < k {
      EqualRows(m[k := m[i]], i, k);
    } else {
      EqualRows(m[k := m[i]], k, i);
    }
  }

  function Cramer(m: Matrix, f: Row): (del: Row)
    requires Square(m) && |f| == |m| && Det(m) != 0.0
    ensures |del| == |m|
  {
    seq(|m|, j requires 0 <= j < |m| => 1.0 / Det(m) * Det(SetCol(m, j, f)))
  }

  function Apply(m: Matrix, x: Row, i: nat): real
    requires Square(m) && |x| == |m| && i < |m|
  {
    Sum(|m|, j => At(m[i], j) * At(x, j))
  }

  /** Cramer's rule solves the linear system, whatever its size. */
  lemma CramerSolves(m: Matrix, f: Row, i: nat)
    requires Square(m) && |f| == |m| && i < |m| && Det(m) != 0.0
    ensures Apply(m, Cramer(m, f), i) == f[i]
  {
    hide Det, Apply, SetCol;
    var d := 1.0 / Det(m);
    assert d * Det(m) == 1.0;
    ScaledSolution(m, f, i, d, Cramer(m, f));
  }

  lemma ScaledSolution(m: Matrix, f: Row, i: nat, d: real, x: Row)
    requires Square(m) && |f| == |m| == |x| && i < |m| && d * Det(m) == 1.0
    requires forall j :: 0 <= j < |m| ==> x[j] == d * Det(SetCol(m, j, f))
    ensures Apply(m, x, i) == f[i]
  {
    hide Det, SetCol, Sum, Times, ColDet;
    var g, h := j => Times(At(m[i], j), ColDet(m, f, j)), j => Times(At(m[i], j), At(x, j));
    forall j | 0 <= j < |m|
      ensures h(j) == Times(d, g(j))
    {
      ColDetIs(m, f, j);
      ReorderTimes(At(m[i], j), d, ColDet(m, f, j), At(x, j));
    }
    SumTimes(|m|, d, g, h);
    CramerSum(m, f, i, g);
    ApplyIs(m, x, i, h);
    Unscale(d, f[i], Det(m), Sum(|m|, g));
  }

  lemma ColDetIs(m: Matrix, f: Row, j: nat)
    requires Square(m) && |f| == |m| && j < |m|
    ensures ColDet(m, f, j) == Det(SetCol(m, j, f))
  {
    hide Det, SetCol;
  }

  lemma CramerSum(m: Matrix, f: Row, i: nat, g: int -> real)
    requires Square(m) && |f| == |m| && i < |m| && forall j :: g(j) == Times(At(m[i], j), ColDet(m, f, j))
    ensures Sum(|m|, g) == f[i] * Det(m)
  {
    hide Det, SetCol, Sum, ColDet;
    CramerIdentity(m, f, i);
    SumSame(|m|, g, j => At(m[i], j) * ColDet(m, f, j));
  }

  lemma ApplyIs(m: Matrix, x: Row, i: nat, h: int -> real)
    requires Square(m) && |x| == |m| && i < |m| && forall j :: h(j) == Times(At(m[i], j), At(x, j))
    ensures Apply(m, x, i) == Sum(|m|, h)
  {
    hide Sum;
    SumSame(|m|, h, j => At(m[i], j) * At(x, j));
  }

  lemma ReorderTimes(a: real, d: real, c: real, x: real)
    requires x == d * c
    ensures Times(a, x) == Times(d, Times(a, c))
  {
    assert a * (d * c) == d * (a * c);
  }

  lemma Unscale(d: real, f: real, det: real, s: real)
    requires d * det == 1.0 && s == f * det
    ensures Times(d, s) == f
  {
    assert d * (f * det) == f * (d * det);
  }
}
