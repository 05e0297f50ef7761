/**
 The loop that solves for the phase concentrations in every cell
 (source/CALPHADequilibriumPhaseConcentrationsStrategy.C).  It walks the ghost box of the phase
 concentrations with three running indices, into fields with three different ghost widths.
 */
module PatchWalk {
  import opened RealSums
  import opened Boxes

  datatype Width = Width(i: nat, j: nat, k: nat)

  function Grow(b: Box, w: Width): Box {
    Box(Point(b.lo.i - w.i, b.lo.j - w.j, b.lo.k - w.k), b.nx + 2 * w.i, b.ny + 2 * w.j, b.nz + 2 * w.k)
  }

  lemma RowEnd(b: Box, w: Width, v: Width, jj: int, kk: int)
    ensures var o, c := Grow(b, w), Grow(b, v);
      o.CellIndex(Point(c.lo.i + c.nx, jj, kk)) + 2 * (w.i - v.i) == o.CellIndex(Point(c.lo.i, jj + 1, kk))
  {
    var o := Grow(b, w);
    NextRow(jj - o.lo.j, o.Jp());
  }

  lemma NextRow(j: int, m: int)
    ensures (j + 1) * m == j * m + m
  {}

  lemma PlaneEnd(b: Box, w: Width, v: Width, kk: int)
    ensures var o, c := Grow(b, w), Grow(b, v);
      o.CellIndex(Point(c.lo.i, c.lo.j + c.ny, kk)) + 2 * o.Jp() * (w.j - v.j) == o.CellIndex(Point(c.lo.i, c.lo.j, kk + 1))
  {
    var o, c := Grow(b, w), Grow(b, v);
    NextRow(kk - o.lo.k, o.Kp());
    PlaneRows(c.lo.j - o.lo.j, c.ny, o.Jp(), w.j - v.j, o.ny);
  }

  // From row r + n of a plane to the same row of the next one.
  lemma PlaneRows(r: int, n: int, m: int, d: int, ny: int)
    requires n + 2 * d == ny
    ensures (r + n) * m + 2 * m * d == r * m + m * ny
  {
    assert (r + n) * m == r * m + n * m;
    assert m * ny == m * (n + 2 * d) == m * n + m * (2 * d);
  }

  lemma GrowHas(b: Box, w: Width, v: Width, p: Point)
    requires v.i <= w.i && v.j <= w.j && v.k <= w.k && Grow(b, v).Has(p)
    ensures Grow(b, w).Has(p)
  {}

  function Column(x: seq<seq<real>>, n: int): (c: seq<real>)
    ensures |c| == |x| && forall ic :: 0 <= ic < |x| ==> c[ic] == At(x[ic], n)
  {
    seq(|x|, ic requires 0 <= ic < |x| => At(x[ic], n))
  }

  // temperature, composition, phi, eta and a first guess to the phase compositions.
  type Solver = (real, seq<real>, real, real, seq<real>) -> seq<real>

  class PhaseConcentrations {
    const third: bool
    const solve: Solver
    const patch: Box
    // Ghost widths of the phase field and composition, the temperature, and the phase concentrations.
    const gwPf: Width
    const gwTe: Width
    const gwCi: Width
    const nc: nat
    const temp: seq<real>
    const phi: seq<real>
    const eta: seq<real>
    const conc: seq<seq<real>>
    const clRef: seq<seq<real>>
    const caRef: seq<seq<real>>
    const cbRef: seq<seq<real>>
    const cl: array2<real>
    const ca: array2<real>
    const cb: array2<real>

    constructor (third: bool, solve: Solver, patch: Box, gwPf: Width, gwTe: Width, gwCi: Width, nc: nat,
                 temp: seq<real>, phi: seq<real>, eta: seq<real>, conc: seq<seq<real>>,
                 clRef: seq<seq<real>>, caRef: seq<seq<real>>, cbRef: seq<seq<real>>,
                 cl: array2<real>, ca: array2<real>, cb: array2<real>)
      ensures this.third == third && this.solve == solve && this.patch == patch
      ensures this.gwPf == gwPf && this.gwTe == gwTe && this.gwCi == gwCi && this.nc == nc
      ensures this.temp == temp && this.phi == phi && this.eta == eta && this.conc == conc
      ensures this.clRef == clRef && this.caRef == caRef && this.cbRef == cbRef
      ensures this.cl == cl && this.ca == ca && this.cb == cb
    {
      this.third, this.solve, this.patch := third, solve, patch;
      this.gwPf, this.gwTe, this.gwCi, this.nc := gwPf, gwTe, gwCi, nc;
      this.temp, this.phi, this.eta, this.conc := temp, phi, eta, conc;
      this.clRef, this.caRef, this.cbRef := clRef, caRef, cbRef;
      this.cl, this.ca, this.cb := cl, ca, cb;
    }

    function Pf(): Box {
      Grow(patch, gwPf)
    }

    function Te(): Box {
      Grow(patch, gwTe)
    }

    function Ci(): Box {
      Grow(patch, gwCi)
    }

    function Parts(): nat {
      if third then 3 else 2
    }

    ghost predicate Sized(x: seq<seq<real>>, b: Box) {
      |x| == nc && forall ic :: 0 <= ic < nc ==> |x[ic]| == b.Cells()
    }

    ghost predicate Valid() {
      && gwCi.i <= gwPf.i && gwCi.j <= gwPf.j && gwCi.k <= gwPf.k
      && gwCi.i <= gwTe.i && gwCi.j <= gwTe.j && gwCi.k <= gwTe.k
      && nc <= 2 && |temp| == Te().Cells() && |phi| == Pf().Cells() && (third ==> |eta| == Pf().Cells())
      && Sized(conc, Pf()) && Sized(clRef, Ci()) && Sized(caRef, Ci()) && (third ==> Sized(cbRef, Ci()))
      && cl.Length0 == ca.Length0 == cb.Length0 == nc
      && cl.Length1 == ca.Length1 == cb.Length1 == Ci().Cells()
      && cl != ca && cl != cb && ca != cb
      && (forall t, c, f, e, x :: |x| == Parts() * nc ==> |solve(t, c, f, e, x)| == |x|)
    }

    /** What the solver returns for one cell: its own temperature, composition, fields and first guess. */
    function Solution(p: Point): (x: seq<real>)
      requires Valid()
      ensures |x| == Parts() * nc
    {
      SolveAt(Te().CellIndex(p), Pf().CellIndex(p), Ci().CellIndex(p))
    }

    function SolveAt(te: int, pf: int, ci: int): (x: seq<real>)
      requires Valid()
      ensures |x| == Parts() * nc
    {
      hide Box.Cells, Grow;
      solve(At(temp, te), Column(conc, pf), At(phi, pf), if third then At(eta, pf) else 0.0,
            Column(clRef, ci) + Column(caRef, ci) + (if third then Column(cbRef, ci) else []))
    }

    // The three positions of a cell of the walk are in range.
    lemma InRange(p: Point)
      requires Valid() && Ci().Has(p)
      ensures 0 <= Te().CellIndex(p) < |temp| && 0 <= Pf().CellIndex(p) < |phi| && 0 <= Ci().CellIndex(p) < Ci().Cells()
      ensures CellAt(Ci(), Ci().CellIndex(p)) == p
    {
      hide Box.CellIndex, Box.Cells, CellAt;
      GrowHas(patch, gwPf, gwCi, p);
      GrowHas(patch, gwTe, gwCi, p);
      CellIndexBijective(Ci(), p, 0);
      CellIndexBijective(Pf(), p, 0);
      CellIndexBijective(Te(), p, 0);
    }

    /** Part of the solution stored at position n: cl, ca or cb. */
    function Stored(part: nat, c: int, n: nat): real
      requires Valid()
    {
      At(Solution(CellAt(Ci(), n)), part * nc + c)
    }

    // The cells before position n are solved.
    ghost predicate SolvedUpTo(n: int)
      requires Valid()
      reads cl, ca, cb
    {
      forall c, m: nat :: 0 <= c < nc && m < n && m < Ci().Cells() ==>
        && cl[c, m] == Stored(0, c, m) && ca[c, m] == Stored(1, c, m)
        && (third ==> cb[c, m] == Stored(2, c, m))
    }

    // c is the composition at cell p, and x the first guess: what clRef, caRef and cbRef hold there.
    ghost predicate Reads(p: Point, c: seq<real>, x: seq<real>)
      requires Valid() && Ci().Has(p)
    {
      InRange(p);
      var pf, ci := Pf().CellIndex(p), Ci().CellIndex(p);
      && |c| == nc && (forall k :: 0 <= k < nc ==> c[k] == conc[k][pf])
      && |x| == Parts() * nc
      && (forall k :: 0 <= k < nc ==> x[k] == clRef[k][ci] && x[nc + k] == caRef[k][ci] && (third ==> x[2 * nc + k] == cbRef[k][ci]))
    }

    // The first nc entries of y are in cl at cell p, the next in ca, and with a third phase the last in cb.
    ghost predicate Stores(p: Point, y: seq<real>)
      requires Valid() && Ci().Has(p) && |y| == Parts() * nc
      reads cl, ca, cb
    {
      InRange(p);
      var ci := Ci().CellIndex(p);
      forall k :: 0 <= k < nc ==> cl[k, ci] == y[k] && ca[k, ci] == y[nc + k] && (third ==> cb[k, ci] == y[2 * nc + k])
    }

    // The solver applied to the temperature, phi and eta at cell p.
    function SolvedFrom(p: Point, c: seq<real>, x: seq<real>): (y: seq<real>)
      requires Valid() && Ci().Has(p) && |x| == Parts() * nc
      ensures |y| == Parts() * nc
    {
      hide Box.Cells, Grow, Box.CellIndex, CellAt;
      InRange(p);
      var t, f, e := temp[Te().CellIndex(p)], phi[Pf().CellIndex(p)], if third then eta[Pf().CellIndex(p)] else 0.0;
      assert t == At(temp, Te().CellIndex(p)) && f == At(phi, Pf().CellIndex(p));
      solve(t, c, f, e, x)
    }

    /** Every cell holds what the solver makes of its own temperature, composition, phi, eta and first guess. */
    ghost predicate EveryCellSolved()
      requires Valid()
      reads cl, ca, cb
    {
      forall p, c, x :: Ci().Has(p) && Reads(p, c, x) ==> Stores(p, SolvedFrom(p, c, x))
    }

    lemma AllSolved()
      requires Valid() && SolvedUpTo(Ci().Cells())
      ensures EveryCellSolved()
    {
      hide Box.CellIndex, Box.Cells, CellAt, Grow, Stores, SolvedFrom, SolvedUpTo;
      forall p, c, x | Ci().Has(p) && Reads(p, c, x)
        ensures Stores(p, SolvedFrom(p, c, x))
      {
        OneSolved(p, c, x);
      }
    }

    lemma OneSolved(p: Point, c: seq<real>, x: seq<real>)
      requires Valid() && SolvedUpTo(Ci().Cells()) && Ci().Has(p) && Reads(p, c, x)
      ensures Stores(p, SolvedFrom(p, c, x))
    {
      hide Box.CellIndex, Box.Cells, CellAt, Grow;
      InRange(p);
      var pf, ci := Pf().CellIndex(p), Ci().CellIndex(p);
      assert c == Column(conc, pf);
      assert x == Column(clRef, ci) + Column(caRef, ci) + (if third then Column(cbRef, ci) else []);
      assert SolvedFrom(p, c, x) == Solution(p);
    }

    /** Every cell of the ghost box of the phase concentrations is solved from its own data. */
    method ComputePhaseConcentrationsOnPatch()
      requires Valid()
      modifies cl, ca, cb
      ensures EveryCellSolved()
    {
      hide Box.CellIndex, Box.Cells, CellAt, SolvedUpTo, Grow, Valid;
      var ci, pf, te := Ci(), Pf(), Te();
      var lo := ci.lo;
      var idxPf := pf.CellIndex(lo);
      var idxTe := te.CellIndex(lo);
      var idxCi := ci.CellIndex(lo);
      StartOfWalk();
      for kk := lo.k to lo.k + ci.nz
        invariant idxPf == pf.CellIndex(Point(lo.i, lo.j, kk)) && idxTe == te.CellIndex(Point(lo.i, lo.j, kk))
        invariant idxCi == ci.CellIndex(Point(lo.i, lo.j, kk)) && SolvedUpTo(idxCi)
      {
        for jj := lo.j to lo.j + ci.ny
          invariant idxPf == pf.CellIndex(Point(lo.i, jj, kk)) && idxTe == te.CellIndex(Point(lo.i, jj, kk))
          invariant idxCi == ci.CellIndex(Point(lo.i, jj, kk)) && SolvedUpTo(idxCi)
        {
          for ii := lo.i to lo.i + ci.nx
            invariant idxPf == pf.CellIndex(Point(ii, jj, kk)) && idxTe == te.CellIndex(Point(ii, jj, kk))
            invariant idxCi == ci.CellIndex(Point(ii, jj, kk)) && SolvedUpTo(idxCi)
          {
            var p := Point(ii, jj, kk);
            SolveCell(p, idxTe, idxPf, idxCi);
            CellStep(pf, p);
            CellStep(te, p);
            CellStep(ci, p);
            idxPf := idxPf + 1;
            idxTe := idxTe + 1;
            idxCi := idxCi + 1;
          }
          RowEnd(patch, gwPf, gwCi, jj, kk);
          RowEnd(patch, gwTe, gwCi, jj, kk);
          RowEnd(patch, gwCi, gwCi, jj, kk);
          idxPf := idxPf + 2 * (gwPf.i - gwCi.i);
          idxTe := idxTe + 2 * (gwTe.i - gwCi.i);
        }
        PlaneEnd(patch, gwPf, gwCi, kk);
        PlaneEnd(patch, gwTe, gwCi, kk);
        PlaneEnd(patch, gwCi, gwCi, kk);
        idxPf := idxPf + 2 * pf.Jp() * (gwPf.j - gwCi.j);
        idxTe := idxTe + 2 * te.Jp() * (gwTe.j - gwCi.j);
      }
      EndOfWalk();
      AllSolved();
    }

    // What the solver reads at cell p.
    lemma DataAt(p: Point) returns (c: seq<real>, x: seq<real>)
      requires Valid() && Ci().Has(p)
      ensures Reads(p, c, x)
    {
      hide Box.CellIndex, Box.Cells, CellAt, Grow;
      InRange(p);
      var pf, ci := Pf().CellIndex(p), Ci().CellIndex(p);
      c := Column(conc, pf);
      x := Column(clRef, ci) + Column(caRef, ci) + (if third then Column(cbRef, ci) else []);
    }

    /** A solver that returns its first guess leaves the three reference compositions in their places. */
    lemma GuessReturned(p: Point, k: nat)
      requires Valid() && EveryCellSolved() && Ci().Has(p) && k < nc
      requires forall t, c, f, e, x :: |x| == Parts() * nc ==> solve(t, c, f, e, x) == x
      ensures 0 <= Ci().CellIndex(p) < Ci().Cells()
      ensures var ci := Ci().CellIndex(p);
        cl[k, ci] == clRef[k][ci] && ca[k, ci] == caRef[k][ci] && (third ==> cb[k, ci] == cbRef[k][ci])
    {
      hide Box.CellIndex, Box.Cells, CellAt, Grow, EveryCellSolved;
      InRange(p);
      var c, x := DataAt(p);
      OneCell(p, c, x);
      var e := if third then At(eta, Pf().CellIndex(p)) else 0.0;
      assert solve(At(temp, Te().CellIndex(p)), c, At(phi, Pf().CellIndex(p)), e, x) == x;
      var y := SolvedFrom(p, c, x);
      assert y == x;
      assert x[k] == clRef[k][Ci().CellIndex(p)] && x[nc + k] == caRef[k][Ci().CellIndex(p)];
      assert cl[k, Ci().CellIndex(p)] == y[k] && ca[k, Ci().CellIndex(p)] == y[nc + k];
      if third {
        assert x[2 * nc + k] == cbRef[k][Ci().CellIndex(p)];
      }
    }

    lemma OneCell(p: Point, c: seq<real>, x: seq<real>)
      requires Valid() && EveryCellSolved() && Ci().Has(p) && Reads(p, c, x)
      ensures Stores(p, SolvedFrom(p, c, x))
    {
      hide Box.CellIndex, Box.Cells, CellAt, Grow, Reads, Stores, SolvedFrom, Valid;
    }

    /** A solver whose first result combines its arguments shows which data it was given. */
    lemma FieldsReachSolver(p: Point, wt: real, wc: real, wf: real, we: real)
      requires Valid() && EveryCellSolved() && Ci().Has(p) && nc > 0
      requires forall t, c, f, e, x :: |c| == nc && |x| == Parts() * nc ==> solve(t, c, f, e, x)[0] == wt * t + wc * c[0] + wf * f + we * e
      ensures 0 <= Ci().CellIndex(p) < Ci().Cells() && 0 <= Te().CellIndex(p) < |temp| && 0 <= Pf().CellIndex(p) < |phi|
      ensures cl[0, Ci().CellIndex(p)] == wt * temp[Te().CellIndex(p)] + wc * conc[0][Pf().CellIndex(p)] + wf * phi[Pf().CellIndex(p)]
        + we * (if third then eta[Pf().CellIndex(p)] else 0.0)
    {
      hide Box.CellIndex, Box.Cells, CellAt, Grow, EveryCellSolved;
      InRange(p);
      var c, x := DataAt(p);
      OneCell(p, c, x);
      var t, f, e := At(temp, Te().CellIndex(p)), At(phi, Pf().CellIndex(p)), if third then At(eta, Pf().CellIndex(p)) else 0.0;
      assert solve(t, c, f, e, x)[0] == wt * t + wc * c[0] + wf * f + we * e;
      assert SolvedFrom(p, c, x) == solve(t, c, f, e, x);
    }

    lemma StartOfWalk()
      requires Valid()
      ensures Ci().CellIndex(Ci().lo) == 0 && SolvedUpTo(0)
    {}

    lemma EndOfWalk()
      requires Valid()
      ensures Ci().CellIndex(Point(Ci().lo.i, Ci().lo.j, Ci().lo.k + Ci().nz)) == Ci().Cells()
    {
      Strides(Ci().nx, Ci().ny, 0, Ci().nz);
    }

    // The body of the loops: read c and the first guess into x, solve, and store x.
    method SolveCell(p: Point, idxTe: int, idxPf: int, idxCi: int)
      requires Valid() && Ci().Has(p) && SolvedUpTo(idxCi)
      requires idxTe == Te().CellIndex(p) && idxPf == Pf().CellIndex(p) && idxCi == Ci().CellIndex(p)
      modifies cl, ca, cb
      ensures SolvedUpTo(idxCi + 1)
    {
      hide Box.CellIndex, Box.Cells, CellAt, Grow;
      InRange(p);
      var e := 0.0;
      if third {
        e := eta[idxPf];
      }
      var c := [];
      for ic := 0 to nc
        invariant |c| == ic && forall k :: 0 <= k < ic ==> c[k] == At(conc[k], idxPf)
      {
        c := c + [conc[ic][idxPf]];
      }
      var x := ReadGuess(idxCi);
      assert c == Column(conc, idxPf);
      var y := solve(temp[idxTe], c, phi[idxPf], e, x);
      assert y == SolveAt(idxTe, idxPf, idxCi) == Solution(p);
      StoreSolution(y, idxCi);
    }

    method ReadGuess(idxCi: int) returns (x: seq<real>)
      requires Valid() && 0 <= idxCi < Ci().Cells()
      ensures x == Column(clRef, idxCi) + Column(caRef, idxCi) + (if third then Column(cbRef, idxCi) else [])
    {
      hide Box.CellIndex, Box.Cells, Grow;
      x := seq(Parts() * nc, k => 0.0);
      for ic := 0 to nc
        invariant |x| == Parts() * nc
        invariant forall k :: 0 <= k < ic ==> x[k] == clRef[k][idxCi] && x[nc + k] == caRef[k][idxCi]
        invariant forall k :: 0 <= k < ic && third ==> x[2 * nc + k] == cbRef[k][idxCi]
      {
        x := x[ic := clRef[ic][idxCi]];
        x := x[nc + ic := caRef[ic][idxCi]];
        if third {
          x := x[2 * nc + ic := cbRef[ic][idxCi]];
        }
      }
    }

    method StoreSolution(y: seq<real>, idxCi: int)
      requires Valid() && 0 <= idxCi < Ci().Cells() && |y| == Parts() * nc && SolvedUpTo(idxCi)
      requires y == Solution(CellAt(Ci(), idxCi))
      modifies cl, ca, cb
      ensures SolvedUpTo(idxCi + 1)
    {
      hide Box.CellIndex, Box.Cells, CellAt, Grow, Solution;
      for ic := 0 to nc
        invariant SolvedUpTo(idxCi)
        invariant forall k :: 0 <= k < ic ==> cl[k, idxCi] == y[k] && ca[k, idxCi] == y[nc + k] && (third ==> cb[k, idxCi] == y[2 * nc + k])
      {
        cl[ic, idxCi] := y[ic];
        ca[ic, idxCi] := y[nc + ic];
        if third {
          cb[ic, idxCi] := y[2 * nc + ic];
        }
      }
    }
  }
}
