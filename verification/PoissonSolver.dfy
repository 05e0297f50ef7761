/**
 Assembly of the symmetrised matrix and the scaling of right-hand side and solution
 (source/CellPoissonHypreSolver.C), with the Fortran kernels it calls
 (source/fortran/3d/hyprepoisson.m4 and the SAMRAI compdiag kernels).  One patch, no ghost-cell
 adjustment.  Read-only patch data are functions of the cell or face.
 */
module PoissonSolver {
  import opened RealSums
  import opened RealFacts
  import opened Indices
  import opened Boxes
  import opened PoissonOperator
  import A = SqrtArray

  datatype DCoef = DConst(d: real) | DVar(field: FaceField)

  datatype CCoef = CZero | CConst(c: real) | CVar(field: CellField)

  // A variable M is cell data over a box with ghost cells.
  datatype MCoef = MConst(k: real) | MVar(data: seq<real>, dataBox: Box)

  // The specification of one solve; h is the mesh spacing.
  datatype PoissonSpec = PoissonSpec(d: DCoef, c: CCoef, m: MCoef, h: Side -> real) {
    ghost predicate Valid() {
      forall s: Side :: h(s) > 0.0
    }

    /** D / h^2 on a face. */
    function Coefficient(s: Side, p: Point): real
      requires h(s) > 0.0
    {
      match d
      case DConst(x) => x / (h(s) * h(s))
      case DVar(f) => (1.0 / (h(s) * h(s))) * f(s, p)
    }

    lemma CoefficientMeans(s: Side, p: Point)
      requires h(s) > 0.0
      ensures h(s) * h(s) * Coefficient(s, p) == if d.DConst? then d.d else d.field(s, p)
    {
      PositiveProduct(h(s), h(s));
      Quotients(if d.DConst? then d.d else d.field(s, p), h(s) * h(s));
    }

    function CAt(p: Point): real {
      match c case CZero => 0.0 case CConst(x) => x case CVar(f) => f(p)
    }

    function MAt(p: Point): real {
      match m case MConst(k) => k case MVar(x, b) => At(x, b.CellIndex(p))
    }
  }

  // The number of a cell along a side.
  function Coord(s: Side, p: Point): real {
    match s case X => p.i as real case Y => p.j as real case Z => p.k as real
  }

  /** A quadratic in the coordinates h p of a cell: a constant, and for each side a slope b and a curvature g. */
  datatype Quadratic = Quadratic(a: real, b: Side -> real, g: Side -> real) {
    // What side s contributes at the coordinate h t.
    function Part(h: Side -> real, s: Side, t: real): real {
      b(s) * (h(s) * t) + g(s) * ((h(s) * t) * (h(s) * t)) / 2.0
    }

    function At(h: Side -> real, p: Point): real {
      a + Part(h, X, Coord(X, p)) + Part(h, Y, Coord(Y, p)) + Part(h, Z, Coord(Z, p))
    }

    // The partial derivative at the coordinate h t.
    function SlopeAt(h: Side -> real, s: Side, t: real): real {
      b(s) + g(s) * (h(s) * t)
    }

    lemma Differences(h: Side -> real, s: Side, p: Point)
      ensures At(h, Fwd(s, p)) - At(h, p) == h(s) * SlopeAt(h, s, Coord(s, p) + 0.5)
      ensures At(h, Back(s, p)) - At(h, p) == -(h(s) * SlopeAt(h, s, Coord(s, p) - 0.5))
    {
      hide Part, SlopeAt;
      PartDifference(h, s, Coord(s, p), Coord(s, Fwd(s, p)));
      PartDifference(h, s, Coord(s, Back(s, p)), Coord(s, p));
      match s {
        case X =>
        case Y =>
        case Z =>
      }
    }

    lemma PartDifference(h: Side -> real, s: Side, t: real, t': real)
      requires t' == t + 1.0
      ensures Part(h, s, t') - Part(h, s, t) == h(s) * SlopeAt(h, s, t + 0.5)
      ensures t + 0.5 == t' - 0.5
    {
      MeanSlope(b(s), g(s), h(s), t);
    }
  }

  lemma MeanSlope(b: real, g: real, h: real, t: real)
    ensures (b * (h * (t + 1.0)) + g * ((h * (t + 1.0)) * (h * (t + 1.0))) / 2.0) - (b * (h * t) + g * ((h * t) * (h * t)) / 2.0)
      == h * (b + g * (h * (t + 0.5)))
  {}

  lemma Quotients(x: real, y: real)
    requires y > 0.0
    ensures y * (x / y) == x && y * ((1.0 / y) * x) == x
  {
    assert y * (1.0 / y) == 1.0;
    assert y * ((1.0 / y) * x) == (y * (1.0 / y)) * x;
  }

  lemma UnscaledEntry(h2: real, a: real, x: real, y: real, d: real)
    requires h2 * a == d
    ensures h2 * (a * x * y) == d * (x * y) && h2 * (x * a) == d * x
  {
    assert h2 * (a * x * y) == (h2 * a) * (x * y) && h2 * (x * a) == (h2 * a) * x;
  }

  lemma FluxParts(h: real, al: real, au: real, dl: real, du: real, l: real, u: real, sl: real, su: real)
    requires h > 0.0 && h * h * al == dl && h * h * au == du && u == h * su && l == -(h * sl)
    ensures h * (al * l + au * u) == du * su - dl * sl
  {
    assert h * (al * (h * sl)) == (h * h * al) * sl;
    assert h * (au * (h * su)) == (h * h * au) * su;
  }

  lemma SlopeDifference(h: real, t: real, b: real, g: real, x: real, f: real)
    requires h > 0.0 && h * f == x * (b + g * (h * (t + 0.5))) - x * (b + g * (h * (t - 0.5)))
    ensures f == x * g
  {
    assert h * f == h * (x * g);
  }

  // What is used of the square root.
  ghost predicate IsSqrt(sqrt: real -> real) {
    forall x :: x > 0.0 ==> sqrt(x) > 0.0 && sqrt(x) * sqrt(x) == x
  }

  // An entry of an array from new double[n]: it has a value only after it is assigned.
  datatype Entry = Unassigned | Assigned(value: real)

  // Packed entries and right-hand side to solution.
  type LinearSolver = (seq<Entry>, seq<real>) -> seq<real>

  function ValueAt(x: seq<Entry>, n: int): real {
    if 0 <= n < |x| && x[n].Assigned? then x[n].value else 0.0
  }

  /** Exactly the positions of `writes` are assigned, and those are 0, 1, 2, ... in this order. */
  ghost predicate WrittenInOrder(mat: array<Entry>, writes: seq<nat>)
    reads mat
  {
    && |writes| <= mat.Length && (forall i :: 0 <= i < |writes| ==> writes[i] == i)
    && forall m :: 0 <= m < mat.Length ==> (mat[m].Assigned? <==> m < |writes|)
  }

  lemma NothingWritten(mat: array<Entry>)
    requires forall m :: 0 <= m < mat.Length ==> mat[m].Unassigned?
    ensures WrittenInOrder(mat, [])
  {}

  // Assigns the next entry, which has not been assigned before.
  method Put(mat: array<Entry>, i: int, x: real, ghost writes: seq<nat>) returns (ghost writes': seq<nat>)
    requires WrittenInOrder(mat, writes) && i == |writes| < mat.Length
    modifies mat
    ensures mat[..] == old(mat[..])[i := Assigned(x)] && writes' == writes + [i]
    ensures old(mat[i]).Unassigned? && WrittenInOrder(mat, writes')
  {
    mat[i] := Assigned(x);
    writes' := writes + [i];
  }

  class CellPoissonHypreSolver {
    const box: Box
    const ndim: nat
    const sqrt: real -> real
    // Set by a variable M and never cleared.
    var msqrtTransform: bool
    const diagonal: array<real>
    const offx: array<real>
    const offy: array<real>
    const offz: array<real>
    // M^1/2 on the box and one layer of ghost cells.
    const msqrt: array<real>

    constructor (box: Box, ndim: nat, sqrt: real -> real)
      requires ndim == 3 || (ndim == 2 && box.nz == 1)
      ensures Valid() && this.box == box && this.ndim == ndim && this.sqrt == sqrt && !msqrtTransform
      ensures fresh({diagonal, offx, offy, offz, msqrt})
    {
      this.box, this.ndim, this.sqrt, msqrtTransform := box, ndim, sqrt, false;
      diagonal := new real[box.Cells()];
      offx := new real[box.Faces(X)];
      offy := new real[box.Faces(Y)];
      offz := new real[box.Faces(Z)];
      msqrt := new real[Ghosts(box, ndim).Cells()];
    }

    function Data(s: Side): array<real> {
      match s case X => offx case Y => offy case Z => offz
    }

    ghost predicate Valid() {
      && (ndim == 3 || (ndim == 2 && box.nz == 1))
      && diagonal.Length == box.Cells() && msqrt.Length == Ghosts(box, ndim).Cells()
      && (forall s: Side :: Data(s).Length == box.Faces(s))
      && offx != offy && offx != offz && offy != offz
      && diagonal !in {offx, offy, offz} && msqrt !in {diagonal, offx, offy, offz}
    }

    // The sides a solver of this dimension uses.
    predicate Used(s: Side) {
      s.Z? ==> ndim == 3
    }

    /** What the arrays hold, as a stencil. */
    ghost function Matrix(): Stencil
      reads diagonal, offx, offy, offz
    {
      var dg, fx, fy, fz := diagonal[..], offx[..], offy[..], offz[..];
      var b := box;
      Stencil((p: Point) => At(dg, b.CellIndex(p)), (s: Side, p: Point) => At(match s case X => fx case Y => fy case Z => fz, b.FaceIndex(s, p)))
    }

    /** The operator that a specification describes. */
    ghost function Op(spec: PoissonSpec): Operator
      requires spec.Valid()
    {
      Operator(box, ndim, (s, p) requires spec.h(s) > 0.0 => spec.Coefficient(s, p), p => spec.CAt(p), p => sqrt(spec.MAt(p)))
    }

    /** The coefficients of the operator: D over h^2 on every face, and C in every cell, whichever way they are given. */
    lemma CoefficientsMean(spec: PoissonSpec, s: Side, p: Point)
      requires spec.Valid()
      ensures spec.h(s) * spec.h(s) * Op(spec).a(s, p) == if spec.d.DConst? then spec.d.d else spec.d.field(s, p)
      ensures Op(spec).c(p) == if spec.c.CZero? then 0.0 else if spec.c.CConst? then spec.c.c else spec.c.field(p)
    {
      hide PoissonSpec.Coefficient, PoissonSpec.MAt;
      assert Op(spec).a(s, p) == spec.Coefficient(s, p) && Op(spec).c(p) == spec.CAt(p);
      hide Op;
      spec.CoefficientMeans(s, p);
    }

    /** So h^2 times an off-diagonal entry is D times M, or D times M^1/2 in the two cells beside the face. */
    lemma OffDiagonalMeans(spec: PoissonSpec, m: Stencil, d: real, s: Side, p: Point)
      requires spec.Valid() && box.HasFace(s, p) && Used(s) && d == if spec.d.DConst? then spec.d.d else spec.d.field(s, p)
      ensures spec.m.MConst? && ScaledBy(Op(spec), spec.m.k, m) ==> spec.h(s) * spec.h(s) * m.off(s, p) == d * spec.m.k
      ensures Symmetrised(Op(spec), m) ==> spec.h(s) * spec.h(s) * m.off(s, p) == d * (Op(spec).s(Back(s, p)) * Op(spec).s(p))
    {
      hide Adjacent, Box.Has, Box.HasFace, PoissonSpec.Coefficient, PoissonSpec.CAt, PoissonSpec.MAt;
      CoefficientsMean(spec, s, p);
      var o, h2 := Op(spec), spec.h(s) * spec.h(s);
      if spec.m.MConst? {
        UnscaledEntry(h2, o.a(s, p), spec.m.k, 1.0, d);
      }
      UnscaledEntry(h2, o.a(s, p), o.s(Back(s, p)), o.s(p), d);
    }

    /** M is a constant or the datum of the cell, and the root squares to it. */
    lemma MobilityMeans(spec: PoissonSpec, p: Point, m: real)
      requires spec.Valid() && IsSqrt(sqrt) && m > 0.0
      requires m == if spec.m.MConst? then spec.m.k else At(spec.m.data, spec.m.dataBox.CellIndex(p))
      ensures Op(spec).s(p) > 0.0 && Op(spec).s(p) * Op(spec).s(p) == m
    {
      hide PoissonSpec.Coefficient, PoissonSpec.CAt, Box.CellIndex;
      assert spec.MAt(p) == m;
      assert Op(spec).s(p) == sqrt(m);
    }

    /**
     On a quadratic u the flux difference of a side is exact: h times it is D u' at the centre of the
     upper face less D u' at the centre of the lower one.
     */
    lemma FluxOfQuadratic(spec: PoissonSpec, d: FaceField, u: CellField, w: Quadratic, s: Side, p: Point)
      requires spec.Valid() && forall t, q :: d(t, q) == if spec.d.DConst? then spec.d.d else spec.d.field(t, q)
      requires forall q :: u(q) == w.At(spec.h, q)
      requires box.Has(p) && box.Has(Back(s, p)) && box.Has(Fwd(s, p))
      ensures spec.h(s) * Flux(Op(spec), u, s, p)
        == d(s, Fwd(s, p)) * w.SlopeAt(spec.h, s, Coord(s, p) + 0.5) - d(s, p) * w.SlopeAt(spec.h, s, Coord(s, p) - 0.5)
    {
      hide PoissonSpec.Coefficient, PoissonSpec.CAt, PoissonSpec.MAt, Box.Has, Quadratic.At, Quadratic.SlopeAt, Coord;
      var o, h := Op(spec), spec.h(s);
      CoefficientsMean(spec, s, p);
      CoefficientsMean(spec, s, Fwd(s, p));
      w.Differences(spec.h, s, p);
      assert Flux(o, u, s, p) == o.a(s, p) * (u(Back(s, p)) - u(p)) + o.a(s, Fwd(s, p)) * (u(Fwd(s, p)) - u(p));
      hide Op, Flux;
      var sl, su := w.SlopeAt(spec.h, s, Coord(s, p) - 0.5), w.SlopeAt(spec.h, s, Coord(s, p) + 0.5);
      var l, r := u(Back(s, p)) - u(p), u(Fwd(s, p)) - u(p);
      assert l == w.At(spec.h, Back(s, p)) - w.At(spec.h, p) && r == w.At(spec.h, Fwd(s, p)) - w.At(spec.h, p);
      assert l == -(h * sl) && r == h * su;
      FluxParts(h, o.a(s, p), o.a(s, Fwd(s, p)), d(s, p), d(s, Fwd(s, p)), l, r, sl, su);
    }

    /** So with a constant D, M div(D grad u) + C u is exact on quadratics. */
    lemma ExactOnQuadratics(spec: PoissonSpec, x: real, m: real, c: real, u: CellField, w: Quadratic, p: Point)
      requires spec.Valid() && IsSqrt(sqrt) && spec.d == DConst(x) && m > 0.0
      requires m == if spec.m.MConst? then spec.m.k else At(spec.m.data, spec.m.dataBox.CellIndex(p))
      requires c == if spec.c.CZero? then 0.0 else if spec.c.CConst? then spec.c.c else spec.c.field(p)
      requires forall q :: u(q) == w.At(spec.h, q)
      requires box.Has(p) && forall s: Side :: Used(s) ==> box.Has(Back(s, p)) && box.Has(Fwd(s, p))
      ensures Continuous(Op(spec), u, p) == m * (x * (w.g(X) + w.g(Y) + (if ndim == 3 then w.g(Z) else 0.0))) + c * u(p)
    {
      hide PoissonSpec.Coefficient, PoissonSpec.CAt, PoissonSpec.MAt, Box.Has, Quadratic.At, IsSqrt, Flux, Box.CellIndex;
      CoefficientsMean(spec, X, p);
      MobilityMeans(spec, p, m);
      ConstantFlux(spec, x, u, w, X, p);
      ConstantFlux(spec, x, u, w, Y, p);
      if ndim == 3 {
        ConstantFlux(spec, x, u, w, Z, p);
      }
      TimesSum3(x, w.g(X), w.g(Y), if ndim == 3 then w.g(Z) else 0.0);
    }

    lemma ConstantFlux(spec: PoissonSpec, x: real, u: CellField, w: Quadratic, s: Side, p: Point)
      requires spec.Valid() && spec.d == DConst(x) && forall q :: u(q) == w.At(spec.h, q)
      requires box.Has(p) && box.Has(Back(s, p)) && box.Has(Fwd(s, p))
      ensures Flux(Op(spec), u, s, p) == x * w.g(s)
    {
      hide PoissonSpec.Coefficient, PoissonSpec.CAt, PoissonSpec.MAt, Box.Has, Quadratic.At, Flux, Coord;
      FluxOfQuadratic(spec, (t, q) => x, u, w, s, p);
      SlopeDifference(spec.h(s), Coord(s, p), w.b(s), w.g(s), x, Flux(Op(spec), u, s, p));
    }

    // The entries of one side, as a function of the face, and the diagonal as a function of the cell.

    ghost predicate Holds(s: Side, f: FaceField)
      requires Valid()
      reads Data(s)
    {
      forall n: nat :: n < box.Faces(s) ==> Data(s)[n] == f(s, box.FaceAt(s, n))
    }

    ghost predicate DiagonalHolds(f: CellField)
      requires Valid()
      reads diagonal
    {
      forall n: nat :: n < box.Cells() ==> diagonal[n] == f(CellAt(box, n))
    }

    ghost predicate RootHolds(f: CellField)
      requires Valid()
      reads msqrt
    {
      forall n: nat :: n < Ghosts(box, ndim).Cells() ==> msqrt[n] == f(CellAt(Ghosts(box, ndim), n))
    }

    // ----- the kernels -----

    // D / h^2 on every face of one side.
    method FillSide(s: Side, spec: PoissonSpec)
      requires Valid() && spec.Valid()
      modifies Data(s)
      ensures Holds(s, Op(spec).a)
    {
      hide Box.Faces, Box.FaceAt, PoissonSpec.Coefficient;
      var off := Data(s);
      for n := 0 to box.Faces(s)
        invariant forall m: nat :: m < n ==> off[m] == spec.Coefficient(s, box.FaceAt(s, m))
      {
        off[n] := spec.Coefficient(s, box.FaceAt(s, n));
      }
    }

    /** The compdiag kernels: C minus the off-diagonal entries of all faces of each cell. */
    method ComputeDiagonalEntries(c: CellField, ghost o: Operator, ghost d: CellField)
      requires Valid() && o.box == box && o.ndim == ndim && forall s: Side :: Used(s) ==> Holds(s, o.a)
      requires forall p :: d(p) == c(p) - Adjacent(o, p)
      modifies diagonal
      ensures DiagonalHolds(d)
    {
      hide Box.FaceIndex, Box.FaceAt, Box.Faces, Box.CellIndex, Box.Cells, CellAt, Adjacent, Holds;
      var lo := box.lo;
      var idx := 0;
      CellStart(box);
      for k := lo.k to lo.k + box.nz
        invariant idx == box.CellIndex(Point(lo.i, lo.j, k))
        invariant forall n: nat :: n < idx && n < box.Cells() ==> diagonal[n] == d(CellAt(box, n))
      {
        for j := lo.j to lo.j + box.ny
          invariant idx == box.CellIndex(Point(lo.i, j, k))
          invariant forall n: nat :: n < idx && n < box.Cells() ==> diagonal[n] == d(CellAt(box, n))
        {
          for i := lo.i to lo.i + box.nx
            invariant idx == box.CellIndex(Point(i, j, k))
            invariant forall n: nat :: n < idx && n < box.Cells() ==> diagonal[n] == d(CellAt(box, n))
          {
            var p := Point(i, j, k);
            var entry := DiagonalEntry(c, p, o);
            CellIndexBijective(box, p, 0);
            diagonal[idx] := entry;
            CellStep(box, p);
            idx := idx + 1;
          }
          CellRowEnd(box, j, k);
        }
        CellPlaneEnd(box, k);
      }
      CellEnd(box);
    }

    method DiagonalEntry(c: CellField, p: Point, ghost o: Operator) returns (d: real)
      requires Valid() && o.box == box && o.ndim == ndim && box.Has(p) && forall s: Side :: Used(s) ==> Holds(s, o.a)
      ensures d == c(p) - Adjacent(o, p)
    {
      hide Box.FaceIndex, Box.FaceAt, Box.Faces, Box.Has, Box.HasFace;
      var x := BothFaces(X, p, o.a);
      var y := BothFaces(Y, p, o.a);
      if ndim == 2 {
        d := c(p) - (x + y);
      } else {
        var z := BothFaces(Z, p, o.a);
        d := c(p) - (x + y + z);
      }
    }

    method BothFaces(s: Side, p: Point, ghost a: FaceField) returns (r: real)
      requires Valid() && box.Has(p) && Holds(s, a)
      ensures r == SideSum(a, s, p)
    {
      hide Box.FaceIndex, Box.FaceAt, Box.Faces, Box.Has, Box.HasFace;
      FacesOfCell(box, s, p);
      FaceIndexBijective(box, s, p, 0);
      FaceIndexBijective(box, s, Fwd(s, p), 0);
      r := Data(s)[box.FaceIndex(s, p)] + Data(s)[box.FaceIndex(s, Fwd(s, p))];
    }

    /** The kernel multiplyoffdiagbym on one side: each entry times M^1/2 in the two cells beside its face. */
    method MultiplySide(s: Side, ghost a: FaceField, ghost r: CellField, ghost f: FaceField)
      requires Valid() && Used(s) && Holds(s, a) && RootHolds(r)
      requires forall t, p :: f(t, p) == Triple(a(t, p), r(Back(t, p)), r(p))
      modifies Data(s)
      ensures Holds(s, f)
    {
      hide Box.FaceIndex, Box.FaceAt, Box.Faces, Box.CellIndex, Box.Cells, CellAt, RootHolds, Triple, Box.HasFace;
      var off := Data(s);
      var lo := box.lo;
      ghost var fa := (n: nat) => a(s, box.FaceAt(s, n));
      var idx := 0;
      FaceStartAndEnd(box, s);
      for k := lo.k to lo.k + box.FacesZ(s)
        invariant idx == box.FaceIndex(s, Point(lo.i, lo.j, k))
        invariant forall n: nat :: n < box.Faces(s) ==> off[n] == if n < idx then f(s, box.FaceAt(s, n)) else fa(n)
      {
        for j := lo.j to lo.j + box.FacesY(s)
          invariant idx == box.FaceIndex(s, Point(lo.i, j, k))
          invariant forall n: nat :: n < box.Faces(s) ==> off[n] == if n < idx then f(s, box.FaceAt(s, n)) else fa(n)
        {
          for i := lo.i to lo.i + box.FacesX(s)
            invariant idx == box.FaceIndex(s, Point(i, j, k))
            invariant forall n: nat :: n < box.Faces(s) ==> off[n] == if n < idx then f(s, box.FaceAt(s, n)) else fa(n)
          {
            var p := Point(i, j, k);
            FaceInLoops(box, s, p);
            FaceIndexBijective(box, s, p, 0);
            var behind, here := RootsBeside(s, p, r);
            var e := Triple(off[idx], behind, here);
            off[idx] := e;
            NextFace(box, s, p);
            idx := idx + 1;
          }
          FaceRowEnd(box, s, j, k);
        }
        FacePlaneEnd(box, s, k);
      }
    }

    method RootsBeside(s: Side, p: Point, ghost r: CellField) returns (behind: real, here: real)
      requires Valid() && Used(s) && box.HasFace(s, p) && RootHolds(r)
      ensures behind == r(Back(s, p)) && here == r(p)
    {
      hide Box.CellIndex, Box.Cells, CellAt;
      var g := Ghosts(box, ndim);
      assert g.Has(p) && g.Has(Back(s, p));
      CellIndexBijective(g, p, 0);
      CellIndexBijective(g, Back(s, p), 0);
      behind := msqrt[g.CellIndex(Back(s, p))];
      here := msqrt[g.CellIndex(p)];
    }

    // M^1/2 on the box and its ghost cells, by sqrtArray.
    method ComputeRoot(data: seq<real>, dataBox: Box, ghost r: CellField)
      requires Valid() && |data| == dataBox.Cells() && Contains(dataBox, Ghosts(box, ndim))
      requires forall p :: r(p) == sqrt(At(data, dataBox.CellIndex(p)))
      modifies msqrt
      ensures RootHolds(r)
    {
      hide A.NBox.Size, A.Geometry.Selected, A.Root, Box.Cells, CellAt, Box.CellIndex, A.NBox.Empty;
      var g := A.Geometry(3, AsNBox(Ghosts(box, ndim)), AsNBox(Ghosts(box, ndim)), AsNBox(dataBox));
      SameSize(Ghosts(box, ndim));
      SameSize(dataBox);
      NotEmpty(Ghosts(box, ndim), g);
      A.SqrtArray(sqrt, g, 1, msqrt, data);
      forall n: nat | n < Ghosts(box, ndim).Cells()
        ensures msqrt[n] == sqrt(At(data, dataBox.CellIndex(CellAt(Ghosts(box, ndim), n))))
      {
        RootAt(g, Ghosts(box, ndim), dataBox, sqrt, data, n);
      }
    }

    // Library scaling of the face data by a constant, over the faces of the patch.
    method ScaleSide(s: Side, k: real, ghost a: FaceField, ghost f: FaceField)
      requires Valid() && Holds(s, a) && forall t, p :: f(t, p) == Times(k, a(t, p))
      modifies Data(s)
      ensures Holds(s, f)
    {
      hide Box.Faces, Box.FaceAt, Times;
      var off := Data(s);
      for n := 0 to box.Faces(s)
        invariant forall m: nat :: m < box.Faces(s) ==>
          off[m] == if m < n then Times(k, a(s, box.FaceAt(s, m))) else a(s, box.FaceAt(s, m))
      {
        off[n] := Times(k, off[n]);
      }
    }

    /** Scales the diagonal by M, the C term excluded: subtract C, multiply, add C. */
    method ScaleDiagonal(c: CellField, m: CellField, ghost d: CellField, ghost e: CellField)
      requires Valid() && DiagonalHolds(d) && forall p :: e(p) == Rescaled(d(p), m(p), c(p))
      modifies diagonal
      ensures DiagonalHolds(e)
    {
      hide Box.Cells, CellAt, Rescaled;
      for n := 0 to box.Cells()
        invariant forall i: nat :: i < box.Cells() ==> var p := CellAt(box, i);
          diagonal[i] == if i < n then Rescaled(d(p), m(p), c(p)) else d(p)
      {
        var p := CellAt(box, n);
        var t := diagonal[n];
        diagonal[n] := ScaleEntry(t, m(p), c(p));
      }
    }

    method ScaleEntry(d: real, m: real, c: real) returns (r: real)
      ensures r == Rescaled(d, m, c)
    {
      r := d;
      r := r - c;
      r := r * m;
      r := r + c;
    }

    // ----- all sides of a patch -----

    method FillSides(spec: PoissonSpec)
      requires Valid() && spec.Valid()
      modifies offx, offy, offz
      ensures forall s: Side :: Used(s) ==> Holds(s, Op(spec).a)
    {
      hide Holds;
      FillSide(X, spec);
      FillSide(Y, spec);
      if ndim == 3 {
        FillSide(Z, spec);
      }
      EverySide(Op(spec).a);
    }

    // The three sides one by one.
    lemma EverySide(f: FaceField)
      requires Valid() && Holds(X, f) && Holds(Y, f) && (Used(Z) ==> Holds(Z, f))
      ensures forall s: Side :: Used(s) ==> Holds(s, f)
    {
      hide Holds;
      forall s: Side | Used(s)
        ensures Holds(s, f)
      {
        match s {
          case X =>
          case Y =>
          case Z =>
        }
      }
    }

    method ScaleSides(k: real, ghost a: FaceField, ghost f: FaceField)
      requires Valid() && forall s: Side :: Used(s) ==> Holds(s, a)
      requires forall t, p :: f(t, p) == Times(k, a(t, p))
      modifies offx, offy, offz
      ensures forall s: Side :: Used(s) ==> Holds(s, f)
    {
      hide Holds, Times;
      ScaleSide(X, k, a, f);
      ScaleSide(Y, k, a, f);
      if ndim == 3 {
        ScaleSide(Z, k, a, f);
      }
      EverySide(f);
    }

    method MultiplySides(ghost a: FaceField, ghost r: CellField, ghost f: FaceField)
      requires Valid() && RootHolds(r) && forall s: Side :: Used(s) ==> Holds(s, a)
      requires forall t, p :: f(t, p) == Triple(a(t, p), r(Back(t, p)), r(p))
      modifies offx, offy, offz
      ensures forall s: Side :: Used(s) ==> Holds(s, f)
    {
      hide Holds, Triple, RootHolds;
      MultiplySide(X, a, r, f);
      MultiplySide(Y, a, r, f);
      if ndim == 3 {
        MultiplySide(Z, a, r, f);
      }
      EverySide(f);
    }

    // ----- the assembly -----

    ghost predicate Accepts(spec: PoissonSpec)
      reads this`msqrtTransform
    {
      match spec.m
      // Once the transformation is on, the source insists on a variable M.
      case MConst(k) => !msqrtTransform
      case MVar(data, b) => |data| == b.Cells() && Contains(b, Ghosts(box, ndim))
    }

    /**
     The matrix of the specification: scaled by the constant M, or on both sides by M^1/2 of a
     variable M, the C term left alone.
     */
    method SetMatrixCoefficients(spec: PoissonSpec)
      requires Valid() && spec.Valid() && Accepts(spec)
      requires IsSqrt(sqrt) && (spec.m.MVar? ==> forall p :: Ghosts(box, ndim).Has(p) ==> spec.MAt(p) > 0.0)
      modifies this`msqrtTransform, diagonal, offx, offy, offz, msqrt
      ensures msqrtTransform == (old(msqrtTransform) || spec.m.MVar?)
      ensures if spec.m.MConst? then ScaledBy(Op(spec), spec.m.k, Matrix()) else Symmetrised(Op(spec), Matrix())
      ensures spec.m.MVar? ==> RootHolds(Op(spec).s)
    {
      hide Holds, DiagonalHolds, RootHolds, Box.Has, PoissonSpec.Coefficient, PoissonSpec.CAt, PoissonSpec.MAt, Adjacent, ScaledBy, Symmetrised, Matrix;
      ghost var o := Op(spec);
      if spec.m.MVar? {
        msqrtTransform := true;
      }
      FillSides(spec);
      ghost var d: CellField := p => spec.CAt(p) - Adjacent(o, p);
      ComputeDiagonalEntries(p => spec.CAt(p), o, d);
      match spec.m {
        case MConst(k) =>
          ScaleByConstant(spec, k, d);
        case MVar(data, b) =>
          ScaleByRoot(spec, data, b, d);
      }
    }

    // C less the coefficients of the faces beside each cell.
    ghost predicate Unscaled(spec: PoissonSpec, d: CellField)
      requires spec.Valid()
    {
      forall p :: d(p) == spec.CAt(p) - Adjacent(Op(spec), p)
    }

    method ScaleByConstant(spec: PoissonSpec, k: real, ghost d: CellField)
      requires Valid() && spec.Valid() && Unscaled(spec, d) && DiagonalHolds(d)
      requires forall s: Side :: Used(s) ==> Holds(s, Op(spec).a)
      modifies diagonal, offx, offy, offz
      ensures ScaledBy(Op(spec), k, Matrix())
    {
      hide Holds, DiagonalHolds, PoissonSpec.Coefficient, PoissonSpec.CAt, PoissonSpec.MAt, Adjacent, Times, Rescaled, ScaledBy, Matrix;
      ghost var o := Op(spec);
      ghost var f: FaceField := (t, p) => Times(k, o.a(t, p));
      ghost var e: CellField := p => Rescaled(d(p), k, spec.CAt(p));
      ScaleSides(k, o.a, f);
      ScaleDiagonal(p => spec.CAt(p), p => k, d, e);
      ConstantAssembled(o, k, f, e);
    }

    method ScaleByRoot(spec: PoissonSpec, data: seq<real>, b: Box, ghost d: CellField)
      requires Valid() && spec.Valid() && Unscaled(spec, d) && DiagonalHolds(d)
      requires spec.m == MVar(data, b) && |data| == b.Cells() && Contains(b, Ghosts(box, ndim))
      requires IsSqrt(sqrt) && forall p :: Ghosts(box, ndim).Has(p) ==> spec.MAt(p) > 0.0
      requires forall s: Side :: Used(s) ==> Holds(s, Op(spec).a)
      modifies diagonal, offx, offy, offz, msqrt
      ensures Symmetrised(Op(spec), Matrix()) && RootHolds(Op(spec).s)
    {
      hide Holds, DiagonalHolds, RootHolds, IsSqrt, Box.Has, Box.CellIndex, PoissonSpec.Coefficient, PoissonSpec.CAt, PoissonSpec.MAt;
      hide Adjacent, Triple, Rescaled, Symmetrised, Matrix, Contains;
      ghost var o := Op(spec);
      ghost var f: FaceField := (t, p) => Triple(o.a(t, p), o.s(Back(t, p)), o.s(p));
      ghost var e: CellField := p => Rescaled(d(p), spec.MAt(p), spec.CAt(p));
      RootMeans(spec, data, b);
      ComputeRoot(data, b, o.s);
      ScaleDiagonal(p => spec.CAt(p), p => spec.MAt(p), d, e);
      MultiplySides(o.a, o.s, f);
      RootSquares(spec);
      VariableAssembled(o, p => spec.MAt(p), f, e);
    }

    lemma RootMeans(spec: PoissonSpec, data: seq<real>, b: Box)
      requires spec.Valid() && spec.m == MVar(data, b)
      ensures forall p :: Op(spec).s(p) == sqrt(At(data, b.CellIndex(p)))
    {
      hide Box.CellIndex, PoissonSpec.Coefficient, PoissonSpec.CAt;
      forall p
        ensures Op(spec).s(p) == sqrt(At(data, b.CellIndex(p)))
      {
        assert spec.MAt(p) == At(data, b.CellIndex(p));
      }
    }

    lemma RootSquares(spec: PoissonSpec)
      requires Valid() && spec.Valid() && IsSqrt(sqrt) && forall p :: Ghosts(box, ndim).Has(p) ==> spec.MAt(p) > 0.0
      ensures forall p :: box.Has(p) ==> Op(spec).s(p) > 0.0 && Op(spec).s(p) * Op(spec).s(p) == spec.MAt(p)
    {
      hide PoissonSpec.MAt;
      forall p | box.Has(p)
        ensures Op(spec).s(p) > 0.0 && Op(spec).s(p) * Op(spec).s(p) == spec.MAt(p)
      {
        assert Ghosts(box, ndim).Has(p);
      }
    }

    lemma ConstantAssembled(o: Operator, k: real, f: FaceField, e: CellField)
      requires Valid() && o.box == box && o.ndim == ndim
      requires forall t, p :: f(t, p) == Times(k, o.a(t, p))
      requires forall p :: e(p) == Rescaled(o.c(p) - Adjacent(o, p), k, o.c(p))
      requires DiagonalHolds(e) && forall s: Side :: Used(s) ==> Holds(s, f)
      ensures ScaledBy(o, k, Matrix())
    {
      hide Adjacent, Box.FaceIndex, Box.FaceAt, Box.Faces, Box.CellIndex, Box.Cells, CellAt, Rescaled, Times, Box.Has, Box.HasFace;
      forall p | box.Has(p)
        ensures Matrix().diag(p) == k * -Adjacent(o, p) + o.c(p)
      {
        CellIndexBijective(box, p, 0);
        RescaledIs(o.c(p), Adjacent(o, p), k);
      }
      forall s: Side, p | box.HasFace(s, p) && Used(s)
        ensures Matrix().off(s, p) == k * o.a(s, p)
      {
        FaceIndexBijective(box, s, p, 0);
        TimesIs(k, o.a(s, p));
      }
    }

    lemma VariableAssembled(o: Operator, m: CellField, f: FaceField, e: CellField)
      requires Valid() && o.box == box && o.ndim == ndim
      requires forall p :: box.Has(p) ==> o.s(p) * o.s(p) == m(p)
      requires forall t, p :: f(t, p) == Triple(o.a(t, p), o.s(Back(t, p)), o.s(p))
      requires forall p :: e(p) == Rescaled(o.c(p) - Adjacent(o, p), m(p), o.c(p))
      requires DiagonalHolds(e) && forall s: Side :: Used(s) ==> Holds(s, f)
      ensures Symmetrised(o, Matrix())
    {
      hide Adjacent, Box.FaceIndex, Box.FaceAt, Box.Faces, Box.CellIndex, Box.Cells, CellAt, Rescaled, Triple, Box.Has, Box.HasFace;
      forall p | box.Has(p)
        ensures Matrix().diag(p) == o.s(p) * o.s(p) * -Adjacent(o, p) + o.c(p)
      {
        CellIndexBijective(box, p, 0);
        RescaledIs(o.c(p), Adjacent(o, p), m(p));
      }
      forall s: Side, p | box.HasFace(s, p) && Used(s)
        ensures Matrix().off(s, p) == o.a(s, p) * o.s(Back(s, p)) * o.s(p)
      {
        FaceIndexBijective(box, s, p, 0);
        TripleIs(o.a(s, p), o.s(Back(s, p)), o.s(p));
      }
    }

    // ----- packing into one flat array -----

    // One entry per side and the diagonal.
    function StencilSize(): nat {
      ndim + 1
    }

    /** The entries of row p in stencil order: the lower face of each side, then the diagonal. */
    ghost function Slot(m: Stencil, p: Point, s: nat): real {
      if s == 0 then m.off(X, p) else if s == 1 then m.off(Y, p) else if s == 2 && ndim == 3 then m.off(Z, p) else m.diag(p)
    }

    /** The entries of the cells before position n are packed, each row in its own stretch. */
    ghost predicate PackedUpTo(mat: array<Entry>, n: int)
      requires Valid() && mat.Length == StencilSize() * box.Cells()
      reads mat, diagonal, offx, offy, offz
    {
      forall c: nat, s: nat :: c < n && c < box.Cells() && s < StencilSize() ==>
        Flat(StencilSize(), s, c) < mat.Length && mat[Flat(StencilSize(), s, c)] == Assigned(Slot(Matrix(), CellAt(box, c), s))
    }

    lemma NothingPacked(mat: array<Entry>)
      requires Valid() && mat.Length == StencilSize() * box.Cells()
      ensures PackedUpTo(mat, 0)
    {}

    /**
     Copies the entries to the symmetric storage of the linear solver, with one running offset for
     the target and one for each source.  Put is the only statement that assigns an entry, it demands
     that the entry was not assigned before, and `writes` lists its positions: 0, 1, 2, ... to the end.
     */
    method PackEntries() returns (mat: array<Entry>, ghost writes: seq<nat>)
      requires Valid()
      ensures fresh(mat) && mat.Length == StencilSize() * box.Cells() && PackedUpTo(mat, box.Cells())
      ensures WrittenInOrder(mat, writes) && |writes| == mat.Length
    {
      hide Box.FaceIndex, Box.Faces, Box.CellIndex, Box.Cells, PackedUpTo, Flat, Matrix, WrittenInOrder;
      var size := StencilSize();
      mat := new Entry[size * box.Cells()](_ => Unassigned);
      writes := [];
      NothingWritten(mat);
      var lo := box.lo;
      var offset, count, offsetx, offsety, offsetz := 0, 0, 0, 0, 0;
      StartOffsets();
      NothingPacked(mat);
      for k := lo.k to lo.k + box.nz
        invariant AtCell(Point(lo.i, lo.j, k), offset, count, offsetx, offsety, offsetz)
        invariant PackedUpTo(mat, count) && WrittenInOrder(mat, writes) && |writes| == offset
      {
        for j := lo.j to lo.j + box.ny
          invariant AtCell(Point(lo.i, j, k), offset, count, offsetx, offsety, offsetz)
          invariant PackedUpTo(mat, count) && WrittenInOrder(mat, writes) && |writes| == offset
        {
          for i := lo.i to lo.i + box.nx
            invariant AtCell(Point(i, j, k), offset, count, offsetx, offsety, offsetz)
            invariant PackedUpTo(mat, count) && WrittenInOrder(mat, writes) && |writes| == offset
          {
            var p := Point(i, j, k);
            writes := PackCell(mat, p, offset, count, offsetx, offsety, offsetz, writes);
            NextOffsets(p, offset, count, offsetx, offsety, offsetz);
            offset := offset + size;
            count := count + 1;
            offsetx := offsetx + 1;
            offsety := offsety + 1;
            offsetz := offsetz + 1;
          }
          RowOffsets(j, k, offset, count, offsetx, offsety, offsetz);
          offsetx := offsetx + 1;
        }
        PlaneOffsets(k, offset, count, offsetx, offsety, offsetz);
        // In 2-D this follows the only plane, and no source is read after it.
        offsety := offsety + box.nx;
      }
      EndOffsets(offset, count, offsetx, offsety, offsetz);
    }

    /** The five running offsets are the positions of cell p: in the target, the diagonal and the three sides. */
    ghost predicate AtCell(p: Point, offset: int, count: int, offsetx: int, offsety: int, offsetz: int) {
      && count == box.CellIndex(p) && offset == StencilSize() * count
      && offsetx == box.FaceIndex(X, p) && offsety == box.FaceIndex(Y, p) && offsetz == box.FaceIndex(Z, p)
    }

    lemma StartOffsets()
      ensures AtCell(box.lo, 0, 0, 0, 0, 0)
    {}

    lemma NextOffsets(p: Point, offset: int, count: int, offsetx: int, offsety: int, offsetz: int)
      requires AtCell(p, offset, count, offsetx, offsety, offsetz)
      ensures AtCell(p.(i := p.i + 1), offset + StencilSize(), count + 1, offsetx + 1, offsety + 1, offsetz + 1)
    {
      hide Box.FaceIndex, Box.CellIndex;
      CellStep(box, p);
      NextFace(box, X, p);
      NextFace(box, Y, p);
      NextFace(box, Z, p);
      assert StencilSize() * (count + 1) == StencilSize() * count + StencilSize();
    }

    // A row has one more X face than cells.
    lemma RowOffsets(j: int, k: int, offset: int, count: int, offsetx: int, offsety: int, offsetz: int)
      requires AtCell(Point(box.lo.i + box.nx, j, k), offset, count, offsetx, offsety, offsetz)
      ensures AtCell(Point(box.lo.i, j + 1, k), offset, count, offsetx + 1, offsety, offsetz)
    {
      hide Box.FaceIndex, Box.CellIndex;
      CellRowEnd(box, j, k);
      NextFace(box, X, Point(box.lo.i + box.nx, j, k));
      FaceRowEnd(box, X, j, k);
      FaceRowEnd(box, Y, j, k);
      FaceRowEnd(box, Z, j, k);
    }

    // A plane has one more row of Y faces than of cells.
    lemma PlaneOffsets(k: int, offset: int, count: int, offsetx: int, offsety: int, offsetz: int)
      requires AtCell(Point(box.lo.i, box.lo.j + box.ny, k), offset, count, offsetx, offsety, offsetz)
      ensures AtCell(Point(box.lo.i, box.lo.j, k + 1), offset, count, offsetx, offsety + box.nx, offsetz)
    {
      CellPlaneEnd(box, k);
      FacePlaneEnd(box, X, k);
      FacePlaneEnd(box, Z, k);
      YRow(k);
    }

    lemma YRow(k: int)
      ensures box.FaceIndex(Y, Point(box.lo.i, box.lo.j + box.ny, k)) + box.nx == box.FaceIndex(Y, Point(box.lo.i, box.lo.j, k + 1))
    {
      OneLess(k + 1 - box.lo.k, box.Kp() + box.Jp());
      OneLess(box.ny + 1, box.nx);
    }

    lemma EndOffsets(offset: int, count: int, offsetx: int, offsety: int, offsetz: int)
      requires AtCell(Point(box.lo.i, box.lo.j, box.lo.k + box.nz), offset, count, offsetx, offsety, offsetz)
      ensures count == box.Cells() && offset == StencilSize() * box.Cells()
    {
      hide Box.FaceIndex, Box.CellIndex;
      CellEnd(box);
    }

    // The entries of one cell, at its five positions.
    method PackCell(mat: array<Entry>, p: Point, offset: int, count: int, offsetx: int, offsety: int, offsetz: int, ghost writes: seq<nat>)
      returns (ghost writes': seq<nat>)
      requires Valid() && mat.Length == StencilSize() * box.Cells()
      requires box.Has(p) && AtCell(p, offset, count, offsetx, offsety, offsetz) && PackedUpTo(mat, count)
      requires WrittenInOrder(mat, writes) && |writes| == offset
      modifies mat
      ensures PackedUpTo(mat, count + 1)
      ensures WrittenInOrder(mat, writes') && |writes'| == offset + StencilSize()
      ensures forall m :: 0 <= m < mat.Length && !(offset <= m < offset + StencilSize()) ==> mat[m] == old(mat[m])
    {
      hide Box.FaceIndex, Box.Faces, Box.CellIndex, Box.Cells, Flat, CellAt, Box.HasFace, WrittenInOrder;
      InBounds(p, offset, count);
      ghost var was, m := mat[..], Matrix();
      writes' := Put(mat, offset, offx[offsetx], writes);
      writes' := Put(mat, offset + 1, offy[offsety], writes');
      if ndim == 3 {
        writes' := Put(mat, offset + 2, offz[offsetz], writes');
      }
      writes' := Put(mat, offset + ndim, diagonal[count], writes');
      assert Matrix() == m;
      forall c: nat, s: nat | c < count + 1 && c < box.Cells() && s < StencilSize()
        ensures Flat(StencilSize(), s, c) < mat.Length && mat[Flat(StencilSize(), s, c)] == Assigned(Slot(m, CellAt(box, c), s))
      {
        SlotPosition(s, c, count, offset);
        if c < count {
          assert mat[Flat(StencilSize(), s, c)] == was[Flat(StencilSize(), s, c)];
        }
      }
    }

    lemma InBounds(p: Point, offset: int, count: int)
      requires Valid() && box.Has(p) && count == box.CellIndex(p) && offset == StencilSize() * count
      ensures 0 <= count < box.Cells() && CellAt(box, count) == p
      ensures 0 <= offset && offset + StencilSize() <= StencilSize() * box.Cells()
      ensures forall s: Side :: 0 <= box.FaceIndex(s, p) < box.Faces(s)
    {
      hide Box.FaceIndex, Box.Faces, Box.CellIndex, Box.Cells, CellAt, Box.Has;
      CellIndexBijective(box, p, 0);
      ProductStep(StencilSize(), count, box.Cells());
      forall s: Side
        ensures 0 <= box.FaceIndex(s, p) < box.Faces(s)
      {
        FacesOfCell(box, s, p);
        FaceIndexBijective(box, s, p, 0);
      }
    }

    // Where slot s of cell c lies relative to the stretch of cell n.
    lemma SlotPosition(s: nat, c: nat, n: nat, offset: int)
      requires c <= n < box.Cells() && s < StencilSize() && offset == StencilSize() * n
      ensures Flat(StencilSize(), s, c) < StencilSize() * box.Cells()
      ensures if c == n then Flat(StencilSize(), s, c) == offset + s else Flat(StencilSize(), s, c) < offset
    {
      hide Box.Cells;
      FlatIs(StencilSize(), s, c);
      DigitInRange(StencilSize(), s, c, box.Cells());
      if c < n {
        DigitInRange(StencilSize(), s, c, n);
      }
    }

    // ----- what the packed array means -----

    function StencilOffset(s: nat): Point {
      if s == 0 then Point(-1, 0, 0) else if s == 1 then Point(0, -1, 0) else if s == 2 && ndim == 3 then Point(0, 0, -1) else Point(0, 0, 0)
    }

    function Shift(p: Point, d: Point): Point {
      Point(p.i + d.i, p.j + d.j, p.k + d.k)
    }

    // The packed entry of a cell.
    function Packed(x: seq<Entry>, p: Point, s: nat): real {
      ValueAt(x, Flat(StencilSize(), s, if box.CellIndex(p) >= 0 then box.CellIndex(p) else 0))
    }

    /**
     Slot s of cell p couples p with p + offset[s], and by symmetric storage also the other way; the
     row it gives is that of the assembled matrix.
     */
    ghost function SlotTerms(x: seq<Entry>, v: CellField, p: Point, s: nat): real {
      var q := Shift(p, Point(-StencilOffset(s).i, -StencilOffset(s).j, -StencilOffset(s).k));
      Packed(x, p, s) * In(box, v, Shift(p, StencilOffset(s)))
      + (if box.Has(q) then Packed(x, q, s) * v(q) else 0.0)
    }

    /** Row p of the matrix that the packed entries mean to the linear solver. */
    ghost function PackedRow(x: seq<Entry>, v: CellField, p: Point): real {
      SlotTerms(x, v, p, 0) + SlotTerms(x, v, p, 1) + (if ndim == 3 then SlotTerms(x, v, p, 2) else 0.0) + Packed(x, p, ndim) * v(p)
    }

    lemma PackedIsMatrix(mat: array<Entry>, o: Operator, v: CellField, p: Point)
      requires Valid() && o.box == box && o.ndim == ndim && box.Has(p)
      requires mat.Length == StencilSize() * box.Cells() && PackedUpTo(mat, box.Cells())
      ensures MatVec(o, Matrix(), v, p) == PackedRow(mat[..], v, p)
    {
      hide Box.CellIndex, Box.FaceIndex, Box.Cells, Flat, SlotTerms, Packed, Matrix, PackedUpTo, OffTerms, Box.Has;
      SlotIsOff(mat, o, v, p, X, 0);
      SlotIsOff(mat, o, v, p, Y, 1);
      if ndim == 3 {
        SlotIsOff(mat, o, v, p, Z, 2);
      }
      PackedAt(mat, p, ndim);
    }

    lemma PackedAt(mat: array<Entry>, p: Point, s: nat)
      requires Valid() && box.Has(p) && s < StencilSize()
      requires mat.Length == StencilSize() * box.Cells() && PackedUpTo(mat, box.Cells())
      ensures Packed(mat[..], p, s) == Slot(Matrix(), p, s)
    {
      hide Box.CellIndex, Box.FaceIndex, Box.Cells, Flat, CellAt, Slot, Box.Has;
      CellIndexBijective(box, p, 0);
    }

    /** Slot by slot: first the lower X face of the cell, then its lower Y face, in 3-D its lower Z face, and last its diagonal entry. */
    lemma PackedEntries(mat: array<Entry>, p: Point)
      requires Valid() && box.Has(p) && mat.Length == StencilSize() * box.Cells() && PackedUpTo(mat, box.Cells())
      ensures 0 <= box.CellIndex(p) < diagonal.Length && 0 <= (ndim + 1) * box.CellIndex(p) && (ndim + 1) * box.CellIndex(p) + ndim < mat.Length
      ensures 0 <= box.FaceIndex(X, p) < offx.Length && 0 <= box.FaceIndex(Y, p) < offy.Length && 0 <= box.FaceIndex(Z, p) < offz.Length
      ensures var n := (ndim + 1) * box.CellIndex(p);
        && mat[n] == Assigned(offx[box.FaceIndex(X, p)]) && StencilOffset(0) == Point(-1, 0, 0)
        && mat[n + 1] == Assigned(offy[box.FaceIndex(Y, p)]) && StencilOffset(1) == Point(0, -1, 0)
        && (ndim == 3 ==> mat[n + 2] == Assigned(offz[box.FaceIndex(Z, p)]) && StencilOffset(2) == Point(0, 0, -1))
        && mat[n + ndim] == Assigned(diagonal[box.CellIndex(p)]) && StencilOffset(ndim) == Point(0, 0, 0)
    {
      hide Box.CellIndex, Box.FaceIndex, Box.Cells, Box.Faces, Flat, CellAt, Box.Has, Slot, PackedUpTo, StencilSize;
      InBounds(p, StencilSize() * box.CellIndex(p), box.CellIndex(p));
      EntriesOfCell(p);
      RawSlots(p);
      PackedSlot(mat, p, 0);
      PackedSlot(mat, p, 1);
      PackedSlot(mat, p, ndim);
      if ndim == 3 {
        PackedSlot(mat, p, 2);
      }
    }

    lemma PackedSlot(mat: array<Entry>, p: Point, s: nat)
      requires Valid() && box.Has(p) && s <= ndim && mat.Length == StencilSize() * box.Cells() && PackedUpTo(mat, box.Cells())
      ensures 0 <= (ndim + 1) * box.CellIndex(p) && (ndim + 1) * box.CellIndex(p) + s < mat.Length
      ensures mat[(ndim + 1) * box.CellIndex(p) + s] == Assigned(Slot(Matrix(), p, s))
    {
      hide Box.CellIndex, Box.FaceIndex, Box.Cells, Flat, CellAt, Box.Has, Slot, Matrix;
      InBounds(p, StencilSize() * box.CellIndex(p), box.CellIndex(p));
      EntriesOfCell(p);
      FlatIs(ndim + 1, s, box.CellIndex(p));
    }

    lemma EntriesOfCell(p: Point)
      ensures StencilSize() * box.CellIndex(p) == (ndim + 1) * box.CellIndex(p)
    {}

    // The four slots of a cell, as positions of the arrays.
    lemma RawSlots(p: Point)
      requires Valid() && box.Has(p) && 0 <= box.CellIndex(p) < box.Cells() && forall s: Side :: 0 <= box.FaceIndex(s, p) < box.Faces(s)
      ensures Slot(Matrix(), p, 0) == offx[box.FaceIndex(X, p)] && Slot(Matrix(), p, 1) == offy[box.FaceIndex(Y, p)]
      ensures ndim == 3 ==> Slot(Matrix(), p, 2) == offz[box.FaceIndex(Z, p)]
      ensures Slot(Matrix(), p, ndim) == diagonal[box.CellIndex(p)]
    {
      hide Box.CellIndex, Box.FaceIndex, Box.Cells, Box.Faces, Box.Has;
    }

    lemma SlotIsOff(mat: array<Entry>, o: Operator, v: CellField, p: Point, side: Side, s: nat)
      requires Valid() && o.box == box && o.ndim == ndim && box.Has(p) && Used(side)
      requires s == match side case X => 0 case Y => 1 case Z => 2
      requires mat.Length == StencilSize() * box.Cells() && PackedUpTo(mat, box.Cells())
      ensures SlotTerms(mat[..], v, p, s) == OffTerms(o, Matrix(), v, side, p)
    {
      hide Box.CellIndex, Box.FaceIndex, Box.Cells, Flat, Packed, Matrix, PackedUpTo, Box.Has;
      assert Shift(p, StencilOffset(s)) == Back(side, p);
      PackedAt(mat, p, s);
      if box.Has(Fwd(side, p)) {
        PackedAt(mat, Fwd(side, p), s);
      }
    }

    // ----- the solve -----

    function FieldOf(x: seq<real>): CellField {
      var b := box;
      (p: Point) => At(x, b.CellIndex(p))
    }

    /** The arrays hold the matrix of the specification, and the flag tells how it was scaled. */
    ghost predicate Assembled(spec: PoissonSpec)
      requires Valid() && spec.Valid()
      reads this`msqrtTransform, diagonal, offx, offy, offz, msqrt
    {
      PositiveM(spec) && match spec.m
      case MConst(k) => !msqrtTransform && ScaledBy(Op(spec), k, Matrix())
      case MVar(data, b) => msqrtTransform && Symmetrised(Op(spec), Matrix()) && RootHolds(Op(spec).s)
    }

    ghost predicate PositiveM(spec: PoissonSpec) {
      match spec.m
      case MConst(k) => k > 0.0
      case MVar(data, b) => forall p :: Ghosts(box, ndim).Has(p) ==> spec.MAt(p) > 0.0
    }

    /** v solves the system whose matrix is packed in x. */
    ghost predicate SolvesPacked(x: seq<Entry>, v: CellField, r: CellField) {
      forall p :: box.Has(p) ==> PackedRow(x, v, p) == r(p)
    }

    lemma PackedSolves(mat: array<Entry>, o: Operator, v: CellField, r: CellField)
      requires Valid() && o.box == box && o.ndim == ndim
      requires mat.Length == StencilSize() * box.Cells() && PackedUpTo(mat, box.Cells())
      ensures SolvesPacked(mat[..], v, r) <==> SolvesMatrix(o, Matrix(), v, r)
    {
      hide Box.Has, Box.Cells, PackedUpTo, PackedRow, MatVec, Matrix;
      forall p | box.Has(p)
        ensures PackedRow(mat[..], v, p) == MatVec(o, Matrix(), v, p)
      {
        PackedIsMatrix(mat, o, v, p);
      }
    }

    /**
     Divides the right-hand side by M^1/2 if M was used to build the matrix, solves, and multiplies
     the solution by M^1/2.  `hypre` is the linear solver, which sees the packed entries only; what it
     returns solves the packed system exactly if u solves M div(D grad u) + C u = f.
     */
    method SolveSystem(ghost spec: PoissonSpec, mat: array<Entry>, f: seq<real>, u: array<real>, hypre: LinearSolver)
      requires Valid() && spec.Valid() && IsSqrt(sqrt) && Assembled(spec)
      requires mat.Length == StencilSize() * box.Cells() && PackedUpTo(mat, box.Cells())
      requires |f| == u.Length == box.Cells() && u !in {diagonal, offx, offy, offz, msqrt}
      requires forall r :: |hypre(mat[..], r)| == |r|
      modifies u
      ensures var r := Rhs(spec, f);
        SolvesPacked(mat[..], FieldOf(hypre(mat[..], r)), FieldOf(r)) <==> SolvesOperator(Op(spec), FieldOf(u[..]), FieldOf(f))
    {
      hide Symmetrised, ScaledBy, SolvesMatrix, SolvesPacked, SolvesOperator, RootHolds, Box.Cells, Matrix, Box.Has, PackedUpTo;
      var rhs := new real[|f|];
      CopyOrDivide(f, rhs, spec);
      var v := hypre(mat[..], rhs[..]);
      CopyOrMultiply(v, u, spec);
      SolutionMeans(spec, f, v, u[..]);
      PackedSolves(mat, Op(spec), FieldOf(v), FieldOf(Rhs(spec, f)));
    }

    /** Assembly, packing and solution in sequence, whatever the arrays held before. */
    method AssembleAndSolve(spec: PoissonSpec, f: seq<real>, u: array<real>, hypre: LinearSolver) returns (mat: array<Entry>)
      requires Valid() && spec.Valid() && Accepts(spec) && IsSqrt(sqrt) && PositiveM(spec)
      requires |f| == u.Length == box.Cells() && u !in {diagonal, offx, offy, offz, msqrt}
      requires forall x, r :: |hypre(x, r)| == |r|
      modifies this`msqrtTransform, diagonal, offx, offy, offz, msqrt, u
      ensures var r := Rhs(spec, f);
        SolvesPacked(mat[..], FieldOf(hypre(mat[..], r)), FieldOf(r)) <==> SolvesOperator(Op(spec), FieldOf(u[..]), FieldOf(f))
    {
      hide Symmetrised, ScaledBy, SolvesPacked, SolvesOperator, RootHolds, Box.Cells, Matrix, Box.Has, PackedUpTo, WrittenInOrder, IsSqrt;
      SetMatrixCoefficients(spec);
      ghost var writes;
      mat, writes := PackEntries();
      SolveSystem(spec, mat, f, u, hypre);
    }

    /** The right-hand side handed to the linear solver. */
    ghost function Rhs(spec: PoissonSpec, f: seq<real>): (r: seq<real>)
      requires spec.Valid()
      ensures |r| == |f|
    {
      seq(|f|, n requires 0 <= n < |f| => if spec.m.MVar? then Ratio(f[n], Op(spec).s(CellAt(box, n))) else f[n])
    }

    method CopyOrDivide(f: seq<real>, rhs: array<real>, ghost spec: PoissonSpec)
      requires Valid() && spec.Valid() && |f| == rhs.Length == box.Cells() && rhs != msqrt
      requires msqrtTransform == spec.m.MVar? && (msqrtTransform ==> RootHolds(Op(spec).s))
      modifies rhs
      ensures rhs[..] == Rhs(spec, f)
    {
      hide Box.Cells, CellAt, Ratio, RootHolds;
      for n := 0 to |f|
        invariant forall m :: 0 <= m < n ==> rhs[m] == f[m]
      {
        rhs[n] := f[n];
      }
      if msqrtTransform {
        for n := 0 to |f|
          invariant forall m: nat :: m < |f| ==> rhs[m] == if m < n then Ratio(f[m], Op(spec).s(CellAt(box, m))) else f[m]
        {
          var root := RootOf(n, Op(spec).s);
          rhs[n] := Ratio(rhs[n], root);
        }
      }
    }

    method CopyOrMultiply(v: seq<real>, u: array<real>, ghost spec: PoissonSpec)
      requires Valid() && spec.Valid() && |v| == u.Length == box.Cells() && u != msqrt
      requires msqrtTransform == spec.m.MVar? && (msqrtTransform ==> RootHolds(Op(spec).s))
      modifies u
      ensures forall n: nat :: n < |v| ==> u[n] == if spec.m.MVar? then Times(Op(spec).s(CellAt(box, n)), v[n]) else v[n]
    {
      hide Box.Cells, CellAt, Times, RootHolds;
      for n := 0 to |v|
        invariant forall m :: 0 <= m < n ==> u[m] == v[m]
      {
        u[n] := v[n];
      }
      if msqrtTransform {
        for n := 0 to |v|
          invariant forall m: nat :: m < |v| ==> u[m] == if m < n then Times(Op(spec).s(CellAt(box, m)), v[m]) else v[m]
        {
          var root := RootOf(n, Op(spec).s);
          u[n] := Times(root, u[n]);
        }
      }
    }

    // M^1/2 in cell n of the box; its own array has ghost cells.
    method RootOf(n: nat, ghost r: CellField) returns (x: real)
      requires Valid() && RootHolds(r) && n < box.Cells()
      ensures x == r(CellAt(box, n))
    {
      hide Box.CellIndex, Box.Cells, CellAt;
      var p := CellAt(box, n);
      CellIndexBijective(box, p, n);
      assert Ghosts(box, ndim).Has(p);
      CellIndexBijective(Ghosts(box, ndim), p, 0);
      x := msqrt[Ghosts(box, ndim).CellIndex(p)];
    }

    lemma SolutionMeans(spec: PoissonSpec, f: seq<real>, v: seq<real>, u: seq<real>)
      requires Valid() && spec.Valid() && IsSqrt(sqrt) && Assembled(spec) && |f| == |v| == |u| == box.Cells()
      requires forall n: nat :: n < |v| ==> u[n] == if spec.m.MVar? then Times(Op(spec).s(CellAt(box, n)), v[n]) else v[n]
      ensures SolvesMatrix(Op(spec), Matrix(), FieldOf(v), FieldOf(Rhs(spec, f))) <==> SolvesOperator(Op(spec), FieldOf(u), FieldOf(f))
    {
      hide Symmetrised, ScaledBy, SolvesMatrix, SolvesOperator, RootHolds, Box.Cells, Matrix, Box.Has, Box.CellIndex, CellAt, Times, Ratio, IsSqrt, PoissonSpec.MAt;
      var o, r := Op(spec), Rhs(spec, f);
      FieldsOnBox();
      match spec.m {
        case MConst(k) =>
          assert r == f && u == v;
          ConstantRoot(spec);
          ConstantPreservesMeaning(o, k, Matrix(), FieldOf(u), FieldOf(f));
        case MVar(data, b) =>
          RootSquares(spec);
          forall p | box.Has(p)
            ensures o.s(p) * FieldOf(r)(p) == FieldOf(f)(p) && FieldOf(u)(p) == Scaled(o.s, FieldOf(v))(p)
          {
            var n := box.CellIndex(p);
            assert r[n] == Ratio(f[n], o.s(p)) && u[n] == Times(o.s(p), v[n]);
            RatioIs(f[n], o.s(p));
            TimesIs(o.s(p), v[n]);
          }
          TransformationPreservesMeaning(o, Matrix(), FieldOf(v), FieldOf(f), FieldOf(r));
          OperatorReadsBox(o, FieldOf(u), Scaled(o.s, FieldOf(v)), FieldOf(f), FieldOf(f));
      }
    }

    /** D <= 0, C > 0 and M > 0, as the composition solver sets them. */
    ghost predicate Signed(spec: PoissonSpec)
      requires spec.Valid()
    {
      && (forall s: Side, p :: box.HasFace(s, p) ==> spec.Coefficient(s, p) <= 0.0)
      && (forall p :: box.Has(p) ==> spec.CAt(p) > 0.0)
    }

    /** With those signs every assembled matrix is symmetric positive definite, whichever way M was applied. */
    lemma AssembledPositiveDefinite(spec: PoissonSpec, z: CellField, v: CellField, p: Point)
      requires Valid() && spec.Valid() && IsSqrt(sqrt) && Assembled(spec) && Signed(spec)
      ensures Inner(Op(spec), Matrix(), z, v) == Inner(Op(spec), Matrix(), v, z)
      ensures box.Has(p) && v(p) != 0.0 ==> Inner(Op(spec), Matrix(), v, v) > 0.0
    {
      hide Symmetrised, ScaledBy, Inner, Matrix, IsSqrt, RootHolds, PoissonSpec.Coefficient, Box.Has, Box.HasFace;
      var o, m := Op(spec), Matrix();
      if spec.m.MConst? {
        UniformRoot(spec);
        ConstantIsSymmetrised(o, spec.m.k, m, sqrt(spec.m.k));
      }
      assert Elliptic(o);
      MatrixSymmetric(o, m, z, v);
      if box.Has(p) && v(p) != 0.0 {
        MatrixPositiveDefinite(o, m, v, p);
      }
    }

    lemma UniformRoot(spec: PoissonSpec)
      requires spec.Valid() && IsSqrt(sqrt) && spec.m.MConst? && spec.m.k > 0.0
      ensures sqrt(spec.m.k) * sqrt(spec.m.k) == spec.m.k && forall p :: Op(spec).s(p) == sqrt(spec.m.k)
    {
      forall p
        ensures Op(spec).s(p) == sqrt(spec.m.k)
      {
        assert spec.MAt(p) == spec.m.k;
      }
    }

    lemma ConstantRoot(spec: PoissonSpec)
      requires spec.Valid() && IsSqrt(sqrt) && spec.m.MConst? && spec.m.k > 0.0
      ensures forall p :: Op(spec).s(p) * Op(spec).s(p) == spec.m.k
    {
      UniformRoot(spec);
    }

    lemma FieldsOnBox()
      ensures forall p :: box.Has(p) ==> 0 <= box.CellIndex(p) < box.Cells() && CellAt(box, box.CellIndex(p)) == p
    {
      hide Box.Cells, Box.CellIndex, CellAt, Box.Has;
      forall p | box.Has(p)
        ensures 0 <= box.CellIndex(p) < box.Cells() && CellAt(box, box.CellIndex(p)) == p
      {
        CellIndexBijective(box, p, 0);
      }
    }
  }

  // f / s.  The solver is only reached with s > 0; the value at 0 is never used.
  function Ratio(f: real, s: real): real {
    if s == 0.0 then 0.0 else f / s
  }

  lemma RatioIs(f: real, s: real)
    requires s > 0.0
    ensures s * Ratio(f, s) == f
  {}

  lemma TripleIs(a: real, x: real, y: real)
    ensures Triple(a, x, y) == a * x * y
  {}

  function Rescaled(d: real, m: real, c: real): real {
    (d - c) * m + c
  }

  lemma RescaledIs(c: real, a: real, m: real)
    ensures Rescaled(c - a, m, c) == m * -a + c
  {}

  ghost predicate Contains(outer: Box, inner: Box) {
    forall p :: inner.Has(p) ==> outer.Has(p)
  }

  // ----- three-dimensional boxes as n-dimensional ones -----

  function AsNBox(b: Box): A.NBox {
    A.NBox([b.lo.i, b.lo.j, b.lo.k], [b.lo.i + b.nx - 1, b.lo.j + b.ny - 1, b.lo.k + b.nz - 1])
  }

  function AsCell(p: Point): seq<int> {
    [p.i, p.j, p.k]
  }

  lemma ThreeDigits(a: nat, b: nat, c: nat, i: int, j: int, k: int)
    ensures A.Prod([a, b, c]) == a * (b * c)
    ensures A.Value([a, b, c], [i, j, k]) == i + a * (j + b * k)
  {
    var w, x := [a, b, c], [i, j, k];
    assert w[1..] == [b, c] && w[1..][1..] == [c] && w[1..][1..][1..] == [];
    assert x[1..] == [j, k] && x[1..][1..] == [k] && x[1..][1..][1..] == [];
    assert A.Prod([]) == 1 && A.Value([], []) == 0;
    assert A.Prod([c]) == c && A.Value([c], [k]) == k;
    assert A.Prod([b, c]) == b * A.Prod([c]) && A.Value([b, c], [j, k]) == j + b * A.Value([c], [k]);
    assert A.Prod(w) == a * A.Prod([b, c]) && A.Value(w, x) == i + a * A.Value([b, c], [j, k]);
  }

  lemma SameSize(b: Box)
    ensures AsNBox(b).Size() == b.Cells()
  {
    hide A.Prod, A.Value;
    assert AsNBox(b).Widths() == [b.nx, b.ny, b.nz];
    ThreeDigits(b.nx, b.ny, b.nz, 0, 0, 0);
  }

  lemma SameOffset(b: Box, p: Point)
    ensures AsNBox(b).Offset(AsCell(p)) == b.CellIndex(p)
    ensures AsNBox(b).Has(AsCell(p)) <==> b.Has(p)
  {
    hide A.Prod, A.Value;
    assert AsNBox(b).Widths() == [b.nx, b.ny, b.nz];
    assert A.Minus(AsCell(p), AsNBox(b).lo) == [p.i - b.lo.i, p.j - b.lo.j, p.k - b.lo.k];
    ThreeDigits(b.nx, b.ny, b.nz, p.i - b.lo.i, p.j - b.lo.j, p.k - b.lo.k);
    Strides(b.nx, b.ny, p.j - b.lo.j, p.k - b.lo.k);
    SameCells(b, p);
  }

  lemma SameCells(b: Box, p: Point)
    ensures AsNBox(b).Has(AsCell(p)) <==> b.Has(p)
  {
    var n, c := AsNBox(b), AsCell(p);
    if n.Has(c) {
      assert n.lo[0] <= c[0] <= n.hi[0] && n.lo[1] <= c[1] <= n.hi[1] && n.lo[2] <= c[2] <= n.hi[2];
    }
  }

  lemma NotEmpty(b: Box, g: A.Geometry)
    requires g.Valid() && g.n == 3 && g.box == g.dst == AsNBox(b) && b.nx > 0 && b.ny > 0 && b.nz > 0
    requires forall p :: b.Has(p) ==> g.src.Has(AsCell(p))
    ensures !g.Ibox().Empty() && g.dst.Size() > 0
  {
    var lo := b.lo;
    SameOffset(b, lo);
    assert g.Ibox().Has(AsCell(lo));
    forall k | 0 <= k < 3
      ensures g.Ibox().lo[k] <= g.Ibox().hi[k]
    {
      assert g.Ibox().lo[k] <= AsCell(lo)[k] <= g.Ibox().hi[k];
    }
    SameSize(b);
    CellIndexInRange(b, lo);
  }

  lemma RootAt(g: A.Geometry, outer: Box, dataBox: Box, sqrt: real -> real, data: seq<real>, n: nat)
    requires g == A.Geometry(3, AsNBox(outer), AsNBox(outer), AsNBox(dataBox)) && g.dst.Size() > 0
    requires n < outer.Cells() && Contains(dataBox, outer)
    ensures g.Selected(n) && A.Root(sqrt, g, data, n) == sqrt(At(data, dataBox.CellIndex(CellAt(outer, n))))
  {
    hide A.NBox.Size, A.NBox.Offset, A.NBox.CellAt, Box.CellIndex, Box.Cells, CellAt, Box.Has, A.NBox.Has, AsNBox;
    var p := CellAt(outer, n);
    CellIndexBijective(outer, outer.lo, n);
    SameOffset(outer, p);
    SameOffset(dataBox, p);
    SameSize(outer);
    SizesMatch(outer);
    SizesMatch(dataBox);
    A.OffsetInRange(AsNBox(outer), AsCell(p));
    OneDepth(g.dst.Size(), n);
    assert g.Cell(n) == AsCell(p);
  }

  lemma SizesMatch(b: Box)
    ensures |AsNBox(b).lo| == |AsNBox(b).hi| == 3
  {}

  lemma OneDepth(size: nat, n: nat)
    requires n < size
    ensures Low(size, n) == n && High(size, n) == 0
  {
    FlatIs(size, n, 0);
    FlatInverse(size, n, 0);
  }

  function Triple(a: real, x: real, y: real): real {
    a * x * y
  }

  // A box grown by one cell on both ends of each direction in use.
  function Ghosts(b: Box, ndim: nat): Box {
    var g := if ndim == 3 then 1 else 0;
    Box(Point(b.lo.i - 1, b.lo.j - 1, b.lo.k - g), b.nx + 2, b.ny + 2, b.nz + 2 * g)
  }

  // ----- the coefficients of the composition solver (source/ConcFACOps.C) -----

  class ConcFACOps {
    const box: Box
    // One or two compositions, each with D on the faces of each side and a constant C; M is shared.
    const ncomp: nat
    const dx: array2<real>
    const dy: array2<real>
    const dz: array2<real>
    const c: array<real>
    var m: real

    constructor (box: Box, ncomp: nat)
      requires ncomp == 1 || ncomp == 2
      ensures Valid() && this.box == box && this.ncomp == ncomp && fresh({dx, dy, dz, c})
    {
      this.box, this.ncomp, m := box, ncomp, 0.0;
      dx := new real[ncomp, box.Faces(X)];
      dy := new real[ncomp, box.Faces(Y)];
      dz := new real[ncomp, box.Faces(Z)];
      c := new real[ncomp];
    }

    function Data(s: Side): array2<real> {
      match s case X => dx case Y => dy case Z => dz
    }

    ghost predicate Valid() {
      && (ncomp == 1 || ncomp == 2) && c.Length == ncomp
      && (forall s: Side :: Data(s).Length0 == ncomp && Data(s).Length1 == box.Faces(s)) && dx != dy && dx != dz && dy != dz
    }

    // Composition ic holds the factor times the diffusion on the faces of side s.
    ghost predicate HoldsScaled(ic: nat, s: Side, factor: real, diffusion: seq<real>)
      requires Valid() && ic < ncomp && |diffusion| == box.Faces(s)
      reads Data(s)
    {
      forall n: nat :: n < |diffusion| ==> Data(s)[ic, n] == Times(factor, diffusion[n])
    }

    method ScaleSide(ic: nat, s: Side, factor: real, diffusion: seq<real>)
      requires Valid() && ic < ncomp && |diffusion| == box.Faces(s)
      modifies Data(s)
      ensures HoldsScaled(ic, s, factor, diffusion)
      ensures forall k, n :: 0 <= k < ncomp && 0 <= n < box.Faces(s) && k != ic ==> Data(s)[k, n] == old(Data(s)[k, n])
    {
      hide Box.Faces, Times;
      var d := Data(s);
      for n := 0 to |diffusion|
        invariant forall k: nat :: k < n ==> d[ic, k] == Times(factor, diffusion[k])
        invariant forall k, l :: 0 <= k < ncomp && 0 <= l < box.Faces(s) && k != ic ==> d[k, l] == old(Data(s)[k, l])
      {
        d[ic, n] := Times(factor, diffusion[n]);
      }
    }

    /** For each composition: scales the diffusion by -gamma and sets C = 1; then sets the mobility. */
    method SetOperatorCoefficients(gamma: real, diffusion: (nat, Side) -> seq<real>, mobility: real)
      requires Valid() && gamma >= 0.0 && mobility > 0.0
      requires forall ic: nat, s: Side :: ic < ncomp ==> |diffusion(ic, s)| == box.Faces(s)
      modifies this`m, c, dx, dy, dz
      ensures m == mobility && forall ic :: 0 <= ic < ncomp ==> c[ic] == 1.0
      ensures forall ic: nat, s: Side, n: nat :: ic < ncomp && n < box.Faces(s) ==> Data(s)[ic, n] == -gamma * diffusion(ic, s)[n]
      ensures forall ic: nat, s: Side :: ic < ncomp ==> HoldsScaled(ic, s, -gamma, diffusion(ic, s))
    {
      hide Box.Faces, Times;
      for ic := 0 to ncomp
        invariant forall k :: 0 <= k < ic ==> c[k] == 1.0
        invariant forall k: nat, s: Side :: k < ic ==> HoldsScaled(k, s, -gamma, diffusion(k, s))
      {
        ScaleSide(ic, X, -gamma, diffusion(ic, X));
        ScaleSide(ic, Y, -gamma, diffusion(ic, Y));
        ScaleSide(ic, Z, -gamma, diffusion(ic, Z));
        c[ic] := 1.0;
      }
      m := mobility;
      forall ic: nat, s: Side, n: nat | ic < ncomp && n < box.Faces(s)
        ensures Data(s)[ic, n] == -gamma * diffusion(ic, s)[n]
      {
        assert HoldsScaled(ic, s, -gamma, diffusion(ic, s));
        TimesIs(-gamma, diffusion(ic, s)[n]);
      }
    }

    // Row ic of the data of one side.
    ghost function Coefficients(ic: nat, s: Side): seq<real>
      requires Valid() && ic < ncomp
      reads Data(s)
    {
      seq(box.Faces(s), n requires 0 <= n < box.Faces(s) reads Data(s) => Data(s)[ic, n])
    }

    /** What the solver of composition ic is given. */
    ghost function Spec(ic: nat, h: Side -> real): PoissonSpec
      requires Valid() && ic < ncomp
      reads this`m, c, dx, dy, dz
    {
      var b, x, y, z := box, Coefficients(ic, X), Coefficients(ic, Y), Coefficients(ic, Z);
      PoissonSpec(DVar((s: Side, p: Point) => At(match s case X => x case Y => y case Z => z, b.FaceIndex(s, p))), CConst(c[ic]), MConst(m), h)
    }

    /** For diffusions >= 0 the resulting signs are those the positive-definiteness theorem needs. */
    lemma CoefficientsSigned(solver: CellPoissonHypreSolver, ic: nat, h: Side -> real, gamma: real, diffusion: Side -> seq<real>)
      requires Valid() && ic < ncomp && solver.box == box && gamma >= 0.0 && c[ic] == 1.0 && m > 0.0 && forall s: Side :: h(s) > 0.0
      requires forall s: Side :: |diffusion(s)| == box.Faces(s) && HoldsScaled(ic, s, -gamma, diffusion(s))
      requires forall s: Side, n :: 0 <= n < |diffusion(s)| ==> diffusion(s)[n] >= 0.0
      ensures solver.Signed(Spec(ic, h)) && solver.PositiveM(Spec(ic, h))
    {
      hide Box.Faces, Box.FaceIndex, Times, InverseSquare, Box.HasFace, PoissonSpec.Coefficient;
      forall s: Side, p | box.HasFace(s, p)
        ensures Spec(ic, h).Coefficient(s, p) <= 0.0
      {
        FaceIndexBijective(box, s, p, 0);
        FaceCoefficient(ic, h, s, p);
        var n: nat := box.FaceIndex(s, p);
        assert Data(s)[ic, n] == Times(-gamma, diffusion(s)[n]);
        NegativeCoefficient(h(s), gamma, diffusion(s)[n], Data(s)[ic, n], Spec(ic, h).Coefficient(s, p));
      }
    }

    /** What the solver of composition ic then works with: D = -gamma times the diffusion of each face, C = 1 and the mobility. */
    lemma OperatorOfComposition(solver: CellPoissonHypreSolver, ic: nat, h: Side -> real, gamma: real, diffusion: Side -> seq<real>, s: Side, p: Point)
      requires Valid() && ic < ncomp && solver.box == box && c[ic] == 1.0 && (forall t: Side :: h(t) > 0.0) && box.HasFace(s, p)
      requires forall t: Side :: |diffusion(t)| == box.Faces(t)
      requires forall t: Side, n: nat :: n < box.Faces(t) ==> Data(t)[ic, n] == -gamma * diffusion(t)[n]
      ensures 0 <= box.FaceIndex(s, p) < box.Faces(s)
      ensures h(s) * h(s) * solver.Op(Spec(ic, h)).a(s, p) == -gamma * diffusion(s)[box.FaceIndex(s, p)]
      ensures solver.Op(Spec(ic, h)).c(p) == 1.0 && Spec(ic, h).m == MConst(m)
    {
      hide Box.Faces, Box.FaceIndex, Box.HasFace, PoissonSpec.Coefficient;
      FaceIndexBijective(box, s, p, 0);
      solver.CoefficientsMean(Spec(ic, h), s, p);
      var n: nat := box.FaceIndex(s, p);
      assert Spec(ic, h).d.field(s, p) == Data(s)[ic, n];
    }

    lemma FaceCoefficient(ic: nat, h: Side -> real, s: Side, p: Point)
      requires Valid() && ic < ncomp && h(s) > 0.0 && 0 <= box.FaceIndex(s, p) < box.Faces(s)
      ensures Spec(ic, h).Coefficient(s, p) == Times(InverseSquare(h(s)), Data(s)[ic, box.FaceIndex(s, p)])
    {
      hide Box.FaceIndex, Box.Faces;
    }
  }

  function InverseSquare(h: real): real
    requires h > 0.0
  {
    1.0 / (h * h)
  }

  lemma NegativeCoefficient(h: real, gamma: real, x: real, d: real, r: real)
    requires h > 0.0 && gamma >= 0.0 && x >= 0.0 && d == Times(-gamma, x) && r == Times(InverseSquare(h), d)
    ensures r <= 0.0
  {
    PositiveProduct(h, h);
    ScaledSign(InverseSquare(h), gamma, x);
  }

  lemma ScaledSign(w: real, gamma: real, x: real)
    requires w > 0.0 && gamma >= 0.0 && x >= 0.0
    ensures Times(w, Times(-gamma, x)) <= 0.0
  {
    NonNegativeProduct(gamma, x);
    NonNegativeProduct(w, gamma * x);
    assert w * (-gamma * x) == -(w * (gamma * x));
  }
}
