/**
 The cell-centred operator M div(D grad u) + C u on one box, and its symmetrised matrix
 (source/CellPoissonHypreSolver.C).  Fields are functions of a cell; u is zero outside the box, which
 is what dropping the couplings to outside cells means.
 */
module PoissonOperator {
  import opened RealFacts
  import opened Boxes
  import opened BoxSums

  type CellField = Point -> real
  type FaceField = (Side, Point) -> real

  function Fwd(s: Side, p: Point): Point {
    match s
    case X => p.(i := p.i + 1)
    case Y => p.(j := p.j + 1)
    case Z => p.(k := p.k + 1)
  }

  /**
   The grid, the face coefficients a = D / h^2, the cell coefficients C, and s with s^2 = M.  Face p of
   side s lies between cells Back(s, p) and p.
   */
  datatype Operator = Operator(box: Box, ndim: nat, a: FaceField, c: CellField, s: CellField)

  function In(b: Box, u: CellField, p: Point): real {
    if b.Has(p) then u(p) else 0.0
  }

  function Scaled(s: CellField, v: CellField): CellField {
    (p: Point) => s(p) * v(p)
  }

  // ----- the operator -----

  // The differences over the two faces of a cell, weighted by the face coefficients.

  function LowerFlux(o: Operator, u: CellField, s: Side, p: Point): real {
    o.a(s, p) * (In(o.box, u, Back(s, p)) - u(p))
  }

  function UpperFlux(o: Operator, u: CellField, s: Side, p: Point): real {
    o.a(s, Fwd(s, p)) * (In(o.box, u, Fwd(s, p)) - u(p))
  }

  function Flux(o: Operator, u: CellField, s: Side, p: Point): real {
    LowerFlux(o, u, s, p) + UpperFlux(o, u, s, p)
  }

  /** The discrete div(D grad u). */
  function Laplacian(o: Operator, u: CellField, p: Point): real {
    Flux(o, u, X, p) + Flux(o, u, Y, p) + (if o.ndim == 3 then Flux(o, u, Z, p) else 0.0)
  }

  /** (M div(D grad u) + C u)(p). */
  function Continuous(o: Operator, u: CellField, p: Point): real {
    o.s(p) * o.s(p) * Laplacian(o, u, p) + o.c(p) * u(p)
  }

  // ----- the matrix -----

  /** Diagonal entries per cell and off-diagonal entries per face. */
  datatype Stencil = Stencil(diag: CellField, off: FaceField)

  function OffTerms(o: Operator, m: Stencil, v: CellField, s: Side, p: Point): real {
    m.off(s, p) * In(o.box, v, Back(s, p)) + m.off(s, Fwd(s, p)) * In(o.box, v, Fwd(s, p))
  }

  /** Row p of the matrix applied to v: face entries couple the two cells beside the face, both ways. */
  function MatVec(o: Operator, m: Stencil, v: CellField, p: Point): real {
    m.diag(p) * v(p) + OffTerms(o, m, v, X, p) + OffTerms(o, m, v, Y, p)
    + (if o.ndim == 3 then OffTerms(o, m, v, Z, p) else 0.0)
  }

  function SideSum(a: FaceField, s: Side, p: Point): real {
    a(s, p) + a(s, Fwd(s, p))
  }

  // The sum of the coefficients of all faces of a cell.
  function Adjacent(o: Operator, p: Point): real {
    SideSum(o.a, X, p) + SideSum(o.a, Y, p) + (if o.ndim == 3 then SideSum(o.a, Z, p) else 0.0)
  }

  /** Scaled left and right by M^1/2, the C term unscaled. */
  ghost predicate Symmetrised(o: Operator, m: Stencil) {
    && (forall p :: o.box.Has(p) ==> m.diag(p) == o.s(p) * o.s(p) * -Adjacent(o, p) + o.c(p))
    && (forall s, p :: o.box.HasFace(s, p) && (s.Z? ==> o.ndim == 3) ==> m.off(s, p) == o.a(s, p) * o.s(Back(s, p)) * o.s(p))
  }

  /** Scaled on the left by a constant M = k. */
  ghost predicate ScaledBy(o: Operator, k: real, m: Stencil) {
    && (forall p :: o.box.Has(p) ==> m.diag(p) == k * -Adjacent(o, p) + o.c(p))
    && (forall s, p :: o.box.HasFace(s, p) && (s.Z? ==> o.ndim == 3) ==> m.off(s, p) == k * o.a(s, p))
  }

  // One side: s_p times the flux of s v is the off-diagonal part less the diagonal part.
  lemma SideRow(o: Operator, m: Stencil, v: CellField, s: Side, p: Point)
    requires o.box.Has(p) && m.off(s, p) == o.a(s, p) * o.s(Back(s, p)) * o.s(p)
    requires m.off(s, Fwd(s, p)) == o.a(s, Fwd(s, p)) * o.s(p) * o.s(Fwd(s, p))
    ensures OffTerms(o, m, v, s, p) - o.s(p) * o.s(p) * SideSum(o.a, s, p) * v(p) == o.s(p) * Flux(o, Scaled(o.s, v), s, p)
  {
    hide Box.Has;
    HalfRow(o.a(s, p), o.s(p), o.s(Back(s, p)), v(p), In(o.box, v, Back(s, p)), In(o.box, Scaled(o.s, v), Back(s, p)));
    HalfRow(o.a(s, Fwd(s, p)), o.s(p), o.s(Fwd(s, p)), v(p), In(o.box, v, Fwd(s, p)), In(o.box, Scaled(o.s, v), Fwd(s, p)));
    RowParts(o.s(p), o.a(s, p), o.a(s, Fwd(s, p)), v(p),
             m.off(s, p) * In(o.box, v, Back(s, p)), m.off(s, Fwd(s, p)) * In(o.box, v, Fwd(s, p)),
             LowerFlux(o, Scaled(o.s, v), s, p), UpperFlux(o, Scaled(o.s, v), s, p));
  }

  lemma HalfRow(a: real, s: real, t: real, v: real, w: real, tw: real)
    requires tw == t * w
    ensures (a * t * s) * w - s * s * a * v == s * (a * (tw - s * v))
    ensures (a * s * t) * w - s * s * a * v == s * (a * (tw - s * v))
  {}

  lemma RowParts(s: real, a: real, b: real, v: real, x: real, y: real, l: real, u: real)
    requires x - s * s * a * v == s * l && y - s * s * b * v == s * u
    ensures x + y - s * s * (a + b) * v == s * (l + u)
  {}

  lemma FacesOfCell(b: Box, s: Side, p: Point)
    requires b.Has(p)
    ensures b.HasFace(s, p) && b.HasFace(s, Fwd(s, p)) && Back(s, Fwd(s, p)) == p
  {}

  // Off-diagonal terms x, coefficients a and flux f of one side of a cell with M^1/2 = s and value v.
  ghost predicate Balanced(s: real, v: real, x: real, a: real, f: real) {
    x - s * s * a * v == s * f
  }

  lemma SymmetrisedSide(o: Operator, m: Stencil, v: CellField, s: Side, p: Point)
    requires Symmetrised(o, m) && o.box.Has(p) && (s.Z? ==> o.ndim == 3)
    ensures Balanced(o.s(p), v(p), OffTerms(o, m, v, s, p), SideSum(o.a, s, p), Flux(o, Scaled(o.s, v), s, p))
  {
    hide OffTerms, SideSum, Flux, Box.Has, Box.HasFace, Scaled, Adjacent;
    FacesOfCell(o.box, s, p);
    SideRow(o, m, v, s, p);
  }

  lemma SymmetrisedDiagonal(o: Operator, m: Stencil, p: Point)
    requires Symmetrised(o, m) && o.box.Has(p)
    ensures m.diag(p) == o.s(p) * o.s(p) * -Adjacent(o, p) + o.c(p)
  {
    hide Adjacent, Box.Has, Box.HasFace;
  }

  /** Row p of the symmetrised matrix is C v + M^1/2 div(D grad(M^1/2 v)). */
  lemma SymmetrisedRow(o: Operator, m: Stencil, v: CellField, p: Point)
    requires Symmetrised(o, m) && o.box.Has(p)
    ensures MatVec(o, m, v, p) == o.c(p) * v(p) + o.s(p) * Laplacian(o, Scaled(o.s, v), p)
  {
    hide Flux, OffTerms, SideSum, Box.Has, Box.HasFace, Symmetrised, Scaled, MatVec, Adjacent, Laplacian, Balanced;
    SymmetrisedDiagonal(o, m, p);
    SymmetrisedSide(o, m, v, X, p);
    SymmetrisedSide(o, m, v, Y, p);
    var z, az, fz := SymmetrisedThird(o, m, v, p);
    var r, a, f := MatVec(o, m, v, p), Adjacent(o, p), Laplacian(o, Scaled(o.s, v), p);
    RowParts3(o, m, v, Scaled(o.s, v), p, z, az, fz);
    AddSides(o.s(p), v(p), o.c(p), m.diag(p), OffTerms(o, m, v, X, p), OffTerms(o, m, v, Y, p), z,
             SideSum(o.a, X, p), SideSum(o.a, Y, p), az, Flux(o, Scaled(o.s, v), X, p), Flux(o, Scaled(o.s, v), Y, p), fz, r, a, f);
  }

  lemma SymmetrisedThird(o: Operator, m: Stencil, v: CellField, p: Point) returns (z: real, az: real, fz: real)
    requires Symmetrised(o, m) && o.box.Has(p)
    ensures z == if o.ndim == 3 then OffTerms(o, m, v, Z, p) else 0.0
    ensures az == if o.ndim == 3 then SideSum(o.a, Z, p) else 0.0
    ensures fz == if o.ndim == 3 then Flux(o, Scaled(o.s, v), Z, p) else 0.0
    ensures Balanced(o.s(p), v(p), z, az, fz)
  {
    hide Flux, OffTerms, SideSum, Box.Has, Box.HasFace, Symmetrised, Scaled;
    if o.ndim == 3 {
      SymmetrisedSide(o, m, v, Z, p);
      z, az, fz := OffTerms(o, m, v, Z, p), SideSum(o.a, Z, p), Flux(o, Scaled(o.s, v), Z, p);
    } else {
      z, az, fz := 0.0, 0.0, 0.0;
    }
  }

  lemma RowParts3(o: Operator, m: Stencil, v: CellField, w: CellField, p: Point, z: real, az: real, fz: real)
    requires z == if o.ndim == 3 then OffTerms(o, m, v, Z, p) else 0.0
    requires az == if o.ndim == 3 then SideSum(o.a, Z, p) else 0.0
    requires fz == if o.ndim == 3 then Flux(o, w, Z, p) else 0.0
    ensures MatVec(o, m, v, p) == Times(m.diag(p), v(p)) + OffTerms(o, m, v, X, p) + OffTerms(o, m, v, Y, p) + z
    ensures Adjacent(o, p) == SideSum(o.a, X, p) + SideSum(o.a, Y, p) + az
    ensures Laplacian(o, w, p) == Flux(o, w, X, p) + Flux(o, w, Y, p) + fz
  {
    hide Flux, OffTerms, SideSum;
  }

  lemma AddSides(s: real, v: real, c: real, d: real, x: real, y: real, z: real, ax: real, ay: real, az: real, fx: real, fy: real, fz: real,
                 r: real, a: real, f: real)
    requires d == s * s * -a + c && r == Times(d, v) + x + y + z && a == ax + ay + az && f == fx + fy + fz
    requires Balanced(s, v, x, ax, fx) && Balanced(s, v, y, ay, fy) && Balanced(s, v, z, az, fz)
    ensures r == c * v + s * f
  {
    TimesSum3(s, fx, fy, fz);
    TimesSum3(s * s * v, ax, ay, az);
    assert d * v == -(s * s * v * a) + c * v;
  }

  lemma TimesSum3(k: real, x: real, y: real, z: real)
    ensures k * (x + y + z) == k * x + k * y + k * z
  {}

  /** v solves the linear system with right-hand side r. */
  ghost predicate SolvesMatrix(o: Operator, m: Stencil, v: CellField, r: CellField) {
    forall p :: o.box.Has(p) ==> MatVec(o, m, v, p) == r(p)
  }

  /** u solves M div(D grad u) + C u = f. */
  ghost predicate SolvesOperator(o: Operator, u: CellField, f: CellField) {
    forall p :: o.box.Has(p) ==> Continuous(o, u, p) == f(p)
  }

  // r = f / M^1/2, with M^1/2 > 0.
  ghost predicate Divided(o: Operator, f: CellField, r: CellField) {
    forall p :: o.box.Has(p) ==> o.s(p) > 0.0 && o.s(p) * r(p) == f(p)
  }

  /**
   The M^1/2 transformation preserves meaning: v solves the symmetrised system with right-hand side
   f / M^1/2 exactly when u = M^1/2 v solves the original equation.
   */
  lemma TransformationPreservesMeaning(o: Operator, m: Stencil, v: CellField, f: CellField, r: CellField)
    requires Symmetrised(o, m) && Divided(o, f, r)
    ensures SolvesMatrix(o, m, v, r) <==> SolvesOperator(o, Scaled(o.s, v), f)
  {
    hide Symmetrised, MatVec, Continuous, Box.Has, Scaled;
    forall p | o.box.Has(p)
      ensures MatVec(o, m, v, p) == r(p) <==> Continuous(o, Scaled(o.s, v), p) == f(p)
    {
      RowMeaning(o, m, v, p);
      Cancel(o.s(p), MatVec(o, m, v, p), r(p));
    }
  }

  lemma Cancel(s: real, x: real, y: real)
    requires s > 0.0
    ensures s * x == s * y <==> x == y
  {}

  lemma RowMeaning(o: Operator, m: Stencil, v: CellField, p: Point)
    requires Symmetrised(o, m) && o.box.Has(p)
    ensures o.s(p) * MatVec(o, m, v, p) == Continuous(o, Scaled(o.s, v), p)
  {
    hide Symmetrised, MatVec, Laplacian, Box.Has;
    SymmetrisedRow(o, m, v, p);
    Multiply(o.s(p), o.c(p), v(p), Laplacian(o, Scaled(o.s, v), p));
  }

  lemma Multiply(s: real, c: real, v: real, l: real)
    ensures s * (c * v + s * l) == s * s * l + c * (s * v)
  {}

  /** Only the values on the box matter. */
  lemma OperatorReadsBox(o: Operator, u: CellField, w: CellField, f: CellField, g: CellField)
    requires forall p :: o.box.Has(p) ==> u(p) == w(p) && f(p) == g(p)
    ensures SolvesOperator(o, u, f) <==> SolvesOperator(o, w, g)
  {
    hide Continuous, Box.Has;
    forall p | o.box.Has(p)
      ensures Continuous(o, u, p) == Continuous(o, w, p)
    {
      SameContinuous(o, u, w, p);
    }
  }

  lemma SameContinuous(o: Operator, u: CellField, w: CellField, p: Point)
    requires o.box.Has(p) && forall q :: o.box.Has(q) ==> u(q) == w(q)
    ensures Continuous(o, u, p) == Continuous(o, w, p)
  {
    hide Box.Has;
    SameFlux(o, u, w, X, p);
    SameFlux(o, u, w, Y, p);
    SameFlux(o, u, w, Z, p);
    assert Laplacian(o, u, p) == Laplacian(o, w, p);
  }

  lemma SameFlux(o: Operator, u: CellField, w: CellField, s: Side, p: Point)
    requires o.box.Has(p) && forall q :: o.box.Has(q) ==> u(q) == w(q)
    ensures Flux(o, u, s, p) == Flux(o, w, s, p)
  {
    hide Box.Has;
    assert In(o.box, u, Back(s, p)) == In(o.box, w, Back(s, p));
    assert In(o.box, u, Fwd(s, p)) == In(o.box, w, Fwd(s, p));
  }

  // ----- a constant M -----

  lemma ScaledSide(o: Operator, k: real, m: Stencil, u: CellField, s: Side, p: Point)
    requires ScaledBy(o, k, m) && o.box.Has(p) && (s.Z? ==> o.ndim == 3)
    ensures OffTerms(o, m, u, s, p) - k * SideSum(o.a, s, p) * u(p) == k * Flux(o, u, s, p)
  {
    hide Box.Has, Box.HasFace, Adjacent, In;
    FacesOfCell(o.box, s, p);
    ScaledParts(k, o.a(s, p), o.a(s, Fwd(s, p)), u(p), In(o.box, u, Back(s, p)), In(o.box, u, Fwd(s, p)));
  }

  lemma ScaledParts(k: real, a: real, b: real, u: real, x: real, y: real)
    ensures (k * a) * x + (k * b) * y - k * (a + b) * u == k * (a * (x - u) + b * (y - u))
  {}

  lemma ScaledDiagonal(o: Operator, k: real, m: Stencil, p: Point)
    requires ScaledBy(o, k, m) && o.box.Has(p)
    ensures m.diag(p) == k * -Adjacent(o, p) + o.c(p)
  {
    hide Adjacent, Box.Has, Box.HasFace;
  }

  lemma ScaledRow(o: Operator, k: real, m: Stencil, u: CellField, p: Point)
    requires ScaledBy(o, k, m) && o.box.Has(p)
    ensures MatVec(o, m, u, p) == o.c(p) * u(p) + k * Laplacian(o, u, p)
  {
    hide Flux, OffTerms, SideSum, Box.Has, Box.HasFace, ScaledBy;
    ScaledDiagonal(o, k, m, p);
    ScaledSide(o, k, m, u, X, p);
    ScaledSide(o, k, m, u, Y, p);
    if o.ndim == 3 {
      ScaledSide(o, k, m, u, Z, p);
    }
    var z := if o.ndim == 3 then OffTerms(o, m, u, Z, p) else 0.0;
    var az := if o.ndim == 3 then SideSum(o.a, Z, p) else 0.0;
    var fz := if o.ndim == 3 then Flux(o, u, Z, p) else 0.0;
    AddScaledSides(k, u(p), o.c(p), m.diag(p), OffTerms(o, m, u, X, p), OffTerms(o, m, u, Y, p), z,
                   SideSum(o.a, X, p), SideSum(o.a, Y, p), az, Flux(o, u, X, p), Flux(o, u, Y, p), fz);
  }

  lemma AddScaledSides(k: real, u: real, c: real, d: real, x: real, y: real, z: real, ax: real, ay: real, az: real, fx: real, fy: real, fz: real)
    requires d == k * -(ax + ay + az) + c
    requires x - k * ax * u == k * fx && y - k * ay * u == k * fy && z - k * az * u == k * fz
    ensures d * u + x + y + z == c * u + k * (fx + fy + fz)
  {
    assert d * u == -(k * ax * u) - k * ay * u - k * az * u + c * u;
  }

  /** With a constant M the matrix is the operator itself. */
  lemma ConstantPreservesMeaning(o: Operator, k: real, m: Stencil, u: CellField, f: CellField)
    requires ScaledBy(o, k, m) && forall p :: o.box.Has(p) ==> o.s(p) * o.s(p) == k
    ensures SolvesMatrix(o, m, u, f) <==> SolvesOperator(o, u, f)
  {
    hide ScaledBy, MatVec, Box.Has, Laplacian;
    forall p | o.box.Has(p)
      ensures MatVec(o, m, u, p) == Continuous(o, u, p)
    {
      ScaledRow(o, k, m, u, p);
    }
  }

  /** It is also the symmetrised matrix of a uniform M^1/2. */
  lemma ConstantIsSymmetrised(o: Operator, k: real, m: Stencil, t: real)
    requires ScaledBy(o, k, m) && t * t == k && forall p :: o.s(p) == t
    ensures Symmetrised(o, m)
  {
    hide Adjacent, Box.Has, Box.HasFace;
    forall s: Side, p | o.box.HasFace(s, p) && (s.Z? ==> o.ndim == 3)
      ensures m.off(s, p) == o.a(s, p) * o.s(Back(s, p)) * o.s(p)
    {
      Regroup(o.a(s, p), t);
    }
  }

  lemma Regroup(a: real, t: real)
    ensures (t * t) * a == a * t * t
  {}

  /** For a uniform M the two assemblies give the same u. */
  lemma BranchesAgree(o: Operator, k: real, constant: Stencil, variable: Stencil, v: CellField, f: CellField, r: CellField)
    requires ScaledBy(o, k, constant) && Symmetrised(o, variable) && Divided(o, f, r)
    requires forall p :: o.box.Has(p) ==> o.s(p) * o.s(p) == k
    ensures SolvesMatrix(o, variable, v, r) <==> SolvesMatrix(o, constant, Scaled(o.s, v), f)
  {
    hide ScaledBy, Symmetrised, Divided, SolvesMatrix, SolvesOperator, Scaled, Box.Has;
    TransformationPreservesMeaning(o, variable, v, f, r);
    ConstantPreservesMeaning(o, k, constant, Scaled(o.s, v), f);
  }

  // ----- symmetry and positive definiteness -----

  /** The energy of one face: minus its coefficient times the product of two jumps, zero outside the box. */
  function FaceEnergy(o: Operator, u: CellField, w: CellField, s: Side, p: Point): real {
    -o.a(s, p) * ((In(o.box, u, p) - In(o.box, u, Back(s, p))) * (In(o.box, w, p) - In(o.box, w, Back(s, p))))
  }

  // The parts of u times the flux of w that belong to the lower and to the upper face.

  function LowerPart(o: Operator, u: CellField, w: CellField, s: Side, p: Point): real {
    u(p) * LowerFlux(o, w, s, p)
  }

  function UpperPart(o: Operator, u: CellField, w: CellField, s: Side, p: Point): real {
    u(p) * UpperFlux(o, w, s, p)
  }

  lemma FaceCollects(o: Operator, u: CellField, w: CellField, s: Side, p: Point)
    ensures FaceEnergy(o, u, w, s, p)
      == (if o.box.Has(p) then LowerPart(o, u, w, s, p) else 0.0)
       + (if o.box.Has(Back(s, p)) then UpperPart(o, u, w, s, Back(s, p)) else 0.0)
  {
    hide Box.Has;
    assert Fwd(s, Back(s, p)) == p;
    var a, x, y, z, t := o.a(s, p), In(o.box, u, p), In(o.box, u, Back(s, p)), In(o.box, w, p), In(o.box, w, Back(s, p));
    Jumps(a, x, y, z, t);
  }

  lemma Jumps(a: real, x: real, y: real, z: real, t: real)
    ensures -a * ((x - y) * (z - t)) == x * (a * (t - z)) + y * (a * (z - t))
  {}

  // The cell and the face with indices counted from the lower corner.
  function PointAt(b: Box, i: int, j: int, k: int): Point {
    Point(b.lo.i + i, b.lo.j + j, b.lo.k + k)
  }

  function OverCells(b: Box, g: CellField): Field {
    (i: int, j: int, k: int) => g(PointAt(b, i, j, k))
  }

  function CellSum(b: Box, g: CellField): real {
    BoxSum(b.nx, b.ny, b.nz, OverCells(b, g))
  }

  lemma PointInBox(b: Box, i: nat, j: nat, k: nat)
    requires i < b.nx && j < b.ny && k < b.nz
    ensures b.Has(PointAt(b, i, j, k))
  {}

  /** Lines of cells along side s, and the faces between them: index i runs along the line. */
  function LineAt(b: Box, s: Side, i: int, j: int, k: int): Point {
    match s
    case X => PointAt(b, i, j, k)
    case Y => PointAt(b, j, i, k)
    case Z => PointAt(b, k, j, i)
  }

  /** The energy of all faces of one side, summed line by line. */
  function SideEnergy(o: Operator, u: CellField, w: CellField, s: Side): real {
    var e := (i: int, j: int, k: int) => FaceEnergy(o, u, w, s, LineAt(o.box, s, i, j, k));
    match s
    case X => BoxSum(o.box.nx + 1, o.box.ny, o.box.nz, e)
    case Y => BoxSum(o.box.ny + 1, o.box.nx, o.box.nz, e)
    case Z => BoxSum(o.box.nz + 1, o.box.ny, o.box.nx, e)
  }

  function FluxProduct(o: Operator, u: CellField, w: CellField, s: Side, p: Point): real {
    u(p) * Flux(o, w, s, p)
  }

  lemma FluxProductSplits(o: Operator, u: CellField, w: CellField, s: Side, p: Point)
    ensures FluxProduct(o, u, w, s, p) == LowerPart(o, u, w, s, p) + UpperPart(o, u, w, s, p)
  {
    hide LowerFlux, UpperFlux;
  }

  /** Summation by parts: u times the flux of w, over all cells, is the energy of all faces. */
  lemma SideByParts(o: Operator, u: CellField, w: CellField, s: Side)
    ensures CellSum(o.box, p => FluxProduct(o, u, w, s, p)) == SideEnergy(o, u, w, s)
  {
    hide FluxProduct, FaceEnergy, BoxSum;
    var b := o.box;
    var flux := OverCells(b, p => FluxProduct(o, u, w, s, p));
    var t := (i: int, j: int, k: int) => FluxProduct(o, u, w, s, LineAt(b, s, i, j, k));
    var e := (i: int, j: int, k: int) => FaceEnergy(o, u, w, s, LineAt(b, s, i, j, k));
    match s {
      case X =>
        assert forall i, j, k :: flux(i, j, k) == t(i, j, k);
        BoxSumSame(b.nx, b.ny, b.nz, flux, t);
        AlongLines(o, u, w, X, b.nx, b.ny, b.nz, t, e);
      case Y =>
        var swapped := SwapIJ(flux);
        assert forall j, i, k :: swapped(j, i, k) == t(j, i, k);
        BoxSwapIJ(b.nx, b.ny, b.nz, flux);
        BoxSumSame(b.ny, b.nx, b.nz, swapped, t);
        AlongLines(o, u, w, Y, b.ny, b.nx, b.nz, t, e);
      case Z =>
        var swapped := SwapIK(flux);
        assert forall k, j, i :: swapped(k, j, i) == t(k, j, i);
        BoxSwapIK(b.nx, b.ny, b.nz, flux);
        BoxSumSame(b.nz, b.ny, b.nx, swapped, t);
        AlongLines(o, u, w, Z, b.nz, b.ny, b.nx, t, e);
    }
  }

  // Face f of a line lies between its cells f - 1 and f; only faces 0 and n have a side outside.
  lemma LineEnds(b: Box, s: Side, n: nat, m: nat, l: nat, f: int, j: int, k: int)
    requires (n, m, l) == (match s case X => (b.nx, b.ny, b.nz) case Y => (b.ny, b.nx, b.nz) case Z => (b.nz, b.ny, b.nx))
    requires 0 <= f <= n && 0 <= j < m && 0 <= k < l
    ensures b.Has(LineAt(b, s, f, j, k)) <==> f < n
    ensures Back(s, LineAt(b, s, f, j, k)) == LineAt(b, s, f - 1, j, k)
    ensures b.Has(LineAt(b, s, f - 1, j, k)) <==> f > 0
  {}

  lemma AlongLines(o: Operator, u: CellField, w: CellField, s: Side, n: nat, m: nat, l: nat, t: Field, e: Field)
    requires (n, m, l) == (match s case X => (o.box.nx, o.box.ny, o.box.nz) case Y => (o.box.ny, o.box.nx, o.box.nz)
                           case Z => (o.box.nz, o.box.ny, o.box.nx))
    requires forall i, j, k :: t(i, j, k) == FluxProduct(o, u, w, s, LineAt(o.box, s, i, j, k))
    requires forall i, j, k :: e(i, j, k) == FaceEnergy(o, u, w, s, LineAt(o.box, s, i, j, k))
    ensures BoxSum(n, m, l, t) == BoxSum(n + 1, m, l, e)
  {
    hide FluxProduct, FaceEnergy, LowerPart, UpperPart, BoxSum, Box.Has, Back, LineAt;
    var lower := (i: int, j: int, k: int) => LowerPart(o, u, w, s, LineAt(o.box, s, i, j, k));
    var upper := (i: int, j: int, k: int) => UpperPart(o, u, w, s, LineAt(o.box, s, i, j, k));
    forall i, j, k
      ensures t(i, j, k) == lower(i, j, k) + upper(i, j, k)
    {
      FluxProductSplits(o, u, w, s, LineAt(o.box, s, i, j, k));
    }
    forall f, j, k | 0 <= f <= n && 0 <= j < m && 0 <= k < l
      ensures e(f, j, k) == FaceTerm3(n, lower, upper, f, j, k)
    {
      LineEnds(o.box, s, n, m, l, f, j, k);
      FaceCollects(o, u, w, s, LineAt(o.box, s, f, j, k));
    }
    BoxToFaces(n, m, l, t, lower, upper, e);
  }

  // ----- the energy of the whole matrix -----

  function MassTerm(o: Operator, z: CellField, v: CellField, p: Point): real {
    o.c(p) * (z(p) * v(p))
  }

  /** z . A v. */
  function Inner(o: Operator, m: Stencil, z: CellField, v: CellField): real {
    CellSum(o.box, p => z(p) * MatVec(o, m, v, p))
  }

  function Energy(o: Operator, z: CellField, v: CellField): real {
    CellSum(o.box, p => MassTerm(o, z, v, p))
    + SideEnergy(o, Scaled(o.s, z), Scaled(o.s, v), X)
    + SideEnergy(o, Scaled(o.s, z), Scaled(o.s, v), Y)
    + (if o.ndim == 3 then SideEnergy(o, Scaled(o.s, z), Scaled(o.s, v), Z) else 0.0)
  }

  function ZFluxProduct(o: Operator, u: CellField, w: CellField, p: Point): real {
    if o.ndim == 3 then FluxProduct(o, u, w, Z, p) else 0.0
  }

  lemma RowEnergy(o: Operator, m: Stencil, z: CellField, v: CellField, p: Point)
    requires Symmetrised(o, m) && o.box.Has(p)
    ensures var u, w := Scaled(o.s, z), Scaled(o.s, v);
      z(p) * MatVec(o, m, v, p)
      == MassTerm(o, z, v, p) + FluxProduct(o, u, w, X, p) + FluxProduct(o, u, w, Y, p) + ZFluxProduct(o, u, w, p)
  {
    hide Symmetrised, MatVec, Flux, Box.Has;
    SymmetrisedRow(o, m, v, p);
    var w := Scaled(o.s, v);
    TimesRow(z(p), o.c(p), v(p), o.s(p), Flux(o, w, X, p), Flux(o, w, Y, p), if o.ndim == 3 then Flux(o, w, Z, p) else 0.0);
  }

  lemma TimesRow(z: real, c: real, v: real, s: real, x: real, y: real, t: real)
    ensures z * (c * v + s * (x + y + t)) == c * (z * v) + (s * z) * x + (s * z) * y + (s * z) * t
  {}

  lemma CellSumAdd(b: Box, f: CellField, g: CellField, h: CellField)
    requires forall p :: b.Has(p) ==> h(p) == f(p) + g(p)
    ensures CellSum(b, h) == CellSum(b, f) + CellSum(b, g)
  {
    hide Box.Has, BoxSum;
    var f', g', h' := OverCells(b, f), OverCells(b, g), OverCells(b, h);
    forall i, j, k | 0 <= i < b.nx && 0 <= j < b.ny && 0 <= k < b.nz
      ensures h'(i, j, k) == f'(i, j, k) + g'(i, j, k)
    {
      PointInBox(b, i, j, k);
    }
    BoxSumAdd(b.nx, b.ny, b.nz, f', g', h');
  }

  lemma CellSumSame(b: Box, f: CellField, g: CellField)
    requires forall p :: b.Has(p) ==> f(p) == g(p)
    ensures CellSum(b, f) == CellSum(b, g)
  {
    hide Box.Has, BoxSum;
    var f', g' := OverCells(b, f), OverCells(b, g);
    forall i, j, k | 0 <= i < b.nx && 0 <= j < b.ny && 0 <= k < b.nz
      ensures f'(i, j, k) == g'(i, j, k)
    {
      PointInBox(b, i, j, k);
    }
    BoxSumSame(b.nx, b.ny, b.nz, f', g');
  }

  lemma CellSumZero(b: Box, f: CellField)
    requires forall p :: f(p) == 0.0
    ensures CellSum(b, f) == 0.0
  {
    CellSumAdd(b, f, f, f);
  }

  /**
   The bilinear form of the matrix: the C term of every cell plus, for every face, minus its
   coefficient times the jumps of M^1/2 z and M^1/2 v across it.
   */
  lemma InnerIsEnergy(o: Operator, m: Stencil, z: CellField, v: CellField)
    requires Symmetrised(o, m)
    ensures Inner(o, m, z, v) == Energy(o, z, v)
  {
    hide Symmetrised, MatVec, FluxProduct, SideEnergy, CellSum, MassTerm, Scaled, Box.Has;
    var u, w := Scaled(o.s, z), Scaled(o.s, v);
    var mass, x, y, t := p => MassTerm(o, z, v, p), p => FluxProduct(o, u, w, X, p), p => FluxProduct(o, u, w, Y, p), p => ZFluxProduct(o, u, w, p);
    var mx := p => mass(p) + x(p);
    var mxy := p => mx(p) + y(p);
    var row := p => z(p) * MatVec(o, m, v, p);
    forall p | o.box.Has(p)
      ensures row(p) == mxy(p) + t(p)
    {
      RowEnergy(o, m, z, v, p);
    }
    CellSumAdd(o.box, mxy, t, row);
    CellSumAdd(o.box, mx, y, mxy);
    CellSumAdd(o.box, mass, x, mx);
    SideByParts(o, u, w, X);
    SideByParts(o, u, w, Y);
    ZPart(o, u, w);
  }

  lemma ZPart(o: Operator, u: CellField, w: CellField)
    ensures CellSum(o.box, p => ZFluxProduct(o, u, w, p)) == if o.ndim == 3 then SideEnergy(o, u, w, Z) else 0.0
  {
    hide FluxProduct, SideEnergy, CellSum;
    if o.ndim == 3 {
      SideByParts(o, u, w, Z);
      CellSumSame(o.box, p => ZFluxProduct(o, u, w, p), p => FluxProduct(o, u, w, Z, p));
    } else {
      CellSumZero(o.box, p => ZFluxProduct(o, u, w, p));
    }
  }

  /** The matrix is symmetric. */
  lemma MatrixSymmetric(o: Operator, m: Stencil, z: CellField, v: CellField)
    requires Symmetrised(o, m)
    ensures Inner(o, m, z, v) == Inner(o, m, v, z)
  {
    hide Symmetrised, Inner, Energy, SideEnergy, CellSum;
    InnerIsEnergy(o, m, z, v);
    InnerIsEnergy(o, m, v, z);
    EnergySwap(o, z, v);
  }

  lemma EnergySwap(o: Operator, z: CellField, v: CellField)
    ensures Energy(o, z, v) == Energy(o, v, z)
  {
    hide SideEnergy, CellSum;
    CellSumSame(o.box, p => MassTerm(o, z, v, p), p => MassTerm(o, v, z, p));
    SideEnergySwap(o, Scaled(o.s, z), Scaled(o.s, v), X);
    SideEnergySwap(o, Scaled(o.s, z), Scaled(o.s, v), Y);
    SideEnergySwap(o, Scaled(o.s, z), Scaled(o.s, v), Z);
  }

  lemma SideEnergySwap(o: Operator, u: CellField, w: CellField, s: Side)
    ensures SideEnergy(o, u, w, s) == SideEnergy(o, w, u, s)
  {
    hide BoxSum, In, LineAt;
    var e := (i: int, j: int, k: int) => FaceEnergy(o, u, w, s, LineAt(o.box, s, i, j, k));
    var e' := (i: int, j: int, k: int) => FaceEnergy(o, w, u, s, LineAt(o.box, s, i, j, k));
    assert forall i, j, k :: e(i, j, k) == e'(i, j, k);
    BoxSumSame(o.box.nx + 1, o.box.ny, o.box.nz, e, e');
    BoxSumSame(o.box.ny + 1, o.box.nx, o.box.nz, e, e');
    BoxSumSame(o.box.nz + 1, o.box.ny, o.box.nx, e, e');
  }

  /** The signs that the time integrator gives the coefficients: D <= 0, C > 0. */
  ghost predicate Elliptic(o: Operator) {
    && (forall s, p :: o.box.HasFace(s, p) && (s.Z? ==> o.ndim == 3) ==> o.a(s, p) <= 0.0)
    && (forall p :: o.box.Has(p) ==> o.c(p) > 0.0)
  }

  /** ... and positive definite: v . A v > 0 unless v is zero on the box. */
  lemma MatrixPositiveDefinite(o: Operator, m: Stencil, v: CellField, p: Point)
    requires Symmetrised(o, m) && Elliptic(o) && o.box.Has(p) && v(p) != 0.0
    ensures Inner(o, m, v, v) > 0.0
  {
    hide Symmetrised, Inner, SideEnergy, CellSum, Elliptic, Box.Has;
    InnerIsEnergy(o, m, v, v);
    MassPositive(o, v, p);
    SideEnergyNonneg(o, Scaled(o.s, v), X);
    SideEnergyNonneg(o, Scaled(o.s, v), Y);
    if o.ndim == 3 {
      SideEnergyNonneg(o, Scaled(o.s, v), Z);
    }
  }

  lemma OffsetsInBox(b: Box, p: Point)
    requires b.Has(p)
    ensures 0 <= p.i - b.lo.i < b.nx && 0 <= p.j - b.lo.j < b.ny && 0 <= p.k - b.lo.k < b.nz
    ensures PointAt(b, p.i - b.lo.i, p.j - b.lo.j, p.k - b.lo.k) == p
  {}

  lemma MassPositive(o: Operator, v: CellField, p: Point)
    requires Elliptic(o) && o.box.Has(p) && v(p) != 0.0
    ensures CellSum(o.box, p => MassTerm(o, v, v, p)) > 0.0
  {
    hide BoxSum, MassTerm, LineAt, Box.Has;
    var b := o.box;
    var g := OverCells(b, p => MassTerm(o, v, v, p));
    forall i, j, k | 0 <= i < b.nx && 0 <= j < b.ny && 0 <= k < b.nz
      ensures g(i, j, k) >= 0.0
    {
      PointInBox(b, i, j, k);
      MassSign(o, v, PointAt(b, i, j, k));
    }
    MassSign(o, v, p);
    OffsetsInBox(b, p);
    BoxSumPositive(b.nx, b.ny, b.nz, g, p.i - b.lo.i, p.j - b.lo.j, p.k - b.lo.k);
  }

  lemma MassSign(o: Operator, v: CellField, p: Point)
    requires Elliptic(o) && o.box.Has(p)
    ensures MassTerm(o, v, v, p) >= 0.0 && (v(p) != 0.0 ==> MassTerm(o, v, v, p) > 0.0)
  {
    hide Box.Has, Box.HasFace;
    WeightedSquare(o.c(p), v(p), MassTerm(o, v, v, p));
  }

  lemma FaceOnLine(b: Box, s: Side, f: nat, j: nat, k: nat)
    requires match s
      case X => f <= b.nx && j < b.ny && k < b.nz
      case Y => f <= b.ny && j < b.nx && k < b.nz
      case Z => f <= b.nz && j < b.ny && k < b.nx
    ensures b.HasFace(s, LineAt(b, s, f, j, k))
  {}

  lemma SideEnergyNonneg(o: Operator, w: CellField, s: Side)
    requires Elliptic(o) && (s.Z? ==> o.ndim == 3)
    ensures SideEnergy(o, w, w, s) >= 0.0
  {
    hide BoxSum, FaceEnergy, LineAt, Box.HasFace;
    var b := o.box;
    var (n, m, l) := match s case X => (b.nx, b.ny, b.nz) case Y => (b.ny, b.nx, b.nz) case Z => (b.nz, b.ny, b.nx);
    var e := (i: int, j: int, k: int) => FaceEnergy(o, w, w, s, LineAt(b, s, i, j, k));
    forall f, j, k | 0 <= f < n + 1 && 0 <= j < m && 0 <= k < l
      ensures e(f, j, k) >= 0.0
    {
      FaceOnLine(b, s, f, j, k);
      FaceEnergySign(o, w, s, LineAt(b, s, f, j, k));
    }
    BoxSumNonneg(n + 1, m, l, e);
  }

  lemma FaceEnergySign(o: Operator, w: CellField, s: Side, p: Point)
    requires Elliptic(o) && o.box.HasFace(s, p) && (s.Z? ==> o.ndim == 3)
    ensures FaceEnergy(o, w, w, s, p) >= 0.0
  {
    hide Box.Has, Box.HasFace, In;
    WeightedSquare(-o.a(s, p), In(o.box, w, p) - In(o.box, w, Back(s, p)), FaceEnergy(o, w, w, s, p));
  }

  /** So the linear system has at most one solution. */
  lemma SolutionUnique(o: Operator, m: Stencil, v: CellField, v': CellField, r: CellField, p: Point)
    requires Symmetrised(o, m) && Elliptic(o) && o.box.Has(p)
    requires SolvesMatrix(o, m, v, r) && SolvesMatrix(o, m, v', r)
    ensures v(p) == v'(p)
  {
    hide Symmetrised, MatVec, Elliptic, Box.Has, CellSum;
    var d := p => v(p) - v'(p);
    if v(p) != v'(p) {
      MatrixPositiveDefinite(o, m, d, p);
      var row := p => d(p) * MatVec(o, m, d, p);
      forall q | o.box.Has(q)
        ensures row(q) == 0.0
      {
        MatVecDifference(o, m, v, v', d, q);
      }
      CellSumSame(o.box, row, q => 0.0);
      CellSumZero(o.box, q => 0.0);
      assert false;
    }
  }

  lemma MatVecDifference(o: Operator, m: Stencil, v: CellField, v': CellField, d: CellField, p: Point)
    requires forall q :: d(q) == v(q) - v'(q)
    ensures MatVec(o, m, d, p) == MatVec(o, m, v, p) - MatVec(o, m, v', p)
  {
    hide OffTerms;
    OffDifference(o, m, v, v', d, X, p);
    OffDifference(o, m, v, v', d, Y, p);
    OffDifference(o, m, v, v', d, Z, p);
    assert m.diag(p) * (v(p) - v'(p)) == m.diag(p) * v(p) - m.diag(p) * v'(p);
  }

  lemma OffDifference(o: Operator, m: Stencil, v: CellField, v': CellField, d: CellField, s: Side, p: Point)
    requires forall q :: d(q) == v(q) - v'(q)
    ensures OffTerms(o, m, d, s, p) == OffTerms(o, m, v, s, p) - OffTerms(o, m, v', s, p)
  {
    hide Box.Has;
    Difference(m.off(s, p), In(o.box, v, Back(s, p)), In(o.box, v', Back(s, p)));
    Difference(m.off(s, Fwd(s, p)), In(o.box, v, Fwd(s, p)), In(o.box, v', Fwd(s, p)));
  }

  lemma Difference(a: real, x: real, y: real)
    ensures a * (x - y) == a * x - a * y
  {}
}
