/**
 Boxes of cells, the index formulas for the cells of a box and for the faces of each side, and the
 proof that each formula is a bijection onto [0, size).  A 2-D box is a 3-D box with nz == 1.
 */
module Boxes {
  import opened Indices

  datatype Side = X | Y | Z

  datatype Point = Point(i: int, j: int, k: int)

  // Lowest cell and number of cells in each direction.
  datatype Box = Box(lo: Point, nx: nat, ny: nat, nz: nat) {
    function Cells(): nat {
      Volume(nx, ny, nz)
    }

    predicate Has(p: Point) {
      lo.i <= p.i < lo.i + nx && lo.j <= p.j < lo.j + ny && lo.k <= p.k < lo.k + nz
    }

    // The number of faces on side s in each direction.
    function FacesX(s: Side): nat {
      if s.X? then nx + 1 else nx
    }

    function FacesY(s: Side): nat {
      if s.Y? then ny + 1 else ny
    }

    function FacesZ(s: Side): nat {
      if s.Z? then nz + 1 else nz
    }

    function Faces(s: Side): nat {
      Volume(FacesX(s), FacesY(s), FacesZ(s))
    }

    predicate HasFace(s: Side, p: Point) {
      lo.i <= p.i < lo.i + FacesX(s) && lo.j <= p.j < lo.j + FacesY(s) && lo.k <= p.k < lo.k + FacesZ(s)
    }

    // Strides as the source computes them.
    function Jp(): nat {
      nx
    }

    function Kp(): nat {
      Jp() * ny
    }

    function CellIndex(p: Point): int {
      (p.i - lo.i) + (p.j - lo.j) * Jp() + (p.k - lo.k) * Kp()
    }

    function FaceIndex(s: Side, p: Point): int {
      match s
      case X => (p.i - lo.i) + (p.j - lo.j) * (Jp() + 1) + (p.k - lo.k) * (Kp() + ny)
      case Y => (p.i - lo.i) + (p.j - lo.j) * Jp() + (p.k - lo.k) * (Kp() + Jp())
      case Z => (p.i - lo.i) + (p.j - lo.j) * Jp() + (p.k - lo.k) * Kp()
    }

    // The face at position n: its digits in the mixed radix (FacesX, FacesY).
    function FaceAt(s: Side, n: nat): Point {
      Point(lo.i + Low(FacesX(s), n), lo.j + Low(FacesY(s), High(FacesX(s), n)), lo.k + High(FacesY(s), High(FacesX(s), n)))
    }

    predicate Within(outer: Box) {
      && outer.lo.i <= lo.i && lo.i + nx <= outer.lo.i + outer.nx
      && outer.lo.j <= lo.j && lo.j + ny <= outer.lo.j + outer.ny
      && outer.lo.k <= lo.k && lo.k + nz <= outer.lo.k + outer.nz
    }
  }

  lemma FaceIndexIsFlat(b: Box, s: Side, p: Point)
    requires b.HasFace(s, p)
    ensures b.FaceIndex(s, p) == Flat3(b.FacesX(s), b.FacesY(s), p.i - b.lo.i, p.j - b.lo.j, p.k - b.lo.k)
  {
    hide Flat3;
    match s {
      case X => StridesX(b.nx, b.ny, p.i - b.lo.i, p.j - b.lo.j, p.k - b.lo.k);
      case Y => StridesY(b.nx, b.ny, p.i - b.lo.i, p.j - b.lo.j, p.k - b.lo.k);
      case Z => StridesZ(b.nx, b.ny, p.i - b.lo.i, p.j - b.lo.j, p.k - b.lo.k);
    }
  }

  lemma StridesX(nx: nat, ny: nat, i: nat, j: nat, k: nat)
    ensures i + j * (nx + 1) + k * (nx * ny + ny) == Flat3(nx + 1, ny, i, j, k)
  {
    Strides(nx + 1, ny, j, k);
    assert (nx + 1) * ny == nx * ny + ny;
  }

  lemma StridesY(nx: nat, ny: nat, i: nat, j: nat, k: nat)
    ensures i + j * nx + k * (nx * ny + nx) == Flat3(nx, ny + 1, i, j, k)
  {
    Strides(nx, ny + 1, j, k);
    assert nx * (ny + 1) == nx * ny + nx;
  }

  lemma StridesZ(nx: nat, ny: nat, i: nat, j: nat, k: nat)
    ensures i + j * nx + k * (nx * ny) == Flat3(nx, ny, i, j, k)
  {
    Strides(nx, ny, j, k);
  }

  lemma Strides(a: nat, b: nat, j: int, k: int)
    ensures a * (j + b * k) == j * a + k * (a * b)
  {}

  /** The three index formulas are bijections from the faces of a box onto [0, number of faces). */
  lemma FaceIndexBijective(b: Box, s: Side, p: Point, n: nat)
    ensures b.HasFace(s, p) ==> 0 <= b.FaceIndex(s, p) < b.Faces(s) && b.FaceAt(s, b.FaceIndex(s, p)) == p
    ensures n < b.Faces(s) ==> b.HasFace(s, b.FaceAt(s, n)) && b.FaceIndex(s, b.FaceAt(s, n)) == n
  {
    hide Flat3, Box.FaceIndex, Volume, Low, High;
    if b.HasFace(s, p) {
      FaceIndexIsFlat(b, s, p);
      Flat3Inverse(b.FacesX(s), b.FacesY(s), b.FacesZ(s), p.i - b.lo.i, p.j - b.lo.j, p.k - b.lo.k);
    }
    if n < b.Faces(s) {
      Flat3Onto(b.FacesX(s), b.FacesY(s), b.FacesZ(s), n);
      FaceIndexIsFlat(b, s, b.FaceAt(s, n));
    }
  }

  lemma AllFaces(b: Box, s: Side)
    ensures forall p {:trigger b.FaceIndex(s, p)} :: b.HasFace(s, p) ==> 0 <= b.FaceIndex(s, p) < b.Faces(s) && b.FaceAt(s, b.FaceIndex(s, p)) == p
    ensures forall n: nat {:trigger b.FaceAt(s, n)} :: n < b.Faces(s) ==> b.HasFace(s, b.FaceAt(s, n)) && b.FaceIndex(s, b.FaceAt(s, n)) == n
  {
    hide Box.FaceIndex, Box.FaceAt, Box.HasFace, Box.Faces;
    forall p
      ensures b.HasFace(s, p) ==> 0 <= b.FaceIndex(s, p) < b.Faces(s) && b.FaceAt(s, b.FaceIndex(s, p)) == p
    {
      FaceIndexBijective(b, s, p, 0);
    }
    forall n: nat
      ensures n < b.Faces(s) ==> b.HasFace(s, b.FaceAt(s, n)) && b.FaceIndex(s, b.FaceAt(s, n)) == n
    {
      FaceIndexBijective(b, s, b.lo, n);
    }
  }

  // ----- the two cells beside a face -----

  function Back(s: Side, p: Point): Point {
    match s
    case X => p.(i := p.i - 1)
    case Y => p.(j := p.j - 1)
    case Z => p.(k := p.k - 1)
  }

  // The offset of the cell behind a face, as the source subtracts it.
  function BackStride(s: Side, b: Box): nat {
    match s
    case X => 1
    case Y => b.Jp()
    case Z => b.Kp()
  }

  lemma CellIndexInRange(b: Box, p: Point)
    requires b.Has(p)
    ensures 0 <= b.CellIndex(p) < b.Cells()
  {
    hide Flat3, Volume, Low, High;
    Flat3Inverse(b.nx, b.ny, b.nz, p.i - b.lo.i, p.j - b.lo.j, p.k - b.lo.k);
    CellIndexIsFlat(b, p);
  }

  lemma CellIndexIsFlat(b: Box, p: Point)
    requires b.Has(p)
    ensures b.CellIndex(p) == Flat3(b.nx, b.ny, p.i - b.lo.i, p.j - b.lo.j, p.k - b.lo.k)
  {
    Strides(b.nx, b.ny, p.j - b.lo.j, p.k - b.lo.k);
  }

  lemma BackIndex(b: Box, s: Side, p: Point)
    ensures b.CellIndex(Back(s, p)) == b.CellIndex(p) - BackStride(s, b)
  {
    hide Box.Kp, Box.Jp;
    OneLess(p.j - b.lo.j, b.Jp());
    OneLess(p.k - b.lo.k, b.Kp());
  }

  lemma OneLess(j: int, m: int)
    ensures (j - 1) * m == j * m - m
  {}

  // A box around patch with at least one ghost cell on every face of side s.
  ghost predicate Ghosted(s: Side, patch: Box, outer: Box) {
    forall p :: patch.HasFace(s, p) ==> outer.Has(p) && outer.Has(Back(s, p))
  }

  // ----- cells -----

  function CellAt(b: Box, n: nat): Point {
    Point(b.lo.i + Low(b.nx, n), b.lo.j + Low(b.ny, High(b.nx, n)), b.lo.k + High(b.ny, High(b.nx, n)))
  }

  /** The cell index formula is a bijection from the cells of a box onto [0, number of cells). */
  lemma CellIndexBijective(b: Box, p: Point, n: nat)
    ensures b.Has(p) ==> 0 <= b.CellIndex(p) < b.Cells() && CellAt(b, b.CellIndex(p)) == p
    ensures n < b.Cells() ==> b.Has(CellAt(b, n)) && b.CellIndex(CellAt(b, n)) == n
  {
    hide Flat3, Box.CellIndex, Volume, Low, High;
    if b.Has(p) {
      CellIndexIsFlat(b, p);
      Flat3Inverse(b.nx, b.ny, b.nz, p.i - b.lo.i, p.j - b.lo.j, p.k - b.lo.k);
    }
    if n < b.Cells() {
      Flat3Onto(b.nx, b.ny, b.nz, n);
      CellIndexIsFlat(b, CellAt(b, n));
    }
  }

  // ----- stepping through the faces (and, for side Z, the cells) in loop order -----

  lemma NextFace(b: Box, s: Side, p: Point)
    ensures b.FaceIndex(s, p.(i := p.i + 1)) == b.FaceIndex(s, p) + 1
  {}

  lemma FaceRowEnd(b: Box, s: Side, j: int, k: int)
    ensures b.FaceIndex(s, Point(b.lo.i + b.FacesX(s), j, k)) == b.FaceIndex(s, Point(b.lo.i, j + 1, k))
  {
    OneLess(j + 1 - b.lo.j, b.FacesX(s));
  }

  lemma FacePlaneEnd(b: Box, s: Side, k: int)
    ensures b.FaceIndex(s, Point(b.lo.i, b.lo.j + b.FacesY(s), k)) == b.FaceIndex(s, Point(b.lo.i, b.lo.j, k + 1))
  {
    var stride := match s case X => b.Kp() + b.ny case Y => b.Kp() + b.Jp() case Z => b.Kp();
    assert b.FacesY(s) * b.FacesX(s) == stride;
    OneLess(k + 1 - b.lo.k, stride);
  }

  // The loops over a face box visit its faces.
  lemma FaceInLoops(b: Box, s: Side, p: Point)
    requires b.lo.i <= p.i < b.lo.i + b.FacesX(s) && b.lo.j <= p.j < b.lo.j + b.FacesY(s) && b.lo.k <= p.k < b.lo.k + b.FacesZ(s)
    ensures b.HasFace(s, p)
  {}

  lemma FaceStartAndEnd(b: Box, s: Side)
    ensures b.FaceIndex(s, b.lo) == 0
    ensures b.FaceIndex(s, Point(b.lo.i, b.lo.j, b.lo.k + b.FacesZ(s))) == b.Faces(s)
  {
    Strides(b.FacesX(s), b.FacesY(s), 0, b.FacesZ(s));
  }

  lemma CellStep(b: Box, p: Point)
    ensures b.CellIndex(p.(i := p.i + 1)) == b.CellIndex(p) + 1
  {}

  lemma CellRowEnd(b: Box, j: int, k: int)
    ensures b.CellIndex(Point(b.lo.i + b.nx, j, k)) == b.CellIndex(Point(b.lo.i, j + 1, k))
  {
    OneLess(j + 1 - b.lo.j, b.nx);
  }

  lemma CellPlaneEnd(b: Box, k: int)
    ensures b.CellIndex(Point(b.lo.i, b.lo.j + b.ny, k)) == b.CellIndex(Point(b.lo.i, b.lo.j, k + 1))
  {
    OneLess(k + 1 - b.lo.k, b.Kp());
  }

  lemma CellStart(b: Box)
    ensures b.CellIndex(b.lo) == 0
  {}

  lemma CellEnd(b: Box)
    ensures b.CellIndex(Point(b.lo.i, b.lo.j, b.lo.k + b.nz)) == b.Cells()
  {
    Strides(b.nx, b.ny, 0, b.nz);
  }
}
