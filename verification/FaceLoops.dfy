/**
 The loops over cell faces that weight the phase diffusions
 (source/DiffusionForConcInPhaseStrategy.C) and add them up
 (source/EBSCompositionRHSStrategy.C).  A 2-D patch is a 3-D patch with nz == 1 and no Z sides.
 */
module FaceLoops {
  import opened RealSums
  import opened RealFacts
  import opened Boxes

  // How the solver interpolates a cell field to a face: interp(average(here, behind)).
  datatype Interpolation = Interpolation(average: (real, real) -> real, interp: real -> real) {
    function OnFace(field: seq<real>, b: Box, s: Side, p: Point): real {
      interp(average(At(field, b.CellIndex(p)), At(field, b.CellIndex(Back(s, p)))))
    }
  }

  // ----- weighting -----

  function PhaseL(h: real, e: real, d: real): real {
    (1.0 - h) * d
  }

  function PhaseA(h: real, e: real, d: real): real {
    h * (1.0 - e) * d
  }

  function PhaseB(h: real, e: real, d: real): real {
    h * e * d
  }

  // The faces i0 <= i < i1, j0 <= j < j1, k0 <= k < k1.
  datatype Region = Region(i0: int, i1: int, j0: int, j1: int, k0: int, k1: int) {
    predicate Has(p: Point) {
      i0 <= p.i < i1 && j0 <= p.j < j1 && k0 <= p.k < k1
    }
  }

  // The loops meet q before p: planes of constant k, in them rows of constant j.
  predicate Earlier(q: Point, p: Point) {
    q.k < p.k || (q.k == p.k && (q.j < p.j || (q.j == p.j && q.i < p.i)))
  }

  /** The positions in `done` are those of the faces of the patch that the loops meet before p. */
  ghost predicate DoneBefore(done: set<nat>, patch: Box, faces: Box, s: Side, p: Point) {
    forall m: nat :: m < faces.Faces(s) ==>
      (m in done <==> patch.HasFace(s, faces.FaceAt(s, m)) && Earlier(faces.FaceAt(s, m), p))
  }

  lemma FaceNotDone(done: set<nat>, patch: Box, faces: Box, s: Side, p: Point)
    requires DoneBefore(done, patch, faces, s, p) && patch.Within(faces) && patch.HasFace(s, p)
    ensures 0 <= faces.FaceIndex(s, p) < faces.Faces(s) && faces.FaceIndex(s, p) !in done
    ensures DoneBefore(done + {faces.FaceIndex(s, p)}, patch, faces, s, p.(i := p.i + 1))
  {
    hide Box.FaceIndex, Box.FaceAt, Box.Faces;
    AllFaces(faces, s);
    assert faces.HasFace(s, p);
  }

  lemma RowDone(done: set<nat>, patch: Box, faces: Box, s: Side, j: int, k: int)
    requires DoneBefore(done, patch, faces, s, Point(patch.lo.i + patch.FacesX(s), j, k))
    ensures DoneBefore(done, patch, faces, s, Point(patch.lo.i, j + 1, k))
  {
    hide Box.FaceAt, Box.Faces;
  }

  lemma PlaneDone(done: set<nat>, patch: Box, faces: Box, s: Side, k: int)
    requires DoneBefore(done, patch, faces, s, Point(patch.lo.i, patch.lo.j + patch.FacesY(s), k))
    ensures DoneBefore(done, patch, faces, s, Point(patch.lo.i, patch.lo.j, k + 1))
  {
    hide Box.FaceAt, Box.Faces;
  }

  lemma NoneDone(patch: Box, faces: Box, s: Side)
    ensures DoneBefore({}, patch, faces, s, patch.lo)
  {
    hide Box.FaceAt, Box.Faces;
  }

  lemma AllDone(done: set<nat>, patch: Box, faces: Box, s: Side)
    requires DoneBefore(done, patch, faces, s, Point(patch.lo.i, patch.lo.j, patch.lo.k + patch.FacesZ(s)))
    ensures PatchDone(done, patch, faces, s)
  {
    hide Box.FaceAt, Box.Faces;
  }

  /** The positions in `done` are those of all faces of the patch. */
  ghost predicate PatchDone(done: set<nat>, patch: Box, faces: Box, s: Side) {
    forall m: nat :: m < faces.Faces(s) ==> (m in done <==> patch.HasFace(s, faces.FaceAt(s, m)))
  }

  /** The loops over one side of a patch, with the data they read and write. */
  class SideWeighting {
    const s: Side
    const third: bool
    const q: Interpolation
    const patch: Box
    // The boxes of the face data and of the cell data.
    const faces: Box
    const cells: Box
    const phi: seq<real>
    const eta: seq<real>
    const pl: array2<real>
    const pa: array2<real>
    const pb: array2<real>
    const dl: array2<real>
    const da: array2<real>
    const db: array2<real>
    // The faces weighted so far.
    ghost var done: set<nat>

    constructor (s: Side, third: bool, q: Interpolation, patch: Box, faces: Box, cells: Box, phi: seq<real>, eta: seq<real>,
                 pl: array2<real>, pa: array2<real>, pb: array2<real>, dl: array2<real>, da: array2<real>, db: array2<real>)
      ensures this.s == s && this.third == third && this.q == q && this.patch == patch && this.faces == faces
      ensures this.cells == cells && this.phi == phi && this.eta == eta
      ensures this.pl == pl && this.pa == pa && this.pb == pb && this.dl == dl && this.da == da && this.db == db
    {
      this.s, this.third, this.q, this.patch, this.faces, this.cells := s, third, q, patch, faces, cells;
      this.phi, this.eta := phi, eta;
      this.pl, this.pa, this.pb, this.dl, this.da, this.db := pl, pa, pb, dl, da, db;
    }

    ghost predicate Valid() {
      && patch.Within(faces) && Ghosted(s, patch, cells)
      && |phi| == cells.Cells() && (third ==> |eta| == cells.Cells())
      && pl.Length0 == pa.Length0 == pb.Length0 == dl.Length0 == da.Length0 == db.Length0
      && pl.Length1 == pa.Length1 == pb.Length1 == dl.Length1 == da.Length1 == db.Length1 == faces.Faces(s)
      && pl != pa && pa != pb && pl != pb && {pl, pa, pb} !! {dl, da, db}
    }

    function H(p: Point): real {
      q.OnFace(phi, cells, s, p)
    }

    function E(p: Point): real {
      if third then q.OnFace(eta, cells, s, p) else 0.0
    }

    /** The faces of a region hold their weighted diffusions; all others hold what they held. */
    twostate predicate WeightedIn(r: Region)
      requires Valid()
      reads pl, pa, pb, dl, da, db
    {
      forall c, m :: 0 <= c < pl.Length0 && 0 <= m < pl.Length1 ==>
        var p := faces.FaceAt(s, m);
        && pl[c, m] == (if r.Has(p) then PhaseL(H(p), E(p), dl[c, m]) else old(pl[c, m]))
        && pa[c, m] == (if r.Has(p) then PhaseA(H(p), E(p), da[c, m]) else old(pa[c, m]))
        && pb[c, m] == (if r.Has(p) && third then PhaseB(H(p), E(p), db[c, m]) else old(pb[c, m]))
    }

    // All components of one face, which has not been weighted before.
    method WeightFace(n: nat, hphi: real, heta: real)
      requires Valid() && n < pl.Length1 && n !in done
      modifies pl, pa, pb, this`done
      ensures done == old(done) + {n}
      ensures forall c, m :: 0 <= c < pl.Length0 && 0 <= m < pl.Length1 ==>
        && pl[c, m] == (if m == n then PhaseL(hphi, heta, dl[c, m]) else old(pl[c, m]))
        && pa[c, m] == (if m == n then PhaseA(hphi, heta, da[c, m]) else old(pa[c, m]))
        && pb[c, m] == (if m == n && third then PhaseB(hphi, heta, db[c, m]) else old(pb[c, m]))
    {
      hide PhaseL, PhaseA, PhaseB, Box.Faces, Ghosted;
      for ic := 0 to pl.Length0
        invariant done == old(done)
        invariant forall c, m :: 0 <= c < pl.Length0 && 0 <= m < pl.Length1 ==>
          && pl[c, m] == (if m == n && c < ic then PhaseL(hphi, heta, dl[c, m]) else old(pl[c, m]))
          && pa[c, m] == (if m == n && c < ic then PhaseA(hphi, heta, da[c, m]) else old(pa[c, m]))
          && pb[c, m] == (if m == n && c < ic && third then PhaseB(hphi, heta, db[c, m]) else old(pb[c, m]))
      {
        pl[ic, n] := PhaseL(hphi, heta, dl[ic, n]);
        pa[ic, n] := PhaseA(hphi, heta, da[ic, n]);
        if third {
          pb[ic, n] := PhaseB(hphi, heta, db[ic, n]);
        }
      }
      done := done + {n};
    }

    // hphi and heta at one face, from the cell at idx and the one behind it.
    method FaceWeights(p: Point) returns (hphi: real, heta: real)
      requires Valid() && patch.HasFace(s, p)
      ensures hphi == H(p) && heta == E(p)
    {
      hide Box.CellIndex, Box.Cells, BackStride, Box.Faces;
      var idxPf := cells.CellIndex(p);
      var idxm1Pf := idxPf - BackStride(s, cells);
      BackIndex(cells, s, p);
      CellIndexInRange(cells, p);
      CellIndexInRange(cells, Back(s, p));
      hphi := q.interp(q.average(phi[idxPf], phi[idxm1Pf]));
      heta := 0.0;
      if third {
        heta := q.interp(q.average(eta[idxPf], eta[idxm1Pf]));
      }
    }

    /** The weights of a face come from phi and from eta in the cell p above it and in the cell behind it, in this order. */
    lemma WeightsMean(p: Point)
      requires Valid() && patch.HasFace(s, p)
      ensures 0 <= cells.CellIndex(p) < |phi| && 0 <= cells.CellIndex(Back(s, p)) < |phi|
      ensures cells.CellIndex(Back(s, p)) == cells.CellIndex(p) - (match s case X => 1 case Y => cells.nx case Z => cells.nx * cells.ny)
      ensures H(p) == q.interp(q.average(phi[cells.CellIndex(p)], phi[cells.CellIndex(Back(s, p))]))
      ensures E(p) == if third then q.interp(q.average(eta[cells.CellIndex(p)], eta[cells.CellIndex(Back(s, p))])) else 0.0
    {
      hide Box.CellIndex, Box.Cells, Box.Faces;
      BackIndex(cells, s, p);
      CellIndexInRange(cells, p);
      CellIndexInRange(cells, Back(s, p));
    }

    method WeightOne(p: Point)
      requires Valid() && patch.HasFace(s, p) && DoneBefore(done, patch, faces, s, p)
      modifies pl, pa, pb, this`done
      ensures WeightedIn(Region(p.i, p.i + 1, p.j, p.j + 1, p.k, p.k + 1)) && DoneBefore(done, patch, faces, s, p.(i := p.i + 1))
    {
      hide PhaseL, PhaseA, PhaseB, Box.FaceIndex, Box.FaceAt, Box.Faces, Box.Cells, H, E, Ghosted, DoneBefore;
      AllFaces(faces, s);
      FaceNotDone(done, patch, faces, s, p);
      assert faces.HasFace(s, p);
      var idx := faces.FaceIndex(s, p);
      var hphi, heta := FaceWeights(p);
      WeightFace(idx, hphi, heta);
    }

    method WeightRow(jj: int, kk: int)
      requires Valid() && patch.lo.j <= jj < patch.lo.j + patch.FacesY(s) && patch.lo.k <= kk < patch.lo.k + patch.FacesZ(s)
      requires DoneBefore(done, patch, faces, s, Point(patch.lo.i, jj, kk))
      modifies pl, pa, pb, this`done
      ensures WeightedIn(Region(patch.lo.i, patch.lo.i + patch.FacesX(s), jj, jj + 1, kk, kk + 1))
      ensures DoneBefore(done, patch, faces, s, Point(patch.lo.i, jj + 1, kk))
    {
      hide PhaseL, PhaseA, PhaseB, Box.FaceIndex, Box.FaceAt, Box.Faces, Box.Cells, H, E, Ghosted, DoneBefore;
      for ii := patch.lo.i to patch.lo.i + patch.FacesX(s)
        invariant WeightedIn(Region(patch.lo.i, ii, jj, jj + 1, kk, kk + 1)) && DoneBefore(done, patch, faces, s, Point(ii, jj, kk))
      {
        WeightOne(Point(ii, jj, kk));
      }
      RowDone(done, patch, faces, s, jj, kk);
    }

    method WeightPlane(kk: int)
      requires Valid() && patch.lo.k <= kk < patch.lo.k + patch.FacesZ(s)
      requires DoneBefore(done, patch, faces, s, Point(patch.lo.i, patch.lo.j, kk))
      modifies pl, pa, pb, this`done
      ensures WeightedIn(Region(patch.lo.i, patch.lo.i + patch.FacesX(s), patch.lo.j, patch.lo.j + patch.FacesY(s), kk, kk + 1))
      ensures DoneBefore(done, patch, faces, s, Point(patch.lo.i, patch.lo.j, kk + 1))
    {
      hide PhaseL, PhaseA, PhaseB, Box.FaceIndex, Box.FaceAt, Box.Faces, Box.Cells, H, E, Ghosted, DoneBefore;
      for jj := patch.lo.j to patch.lo.j + patch.FacesY(s)
        invariant WeightedIn(Region(patch.lo.i, patch.lo.i + patch.FacesX(s), patch.lo.j, jj, kk, kk + 1))
        invariant DoneBefore(done, patch, faces, s, Point(patch.lo.i, jj, kk))
      {
        WeightRow(jj, kk);
      }
      PlaneDone(done, patch, faces, s, kk);
    }

    function Whole(): Region {
      Region(patch.lo.i, patch.lo.i + patch.FacesX(s), patch.lo.j, patch.lo.j + patch.FacesY(s), patch.lo.k, patch.lo.k + patch.FacesZ(s))
    }

    /**
     Every face of the patch is weighted, and nothing else changes.  WeightFace demands that its face
     was not weighted before, so each is weighted once.
     */
    method WeightSide()
      requires Valid()
      modifies pl, pa, pb, this`done
      ensures WeightedIn(Whole()) && PatchDone(done, patch, faces, s)
    {
      hide PhaseL, PhaseA, PhaseB, Box.FaceIndex, Box.FaceAt, Box.Faces, Box.Cells, H, E, Ghosted, DoneBefore, PatchDone;
      done := {};
      NoneDone(patch, faces, s);
      for kk := patch.lo.k to patch.lo.k + patch.FacesZ(s)
        invariant WeightedIn(Region(patch.lo.i, patch.lo.i + patch.FacesX(s), patch.lo.j, patch.lo.j + patch.FacesY(s), patch.lo.k, kk))
        invariant DoneBefore(done, patch, faces, s, Point(patch.lo.i, patch.lo.j, kk))
      {
        WeightPlane(kk);
      }
      AllDone(done, patch, faces, s);
    }
  }

  // ----- the phase-weighted sum used by the preconditioner -----

  /** The loops over one side that add up component d of the weighted diffusions. */
  class SideBlend {
    const s: Side
    const third: bool
    const patch: Box
    const faces: Box
    const d: nat
    const coeff: array<real>
    const l: array2<real>
    const a: array2<real>
    const b: array2<real>
    // The faces summed so far.
    ghost var done: set<nat>

    constructor (s: Side, third: bool, patch: Box, faces: Box, d: nat, coeff: array<real>, l: array2<real>, a: array2<real>, b: array2<real>)
      ensures this.s == s && this.third == third && this.patch == patch && this.faces == faces && this.d == d
      ensures this.coeff == coeff && this.l == l && this.a == a && this.b == b
    {
      this.s, this.third, this.patch, this.faces, this.d := s, third, patch, faces, d;
      this.coeff, this.l, this.a, this.b := coeff, l, a, b;
    }

    ghost predicate Valid() {
      && patch.Within(faces) && d < l.Length0 && l.Length0 == a.Length0 == b.Length0
      && coeff.Length == l.Length1 == a.Length1 == b.Length1 == faces.Faces(s)
    }

    /** The faces of a region hold the sum over the phases; all others hold what they held. */
    twostate predicate SummedIn(r: Region)
      requires Valid()
      reads coeff, l, a, b
    {
      forall m :: 0 <= m < coeff.Length ==>
        coeff[m] == if r.Has(faces.FaceAt(s, m)) then l[d, m] + a[d, m] + (if third then b[d, m] else 0.0) else old(coeff[m])
    }

    function Whole(): Region {
      Region(patch.lo.i, patch.lo.i + patch.FacesX(s), patch.lo.j, patch.lo.j + patch.FacesY(s), patch.lo.k, patch.lo.k + patch.FacesZ(s))
    }

    // The sum at one face, which has not been summed before.
    method SumFace(idx: nat)
      requires Valid() && idx < coeff.Length && idx !in done
      modifies coeff, this`done
      ensures coeff[..] == old(coeff[..])[idx := l[d, idx] + a[d, idx] + (if third then b[d, idx] else 0.0)]
      ensures done == old(done) + {idx}
    {
      hide Box.Faces;
      coeff[idx] := l[d, idx] + a[d, idx];
      if third {
        coeff[idx] := coeff[idx] + b[d, idx];
      }
      done := done + {idx};
    }

    method SumRow(jj: int, kk: int)
      requires Valid() && patch.lo.j <= jj < patch.lo.j + patch.FacesY(s) && patch.lo.k <= kk < patch.lo.k + patch.FacesZ(s)
      requires DoneBefore(done, patch, faces, s, Point(patch.lo.i, jj, kk))
      modifies coeff, this`done
      ensures SummedIn(Region(patch.lo.i, patch.lo.i + patch.FacesX(s), jj, jj + 1, kk, kk + 1))
      ensures DoneBefore(done, patch, faces, s, Point(patch.lo.i, jj + 1, kk))
    {
      hide Box.FaceIndex, Box.FaceAt, Box.Faces, DoneBefore;
      AllFaces(faces, s);
      for ii := patch.lo.i to patch.lo.i + patch.FacesX(s)
        invariant SummedIn(Region(patch.lo.i, ii, jj, jj + 1, kk, kk + 1)) && DoneBefore(done, patch, faces, s, Point(ii, jj, kk))
      {
        var p := Point(ii, jj, kk);
        assert faces.HasFace(s, p) && patch.HasFace(s, p);
        FaceNotDone(done, patch, faces, s, p);
        ghost var was := coeff[..];
        SumFace(faces.FaceIndex(s, p));
        assert forall m :: 0 <= m < coeff.Length ==> was[m] == coeff[m] || m == faces.FaceIndex(s, p);
      }
      RowDone(done, patch, faces, s, jj, kk);
    }

    method SumPlane(kk: int)
      requires Valid() && patch.lo.k <= kk < patch.lo.k + patch.FacesZ(s)
      requires DoneBefore(done, patch, faces, s, Point(patch.lo.i, patch.lo.j, kk))
      modifies coeff, this`done
      ensures SummedIn(Region(patch.lo.i, patch.lo.i + patch.FacesX(s), patch.lo.j, patch.lo.j + patch.FacesY(s), kk, kk + 1))
      ensures DoneBefore(done, patch, faces, s, Point(patch.lo.i, patch.lo.j, kk + 1))
    {
      hide Box.FaceIndex, Box.FaceAt, Box.Faces, DoneBefore;
      for jj := patch.lo.j to patch.lo.j + patch.FacesY(s)
        invariant SummedIn(Region(patch.lo.i, patch.lo.i + patch.FacesX(s), patch.lo.j, jj, kk, kk + 1))
        invariant DoneBefore(done, patch, faces, s, Point(patch.lo.i, jj, kk))
      {
        SumRow(jj, kk);
      }
      PlaneDone(done, patch, faces, s, kk);
    }

    /** Every face of the patch is summed, once for the same reason as above, and nothing else changes. */
    method SumSide()
      requires Valid()
      modifies coeff, this`done
      ensures SummedIn(Whole()) && PatchDone(done, patch, faces, s)
    {
      hide Box.FaceIndex, Box.FaceAt, Box.Faces, DoneBefore, PatchDone;
      done := {};
      NoneDone(patch, faces, s);
      for kk := patch.lo.k to patch.lo.k + patch.FacesZ(s)
        invariant SummedIn(Region(patch.lo.i, patch.lo.i + patch.FacesX(s), patch.lo.j, patch.lo.j + patch.FacesY(s), patch.lo.k, kk))
        invariant DoneBefore(done, patch, faces, s, Point(patch.lo.i, patch.lo.j, kk))
      {
        SumPlane(kk);
      }
      AllDone(done, patch, faces, s);
    }
  }

  /** The coefficient of one face: the phase diffusions with weights 1 - h, h (1 - e) and h e. */
  function Blend(h: real, e: real, dl: real, da: real, db: real): real {
    (1.0 - h) * dl + h * (1.0 - e) * da + h * e * db
  }

  /** With weights in [0, 1] the coefficient lies between the smallest and the largest phase diffusion. */
  lemma BlendBetween(h: real, e: real, dl: real, da: real, db: real)
    requires 0.0 <= h <= 1.0 && 0.0 <= e <= 1.0
    ensures Min(dl, Min(da, db)) <= Blend(h, e, dl, da, db) <= Max(dl, Max(da, db))
    ensures e == 0.0 ==> Min(dl, da) <= Blend(h, e, dl, da, db) <= Max(dl, da)
  {
    var x := (1.0 - e) * da + e * db;
    Mean(e, da, db, x);
    Mean(h, dl, x, Blend(h, e, dl, da, db));
  }

  lemma Mean(h: real, x: real, y: real, z: real)
    requires 0.0 <= h <= 1.0 && z == (1.0 - h) * x + h * y
    ensures Min(x, y) <= z <= Max(x, y)
  {
    if x <= y {
      NonNegativeProduct(h, y - x);
      NonNegativeProduct(1.0 - h, y - x);
      assert z - x == h * (y - x) && y - z == (1.0 - h) * (y - x);
    } else {
      NonNegativeProduct(h, x - y);
      NonNegativeProduct(1.0 - h, x - y);
      assert x - z == h * (x - y) && z - y == (1.0 - h) * (x - y);
    }
  }

  /** The coefficient is the mean of dl and of the mean of da and db. */
  lemma BlendIsMean(h: real, e: real, dl: real, da: real, db: real)
    ensures Blend(h, e, dl, da, db) == dl + h * ((da - dl) + e * (db - da))
  {}

  lemma PhasesAddUp(h: real, e: real, dl: real, da: real, db: real)
    ensures PhaseL(h, e, dl) + PhaseA(h, e, da) + PhaseB(h, e, db) == Blend(h, e, dl, da, db)
    ensures PhaseL(h, 0.0, dl) + PhaseA(h, 0.0, da) == Blend(h, 0.0, dl, da, db)
  {}

  /** Weighting a side and then adding it up leaves the blended diffusion on each face of the patch. */
  method BlendSide(w: SideWeighting, v: SideBlend)
    requires w.Valid() && v.Valid() && v.s == w.s && v.third == w.third && v.patch == w.patch && v.faces == w.faces
    requires v.l == w.pl && v.a == w.pa && v.b == w.pb
    modifies w.pl, w.pa, w.pb, v.coeff, w`done, v`done
    ensures forall m :: 0 <= m < v.coeff.Length ==>
      var p := w.faces.FaceAt(w.s, m);
      v.coeff[m] == if w.patch.HasFace(w.s, p) then Blend(w.H(p), w.E(p), w.dl[v.d, m], w.da[v.d, m], w.db[v.d, m])
                    else old(v.coeff[m])
  {
    hide PhaseL, PhaseA, PhaseB, Blend, Box.FaceAt, Box.Faces, SideWeighting.H, Interpolation.OnFace;
    w.WeightSide();
    v.SumSide();
    forall m | 0 <= m < v.coeff.Length
      ensures var p := w.faces.FaceAt(w.s, m);
        v.coeff[m] == if w.patch.HasFace(w.s, p) then Blend(w.H(p), w.E(p), w.dl[v.d, m], w.da[v.d, m], w.db[v.d, m])
                      else old(v.coeff[m])
    {
      var p := w.faces.FaceAt(w.s, m);
      PhasesAddUp(w.H(p), w.E(p), w.dl[v.d, m], w.da[v.d, m], w.db[v.d, m]);
    }
  }
}
