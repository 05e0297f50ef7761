/**
 sqrtArray of source/CellPoissonHypreSolver.C: the square root of one array, stored in another one,
 over the intersection of three boxes in any number of dimensions.  The inner dimension is walked in
 blocks; an odometer over the other dimensions moves two positions from block to block.
 */
module SqrtArray {
  import opened RealSums
  import opened Indices

  // ----- mixed-radix numbers, the first digit running fastest -----

  function Prod(w: seq<nat>): nat {
    if |w| == 0 then 1 else w[0] * Prod(w[1..])
  }

  function Value(w: seq<nat>, x: seq<int>): int
    requires |w| == |x|
  {
    if |w| == 0 then 0 else x[0] + w[0] * Value(w[1..], x[1..])
  }

  predicate InRange(w: seq<nat>, x: seq<int>) {
    |x| == |w| && forall k :: 0 <= k < |w| ==> 0 <= x[k] < w[k]
  }

  function Digits(w: seq<nat>, p: nat): (x: seq<int>)
    ensures |x| == |w|
  {
    if |w| == 0 then [] else [Low(w[0], p)] + Digits(w[1..], High(w[0], p))
  }

  lemma {:induction false} ValueInRange(w: seq<nat>, x: seq<int>)
    requires InRange(w, x)
    ensures 0 <= Value(w, x) < Prod(w)
  {
    if |w| > 0 {
      ValueInRange(w[1..], x[1..]);
      DigitInRange(w[0], x[0], Value(w[1..], x[1..]), Prod(w[1..]));
    }
  }

  /** A number has exactly one digit sequence ... */
  lemma {:induction false} DigitsOfValue(w: seq<nat>, x: seq<int>)
    requires InRange(w, x)
    ensures 0 <= Value(w, x) && Digits(w, Value(w, x)) == x
  {
    ValueInRange(w, x);
    if |w| > 0 {
      ValueInRange(w[1..], x[1..]);
      DigitsOfValue(w[1..], x[1..]);
      FlatInverse(w[0], x[0], Value(w[1..], x[1..]));
    }
  }

  /** ... and every number below the product has one. */
  lemma {:induction false} ValueOfDigits(w: seq<nat>, p: nat)
    requires p < Prod(w)
    ensures InRange(w, Digits(w, p)) && Value(w, Digits(w, p)) == p
  {
    if |w| > 0 {
      FlatOnto(w[0], Prod(w[1..]), p);
      ValueOfDigits(w[1..], High(w[0], p));
      assert Digits(w, p)[1..] == Digits(w[1..], High(w[0], p));
    }
  }

  function Plus(a: seq<int>, b: seq<int>): (c: seq<int>)
    requires |a| == |b|
    ensures |c| == |a| && forall k :: 0 <= k < |a| ==> c[k] == a[k] + b[k]
  {
    seq(|a|, k requires 0 <= k < |a| => a[k] + b[k])
  }

  function Minus(a: seq<int>, b: seq<int>): (c: seq<int>)
    requires |a| == |b|
    ensures |c| == |a| && forall k :: 0 <= k < |a| ==> c[k] == a[k] - b[k]
  {
    seq(|a|, k requires 0 <= k < |a| => a[k] - b[k])
  }

  lemma {:induction false} ValueOfSum(w: seq<nat>, a: seq<int>, b: seq<int>)
    requires |w| == |a| == |b|
    ensures Value(w, Plus(a, b)) == Value(w, a) + Value(w, b)
  {
    if |w| > 0 {
      ValueOfSum(w[1..], a[1..], b[1..]);
      assert Plus(a, b)[1..] == Plus(a[1..], b[1..]);
      Distribute(w[0], Value(w[1..], a[1..]), Value(w[1..], b[1..]));
    }
  }

  lemma Distribute(n: int, x: int, y: int)
    ensures n * (x + y) == n * x + n * y
  {}

  // ----- carrying -----

  // y is x with digit j increased and the digits below it, all at their maximum, reset.
  ghost predicate Carries(w: seq<nat>, x: seq<int>, y: seq<int>, j: int) {
    && |w| == |x| == |y| && 0 <= j < |w|
    && (forall k :: 0 <= k < j ==> x[k] + 1 == w[k] && y[k] == 0)
    && y[j] == x[j] + 1
    && (forall k :: j < k < |w| ==> y[k] == x[k])
  }

  lemma {:induction false} CarryAddsOne(w: seq<nat>, x: seq<int>, y: seq<int>, j: int)
    requires Carries(w, x, y, j)
    ensures Value(w, y) == Value(w, x) + 1
  {
    if j == 0 {
      assert x[1..] == y[1..];
    } else {
      CarryAddsOne(w[1..], x[1..], y[1..], j - 1);
      Distribute(w[0], Value(w[1..], x[1..]), 1);
    }
  }

  ghost predicate AllMax(w: seq<nat>, x: seq<int>) {
    |w| == |x| && forall k :: 0 <= k < |w| ==> x[k] + 1 == w[k]
  }

  lemma {:induction false} MaxIsLast(w: seq<nat>, x: seq<int>)
    requires AllMax(w, x)
    ensures Value(w, x) == Prod(w) - 1
  {
    if |w| > 0 {
      MaxIsLast(w[1..], x[1..]);
      Distribute(w[0], Prod(w[1..]), -1);
    }
  }

  lemma {:induction false} ZeroIsFirst(w: seq<nat>, x: seq<int>)
    requires |w| == |x| && forall k :: 0 <= k < |w| ==> x[k] == 0
    ensures Value(w, x) == 0
  {
    if |w| > 0 {
      ZeroIsFirst(w[1..], x[1..]);
    }
  }

  // ----- strides -----

  function Stride(w: seq<nat>, j: nat): nat
    requires j <= |w|
  {
    if j == 0 then 1 else Stride(w, j - 1) * w[j - 1]
  }

  /** The position of x with the digits below m set to zero. */
  function Base(w: seq<nat>, x: seq<int>, m: nat): int
    requires m <= |w| == |x|
  {
    Stride(w, m) * Value(w[m..], x[m..])
  }

  lemma BaseStep(w: seq<nat>, x: seq<int>, m: nat)
    requires m < |w| == |x|
    ensures Base(w, x, m) == Stride(w, m) * x[m] + Base(w, x, m + 1)
  {
    var v := Value(w[m + 1..], x[m + 1..]);
    assert w[m..][1..] == w[m + 1..] && x[m..][1..] == x[m + 1..];
    assert Value(w[m..], x[m..]) == x[m] + w[m] * v;
    StrideStep(Stride(w, m), w[m], v, x[m]);
  }

  lemma StrideStep(s: int, w: int, v: int, x: int)
    ensures s * (x + w * v) == s * x + (s * w) * v
  {}

  lemma {:induction false} ZerosBelow(w: seq<nat>, x: seq<int>, m: nat, j: nat)
    requires m <= j <= |w| == |x| && forall k :: m <= k < j ==> x[k] == 0
    ensures Base(w, x, m) == Base(w, x, j)
    decreases j - m
  {
    if m < j {
      BaseStep(w, x, m);
      ZerosBelow(w, x, m + 1, j);
    }
  }

  // The same digits from m on.
  lemma SameBase(w: seq<nat>, x: seq<int>, y: seq<int>, m: nat)
    requires m <= |w| == |x| == |y| && forall k :: m <= k < |w| ==> x[k] == y[k]
    ensures Base(w, x, m) == Base(w, y, m)
  {
    assert x[m..] == y[m..];
  }

  /** After a carry into digit j every base below j moves to the old base of j plus one stride. */
  lemma BaseAfterCarry(w: seq<nat>, x: seq<int>, y: seq<int>, j: nat, m: nat)
    requires |w| == |x| == |y| && 1 <= j < |w| && m <= |w|
    requires forall k :: 1 <= k < j ==> y[k] == 0
    requires y[j] == x[j] + 1 && forall k :: j < k < |w| ==> y[k] == x[k]
    ensures 1 <= m <= j ==> Base(w, y, m) == Base(w, x, j) + Stride(w, j)
    ensures m > j ==> Base(w, y, m) == Base(w, x, m)
  {
    if m > j {
      SameBase(w, y, x, m);
    } else if m >= 1 {
      ZerosBelow(w, y, m, j);
      BaseStep(w, y, j);
      BaseStep(w, x, j);
      SameBase(w, y, x, j + 1);
      Distribute(Stride(w, j), x[j], 1);
    }
  }

  // ----- boxes in n dimensions -----

  // Lowest and highest cell, both inclusive.
  datatype NBox = NBox(lo: seq<int>, hi: seq<int>) {
    ghost predicate Valid(n: nat) {
      |lo| == |hi| == n
    }

    function NumberCells(k: nat): nat
      requires k < |lo| && k < |hi|
    {
      if hi[k] < lo[k] then 0 else hi[k] - lo[k] + 1
    }

    function Widths(): (w: seq<nat>)
      requires |lo| == |hi|
      ensures |w| == |lo| && forall k :: 0 <= k < |w| ==> w[k] == NumberCells(k)
    {
      seq(|lo|, k requires 0 <= k < |lo| => NumberCells(k))
    }

    predicate Empty()
      requires |lo| == |hi|
    {
      exists k :: 0 <= k < |lo| && hi[k] < lo[k]
    }

    predicate Has(c: seq<int>)
      requires |lo| == |hi| == |c|
    {
      forall k :: 0 <= k < |lo| ==> lo[k] <= c[k] <= hi[k]
    }

    function Size(): nat
      requires |lo| == |hi|
    {
      Prod(Widths())
    }

    // The position of a cell.
    function Offset(c: seq<int>): int
      requires |lo| == |hi| == |c|
    {
      Value(Widths(), Minus(c, lo))
    }

    // The cell at a position.
    function CellAt(p: nat): (c: seq<int>)
      requires |lo| == |hi|
      ensures |c| == |lo|
    {
      Plus(lo, Digits(Widths(), p))
    }
  }

  function Intersect(a: NBox, b: NBox): (c: NBox)
    requires |a.lo| == |a.hi| == |b.lo| == |b.hi|
    ensures |c.lo| == |c.hi| == |a.lo|
    ensures forall x: seq<int> :: |x| == |a.lo| ==> (c.Has(x) <==> a.Has(x) && b.Has(x))
  {
    NBox(seq(|a.lo|, k requires 0 <= k < |a.lo| => if a.lo[k] < b.lo[k] then b.lo[k] else a.lo[k]),
         seq(|a.lo|, k requires 0 <= k < |a.lo| => if a.hi[k] < b.hi[k] then a.hi[k] else b.hi[k]))
  }

  lemma OffsetInRange(b: NBox, c: seq<int>)
    requires |b.lo| == |b.hi| == |c| && b.Has(c)
    ensures InRange(b.Widths(), Minus(c, b.lo)) && 0 <= b.Offset(c) < b.Size() && b.CellAt(b.Offset(c)) == c
  {
    hide Value, Digits, Prod;
    var w, x := b.Widths(), Minus(c, b.lo);
    assert InRange(w, x);
    ValueInRange(w, x);
    DigitsOfValue(w, x);
    assert Plus(b.lo, x) == c;
  }

  lemma CellInBox(b: NBox, p: nat)
    requires |b.lo| == |b.hi| && p < b.Size()
    ensures b.Has(b.CellAt(p)) && b.Offset(b.CellAt(p)) == p
  {
    hide Value, Digits, Prod;
    ValueOfDigits(b.Widths(), p);
    assert Minus(b.CellAt(p), b.lo) == Digits(b.Widths(), p);
  }

  /** The boxes of the call: the requested one and those of the two arrays. */
  datatype Geometry = Geometry(n: nat, box: NBox, dst: NBox, src: NBox) {
    ghost predicate Valid() {
      n >= 1 && box.Valid(n) && dst.Valid(n) && src.Valid(n)
    }

    function Ibox(): (b: NBox)
      requires Valid()
      ensures |b.lo| == |b.hi| == n
      ensures forall x: seq<int> :: |x| == n ==> (b.Has(x) <==> box.Has(x) && dst.Has(x) && src.Has(x))
    {
      Intersect(Intersect(box, dst), src)
    }

    // The cell stored at position q of the destination.
    function Cell(q: nat): (c: seq<int>)
      requires Valid() && dst.Size() > 0
      ensures |c| == n
    {
      dst.CellAt(Low(dst.Size(), q))
    }

    // Its position in the source, at the same depth.
    function SourceAt(q: nat): int
      requires Valid() && dst.Size() > 0
    {
      High(dst.Size(), q) * src.Size() + src.Offset(Cell(q))
    }

    // The block of the walk it lies in.
    function BlockOf(q: nat): int
      requires Valid() && dst.Size() > 0
    {
      Value(Ibox().Widths()[1..], Minus(Cell(q), Ibox().lo)[1..])
    }

    predicate Selected(q: nat)
      requires Valid() && dst.Size() > 0
    {
      Ibox().Has(Cell(q))
    }
  }

  lemma IboxFits(g: Geometry)
    requires g.Valid() && !g.Ibox().Empty()
    ensures g.Ibox().Has(g.Ibox().lo) && g.dst.Has(g.Ibox().lo) && g.src.Has(g.Ibox().lo)
    ensures 0 <= g.dst.Offset(g.Ibox().lo) < g.dst.Size() && 0 <= g.src.Offset(g.Ibox().lo) < g.src.Size()
  {
    assert g.Ibox().Has(g.Ibox().lo);
    OffsetInRange(g.dst, g.Ibox().lo);
    OffsetInRange(g.src, g.Ibox().lo);
  }

  // ----- the cells of one block -----

  // Digits of the odometer are in range; digit 0 is not used.
  ghost predicate OdometerOk(g: Geometry, x: seq<int>)
    requires g.Valid()
  {
    |x| == g.n && InRange(g.Ibox().Widths()[1..], x[1..])
  }

  // The position of the lowest cell of the intersection at depth d of an array over box b.
  ghost function Start(g: Geometry, b: NBox, d: nat): int
    requires g.Valid() && b.Valid(g.n)
  {
    b.Size() * d + b.Offset(g.Ibox().lo)
  }

  // The first position of the block x.
  ghost function BlockStart(g: Geometry, b: NBox, d: nat, x: seq<int>): int
    requires g.Valid() && b.Valid(g.n) && |x| == g.n
  {
    Start(g, b, d) + Base(b.Widths(), x, 1)
  }

  lemma CellPosition(g: Geometry, b: NBox, x: seq<int>, i: int)
    requires g.Valid() && b.Valid(g.n) && |x| == g.n
    ensures b.Offset(Plus(g.Ibox().lo, x[0 := i])) == b.Offset(g.Ibox().lo) + i + Base(b.Widths(), x, 1)
  {
    hide Geometry.Ibox, NBox.Widths, Base, Value, Plus, Minus;
    var lo, y, w := g.Ibox().lo, x[0 := i], b.Widths();
    PlusMinus(lo, y, b.lo);
    ValueOfSum(w, Minus(lo, b.lo), y);
    ValueOfBlock(w, x, i);
  }

  lemma PlusMinus(a: seq<int>, b: seq<int>, c: seq<int>)
    requires |a| == |b| == |c|
    ensures Minus(Plus(a, b), c) == Plus(Minus(a, c), b)
  {}

  lemma ValueOfBlock(w: seq<nat>, x: seq<int>, i: int)
    requires |w| == |x| > 0
    ensures Value(w, x[0 := i]) == i + Base(w, x, 1)
  {
    assert x[0 := i][1..] == x[1..];
    assert Stride(w, 1) == Stride(w, 0) * w[0];
  }

  lemma CellOfBlock(g: Geometry, x: seq<int>, i: int)
    requires g.Valid() && OdometerOk(g, x) && 0 <= i < g.Ibox().Widths()[0]
    ensures g.Ibox().Has(Plus(g.Ibox().lo, x[0 := i]))
  {
    hide NBox.Widths, NBox.Has, Geometry.Ibox, InRange;
    FirstDigit(g.Ibox().Widths(), x, i);
    DigitsInBox(g.Ibox(), x[0 := i]);
  }

  lemma FirstDigit(w: seq<nat>, x: seq<int>, i: int)
    requires |w| == |x| > 0 && InRange(w[1..], x[1..]) && 0 <= i < w[0]
    ensures InRange(w, x[0 := i])
  {
    forall k | 0 < k < |w|
      ensures 0 <= x[k] < w[k]
    {
      assert x[k] == x[1..][k - 1] && w[k] == w[1..][k - 1];
    }
  }

  lemma DigitsInBox(b: NBox, y: seq<int>)
    requires |b.lo| == |b.hi| == |y| && InRange(b.Widths(), y)
    ensures b.Has(Plus(b.lo, y))
  {}

  /** Each position of a block belongs to one cell of the intersection, and the source position to the same cell. */
  lemma BlockIsCells(g: Geometry, d: nat, x: seq<int>, q: nat)
    requires g.Valid() && !g.Ibox().Empty() && g.dst.Size() > 0 && OdometerOk(g, x)
    requires var dc := BlockStart(g, g.dst, d, x); dc <= q < dc + g.Ibox().Widths()[0]
    ensures High(g.dst.Size(), q) == d && g.Selected(q)
    ensures g.BlockOf(q) == Value(g.Ibox().Widths()[1..], x[1..])
    ensures g.SourceAt(q) == BlockStart(g, g.src, d, x) + (q - BlockStart(g, g.dst, d, x))
    ensures 0 <= g.src.Offset(g.Cell(q)) < g.src.Size()
  {
    hide NBox.Offset, NBox.Size, Base, NBox.CellAt, NBox.Widths, NBox.Has, Geometry.Ibox, Prod;
    var i := q - BlockStart(g, g.dst, d, x);
    var c := Plus(g.Ibox().lo, x[0 := i]);
    CellOfBlock(g, x, i);
    CellPosition(g, g.dst, x, i);
    CellPosition(g, g.src, x, i);
    OffsetInRange(g.dst, c);
    OffsetInRange(g.src, c);
    FlatIs(g.dst.Size(), g.dst.Offset(c), d);
    FlatInverse(g.dst.Size(), g.dst.Offset(c), d);
    assert g.Cell(q) == c;
    assert Minus(c, g.Ibox().lo)[1..] == x[1..];
  }

  /** ... and each cell of the intersection lies in the block its digits name. */
  lemma CellsAreInBlock(g: Geometry, d: nat, x: seq<int>, q: nat)
    requires g.Valid() && !g.Ibox().Empty() && g.dst.Size() > 0 && OdometerOk(g, x)
    requires High(g.dst.Size(), q) == d && g.Selected(q) && g.BlockOf(q) == Value(g.Ibox().Widths()[1..], x[1..])
    ensures var dc := BlockStart(g, g.dst, d, x); dc <= q < dc + g.Ibox().Widths()[0]
  {
    hide NBox.Offset, NBox.Size, Base, NBox.CellAt, NBox.Has, Geometry.Ibox, Geometry.Cell, Geometry.BlockOf, Geometry.Selected;
    hide Prod, NBox.Widths, Value, InRange, Low, High;
    var y := CellDigits(g, x, q);
    CellPosition(g, g.dst, x, y);
    TargetPosition(g, q);
  }

  // The digits of a cell of the block: those of x after the first.
  lemma CellDigits(g: Geometry, x: seq<int>, q: nat) returns (i: int)
    requires g.Valid() && g.dst.Size() > 0 && OdometerOk(g, x) && g.Selected(q)
    requires g.BlockOf(q) == Value(g.Ibox().Widths()[1..], x[1..])
    ensures 0 <= i < g.Ibox().Widths()[0] && g.Cell(q) == Plus(g.Ibox().lo, x[0 := i])
  {
    hide NBox.Offset, NBox.Size, NBox.CellAt, NBox.Has, Geometry.Ibox, Geometry.Cell, Prod, NBox.Widths, Value, InRange, Low, High;
    var c := g.Cell(q);
    var y := Minus(c, g.Ibox().lo);
    OffsetInRange(g.Ibox(), c);
    SameDigits(g.Ibox().Widths(), y, x);
    i := y[0];
    assert c == Plus(g.Ibox().lo, y);
  }

  lemma SameDigits(w: seq<nat>, y: seq<int>, x: seq<int>)
    requires |w| == |x| > 0 && InRange(w, y) && InRange(w[1..], x[1..])
    requires Value(w[1..], y[1..]) == Value(w[1..], x[1..])
    ensures y == x[0 := y[0]] && 0 <= y[0] < w[0]
  {
    hide Value;
    TailInRange(w, y);
    DigitsOfValue(w[1..], y[1..]);
    DigitsOfValue(w[1..], x[1..]);
    SameTail(y, x);
  }

  lemma TailInRange(w: seq<nat>, y: seq<int>)
    requires |w| > 0 && InRange(w, y)
    ensures InRange(w[1..], y[1..]) && 0 <= y[0] < w[0]
  {}

  lemma SameTail(y: seq<int>, x: seq<int>)
    requires |x| == |y| > 0 && y[1..] == x[1..]
    ensures y == x[0 := y[0]]
  {
    forall k | 0 < k < |x|
      ensures y[k] == x[k]
    {
      assert y[k] == y[1..][k - 1] == x[1..][k - 1] == x[k];
    }
  }

  lemma LowInRange(n: nat, q: nat)
    requires n > 0
    ensures Low(n, q) < n && q == Low(n, q) + n * High(n, q)
  {}

  // ----- the odometer and the block positions -----

  function Zeros(n: nat): (x: seq<int>)
    ensures |x| == n && forall k :: 0 <= k < n ==> x[k] == 0
  {
    seq(n, k => 0)
  }

  // y follows x: digits below j were at their maximum and restart, digit j grows.
  ghost predicate Follows(w: seq<nat>, x: seq<int>, y: seq<int>, j: int) {
    && |w| == |x| == |y| && 1 <= j < |w|
    && (forall k :: 1 <= k < j ==> x[k] + 1 == w[k] && y[k] == 0)
    && y[j] == x[j] + 1 < w[j] && (forall k :: j < k < |w| ==> y[k] == x[k]) && y[0] == x[0]
  }

  // x was the last one; the odometer is back at zero.
  ghost predicate Wraps(w: seq<nat>, x: seq<int>, y: seq<int>) {
    |w| == |x| == |y| && (forall k :: 1 <= k < |w| ==> x[k] + 1 == w[k] && y[k] == 0) && |w| > 0 && y[0] == x[0]
  }

  /** Adds one to the odometer; the jump is the digit that grew, or 0 after a complete turn. */
  method Advance(w: seq<nat>, x: seq<int>) returns (y: seq<int>, dimJump: nat)
    requires |w| == |x| > 0 && InRange(w[1..], x[1..])
    ensures if dimJump > 0 then Follows(w, x, y, dimJump) else Wraps(w, x, y)
  {
    y := x;
    dimJump := 0;
    assert forall k :: 1 <= k < |w| ==> x[k] == x[1..][k - 1] && w[k] == w[1..][k - 1];
    for j := 1 to |w|
      invariant dimJump == 0 && |y| == |x| && y[0] == x[0]
      invariant forall k :: 1 <= k < j ==> x[k] + 1 == w[k] && y[k] == 0
      invariant forall k :: j <= k < |w| ==> y[k] == x[k]
    {
      if y[j] < w[j] - 1 {
        y := y[j := y[j] + 1];
        dimJump := j;
        break;
      } else {
        y := y[j := 0];
      }
    }
  }

  lemma FollowerIsNext(w: seq<nat>, x: seq<int>, y: seq<int>, j: nat)
    requires Follows(w, x, y, j) && InRange(w[1..], x[1..])
    ensures InRange(w[1..], y[1..]) && Value(w[1..], y[1..]) == Value(w[1..], x[1..]) + 1
  {
    forall k | 0 <= k < |w| - 1
      ensures 0 <= y[1..][k] < w[1..][k]
    {
      assert y[1..][k] == y[k + 1] && w[1..][k] == w[k + 1] && x[1..][k] == x[k + 1];
    }
    CarryAddsOne(w[1..], x[1..], y[1..], j - 1);
  }

  lemma WrapIsLast(w: seq<nat>, x: seq<int>, y: seq<int>)
    requires Wraps(w, x, y)
    ensures Value(w[1..], x[1..]) == Prod(w[1..]) - 1
  {
    MaxIsLast(w[1..], x[1..]);
  }

  /** The running position of an array and the remembered position of each dimension. */
  ghost predicate AtBlock(w: seq<nat>, start: int, x: seq<int>, counter: int, b: seq<int>) {
    && |w| == |x| == |b| > 0 && counter == start + Base(w, x, 1)
    && forall m: nat :: m < |w| ==> b[m] == start + Base(w, x, m + 1)
  }

  lemma AtFirstBlock(w: seq<nat>, start: int)
    requires |w| > 0
    ensures AtBlock(w, start, Zeros(|w|), start, seq(|w|, k => start))
  {
    forall m: nat | m <= |w|
      ensures Base(w, Zeros(|w|), m) == 0
    {
      ZeroIsFirst(w[m..], Zeros(|w|)[m..]);
    }
  }

  /** The code after a jump: one stride beyond the remembered position of the dimension below. */
  method Rebase(w: seq<nat>, ghost start: int, ghost x: seq<int>, ghost y: seq<int>, ghost was: int, b: seq<int>, dimJump: nat)
    returns (counter: int, b': seq<int>)
    requires |w| == |x| == |y| && 1 <= dimJump < |w| && AtBlock(w, start, x, was, b)
    requires forall k :: 1 <= k < dimJump ==> y[k] == 0
    requires y[dimJump] == x[dimJump] + 1 && forall k :: dimJump < k < |w| ==> y[k] == x[k]
    ensures AtBlock(w, start, y, counter, b')
  {
    hide Base;
    var step := 1;
    for k := 0 to dimJump
      invariant step == Stride(w, k)
    {
      step := step * w[k];
    }
    counter := b[dimJump - 1] + step;
    b' := b;
    for m := 0 to dimJump
      invariant |b'| == |b|
      invariant forall k :: 0 <= k < |b| ==> b'[k] == if k < m then counter else b[k]
    {
      b' := b'[m := counter];
    }
    forall m: nat | m < |w|
      ensures b'[m] == start + Base(w, y, m + 1)
    {
      BaseAfterCarry(w, x, y, dimJump, m + 1);
    }
    BaseAfterCarry(w, x, y, dimJump, 1);
  }

  // ----- the loops -----

  /** One contiguous block. */
  method CopyBlock(sqrt: real -> real, dd: array<real>, sd: seq<real>, dc: nat, sc: nat, len: nat)
    requires dc + len <= dd.Length && sc + len <= |sd|
    modifies dd
    ensures forall q :: 0 <= q < dd.Length ==> dd[q] == if dc <= q < dc + len then sqrt(sd[sc + (q - dc)]) else old(dd[q])
  {
    for i0 := 0 to len
      invariant forall q :: 0 <= q < dd.Length ==> dd[q] == if dc <= q < dc + i0 then sqrt(sd[sc + (q - dc)]) else old(dd[q])
    {
      dd[dc + i0] := sqrt(sd[sc + i0]);
    }
  }

  // Position q is at depth d and belongs to one of the first nb blocks.
  predicate InBlocks(g: Geometry, q: nat, d: nat, nb: nat)
    requires g.Valid() && g.dst.Size() > 0
  {
    g.Selected(q) && High(g.dst.Size(), q) == d && g.BlockOf(q) < nb
  }

  lemma BlockStep(g: Geometry, d: nat, x: seq<int>, nb: nat, q: nat)
    requires g.Valid() && !g.Ibox().Empty() && g.dst.Size() > 0 && OdometerOk(g, x)
    requires Value(g.Ibox().Widths()[1..], x[1..]) == nb
    ensures var dc := BlockStart(g, g.dst, d, x);
      && (InBlocks(g, q, d, nb + 1) <==> InBlocks(g, q, d, nb) || dc <= q < dc + g.Ibox().Widths()[0])
      && (dc <= q < dc + g.Ibox().Widths()[0] ==> g.SourceAt(q) == BlockStart(g, g.src, d, x) + (q - dc))
  {
    hide Geometry.Ibox, Geometry.Selected, Geometry.BlockOf, Geometry.SourceAt, BlockStart, Value, NBox.Widths, NBox.Size;
    var dc := BlockStart(g, g.dst, d, x);
    if dc <= q < dc + g.Ibox().Widths()[0] {
      BlockIsCells(g, d, x, q);
    } else if High(g.dst.Size(), q) == d && g.Selected(q) && g.BlockOf(q) == nb {
      CellsAreInBlock(g, d, x, q);
      assert false;
    }
  }

  lemma BlocksAreDepth(g: Geometry, d: nat, q: nat)
    requires g.Valid() && g.dst.Size() > 0
    ensures InBlocks(g, q, d, Prod(g.Ibox().Widths()[1..])) <==> g.Selected(q) && High(g.dst.Size(), q) == d
    ensures !InBlocks(g, q, d, 0)
  {
    hide Geometry.Ibox, NBox.Size;
    if g.Selected(q) {
      OffsetInRange(g.Ibox(), g.Cell(q));
      TailInRange(g.Ibox().Widths(), Minus(g.Cell(q), g.Ibox().lo));
      ValueInRange(g.Ibox().Widths()[1..], Minus(g.Cell(q), g.Ibox().lo)[1..]);
    }
  }

  lemma BlockBounds(g: Geometry, b: NBox, d: nat, x: seq<int>)
    requires g.Valid() && !g.Ibox().Empty() && OdometerOk(g, x) && (b == g.dst || b == g.src)
    ensures 0 <= BlockStart(g, b, d, x) && BlockStart(g, b, d, x) + g.Ibox().Widths()[0] <= b.Size() * d + b.Size()
    ensures g.Ibox().Widths()[0] > 0
  {
    hide NBox.Offset, NBox.Size, Base, NBox.CellAt, Prod, Value, InRange, Geometry.Ibox, NBox.Widths, OdometerOk;
    NumBlocks(g);
    var len := g.Ibox().Widths()[0];
    FirstCell(g, b, x, 0);
    FirstCell(g, b, x, len - 1);
    SizeTimes(b.Size(), d);
  }

  lemma SizeTimes(size: nat, d: nat)
    ensures size * d >= 0
  {}

  lemma FirstCell(g: Geometry, b: NBox, x: seq<int>, i: int)
    requires g.Valid() && OdometerOk(g, x) && (b == g.dst || b == g.src) && 0 <= i < g.Ibox().Widths()[0]
    ensures 0 <= b.Offset(g.Ibox().lo) + i + Base(b.Widths(), x, 1) < b.Size()
  {
    hide NBox.Offset, NBox.Size, Base, NBox.CellAt, Prod, Value, InRange, Geometry.Ibox;
    CellOfBlock(g, x, i);
    CellPosition(g, b, x, i);
    OffsetInRange(b, Plus(g.Ibox().lo, x[0 := i]));
  }

  // What a selected position must hold.
  function Root(sqrt: real -> real, g: Geometry, sd: seq<real>, q: nat): real
    requires g.Valid() && g.dst.Size() > 0
  {
    sqrt(At(sd, g.SourceAt(q)))
  }

  // The number of blocks: the cells of the intersection over those of its first row.
  lemma NumBlocks(g: Geometry)
    requires g.Valid() && !g.Ibox().Empty()
    ensures g.Ibox().Widths()[0] > 0 && g.Ibox().Size() / g.Ibox().Widths()[0] == Prod(g.Ibox().Widths()[1..])
  {
    hide Geometry.Ibox;
    var w := g.Ibox().Widths();
    assert w[0] > 0;
    FlatInverse(w[0], 0, Prod(w[1..]));
  }

  /** One block, at the positions the walk has reached. */
  method SqrtBlock(sqrt: real -> real, g: Geometry, dd: array<real>, sd: seq<real>, ghost d: nat, ghost x: seq<int>, dc: int, sc: int)
    requires g.Valid() && !g.Ibox().Empty() && g.dst.Size() > 0 && OdometerOk(g, x)
    requires g.dst.Size() * d + g.dst.Size() <= dd.Length && g.src.Size() * d + g.src.Size() <= |sd|
    requires dc == BlockStart(g, g.dst, d, x) && sc == BlockStart(g, g.src, d, x)
    modifies dd
    ensures forall q: nat :: q < dd.Length ==>
      dd[q] == if dc <= q < dc + g.Ibox().Widths()[0] then Root(sqrt, g, sd, q) else old(dd[q])
  {
    hide BlockStart, Geometry.Ibox, Geometry.SourceAt, NBox.Size, NBox.Widths;
    var len := g.Ibox().Widths()[0];
    BlockBounds(g, g.dst, d, x);
    BlockBounds(g, g.src, d, x);
    CopyBlock(sqrt, dd, sd, dc, sc, len);
    forall q: nat | dc <= q < dc + len
      ensures g.SourceAt(q) == sc + (q - dc)
    {
      BlockIsCells(g, d, x, q);
    }
  }

  // The odometer x, the two positions and the remembered positions all describe block nb of depth d.
  ghost predicate AtBlockOf(g: Geometry, d: nat, nb: nat, x: seq<int>, dc: int, db: seq<int>, sc: int, sb: seq<int>)
    requires g.Valid()
  {
    && OdometerOk(g, x) && Value(g.Ibox().Widths()[1..], x[1..]) == nb
    && AtBlock(g.dst.Widths(), Start(g, g.dst, d), x, dc, db)
    && AtBlock(g.src.Widths(), Start(g, g.src, d), x, sc, sb)
  }

  lemma FirstBlock(g: Geometry, d: nat, dc: int, sc: int)
    requires g.Valid() && !g.Ibox().Empty()
    requires dc == Start(g, g.dst, d) && sc == Start(g, g.src, d)
    ensures AtBlockOf(g, d, 0, Zeros(g.n), dc, seq(g.n, k => dc), sc, seq(g.n, k => sc))
  {
    hide NBox.Size, NBox.Offset, AtBlock, Start, Value, Geometry.Ibox, NBox.Widths, NBox.Empty;
    OdometerStarts(g);
    AtFirstBlock(g.dst.Widths(), dc);
    AtFirstBlock(g.src.Widths(), sc);
  }

  lemma OdometerStarts(g: Geometry)
    requires g.Valid() && !g.Ibox().Empty()
    ensures OdometerOk(g, Zeros(g.n)) && Value(g.Ibox().Widths()[1..], Zeros(g.n)[1..]) == 0
  {
    hide Geometry.Ibox, Value;
    ZeroIsFirst(g.Ibox().Widths()[1..], Zeros(g.n)[1..]);
  }

  /** From one block to the next; after the last one the odometer is back at zero. */
  method NextBlock(g: Geometry, ghost d: nat, ghost nb: nat, x: seq<int>, dc: int, db: seq<int>, sc: int, sb: seq<int>)
    returns (x': seq<int>, dc': int, db': seq<int>, sc': int, sb': seq<int>)
    requires g.Valid() && AtBlockOf(g, d, nb, x, dc, db, sc, sb) && x[0] == 0
    ensures |x'| == g.n
    ensures if nb + 1 < Prod(g.Ibox().Widths()[1..]) then AtBlockOf(g, d, nb + 1, x', dc', db', sc', sb') && x'[0] == 0
            else nb + 1 == Prod(g.Ibox().Widths()[1..]) && x' == Zeros(g.n)
  {
    hide NBox.Size, NBox.Offset, AtBlock, Geometry.Ibox, NBox.Widths, Prod, Value, Base, Start, InRange;
    var w := g.Ibox().Widths();
    var dimJump: nat;
    x', dimJump := Advance(w, x);
    dc', db', sc', sb' := dc, db, sc, sb;
    if dimJump > 0 {
      FollowerIsNext(w, x, x', dimJump);
      ValueInRange(w[1..], x'[1..]);
      dc', db' := Rebase(g.dst.Widths(), Start(g, g.dst, d), x, x', dc, db, dimJump);
      sc', sb' := Rebase(g.src.Widths(), Start(g, g.src, d), x, x', sc, sb, dimJump);
    } else {
      WrapIsLast(w, x, x');
    }
  }

  /** All blocks of one depth.  The odometer starts and ends at zero. */
  method SqrtDepth(sqrt: real -> real, g: Geometry, dd: array<real>, sd: seq<real>, ghost d: nat, dstBegin: int, srcBegin: int,
                   dimCounter: seq<int>) returns (dimCounter': seq<int>)
    requires g.Valid() && !g.Ibox().Empty() && g.dst.Size() > 0 && dimCounter == Zeros(g.n)
    requires g.dst.Size() * d + g.dst.Size() <= dd.Length && g.src.Size() * d + g.src.Size() <= |sd|
    requires dstBegin == Start(g, g.dst, d) && srcBegin == Start(g, g.src, d)
    modifies dd
    ensures dimCounter' == Zeros(g.n)
    ensures forall q: nat :: q < dd.Length ==>
      dd[q] == if g.Selected(q) && High(g.dst.Size(), q) == d then Root(sqrt, g, sd, q) else old(dd[q])
  {
    hide NBox.Size, NBox.Offset, AtBlock, AtBlockOf, Geometry.Ibox, NBox.Widths, Prod, Value, Base, Root, InBlocks, NBox.Empty, NBox.Has, BlockStart, Start;
    NumBlocks(g);
    var numBlocks := g.Ibox().Size() / g.Ibox().Widths()[0];
    dimCounter' := dimCounter;
    var dc, sc := dstBegin, srcBegin;
    var db, sb := seq(g.n, k => dc), seq(g.n, k => sc);
    FirstBlock(g, d, dc, sc);
    forall q: nat
      ensures !InBlocks(g, q, d, 0)
    {
      BlocksAreDepth(g, d, q);
    }
    for nb := 0 to numBlocks
      invariant nb < numBlocks ==> AtBlockOf(g, d, nb, dimCounter', dc, db, sc, sb) && |dimCounter'| == g.n && dimCounter'[0] == 0
      invariant nb == numBlocks ==> dimCounter' == Zeros(g.n)
      invariant forall q: nat :: q < dd.Length ==> dd[q] == if InBlocks(g, q, d, nb) then Root(sqrt, g, sd, q) else old(dd[q])
    {
      BlockHere(g, d, nb, dimCounter', dc, db, sc, sb);
      SqrtBlock(sqrt, g, dd, sd, d, dimCounter', dc, sc);
      forall q: nat
        ensures InBlocks(g, q, d, nb + 1) <==> InBlocks(g, q, d, nb) || dc <= q < dc + g.Ibox().Widths()[0]
      {
        BlockStep(g, d, dimCounter', nb, q);
      }
      dimCounter', dc, db, sc, sb := NextBlock(g, d, nb, dimCounter', dc, db, sc, sb);
    }
    forall q: nat
      ensures InBlocks(g, q, d, numBlocks) <==> g.Selected(q) && High(g.dst.Size(), q) == d
    {
      BlocksAreDepth(g, d, q);
    }
  }

  lemma BlockHere(g: Geometry, d: nat, nb: nat, x: seq<int>, dc: int, db: seq<int>, sc: int, sb: seq<int>)
    requires g.Valid() && AtBlockOf(g, d, nb, x, dc, db, sc, sb)
    ensures OdometerOk(g, x) && Value(g.Ibox().Widths()[1..], x[1..]) == nb
    ensures dc == BlockStart(g, g.dst, d, x) && sc == BlockStart(g, g.src, d, x)
  {}

  /**
   Every cell of the intersection gets, at every depth, the square root of its own source value; every
   other cell keeps its value.
   */
  method SqrtArray(sqrt: real -> real, g: Geometry, depth: nat, dd: array<real>, sd: seq<real>)
    requires g.Valid() && dd.Length == g.dst.Size() * depth && |sd| == g.src.Size() * depth
    modifies dd
    ensures g.Ibox().Empty() ==> dd[..] == old(dd[..])
    ensures !g.Ibox().Empty() ==> g.dst.Size() > 0 && forall q: nat :: q < dd.Length ==>
      dd[q] == if g.Selected(q) then Root(sqrt, g, sd, q) else old(dd[q])
  {
    hide NBox.Size, NBox.Offset, Geometry.Ibox, NBox.Widths, NBox.Empty, NBox.Has, Root, Geometry.Selected;
    var ibox := g.Ibox();
    if !ibox.Empty() {
      IboxFits(g);
      var dimCounter := Zeros(g.n);
      var dstBegin := g.dst.Offset(ibox.lo);
      var srcBegin := g.src.Offset(ibox.lo);
      for d := 0 to depth
        invariant dimCounter == Zeros(g.n)
        invariant dstBegin == Start(g, g.dst, d) && srcBegin == Start(g, g.src, d)
        invariant forall q: nat :: q < dd.Length ==>
          dd[q] == if g.Selected(q) && High(g.dst.Size(), q) < d then Root(sqrt, g, sd, q) else old(dd[q])
      {
        DepthFits(g.dst.Size(), d, depth);
        DepthFits(g.src.Size(), d, depth);
        dimCounter := SqrtDepth(sqrt, g, dd, sd, d, dstBegin, srcBegin, dimCounter);
        dstBegin := dstBegin + g.dst.Size();
        srcBegin := srcBegin + g.src.Size();
      }
      forall q: nat | q < dd.Length
        ensures High(g.dst.Size(), q) < depth
      {
        FlatOnto(g.dst.Size(), depth, q);
      }
    }
  }

  lemma DepthFits(size: nat, d: nat, depth: nat)
    requires d < depth
    ensures size * d + size <= size * depth && size * (d + 1) == size * d + size
  {
    ProductStep(size, d, depth);
  }

  /** What "its own source value" means: the cell at q, read from the source box at the same depth. */
  lemma SourceIsSameCell(g: Geometry, q: nat)
    requires g.Valid() && g.dst.Size() > 0 && g.Selected(q)
    ensures g.dst.Has(g.Cell(q)) && g.src.Has(g.Cell(q)) && g.box.Has(g.Cell(q))
    ensures 0 <= g.dst.Offset(g.Cell(q)) < g.dst.Size() && 0 <= g.src.Offset(g.Cell(q)) < g.src.Size()
    ensures q == Flat(g.dst.Size(), g.dst.Offset(g.Cell(q)), High(g.dst.Size(), q))
    ensures g.SourceAt(q) == Flat(g.src.Size(), g.src.Offset(g.Cell(q)), High(g.dst.Size(), q))
  {
    hide NBox.Size, NBox.Offset, NBox.Widths, NBox.CellAt, NBox.Has, Geometry.Cell, Geometry.SourceAt, Geometry.Ibox, Low, High, Flat;
    SelectedCell(g, q);
    OffsetInRange(g.dst, g.Cell(q));
    OffsetInRange(g.src, g.Cell(q));
    TargetPosition(g, q);
    SourcePosition(g, q);
  }

  /**
   Cell by cell: at every depth d, a cell of the target that is in all three boxes holds the root of the
   value that the source has for that cell at that depth, and every other cell what it held.
   */
  lemma CellGetsRoot(sqrt: real -> real, g: Geometry, depth: nat, before: seq<real>, after: seq<real>, sd: seq<real>, c: seq<int>, d: nat)
    requires g.Valid() && g.dst.Size() > 0 && |c| == g.n && g.dst.Has(c) && d < depth
    requires |before| == |after| == g.dst.Size() * depth && |sd| == g.src.Size() * depth
    requires forall q: nat :: q < |after| ==> after[q] == if g.Selected(q) then Root(sqrt, g, sd, q) else before[q]
    ensures 0 <= g.dst.Offset(c) + g.dst.Size() * d < |after|
    ensures g.box.Has(c) && g.src.Has(c) ==> 0 <= g.src.Offset(c) + g.src.Size() * d < |sd|
    ensures g.box.Has(c) && g.src.Has(c) ==> after[g.dst.Offset(c) + g.dst.Size() * d] == sqrt(sd[g.src.Offset(c) + g.src.Size() * d])
    ensures !(g.box.Has(c) && g.src.Has(c)) ==> after[g.dst.Offset(c) + g.dst.Size() * d] == before[g.dst.Offset(c) + g.dst.Size() * d]
  {
    hide NBox.Size, NBox.Offset, NBox.Widths, NBox.CellAt, NBox.Has, Flat;
    OffsetInRange(g.dst, c);
    var n, m := g.dst.Size(), g.src.Size();
    var q := Flat(n, g.dst.Offset(c), d);
    FlatIs(n, g.dst.Offset(c), d);
    FlatInverse(n, g.dst.Offset(c), d);
    DigitInRange(n, g.dst.Offset(c), d, depth);
    assert g.Cell(q) == c && High(n, q) == d;
    if g.box.Has(c) && g.src.Has(c) {
      OffsetInRange(g.src, c);
      DigitInRange(m, g.src.Offset(c), d, depth);
      assert g.SourceAt(q) == g.src.Offset(c) + m * d;
    }
  }

  lemma SelectedCell(g: Geometry, q: nat)
    requires g.Valid() && g.dst.Size() > 0 && g.Selected(q)
    ensures g.dst.Has(g.Cell(q)) && g.src.Has(g.Cell(q)) && g.box.Has(g.Cell(q))
  {
    hide NBox.Size, NBox.Widths, Geometry.Cell, NBox.Has, Intersect;
  }

  lemma TargetPosition(g: Geometry, q: nat)
    requires g.Valid() && g.dst.Size() > 0
    ensures 0 <= g.dst.Offset(g.Cell(q)) && q == Flat(g.dst.Size(), g.dst.Offset(g.Cell(q)), High(g.dst.Size(), q))
  {
    hide NBox.Size, NBox.Offset, NBox.Widths, NBox.CellAt, NBox.Has, Low, High;
    LowInRange(g.dst.Size(), q);
    CellInBox(g.dst, Low(g.dst.Size(), q));
  }

  lemma SourcePosition(g: Geometry, q: nat)
    requires g.Valid() && g.dst.Size() > 0 && 0 <= g.src.Offset(g.Cell(q))
    ensures g.SourceAt(q) == Flat(g.src.Size(), g.src.Offset(g.Cell(q)), High(g.dst.Size(), q))
  {
    hide NBox.Size, NBox.Offset, NBox.Widths, Geometry.Cell, High;
  }
}
