/**
 x log x and its first two derivatives, continued below a small cutoff by a quadratic (source/xlogx.C).
 The logarithm is a parameter `ln`; theorems that need it assume only its derivative, 1/x for x > 0.
 */
module SmoothLog {
  import opened Calculus

  const SMALL_X: real := 0.00000001
  const INV_SMALL_X: real := 100000000.0

  function Reciprocal(x: real): (r: real)
    requires x != 0.0
    ensures x * r == 1.0
  {
    1.0 / x
  }

  ghost predicate IsLog(ln: real -> real) {
    forall x :: x > 0.0 ==> HasDeriv(ln, x, Reciprocal(x))
  }

  function XLogX(ln: real -> real, x: real): real {
    if x > SMALL_X then
      x * ln(x)
    else
      SMALL_X * ln(SMALL_X) + (x - SMALL_X) * ln(SMALL_X) + 0.5 * (x * x * INV_SMALL_X - SMALL_X)
  }

  function XLogXDeriv(ln: real -> real, x: real): real {
    if x > SMALL_X then ln(x) + 1.0 else ln(SMALL_X) + x * INV_SMALL_X
  }

  function XLogXDeriv2(x: real): (r: real)
    ensures r > 0.0
  {
    if x > SMALL_X then 1.0 / x else INV_SMALL_X
  }

  /** Above 1e-8 they are x ln x and its derivatives, below it the second derivative stays at 1e8. */
  lemma AboveCutoff(ln: real -> real, x: real)
    ensures if x > 0.00000001 then
        XLogX(ln, x) == x * ln(x) && XLogXDeriv(ln, x) == ln(x) + 1.0 && x * XLogXDeriv2(x) == 1.0
      else
        XLogXDeriv2(x) == 100000000.0
  {}

  // The two branches, each continued to all arguments.

  lemma LogBranch(ln: real -> real, x: real) returns (f: real -> real)
    requires IsLog(ln) && x > 0.0
    ensures HasDeriv(f, x, ln(x) + 1.0) && forall t :: f(t) == t * ln(t)
  {
    hide HasDeriv;
    f := DerivLineMul(ln, 0.0, 1.0, x, Reciprocal(x), ln(x) + 1.0);
  }

  lemma QuadBranch(l: real, x: real) returns (f: real -> real)
    ensures HasDeriv(f, x, l + x * INV_SMALL_X)
    ensures forall t :: f(t) == SMALL_X * l + (t - SMALL_X) * l + 0.5 * (t * t * INV_SMALL_X - SMALL_X)
  {
    hide HasDeriv;
    var id := (t: real) => t;
    DerivLine(id, 0.0, 1.0, x);
    f := t => SMALL_X * l + (t - SMALL_X) * l + 0.5 * (t * t * INV_SMALL_X - SMALL_X);
    DerivForm(id, id, id, f, x, 1.0, 1.0, 1.0, 0.0, 0.0, 0.5 * INV_SMALL_X, 0.0, -0.5 * SMALL_X, l, l + x * INV_SMALL_X);
  }

  /** The extension is differentiable everywhere, the cutoff included, with derivative XLogXDeriv. */
  lemma XLogXIsC1(ln: real -> real, x: real)
    requires IsLog(ln)
    ensures HasDeriv(t => XLogX(ln, t), x, XLogXDeriv(ln, x))
  {
    hide HasDeriv;
    var h := t => XLogX(ln, t);
    var quad := QuadBranch(ln(SMALL_X), x);
    if x < SMALL_X {
      DerivNear(quad, h, x, XLogXDeriv(ln, x), SMALL_X - x);
    } else {
      var log := LogBranch(ln, x);
      if x == SMALL_X {
        DerivGlue(quad, log, h, x, XLogXDeriv(ln, x));
      } else {
        DerivNear(log, h, x, XLogXDeriv(ln, x), x - SMALL_X);
      }
    }
  }

  /** ... and twice differentiable everywhere: the second derivatives agree at the cutoff. */
  lemma XLogXIsC2(ln: real -> real, x: real)
    requires IsLog(ln)
    ensures HasDeriv(t => XLogXDeriv(ln, t), x, XLogXDeriv2(x))
  {
    hide HasDeriv;
    var h := t => XLogXDeriv(ln, t);
    var low := (t: real) => ln(SMALL_X) + INV_SMALL_X * t;
    DerivLine(low, ln(SMALL_X), INV_SMALL_X, x);
    if x < SMALL_X {
      DerivNear(low, h, x, XLogXDeriv2(x), SMALL_X - x);
    } else {
      var high := t => ln(t) + 1.0;
      DerivAddLine(ln, high, x, Reciprocal(x), 1.0, 0.0, Reciprocal(x));
      if x == SMALL_X {
        DerivGlue(low, high, h, x, XLogXDeriv2(x));
      } else {
        DerivNear(high, h, x, XLogXDeriv2(x), x - SMALL_X);
      }
    }
  }
}
