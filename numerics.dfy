/** Real-number helpers shared by the solver, the obstacle code and the
    radiator analysis: absolute value, minimum and maximum as the Rust
    `f64` methods compute them, the library functions (`sqrt`, `cos`,
    `sin`) taken as parameters, and the convexity facts behind bilinear
    interpolation. */
module Numerics {

  /** `x.abs()` */
  function Abs(x: real): (r: real)
    ensures r >= 0.0
    ensures r == x || r == -x
  {
    if x < 0.0 then -x else x
  }

  /** `a.max(b)` */
  function Max(a: real, b: real): (r: real)
    ensures r >= a && r >= b
    ensures r == a || r == b
  {
    if a < b then b else a
  }

  /** `a.min(b)` */
  function Min(a: real, b: real): (r: real)
    ensures r <= a && r <= b
    ensures r == a || r == b
  {
    if b < a then b else a
  }

  function Min4(a: real, b: real, c: real, d: real): real
  {
    Min(Min(a, b), Min(c, d))
  }

  function Max4(a: real, b: real, c: real, d: real): real
  {
    Max(Max(a, b), Max(c, d))
  }

  /** The transcendental functions of the floating-point library, which the
      model does not compute: every caller receives them as values. */
  datatype MathLib = MathLib(sqrt: real -> real, cos: real -> real, sin: real -> real)

  /** What the model relies on about `sqrt`: on non-negative inputs it
      returns the non-negative square root, zero at zero. */
  ghost predicate SqrtLaw(lib: MathLib)
  {
    lib.sqrt(0.0) == 0.0 &&
    forall x :: 0.0 <= x ==> 0.0 <= lib.sqrt(x) && lib.sqrt(x) * lib.sqrt(x) == x
  }

  /** The bilinear blend used by both samplers: weights
      `(1-tx)(1-ty)`, `tx(1-ty)`, `tx ty`, `(1-tx) ty` on the corners
      `(x0,y0)`, `(x1,y0)`, `(x1,y1)`, `(x0,y1)`. */
  function Bilinear(tx: real, ty: real, f00: real, f10: real, f11: real, f01: real): real
  {
    (1.0 - tx) * (1.0 - ty) * f00 + tx * (1.0 - ty) * f10 + tx * ty * f11 + (1.0 - tx) * ty * f01
  }

  /** With both fractions zero the blend is the first corner. */
  lemma BilinearAtCorner(f00: real, f10: real, f11: real, f01: real)
    ensures Bilinear(0.0, 0.0, f00, f10, f11, f01) == f00
  {
  }

  lemma ScaleMono(w: real, a: real, b: real)
    requires w >= 0.0 && a <= b
    ensures w * a <= w * b
  {
  }

  lemma MulNonNeg(a: real, b: real)
    requires a >= 0.0 && b >= 0.0
    ensures a * b >= 0.0
  {
  }

  /** Non-negative weights of non-negative terms give a non-negative sum. */
  lemma {:induction false} NonNegWeighted(w0: real, w1: real, w2: real, w3: real, d0: real, d1: real, d2: real, d3: real)
    requires w0 >= 0.0 && w1 >= 0.0 && w2 >= 0.0 && w3 >= 0.0
    requires d0 >= 0.0 && d1 >= 0.0 && d2 >= 0.0 && d3 >= 0.0
    ensures w0 * d0 + w1 * d1 + w2 * d2 + w3 * d3 >= 0.0
  {
    MulNonNeg(w0, d0); MulNonNeg(w1, d1); MulNonNeg(w2, d2); MulNonNeg(w3, d3);
  }

  /** With weights summing to one, shifting every term by `c` shifts the
      weighted sum by `c`. */
  lemma ShiftWeighted(w0: real, w1: real, w2: real, w3: real, f0: real, f1: real, f2: real, f3: real, c: real)
    requires w0 + w1 + w2 + w3 == 1.0
    ensures w0 * (f0 - c) + w1 * (f1 - c) + w2 * (f2 - c) + w3 * (f3 - c) == w0 * f0 + w1 * f1 + w2 * f2 + w3 * f3 - c
  {
    assert w0 * c + w1 * c + w2 * c + w3 * c == (w0 + w1 + w2 + w3) * c;
  }

  /** A weighted sum with non-negative weights summing to one stays
      within any bounds of its terms. */
  lemma {:induction false} WeightedSumBounds(w0: real, w1: real, w2: real, w3: real,
                                             f0: real, f1: real, f2: real, f3: real, lo: real, hi: real)
    requires w0 >= 0.0 && w1 >= 0.0 && w2 >= 0.0 && w3 >= 0.0 && w0 + w1 + w2 + w3 == 1.0
    requires lo <= f0 <= hi && lo <= f1 <= hi && lo <= f2 <= hi && lo <= f3 <= hi
    ensures lo <= w0 * f0 + w1 * f1 + w2 * f2 + w3 * f3 <= hi
  {
    NonNegWeighted(w0, w1, w2, w3, f0 - lo, f1 - lo, f2 - lo, f3 - lo);
    ShiftWeighted(w0, w1, w2, w3, f0, f1, f2, f3, lo);
    NonNegWeighted(w0, w1, w2, w3, hi - f0, hi - f1, hi - f2, hi - f3);
    ShiftWeighted(w0, w1, w2, w3, -f0, -f1, -f2, -f3, -hi);
  }

  /** With both fractions in [0,1] the four weights are non-negative and
      sum to one, so the blend lies between the smallest and the largest
      corner value. */
  lemma {:induction false} BilinearIsConvex(tx: real, ty: real, f00: real, f10: real, f11: real, f01: real)
    requires 0.0 <= tx <= 1.0 && 0.0 <= ty <= 1.0
    ensures Min4(f00, f10, f11, f01) <= Bilinear(tx, ty, f00, f10, f11, f01) <= Max4(f00, f10, f11, f01)
  {
    var lo := Min4(f00, f10, f11, f01);
    var hi := Max4(f00, f10, f11, f01);
    assert lo <= f00 && lo <= f10 && lo <= f11 && lo <= f01;
    assert f00 <= hi && f10 <= hi && f11 <= hi && f01 <= hi;
    var sx, sy := 1.0 - tx, 1.0 - ty;
    var w00, w10, w11, w01 := sx * sy, tx * sy, tx * ty, sx * ty;
    MulNonNeg(sx, sy); MulNonNeg(tx, sy); MulNonNeg(tx, ty); MulNonNeg(sx, ty);
    assert w00 + w10 + w11 + w01 == (sx + tx) * (sy + ty) == 1.0;
    WeightedSumBounds(w00, w10, w11, w01, f00, f10, f11, f01, lo, hi);
    assert Bilinear(tx, ty, f00, f10, f11, f01) == w00 * f00 + w10 * f10 + w11 * f11 + w01 * f01;
  }

  /** Scaling by a nonzero spacing and back is the identity. */
  lemma CancelSpacing(x: real, h: real)
    requires h != 0.0
    ensures (x * h) * (1.0 / h) == x
  {
    assert (x * h) * (1.0 / h) == x * (h * (1.0 / h));
    assert h * (1.0 / h) == 1.0;
  }

  /** Clamping into a non-empty interval lands inside it. */
  lemma ClampBounds(c: real, lo: real, hi: real)
    requires lo <= hi
    ensures lo <= Min(Max(c, lo), hi) <= hi
  {
  }

  /** Dividing a bound through by a positive spacing. */
  lemma DivBounds(x: real, h: real, lo: real, hi: real)
    requires h > 0.0 && lo * h <= x <= hi * h
    ensures lo <= x * (1.0 / h) <= hi
  {
    assert x * (1.0 / h) == x / h;
    assert (lo * h) / h == lo;
    assert (hi * h) / h == hi;
  }

  /** The sum of a sequence, accumulated front to back as a running total
      does. */
  function Sum(s: seq<real>): real
  {
    if |s| == 0 then 0.0 else Sum(s[..|s| - 1]) + s[|s| - 1]
  }

  /** The arithmetic mean, or zero for an empty sequence. */
  function MeanOrZero(s: seq<real>): real
  {
    if |s| == 0 then 0.0 else Sum(s) / (|s| as real)
  }

  /** Terms within `[lo, hi]` sum to within `[|s| lo, |s| hi]`. */
  lemma {:induction false} SumWithin(s: seq<real>, lo: real, hi: real)
    requires forall k :: 0 <= k < |s| ==> lo <= s[k] <= hi
    ensures (|s| as real) * lo <= Sum(s) <= (|s| as real) * hi
  {
    if |s| > 0 {
      var init := s[..|s| - 1];
      assert forall k :: 0 <= k < |init| ==> init[k] == s[k];
      SumWithin(init, lo, hi);
      assert (|s| as real) * lo == (|init| as real) * lo + lo;
      assert (|s| as real) * hi == (|init| as real) * hi + hi;
    }
  }

  /** The mean of a non-empty sequence lies within any bounds of its
      terms, in particular between its smallest and largest term. */
  lemma MeanWithin(s: seq<real>, lo: real, hi: real)
    requires |s| > 0
    requires forall k :: 0 <= k < |s| ==> lo <= s[k] <= hi
    ensures lo <= MeanOrZero(s) <= hi
  {
    SumWithin(s, lo, hi);
    DivBounds(Sum(s), |s| as real, lo, hi);
    assert Sum(s) * (1.0 / (|s| as real)) == Sum(s) / (|s| as real);
  }
}
