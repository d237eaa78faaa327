/** Real-valued helpers shared by the three controllers: closed ranges, the
    `Math.max(lo, Math.min(x, hi))` clamp idiom, `Math.round` and `Math.abs`. */
module Numeric {

  /** A closed interval [lo, hi]; every clamp bound in the scripts is one. */
  datatype Range = Range(lo: real, hi: real) {
    predicate Valid() { lo <= hi }
    predicate Contains(x: real) { lo <= x <= hi }
  }

  /** An image side in pixels, as a decoded image reports it. */
  type Pixels = n: int | 0 < n witness 1

  /** A strictly positive real: an aspect ratio of a decoded image. */
  type Positive = r: real | 0.0 < r witness 1.0

  function Min(a: real, b: real): real { if a <= b then a else b }

  function Max(a: real, b: real): real { if a >= b then a else b }

  function Abs(x: real): real { if x < 0.0 then -x else x }

  /** `Math.max(lo, Math.min(x, hi))`, and `THREE.MathUtils.clamp(x, lo, hi)`,
      which is defined the same way. */
  function Clamp(x: real, r: Range): (c: real)
    ensures r.Valid() ==> r.Contains(c)
    ensures r.Valid() && r.Contains(x) ==> c == x
    ensures x <= r.lo ==> c == r.lo
    ensures r.Valid() && x >= r.hi ==> c == r.hi
  {
    Max(r.lo, Min(x, r.hi))
  }

  /** Clamping never moves a value that is already in range further from any
      point: it is 1-Lipschitz towards in-range values, and monotone. */
  lemma ClampNonExpansive(x: real, v: real, r: Range)
    requires r.Valid() && r.Contains(v)
    ensures Abs(Clamp(x, r) - v) <= Abs(x - v)
    ensures x >= v ==> v <= Clamp(x, r) <= x
    ensures x <= v ==> x <= Clamp(x, r) <= v
  {
  }

  /** Multiplying by a non-negative factor keeps the order. */
  lemma MulMonotone(a: real, b: real, c: real)
    requires a <= b && 0.0 <= c
    ensures a * c <= b * c
  {
    assert (b - a) * c >= 0.0;
  }

  /** The converse for a positive factor: a * c <= b * c gives a <= b. */
  lemma MulCancel(a: real, b: real, c: real)
    requires 0.0 < c && a * c <= b * c
    ensures a <= b
  {
    assert (b - a) * c >= 0.0;
  }

  /** `Math.round(x)`: the nearest integer, halves rounded towards +infinity. */
  function JsRound(x: real): (n: int)
    ensures n as real - 0.5 <= x < n as real + 0.5
  {
    (x + 0.5).Floor
  }

  /** The bracket in `JsRound`'s contract determines its result: no other
      integer is within half a unit on that side. */
  lemma JsRoundUnique(x: real, n: int)
    requires n as real - 0.5 <= x < n as real + 0.5
    ensures JsRound(x) == n
  {
    var m := JsRound(x);
    assert m as real - 0.5 <= x < m as real + 0.5;
    assert m - n < 1 && n - m < 1 by {
      assert (m - n) as real < 1.0 && (n - m) as real < 1.0;
    }
  }
}
