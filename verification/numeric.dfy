/** Small numeric definitions shared by the particle field and the avatar. */
module Numeric {

  function Min(a: int, b: int): int { if a < b then a else b }

  function Max(a: int, b: int): int { if a < b then b else a }

  function Abs(v: real): real { if v < 0.0 then -v else v }

  /** The closed unit interval, the range of progress fractions and blends. */
  predicate InUnit(v: real) { 0.0 <= v <= 1.0 }

  /** `v` lies on the closed interval between `a` and `b`, in either order. */
  predicate Between(a: real, b: real, v: real) {
    (a <= v <= b) || (b <= v <= a)
  }

  /** A fraction in [0, 1] of `k` lies between 0 and `k`. */
  lemma ScaleWithin(k: real, t: real)
    requires InUnit(t)
    ensures Between(0.0, k, k * t)
  {
    if k >= 0.0 {
      assert k * t <= k * 1.0;
    } else {
      assert k * t >= k * 1.0;
    }
  }
}
