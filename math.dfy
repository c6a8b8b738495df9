/** The scalar helpers of src/math.hpp, instantiated at the only type the
    renderer uses them with (float, modelled as real). */
module MathUtil {

  /** `max(a, b)`: `a` when `a > b`, otherwise `b`. */
  function Max(a: real, b: real): (r: real)
    ensures r >= a && r >= b
    ensures r == a || r == b
  {
    if a > b then a else b
  }

  /** `clamp(value, min, max)`. The upper bound is tested first, so a value
      above `hi` yields `hi` even when the bounds are out of order. */
  function Clamp(value: real, lo: real, hi: real): (r: real)
    ensures lo <= hi ==> lo <= r <= hi
    ensures lo <= value <= hi ==> r == value
    ensures value > hi ==> r == hi
    ensures value <= hi && value < lo ==> r == lo
  {
    if value > hi then hi else if value < lo then lo else value
  }

  /** Clamping an already clamped value changes nothing. */
  lemma ClampIdempotent(value: real, lo: real, hi: real)
    requires lo <= hi
    ensures Clamp(Clamp(value, lo, hi), lo, hi) == Clamp(value, lo, hi)
  {
  }

  /** With ordered bounds, clamping preserves the order of its inputs. */
  lemma ClampMonotone(v: real, w: real, lo: real, hi: real)
    requires lo <= hi && v <= w
    ensures Clamp(v, lo, hi) <= Clamp(w, lo, hi)
  {
  }

  /** The unit interval that every colour channel lives in. */
  predicate InUnit(value: real) {
    0.0 <= value <= 1.0
  }
}
