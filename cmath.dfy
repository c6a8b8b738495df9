/** The C math library calls the renderer makes and whose code is not part
    of this model: `sqrtf`, and the per-channel power behind the gamma step
    (`Color::pow`, called by src/engine.hpp but defined nowhere in the
    repository's colour header). They are passed in as function values,
    and `Valid` states the laws the model relies on. */
module CMath {

  datatype MathLib = MathLib(sqrt: real -> real, pow: (real, real) -> real) {

    /** `sqrt` is the non-negative square root on non-negative reals, and
        `pow` with a positive exponent keeps [0, 1] inside [0, 1] and maps
        non-negative bases to non-negative results; exponent 1 is identity. */
    ghost predicate Valid() {
      (forall v :: 0.0 <= v ==> 0.0 <= sqrt(v) && sqrt(v) * sqrt(v) == v) &&
      (forall v, e :: 0.0 <= v && 0.0 < e ==> 0.0 <= pow(v, e)) &&
      (forall v, e :: 0.0 <= v <= 1.0 && 0.0 < e ==> pow(v, e) <= 1.0) &&
      (forall v :: 0.0 <= v ==> pow(v, 1.0) == v)
    }
  }

  /** On a valid library the square root of a positive number is positive
      and the square root of 1 is 1. */
  lemma SqrtPositive(lib: MathLib, v: real)
    requires lib.Valid() && 0.0 < v
    ensures 0.0 < lib.sqrt(v)
    ensures v == 1.0 ==> lib.sqrt(v) == 1.0
  {
    var s := lib.sqrt(v);
    assert 0.0 <= s && s * s == v;
    if v == 1.0 {
      assert (s - 1.0) * (s + 1.0) == 0.0;
      ProductZero(s - 1.0, s + 1.0);
    }
  }

  /** A product of reals is zero only when a factor is. */
  lemma ProductZero(a: real, b: real)
    requires a * b == 0.0
    ensures a == 0.0 || b == 0.0
  {
  }

  /** A sum of squares is zero only when every term is. */
  lemma SquaresZero(a: real, b: real, c: real)
    requires a * a + b * b + c * c == 0.0
    ensures a == 0.0 && b == 0.0 && c == 0.0
  {
    assert 0.0 <= a * a && 0.0 <= b * b && 0.0 <= c * c;
    assert a * a == 0.0;
    ProductZero(a, a);
    assert b * b == 0.0;
    ProductZero(b, b);
    assert c * c == 0.0;
    ProductZero(c, c);
  }

  /** The root of `lib.sqrt` is zero exactly when its argument is. */
  lemma SqrtZero(lib: MathLib, v: real)
    requires lib.Valid() && 0.0 <= v
    ensures lib.sqrt(v) == 0.0 <==> v == 0.0
  {
    var s := lib.sqrt(v);
    assert 0.0 <= s && s * s == v;
    if v == 0.0 {
      ProductZero(s, s);
    }
  }
}
