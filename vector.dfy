/** The value types `Vector3` and `Vector2` of src/vector.hpp: every
    operator and static helper builds a fresh vector from the components. */
module Vectors {
  import opened CMath

  datatype Vector3 = Vector3(x: real, y: real, z: real) {

    /** `Vector3(float value)`: the same value in every component. */
    static function Splat(value: real): (v: Vector3)
      ensures v.x == value && v.y == value && v.z == value
    {
      Vector3(value, value, value)
    }

    /** `Vector3(int, int, int)`: the integer components, converted exactly. */
    static function FromInts(x: int, y: int, z: int): (v: Vector3)
      ensures v.x.Floor == x && v.y.Floor == y && v.z.Floor == z
      ensures v.x == v.x.Floor as real && v.y == v.y.Floor as real && v.z == v.z.Floor as real
    {
      Vector3(x as real, y as real, z as real)
    }

    /** `ZERO()`; also what the default constructor `Vector3()` builds. */
    static function Zero(): (v: Vector3)
      ensures v == Splat(0.0)
    {
      Vector3(0.0, 0.0, 0.0)
    }

    /** `ONE()`. */
    static function One(): (v: Vector3)
      ensures v == Splat(1.0)
    {
      Vector3(1.0, 1.0, 1.0)
    }

    /** `lengthSquared()`: the squared Euclidean length. */
    function LengthSquared(): (r: real)
      ensures r == Dot(this, this)
      ensures 0.0 <= r
      ensures r == 0.0 <==> this == Zero()
    {
      assert 0.0 <= x * x && 0.0 <= y * y && 0.0 <= z * z;
      var r := x * x + y * y + z * z;
      if r == 0.0 then SquaresZero(x, y, z); r else r
    }

    /** `length()`: the square root of `lengthSquared()`. */
    function Length(lib: MathLib): (r: real)
      requires lib.Valid()
      ensures 0.0 <= r && r * r == LengthSquared()
      ensures r == 0.0 <==> this == Zero()
    {
      var squared := LengthSquared();
      SqrtZero(lib, squared);
      lib.sqrt(squared)
    }

    /** `operator+`. */
    function Add(b: Vector3): Vector3 {
      Vector3(x + b.x, y + b.y, z + b.z)
    }

    /** `operator-` (binary): undoes `operator+`. */
    function Sub(b: Vector3): (r: Vector3)
      ensures r.Add(b) == this
      ensures b.Add(r) == this
    {
      Vector3(x - b.x, y - b.y, z - b.z)
    }

    /** `operator*(float)`. */
    function Scale(scalar: real): Vector3 {
      Vector3(x * scalar, y * scalar, z * scalar)
    }

    /** `operator/(float)`: undoes `operator*` by the same non-zero divisor.
        A zero divisor gives IEEE infinities, which reals do not have. */
    function Div(divisor: real): (r: Vector3)
      requires divisor != 0.0
      ensures r.Scale(divisor) == this
    {
      Vector3(x / divisor, y / divisor, z / divisor)
    }

    /** `operator-` (unary): the additive inverse. */
    function Neg(): (r: Vector3)
      ensures this.Add(r) == Zero()
      ensures r == this.Scale(-1.0)
    {
      Vector3(-x, -y, -z)
    }

    /** `operator==`: component-wise equality. */
    function Equals(b: Vector3): (r: bool)
      ensures r <==> this == b
    {
      x == b.x && y == b.y && z == b.z
    }

    /** `dot(a, b)`. */
    static function Dot(a: Vector3, b: Vector3): real {
      a.x * b.x + a.y * b.y + a.z * b.z
    }

    /** `normalize(a)`: each component divided by the length. The result has
        length 1 and points along `a`. A zero vector would divide by zero. */
    static function Normalize(a: Vector3, lib: MathLib): (r: Vector3)
      requires lib.Valid() && a != Zero()
      ensures r.LengthSquared() == 1.0
      ensures r.Length(lib) == 1.0
      ensures r.Scale(a.Length(lib)) == a
    {
      var len := a.Length(lib);
      assert 0.0 < len;
      var r := Vector3(a.x / len, a.y / len, a.z / len);
      assert r.x * r.x == (a.x * a.x) / (len * len);
      assert r.y * r.y == (a.y * a.y) / (len * len);
      assert r.z * r.z == (a.z * a.z) / (len * len);
      assert r.LengthSquared() == a.LengthSquared() / (len * len);
      SqrtPositive(lib, 1.0);
      r
    }
  }

  /** `dot` is symmetric. */
  lemma DotSymmetric(a: Vector3, b: Vector3)
    ensures Vector3.Dot(a, b) == Vector3.Dot(b, a)
  {
  }

  /** `dot` distributes over `+` and commutes with scaling. */
  lemma DotLinear(a: Vector3, b: Vector3, c: Vector3, s: real)
    ensures Vector3.Dot(a.Add(b), c) == Vector3.Dot(a, c) + Vector3.Dot(b, c)
    ensures Vector3.Dot(a.Scale(s), c) == s * Vector3.Dot(a, c)
  {
  }

  /** `+` is commutative and associative, with `ZERO()` as identity. */
  lemma AddLaws(a: Vector3, b: Vector3, c: Vector3)
    ensures a.Add(b) == b.Add(a)
    ensures a.Add(b).Add(c) == a.Add(b.Add(c))
    ensures a.Add(Vector3.Zero()) == a
  {
  }

  datatype Vector2 = Vector2(x: real, y: real) {

    /** `Vector2(float value)`. */
    static function Splat(value: real): (v: Vector2)
      ensures v.x == value && v.y == value
    {
      Vector2(value, value)
    }

    /** `Vector2(int, int)`. */
    static function FromInts(x: int, y: int): (v: Vector2)
      ensures v.x.Floor == x && v.y.Floor == y
      ensures v.x == v.x.Floor as real && v.y == v.y.Floor as real
    {
      Vector2(x as real, y as real)
    }

    /** `ZERO()`, and the default constructor. */
    static function Zero(): (v: Vector2)
      ensures v == Splat(0.0)
    {
      Vector2(0.0, 0.0)
    }

    /** `ONE()`. */
    static function One(): (v: Vector2)
      ensures v == Splat(1.0)
    {
      Vector2(1.0, 1.0)
    }

    /** `lengthSquared()`. */
    function LengthSquared(): (r: real)
      ensures r == Dot(this, this)
      ensures 0.0 <= r
      ensures r == 0.0 <==> this == Zero()
    {
      assert 0.0 <= x * x && 0.0 <= y * y;
      var r := x * x + y * y;
      if r == 0.0 then SquaresZero(x, y, 0.0); r else r
    }

    /** `length()`. */
    function Length(lib: MathLib): (r: real)
      requires lib.Valid()
      ensures 0.0 <= r && r * r == LengthSquared()
      ensures r == 0.0 <==> this == Zero()
    {
      var squared := LengthSquared();
      SqrtZero(lib, squared);
      lib.sqrt(squared)
    }

    /** `operator+`. */
    function Add(b: Vector2): Vector2 {
      Vector2(x + b.x, y + b.y)
    }

    /** `operator-`: undoes `operator+`. */
    function Sub(b: Vector2): (r: Vector2)
      ensures r.Add(b) == this
      ensures b.Add(r) == this
    {
      Vector2(x - b.x, y - b.y)
    }

    /** `operator*(float)`. */
    function Scale(scalar: real): Vector2 {
      Vector2(x * scalar, y * scalar)
    }

    /** `operator/(float)`: undoes `operator*` by the same non-zero divisor. */
    function Div(divisor: real): (r: Vector2)
      requires divisor != 0.0
      ensures r.Scale(divisor) == this
    {
      Vector2(x / divisor, y / divisor)
    }

    /** `operator==`. */
    function Equals(b: Vector2): (r: bool)
      ensures r <==> this == b
    {
      x == b.x && y == b.y
    }

    /** `dot(a, b)`. */
    static function Dot(a: Vector2, b: Vector2): real {
      a.x * b.x + a.y * b.y
    }

    /** `normalize(a)`: unit length, along `a`. */
    static function Normalize(a: Vector2, lib: MathLib): (r: Vector2)
      requires lib.Valid() && a != Zero()
      ensures r.LengthSquared() == 1.0
      ensures r.Length(lib) == 1.0
      ensures r.Scale(a.Length(lib)) == a
    {
      var len := a.Length(lib);
      assert 0.0 < len;
      var r := Vector2(a.x / len, a.y / len);
      assert r.x * r.x == (a.x * a.x) / (len * len);
      assert r.y * r.y == (a.y * a.y) / (len * len);
      assert r.LengthSquared() == a.LengthSquared() / (len * len);
      SqrtPositive(lib, 1.0);
      r
    }
  }

  /** `Vector2::dot` is symmetric. */
  lemma Dot2Symmetric(a: Vector2, b: Vector2)
    ensures Vector2.Dot(a, b) == Vector2.Dot(b, a)
  {
  }
}
