/** The mappings from a mouse position to scene coordinates shared by
    `Engine::onMouseEvent` (src/engine.hpp) and `onMouseMove`
    (src/main.cpp): the pixel position divided by a window extent, then an
    affine map onto the light's or the camera's coordinate range. */
module MouseMapping {

  /** `x / float(extent)`: the mouse position as a fraction of the window. */
  function Normalised(coordinate: int, extent: int): (n: real)
    requires 0 < extent
    ensures 0 <= coordinate <= extent ==> 0.0 <= n <= 1.0
    ensures n * extent as real == coordinate as real
  {
    coordinate as real / extent as real
  }

  /** The guard and the division may use different extents (the drawable
      size guards, the window size divides). A coordinate strictly inside
      the guard extent then normalises to strictly between 0 and
      `guardExtent / extent`, which is beyond 1 when the drawable is larger
      than the window, as on a high-density display. */
  lemma GuardedNormalised(coordinate: int, guardExtent: int, extent: int)
    requires 0 < coordinate < guardExtent && 0 < extent
    ensures 0.0 < Normalised(coordinate, extent) < guardExtent as real / extent as real
    ensures guardExtent <= extent ==> Normalised(coordinate, extent) < 1.0
  {
    var e := extent as real;
    var n := Normalised(coordinate, extent);
    var bound := Normalised(guardExtent, extent);
    QuotientOrder(0.0, n, 0.0, coordinate as real, e);
    QuotientOrder(n, bound, coordinate as real, guardExtent as real, e);
    if guardExtent <= extent {
      QuotientOrder(bound, 1.0, guardExtent as real, e, e);
    }
  }

  /** Division by a positive extent keeps the order of the dividends. */
  lemma QuotientOrder(p: real, q: real, a: real, b: real, e: real)
    requires 0.0 < e && p * e == a && q * e == b
    ensures a < b ==> p < q
    ensures a <= b ==> p <= q
  {
    if q < p {
      assert a - b == (p - q) * e;
    }
    if q <= p {
      assert a - b == (p - q) * e;
    }
  }

  /** `(1 - n) * 4 - 2`: a light coordinate in [-2, 2] that runs against
      the mouse, +2 at the left (top) edge and -2 at the right (bottom). */
  function LightCoordinate(n: real): (c: real)
    ensures 0.0 <= n <= 1.0 ==> -2.0 <= c <= 2.0
    ensures n == 0.0 ==> c == 2.0
    ensures n == 1.0 ==> c == -2.0
  {
    (1.0 - n) * 4.0 - 2.0
  }

  /** `n * 2 - 1`: a coordinate in [-1, 1] that follows the mouse, 0 at the
      centre of the window. */
  function CentredCoordinate(n: real): (c: real)
    ensures 0.0 <= n <= 1.0 ==> -1.0 <= c <= 1.0
    ensures n == 0.5 ==> c == 0.0
  {
    n * 2.0 - 1.0
  }

  /** The light moves twice as far as the camera, in the opposite
      direction, and a further right (lower) mouse never moves the light
      further right (higher). */
  lemma LightOpposesCamera(n: real, m: real)
    ensures LightCoordinate(n) == -2.0 * CentredCoordinate(n)
    ensures n <= m ==> LightCoordinate(m) <= LightCoordinate(n)
    ensures n <= m ==> CentredCoordinate(n) <= CentredCoordinate(m)
  {
  }
}
