/** The `Color` class of src/color.hpp. Its only constructor clamps every
    channel into [0, 1], and `*`, `+`, `-` and `mix` all build their result
    through that constructor, so no `Color` ever holds a channel outside
    [0, 1]. The subset type `Color` records that invariant. */
module Colors {
  import opened MathUtil
  import opened CMath

  datatype Rgb = Rgb(red: real, green: real, blue: real)

  type Color = c: Rgb | InUnit(c.red) && InUnit(c.green) && InUnit(c.blue)
    witness Rgb(0.0, 0.0, 0.0)

  /** What the constructor stores for a given channel value: the value
      itself inside [0, 1], the nearest bound outside it. */
  predicate ClampedFrom(stored: real, given: real) {
    (InUnit(given) ==> stored == given) &&
    (given > 1.0 ==> stored == 1.0) &&
    (given < 0.0 ==> stored == 0.0)
  }

  /** `Color(red, green, blue)`: any real input gives a colour in range. */
  function NewColor(red: real, green: real, blue: real): (c: Color)
    ensures ClampedFrom(c.red, red)
    ensures ClampedFrom(c.green, green)
    ensures ClampedFrom(c.blue, blue)
  {
    Rgb(Clamp(red, 0.0, 1.0), Clamp(green, 0.0, 1.0), Clamp(blue, 0.0, 1.0))
  }

  /** Rebuilding a colour from its own channels gives it back, so
      constructing twice is the same as constructing once. */
  lemma NewColorIdempotent(red: real, green: real, blue: real)
    ensures var c := NewColor(red, green, blue); NewColor(c.red, c.green, c.blue) == c
  {
  }

  /** `operator*(float)`: attenuation by a factor in [0, 1] is exact; a
      non-negative factor gives each channel's product capped at 1; a
      non-positive factor gives black; a factor of at least 1 never darkens. */
  function Scale(c: Color, scalar: real): (r: Color)
    ensures 0.0 <= scalar <= 1.0 ==> r == Rgb(c.red * scalar, c.green * scalar, c.blue * scalar)
    ensures 0.0 <= scalar ==> r.red == (if c.red * scalar > 1.0 then 1.0 else c.red * scalar)
    ensures 0.0 <= scalar ==> r.green == (if c.green * scalar > 1.0 then 1.0 else c.green * scalar)
    ensures 0.0 <= scalar ==> r.blue == (if c.blue * scalar > 1.0 then 1.0 else c.blue * scalar)
    ensures scalar <= 0.0 ==> r == Rgb(0.0, 0.0, 0.0)
    ensures 1.0 <= scalar ==> c.red <= r.red
    ensures 1.0 <= scalar ==> c.green <= r.green
    ensures 1.0 <= scalar ==> c.blue <= r.blue
  {
    ScaleChannel(c.red, scalar);
    ScaleChannel(c.green, scalar);
    ScaleChannel(c.blue, scalar);
    NewColor(c.red * scalar, c.green * scalar, c.blue * scalar)
  }

  /** One channel of `Scale`, clamped the way the constructor clamps it. */
  lemma ScaleChannel(channel: real, scalar: real)
    requires InUnit(channel)
    ensures 0.0 <= scalar <= 1.0 ==> Clamp(channel * scalar, 0.0, 1.0) == channel * scalar
    ensures scalar <= 0.0 ==> Clamp(channel * scalar, 0.0, 1.0) == 0.0
    ensures 1.0 <= scalar ==> channel <= Clamp(channel * scalar, 0.0, 1.0)
    ensures 0.0 <= scalar ==>
      Clamp(channel * scalar, 0.0, 1.0) == (if channel * scalar > 1.0 then 1.0 else channel * scalar)
  {
    var v := channel * scalar;
    if 0.0 <= scalar <= 1.0 {
      MulNonNegative(channel, scalar);
      MulNonNegative(channel, 1.0 - scalar);
      assert channel - v == channel * (1.0 - scalar);
    } else if scalar <= 0.0 {
      MulNonNegative(channel, -scalar);
    } else {
      MulNonNegative(channel, scalar);
      MulNonNegative(channel, scalar - 1.0);
      assert v - channel == channel * (scalar - 1.0);
    }
  }

  /** `operator+`: a saturating sum. Both inputs are in range, so only the
      upper bound can take effect. */
  function Add(a: Color, b: Color): (r: Color)
    ensures a.red + b.red <= 1.0 ==> r.red == a.red + b.red
    ensures a.green + b.green <= 1.0 ==> r.green == a.green + b.green
    ensures a.blue + b.blue <= 1.0 ==> r.blue == a.blue + b.blue
    ensures a.red + b.red > 1.0 ==> r.red == 1.0
    ensures a.green + b.green > 1.0 ==> r.green == 1.0
    ensures a.blue + b.blue > 1.0 ==> r.blue == 1.0
  {
    NewColor(a.red + b.red, a.green + b.green, a.blue + b.blue)
  }

  /** `operator-`: a difference floored at zero. Both inputs are in range,
      so only the lower bound can take effect. */
  function Sub(a: Color, b: Color): (r: Color)
    ensures a.red >= b.red ==> r.red == a.red - b.red
    ensures a.green >= b.green ==> r.green == a.green - b.green
    ensures a.blue >= b.blue ==> r.blue == a.blue - b.blue
    ensures a.red < b.red ==> r.red == 0.0
    ensures a.green < b.green ==> r.green == 0.0
    ensures a.blue < b.blue ==> r.blue == 0.0
  {
    NewColor(a.red - b.red, a.green - b.green, a.blue - b.blue)
  }

  /** `v` lies between `p` and `q`, whichever of them is larger. */
  predicate Between(v: real, p: real, q: real) {
    (p <= v <= q) || (q <= v <= p)
  }

  /** Linear interpolation with a factor in [0, 1] stays between its ends. */
  lemma LerpBetween(p: real, q: real, m: real)
    requires 0.0 <= m <= 1.0
    ensures Between(p * (1.0 - m) + q * m, p, q)
  {
    var v := p * (1.0 - m) + q * m;
    if p <= q {
      MulNonNegative(m, q - p);
      MulNonNegative(1.0 - m, q - p);
    } else {
      MulNonNegative(m, p - q);
      MulNonNegative(1.0 - m, p - q);
    }
    assert v - p == m * (q - p);
    assert q - v == (1.0 - m) * (q - p);
  }

  lemma MulNonNegative(a: real, b: real)
    requires 0.0 <= a && 0.0 <= b
    ensures 0.0 <= a * b
  {
  }

  /** `mix(a, b, mixture)`: the mixture is clamped to [0, 1] first; inside
      [0, 1] each channel is the blend `a * (1 - mixture) + b * mixture`, so
      it lies between the channels of `a` and `b`, and a mixture at or
      beyond an end gives that end exactly. */
  function Mix(a: Color, b: Color, mixture: real): (r: Color)
    ensures 0.0 <= mixture <= 1.0 ==> r == Rgb(
      a.red * (1.0 - mixture) + b.red * mixture,
      a.green * (1.0 - mixture) + b.green * mixture,
      a.blue * (1.0 - mixture) + b.blue * mixture)
    ensures Between(r.red, a.red, b.red)
    ensures Between(r.green, a.green, b.green)
    ensures Between(r.blue, a.blue, b.blue)
    ensures mixture <= 0.0 ==> r == a
    ensures mixture >= 1.0 ==> r == b
  {
    var m := Clamp(mixture, 0.0, 1.0);
    NewColor(Lerp(a.red, b.red, m), Lerp(a.green, b.green, m), Lerp(a.blue, b.blue, m))
  }

  /** One channel of `mix`, `p * (1 - m) + q * m`: between two in-range ends
      the result is in range and between them, and the factors 0 and 1 give
      the ends themselves. */
  function Lerp(p: real, q: real, m: real): (v: real)
    requires InUnit(p) && InUnit(q) && 0.0 <= m <= 1.0
    ensures InUnit(v) && Between(v, p, q)
    ensures m == 0.0 ==> v == p
    ensures m == 1.0 ==> v == q
  {
    LerpBetween(p, q, m);
    p * (1.0 - m) + q * m
  }

  /** A mixture outside [0, 1] acts like the nearest end of the range. */
  lemma MixClampsMixture(a: Color, b: Color, mixture: real)
    ensures Mix(a, b, mixture) == Mix(a, b, Clamp(mixture, 0.0, 1.0))
  {
    ClampIdempotent(mixture, 0.0, 1.0);
  }

  /** `Color::pow(color, exponent)`, which src/engine.hpp calls but no file
      of the repository defines: modelled as the clamping constructor applied
      to the power of each channel. For a positive exponent the power of an
      in-range channel is in range, so the clamp never takes effect. */
  function Pow(c: Color, exponent: real, lib: MathLib): (r: Color)
    requires lib.Valid() && 0.0 < exponent
    ensures r == Rgb(lib.pow(c.red, exponent), lib.pow(c.green, exponent), lib.pow(c.blue, exponent))
    ensures exponent == 1.0 ==> r == c
  {
    NewColor(lib.pow(c.red, exponent), lib.pow(c.green, exponent), lib.pow(c.blue, exponent))
  }
}
