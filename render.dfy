/** The per-pixel algorithm shared by `Engine::onRender` (src/engine.hpp)
    and the older `onFrame` (src/main.cpp): a camera ray per pixel, the
    as-written ray-sphere discriminant test over the spheres in list order,
    flat shading of the first sphere that passes it, optional gamma, and a
    sky gradient when no sphere passes. The render loops themselves are
    methods in the Engine and Prototype modules; they are proved to paint
    exactly the colour `PixelColor` computes. */
module Render {
  import opened MathUtil
  import opened CMath
  import opened Vectors
  import opened Colors
  import opened Spheres
  import opened Rays
  import opened Worlds
  import opened Framebuffer

  datatype Option<T> = None | Some(value: T)

  /** Everything one render pass reads: the scene, the frame size, the
      aspect ratio, the gamma flag and the math library. */
  datatype RenderPass = RenderPass(
    world: World,
    width: nat,
    height: nat,
    aspectRatio: real,
    gammaCorrection: bool,
    lib: MathLib)

  /** The screen coordinate of column (or row) `i` of `n`: `(i / n) * 2 - 1`. */
  function ScreenCoordinate(i: nat, n: nat): (c: real)
    requires i < n
    ensures -1.0 <= c < 1.0
    ensures 2 * i == n ==> c == 0.0
  {
    FractionBounds(i, n);
    (i as real / n as real) * 2.0 - 1.0
  }

  lemma FractionBounds(i: nat, n: nat)
    requires i < n
    ensures 0.0 <= i as real / n as real < 1.0
    ensures 2 * i == n ==> i as real / n as real == 0.5
  {
    var ir, nr := i as real, n as real;
    assert 0.0 <= ir < nr;
    var q := ir / nr;
    assert q * nr == ir;
    if q < 0.0 {
      MulPositive(-q, nr);
      assert false;
    }
    if q >= 1.0 {
      MulNonNegative(q - 1.0, nr);
      assert false;
    }
    if 2 * i == n {
      assert nr == 2.0 * ir;
    }
  }

  /** The ray of pixel (x, y): from the camera origin along
      `(u * aspectRatio, v, -1)`, deliberately not normalised. Its squared
      length is at least 1, so the near-root division never divides by 0. */
  function PrimaryRay(origin: Vector3, width: nat, height: nat, aspectRatio: real, x: nat, y: nat): (r: Ray)
    requires x < width && y < height
    ensures r.origin == origin
    ensures r.direction.x == ScreenCoordinate(x, width) * aspectRatio
    ensures r.direction.y == ScreenCoordinate(y, height) && r.direction.z == -1.0
    ensures Vector3.Dot(r.direction, r.direction) >= 1.0
  {
    var u := ScreenCoordinate(x, width);
    var v := ScreenCoordinate(y, height);
    var u := u * aspectRatio;
    var r := Ray(origin, Vector3(u, v, -1.0));
    assert Vector3.Dot(r.direction, r.direction) == u * u + v * v + 1.0;
    assert 0.0 <= u * u && 0.0 <= v * v;
    r
  }

  /** The discriminant exactly as the loop computes it. Note `c` takes
      `dot(center, ray.origin)` where the textbook test has
      `dot(center, center)`. */
  function Discriminant(ray: Ray, sphere: Sphere): real {
    var center := ray.origin.Sub(sphere.position);
    var a := Vector3.Dot(ray.direction, ray.direction);
    var b := 2.0 * Vector3.Dot(center, ray.direction);
    var c := Vector3.Dot(center, ray.origin) - sphere.radius * sphere.radius;
    b * b - 4.0 * a * c
  }

  /** The loop treats a sphere as hit when the discriminant is non-negative. */
  predicate Hits(ray: Ray, sphere: Sphere) {
    Discriminant(ray, sphere) >= 0.0
  }

  /** The textbook discriminant of |origin + t * direction - position|^2 = radius^2,
      the independent reference the as-written test is compared with. */
  function TextbookDiscriminant(ray: Ray, sphere: Sphere): real {
    var center := ray.origin.Sub(sphere.position);
    var a := Vector3.Dot(ray.direction, ray.direction);
    var b := 2.0 * Vector3.Dot(center, ray.direction);
    var c := Vector3.Dot(center, center) - sphere.radius * sphere.radius;
    b * b - 4.0 * a * c
  }

  /** The as-written discriminant differs from the textbook one by
      `4 * a * dot(center, position)`; they agree for a sphere at the origin. */
  lemma DiscriminantQuirk(ray: Ray, sphere: Sphere)
    ensures var center := ray.origin.Sub(sphere.position);
      Discriminant(ray, sphere) ==
        TextbookDiscriminant(ray, sphere)
        - 4.0 * Vector3.Dot(ray.direction, ray.direction) * Vector3.Dot(center, sphere.position)
    ensures sphere.position == Vector3.Zero() ==> Discriminant(ray, sphere) == TextbookDiscriminant(ray, sphere)
  {
    var center := ray.origin.Sub(sphere.position);
    var a := Vector3.Dot(ray.direction, ray.direction);
    var b := 2.0 * Vector3.Dot(center, ray.direction);
    var r2 := sphere.radius * sphere.radius;
    assert ray.origin == center.Add(sphere.position);
    DotLinear(center, sphere.position, center, 1.0);
    DotSymmetric(center, ray.origin);
    DotSymmetric(center, sphere.position);
    assert Vector3.Dot(center, ray.origin) == Vector3.Dot(center, center) + Vector3.Dot(center, sphere.position);
    assert Discriminant(ray, sphere) == b * b - 4.0 * a * (Vector3.Dot(center, ray.origin) - r2);
    assert TextbookDiscriminant(ray, sphere) == b * b - 4.0 * a * (Vector3.Dot(center, center) - r2);
  }

  /** The lowest index whose sphere the ray hits, searching in list order. */
  function FirstHit(spheres: seq<Sphere>, ray: Ray): (r: Option<nat>)
    ensures r.Some? ==> r.value < |spheres| && Hits(ray, spheres[r.value])
    ensures r.Some? ==> forall j :: 0 <= j < r.value ==> !Hits(ray, spheres[j])
    ensures r.None? <==> forall j :: 0 <= j < |spheres| ==> !Hits(ray, spheres[j])
    decreases |spheres|
  {
    if |spheres| == 0 then None
    else if Hits(ray, spheres[0]) then Some(0)
    else match FirstHit(spheres[1..], ray) {
      case None => None
      case Some(i) => Some(i + 1)
    }
  }

  /** A sphere hit with every earlier sphere missed is the first hit, and
      spheres appended after it are never examined, however close they are. */
  lemma FirstHitIgnoresLater(spheres: seq<Sphere>, extra: seq<Sphere>, ray: Ray, i: nat)
    requires i < |spheres| && Hits(ray, spheres[i])
    requires forall j :: 0 <= j < i ==> !Hits(ray, spheres[j])
    ensures FirstHit(spheres, ray) == Some(i)
    ensures FirstHit(spheres + extra, ray) == Some(i)
  {
    var all := spheres + extra;
    assert all[i] == spheres[i];
    assert forall j :: 0 <= j < i ==> all[j] == spheres[j];
  }

  /** `t = (-b - sqrt(discriminant)) / (2 * a)`: only the near root. It is
      a root of the quadratic whose discriminant the loop tested, with the
      as-written `c`. */
  function NearRoot(ray: Ray, sphere: Sphere, lib: MathLib): (t: real)
    requires lib.Valid() && Hits(ray, sphere)
    requires Vector3.Dot(ray.direction, ray.direction) > 0.0
    ensures var center := ray.origin.Sub(sphere.position);
      var a := Vector3.Dot(ray.direction, ray.direction);
      var b := 2.0 * Vector3.Dot(center, ray.direction);
      var c := Vector3.Dot(center, ray.origin) - sphere.radius * sphere.radius;
      a * t * t + b * t + c == 0.0
  {
    var center := ray.origin.Sub(sphere.position);
    var a := Vector3.Dot(ray.direction, ray.direction);
    var b := 2.0 * Vector3.Dot(center, ray.direction);
    var c := Vector3.Dot(center, ray.origin) - sphere.radius * sphere.radius;
    var s := lib.sqrt(Discriminant(ray, sphere));
    NearRootIsRoot(a, b, c, s, (-b - s) / (2.0 * a));
    (-b - s) / (2.0 * a)
  }

  /** `ray.origin + ray.direction * t` at the near root. */
  function HitPosition(ray: Ray, sphere: Sphere, lib: MathLib): Vector3
    requires lib.Valid() && Hits(ray, sphere)
    requires Vector3.Dot(ray.direction, ray.direction) > 0.0
  {
    ray.origin.Add(ray.direction.Scale(NearRoot(ray, sphere, lib)))
  }

  /** For a sphere centred at the origin, where the as-written test is the
      textbook one, the near-root point lies on the sphere's surface. */
  lemma CentredHitOnSurface(ray: Ray, sphere: Sphere, lib: MathLib)
    requires lib.Valid() && Hits(ray, sphere)
    requires Vector3.Dot(ray.direction, ray.direction) > 0.0
    requires sphere.position == Vector3.Zero()
    ensures HitPosition(ray, sphere, lib).Sub(sphere.position).LengthSquared() == sphere.radius * sphere.radius
  {
    var center := ray.origin.Sub(sphere.position);
    var d := ray.direction;
    var t := NearRoot(ray, sphere, lib);
    assert center == ray.origin;
    assert HitPosition(ray, sphere, lib).Sub(sphere.position) == center.Add(d.Scale(t));
    ExpandAlongRay(center, d, t);
  }

  /** |c + t * d|^2 as a polynomial in t. */
  lemma ExpandAlongRay(c: Vector3, d: Vector3, t: real)
    ensures c.Add(d.Scale(t)).LengthSquared() ==
      Vector3.Dot(c, c) + 2.0 * Vector3.Dot(c, d) * t + Vector3.Dot(d, d) * t * t
  {
    var p := c.Add(d.Scale(t));
    assert p.x * p.x == c.x * c.x + 2.0 * c.x * d.x * t + d.x * d.x * t * t;
    assert p.y * p.y == c.y * c.y + 2.0 * c.y * d.y * t + d.y * d.y * t * t;
    assert p.z * p.z == c.z * c.z + 2.0 * c.z * d.z * t + d.z * d.z * t * t;
  }

  /** The quadratic formula's near root is a root. */
  lemma NearRootIsRoot(a: real, b: real, c: real, s: real, t: real)
    requires 0.0 < a && s * s == b * b - 4.0 * a * c && t == (-b - s) / (2.0 * a)
    ensures a * t * t + b * t + c == 0.0
  {
    assert 2.0 * a * t == -b - s;
    assert (2.0 * a * t + b) * (2.0 * a * t + b) == s * s;
    assert 4.0 * a * (a * t * t + b * t + c) == (2.0 * a * t + b) * (2.0 * a * t + b) - (b * b - 4.0 * a * c);
    ProductZero(4.0 * a, a * t * t + b * t + c);
  }

  /** Cauchy-Schwarz in three dimensions, through Lagrange's identity. */
  lemma DotSquaredBound(n: Vector3, l: Vector3)
    ensures Vector3.Dot(n, l) * Vector3.Dot(n, l) <= n.LengthSquared() * l.LengthSquared()
  {
    var p := n.x * l.y - n.y * l.x;
    var q := n.y * l.z - n.z * l.y;
    var w := n.z * l.x - n.x * l.z;
    assert n.LengthSquared() * l.LengthSquared() - Vector3.Dot(n, l) * Vector3.Dot(n, l) == p * p + q * q + w * w;
    assert 0.0 <= p * p && 0.0 <= q * q && 0.0 <= w * w;
  }

  /** A non-negative number whose square is at most `m * m`, for `m >= 0`, is at most `m`. */
  lemma SquareBound(r: real, m: real)
    requires 0.0 <= m && r * r <= m * m
    ensures r <= m
  {
    if r > m {
      MulPositive(r - m, r + m);
    }
  }

  lemma MulPositive(a: real, b: real)
    requires 0.0 < a && 0.0 < b
    ensures 0.0 < a * b
  {
  }

  /** `max(dot(normalize(hitPosition), -light), 0)`. When the hit position
      is the zero vector, `normalize` produces NaN components, and the
      comparison `a > b` inside `max` then fails, giving 0. The factor is
      never negative and never exceeds the light's length. */
  function LightAmount(hitPosition: Vector3, light: Vector3, lib: MathLib): (r: real)
    requires lib.Valid()
    ensures 0.0 <= r <= light.Length(lib)
    ensures hitPosition != Vector3.Zero() ==>
      r == Max(Vector3.Dot(Vector3.Normalize(hitPosition, lib), light.Neg()), 0.0)
    ensures hitPosition == Vector3.Zero() ==> r == 0.0
  {
    if hitPosition == Vector3.Zero() then 0.0
    else
      var normal := Vector3.Normalize(hitPosition, lib);
      var dot := Vector3.Dot(normal, light.Neg());
      DotSquaredBound(normal, light.Neg());
      assert light.Neg().LengthSquared() == light.LengthSquared();
      SquareBound(dot, light.Length(lib));
      Max(dot, 0.0)
  }

  /** `1.0f / gamma` with `gamma = 2.2f`. */
  const GammaExponent: real := 1.0 / 2.2

  /** The colour of a hit: the sphere's colour times the light factor, then
      raised to `1 / 2.2` per channel when gamma correction is on. */
  function ShadeHit(ray: Ray, sphere: Sphere, light: Vector3, gammaCorrection: bool, lib: MathLib): Color
    requires lib.Valid() && Hits(ray, sphere)
    requires Vector3.Dot(ray.direction, ray.direction) > 0.0
  {
    Shade(sphere.color, LightAmount(HitPosition(ray, sphere, lib), light, lib), gammaCorrection, lib)
  }

  /** `color * light`, then `Color::pow(color, 1 / gamma)` when gamma
      correction is on. */
  function Shade(color: Color, light: real, gammaCorrection: bool, lib: MathLib): Color
    requires lib.Valid()
  {
    var shaded := Colors.Scale(color, light);
    if gammaCorrection then Pow(shaded, GammaExponent, lib) else shaded
  }

  /** With gamma correction each channel of the shaded colour is the
      uncorrected channel raised to `1 / 2.2`. */
  lemma ShadeHitGamma(ray: Ray, sphere: Sphere, light: Vector3, lib: MathLib)
    requires lib.Valid() && Hits(ray, sphere)
    requires Vector3.Dot(ray.direction, ray.direction) > 0.0
    ensures var plain := ShadeHit(ray, sphere, light, false, lib);
      ShadeHit(ray, sphere, light, true, lib) ==
        Rgb(lib.pow(plain.red, GammaExponent), lib.pow(plain.green, GammaExponent), lib.pow(plain.blue, GammaExponent))
  {
    ShadeFactors(sphere.color, LightAmount(HitPosition(ray, sphere, lib), light, lib), lib);
  }

  /** Without gamma correction, a unit-length light only attenuates the
      sphere's colour, by a factor in [0, 1]. */
  lemma ShadeHitAttenuates(ray: Ray, sphere: Sphere, light: Vector3, lib: MathLib)
    requires lib.Valid() && Hits(ray, sphere)
    requires Vector3.Dot(ray.direction, ray.direction) > 0.0
    requires light.LengthSquared() == 1.0
    ensures var k := LightAmount(HitPosition(ray, sphere, lib), light, lib);
      0.0 <= k <= 1.0 &&
      ShadeHit(ray, sphere, light, false, lib) == Rgb(sphere.color.red * k, sphere.color.green * k, sphere.color.blue * k)
  {
    var k := LightAmount(HitPosition(ray, sphere, lib), light, lib);
    SqrtPositive(lib, 1.0);
    assert light.Length(lib) == 1.0;
    ShadeFactors(sphere.color, k, lib);
  }

  /** Gamma correction raises each channel of the attenuated colour to
      `1 / 2.2`; a factor in [0, 1] attenuates each channel exactly. */
  lemma ShadeFactors(color: Color, k: real, lib: MathLib)
    requires lib.Valid()
    ensures var plain := Shade(color, k, false, lib);
      Shade(color, k, true, lib) ==
        Rgb(lib.pow(plain.red, GammaExponent), lib.pow(plain.green, GammaExponent), lib.pow(plain.blue, GammaExponent))
    ensures 0.0 <= k <= 1.0 ==> Shade(color, k, false, lib) == Rgb(color.red * k, color.green * k, color.blue * k)
  {
  }

  /** The sky: `mix(Color(0.5, 0.7, 1.0), Color(1, 1, 1), v * 1.3)`. The
      gradient itself is not clamped; `mix` clamps it. The upper half of the
      frame is pure sky blue, from `v >= 1 / 1.3` on it is white, and in
      between red and green rise linearly with the gradient. */
  function SkyColor(v: real): (r: Color)
    ensures 0.0 <= v * 1.3 <= 1.0 ==> r == Rgb(0.5 + 0.5 * (v * 1.3), 0.7 + 0.3 * (v * 1.3), 1.0)
    ensures 0.5 <= r.red <= 1.0 && 0.7 <= r.green <= 1.0 && r.blue == 1.0
    ensures v <= 0.0 ==> r == Rgb(0.5, 0.7, 1.0)
    ensures v * 1.3 >= 1.0 ==> r == Rgb(1.0, 1.0, 1.0)
  {
    var gradient := v * 1.3;
    Mix(NewColor(0.5, 0.7, 1.0), NewColor(1.0, 1.0, 1.0), gradient)
  }

  /** The colour the loop paints at pixel (x, y). */
  function PixelColor(pass: RenderPass, x: nat, y: nat): Color
    requires pass.lib.Valid() && x < pass.width && y < pass.height
  {
    var ray := PrimaryRay(pass.world.camera.origin, pass.width, pass.height, pass.aspectRatio, x, y);
    match FirstHit(pass.world.spheres, ray) {
      case Some(i) => ShadeHit(ray, pass.world.spheres[i], pass.world.light, pass.gammaCorrection, pass.lib)
      case None => SkyColor(ray.direction.y)
    }
  }

  /** The ray of pixel (x, y) in a pass. */
  function PixelRay(pass: RenderPass, x: nat, y: nat): Ray
    requires x < pass.width && y < pass.height
  {
    PrimaryRay(pass.world.camera.origin, pass.width, pass.height, pass.aspectRatio, x, y)
  }

  /** First hit wins: the pixel takes the shade of the lowest-index sphere
      the ray hits, and appending spheres to the list, even ones nearer the
      camera, never changes it. */
  lemma FirstHitWins(pass: RenderPass, x: nat, y: nat, i: nat, extra: seq<Sphere>)
    requires pass.lib.Valid() && x < pass.width && y < pass.height
    requires i < |pass.world.spheres| && Hits(PixelRay(pass, x, y), pass.world.spheres[i])
    requires forall j :: 0 <= j < i ==> !Hits(PixelRay(pass, x, y), pass.world.spheres[j])
    ensures PixelColor(pass, x, y) ==
      ShadeHit(PixelRay(pass, x, y), pass.world.spheres[i], pass.world.light, pass.gammaCorrection, pass.lib)
    ensures PixelColor(pass.(world := pass.world.(spheres := pass.world.spheres + extra)), x, y) == PixelColor(pass, x, y)
  {
    FirstHitIgnoresLater(pass.world.spheres, extra, PixelRay(pass, x, y), i);
  }

  /** Gamma correction touches only hit pixels: a pixel whose ray misses
      every sphere is the sky colour whether the flag is on or off. */
  lemma BackgroundIgnoresGamma(pass: RenderPass, x: nat, y: nat, gammaCorrection: bool)
    requires pass.lib.Valid() && x < pass.width && y < pass.height
    requires forall j :: 0 <= j < |pass.world.spheres| ==> !Hits(PixelRay(pass, x, y), pass.world.spheres[j])
    ensures PixelColor(pass, x, y) == SkyColor(ScreenCoordinate(y, pass.height))
    ensures PixelColor(pass.(gammaCorrection := gammaCorrection), x, y) == PixelColor(pass, x, y)
  {
  }

  /** The frame a pass paints, as rows of pixel quads, top row first:
      row y, pixel x holds the bytes of `PixelColor(pass, x, y)`
      (`ImageAt`). */
  function Image(pass: RenderPass, order: ByteOrder): (image: seq<seq<Quad>>)
    requires pass.lib.Valid()
    ensures |image| == pass.height && Rectangular(image, pass.width)
  {
    seq(pass.height, (y: int) requires 0 <= y < pass.height =>
      seq(pass.width, (x: int) requires 0 <= x < pass.width => ColorQuad(PixelColor(pass, x, y), order)))
  }

  /** Pixel (x, y) of the image is the quad of the pixel's colour. */
  lemma ImageAt(pass: RenderPass, order: ByteOrder, x: nat, y: nat)
    requires pass.lib.Valid() && x < pass.width && y < pass.height
    ensures Image(pass, order)[y][x] == ColorQuad(PixelColor(pass, x, y), order)
  {
  }

  /** `image` holds, at row y and column x, the bytes of the colour the
      pass paints at pixel (x, y). */
  ghost predicate Paints(image: seq<seq<Quad>>, pass: RenderPass, order: ByteOrder)
    requires pass.lib.Valid()
  {
    |image| == pass.height && Rectangular(image, pass.width) &&
    forall x: nat, y: nat {:trigger PixelColor(pass, x, y)} :: x < pass.width && y < pass.height ==>
      image[y][x] == ColorQuad(PixelColor(pass, x, y), order)
  }

  /** The image of a pass is painted by that pass. */
  lemma ImagePaints(pass: RenderPass, order: ByteOrder)
    requires pass.lib.Valid()
    ensures Paints(Image(pass, order), pass, order)
  {
    forall x: nat, y: nat | x < pass.width && y < pass.height
      ensures Image(pass, order)[y][x] == ColorQuad(PixelColor(pass, x, y), order)
    {
      ImageAt(pass, order, x, y);
    }
  }
}
