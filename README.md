# A verified model of a small CPU ray tracer

The repository is a small ray tracer written in C++ on SDL. Once per frame,
a loop over the drawable's pixels builds a camera ray for each pixel. It
tests the scene's spheres in list order with a ray-sphere discriminant and
shades the first sphere that passes with flat normal lighting, optionally
gamma-corrected. When no sphere passes, it paints a sky gradient. Each
colour is written as four bytes into a locked streaming texture. Mouse
motion moves the light (and, in the engine, the camera). The repository
carries two variants of this loop:
- the `Engine` class of src/engine.hpp;
- the older single-file program of src/main.cpp, driven by globals, with a
  pitch-addressed `setPixel` and no gamma step.

The model has these modules:

- `MathUtil` (math.dfy): `max` and `clamp` over `real`.
- `CMath` (cmath.dfy): `sqrtf` and the per-channel power behind
  `Color::pow`. These are passed in as function values of a `MathLib`, and
  `Valid()` states the laws the proofs use.
- `Vectors` (vector.dfy): `Vector3` and `Vector2` as datatypes with their
  operators, `dot`, `lengthSquared`, `length` and `normalize`.
- `Colors` (color.dfy):
  - `Color` is a subset type of `Rgb` whose channels lie in [0, 1];
  - `NewColor` is the clamping constructor, and `*`, `+`, `-` and `mix` are
    built from it;
  - `Pow` is the assumed `Color::pow`.
- The records `Spheres.Sphere`, `Rays.Ray` and `Cameras.Camera` (sphere.dfy,
  ray.dfy, camera.dfy), and `Worlds.DefaultWorld` (world.dfy).
  - The records are plain datatypes: each constructor stores its fields as
    given, with no checks, and those fields are the only state.
  - A sphere's radius may be any real, and a ray's direction is neither
    normalised nor required to be non-zero.
  - A `Sphere`'s colour has type `Color`, so its channels are in [0, 1].
- `Framebuffer` (framebuffer.dfy):
  - the byte conversion `(uint8_t)(c * 255.0)`;
  - the B, G, R, 255 and 255, R, G, B quads of the two byte orders;
  - `Put`, the write of one pixel;
  - `Blit`, which paints a whole image in row-major order into rows
    `stride` bytes apart;
  - the row-major pixel order (`RowMajor`), which is the "every pixel
    exactly once" statement.
- `Render` (render.dfy), the per-pixel algorithm both loops share:
  - the primary ray, the as-written discriminant and the first-hit search;
  - the near root, the light factor, the gamma step and the sky;
  - `PixelColor`, the colour of pixel (x, y) in a `RenderPass`;
  - `Image`, the whole frame as rows of quads.
- `MouseMapping` (mouse.dfy): the normalisation of a mouse position and the
  affine maps onto the light's and the camera's coordinates.
- `Engine` (engine.dfy): class `Engine`, with `Init`'s sizing, `SetPixel`,
  `OnRender` and `OnMouseEvent`.
- `Prototype` (main.dfy): class `App` for src/main.cpp, with `SetPixel`,
  `OnFrame`, `OnMouseMove` and the conditional texture lock.

The render loops write into an `array<byte>`. Each loop is proved against
the pure specification. After `OnRender` the buffer is equal to
`Blit(old buffer, Image(pass), width, 4 * width, height)`. A ghost trace of
`SetPixel` calls is equal to `RowMajor(width, height)`.
`RowMajorExactlyOnce` shows that this trace lists each pixel of the frame
exactly once. `BlitAt`, `BlitBeyondFrame` and `BlitKeepsPadding` say which
byte then holds what.

These quirks of the source are reproduced, not corrected:
- The discriminant's `c` is `dot(center, ray.origin)` instead of
  `dot(center, center)`. `DiscriminantQuirk` states the price of this.
- The normal is `normalize(hitPosition)`, not taken relative to the
  sphere's centre.
- The first sphere in list order that passes the test wins, with no
  nearest-root comparison.
- `onMouseEvent` guards the position against the drawable size but
  divides it by the window size.

## Model

| member | source | states |
|---|---|---|
| MathUtil.Max | src/math.hpp:3-6 | the result is at least both arguments and is one of them |
| MathUtil.Clamp | src/math.hpp:8-11 | the result is in [lo, hi] for ordered bounds; values in [lo, hi] are kept; above `hi` gives `hi` even for disordered bounds, because the upper test comes first; below `lo` gives `lo` |
| MathUtil.ClampIdempotent | src/math.hpp:9-10 | clamping twice is the same as clamping once |
| MathUtil.ClampMonotone | src/math.hpp:9-10 | with ordered bounds, clamping preserves the order of its inputs |
| Colors.NewColor | src/color.hpp:10 | every channel of the result is in [0, 1] for any real input; an in-range input is stored unchanged; an input above 1 becomes 1 and one below 0 becomes 0 |
| Colors.NewColorIdempotent | src/color.hpp:10 | constructing from an already constructed colour's channels gives the same colour |
| Colors.Scale | src/color.hpp:12-14 | for a non-negative factor each channel is the product capped at 1, `min(c * s, 1)`; a factor in [0, 1] scales every channel exactly; a factor of 0 or less gives black; a factor of at least 1 never darkens a channel |
| Colors.Add | src/color.hpp:16-18 | each channel is the sum when that is at most 1, and 1 otherwise |
| Colors.Sub | src/color.hpp:20-22 | each channel is the difference when that is non-negative, and 0 otherwise |
| Colors.Mix | src/color.hpp:24-32 | for a mixture in [0, 1] each channel is the blend `a * (1 - t) + b * t`; each channel lies between the channels of `a` and `b`; a mixture of 0 or less gives `a` and one of 1 or more gives `b` |
| Colors.Lerp | src/color.hpp:27-31 | the interpolation between two in-range channels is in range and between them, and factors 0 and 1 give the ends |
| Colors.MixClampsMixture | src/color.hpp:25 | `mix(a, b, t)` equals `mix(a, b, clamp(t, 0, 1))` |
| Colors.Pow | src/engine.hpp:452 | each channel is the library power of the input channel; exponent 1 gives the colour back |
| Vectors.Vector3.Splat | src/vector.hpp:12 | all three components are the given value |
| Vectors.Vector3.FromInts | src/vector.hpp:10 | the components are the integers, converted exactly |
| Vectors.Vector3.Zero | src/vector.hpp:66-68 | `ZERO()` broadcasts 0 |
| Vectors.Vector3.One | src/vector.hpp:70-72 | `ONE()` broadcasts 1 |
| Vectors.Vector3.Add | src/vector.hpp:29-31 | no contract of its own: the componentwise sum; `AddLaws` and `DotLinear` state its laws, and `Sub` undoes it |
| Vectors.Vector3.Scale | src/vector.hpp:37-39 | no contract of its own: the componentwise product; `Div` undoes it, `Neg` is scaling by -1, and `DotLinear` shows `dot` commutes with it |
| Vectors.Vector3.Dot | src/vector.hpp:55-57 | no contract of its own; `DotSymmetric` and `DotLinear` state its laws, and `LengthSquared` equals `Dot(v, v)` |
| Vectors.Vector3.LengthSquared | src/vector.hpp:15-17 | equals `dot(v, v)`, is non-negative, and is zero only for the zero vector |
| Vectors.Vector3.Length | src/vector.hpp:19-21 | a non-negative root of `lengthSquared()`, zero only for the zero vector |
| Vectors.Vector3.Sub | src/vector.hpp:33-35 | subtraction undoes addition, from either side |
| Vectors.Vector3.Div | src/vector.hpp:41-43 | division by a non-zero divisor undoes scaling by it |
| Vectors.Vector3.Neg | src/vector.hpp:45-47 | the additive inverse, and the same as scaling by -1 |
| Vectors.Vector3.Equals | src/vector.hpp:49-51 | true exactly when all components are equal |
| Vectors.Vector3.Normalize | src/vector.hpp:59-62 | a non-zero vector normalises to length 1, and scaling back by the length restores it |
| Vectors.DotSymmetric | src/vector.hpp:55-57 | `dot` is symmetric |
| Vectors.DotLinear | src/vector.hpp:55-57 | `dot` distributes over `+` and commutes with scaling |
| Vectors.AddLaws | src/vector.hpp:29-31 | `+` is commutative and associative, with `ZERO()` as identity |
| Vectors.Vector2.Splat | src/vector.hpp:83 | both components are the given value |
| Vectors.Vector2.FromInts | src/vector.hpp:81 | the components are the integers, converted exactly |
| Vectors.Vector2.Zero | src/vector.hpp:133-135 | `ZERO()` broadcasts 0 |
| Vectors.Vector2.One | src/vector.hpp:137-139 | `ONE()` broadcasts 1 |
| Vectors.Vector2.Add | src/vector.hpp:100-102 | no contract of its own: the componentwise sum, which `Sub` undoes |
| Vectors.Vector2.Scale | src/vector.hpp:108-110 | no contract of its own: the componentwise product, which `Div` undoes |
| Vectors.Vector2.Dot | src/vector.hpp:122-124 | no contract of its own; `Dot2Symmetric` shows it is symmetric, and `LengthSquared` equals `Dot(v, v)` |
| Vectors.Vector2.LengthSquared | src/vector.hpp:86-88 | equals `dot(v, v)`, is non-negative, and is zero only for the zero vector |
| Vectors.Vector2.Length | src/vector.hpp:90-92 | a non-negative root of `lengthSquared()`, zero only for the zero vector |
| Vectors.Vector2.Sub | src/vector.hpp:104-106 | subtraction undoes addition |
| Vectors.Vector2.Div | src/vector.hpp:112-114 | division by a non-zero divisor undoes scaling |
| Vectors.Vector2.Equals | src/vector.hpp:116-118 | true exactly when both components are equal |
| Vectors.Vector2.Normalize | src/vector.hpp:126-129 | a non-zero vector normalises to length 1 along itself |
| Vectors.Dot2Symmetric | src/vector.hpp:122-124 | `dot` is symmetric |
| Cameras.DefaultCamera | src/camera.hpp:8-9 | the origin is (0, 0, 0), and `Camera()` equals `Camera(Vector3(0, 0, 0))` |
| Worlds.DefaultWorld | src/world.hpp:13-24 | the camera is at (0, 0, 2); the light has unit length and three equal negative components; there are exactly three spheres, red, green and blue, with the given centres and radii, in insertion order |
| MouseMapping.Normalised | src/engine.hpp:331 | the quotient times the extent gives the coordinate back, and a coordinate in [0, extent] maps into [0, 1] |
| MouseMapping.GuardedNormalised | src/engine.hpp:325-331 | a coordinate strictly inside the guard extent normalises to strictly between 0 and guard/extent, which is below 1 only when the guard extent is at most the dividing extent |
| MouseMapping.LightCoordinate | src/engine.hpp:334-335 | `(1 - n) * 4 - 2` maps [0, 1] onto [-2, 2], with 0 giving 2 and 1 giving -2 |
| MouseMapping.CentredCoordinate | src/engine.hpp:340-341 | `n * 2 - 1` maps [0, 1] onto [-1, 1], with the centre giving 0 |
| MouseMapping.LightOpposesCamera | src/engine.hpp:333-346 | the light coordinate is -2 times the camera coordinate; the light is antitone and the camera monotone in the mouse position |
| Framebuffer.ChannelByte | src/engine.hpp:487-494 | the byte is the truncation of `c * 255`, with 0 giving 0 and 1 giving 255 |
| Framebuffer.PixelQuad | src/engine.hpp:484-496 | on both byte orders the quad, read as an ARGB8888 texel, gives alpha 255 and the three truncated channels in their own slots |
| Framebuffer.ColorQuad | src/main.cpp:68-70 | the quad of a colour reads back as alpha 255 and the colour's three truncated channels |
| Framebuffer.Offset | src/main.cpp:43 | no contract of its own: `y * stride + 4 * x`; `OffsetsDisjoint` shows distinct pixels never share a byte, and `Engine.PixelFits` that the engine's `(y * width + x) * 4` is this offset with stride `4 * width` |
| Framebuffer.Row | src/engine.hpp:418 | the x loop's visiting order over row y, with `n` entries; `RowMajorAt` and `RowMajorIndex` locate each pixel in it |
| Framebuffer.RowMajor | src/engine.hpp:417-418 | no contract of its own: the y-then-x visiting order; `RowMajorExactlyOnce` shows it lists every pixel of the frame exactly once |
| Framebuffer.BlitRow | src/engine.hpp:418-472 | keeps the buffer's length; `BlitRowAt` and `BlitRowOutside` state which bytes one painted row sets and keeps |
| Framebuffer.Blit | src/engine.hpp:417-473 | keeps the buffer's length; `BlitAt`, `BlitOutside`, `BlitBeyondFrame` and `BlitKeepsPadding` state what every byte holds after the frame is painted |
| Framebuffer.Put | src/engine.hpp:486-495 | writing a pixel sets exactly the four bytes from the offset and keeps every other byte |
| Framebuffer.OffsetsDisjoint | src/engine.hpp:480 | with rows at least `4 * width` bytes apart, two distinct pixels of the frame occupy disjoint byte ranges |
| Framebuffer.RowMajorExactlyOnce | src/engine.hpp:417-418 | the y-then-x loop order visits every in-frame pixel exactly once, at index `y * width + x`, and nothing outside the frame |
| Framebuffer.BlitAt | src/engine.hpp:417-418 | after the painted rows, byte k of pixel (x, y) holds byte k of that pixel's quad |
| Framebuffer.BlitOutside | src/engine.hpp:417-418 | a byte outside every painted row span keeps its value |
| Framebuffer.BlitBeyondFrame | src/engine.hpp:417-418 | painting a whole frame changes no byte past its last row |
| Framebuffer.BlitKeepsPadding | src/main.cpp:43 | with a pitch wider than the row, painting a whole frame changes none of a row's padding bytes |
| Render.ScreenCoordinate | src/engine.hpp:420-421 | `(i / n) * 2 - 1` lies in [-1, 1) and is 0 at the middle column or row |
| Render.PrimaryRay | src/engine.hpp:420-427 | the ray starts at the camera origin with direction `(u * aspectRatio, v, -1)`, not normalised, and its squared length is at least 1 |
| Render.Discriminant | src/engine.hpp:431-436 | no contract of its own: `b * b - 4 * a * c` with `c = dot(center, origin) - r * r`; `DiscriminantQuirk` relates it to the textbook discriminant |
| Render.Hits | src/engine.hpp:438 | no contract of its own: a sphere is hit exactly when the discriminant is non-negative; `FirstHit` searches by it |
| Render.DiscriminantQuirk | src/engine.hpp:431-436 | the as-written discriminant differs from the textbook one by `4 * a * dot(center, position)`; the two agree for a sphere at the origin |
| Render.FirstHit | src/engine.hpp:429-464 | the index found is the lowest one whose discriminant is non-negative, and there is none exactly when every sphere misses |
| Render.FirstHitIgnoresLater | src/engine.hpp:430-462 | a hit sphere with every earlier one missed is the first hit, whatever spheres follow it |
| Render.NearRoot | src/engine.hpp:439 | `(-b - sqrt(discriminant)) / (2 * a)` is a root of `a * t^2 + b * t + c` with the as-written `c` |
| Render.HitPosition | src/engine.hpp:442 | no contract of its own: `origin + direction * t` at the near root; `CentredHitOnSurface` shows it lies on a sphere at the origin |
| Render.CentredHitOnSurface | src/engine.hpp:439-442 | for a sphere at the origin the near-root point lies on the sphere's surface |
| Render.LightAmount | src/engine.hpp:443-446 | the factor is non-negative and at most the light's length; it is `max(dot(normalize(hit), -light), 0)` for a non-zero hit position and 0 for a zero one |
| Render.Shade | src/engine.hpp:447-453 | no contract of its own: `color * light`, then the power `1 / 2.2` when gamma is on; `ShadeFactors` states both steps per channel |
| Render.ShadeFactors | src/engine.hpp:447-453 | gamma raises each attenuated channel to `1 / 2.2`, and a factor in [0, 1] attenuates each channel exactly |
| Render.ShadeHit | src/engine.hpp:442-453 | no contract of its own: `Shade` of the sphere's colour by `LightAmount` at the near-root hit; `ShadeHitGamma` and `ShadeHitAttenuates` state its value |
| Render.ShadeHitGamma | src/engine.hpp:447-453 | with gamma on, each channel is the uncorrected channel raised to `1 / 2.2` |
| Render.ShadeHitAttenuates | src/engine.hpp:446-447 | without gamma and with a unit light, the hit colour is the sphere's colour scaled exactly by a factor in [0, 1] |
| Render.SkyColor | src/engine.hpp:467-470 | the sky is between sky blue and white with full blue; the upper half of the frame is pure sky blue; for a gradient `g = v * 1.3` in [0, 1] the colour is `(0.5 + 0.5 * g, 0.7 + 0.3 * g, 1)`; from `g >= 1` on it is white |
| Render.PixelColor | src/engine.hpp:419-471 | no contract of its own: the shade of the first sphere hit, or the sky; `FirstHitWins` and `BackgroundIgnoresGamma` state both cases |
| Render.Image | src/engine.hpp:416-474 | the frame has `height` rows of `width` quads, and `ImageAt` shows pixel (x, y) is the quad of `PixelColor(pass, x, y)` |
| Render.FirstHitWins | src/engine.hpp:429-464 | a pixel takes the shade of the lowest-index sphere its ray hits, and appending spheres never changes it |
| Render.BackgroundIgnoresGamma | src/engine.hpp:449-471 | a pixel whose ray misses every sphere is the sky colour of its row, whatever the gamma flag is |
| Engine.Engine.constructor | src/engine.hpp:30-64 | the member initialisers: an 800 by 450 window, gamma on, both mouse modes off, running, and the default world |
| Engine.Engine.Init | src/engine.hpp:90-96 | the window and drawable sizes are the platform's, the aspect ratio is the window's, a frame buffer of drawable size is allocated, and nothing else changes |
| Engine.Engine.SetPixel | src/engine.hpp:476-497 | the four bytes at `(y * width + x) * 4` receive the colour's quad in the platform's byte order, and no other byte changes |
| Engine.Engine.OnRender | src/engine.hpp:416-474 | the buffer becomes the pass's image blitted in the packed layout, and the pixels are written in row-major order, each exactly once |
| Engine.Engine.RenderRows | src/engine.hpp:417-473 | the row loop paints rows 0 to height - 1 of the image and traces them in order |
| Engine.Engine.RenderRow | src/engine.hpp:418-472 | the pixel loop paints pixels 0 to width - 1 of row y and traces them in order |
| Engine.Engine.RenderPixel | src/engine.hpp:419-471 | one pixel is painted exactly once, with the colour `PixelColor` computes |
| Engine.Engine.OnMouseEvent | src/engine.hpp:322-347 | a position on or beyond the drawable's edges changes nothing; otherwise the light's x and y follow the light mode, the camera's x and y follow the camera mode or are reset to 0, and nothing else changes |
| Engine.PixelFits | src/engine.hpp:480 | the engine's offset `(y * width + x) * 4` is the packed layout's offset, inside the buffer |
| Engine.MouseLightInRange | src/engine.hpp:325-335 | a position strictly inside a window of the drawable's size moves the light's x and y to strictly inside (-2, 2) |
| Prototype.FrameAspectRatio | src/main.cpp:78 | the ratio times the height gives back the width |
| Prototype.App.constructor | src/main.cpp:20-36 | the globals' initial values: a 400 by 225 frame, no pixel memory, pitch 0, and the default world |
| Prototype.App.LockTexture | src/main.cpp:220 | the texture memory and pitch are taken only when the surface must be locked |
| Prototype.App.SetPixel | src/main.cpp:38-66 | the four bytes at `y * pitch + x * 4` receive B, G, R, 255 (or 255, R, G, B), and no other byte changes |
| Prototype.App.SetPixelColor | src/main.cpp:68-70 | the colour's channels are forwarded unchanged |
| Prototype.App.OnFrame | src/main.cpp:72-131 | the frame size is the surface's, the aspect ratio is W / H, and the buffer becomes the gamma-free image blitted into rows `pitch` apart, each pixel written exactly once in row-major order |
| Prototype.App.RenderRows | src/main.cpp:80-130 | the row loop paints every row of the image into rows `pitch` apart |
| Prototype.App.RenderRow | src/main.cpp:81-129 | the pixel loop paints row y, left to right |
| Prototype.App.RenderPixel | src/main.cpp:82-128 | one pixel is painted exactly once, with the colour `PixelColor` computes without gamma |
| Prototype.App.OnMouseMove | src/main.cpp:133-158 | with no bounds check, the light's x and y follow the mouse and the first sphere is reset to red when the light switch is on; the sphere switch edits only a copy; `at(0)` on an empty list is reported |

## Left out

- SDL and ImGui are left out: the window, renderer, texture creation, lock and unlock, present, the overlay, `embraceTheDarkness`, the event pump, the main loops and `isRunning`. These are platform calls. The model takes the sizes the platform reports, and the locked memory, as parameters.
- The frame and FPS timers, and the `PIN` and `std::cout` output, are left out. They are clocks and I/O.
- IEEE-754 `float` is modelled as `real`. Rounding, infinities and NaN are not modelled, with one exception: `LightAmount` gives 0 for a zero hit position, which is what `max` does with NaN.
- `sqrtf` and the per-channel power are function parameters constrained by `MathLib.Valid`. Their code is not part of this model.
- Colors.Pow: `Color::pow` is defined nowhere in the repository. It is modelled as the clamping constructor applied to the library power of each channel, and its exponent must be positive.
- Engine.Engine.SetPixel and Prototype.App.SetPixel do not model the `uint32_t` wrap-around of the offset. Their callers must keep the offset inside the buffer; the source checks no bounds.
- Engine.Engine.Init does not model the texture's initial contents and takes them to be zero; only the bytes the renderer writes matter. The streaming texture's pitch is ignored, as the engine ignores it.
- Vector3 and Vector2 `clone()` are left out: a value copy carries no behaviour in a model of values.
- Vectors.Vector3.Normalize and Vectors.Vector2.Normalize require a non-zero vector, because the zero vector divides by a zero length.
- Vectors.Vector3.Div and Vectors.Vector2.Div require a non-zero divisor, because reals have no infinities.
- Prototype.FrameAspectRatio takes 0 for a zero height, where the float division gives infinity or NaN. No pixel reads it then.
- Prototype.App.OnMouseMove requires a non-empty window; the position is divided by its size. The exception that `at(0)` throws on an empty sphere list is modelled as the `outOfRange` result.
- Prototype.App.OnFrame requires texture memory to be present. In the source only the conditional lock at line 220 of src/main.cpp provides it. That lock is modelled by `LockTexture`, but whether SDL reports that the surface of line 189 must be locked is not part of this model.
- The render loops' bodies are separate methods whose contracts are the loops' invariants: `RenderRows`, `RenderRow` and `RenderPixel` in each class.
- The colour operators clamp every result. The code clamps through the constructor in every operator, and the model follows the code.
