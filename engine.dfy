/** The `Engine` class of src/engine.hpp: the window sizes, the flags the
    overlay toggles, the scene, and the streaming texture's pixel memory;
    `OnRender` paints every pixel of the drawable through `SetPixel`, and
    `OnMouseEvent` moves the light and the camera. */
module Engine {
  import opened MathUtil
  import opened CMath
  import opened Vectors
  import opened Colors
  import opened Cameras
  import opened Rays
  import opened Worlds
  import opened Framebuffer
  import opened Render
  import opened MouseMapping

  /** `struct Size`; its default constructor gives 0 by 0. */
  datatype Size = Size(width: int, height: int)

  class Engine {
    /** The window size in screen coordinates. */
    var viewport: Size
    /** The drawable size in pixels, larger than `viewport` on a
        high-density display; the frame buffer has this size. */
    var virtualViewport: Size
    var aspectRatio: real

    var isGammaCorrectionEnabled: bool
    var isMouseMovingLight: bool
    var isMouseMovingCamera: bool
    var isRunning: bool

    var world: World

    /** The locked texture's memory, null until the frame buffer exists. */
    var pixels: array?<byte>

    /** Every `SetPixel` call so far, in order. */
    ghost var trace: seq<Pixel>

    const lib: MathLib
    const byteOrder: ByteOrder

    /** Both sizes are non-negative, the window is not empty, and the aspect
        ratio is the window's. */
    ghost predicate Valid()
      reads this`viewport, this`virtualViewport, this`aspectRatio
    {
      lib.Valid() &&
      viewport.width > 0 && viewport.height > 0 &&
      virtualViewport.width >= 0 && virtualViewport.height >= 0 &&
      aspectRatio == viewport.width as real / viewport.height as real
    }

    /** The member initialisers: an 800 by 450 window whose drawable size
        is taken to be the same until `Init` asks the platform, gamma
        correction on, neither mouse mode on, and the default scene. */
    constructor(lib: MathLib, byteOrder: ByteOrder)
      requires lib.Valid()
      ensures Valid()
      ensures viewport == Size(800, 450) && virtualViewport == viewport
      ensures aspectRatio == 800.0 / 450.0
      ensures isGammaCorrectionEnabled && !isMouseMovingLight && !isMouseMovingCamera && isRunning
      ensures world == DefaultWorld(lib)
      ensures pixels == null && trace == []
      ensures this.lib == lib && this.byteOrder == byteOrder
    {
      this.lib := lib;
      this.byteOrder := byteOrder;
      viewport := Size(800, 450);
      virtualViewport := Size(800, 450);
      aspectRatio := 800 as real / 450 as real;
      isGammaCorrectionEnabled := true;
      isMouseMovingLight := false;
      isMouseMovingCamera := false;
      isRunning := true;
      world := DefaultWorld(lib);
      pixels := null;
      trace := [];
    }

    /** The sizing step of `init` and `createFrameBuffer`: the window size
        and the drawable size as the platform reports them, the aspect
        ratio of the window, and a frame buffer of the drawable's size with
        rows packed four bytes per pixel. */
    method Init(windowSize: Size, drawableSize: Size)
      requires Valid()
      requires windowSize.width > 0 && windowSize.height > 0
      requires drawableSize.width >= 0 && drawableSize.height >= 0
      modifies this
      ensures Valid()
      ensures viewport == windowSize && virtualViewport == drawableSize
      ensures aspectRatio == windowSize.width as real / windowSize.height as real
      ensures pixels != null && fresh(pixels)
      ensures pixels.Length == 4 * drawableSize.width * drawableSize.height
      ensures world == old(world) && trace == old(trace)
      ensures isGammaCorrectionEnabled == old(isGammaCorrectionEnabled)
      ensures isMouseMovingLight == old(isMouseMovingLight)
      ensures isMouseMovingCamera == old(isMouseMovingCamera)
      ensures isRunning == old(isRunning)
    {
      viewport := windowSize;
      virtualViewport := drawableSize;
      aspectRatio := viewport.width as real / viewport.height as real;
      pixels := new byte[4 * drawableSize.width * drawableSize.height](_ => 0);
    }

    /** What one `OnRender` call reads. */
    ghost function Pass(): RenderPass
      reads this`world, this`virtualViewport, this`aspectRatio, this`isGammaCorrectionEnabled
      requires virtualViewport.width >= 0 && virtualViewport.height >= 0
    {
      RenderPass(world, virtualViewport.width, virtualViewport.height,
        aspectRatio, isGammaCorrectionEnabled, lib)
    }

    /** `setPixel(x, y, color)`: the four bytes at `(y * width + x) * 4`,
        width being the drawable's, receive the colour in the platform's
        byte order, and nothing else changes. The source checks no bounds;
        the offset has to lie inside the buffer. */
    method SetPixel(x: int, y: int, color: Color)
      requires pixels != null
      requires 0 <= (y * virtualViewport.width + x) * 4
      requires (y * virtualViewport.width + x) * 4 + 4 <= pixels.Length
      modifies pixels, this`trace
      ensures pixels[..] == Put(old(pixels[..]), (y * virtualViewport.width + x) * 4, ColorQuad(color, byteOrder))
      ensures trace == old(trace) + [(x, y)]
    {
      var offset := (y * virtualViewport.width + x) * 4;
      match byteOrder {
        case BigEndian =>
          pixels[offset + 0] := 255;
          pixels[offset + 1] := ChannelByte(color.red);
          pixels[offset + 2] := ChannelByte(color.green);
          pixels[offset + 3] := ChannelByte(color.blue);
        case LittleEndian =>
          pixels[offset + 0] := ChannelByte(color.blue);
          pixels[offset + 1] := ChannelByte(color.green);
          pixels[offset + 2] := ChannelByte(color.red);
          pixels[offset + 3] := 255;
      }
      trace := trace + [(x, y)];
    }


    /** `onRender`: every pixel of the drawable, row by row, is painted
        exactly once with the colour `PixelColor` gives it, so the buffer
        ends up holding the pass's image in the engine's packed layout, and
        the bytes beyond it are untouched (`BlitBeyondFrame`). */
    method OnRender()
      requires Valid() && pixels != null
      requires virtualViewport.height * (4 * virtualViewport.width) <= pixels.Length
      modifies pixels, this`trace
      ensures pixels[..] == Blit(old(pixels[..]), Image(Pass(), byteOrder),
        virtualViewport.width, 4 * virtualViewport.width, virtualViewport.height)
      ensures trace == old(trace) + RowMajor(virtualViewport.width, virtualViewport.height)
    {
      ghost var pass := Pass();
      ImagePaints(pass, byteOrder);
      RenderRows(pass, Image(pass, byteOrder));
    }

    /** `onRender`'s row loop, over an image known only through `Paints`. */
    method RenderRows(ghost pass: RenderPass, ghost image: seq<seq<Quad>>)
      requires virtualViewport.width >= 0 && virtualViewport.height >= 0
      requires pass == Pass() && pass.lib.Valid() && Paints(image, pass, byteOrder)
      requires pixels != null
      requires virtualViewport.height * (4 * virtualViewport.width) <= pixels.Length
      modifies pixels, this`trace
      ensures pixels[..] == Blit(old(pixels[..]), image,
        virtualViewport.width, 4 * virtualViewport.width, virtualViewport.height)
      ensures trace == old(trace) + RowMajor(virtualViewport.width, virtualViewport.height)
    {
      ghost var start := pixels[..];
      ghost var width, stride := virtualViewport.width, 4 * virtualViewport.width;
      for y := 0 to virtualViewport.height
        invariant pixels[..] == Blit(start, image, width, stride, y)
        invariant trace == old(trace) + RowMajor(width, y)
      {
        ghost var rowStart := pixels[..];
        RowFits(y, virtualViewport.height, stride, |rowStart|);
        RenderRow(y, pass, image);
        AppendAssociates(old(trace), RowMajor(width, y), Row(y, width));
        assert Blit(start, image, width, stride, y + 1) == BlitRow(rowStart, image[y], y * stride, width);
      }
    }

    /** The body of `onRender`'s row loop: pixels 0 to width - 1 of row y,
        left to right. */
    method RenderRow(y: int, ghost pass: RenderPass, ghost image: seq<seq<Quad>>)
      requires virtualViewport.width >= 0 && 0 <= y < virtualViewport.height
      requires pass == Pass() && pass.lib.Valid() && Paints(image, pass, byteOrder)
      requires pixels != null
      requires virtualViewport.height * (4 * virtualViewport.width) <= pixels.Length
      modifies pixels, this`trace
      ensures (RowFits(y, virtualViewport.height, 4 * virtualViewport.width, pixels.Length);
        pixels[..] == BlitRow(old(pixels[..]), image[y], y * (4 * virtualViewport.width), virtualViewport.width))
      ensures trace == old(trace) + Row(y, virtualViewport.width)
    {
      ghost var rowStart := pixels[..];
      ghost var width, height := virtualViewport.width, virtualViewport.height;
      ghost var base := y * (4 * width);
      RowFits(y, height, 4 * width, |rowStart|);
      for x := 0 to virtualViewport.width
        invariant pixels[..] == BlitRow(rowStart, image[y], base, x)
        invariant trace == old(trace) + Row(y, x)
      {
        ghost var before := pixels[..];
        PixelFits(width, height, x, y, pixels.Length);
        RenderPixel(x, y, pass, image);
        AppendAssociates(old(trace), Row(y, x), [(x, y)]);
        assert pixels[..] == Put(before, base + 4 * x, image[y][x]);
      }
    }

    /** The body of `onRender`'s pixel loop: the camera ray through the
        pixel, the spheres tried in list order until one passes the
        discriminant test, and one `setPixel` with that sphere's shade or,
        when none passes, the sky gradient. */
    method RenderPixel(x: int, y: int, ghost pass: RenderPass, ghost image: seq<seq<Quad>>)
      requires 0 <= x < virtualViewport.width && 0 <= y < virtualViewport.height
      requires pass == Pass() && pass.lib.Valid() && Paints(image, pass, byteOrder)
      requires pixels != null
      requires 0 <= (y * virtualViewport.width + x) * 4
      requires (y * virtualViewport.width + x) * 4 + 4 <= pixels.Length
      modifies pixels, this`trace
      ensures pixels[..] == Put(old(pixels[..]), (y * virtualViewport.width + x) * 4, image[y][x])
      ensures trace == old(trace) + [(x, y)]
    {
      var ray := PrimaryRay(world.camera.origin, virtualViewport.width, virtualViewport.height, aspectRatio, x, y);

      var hasHitAnObject := false;
      for i := 0 to |world.spheres|
        invariant !hasHitAnObject
        invariant forall j :: 0 <= j < i ==> !Hits(ray, world.spheres[j])
        invariant pixels[..] == old(pixels[..]) && trace == old(trace)
      {
        var sphere := world.spheres[i];
        if Discriminant(ray, sphere) >= 0.0 {
          var color := ShadeHit(ray, sphere, world.light, isGammaCorrectionEnabled, lib);
          FirstHitIgnoresLater(world.spheres, [], ray, i);
          SetPixel(x, y, color);
          hasHitAnObject := true;
          break;
        }
      }

      if !hasHitAnObject {
        var color := SkyColor(ray.direction.y);
        SetPixel(x, y, color);
      }
      assert image[y][x] == ColorQuad(PixelColor(pass, x, y), byteOrder);
    }

    /** `onMouseEvent`: a position on or outside the drawable's edges is
        ignored. Otherwise the position is divided by the window size; the
        light's x and y follow it when the light mode is on; the camera's x
        and y follow it when the camera mode is on and are reset to 0 when
        it is off. Nothing else changes. */
    method OnMouseEvent(x: int, y: int)
      requires Valid()
      modifies this`world
      ensures (x <= 0 || x >= virtualViewport.width || y <= 0 || y >= virtualViewport.height) ==>
        world == old(world)
      ensures !(x <= 0 || x >= virtualViewport.width || y <= 0 || y >= virtualViewport.height) ==>
        var nX, nY := Normalised(x, viewport.width), Normalised(y, viewport.height);
        world == old(world).(
          light := if isMouseMovingLight
            then old(world).light.(x := LightCoordinate(nX), y := LightCoordinate(nY))
            else old(world).light,
          camera := Camera(old(world).camera.origin.(
            x := if isMouseMovingCamera then CentredCoordinate(nX) else 0.0,
            y := if isMouseMovingCamera then CentredCoordinate(nY) else 0.0)))
    {
      if x <= 0 || x >= virtualViewport.width || y <= 0 || y >= virtualViewport.height {
        return;
      }
      var nX, nY := x as real / viewport.width as real, y as real / viewport.height as real;

      if isMouseMovingLight {
        world := world.(light := world.light.(x := (1.0 - nX) * 4.0 - 2.0));
        world := world.(light := world.light.(y := (1.0 - nY) * 4.0 - 2.0));
      }

      if isMouseMovingCamera {
        world := world.(camera := Camera(world.camera.origin.(x := nX * 2.0 - 1.0)));
        world := world.(camera := Camera(world.camera.origin.(y := nY * 2.0 - 1.0)));
      } else {
        world := world.(camera := Camera(world.camera.origin.(x := 0.0)));
        world := world.(camera := Camera(world.camera.origin.(y := 0.0)));
      }
    }
  }

  /** In a buffer of `height` rows of `4 * width` bytes, the engine's offset
      `(y * width + x) * 4` of a pixel of the frame is the packed layout's
      `Offset` with a stride of four bytes per pixel, and the pixel's row
      lies inside the buffer. */
  lemma PixelFits(width: int, height: int, x: int, y: int, length: int)
    requires 0 <= x < width && 0 <= y < height && height * (4 * width) <= length
    ensures (y * width + x) * 4 == y * (4 * width) + 4 * x
    ensures 0 <= (y * width + x) * 4 && (y * width + x) * 4 + 4 <= length
    ensures y * (4 * width) + 4 * width <= length
  {
    MulMonotone(y + 1, height, 4 * width);
  }

  /** When the window is the same size as the drawable, a position the
      guard lets through moves the light's x and y to strictly inside
      (-2, 2). */
  lemma MouseLightInRange(windowWidth: int, windowHeight: int, x: int, y: int)
    requires 0 < x < windowWidth && 0 < y < windowHeight
    ensures -2.0 < LightCoordinate(Normalised(x, windowWidth)) < 2.0
    ensures -2.0 < LightCoordinate(Normalised(y, windowHeight)) < 2.0
  {
    GuardedNormalised(x, windowWidth, windowWidth);
    GuardedNormalised(y, windowHeight, windowHeight);
  }
}
