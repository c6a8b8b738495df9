/** The older, single-file variant of the renderer in src/main.cpp: global
    frame size, texture memory and pitch, and scene, a `setPixel` that
    addresses rows by the texture's pitch, an `onFrame` render loop without
    the gamma step, and an `onMouseMove` that moves the light. The globals
    are the fields of `App`; the two `#define` switches `MOUSE_MOVE_LIGHT`
    (on) and `MOUSE_MOVE_SPHERE` (off) are constants fixed at construction. */
module Prototype {
  import opened MathUtil
  import opened CMath
  import opened Vectors
  import opened Colors
  import opened Rays
  import opened Worlds
  import opened Framebuffer
  import opened Render
  import opened MouseMapping

  /** `float(width) / float(height)`. A frame with no rows never reads it;
      the model then takes 0 rather than the float division's infinity or
      NaN. */
  function FrameAspectRatio(width: int, height: int): (r: real)
    ensures height != 0 ==> r * height as real == width as real
    ensures height == 0 ==> r == 0.0
  {
    if height == 0 then 0.0 else width as real / height as real
  }

  class App {
    /** The frame size: the surface's in `onFrame`, the window's after `onMouseMove`. */
    var width: int
    var height: int

    /** The locked texture's memory and the byte distance between its rows. */
    var pixels: array?<byte>
    var pitch: int

    var world: World

    /** Every `setPixel` call so far, in order. */
    ghost var trace: seq<Pixel>

    const lib: MathLib
    const byteOrder: ByteOrder
    /** `#define MOUSE_MOVE_LIGHT` and `#define MOUSE_MOVE_SPHERE`. */
    const mouseMovesLight: bool
    const mouseMovesSphere: bool

    /** The globals' initialisers: a 400 by 225 frame, no texture memory
        yet, pitch 0 and the default scene. */
    constructor(lib: MathLib, byteOrder: ByteOrder, mouseMovesLight: bool, mouseMovesSphere: bool)
      requires lib.Valid()
      ensures width == 400 && height == 225
      ensures pixels == null && pitch == 0
      ensures world == DefaultWorld(lib) && trace == []
      ensures this.lib == lib && this.byteOrder == byteOrder
      ensures this.mouseMovesLight == mouseMovesLight && this.mouseMovesSphere == mouseMovesSphere
    {
      this.lib := lib;
      this.byteOrder := byteOrder;
      this.mouseMovesLight := mouseMovesLight;
      this.mouseMovesSphere := mouseMovesSphere;
      width, height := 400, 225;
      pixels, pitch := null, 0;
      world := DefaultWorld(lib);
      trace := [];
    }

    /** `if (SDL_MUSTLOCK(surface)) SDL_LockTexture(texture, nullptr, &pixels, &pitch)`:
        only a surface that must be locked hands out its memory and pitch;
        otherwise both keep their previous values. */
    method LockTexture(mustLock: bool, memory: array<byte>, rowPitch: int)
      modifies this`pixels, this`pitch
      ensures mustLock ==> pixels == memory && pitch == rowPitch
      ensures !mustLock ==> pixels == old(pixels) && pitch == old(pitch)
    {
      if mustLock {
        pixels, pitch := memory, rowPitch;
      }
    }

    /** `setPixel(x, y, r, g, b)`: the four bytes at `y * pitch + x * 4`
        receive the channels in the platform's byte order, and nothing else
        changes. The source checks no bounds; the offset has to lie inside
        the buffer, and the channels in [0, 1] for the byte conversion to
        be defined. */
    method SetPixel(x: int, y: int, r: real, g: real, b: real)
      requires InUnit(r) && InUnit(g) && InUnit(b)
      requires pixels != null
      requires 0 <= y * pitch + x * 4 && y * pitch + x * 4 + 4 <= pixels.Length
      modifies pixels, this`trace
      ensures pixels[..] == Put(old(pixels[..]), y * pitch + x * 4, PixelQuad(r, g, b, byteOrder))
      ensures trace == old(trace) + [(x, y)]
    {
      var offset := y * pitch + x * 4;
      match byteOrder {
        case BigEndian =>
          pixels[offset + 0] := 255;
          pixels[offset + 1] := ChannelByte(r);
          pixels[offset + 2] := ChannelByte(g);
          pixels[offset + 3] := ChannelByte(b);
        case LittleEndian =>
          pixels[offset + 0] := ChannelByte(b);
          pixels[offset + 1] := ChannelByte(g);
          pixels[offset + 2] := ChannelByte(r);
          pixels[offset + 3] := 255;
      }
      trace := trace + [(x, y)];
    }

    /** `setPixel(x, y, Color)`: the colour's channels, unchanged. */
    method SetPixelColor(x: int, y: int, color: Color)
      requires pixels != null
      requires 0 <= y * pitch + x * 4 && y * pitch + x * 4 + 4 <= pixels.Length
      modifies pixels, this`trace
      ensures pixels[..] == Put(old(pixels[..]), y * pitch + x * 4, ColorQuad(color, byteOrder))
      ensures trace == old(trace) + [(x, y)]
    {
      SetPixel(x, y, color.red, color.green, color.blue);
    }

    /** `onFrame`: the frame size is re-read from the surface, the aspect
        ratio is its width over its height, and every pixel of the frame,
        row by row, is painted exactly once with the colour `PixelColor`
        gives it without gamma correction, in rows `pitch` bytes apart. */
    method OnFrame(surfaceWidth: int, surfaceHeight: int)
      requires lib.Valid() && 0 <= surfaceWidth && 0 <= surfaceHeight
      requires pixels != null && 4 * surfaceWidth <= pitch
      requires surfaceHeight * pitch <= pixels.Length
      modifies this`width, this`height, pixels, this`trace
      ensures width == surfaceWidth && height == surfaceHeight
      ensures pixels[..] == Blit(old(pixels[..]),
        Image(RenderPass(world, surfaceWidth, surfaceHeight, FrameAspectRatio(surfaceWidth, surfaceHeight), false, lib), byteOrder),
        surfaceWidth, pitch, surfaceHeight)
      ensures trace == old(trace) + RowMajor(surfaceWidth, surfaceHeight)
    {
      width := surfaceWidth;
      height := surfaceHeight;
      var aspectRatio := FrameAspectRatio(width, height);
      ghost var pass := RenderPass(world, width, height, aspectRatio, false, lib);
      ImagePaints(pass, byteOrder);
      RenderRows(aspectRatio, pass, Image(pass, byteOrder));
    }

    /** `onFrame`'s row loop, over an image known only through `Paints`. */
    method RenderRows(aspectRatio: real, ghost pass: RenderPass, ghost image: seq<seq<Quad>>)
      requires 0 <= width && 0 <= height
      requires pass == RenderPass(world, width, height, aspectRatio, false, lib)
      requires lib.Valid() && Paints(image, pass, byteOrder)
      requires pixels != null && 4 * width <= pitch && height * pitch <= pixels.Length
      modifies pixels, this`trace
      ensures pixels[..] == Blit(old(pixels[..]), image, width, pitch, height)
      ensures trace == old(trace) + RowMajor(width, height)
    {
      ghost var start := pixels[..];
      for y := 0 to height
        invariant pixels[..] == Blit(start, image, width, pitch, y)
        invariant trace == old(trace) + RowMajor(width, y)
      {
        ghost var rowStart := pixels[..];
        RowFits(y, height, pitch, |rowStart|);
        RenderRow(y, aspectRatio, pass, image);
        AppendAssociates(old(trace), RowMajor(width, y), Row(y, width));
        assert Blit(start, image, width, pitch, y + 1) == BlitRow(rowStart, image[y], y * pitch, width);
      }
    }

    /** `onFrame`'s pixel loop over row y, left to right. */
    method RenderRow(y: int, aspectRatio: real, ghost pass: RenderPass, ghost image: seq<seq<Quad>>)
      requires 0 <= width && 0 <= y < height
      requires pass == RenderPass(world, width, height, aspectRatio, false, lib)
      requires lib.Valid() && Paints(image, pass, byteOrder)
      requires pixels != null && 4 * width <= pitch && height * pitch <= pixels.Length
      modifies pixels, this`trace
      ensures (RowFits(y, height, pitch, pixels.Length);
        pixels[..] == BlitRow(old(pixels[..]), image[y], y * pitch, width))
      ensures trace == old(trace) + Row(y, width)
    {
      ghost var rowStart := pixels[..];
      RowFits(y, height, pitch, |rowStart|);
      for x := 0 to width
        invariant pixels[..] == BlitRow(rowStart, image[y], y * pitch, x)
        invariant trace == old(trace) + Row(y, x)
      {
        ghost var before := pixels[..];
        RenderPixel(x, y, aspectRatio, pass, image);
        AppendAssociates(old(trace), Row(y, x), [(x, y)]);
        assert pixels[..] == Put(before, y * pitch + 4 * x, image[y][x]);
      }
    }

    /** The body of `onFrame`'s pixel loop: the camera ray through the
        pixel, the spheres tried in list order until one passes the
        discriminant test, and one `setPixel` with that sphere's flat shade
        or, when none passes, the sky gradient. */
    method RenderPixel(x: int, y: int, aspectRatio: real, ghost pass: RenderPass, ghost image: seq<seq<Quad>>)
      requires 0 <= x < width && 0 <= y < height
      requires pass == RenderPass(world, width, height, aspectRatio, false, lib)
      requires lib.Valid() && Paints(image, pass, byteOrder)
      requires pixels != null && 4 * width <= pitch
      requires 0 <= y * pitch && y * pitch + pitch <= pixels.Length
      modifies pixels, this`trace
      ensures pixels[..] == Put(old(pixels[..]), y * pitch + 4 * x, image[y][x])
      ensures trace == old(trace) + [(x, y)]
    {
      var ray := PrimaryRay(world.camera.origin, width, height, aspectRatio, x, y);

      var hasHitAnObject := false;
      for i := 0 to |world.spheres|
        invariant !hasHitAnObject
        invariant forall j :: 0 <= j < i ==> !Hits(ray, world.spheres[j])
        invariant pixels[..] == old(pixels[..]) && trace == old(trace)
      {
        var sphere := world.spheres[i];
        if Discriminant(ray, sphere) >= 0.0 {
          var color := ShadeHit(ray, sphere, world.light, false, lib);
          FirstHitIgnoresLater(world.spheres, [], ray, i);
          SetPixelColor(x, y, color);
          hasHitAnObject := true;
          break;
        }
      }

      if !hasHitAnObject {
        var color := SkyColor(ray.direction.y);
        SetPixelColor(x, y, color);
      }
      assert image[y][x] == ColorQuad(PixelColor(pass, x, y), byteOrder);
    }

    /** `onMouseMove`: the frame size becomes the window's, and the mouse
        position is divided by it, with no bounds check. With the light
        switch on, the light's x and y follow the mouse and the first
        sphere is painted red again; with the sphere switch on, only a copy
        of the first sphere is moved, so the scene keeps its spheres. Both
        read the first sphere with `at(0)`, which throws on an empty list:
        `outOfRange` reports that, with the light already moved. */
    method OnMouseMove(mouseX: int, mouseY: int, windowWidth: int, windowHeight: int) returns (outOfRange: bool)
      requires 0 < windowWidth && 0 < windowHeight
      modifies this`width, this`height, this`world
      ensures width == windowWidth && height == windowHeight
      ensures outOfRange <==> (mouseMovesLight || mouseMovesSphere) && |old(world).spheres| == 0
      ensures var nX, nY := Normalised(mouseX, windowWidth), Normalised(mouseY, windowHeight);
        var light := if mouseMovesLight
          then old(world).light.(x := LightCoordinate(nX), y := LightCoordinate(nY))
          else old(world).light;
        world == old(world).(
          light := light,
          spheres := if mouseMovesLight && |old(world).spheres| > 0
            then old(world).spheres[0 := old(world).spheres[0].(color := NewColor(1.0, 0.0, 0.0))]
            else old(world).spheres)
    {
      width, height := windowWidth, windowHeight;
      var nX, nY := mouseX as real / width as real, mouseY as real / height as real;
      outOfRange := false;

      if mouseMovesLight {
        world := world.(light := world.light.(x := (1.0 - nX) * 4.0 - 2.0));
        world := world.(light := world.light.(y := (1.0 - nY) * 4.0 - 2.0));
        if |world.spheres| == 0 {
          outOfRange := true;
          return;
        }
        world := world.(spheres := world.spheres[0 := world.spheres[0].(color := NewColor(1.0, 0.0, 0.0))]);
      }

      if mouseMovesSphere {
        if |world.spheres| == 0 {
          outOfRange := true;
          return;
        }
        var sphere := world.spheres[0];
        sphere := sphere.(position := sphere.position.(x := nX * 2.0 - 1.0));
        sphere := sphere.(position := sphere.position.(y := nY * 2.0 - 1.0));
      }
    }
  }
}
