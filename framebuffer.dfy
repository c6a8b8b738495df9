/** The byte layout both `setPixel` variants write: four bytes per pixel,
    converted from colour channels by truncation, in the order the
    platform's byte order calls for, at `y * stride + 4 * x` (stride
    `4 * width` in src/engine.hpp, the texture's `pitch` in src/main.cpp).
    `Blit` paints a whole image of such quads in the render loops' order
    (rows top to bottom, pixels left to right); the lemmas below say which
    byte of the buffer ends up holding what. */
module Framebuffer {
  import opened MathUtil
  import opened Colors

  newtype byte = b: int | 0 <= b < 256

  /** The four bytes of one pixel, in memory order. */
  datatype Quad = Quad(b0: byte, b1: byte, b2: byte, b3: byte) {
    function Bytes(): seq<byte> {
      [b0, b1, b2, b3]
    }
  }

  /** `SDL_BYTEORDER`, fixed when the program is built. */
  datatype ByteOrder = LittleEndian | BigEndian

  /** `(uint8_t)(channel * 255.0)`: truncation, which for a channel in
      [0, 1] is the floor. */
  function ChannelByte(channel: real): (b: byte)
    requires InUnit(channel)
    ensures b as real <= channel * 255.0 < b as real + 1.0
    ensures channel == 0.0 ==> b == 0
    ensures channel == 1.0 ==> b == 255
  {
    (channel * 255.0).Floor as byte
  }

  /** The bytes `setPixel` stores: B, G, R, 255 on a little-endian platform,
      255, R, G, B on a big-endian one. On both byte orders the display
      reads back full opacity and the three truncated channels, each in its
      own slot of the texture's format. */
  function PixelQuad(red: real, green: real, blue: real, order: ByteOrder): (q: Quad)
    requires InUnit(red) && InUnit(green) && InUnit(blue)
    ensures ReadArgb8888(q, order) == (255, ChannelByte(red), ChannelByte(green), ChannelByte(blue))
  {
    match order
    case LittleEndian => Quad(ChannelByte(blue), ChannelByte(green), ChannelByte(red), 255)
    case BigEndian => Quad(255, ChannelByte(red), ChannelByte(green), ChannelByte(blue))
  }

  /** `setPixel(x, y, Color)`: the bytes of a colour's three channels. */
  function ColorQuad(c: Color, order: ByteOrder): (q: Quad)
    ensures ReadArgb8888(q, order) == (255, ChannelByte(c.red), ChannelByte(c.green), ChannelByte(c.blue))
  {
    PixelQuad(c.red, c.green, c.blue, order)
  }

  /** How a texel of the streaming texture's format, ARGB8888 (a 32-bit
      word with alpha in the top byte), is laid out in memory on each byte
      order: the (alpha, red, green, blue) that the display reads back. */
  function ReadArgb8888(q: Quad, order: ByteOrder): (byte, byte, byte, byte) {
    match order
    case LittleEndian => (q.b3, q.b2, q.b1, q.b0)
    case BigEndian => (q.b0, q.b1, q.b2, q.b3)
  }

  /** Writing one pixel: exactly the four bytes from `offset` change. */
  function Put(s: seq<byte>, offset: int, q: Quad): (r: seq<byte>)
    requires 0 <= offset && offset + 4 <= |s|
    ensures |r| == |s|
    ensures forall k :: 0 <= k < 4 ==> r[offset + k] == q.Bytes()[k]
    ensures forall i :: 0 <= i < |s| && !(offset <= i < offset + 4) ==> r[i] == s[i]
  {
    s[offset := q.b0][offset + 1 := q.b1][offset + 2 := q.b2][offset + 3 := q.b3]
  }

  /** The first byte of pixel (x, y) in a buffer whose rows are `stride`
      bytes apart. */
  function Offset(stride: int, x: int, y: int): int {
    y * stride + 4 * x
  }

  lemma MulMonotone(a: int, b: int, s: int)
    requires a <= b && 0 <= s
    ensures a * s <= b * s
  {
    assert b * s - a * s == (b - a) * s;
  }

  /** Row y of a buffer holding `height` rows of `stride` bytes lies inside it. */
  lemma RowFits(y: int, height: int, stride: int, length: int)
    requires 0 <= y < height && 0 <= stride && height * stride <= length
    ensures 0 <= y * stride && y * stride + stride <= length
  {
    MulMonotone(y + 1, height, stride);
    MulMonotone(0, y, stride);
  }

  /** With rows at least `4 * width` bytes apart, two different pixels of
      the frame never share a byte. */
  lemma OffsetsDisjoint(width: nat, stride: int, x1: nat, y1: nat, x2: nat, y2: nat)
    requires 4 * width <= stride && x1 < width && x2 < width
    requires x1 != x2 || y1 != y2
    ensures Offset(stride, x1, y1) + 4 <= Offset(stride, x2, y2) ||
            Offset(stride, x2, y2) + 4 <= Offset(stride, x1, y1)
  {
    if y1 < y2 {
      MulMonotone(y1 + 1, y2, stride);
    } else if y2 < y1 {
      MulMonotone(y2 + 1, y1, stride);
    }
  }

  /** Pixel coordinates in the order the render loops visit them. */
  type Pixel = (int, int)

  /** Pixels (0, y) to (n - 1, y). */
  function Row(y: int, n: nat): (r: seq<Pixel>)
    ensures |r| == n
  {
    if n == 0 then [] else Row(y, n - 1) + [(n - 1, y)]
  }

  /** Rows 0 to rows - 1 of a frame `width` pixels wide, row after row. */
  function RowMajor(width: nat, rows: nat): seq<Pixel> {
    if rows == 0 then [] else RowMajor(width, rows - 1) + Row(rows - 1, width)
  }

  /** Sequence concatenation is associative. */
  lemma AppendAssociates<T>(a: seq<T>, b: seq<T>, c: seq<T>)
    ensures (a + b) + c == a + (b + c)
  {
  }

  /** The position of pixel (x, y) in row-major order. */
  function PixelIndex(width: nat, x: int, y: int): int {
    y * width + x
  }

  lemma {:induction false} RowShape(y: int, n: nat)
    ensures forall k :: 0 <= k < n ==> Row(y, n)[k] == (k, y)
  {
    if n > 0 {
      RowShape(y, n - 1);
      assert Row(y, n) == Row(y, n - 1) + [(n - 1, y)];
    }
  }

  lemma {:induction false} RowMajorLength(width: nat, height: nat)
    ensures |RowMajor(width, height)| == width * height
  {
    if height > 0 {
      RowMajorLength(width, height - 1);
      assert width * height == width * (height - 1) + width;
    }
  }

  lemma {:induction false} RowMajorAt(width: nat, height: nat, k: int)
    requires 0 <= k < |RowMajor(width, height)|
    ensures 0 <= RowMajor(width, height)[k].0 < width
    ensures 0 <= RowMajor(width, height)[k].1 < height
    ensures PixelIndex(width, RowMajor(width, height)[k].0, RowMajor(width, height)[k].1) == k
  {
    var before := RowMajor(width, height - 1);
    RowMajorLength(width, height - 1);
    if k < |before| {
      RowMajorAt(width, height - 1, k);
    } else {
      RowShape(height - 1, width);
      assert RowMajor(width, height)[k] == Row(height - 1, width)[k - |before|];
    }
  }

  lemma {:induction false} RowMajorIndex(width: nat, height: nat, x: int, y: int)
    requires 0 <= x < width && 0 <= y < height
    ensures PixelIndex(width, x, y) < |RowMajor(width, height)|
    ensures RowMajor(width, height)[PixelIndex(width, x, y)] == (x, y)
  {
    var before := RowMajor(width, height - 1);
    RowMajorLength(width, height - 1);
    RowMajorLength(width, height);
    if y < height - 1 {
      RowMajorIndex(width, height - 1, x, y);
    } else {
      RowShape(height - 1, width);
      assert PixelIndex(width, x, y) == |before| + x;
    }
  }

  /** The render loops visit every pixel of the frame exactly once: the
      visiting order has `width * height` entries, each one a pixel of the
      frame, pixel (x, y) sits at position `y * width + x`, and no pixel
      occurs twice. */
  lemma RowMajorExactlyOnce(width: nat, height: nat)
    ensures |RowMajor(width, height)| == width * height
    ensures forall k :: 0 <= k < |RowMajor(width, height)| ==>
      0 <= RowMajor(width, height)[k].0 < width && 0 <= RowMajor(width, height)[k].1 < height &&
      PixelIndex(width, RowMajor(width, height)[k].0, RowMajor(width, height)[k].1) == k
    ensures forall x, y :: 0 <= x < width && 0 <= y < height ==>
      RowMajor(width, height)[PixelIndex(width, x, y)] == (x, y)
    ensures forall k1, k2 :: 0 <= k1 < k2 < |RowMajor(width, height)| ==>
      RowMajor(width, height)[k1] != RowMajor(width, height)[k2]
  {
    RowMajorLength(width, height);
    forall k | 0 <= k < |RowMajor(width, height)|
      ensures 0 <= RowMajor(width, height)[k].0 < width && 0 <= RowMajor(width, height)[k].1 < height &&
        PixelIndex(width, RowMajor(width, height)[k].0, RowMajor(width, height)[k].1) == k
    {
      RowMajorAt(width, height, k);
    }
    forall x, y | 0 <= x < width && 0 <= y < height
      ensures RowMajor(width, height)[PixelIndex(width, x, y)] == (x, y)
    {
      RowMajorIndex(width, height, x, y);
    }
  }

  /** Every row of `image` has `width` quads. */
  predicate Rectangular(image: seq<seq<Quad>>, width: nat) {
    forall y :: 0 <= y < |image| ==> |image[y]| == width
  }

  /** Pixels 0 to n - 1 of `row`, written at `base`, `base + 4`, ... */
  function BlitRow(s: seq<byte>, row: seq<Quad>, base: int, n: nat): (r: seq<byte>)
    requires n <= |row| && 0 <= base && base + 4 * |row| <= |s|
    ensures |r| == |s|
  {
    if n == 0 then s else Put(BlitRow(s, row, base, n - 1), base + 4 * (n - 1), row[n - 1])
  }

  /** Rows 0 to rows - 1 of `image`, row y written from `y * stride`. */
  function Blit(s: seq<byte>, image: seq<seq<Quad>>, width: nat, stride: int, rows: nat): (r: seq<byte>)
    requires rows <= |image| && Rectangular(image, width)
    requires 4 * width <= stride && |image| * stride <= |s|
    ensures |r| == |s|
  {
    if rows == 0 then s
    else
      MulMonotone(rows, |image|, stride);
      BlitRow(Blit(s, image, width, stride, rows - 1), image[rows - 1], (rows - 1) * stride, width)
  }

  lemma {:induction false} BlitRowOutside(s: seq<byte>, row: seq<Quad>, base: int, n: nat, i: int)
    requires n <= |row| && 0 <= base && base + 4 * |row| <= |s|
    requires 0 <= i < |s| && (i < base || base + 4 * n <= i)
    ensures BlitRow(s, row, base, n)[i] == s[i]
  {
    if n > 0 {
      BlitRowOutside(s, row, base, n - 1, i);
    }
  }

  lemma {:induction false} BlitRowAt(s: seq<byte>, row: seq<Quad>, base: int, n: nat, x: nat, k: nat)
    requires n <= |row| && 0 <= base && base + 4 * |row| <= |s|
    requires x < n && k < 4
    ensures BlitRow(s, row, base, n)[base + 4 * x + k] == row[x].Bytes()[k]
  {
    if x < n - 1 {
      BlitRowAt(s, row, base, n - 1, x, k);
    }
  }

  /** A byte outside the painted span of each of the first `rows` rows keeps its value. */
  predicate OutsideRow(i: int, y: int, width: nat, stride: int) {
    i < y * stride || y * stride + 4 * width <= i
  }

  lemma {:induction false} BlitOutside(s: seq<byte>, image: seq<seq<Quad>>, width: nat, stride: int, rows: nat, i: int)
    requires rows <= |image| && Rectangular(image, width)
    requires 4 * width <= stride && |image| * stride <= |s|
    requires 0 <= i < |s| && forall y :: 0 <= y < rows ==> OutsideRow(i, y, width, stride)
    ensures Blit(s, image, width, stride, rows)[i] == s[i]
  {
    if rows > 0 {
      BlitOutside(s, image, width, stride, rows - 1, i);
      MulMonotone(rows, |image|, stride);
      assert OutsideRow(i, rows - 1, width, stride);
      BlitRowOutside(Blit(s, image, width, stride, rows - 1), image[rows - 1], (rows - 1) * stride, width, i);
    }
  }

  /** After blitting the first `rows` rows, byte k of pixel (x, y) of any of
      those rows holds byte k of that pixel's quad. */
  lemma {:induction false} BlitAt(s: seq<byte>, image: seq<seq<Quad>>, width: nat, stride: int, rows: nat, x: nat, y: nat, k: nat)
    requires rows <= |image| && Rectangular(image, width)
    requires 4 * width <= stride && |image| * stride <= |s|
    requires x < width && y < rows && k < 4
    ensures (RowBounds(width, stride, rows, |image|, x, y, k);
      Blit(s, image, width, stride, rows)[Offset(stride, x, y) + k] == image[y][x].Bytes()[k])
  {
    RowBounds(width, stride, rows, |image|, x, y, k);
    if y < rows - 1 {
      BlitAt(s, image, width, stride, rows - 1, x, y, k);
      BlitLastRowOutside(s, image, width, stride, rows, Offset(stride, x, y) + k);
    } else {
      BlitLastRowAt(s, image, width, stride, rows, x, k);
    }
  }

  lemma BlitLastRowAt(s: seq<byte>, image: seq<seq<Quad>>, width: nat, stride: int, rows: nat, x: nat, k: nat)
    requires 0 < rows <= |image| && Rectangular(image, width)
    requires 4 * width <= stride && |image| * stride <= |s|
    requires x < width && k < 4
    ensures (RowFits(rows - 1, |image|, stride, |s|);
      Blit(s, image, width, stride, rows)[(rows - 1) * stride + 4 * x + k] == image[rows - 1][x].Bytes()[k])
  {
    RowFits(rows - 1, |image|, stride, |s|);
    var base := (rows - 1) * stride;
    var before := Blit(s, image, width, stride, rows - 1);
    assert Blit(s, image, width, stride, rows) == BlitRow(before, image[rows - 1], base, width);
    BlitRowAt(before, image[rows - 1], base, width, x, k);
  }

  lemma BlitLastRowOutside(s: seq<byte>, image: seq<seq<Quad>>, width: nat, stride: int, rows: nat, i: int)
    requires 0 < rows <= |image| && Rectangular(image, width)
    requires 4 * width <= stride && |image| * stride <= |s|
    requires 0 <= i < (rows - 1) * stride
    ensures (MulMonotone(rows - 1, |image|, stride);
      Blit(s, image, width, stride, rows)[i] == Blit(s, image, width, stride, rows - 1)[i])
  {
    MulMonotone(rows - 1, |image|, stride);
    MulMonotone(rows, |image|, stride);
    BlitRowOutside(Blit(s, image, width, stride, rows - 1), image[rows - 1], (rows - 1) * stride, width, i);
  }

  /** Where byte k of pixel (x, y) lies relative to the last of the first
      `rows` rows. */
  lemma RowBounds(width: nat, stride: int, rows: nat, total: nat, x: nat, y: nat, k: nat)
    requires 4 * width <= stride && rows <= total && x < width && y < rows && k < 4
    ensures (rows - 1) * stride + 4 * width <= total * stride
    ensures y == rows - 1 ==> Offset(stride, x, y) + k == (rows - 1) * stride + 4 * x + k
    ensures y < rows - 1 ==> Offset(stride, x, y) + k < (rows - 1) * stride
    ensures 0 <= Offset(stride, x, y) + k < total * stride
  {
    MulMonotone(rows, total, stride);
    MulMonotone(y + 1, rows, stride);
    assert (rows - 1) * stride + stride == rows * stride;
    assert y * stride + stride == (y + 1) * stride;
    if y < rows - 1 {
      MulMonotone(y + 1, rows - 1, stride);
    }
  }

  /** Painting a whole image changes no byte past its last row: for the
      engine's tight layout the buffer from `4 * width * height` on. */
  lemma BlitBeyondFrame(s: seq<byte>, image: seq<seq<Quad>>, width: nat, stride: int, i: int)
    requires Rectangular(image, width)
    requires 4 * width <= stride && |image| * stride <= |s|
    requires |image| * stride <= i < |s|
    ensures Blit(s, image, width, stride, |image|)[i] == s[i]
  {
    forall y | 0 <= y < |image|
      ensures OutsideRow(i, y, width, stride)
    {
      MulMonotone(y + 1, |image|, stride);
    }
    BlitOutside(s, image, width, stride, |image|, i);
  }

  /** Painting a whole image changes no byte of a row's padding, the bytes
      between the row's last pixel and the start of the next row. */
  lemma BlitKeepsPadding(s: seq<byte>, image: seq<seq<Quad>>, width: nat, stride: int, y: nat, i: int)
    requires Rectangular(image, width)
    requires 4 * width <= stride && |image| * stride <= |s|
    requires y < |image| && y * stride + 4 * width <= i < (y + 1) * stride
    ensures (MulMonotone(y + 1, |image|, stride); Blit(s, image, width, stride, |image|)[i] == s[i])
  {
    MulMonotone(y + 1, |image|, stride);
    forall y' | 0 <= y' < |image|
      ensures OutsideRow(i, y', width, stride)
    {
      if y' < y {
        MulMonotone(y' + 1, y, stride);
      } else if y' > y {
        MulMonotone(y + 1, y', stride);
      }
    }
    BlitOutside(s, image, width, stride, |image|, i);
  }
}
