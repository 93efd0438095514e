/**
 * The procedural test texture of `gen_texture`: an RGB image, three bytes per
 * pixel, rows stored one after another, in which pixel (i, j) (row i, column j)
 * is derived from the bit pattern i XOR j.
 */
module Texture {
  import opened CTypes
  import opened RowMajor
  import Heap

  /** An `unsigned char`. */
  newtype Byte = b: int | 0 <= b < 256

  /** Bytes per pixel: the image is RGB. */
  const CHANNELS: nat := 3

  /**
   * The sizes `gen_texture` works with: `width * height * 3` is computed as a
   * C `int`, and every coordinate is below 2^29, so that `x << 2` in the pixel
   * loop stays a C `int` (see ShiftInRange).
   */
  predicate ImageFits(width: int, height: int) {
    0 <= width <= 0x2000_0000 && 0 <= height <= 0x2000_0000 && IsCInt(width * height * CHANNELS)
  }

  /** Size of the pixel buffer in bytes. */
  function ImageSize(width: nat, height: nat): nat {
    width * height * CHANNELS
  }

  /** 2 to the power n. */
  function Pow2(n: nat): (r: nat)
    ensures r >= 1
  {
    if n == 0 then 1 else 2 * Pow2(n - 1)
  }

  /** Powers of two multiply by adding their exponents. */
  lemma {:induction false} Pow2Add(m: nat, n: nat)
    ensures Pow2(m + n) == Pow2(m) * Pow2(n)
  {
    if m > 0 {
      Pow2Add(m - 1, n);
    }
  }

  /** Bit n of x, counting from the least significant bit 0. */
  function Bit(x: nat, n: nat): (r: nat)
    ensures r < 2
  {
    if n == 0 then x % 2 else Bit(x / 2, n - 1)
  }

  /**
   * `a ^ b` on two non-negative C `int`s, computed from the lowest bit up.
   * It is never more than the sum of its arguments.
   */
  function Xor(a: nat, b: nat): (r: nat)
    ensures r <= a + b
    decreases a
  {
    if a == 0 then b else 2 * Xor(a / 2, b / 2) + (a % 2 + b % 2) % 2
  }

  /** Bit n of `a ^ b` is set exactly when bit n of `a` and bit n of `b` differ. */
  lemma {:induction false} XorBits(a: nat, b: nat, n: nat)
    ensures Bit(Xor(a, b), n) == (Bit(a, n) + Bit(b, n)) % 2
    decreases n
  {
    if a == 0 {
      BitOfZero(n);
    } else {
      var high := Xor(a / 2, b / 2);
      var low := (a % 2 + b % 2) % 2;
      assert Xor(a, b) == 2 * high + low && low < 2;
      if n > 0 {
        assert Xor(a, b) / 2 == high;
        XorBits(a / 2, b / 2, n - 1);
      }
    }
  }

  lemma {:induction false} BitOfZero(n: nat)
    ensures Bit(0, n) == 0
  {
    if n > 0 {
      BitOfZero(n - 1);
    }
  }

  /** XOR with 0 leaves a value unchanged. */
  lemma {:induction false} XorZero(a: nat)
    ensures Xor(a, 0) == a
  {
    if a != 0 {
      XorZero(a / 2);
    }
  }

  /** XOR is symmetric. */
  lemma {:induction false} XorSymmetric(a: nat, b: nat)
    ensures Xor(a, b) == Xor(b, a)
  {
    if a == 0 {
      XorZero(b);
    } else if b == 0 {
      XorZero(a);
    } else {
      XorSymmetric(a / 2, b / 2);
    }
  }

  /** A value XORed with itself is 0. */
  lemma {:induction false} XorSelf(a: nat)
    ensures Xor(a, a) == 0
  {
    if a != 0 {
      XorSelf(a / 2);
    }
  }

  /** XOR of two values below 2^k is below 2^k: it sets no higher bit. */
  lemma {:induction false} XorBelow(a: nat, b: nat, k: nat)
    requires a < Pow2(k) && b < Pow2(k)
    ensures Xor(a, b) < Pow2(k)
  {
    if a != 0 {
      XorBelow(a / 2, b / 2, k - 1);
    }
  }

  /**
   * `x << 2` with x = i ^ j is a C `int`: the pixel loop computes the three
   * shifts of x without signed overflow.
   */
  predicate ShiftsFit(i: nat, j: nat) {
    Xor(i, j) <= INT_MAX / 4
  }

  /** Every pixel of a width x height image has coordinates whose shifts fit. */
  lemma ShiftInRange(width: nat, height: nat, i: nat, j: nat)
    requires ImageFits(width, height) && i < height && j < width
    ensures ShiftsFit(i, j)
  {
    assert Pow2(8) == 256 && Pow2(5) == 32;
    Pow2Add(8, 8);
    Pow2Add(16, 8);
    Pow2Add(24, 5);
    XorBelow(i, j, 29);
  }

  /**
   * The conversion of a non-negative C `int` to `unsigned char`, which keeps
   * the low eight bits; on a non-negative value `& 0xff` does the same.
   */
  function LowByte(x: nat): Byte {
    (x % 256) as Byte
  }

  /** Channel c of pixel (i, j): `(x << c) & 0xff` with x = i ^ j, stored as an `unsigned char`. */
  function Channel(i: nat, j: nat, c: nat): Byte
    requires c < CHANNELS && ShiftsFit(i, j)
  {
    LowByte(Xor(i, j) * Pow2(c))
  }

  /**
   * Channel c of a pixel is x = i ^ j shifted left by c within a byte: its
   * low c bits are zero and the bits above them are the low 8 - c bits of x.
   */
  lemma ChannelMeaning(i: nat, j: nat, c: nat)
    requires c < CHANNELS && ShiftsFit(i, j)
    ensures Channel(i, j, c) as int % Pow2(c) == 0
    ensures Channel(i, j, c) as int / Pow2(c) == Xor(i, j) % Pow2(8 - c)
  {
    ShiftedByte(Xor(i, j), c);
  }

  /** The low byte of x * 2^c, for c < 3, is the low 8 - c bits of x followed by c zero bits. */
  lemma ShiftedByte(x: nat, c: nat)
    requires c < CHANNELS
    ensures (x * Pow2(c)) % 256 % Pow2(c) == 0
    ensures (x * Pow2(c)) % 256 / Pow2(c) == x % Pow2(8 - c)
  {
    assert Pow2(8) == 256 && Pow2(7) == 128 && Pow2(6) == 64;
    assert Pow2(1) == 2 && Pow2(2) == 4;
    if c == 1 {
      ScaledLowByte(x, 2, 128);
    } else if c == 2 {
      ScaledLowByte(x, 4, 64);
    }
  }

  /** With m * q == 256, the low byte of m * x is m times the remainder of x by q. */
  lemma ScaledLowByte(x: nat, m: nat, q: nat)
    requires (m == 2 && q == 128) || (m == 4 && q == 64)
    ensures (x * m) % 256 == m * (x % q)
  {
    var r := x % q;
    assert x == q * (x / q) + r;
    assert x * m == 256 * (x / q) + m * r;
  }

  /** Byte p of the buffer belongs to channel p % 3 of the pixel in row (p / 3) / width and column (p / 3) % width. */
  lemma {:induction false} TexelCoordinates(width: nat, height: nat, p: nat)
    requires ImageFits(width, height) && p < ImageSize(width, height)
    ensures width > 0
    ensures (p / CHANNELS) / width < height && (p / CHANNELS) % width < width
  {
    var pixels := height * width;
    assert ImageSize(width, height) == pixels * CHANNELS;
    SplitFlat(p, CHANNELS, pixels);
    SplitFlat(p / CHANNELS, width, height);
  }

  /** The byte at position p of the pixel buffer of a width x height image. */
  function TexelAt(width: nat, height: nat, p: nat): Byte
    requires ImageFits(width, height) && p < ImageSize(width, height)
  {
    TexelCoordinates(width, height, p);
    var row := (p / CHANNELS) / width;
    var col := (p / CHANNELS) % width;
    ShiftInRange(width, height, row, col);
    Channel(row, col, p % CHANNELS)
  }

  /** The whole pixel buffer handed to the graphics driver. */
  function TextureImage(width: nat, height: nat): (img: seq<Byte>)
    requires ImageFits(width, height)
    ensures |img| == ImageSize(width, height)
  {
    seq(ImageSize(width, height), p requires 0 <= p < ImageSize(width, height) => TexelAt(width, height, p))
  }

  /**
   * Byte 3 * (i * width + j) + c of the image is channel c of pixel (i, j):
   * pixels are stored row by row, three channels each.
   */
  lemma {:induction false} TexelLayout(width: nat, height: nat, i: nat, j: nat, c: nat)
    requires ImageFits(width, height)
    requires i < height && j < width && c < CHANNELS
    ensures CHANNELS * Flat(i, j, width) + c < ImageSize(width, height)
    ensures ShiftsFit(i, j)
    ensures TexelAt(width, height, CHANNELS * Flat(i, j, width) + c) == Channel(i, j, c)
  {
    var pixel := Flat(i, j, width);
    FlatBelow(i, j, width, height);
    FlatDivMod(pixel, c, CHANNELS);
    assert CHANNELS * pixel + c == Flat(pixel, c, CHANNELS);
    FlatDivMod(i, j, width);
    ShiftInRange(width, height, i, j);
  }

  /**
   * The green and blue channels are the red channel shifted left by one and
   * two bits within a byte.
   */
  lemma ChannelsAreShifts(i: nat, j: nat)
    requires ShiftsFit(i, j)
    ensures Channel(i, j, 1) == LowByte(2 * Channel(i, j, 0) as nat)
    ensures Channel(i, j, 2) == LowByte(4 * Channel(i, j, 0) as nat)
  {
    var x := Xor(i, j);
    assert Pow2(1) == 2 && Pow2(2) == 4;
    LowByteOfMultiple(x, 2);
    LowByteOfMultiple(x, 4);
  }

  /** Only the low byte of x matters for the low byte of m * x. */
  lemma LowByteOfMultiple(x: nat, m: nat)
    ensures (m * x) % 256 == (m * (x % 256)) % 256
  {
    var r := x % 256;
    assert x == 256 * (x / 256) + r;
    assert m * x == 256 * (m * (x / 256)) + m * r;
  }

  /** The pattern is symmetric about the diagonal, and the diagonal is black. */
  lemma PatternSymmetric(i: nat, j: nat, c: nat)
    requires ShiftsFit(i, j) && c < CHANNELS
    ensures ShiftsFit(j, i) && ShiftsFit(i, i)
    ensures Channel(i, j, c) == Channel(j, i, c)
    ensures Channel(i, i, c) == 0
  {
    XorSymmetric(i, j);
    XorSelf(i);
  }

  /** A 1 x 1 texture is a single black pixel. */
  lemma OnePixelImage()
    ensures TextureImage(1, 1) == [0, 0, 0]
  {
    var img := TextureImage(1, 1);
    XorSelf(0);
    forall c | 0 <= c < CHANNELS
      ensures img[c] == 0
    {
      BlackTexel(c);
    }
    assert |img| == 3;
  }

  lemma BlackTexel(c: nat)
    requires c < CHANNELS
    ensures TexelAt(1, 1, c) == 0
  {
    TexelLayout(1, 1, 0, 0, c);
    XorSelf(0);
    assert Channel(0, 0, c) == LowByte(0);
  }

  /** The three bytes the pixel loop stores for pixel (i, j) are its three channels. */
  lemma PixelBytes(i: nat, j: nat)
    requires ShiftsFit(i, j)
    ensures LowByte(Xor(i, j)) == Channel(i, j, 0)
    ensures LowByte(Xor(i, j) * 2) == Channel(i, j, 1)
    ensures LowByte(Xor(i, j) * 4) == Channel(i, j, 2)
  {
    assert Pow2(1) == 2 && Pow2(2) == 4;
  }

  /** The first n bytes of `s` are those of the width x height image. */
  ghost predicate FilledUpTo(s: seq<Byte>, width: nat, height: nat, n: nat)
    requires ImageFits(width, height)
  {
    n <= |s| == ImageSize(width, height) &&
    forall p :: 0 <= p < n ==> s[p] == TexelAt(width, height, p)
  }

  /** Storing the three channels of pixel (i, j) at position b extends a filled prefix by one pixel. */
  lemma {:induction false} PixelStep(s: seq<Byte>, t: seq<Byte>, width: nat, height: nat, i: nat, j: nat, b: nat)
    requires ImageFits(width, height) && i < height && j < width
    requires |s| == |t| && b + CHANNELS <= |t| && ShiftsFit(i, j)
    requires forall p :: 0 <= p < b ==> t[p] == s[p]
    requires forall c :: 0 <= c < CHANNELS ==> t[b + c] == Channel(i, j, c)
    requires b == CHANNELS * Flat(i, j, width)
    requires FilledUpTo(s, width, height, b)
    ensures FilledUpTo(t, width, height, b + CHANNELS)
  {
    forall p | b <= p < b + CHANNELS
      ensures t[p] == TexelAt(width, height, p)
    {
      NewTexel(t, width, height, i, j, b, p - b);
    }
  }

  /** One of the three freshly stored channels of pixel (i, j) is the image's byte at its position. */
  lemma {:induction false} NewTexel(t: seq<Byte>, width: nat, height: nat, i: nat, j: nat, b: nat, c: nat)
    requires ImageFits(width, height) && i < height && j < width && c < CHANNELS
    requires b == CHANNELS * Flat(i, j, width) && b + c < |t| && ShiftsFit(i, j)
    requires t[b + c] == Channel(i, j, c)
    ensures b + c < ImageSize(width, height) && t[b + c] == TexelAt(width, height, b + c)
  {
    TexelLayout(width, height, i, j, c);
  }

  /**
   * The body of the pixel loop: the three channels of pixel (i, j), stored
   * through the advancing pointer, which moves on by three.
   */
  method StorePixel(pixels: array<Byte>, width: nat, height: nat, i: nat, j: nat, ptr: nat) returns (next: nat)
    requires ImageFits(width, height) && i < height && j < width
    requires pixels.Length == ImageSize(width, height)
    requires ptr == CHANNELS * Flat(i, j, width)
    requires FilledUpTo(pixels[..], width, height, ptr)
    modifies pixels
    ensures next == ptr + CHANNELS
    ensures FilledUpTo(pixels[..], width, height, next)
    ensures pixels[next..] == old(pixels[next..])
  {
    ghost var before := pixels[..];
    TexelLayout(width, height, i, j, CHANNELS - 1);
    PixelBytes(i, j);
    var x := Xor(i, j);
    next := ptr;
    pixels[next] := LowByte(x);
    next := next + 1;
    pixels[next] := LowByte(x * 2);
    next := next + 1;
    pixels[next] := LowByte(x * 4);
    next := next + 1;
    ghost var after := pixels[..];
    forall c | 0 <= c < CHANNELS
      ensures after[ptr + c] == Channel(i, j, c)
    {
      if c == 0 {
        assert after[ptr] == Channel(i, j, 0);
      } else if c == 1 {
        assert after[ptr + 1] == Channel(i, j, 1);
      } else {
        assert after[ptr + 2] == Channel(i, j, 2);
      }
    }
    PixelStep(before, after, width, height, i, j, ptr);
  }

  /**
   * The pixel loop of `gen_texture`: rows i < height, columns j < width, and
   * three bytes written through an advancing pointer for each pixel.  The
   * pointer ends exactly at the end of the buffer.
   */
  method FillPixels(pixels: array<Byte>, width: nat, height: nat) returns (end: nat)
    requires ImageFits(width, height)
    requires pixels.Length == ImageSize(width, height)
    modifies pixels
    ensures end == pixels.Length
    ensures pixels[..] == TextureImage(width, height)
  {
    var ptr := 0;
    var i := 0;
    while i < height
      invariant 0 <= i <= height
      invariant ptr == CHANNELS * Flat(i, 0, width)
      invariant FilledUpTo(pixels[..], width, height, ptr)
    {
      var j := 0;
      while j < width
        invariant 0 <= j <= width
        invariant ptr == CHANNELS * Flat(i, j, width)
        invariant FilledUpTo(pixels[..], width, height, ptr)
      {
        ptr := StorePixel(pixels, width, height, i, j, ptr);
        j := j + 1;
      }
      assert Flat(i, width, width) == Flat(i + 1, 0, width);
      i := i + 1;
    }
    RowStartWithin(height, width, height);
    end := ptr;
  }

  /**
   * `gen_texture`: allocates the pixel buffer, fills it, hands it to the
   * driver (`uploaded` is the image passed to `glTexImage2D`) and frees it.
   * `allocOk` is the outcome of `malloc`; `texName` is the texture name the
   * driver hands out, never 0.  The result is 0 when allocation fails.
   */
  method GenTexture(heap: Heap.Allocator, width: int, height: int, allocOk: bool, texName: nat)
    returns (tex: nat, uploaded: seq<Byte>)
    requires ImageFits(width, height)
    requires texName != 0
    modifies heap
    ensures heap.live == old(heap.live)
    ensures tex == 0 <==> !allocOk
    ensures allocOk ==> tex == texName && uploaded == TextureImage(width, height)
    ensures !allocOk ==> uploaded == []
  {
    var pixels := heap.Malloc<Byte>(ImageSize(width, height), allocOk);
    if pixels == null {
      return 0, [];
    }
    var end := FillPixels(pixels, width, height);
    uploaded := pixels[..];
    tex := texName;
    heap.Free(pixels);
  }
}
