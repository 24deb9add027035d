/**
 * Font face rendering state (src/font/font_face_state.cpp): blending 8-bit
 * glyph coverage bitmaps into a 32-bit RGBA texture, the edge detection of
 * the embossed style, the reference-counted FreeType library handle, and the
 * sizing of the texture a text is rendered into.
 *
 * Bitmaps are byte buffers with rows `pitch` bytes apart; the texture is a
 * byte array of four bytes (R, G, B, A) per pixel. The floating-point part
 * of blending (gradient, emboss shading, sRGB conversion) is a parameter.
 */
module FontFace {
  import opened Errors
  import opened Bytes
  import opened Bits

  const MAX_VALUE: Byte := 255

  /** `std::min(dst + src, 255)`: alphas add up, saturating at 255. */
  function AddAlpha(dst: Byte, src: Byte): (r: Byte)
    ensures dst <= r <= dst + src
    ensures r == dst + src || r == MAX_VALUE
  {
    if dst + src < MAX_VALUE then dst + src else MAX_VALUE
  }

  // ----- edge detection

  /** Pixel x of the row h above row y. */
  function Above(src: seq<Byte>, pitch: nat, x: nat, y: nat, h: nat): Byte
    requires 1 <= h <= y && (y - 1) * pitch + x < |src|
  {
    MulMono(y - h, y - 1, pitch);
    src[(y - h) * pitch + x]
  }

  /** Pixel x of the row h below row y, for h up to `distance`. */
  function Below(src: seq<Byte>, pitch: nat, x: nat, y: nat, h: nat, distance: nat): Byte
    requires 1 <= h <= distance && (y + distance) * pitch + x < |src|
  {
    MulMono(y + h, y + distance, pitch);
    src[(y + h) * pitch + x]
  }

  function Min(a: Byte, b: Byte): Byte
  {
    if b < a then b else a
  }

  /** The darkest of the n pixels above (255 when n is 0). */
  function MinAbove(src: seq<Byte>, pitch: nat, x: nat, y: nat, n: nat): Byte
    requires n <= y && (n == 0 || (y - 1) * pitch + x < |src|)
  {
    if n == 0 then MAX_VALUE else Min(MinAbove(src, pitch, x, y, n - 1), Above(src, pitch, x, y, n))
  }

  /** The darkest of the n pixels below (255 when n is 0), out of `distance`. */
  function MinBelow(src: seq<Byte>, pitch: nat, x: nat, y: nat, n: nat, distance: nat): Byte
    requires n <= distance && (n == 0 || (y + distance) * pitch + x < |src|)
  {
    if n == 0 then MAX_VALUE else Min(MinBelow(src, pitch, x, y, n - 1, distance), Below(src, pitch, x, y, n, distance))
  }

  /** `find_darkest_above`: dark when the rows above leave the bitmap, else the darkest pixel above. */
  function DarkestAbove(src: seq<Byte>, pitch: nat, x: nat, y: nat, distance: nat): Byte
    requires y < distance || distance == 0 || (y - 1) * pitch + x < |src|
  {
    if y < distance then 0 else MinAbove(src, pitch, x, y, distance)
  }

  /** `find_darkest_below` with the intended guard: dark when the rows below leave the bitmap. */
  function DarkestBelow(src: seq<Byte>, pitch: nat, height: nat, x: nat, y: nat, distance: nat): Byte
    requires y + distance >= height || (y + distance) * pitch + x < |src|
  {
    if y + distance >= height then 0 else MinBelow(src, pitch, x, y, distance, distance)
  }

  /** `find_darkest_above`: the minimum over the `distance` pixels directly above, or 0 near the top. */
  method FindDarkestAbove(src: seq<Byte>, pitch: nat, x: nat, y: nat, distance: nat) returns (darkest: Byte)
    requires y < distance || distance == 0 || (y - 1) * pitch + x < |src|
    ensures darkest == DarkestAbove(src, pitch, x, y, distance)
  {
    if y < distance {
      return 0;
    }
    darkest := MAX_VALUE;
    for h := 1 to distance + 1
      invariant darkest == MinAbove(src, pitch, x, y, h - 1)
    {
      MulMono(y - h, y - 1, pitch);
      darkest := Min(darkest, src[(y - h) * pitch + x]);
    }
  }

  /**
   * `find_darkest_below` as written: the guard `y >= height - distance`
   * is computed on 32-bit unsigned values, so for a bitmap lower than the
   * distance the subtraction wraps to a huge bound, the guard fails, and
   * the loop reads rows past the bitmap. That read is a GSL contract
   * violation, which terminates the program (or, with contract checks
   * off, undefined behaviour); `Err(OutOfRange)` stands for that outcome,
   * not for an exception a caller could catch.
   */
  method FindDarkestBelowAsWritten(src: seq<Byte>, pitch: nat, height: Uint32, x: nat, y: Uint32, distance: Uint32)
    returns (r: Result<Byte>)
    ensures y >= (height - distance) % 0x1_0000_0000 ==> r == Ok(0)
    ensures y < (height - distance) % 0x1_0000_0000 && distance > 0 && (y + distance) * pitch + x >= |src| ==>
      r == Err(OutOfRange)
    ensures y < (height - distance) % 0x1_0000_0000 && (distance == 0 || (y + distance) * pitch + x < |src|) ==>
      r == Ok(MinBelow(src, pitch, x, y, distance, distance))
  {
    var bound := (height - distance) % 0x1_0000_0000;
    if y >= bound {
      return Ok(0);
    }
    if distance > 0 && (y + distance) * pitch + x >= |src| {
      // The last read, row y + distance, lies past the buffer.
      return Err(OutOfRange);
    }
    var darkest := DarkestBelowLoop(src, pitch, x, y, distance);
    r := Ok(darkest);
  }

  /** `find_darkest_below` with the guard `y + distance >= height`, which cannot wrap. */
  method FindDarkestBelow(src: seq<Byte>, pitch: nat, height: nat, x: nat, y: nat, distance: nat) returns (darkest: Byte)
    requires y + distance >= height || (y + distance) * pitch + x < |src|
    ensures darkest == DarkestBelow(src, pitch, height, x, y, distance)
  {
    if y + distance >= height {
      return 0;
    }
    darkest := DarkestBelowLoop(src, pitch, x, y, distance);
  }

  /** The loop of `find_darkest_below`: the minimum over rows y + 1 .. y + distance. */
  method DarkestBelowLoop(src: seq<Byte>, pitch: nat, x: nat, y: nat, distance: nat) returns (darkest: Byte)
    requires distance == 0 || (y + distance) * pitch + x < |src|
    ensures darkest == MinBelow(src, pitch, x, y, distance, distance)
  {
    darkest := MAX_VALUE;
    for h := 1 to distance + 1
      invariant darkest == MinBelow(src, pitch, x, y, h - 1, distance)
    {
      MulMono(y + h, y + distance, pitch);
      darkest := Min(darkest, src[(y + h) * pitch + x]);
    }
  }

  /** The darkest pixel above is no brighter than any of them, and is one of them. */
  lemma {:induction false} MinAboveIsMinimum(src: seq<Byte>, pitch: nat, x: nat, y: nat, n: nat)
    requires 1 <= n <= y && (y - 1) * pitch + x < |src|
    ensures forall h :: 1 <= h <= n ==> MinAbove(src, pitch, x, y, n) <= Above(src, pitch, x, y, h)
    ensures exists h :: 1 <= h <= n && MinAbove(src, pitch, x, y, n) == Above(src, pitch, x, y, h)
  {
    if n > 1 {
      MinAboveIsMinimum(src, pitch, x, y, n - 1);
      var h :| 1 <= h <= n - 1 && MinAbove(src, pitch, x, y, n - 1) == Above(src, pitch, x, y, h);
      if Above(src, pitch, x, y, n) < MinAbove(src, pitch, x, y, n - 1) {
        assert MinAbove(src, pitch, x, y, n) == Above(src, pitch, x, y, n);
      } else {
        assert MinAbove(src, pitch, x, y, n) == Above(src, pitch, x, y, h);
      }
    } else {
      assert MinAbove(src, pitch, x, y, 0) == MAX_VALUE;
      assert MinAbove(src, pitch, x, y, 1) == Above(src, pitch, x, y, 1);
    }
  }

  /** The darkest pixel below is no brighter than any of them, and is one of them. */
  lemma {:induction false} MinBelowIsMinimum(src: seq<Byte>, pitch: nat, x: nat, y: nat, n: nat, distance: nat)
    requires 1 <= n <= distance && (y + distance) * pitch + x < |src|
    ensures forall h :: 1 <= h <= n ==> MinBelow(src, pitch, x, y, n, distance) <= Below(src, pitch, x, y, h, distance)
    ensures exists h :: 1 <= h <= n && MinBelow(src, pitch, x, y, n, distance) == Below(src, pitch, x, y, h, distance)
  {
    if n > 1 {
      MinBelowIsMinimum(src, pitch, x, y, n - 1, distance);
      var h :| 1 <= h <= n - 1 && MinBelow(src, pitch, x, y, n - 1, distance) == Below(src, pitch, x, y, h, distance);
      if Below(src, pitch, x, y, n, distance) < MinBelow(src, pitch, x, y, n - 1, distance) {
        assert MinBelow(src, pitch, x, y, n, distance) == Below(src, pitch, x, y, n, distance);
      } else {
        assert MinBelow(src, pitch, x, y, n, distance) == Below(src, pitch, x, y, h, distance);
      }
    } else {
      assert MinBelow(src, pitch, x, y, 0, distance) == MAX_VALUE;
      assert MinBelow(src, pitch, x, y, 1, distance) == Below(src, pitch, x, y, 1, distance);
    }
  }

  /**
   * With a one-row bitmap and the emboss radius 2, the guard as written
   * lets row 0 through and the search reads past the bitmap; the intended
   * guard treats the pixel as next to the edge.
   */
  method DarkestBelowAsWrittenOverruns() returns (asWritten: Result<Byte>, intended: Byte)
    ensures asWritten == Err(OutOfRange) && intended == 0
  {
    assert (1 - 2) % 0x1_0000_0000 == 0xFFFF_FFFF;
    asWritten := FindDarkestBelowAsWritten([255], 1, 1, 0, 0, 2);
    intended := FindDarkestBelow([255], 1, 1, 0, 0, 2);
  }

  // ----- blending

  /** A bitmap of `height` rows of `width` bytes, rows `pitch` apart, within `length` bytes. */
  predicate SourceFits(length: nat, width: nat, height: nat, pitch: nat)
  {
    height == 0 || (height - 1) * pitch + width <= length
  }

  /** An area of `height` rows of `width` four-byte pixels, rows `pitch` apart and not overlapping, within `length` bytes. */
  predicate DestFits(length: nat, width: nat, height: nat, pitch: nat)
  {
    4 * width <= pitch && (height == 0 || (height - 1) * pitch + 4 * width <= length)
  }

  /** Byte m of the destination lies in a pixel of the area. */
  predicate InArea(m: nat, pitch: nat, width: nat, height: nat)
  {
    pitch > 0 && m / pitch < height && m % pitch < 4 * width
  }

  /** Byte m lies in a pixel the loops have reached: a row above y, or row y left of x. */
  predicate Done(m: nat, pitch: nat, width: nat, height: nat, y: nat, x: nat)
  {
    InArea(m, pitch, width, height) && (m / pitch < y || (m / pitch == y && (m % pitch) / 4 < x))
  }

  /** The source value of the pixel that destination byte m belongs to. */
  function SrcAt(src: seq<Byte>, srcPitch: nat, width: nat, height: nat, m: nat, pitch: nat): Byte
    requires InArea(m, pitch, width, height) && SourceFits(|src|, width, height, srcPitch)
  {
    var y, x := m / pitch, (m % pitch) / 4;
    RowBound(y, x, width, height, srcPitch);
    src[y * srcPitch + x]
  }

  /** What `blend_bitmap_alpha` makes of byte m: alpha bytes add the source value, the rest stay. */
  function AlphaByte(orig: seq<Byte>, src: seq<Byte>, srcPitch: nat, width: nat, height: nat, pitch: nat, m: nat): Byte
    requires m < |orig| && InArea(m, pitch, width, height) && SourceFits(|src|, width, height, srcPitch)
  {
    if (m % pitch) % 4 == 3 then AddAlpha(orig[m], SrcAt(src, srcPitch, width, height, m, pitch)) else orig[m]
  }

  /** Byte m after the loops reached pixel (x, y). */
  function AlphaAfter(orig: seq<Byte>, src: seq<Byte>, srcPitch: nat, width: nat, height: nat, pitch: nat,
                      m: nat, y: nat, x: nat): Byte
    requires m < |orig| && SourceFits(|src|, width, height, srcPitch)
  {
    if Done(m, pitch, width, height, y, x) then AlphaByte(orig, src, srcPitch, width, height, pitch, m) else orig[m]
  }

  /**
   * `blend_bitmap_alpha`: adds every source value, saturating, into the
   * alpha byte of the matching destination pixel; no other byte changes.
   */
  method BlendBitmapAlpha(src: seq<Byte>, width: nat, height: nat, srcPitch: nat, dest: array<Byte>, destPitch: nat)
    requires SourceFits(|src|, width, height, srcPitch) && DestFits(dest.Length, width, height, destPitch)
    modifies dest
    ensures forall m :: 0 <= m < dest.Length ==>
      dest[m] == if InArea(m, destPitch, width, height)
                 then AlphaByte(old(dest[..]), src, srcPitch, width, height, destPitch, m)
                 else old(dest[m])
  {
    ghost var orig := dest[..];
    forall m | 0 <= m < dest.Length
      ensures dest[m] == AlphaAfter(orig, src, srcPitch, width, height, destPitch, m, 0, 0)
    {
      NothingDone(m, destPitch, width, height);
    }
    for y := 0 to height
      invariant forall m :: 0 <= m < dest.Length ==>
        dest[m] == AlphaAfter(orig, src, srcPitch, width, height, destPitch, m, y, 0)
    {
      BlendAlphaRow(src, width, height, srcPitch, dest, destPitch, y, orig);
    }
    forall m | 0 <= m < dest.Length
      ensures dest[m] == if InArea(m, destPitch, width, height)
                         then AlphaByte(orig, src, srcPitch, width, height, destPitch, m)
                         else orig[m]
    {
      assert Done(m, destPitch, width, height, height, 0) == InArea(m, destPitch, width, height);
    }
  }

  /** Row y of `blend_bitmap_alpha`. */
  method BlendAlphaRow(src: seq<Byte>, width: nat, height: nat, srcPitch: nat, dest: array<Byte>, destPitch: nat,
                       y: nat, ghost orig: seq<Byte>)
    requires y < height && |orig| == dest.Length
    requires SourceFits(|src|, width, height, srcPitch) && DestFits(dest.Length, width, height, destPitch)
    requires forall m :: 0 <= m < dest.Length ==>
      dest[m] == AlphaAfter(orig, src, srcPitch, width, height, destPitch, m, y, 0)
    modifies dest
    ensures forall m :: 0 <= m < dest.Length ==>
      dest[m] == AlphaAfter(orig, src, srcPitch, width, height, destPitch, m, y + 1, 0)
  {
    var x, d := 0, 0;
    while x < width
      invariant x <= width && d == 4 * x
      invariant forall m :: 0 <= m < dest.Length ==>
        dest[m] == AlphaAfter(orig, src, srcPitch, width, height, destPitch, m, y, x)
      decreases width - x
    {
      PixelBounds(y, x, width, height, destPitch, dest.Length);
      RowBound(y, x, width, height, srcPitch);
      var i := y * destPitch + d + 3;
      var srcAlpha := src[y * srcPitch + x];
      ghost var before := dest[..];
      dest[i] := AddAlpha(dest[i], srcAlpha);
      forall m | 0 <= m < dest.Length
        ensures dest[m] == AlphaAfter(orig, src, srcPitch, width, height, destPitch, m, y, x + 1)
      {
        AlphaStep(orig, src, srcPitch, width, height, destPitch, m, y, x);
        assert m != i ==> dest[m] == before[m];
      }
      x, d := x + 1, d + 4;
    }
    forall m | 0 <= m < dest.Length
      ensures dest[m] == AlphaAfter(orig, src, srcPitch, width, height, destPitch, m, y + 1, 0)
    {
      assert Done(m, destPitch, width, height, y, width) == Done(m, destPitch, width, height, y + 1, 0);
    }
  }

  /** Moving past pixel (x, y) changes only its alpha byte, to the saturated sum. */
  lemma {:induction false} AlphaStep(orig: seq<Byte>, src: seq<Byte>, srcPitch: nat, width: nat, height: nat, pitch: nat,
                  m: nat, y: nat, x: nat)
    requires m < |orig| && y < height && x < width
    requires SourceFits(|src|, width, height, srcPitch) && DestFits(|orig|, width, height, pitch)
    ensures m != y * pitch + 4 * x + 3 ==>
      AlphaAfter(orig, src, srcPitch, width, height, pitch, m, y, x + 1) ==
      AlphaAfter(orig, src, srcPitch, width, height, pitch, m, y, x)
    ensures m == y * pitch + 4 * x + 3 ==>
      AlphaAfter(orig, src, srcPitch, width, height, pitch, m, y, x) == orig[m] &&
      AlphaAfter(orig, src, srcPitch, width, height, pitch, m, y, x + 1) == AddAlpha(orig[m], src[y * srcPitch + x])
  {
    PixelStep(m, pitch, width, height, y, x);
    if m == y * pitch + 4 * x + 3 {
      PixelOf(y, x, 3, pitch, width);
    } else if Done(m, pitch, width, height, y, x + 1) && !Done(m, pitch, width, height, y, x) {
      var k := m - (y * pitch + 4 * x);
      PixelOf(y, x, k, pitch, width);
    }
  }

  /** The colour bytes the floating-point part of `blend_bitmap` produces. */
  datatype Rgb = Rgb(r: Byte, g: Byte, b: Byte)

  function Channel(c: Rgb, k: nat): Byte
    requires k < 3
  {
    if k == 0 then c.r else if k == 1 then c.g else c.b
  }

  /** `emboss_radius`: how far the edge detection looks above and below. */
  const EMBOSS_RADIUS: nat := 2

  /**
   * The colour of a blended pixel, by row, source value, destination alpha
   * and the darkest pixels above and below (255 each when not embossed,
   * which makes the emboss terms vanish): the gradient, emboss shading,
   * alpha blend and sRGB conversion in floating point.
   */
  type Shade = (nat, Byte, Byte, Byte, Byte) -> Rgb

  /** The darkest pixels above and below pixel (x, y) as the emboss uses them. */
  function EmbossEdges(src: seq<Byte>, srcPitch: nat, width: nat, height: nat, x: nat, y: nat, embossed: bool): (Byte, Byte)
    requires x < width && y < height && SourceFits(|src|, width, height, srcPitch)
  {
    if !embossed then (MAX_VALUE, MAX_VALUE)
    else
      EdgeBounds(src, srcPitch, width, height, x, y);
      (DarkestAbove(src, srcPitch, x, y, EMBOSS_RADIUS), DarkestBelow(src, srcPitch, height, x, y, EMBOSS_RADIUS))
  }

  /**
   * What `blend_bitmap` makes of byte m: pixels with source value 0 stay;
   * the others take the shaded colour and add the source value to alpha.
   */
  function BlendedByte(orig: seq<Byte>, src: seq<Byte>, srcPitch: nat, width: nat, height: nat, pitch: nat,
                       shade: Shade, embossed: bool, m: nat): Byte
    requires m < |orig| && InArea(m, pitch, width, height)
    requires SourceFits(|src|, width, height, srcPitch) && DestFits(|orig|, width, height, pitch)
  {
    Decompose(m, pitch);
    var y: nat, col: nat := m / pitch, m % pitch;
    var x, k := col / 4, col % 4;
    var s := SrcAt(src, srcPitch, width, height, m, pitch);
    if s == 0 then orig[m]
    else if k == 3 then AddAlpha(orig[m], s)
    else
      PixelBounds(y, x, width, height, pitch, |orig|);
      PixelOf(y, x, k, pitch, width);
      var edges := EmbossEdges(src, srcPitch, width, height, x, y, embossed);
      Channel(shade(y, s, orig[m - k + 3], edges.0, edges.1), k)
  }

  /** Byte m after the loops reached pixel (x, y). */
  function BlendAfter(orig: seq<Byte>, src: seq<Byte>, srcPitch: nat, width: nat, height: nat, pitch: nat,
                      shade: Shade, embossed: bool, m: nat, y: nat, x: nat): Byte
    requires m < |orig| && SourceFits(|src|, width, height, srcPitch) && DestFits(|orig|, width, height, pitch)
  {
    if Done(m, pitch, width, height, y, x) then BlendedByte(orig, src, srcPitch, width, height, pitch, shade, embossed, m)
    else orig[m]
  }

  /**
   * `blend_bitmap`, its integer part: every pixel whose source value is
   * non-zero gets the shaded colour and its alpha plus the source value,
   * saturating; every other byte is unchanged.
   */
  method BlendBitmap(src: seq<Byte>, width: nat, height: nat, srcPitch: nat, dest: array<Byte>, destPitch: nat,
                     shade: Shade, embossed: bool)
    requires SourceFits(|src|, width, height, srcPitch) && DestFits(dest.Length, width, height, destPitch)
    modifies dest
    ensures forall m :: 0 <= m < dest.Length ==>
      dest[m] == if InArea(m, destPitch, width, height)
                 then BlendedByte(old(dest[..]), src, srcPitch, width, height, destPitch, shade, embossed, m)
                 else old(dest[m])
  {
    ghost var orig := dest[..];
    forall m | 0 <= m < dest.Length
      ensures dest[m] == BlendAfter(orig, src, srcPitch, width, height, destPitch, shade, embossed, m, 0, 0)
    {
      NothingDone(m, destPitch, width, height);
    }
    var y, dstOfs, srcRowOfs := 0, 0, 0;
    while y < height
      invariant y <= height && dstOfs == y * destPitch && srcRowOfs == y * srcPitch
      invariant forall m :: 0 <= m < dest.Length ==>
        dest[m] == BlendAfter(orig, src, srcPitch, width, height, destPitch, shade, embossed, m, y, 0)
      decreases height - y
    {
      BlendRow(src, width, height, srcPitch, dest, destPitch, shade, embossed, y, dstOfs, srcRowOfs, orig);
      y, dstOfs, srcRowOfs := y + 1, dstOfs + destPitch, srcRowOfs + srcPitch;
    }
    forall m | 0 <= m < dest.Length
      ensures dest[m] == if InArea(m, destPitch, width, height)
                         then BlendedByte(orig, src, srcPitch, width, height, destPitch, shade, embossed, m)
                         else orig[m]
    {
      assert Done(m, destPitch, width, height, height, 0) == InArea(m, destPitch, width, height);
    }
  }

  /** Row y of `blend_bitmap`, starting at byte `dstOfs` of the destination and `srcRowOfs` of the source. */
  method BlendRow(src: seq<Byte>, width: nat, height: nat, srcPitch: nat, dest: array<Byte>, destPitch: nat,
                  shade: Shade, embossed: bool, y: nat, dstOfs: nat, srcRowOfs: nat, ghost orig: seq<Byte>)
    requires y < height && dstOfs == y * destPitch && srcRowOfs == y * srcPitch && |orig| == dest.Length
    requires SourceFits(|src|, width, height, srcPitch) && DestFits(dest.Length, width, height, destPitch)
    requires forall m :: 0 <= m < dest.Length ==>
      dest[m] == BlendAfter(orig, src, srcPitch, width, height, destPitch, shade, embossed, m, y, 0)
    modifies dest
    ensures forall m :: 0 <= m < dest.Length ==>
      dest[m] == BlendAfter(orig, src, srcPitch, width, height, destPitch, shade, embossed, m, y + 1, 0)
  {
    var x, d := 0, dstOfs;
    while x < width
      invariant x <= width && d == dstOfs + 4 * x
      invariant forall m :: 0 <= m < dest.Length ==>
        dest[m] == BlendAfter(orig, src, srcPitch, width, height, destPitch, shade, embossed, m, y, x)
      decreases width - x
    {
      BlendPixel(src, width, height, srcPitch, dest, destPitch, shade, embossed, x, y, d, srcRowOfs, orig);
      x, d := x + 1, d + 4;
    }
    forall m | 0 <= m < dest.Length
      ensures dest[m] == BlendAfter(orig, src, srcPitch, width, height, destPitch, shade, embossed, m, y + 1, 0)
    {
      assert Done(m, destPitch, width, height, y, width) == Done(m, destPitch, width, height, y + 1, 0);
    }
  }

  /** The body of the inner loop of `blend_bitmap`, for pixel (x, y) at byte d. */
  method BlendPixel(src: seq<Byte>, width: nat, height: nat, srcPitch: nat, dest: array<Byte>, destPitch: nat,
                    shade: Shade, embossed: bool, x: nat, y: nat, d: nat, srcRowOfs: nat, ghost orig: seq<Byte>)
    requires x < width && y < height && d == y * destPitch + 4 * x && srcRowOfs == y * srcPitch && |orig| == dest.Length
    requires SourceFits(|src|, width, height, srcPitch) && DestFits(dest.Length, width, height, destPitch)
    requires forall m :: 0 <= m < dest.Length ==>
      dest[m] == BlendAfter(orig, src, srcPitch, width, height, destPitch, shade, embossed, m, y, x)
    modifies dest
    ensures forall m :: 0 <= m < dest.Length ==>
      dest[m] == BlendAfter(orig, src, srcPitch, width, height, destPitch, shade, embossed, m, y, x + 1)
  {
    PixelBounds(y, x, width, height, destPitch, dest.Length);
    RowBound(y, x, width, height, srcPitch);
    ghost var before := dest[..];
    var srcValue := src[srcRowOfs + x];
    if srcValue != 0 {
      var darkestTop, darkestBottom := MAX_VALUE, MAX_VALUE;
      if embossed {
        EdgeBounds(src, srcPitch, width, height, x, y);
        darkestTop := FindDarkestAbove(src, srcPitch, x, y, EMBOSS_RADIUS);
        darkestBottom := FindDarkestBelow(src, srcPitch, height, x, y, EMBOSS_RADIUS);
      }
      var dstAlpha := dest[d + 3];
      var pixel := shade(y, srcValue, dstAlpha, darkestTop, darkestBottom);
      dest[d + 0] := pixel.r;
      dest[d + 1] := pixel.g;
      dest[d + 2] := pixel.b;
      dest[d + 3] := AddAlpha(dstAlpha, srcValue);
      assert dest[..] == Painted(before, d, pixel, AddAlpha(dstAlpha, srcValue));
    }
    PixelWritten(orig, src, srcPitch, width, height, destPitch, shade, embossed, x, y, before, dest[..]);
  }

  /** The buffer with colour `c` and alpha `a` stored in the four bytes from `d`. */
  function Painted(b: seq<Byte>, d: nat, c: Rgb, a: Byte): (r: seq<Byte>)
    requires d + 4 <= |b|
    ensures |r| == |b| && r[d] == c.r && r[d + 1] == c.g && r[d + 2] == c.b && r[d + 3] == a
    ensures forall m :: 0 <= m < |b| && !(d <= m < d + 4) ==> r[m] == b[m]
  {
    b[d := c.r][d + 1 := c.g][d + 2 := c.b][d + 3 := a]
  }

  /**
   * Pixel (x, y) stored as the inner loop of `blend_bitmap` stores it moves
   * the buffer from "reached (x, y)" to "reached (x + 1, y)".
   */
  lemma {:induction false} PixelWritten(orig: seq<Byte>, src: seq<Byte>, srcPitch: nat, width: nat, height: nat, pitch: nat,
                                       shade: Shade, embossed: bool, x: nat, y: nat, before: seq<Byte>, after: seq<Byte>)
    requires x < width && y < height && |orig| == |before|
    requires SourceFits(|src|, width, height, srcPitch) && DestFits(|orig|, width, height, pitch)
    requires y * pitch + 4 * x + 3 < |before| && y * srcPitch + x < |src|
    requires forall m :: 0 <= m < |before| ==> before[m] == BlendAfter(orig, src, srcPitch, width, height, pitch, shade, embossed, m, y, x)
    requires var s := src[y * srcPitch + x];
      var d := y * pitch + 4 * x;
      var edges := EmbossEdges(src, srcPitch, width, height, x, y, embossed);
      after == if s == 0 then before else Painted(before, d, shade(y, s, before[d + 3], edges.0, edges.1), AddAlpha(before[d + 3], s))
    ensures |after| == |orig|
    ensures forall m :: 0 <= m < |after| ==> after[m] == BlendAfter(orig, src, srcPitch, width, height, pitch, shade, embossed, m, y, x + 1)
  {
    var d := y * pitch + 4 * x;
    PixelOf(y, x, 3, pitch, width);
    assert before[d + 3] == orig[d + 3];
    forall m | 0 <= m < |after|
      ensures after[m] == BlendAfter(orig, src, srcPitch, width, height, pitch, shade, embossed, m, y, x + 1)
    {
      PixelStep(m, pitch, width, height, y, x);
      if d <= m < d + 4 {
        PixelOf(y, x, m - d, pitch, width);
      }
    }
  }

  // ----- index arithmetic

  /** Pixel x of row y of a fitting bitmap lies in it. */
  lemma {:induction false} RowBound(y: nat, x: nat, width: nat, height: nat, pitch: nat)
    requires y < height && x < width
    ensures y * pitch + x < (height - 1) * pitch + width
  {
    MulMono(y, height - 1, pitch);
  }

  /** The four bytes of pixel (x, y) of a fitting area lie in it. */
  lemma {:induction false} PixelBounds(y: nat, x: nat, width: nat, height: nat, pitch: nat, length: nat)
    requires y < height && x < width && DestFits(length, width, height, pitch)
    ensures y * pitch + 4 * x + 3 < length
  {
    MulMono(y, height - 1, pitch);
  }

  /** Byte m of an area lies in row m / pitch, at column m % pitch, which is 4x + k for pixel x and channel k. */
  lemma {:induction false} Decompose(m: nat, pitch: nat)
    requires pitch > 0
    ensures 0 <= m / pitch && 0 <= m % pitch < pitch
    ensures m == (m / pitch) * pitch + 4 * ((m % pitch) / 4) + (m % pitch) % 4
  {
  }

  /** Before the loops start no byte has been reached. */
  lemma {:induction false} NothingDone(m: nat, pitch: nat, width: nat, height: nat)
    ensures !Done(m, pitch, width, height, 0, 0)
  {
    if pitch > 0 {
      Decompose(m, pitch);
    }
  }

  /** Byte k of pixel (x, y) lies in row y, column 4x + k. */
  lemma {:induction false} PixelOf(y: nat, x: nat, k: nat, pitch: nat, width: nat)
    requires x < width && k < 4 && 4 * width <= pitch
    ensures (y * pitch + 4 * x + k) / pitch == y && (y * pitch + 4 * x + k) % pitch == 4 * x + k
  {
    DivModUnique(y * pitch + 4 * x + k, pitch, y, 4 * x + k);
  }

  /** Moving past pixel (x, y) adds exactly its four bytes to those reached. */
  lemma {:induction false} PixelStep(m: nat, pitch: nat, width: nat, height: nat, y: nat, x: nat)
    requires y < height && x < width && 4 * width <= pitch
    ensures Done(m, pitch, width, height, y, x + 1) <==>
      Done(m, pitch, width, height, y, x) || y * pitch + 4 * x <= m < y * pitch + 4 * x + 4
  {
    var base := y * pitch + 4 * x;
    if base <= m < base + 4 {
      PixelOf(y, x, m - base, pitch, width);
    }
  }

  /** The rows the emboss searches lie in a fitting bitmap whenever the search reads them. */
  lemma {:induction false} EdgeBounds(src: seq<Byte>, srcPitch: nat, width: nat, height: nat, x: nat, y: nat)
    requires x < width && y < height && SourceFits(|src|, width, height, srcPitch)
    ensures y < EMBOSS_RADIUS || (y - 1) * srcPitch + x < |src|
    ensures y + EMBOSS_RADIUS >= height || (y + EMBOSS_RADIUS) * srcPitch + x < |src|
  {
    if y >= 1 {
      RowBound(y - 1, x, width, height, srcPitch);
    }
    if y + EMBOSS_RADIUS < height {
      RowBound(y + EMBOSS_RADIUS, x, width, height, srcPitch);
    }
  }

  // ----- the library handle

  /**
   * `LibraryState`: the FreeType library shared by all font faces, made on
   * the first `acquire` and finalised by the `release` that brings the
   * count back to zero. The count is a 32-bit unsigned integer.
   */
  class LibraryState {
    var refcount: Uint32
    /** Whether the library handle is initialised. */
    var initialised: bool

    /** The handle is initialised exactly while some face holds it. */
    predicate Valid()
      reads this
    {
      initialised <==> refcount > 0
    }

    constructor ()
      ensures refcount == 0 && !initialised && Valid()
    {
      refcount := 0;
      initialised := false;
    }

    /**
     * `acquire`: initialises the library when the count is zero (which
     * `initSucceeds` says succeeds), then counts one more holder. A failed
     * initialisation is a `FontError` and leaves the count as it was.
     */
    method Acquire(initSucceeds: bool) returns (r: Result<()>)
      modifies this
      ensures old(refcount) == 0 && !initSucceeds ==>
        r == Err(FontError) && refcount == old(refcount) && initialised == old(initialised)
      ensures old(refcount) != 0 || initSucceeds ==>
        r == Ok(()) && refcount == (old(refcount) + 1) % 0x1_0000_0000 &&
        initialised == (old(initialised) || old(refcount) == 0)
      ensures old(Valid()) && old(refcount) < 0xFFFF_FFFF ==> Valid()
    {
      if refcount == 0 {
        if !initSucceeds {
          return Err(FontError);
        }
        initialised := true;
      }
      refcount := (refcount + 1) % 0x1_0000_0000;
      r := Ok(());
    }

    /** `release`: counts one holder less and finalises the library when none is left. */
    method Release()
      modifies this
      ensures refcount == (old(refcount) - 1) % 0x1_0000_0000
      ensures initialised == (old(initialised) && refcount != 0)
      ensures old(Valid()) && old(refcount) > 0 ==> Valid()
    {
      refcount := (refcount - 1) % 0x1_0000_0000;
      if refcount == 0 {
        initialised := false;
      }
    }
  }

  /** Two faces share one library: it stays initialised until the second is released. */
  method TwoFacesShareLibrary() returns (afterFirstRelease: bool, afterSecondRelease: bool, count: Uint32)
    ensures afterFirstRelease && !afterSecondRelease && count == 0
  {
    var library := new LibraryState();
    var r1 := library.Acquire(true);
    var r2 := library.Acquire(false);
    library.Release();
    afterFirstRelease := library.initialised;
    library.Release();
    afterSecondRelease := library.initialised;
    count := library.refcount;
  }

  // ----- texture size

  /**
   * The texture's width or height for text `extent` pixels wide or high:
   * one transparent pixel on each side, rounded up to a power of two by
   * `ceil_power_of_two`; the extent is taken as the 32-bit value the call
   * receives.
   */
  function TextureExtent(extent: bv32): (r: bv32)
    ensures extent <= 0x7FFF_FFFE ==> IsPowerOfTwo(r) && extent + 2 <= r
  {
    CeilPowerOfTwo(extent + 2)
  }

  /**
   * For text up to 2^31 - 2 pixels, the texture extent is a power of two
   * that leaves the text a pixel of border on each side, and less than
   * twice what that needs.
   */
  lemma {:induction false} TextureExtentFits(extent: bv32)
    requires extent <= 0x7FFF_FFFE
    ensures IsPowerOfTwo(TextureExtent(extent))
    ensures extent + 2 <= TextureExtent(extent) && TextureExtent(extent) >> 1 < extent + 2
  {
    CeilIsPowerOfTwo(extent + 2);
  }

  /** Text already a power of two minus the border needs exactly that extent. */
  lemma {:induction false} TextureExtentExact(extent: bv32)
    requires IsPowerOfTwo(extent + 2)
    ensures TextureExtent(extent) == extent + 2
  {
    CeilOfPowerOfTwo(extent + 2);
  }
}
