/**
 * DirectDraw Surface textures (src/renderer/io/texture_dds.cpp): the
 * `DDS_HEADER` and `DDS_PIXELFORMAT` records, FourCC codes, the pixel
 * formats the loader supports (32-bit RGBA/BGRA and the block-compressed
 * BC1-BC3), the layout of the mip chain and the loader itself.
 */
module Dds {
  import opened Errors
  import opened Bytes
  import opened Streams
  import opened StreamIO
  import opened Textures

  const DDSF_CAPS: nat := 1
  const DDSF_HEIGHT: nat := 2
  const DDSF_WIDTH: nat := 4
  const DDSF_PIXELFORMAT: nat := 0x1000
  const DDSF_MIPMAPCOUNT: nat := 0x2_0000
  const DDSF_DEPTH: nat := 0x80_0000
  const DDSCAPS2_CUBEMAP: nat := 0x200
  const DDPF_FOURCC: nat := 4
  const DDPF_RGB: nat := 0x40

  /** "DDS " read as a little-endian 32-bit value. */
  const DDS_MAGIC: nat := 0x2053_4444
  const DDS_HEADER_SIZE: nat := 124
  const DDS_PIXELFORMAT_SIZE: nat := 32
  /** The 32-bit words of the header after the magic, `DDS_HEADER` laid out in file order. */
  const HEADER_WORDS: nat := 31

  /** `(x & bit) != 0` for a single-bit mask `bit`: bit log2(bit) of `x` is set. */
  predicate HasFlag(x: nat, bit: nat)
    requires bit > 0
  {
    (x / bit) % 2 == 1
  }

  // ----- FourCC codes

  /** A character converted to `std::uint8_t`: its code modulo 256. */
  function Ch(c: char): Byte
  {
    (c as int) % 256
  }

  /** `fourcc`: the four characters as one 32-bit value, the first in the lowest byte. */
  function FourCC(c0: char, c1: char, c2: char, c3: char): (r: Uint32)
    ensures LeBytes(r, 4) == [Ch(c0), Ch(c1), Ch(c2), Ch(c3)]
    ensures LeValue([Ch(c0), Ch(c1), Ch(c2), Ch(c3)]) == r
  {
    var b0, b1, b2, b3 := Ch(c0), Ch(c1), Ch(c2), Ch(c3);
    var bs := [b0, b1, b2, b3];
    assert bs[1..] == [b1, b2, b3] && [b1, b2, b3][1..] == [b2, b3] && [b2, b3][1..] == [b3] && [b3][1..] == [];
    assert LeValue([b3]) == b3;
    assert LeValue([b2, b3]) == b2 + 256 * b3;
    assert LeValue([b1, b2, b3]) == b1 + 256 * (b2 + 256 * b3);
    assert LeValue(bs) == b0 + 256 * (b1 + 256 * (b2 + 256 * b3));
    LeBytesOfValue(bs);
    b0 + 0x100 * b1 + 0x1_0000 * b2 + 0x100_0000 * b3
  }

  /** The magic number is the FourCC code "DDS ". */
  lemma {:induction false} MagicIsFourCC()
    ensures DDS_MAGIC == FourCC('D', 'D', 'S', ' ')
  {
  }

  // ----- pixel formats

  /** `DDS_PIXELFORMAT` after its size field. */
  datatype DdsPixelFormat = DdsPixelFormat(
    flags: nat, fourcc: nat, rgbBitCount: nat, rMask: nat, gMask: nat, bMask: nat, aMask: nat)

  /** The channel masks of a 32-bit pixel with red in the lowest byte. */
  predicate RgbaMasks(p: DdsPixelFormat)
  {
    p.rMask == 0xff && p.gMask == 0xff00 && p.bMask == 0xff_0000 && p.aMask == 0xff00_0000
  }

  /** The channel masks of a 32-bit pixel with blue in the lowest byte. */
  predicate BgraMasks(p: DdsPixelFormat)
  {
    p.rMask == 0xff_0000 && p.gMask == 0xff00 && p.bMask == 0xff && p.aMask == 0xff00_0000
  }

  /**
   * `pixel_format`: an RGB format is supported only at 32 bits with RGBA or
   * BGRA masks; otherwise a FourCC format DXT1 is BC1, DXT2/DXT3 BC2 and
   * DXT4/DXT5 BC3; anything else has no format.
   */
  function PixelFormatOf(p: DdsPixelFormat): (r: Option<PixelFormat>)
    ensures r == Some(R8G8B8A8Srgb) <==> HasFlag(p.flags, DDPF_RGB) && p.rgbBitCount == 32 && RgbaMasks(p)
    ensures r == Some(B8G8R8A8Srgb) <==> HasFlag(p.flags, DDPF_RGB) && p.rgbBitCount == 32 && BgraMasks(p)
    ensures r == Some(Bc1Srgb) <==>
      !HasFlag(p.flags, DDPF_RGB) && HasFlag(p.flags, DDPF_FOURCC) && p.fourcc == FourCC('D', 'X', 'T', '1')
    ensures r == Some(Bc2Srgb) <==>
      !HasFlag(p.flags, DDPF_RGB) && HasFlag(p.flags, DDPF_FOURCC) &&
      (p.fourcc == FourCC('D', 'X', 'T', '2') || p.fourcc == FourCC('D', 'X', 'T', '3'))
    ensures r == Some(Bc3Srgb) <==>
      !HasFlag(p.flags, DDPF_RGB) && HasFlag(p.flags, DDPF_FOURCC) &&
      (p.fourcc == FourCC('D', 'X', 'T', '4') || p.fourcc == FourCC('D', 'X', 'T', '5'))
  {
    if HasFlag(p.flags, DDPF_RGB) then
      if p.rgbBitCount == 32 && RgbaMasks(p) then Some(R8G8B8A8Srgb)
      else if p.rgbBitCount == 32 && BgraMasks(p) then Some(B8G8R8A8Srgb)
      else None
    else if HasFlag(p.flags, DDPF_FOURCC) then
      if p.fourcc == FourCC('D', 'X', 'T', '1') then Some(Bc1Srgb)
      else if p.fourcc == FourCC('D', 'X', 'T', '2') || p.fourcc == FourCC('D', 'X', 'T', '3') then Some(Bc2Srgb)
      else if p.fourcc == FourCC('D', 'X', 'T', '4') || p.fourcc == FourCC('D', 'X', 'T', '5') then Some(Bc3Srgb)
      else None
    else None
  }

  /** The pixel-format record a writer stores for each supported format. */
  function DescriptorOf(pf: PixelFormat): (p: DdsPixelFormat)
  {
    match pf
    case R8G8B8A8Srgb => DdsPixelFormat(DDPF_RGB, 0, 32, 0xff, 0xff00, 0xff_0000, 0xff00_0000)
    case B8G8R8A8Srgb => DdsPixelFormat(DDPF_RGB, 0, 32, 0xff_0000, 0xff00, 0xff, 0xff00_0000)
    case Bc1Srgb => DdsPixelFormat(DDPF_FOURCC, FourCC('D', 'X', 'T', '1'), 0, 0, 0, 0, 0)
    case Bc2Srgb => DdsPixelFormat(DDPF_FOURCC, FourCC('D', 'X', 'T', '3'), 0, 0, 0, 0, 0)
    case Bc3Srgb => DdsPixelFormat(DDPF_FOURCC, FourCC('D', 'X', 'T', '5'), 0, 0, 0, 0, 0)
  }

  /** Every supported format is recognised from the record that describes it. */
  lemma {:induction false} PixelFormatRoundTrip(pf: PixelFormat)
    ensures PixelFormatOf(DescriptorOf(pf)) == Some(pf)
  {
    assert HasFlag(DDPF_RGB, DDPF_RGB) && !HasFlag(DDPF_FOURCC, DDPF_RGB) && HasFlag(DDPF_FOURCC, DDPF_FOURCC);
  }

  /** A DX10 extended header: a FourCC format with code "DX10". */
  predicate IsDx10(p: DdsPixelFormat)
  {
    HasFlag(p.flags, DDPF_FOURCC) && p.fourcc == FourCC('D', 'X', '1', '0')
  }

  /** The DX10 code is none of the supported FourCC codes. */
  lemma {:induction false} Dx10Unsupported(p: DdsPixelFormat)
    requires IsDx10(p) && !HasFlag(p.flags, DDPF_RGB)
    ensures PixelFormatOf(p) == None
  {
  }

  // ----- the mip chain

  /** `round_up`: `value / divisor` rounded up, the fewest multiples of `divisor` covering `value`. */
  function RoundUp(value: nat, divisor: nat): (r: nat)
    requires divisor > 0
    ensures r * divisor >= value
    ensures r > 0 ==> (r - 1) * divisor < value
  {
    var q := (value + divisor - 1) / divisor;
    assert q * divisor + (value + divisor - 1) % divisor == value + divisor - 1;
    assert (q - 1) * divisor == q * divisor - divisor;
    q
  }

  /** The 4x4 blocks along a side of `n` pixels: none for an empty side, else at least one. */
  function Blocks(n: nat): (r: nat)
    ensures n == 0 ==> r == 0
    ensures n > 0 ==> r >= 1 && 4 * (r - 1) < n <= 4 * r
  {
    if n > 0 then Max(1, RoundUp(n, 4)) else 0
  }

  predicate Compressed(pf: PixelFormat)
  {
    pf == Bc1Srgb || pf == Bc2Srgb || pf == Bc3Srgb
  }

  /** The bytes of one 4x4 block: 8 for BC1, 16 for BC2 and BC3. */
  function BlockBytes(pf: PixelFormat): nat
  {
    if pf == Bc1Srgb then 8 else 16
  }

  /** A mip dimension halved, but never below 1. */
  function Half(n: nat): (r: nat)
    ensures r >= 1 && (n >= 2 ==> 2 * r <= n)
  {
    Max(1, n / 2)
  }

  /**
   * One mip level of `w` x `h` x `d` pixels at `offset`: compressed rows
   * are rows of blocks; uncompressed rows hold 32 bits per pixel rounded up
   * to bytes, and a slice holds `rows` such rows.
   */
  function LevelLayout(pf: PixelFormat, w: nat, h: nat, rows: nat, d: nat, offset: nat): (r: Subresource)
    ensures r.dataOffset == offset && r.dataSize == r.depthStride * d
    ensures Compressed(pf) ==> r.stride == Blocks(w) * BlockBytes(pf) && r.depthStride == r.stride * Blocks(h)
    ensures !Compressed(pf) ==> r.stride == 4 * w && r.depthStride == r.stride * rows
  {
    MulNat(w, 32);
    var stride := if Compressed(pf) then Blocks(w) * BlockBytes(pf) else RoundUp(w * 32, 8);
    assert !Compressed(pf) ==> stride == 4 * w by {
      if !Compressed(pf) {
        assert (w * 32 + 7) / 8 == 4 * w by { DivModUnique(w * 32 + 7, 8, 4 * w, 7); }
      }
    }
    MulNat(stride, if Compressed(pf) then Blocks(h) else rows);
    var depthStride := stride * (if Compressed(pf) then Blocks(h) else rows);
    MulNat(depthStride, d);
    Subresource(offset, depthStride * d, stride, depthStride)
  }

  /**
   * The subresources of `n` mip levels from `w` x `h` x `d` down, laid out
   * one after another from `offset`; each uncompressed slice holds the rows
   * of its own level.
   */
  function MipChain(pf: PixelFormat, w: nat, h: nat, d: nat, offset: nat, n: nat): (r: seq<Subresource>)
    ensures |r| == n
    decreases n
  {
    if n == 0 then []
    else
      var level := LevelLayout(pf, w, h, h, d, offset);
      [level] + MipChain(pf, Half(w), Half(h), Half(d), offset + level.dataSize, n - 1)
  }

  /** The mip chain as `create_subresources` writes it: each uncompressed slice holds the rows of the base level. */
  function MipChainAsWritten(pf: PixelFormat, w: nat, h: nat, d: nat, baseHeight: nat, offset: nat, n: nat): (r: seq<Subresource>)
    ensures |r| == n
    decreases n
  {
    if n == 0 then []
    else
      var level := LevelLayout(pf, w, h, baseHeight, d, offset);
      [level] + MipChainAsWritten(pf, Half(w), Half(h), Half(d), baseHeight, offset + level.dataSize, n - 1)
  }

  /** The dimension of mip level `k`: halved `k` times, never below 1. */
  function MipDim(n: nat, k: nat): (r: nat)
    ensures k > 0 ==> r >= 1
  {
    if k == 0 then n else Half(MipDim(n, k - 1))
  }

  /** The total data size of a list of subresources. */
  function TotalSize(subs: seq<Subresource>): nat
  {
    if subs == [] then 0 else TotalSize(subs[..|subs| - 1]) + subs[|subs| - 1].dataSize
  }

  lemma {:induction false} TotalSizeCons(x: Subresource, subs: seq<Subresource>)
    ensures TotalSize([x] + subs) == x.dataSize + TotalSize(subs)
  {
    if subs != [] {
      assert ([x] + subs)[..|subs|] == [x] + subs[..|subs| - 1];
      TotalSizeCons(x, subs[..|subs| - 1]);
    }
  }

  /** Level `k` of the chain starts where the levels before it end: at `offset` plus their sizes. */
  lemma {:induction false} MipChainOffset(pf: PixelFormat, w: nat, h: nat, d: nat, offset: nat, n: nat, k: nat)
    requires k < n
    decreases n
    ensures MipChain(pf, w, h, d, offset, n)[k].dataOffset == offset + TotalSize(MipChain(pf, w, h, d, offset, n)[..k])
  {
    var r := MipChain(pf, w, h, d, offset, n);
    var level := LevelLayout(pf, w, h, h, d, offset);
    var rest := MipChain(pf, Half(w), Half(h), Half(d), offset + level.dataSize, n - 1);
    assert r == [level] + rest;
    if k > 0 {
      MipChainOffset(pf, Half(w), Half(h), Half(d), offset + level.dataSize, n - 1, k - 1);
      assert r[..k] == [level] + rest[..k - 1];
      TotalSizeCons(level, rest[..k - 1]);
    }
  }

  /** Level `k` of the chain is the layout of the level's own dimensions. */
  lemma {:induction false} MipChainLevel(pf: PixelFormat, w: nat, h: nat, d: nat, offset: nat, n: nat, k: nat)
    requires k < n
    decreases n
    ensures MipChain(pf, w, h, d, offset, n)[k] ==
      LevelLayout(pf, MipDim(w, k), MipDim(h, k), MipDim(h, k), MipDim(d, k), MipChain(pf, w, h, d, offset, n)[k].dataOffset)
  {
    if k == 0 {
      MipChainHead(pf, w, h, d, offset, n);
    } else {
      var next := offset + LevelLayout(pf, w, h, h, d, offset).dataSize;
      MipChainTail(pf, w, h, d, offset, n, k);
      MipChainLevel(pf, Half(w), Half(h), Half(d), next, n - 1, k - 1);
      MipDimShift(w, k);
      MipDimShift(h, k);
      MipDimShift(d, k);
    }
  }

  /** The chain starts with the layout of the full-size level at `offset`. */
  lemma {:induction false} MipChainHead(pf: PixelFormat, w: nat, h: nat, d: nat, offset: nat, n: nat)
    requires 0 < n
    ensures MipChain(pf, w, h, d, offset, n)[0] == LevelLayout(pf, w, h, h, d, offset)
  {
  }

  /** A chain of `n` levels is its first level followed by the chain of the halved dimensions after it. */
  lemma {:induction false} MipChainCons(pf: PixelFormat, w: nat, h: nat, d: nat, offset: nat, n: nat)
    requires 0 < n
    ensures MipChain(pf, w, h, d, offset, n) ==
      [LevelLayout(pf, w, h, h, d, offset)] + MipChain(pf, Half(w), Half(h), Half(d), offset + LevelLayout(pf, w, h, h, d, offset).dataSize, n - 1)
  {
  }

  /** Past its first level the chain goes on as the chain of the halved dimensions, after that level. */
  lemma {:induction false} MipChainTail(pf: PixelFormat, w: nat, h: nat, d: nat, offset: nat, n: nat, k: nat)
    requires 0 < k < n
    ensures MipChain(pf, w, h, d, offset, n)[k] ==
      MipChain(pf, Half(w), Half(h), Half(d), offset + LevelLayout(pf, w, h, h, d, offset).dataSize, n - 1)[k - 1]
  {
    MipChainCons(pf, w, h, d, offset, n);
  }

  /** Halving `k` times from the first halving is halving `k + 1` times. */
  lemma {:induction false} MipDimShift(n: nat, k: nat)
    requires k > 0
    ensures MipDim(Half(n), k - 1) == MipDim(n, k)
  {
    if k > 1 {
      MipDimShift(n, k - 1);
    }
  }

  /** The chain covers exactly its total size from `offset`: the last level ends there. */
  lemma {:induction false} MipChainEnd(pf: PixelFormat, w: nat, h: nat, d: nat, offset: nat, n: nat)
    requires n > 0
    ensures var r := MipChain(pf, w, h, d, offset, n);
      r[n - 1].dataOffset + r[n - 1].dataSize == offset + TotalSize(r)
  {
    var r := MipChain(pf, w, h, d, offset, n);
    MipChainOffset(pf, w, h, d, offset, n, n - 1);
    assert r[..n - 1] + [r[n - 1]] == r;
  }

  /** Each level of a non-empty image holds data: at least one row of at least one block or pixel. */
  lemma {:induction false} MipChainNonEmpty(pf: PixelFormat, w: nat, h: nat, d: nat, offset: nat, n: nat, k: nat)
    requires w >= 1 && h >= 1 && d >= 1 && k < n
    ensures MipChain(pf, w, h, d, offset, n)[k].dataSize > 0
  {
    MipChainLevel(pf, w, h, d, offset, n, k);
    var mw, mh, md := MipDim(w, k), MipDim(h, k), MipDim(d, k);
    assert mw >= 1 && mh >= 1 && md >= 1 by {
      if k == 0 {
      }
    }
    LevelNonEmpty(pf, mw, mh, md, MipChain(pf, w, h, d, offset, n)[k].dataOffset);
  }

  /** A level of at least one pixel in each dimension holds data. */
  lemma {:induction false} LevelNonEmpty(pf: PixelFormat, w: nat, h: nat, d: nat, offset: nat)
    requires w >= 1 && h >= 1 && d >= 1
    ensures LevelLayout(pf, w, h, h, d, offset).dataSize > 0
  {
    var l := LevelLayout(pf, w, h, h, d, offset);
    assert l.stride >= 4;
    MulMono(1, h, l.stride);
    MulMono(1, Blocks(h), l.stride);
    MulMono(1, d, l.depthStride);
  }

  /** Every level of an uncompressed image holds exactly four bytes per pixel of that level. */
  lemma {:induction false} UncompressedLevelSize(pf: PixelFormat, w: nat, h: nat, d: nat, offset: nat, n: nat, k: nat)
    requires !Compressed(pf) && k < n
    ensures MipChain(pf, w, h, d, offset, n)[k].dataSize == 4 * MipDim(w, k) * MipDim(h, k) * MipDim(d, k)
  {
    MipChainLevel(pf, w, h, d, offset, n, k);
  }

  /**
   * As written, the second level of a 2x2 RGBA image claims 8 bytes although
   * its single pixel takes 4; the corrected chain gives 4.
   */
  lemma {:induction false} MipChainAsWrittenOversized()
    ensures MipChainAsWritten(R8G8B8A8Srgb, 2, 2, 1, 2, 0, 2)[1].dataSize == 8
    ensures MipChain(R8G8B8A8Srgb, 2, 2, 1, 0, 2)[1].dataSize == 4
  {
    var first := LevelLayout(R8G8B8A8Srgb, 2, 2, 2, 1, 0);
    assert first.dataSize == 16;
    assert MipChainAsWritten(R8G8B8A8Srgb, 2, 2, 1, 2, 0, 2) ==
      [first] + MipChainAsWritten(R8G8B8A8Srgb, 1, 1, 1, 2, 16, 1);
    assert MipChain(R8G8B8A8Srgb, 2, 2, 1, 0, 2) == [first] + MipChain(R8G8B8A8Srgb, 1, 1, 1, 16, 1);
  }

  /** The subresource the loop writes for one level: the switch on the pixel format. */
  method ComputeLevel(pf: PixelFormat, mw: nat, mh: nat, md: nat, offset: nat) returns (level: Subresource)
    ensures level == LevelLayout(pf, mw, mh, mh, md, offset)
  {
    var stride, depthStride;
    if pf == Bc1Srgb || pf == Bc2Srgb || pf == Bc3Srgb {
      var bpe := if pf == Bc1Srgb then 8 else 16;
      var blocksW := if mw > 0 then Max(1, RoundUp(mw, 4)) else 0;
      var blocksH := if mh > 0 then Max(1, RoundUp(mh, 4)) else 0;
      stride := blocksW * bpe;
      depthStride := stride * blocksH;
    } else {
      MulNat(mw, 32);
      stride := RoundUp(mw * 32, 8);
      depthStride := stride * mh;
    }
    MulNat(stride, if Compressed(pf) then Blocks(mh) else mh);
    MulNat(depthStride, md);
    level := Subresource(offset, depthStride * md, stride, depthStride);
  }

  /** Stores level `mip`, extending the stored prefix of the chain by one. */
  method StoreLevel(a: array<Subresource>, mip: nat, level: Subresource, ghost whole: seq<Subresource>)
    requires mip < a.Length && mip < |whole| && a[..mip] == whole[..mip] && whole[mip] == level
    modifies a
    ensures a[..mip + 1] == whole[..mip + 1]
  {
    a[mip] := level;
    assert a[..mip + 1] == a[..mip] + [level];
    assert whole[..mip + 1] == whole[..mip] + [whole[mip]];
  }

  /** What remains of the chain after its stored prefix: its next level, then the rest. */
  lemma {:induction false} SuffixStep(whole: seq<Subresource>, mip: nat, level: Subresource, rest: seq<Subresource>)
    requires mip < |whole| && whole[mip..] == [level] + rest
    ensures whole[mip] == level && whole[mip + 1..] == rest
  {
    assert whole[mip] == whole[mip..][0];
    assert whole[mip + 1..] == whole[mip..][1..];
  }

  /** `create_subresources`: fills one subresource per mip level, halving the dimensions as it goes. */
  method CreateSubresources(w: nat, h: nat, d: nat, mipLevels: nat, pf: PixelFormat) returns (subs: seq<Subresource>)
    ensures subs == MipChain(pf, w, h, d, 0, mipLevels)
  {
    var a := new Subresource[mipLevels](_ => Subresource(0, 0, 0, 0));
    ghost var whole := MipChain(pf, w, h, d, 0, mipLevels);
    var offset: nat := 0;
    var mw: nat, mh: nat, md: nat := w, h, d;
    for mip := 0 to mipLevels
      invariant a[..mip] == whole[..mip]
      invariant whole[mip..] == MipChain(pf, mw, mh, md, offset, a.Length - mip)
    {
      offset := FillLevel(a, mip, pf, mw, mh, md, offset, whole);
      mw, mh, md := Half(mw), Half(mh), Half(md);
    }
    subs := a[..];
  }

  /** One pass of `create_subresources`: computes and stores level `mip`, returning where the next level starts. */
  method FillLevel(a: array<Subresource>, mip: nat, pf: PixelFormat, mw: nat, mh: nat, md: nat, offset: nat,
                   ghost whole: seq<Subresource>) returns (next: nat)
    requires mip < a.Length == |whole|
    requires a[..mip] == whole[..mip] && whole[mip..] == MipChain(pf, mw, mh, md, offset, a.Length - mip)
    modifies a
    ensures a[..mip + 1] == whole[..mip + 1]
    ensures whole[mip + 1..] == MipChain(pf, Half(mw), Half(mh), Half(md), next, a.Length - (mip + 1))
  {
    var level := ComputeLevel(pf, mw, mh, md, offset);
    next := offset + level.dataSize;
    MipChainCons(pf, mw, mh, md, offset, a.Length - mip);
    SuffixStep(whole, mip, level, MipChain(pf, Half(mw), Half(mh), Half(md), next, a.Length - mip - 1));
    StoreLevel(a, mip, level, whole);
  }

  // ----- the header

  /** The fields of `DDS_HEADER` the loader looks at. */
  datatype DdsHeader = DdsHeader(
    size: nat, flags: nat, height: nat, width: nat, depth: nat, mipMapCount: nat,
    pfSize: nat, ddpf: DdsPixelFormat, caps2: nat)

  /**
   * The header from its 31 words: size, flags, height, width, pitch (ignored),
   * depth, mip count, 11 reserved, the pixel format (size, flags, FourCC,
   * bit count, four masks), caps (ignored), caps2, caps3, caps4 and a reserved word.
   */
  function HeaderOf(ws: seq<Uint32>): DdsHeader
    requires |ws| == HEADER_WORDS
  {
    DdsHeader(ws[0], ws[1], ws[2], ws[3], ws[5], ws[6], ws[18],
      DdsPixelFormat(ws[19], ws[20], ws[21], ws[22], ws[23], ws[24], ws[25]), ws[27])
  }

  /** `n` successive `read_uint`s; the first that fails ends the sequence with its error. */
  function ReadUintsSpec(s: StreamState, n: nat): (r: Step<seq<Uint32>>)
    requires s.Valid()
    ensures r.stream.Valid()
    ensures r.result.Ok? ==> |r.result.value| == n
    ensures r.result.Err? ==> r.result.error == IoError
  {
    if n == 0 then Step(s, Ok([]))
    else
      var p := ReadUintsSpec(s, n - 1);
      if p.result.Err? then p
      else
        UintRead(p.stream);
        var u := ReadUintSpec(p.stream);
        if u.result.Err? then Step(u.stream, Err(u.result.error)) else Step(u.stream, Ok(p.result.value + [u.result.value]))
  }

  /** The little-endian words stored from `p` on. */
  function WordsAt(bs: seq<Byte>, p: nat, n: nat): (r: seq<Uint32>)
    requires p + 4 * n <= |bs|
    ensures |r| == n
  {
    if n == 0 then []
    else
      var v := LeValue(bs[p + 4 * (n - 1)..p + 4 * n]);
      LeValueBound(bs[p + 4 * (n - 1)..p + 4 * n]);
      assert Pow256(4) == 0x1_0000_0000;
      WordsAt(bs, p, n - 1) + [v]
  }

  /** The reads succeed exactly when `4 * n` bytes are left, and then return the words stored there. */
  lemma {:induction false} ReadUintsAt(s: StreamState, n: nat)
    requires s.Valid()
    ensures ReadUintsSpec(s, n).result.Ok? <==> n == 0 || (s.readable && s.pos + 4 * n <= |s.bytes|)
    ensures ReadUintsSpec(s, n).result.Ok? ==>
      ReadUintsSpec(s, n) == Step(s.(pos := s.pos + 4 * n), Ok(WordsAt(s.bytes, s.pos, n)))
  {
    if n > 0 {
      ReadUintsAt(s, n - 1);
      ReadUintsNext(s, n, ReadUintsSpec(s, n - 1));
    }
  }

  /** One more word read after the first `n - 1`. */
  lemma {:induction false} ReadUintsNext(s: StreamState, n: nat, p: Step<seq<Uint32>>)
    requires s.Valid() && n > 0 && p == ReadUintsSpec(s, n - 1)
    requires p.result.Ok? <==> n - 1 == 0 || (s.readable && s.pos + 4 * (n - 1) <= |s.bytes|)
    requires p.result.Ok? ==> p == Step(s.(pos := s.pos + 4 * (n - 1)), Ok(WordsAt(s.bytes, s.pos, n - 1)))
    ensures ReadUintsSpec(s, n).result.Ok? <==> s.readable && s.pos + 4 * n <= |s.bytes|
    ensures ReadUintsSpec(s, n).result.Ok? ==>
      ReadUintsSpec(s, n) == Step(s.(pos := s.pos + 4 * n), Ok(WordsAt(s.bytes, s.pos, n)))
  {
    if p.result.Ok? {
      ReadUintsNextOk(s, n, p.stream, p.result.value);
    } else {
      assert ReadUintsSpec(s, n) == p;
    }
  }

  /** After `n - 1` words were read, the next read succeeds exactly when four more bytes are left. */
  lemma {:induction false} ReadUintsNextOk(s: StreamState, n: nat, t: StreamState, ws: seq<Uint32>)
    requires s.Valid() && n > 0 && ReadUintsSpec(s, n - 1) == Step(t, Ok(ws))
    requires t == s.(pos := s.pos + 4 * (n - 1)) && s.pos + 4 * (n - 1) <= |s.bytes|
    requires ws == WordsAt(s.bytes, s.pos, n - 1)
    ensures ReadUintsSpec(s, n).result.Ok? <==> s.readable && s.pos + 4 * n <= |s.bytes|
    ensures ReadUintsSpec(s, n).result.Ok? ==>
      ReadUintsSpec(s, n) == Step(s.(pos := s.pos + 4 * n), Ok(WordsAt(s.bytes, s.pos, n)))
  {
    UintRead(t);
    var u := ReadUintSpec(t);
    ReadUintsUnfold(s, n, t, ws);
    if u.result.Ok? {
      NextWord(s, n, t, ws, u.stream, u.result.value);
    }
  }

  /** After `n - 1` words read into `ws`, the `n`-th read appends one word or fails. */
  lemma {:induction false} ReadUintsUnfold(s: StreamState, n: nat, t: StreamState, ws: seq<Uint32>)
    requires s.Valid() && n > 0 && ReadUintsSpec(s, n - 1) == Step(t, Ok(ws))
    ensures t.Valid()
    ensures var u := ReadUintSpec(t);
      ReadUintsSpec(s, n) == if u.result.Err? then Step(u.stream, Err(u.result.error)) else Step(u.stream, Ok(ws + [u.result.value]))
  {
  }

  /** The stream and the words after the `n`-th word is read from where `n - 1` words ended. */
  lemma {:induction false} NextWord(s: StreamState, n: nat, t: StreamState, ws: seq<Uint32>, t2: StreamState, x: nat)
    requires s.Valid() && n > 0 && s.pos + 4 * n <= |s.bytes|
    requires t == s.(pos := s.pos + 4 * (n - 1)) && ws == WordsAt(s.bytes, s.pos, n - 1)
    requires t2 == t.(pos := t.pos + 4) && x == LeValue(s.bytes[t.pos..t.pos + 4])
    ensures t2 == s.(pos := s.pos + 4 * n) && ws + [x] == WordsAt(s.bytes, s.pos, n)
  {
    WordsAtNext(s.bytes, s.pos, n);
  }

  /** The words from `p` on grow by one word at a time. */
  lemma {:induction false} WordsAtNext(bs: seq<Byte>, p: nat, n: nat)
    requires 0 < n && p + 4 * n <= |bs|
    ensures WordsAt(bs, p, n) == WordsAt(bs, p, n - 1) + [LeValue(bs[p + 4 * (n - 1)..p + 4 * n])]
  {
  }

  /** Once a read fails, the later reads are not attempted: the outcome stays that failure. */
  lemma {:induction false} ReadUintsFail(s: StreamState, i: nat, n: nat)
    requires s.Valid() && i <= n && ReadUintsSpec(s, i).result.Err?
    ensures ReadUintsSpec(s, n) == ReadUintsSpec(s, i)
    decreases n
  {
    if n > i {
      ReadUintsFail(s, i, n - 1);
    }
  }

  method ReadUints(s: ByteStream, n: nat) returns (r: Result<seq<Uint32>>)
    requires s.Valid()
    modifies s
    ensures s.Valid() && Step(s.State(), r) == ReadUintsSpec(old(s.State()), n)
  {
    ghost var s0 := s.State();
    var ws: seq<Uint32> := [];
    for i := 0 to n
      invariant s.Valid() && Step(s.State(), Ok(ws)) == ReadUintsSpec(s0, i)
    {
      var u := ReadUint(s);
      if u.Err? {
        ReadUintsFail(s0, i + 1, n);
        return Err(u.error);
      }
      ws := ws + [u.value];
    }
    r := Ok(ws);
  }

  /** The magic and then the header; a wrong magic is an invalid format before the rest is read. */
  function ReadDdsHeaderSpec(s: StreamState): (r: Step<DdsHeader>)
    requires s.Valid()
    ensures r.stream.Valid()
    ensures r.result.Err? ==> r.result.error == IoError || r.result.error == InvalidFormat
    ensures r.result == Err(InvalidFormat) <==> ReadUintSpec(s).result.Ok? && ReadUintSpec(s).result.value != DDS_MAGIC
  {
    UintRead(s);
    var m := ReadUintSpec(s);
    if m.result.Err? then Step(m.stream, Err(m.result.error))
    else if m.result.value != DDS_MAGIC then Step(m.stream, Err(InvalidFormat))
    else
      var ws := ReadUintsSpec(m.stream, HEADER_WORDS);
      if ws.result.Err? then Step(ws.stream, Err(ws.result.error)) else Step(ws.stream, Ok(HeaderOf(ws.result.value)))
  }

  /** The header checks of the loader, all of which fail with an invalid format. */
  predicate Supported(h: DdsHeader)
    ensures Supported(h) ==> h.width >= 1 && h.height >= 1 && PixelFormatOf(h.ddpf).Some? && !IsDx10(h.ddpf)
  {
    h.size == DDS_HEADER_SIZE &&
    HasFlag(h.flags, DDSF_CAPS) && HasFlag(h.flags, DDSF_HEIGHT) && HasFlag(h.flags, DDSF_WIDTH) &&
    HasFlag(h.flags, DDSF_PIXELFORMAT) &&
    h.pfSize == DDS_PIXELFORMAT_SIZE && !IsDx10(h.ddpf) && !HasFlag(h.caps2, DDSCAPS2_CUBEMAP) &&
    PixelFormatOf(h.ddpf).Some? && h.width != 0 && h.height != 0
  }

  /** A volume texture when the depth flag is set, otherwise two-dimensional. */
  function DimensionOf(h: DdsHeader): TextureDimension
  {
    if HasFlag(h.flags, DDSF_DEPTH) then Texture3D else Texture2D
  }

  /** The depth: at least 1 when the depth flag is set, and 1 otherwise. */
  function DepthOf(h: DdsHeader): (r: nat)
    ensures r >= 1
    ensures HasFlag(h.flags, DDSF_DEPTH) ==> r == Max(1, h.depth)
    ensures !HasFlag(h.flags, DDSF_DEPTH) ==> r == 1
  {
    if HasFlag(h.flags, DDSF_DEPTH) then Max(1, h.depth) else 1
  }

  /** The mip count: at least 1 when the mip-count flag is set, and 1 otherwise. */
  function MipLevelsOf(h: DdsHeader): (r: nat)
    ensures r >= 1
    ensures HasFlag(h.flags, DDSF_MIPMAPCOUNT) ==> r == Max(1, h.mipMapCount)
    ensures !HasFlag(h.flags, DDSF_MIPMAPCOUNT) ==> r == 1
  {
    if HasFlag(h.flags, DDSF_MIPMAPCOUNT) then Max(1, h.mipMapCount) else 1
  }

  /** The subresources of a supported header. */
  function SubresourcesOf(h: DdsHeader): (r: seq<Subresource>)
    requires Supported(h)
    ensures |r| == MipLevelsOf(h)
  {
    MipChain(PixelFormatOf(h.ddpf).value, h.width, h.height, DepthOf(h), 0, MipLevelsOf(h))
  }

  /** The texture built from a supported header and its data. */
  function DescOf(h: DdsHeader, data: seq<Byte>): TextureDesc
    requires Supported(h)
  {
    TextureDesc(DimensionOf(h), h.width, h.height, if DimensionOf(h) == Texture3D then DepthOf(h) else 0,
      MipLevelsOf(h), PixelFormatOf(h.ddpf).value, SubresourcesOf(h), data)
  }

  /**
   * `load_texture_dds`: the header, its checks, and then all the data of
   * the mip chain in one read; a header that fails its checks and a short
   * data read are invalid formats, a failed header read an I/O error.
   */
  function LoadDdsSpec(s: StreamState): (r: Step<TextureDesc>)
    requires s.Valid()
    ensures r.stream.Valid()
    ensures r.result.Err? ==> r.result.error == IoError || r.result.error == InvalidFormat
    ensures r.result.Ok? <==>
      ReadDdsHeaderSpec(s).result.Ok? && Supported(ReadDdsHeaderSpec(s).result.value) &&
      var t := ReadDdsHeaderSpec(s).stream;
      t.readable && t.pos + TotalSize(SubresourcesOf(ReadDdsHeaderSpec(s).result.value)) <= |t.bytes|
    ensures r.result.Ok? ==> r.result.value.Valid() && r.result.value.mipLevels == |r.result.value.subresources|
    ensures r.result.Ok? ==> |r.result.value.data| == TotalSize(r.result.value.subresources)
  {
    var hd := ReadDdsHeaderSpec(s);
    if hd.result.Err? then Step(hd.stream, Err(hd.result.error))
    else
      var h := hd.result.value;
      if !Supported(h) then Step(hd.stream, Err(InvalidFormat))
      else
        var subs := SubresourcesOf(h);
        var c := ReadCheckedSpec(hd.stream, TotalSize(subs));
        if c.result.Err? then Step(c.stream, Err(InvalidFormat))
        else
          DataNonEmpty(h);
          Step(c.stream, Ok(DescOf(h, c.result.value)))
  }

  /** A supported header describes some data. */
  lemma {:induction false} DataNonEmpty(h: DdsHeader)
    requires Supported(h)
    ensures TotalSize(SubresourcesOf(h)) > 0
  {
    var pf := PixelFormatOf(h.ddpf).value;
    var n := MipLevelsOf(h);
    MipChainNonEmpty(pf, h.width, h.height, DepthOf(h), 0, n, n - 1);
    MipChainEnd(pf, h.width, h.height, DepthOf(h), 0, n);
  }

  /** `is_texture_dds`: whether the first word is the magic; a failed read answers false. */
  function IsTextureDdsSpec(s: StreamState): (r: Step<bool>)
    requires s.Valid()
    ensures r.stream.Valid() && r.result.Ok?
    ensures r.result.value <==> ReadUintSpec(s).result == Ok(DDS_MAGIC)
  {
    var m := ReadUintSpec(s);
    if m.result.Err? then Step(m.stream, Ok(false)) else Step(m.stream, Ok(m.result.value == DDS_MAGIC))
  }

  method IsTextureDds(s: ByteStream) returns (r: bool)
    requires s.Valid()
    modifies s
    ensures s.Valid() && Step(s.State(), Ok(r)) == IsTextureDdsSpec(old(s.State()))
  {
    var m := ReadUint(s);
    if m.Err? {
      return false;
    }
    r := m.value == DDS_MAGIC;
  }

  method LoadTextureDds(s: ByteStream) returns (r: Result<TextureDesc>)
    requires s.Valid()
    modifies s
    ensures s.Valid() && Step(s.State(), r) == LoadDdsSpec(old(s.State()))
  {
    var magic := ReadUint(s);
    if magic.Err? {
      return Err(magic.error);
    }
    if magic.value != DDS_MAGIC {
      return Err(InvalidFormat);
    }
    var ws := ReadUints(s, HEADER_WORDS);
    if ws.Err? {
      return Err(ws.error);
    }
    var h := HeaderOf(ws.value);
    var depth := if HasFlag(h.flags, DDSF_DEPTH) then Max(1, h.depth) else 1;
    var mipLevels := if HasFlag(h.flags, DDSF_MIPMAPCOUNT) then Max(1, h.mipMapCount) else 1;
    var supported := CheckHeader(h);
    if !supported {
      return Err(InvalidFormat);
    }
    var format := PixelFormatOf(h.ddpf);
    var subs := CreateSubresources(h.width, h.height, depth, mipLevels, format.value);
    var dataSize := SumSizes(subs);
    var data := ReadChecked(s, dataSize);
    if data.Err? {
      return Err(InvalidFormat);
    }
    var dimension := if HasFlag(h.flags, DDSF_DEPTH) then Texture3D else Texture2D;
    DataNonEmpty(h);
    r := Ok(TextureDesc(dimension, h.width, h.height, if dimension == Texture3D then depth else 0,
      mipLevels, format.value, subs, data.value));
  }

  /** The loader's header checks in order; each failure is an invalid format. */
  method CheckHeader(h: DdsHeader) returns (ok: bool)
    ensures ok == Supported(h)
  {
    if h.size != DDS_HEADER_SIZE || !(HasFlag(h.flags, DDSF_CAPS) && HasFlag(h.flags, DDSF_HEIGHT) &&
      HasFlag(h.flags, DDSF_WIDTH) && HasFlag(h.flags, DDSF_PIXELFORMAT)) || h.pfSize != DDS_PIXELFORMAT_SIZE
    {
      return false;
    }
    if HasFlag(h.ddpf.flags, DDPF_FOURCC) && h.ddpf.fourcc == FourCC('D', 'X', '1', '0') {
      return false;
    }
    if HasFlag(h.caps2, DDSCAPS2_CUBEMAP) {
      return false;
    }
    var format := PixelFormatOf(h.ddpf);
    if format.None? {
      return false;
    }
    if h.width == 0 || h.height == 0 {
      return false;
    }
    ok := true;
  }

  /** The loop adding up the data sizes of the subresources. */
  method SumSizes(subs: seq<Subresource>) returns (total: nat)
    ensures total == TotalSize(subs)
  {
    total := 0;
    for i := 0 to |subs|
      invariant total == TotalSize(subs[..i])
    {
      assert subs[..i + 1][..i] == subs[..i];
      total := total + subs[i].dataSize;
    }
    assert subs[..|subs|] == subs;
  }

  // ----- the masks through the sign-extending read_uint

  /**
   * Read through the sign-extending `read_uint`, the alpha mask 0xff000000
   * of a 32-bit RGBA file comes back with the upper 32 bits set, so the
   * mask comparison fails and the format is not recognised; through the
   * corrected read it is.
   */
  lemma {:induction false} AlphaMaskAsWrittenRejected(t: StreamState)
    requires t.Valid() && t.readable && t.pos + 4 <= |t.bytes|
    requires t.bytes[t.pos..t.pos + 4] == LeBytes(0xff00_0000, 4)
    ensures ReadUintSpec(t).result == Ok(0xff00_0000)
    ensures ReadUintAsWrittenSpec(t).result.Ok? && ReadUintAsWrittenSpec(t).result.value != 0xff00_0000
    ensures PixelFormatOf(DdsPixelFormat(DDPF_RGB, 0, 32, 0xff, 0xff00, 0xff_0000, ReadUintSpec(t).result.value)) ==
      Some(R8G8B8A8Srgb)
    ensures PixelFormatOf(DdsPixelFormat(DDPF_RGB, 0, 32, 0xff, 0xff00, 0xff_0000, ReadUintAsWrittenSpec(t).result.value)) ==
      None
  {
    UintAt(t, 0xff00_0000);
    Pow2Value32();
    Pow2Value64();
  }
}
