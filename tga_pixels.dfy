/**
 * The pixel repacking of the TGA loader and saver
 * (src/renderer/io/texture_tga.cpp): an uncompressed 24- or 32-bit TGA
 * image stores its pixels as B, G, R(, A) with the bottom scanline first,
 * and a texture holds them as R, G, B, A with the top row first.
 */
module TgaPixels {
  import opened Errors
  import opened Bytes
  import opened Textures

  const MAX_ALPHA_8BPP: Byte := 255

  /** The pixel depths the loader repacks; other depths leave their rows untouched. */
  predicate Repacked(bpp: nat)
  {
    bpp == 24 || bpp == 32
  }

  // ----- loading

  /** One file pixel (B, G, R[, A]) as R, G, B, A; a 24-bit pixel is fully opaque. */
  function LoadPixel(raw: seq<Byte>, bpp: nat, s: nat): (px: seq<Byte>)
    requires Repacked(bpp) && s + bpp / 8 <= |raw|
  {
    [raw[s + 2], raw[s + 1], raw[s], if bpp == 32 then raw[s + 3] else MAX_ALPHA_8BPP]
  }

  /** The first `n` pixels of a scanline that starts at `s0`. */
  function LoadRow(raw: seq<Byte>, bpp: nat, s0: nat, n: nat): (r: seq<Byte>)
    requires Repacked(bpp) && s0 + n * (bpp / 8) <= |raw|
    ensures |r| == 4 * n
  {
    if n == 0 then []
    else
      MulPred(n, bpp / 8);
      LoadRow(raw, bpp, s0, n - 1) + LoadPixel(raw, bpp, s0 + (n - 1) * (bpp / 8))
  }

  /** The texture row made from scanline `j` of the file: repacked, or left zero at another depth. */
  function OutRow(raw: seq<Byte>, w: nat, bpp: nat, j: nat): (r: seq<Byte>)
    requires (j + 1) * (w * (bpp / 8)) <= |raw|
    ensures |r| == 4 * w
  {
    MulPred(j + 1, w * (bpp / 8));
    if Repacked(bpp) then LoadRow(raw, bpp, j * (w * (bpp / 8)), w) else Zeros(4 * w)
  }

  /** The last `k` texture rows: the first `k` scanlines of the file, in reverse order. */
  function LoadedRows(raw: seq<Byte>, w: nat, bpp: nat, k: nat): (r: seq<Byte>)
    requires k * (w * (bpp / 8)) <= |raw|
    ensures |r| == k * (4 * w)
  {
    if k == 0 then []
    else
      MulPred(k, w * (bpp / 8));
      MulPred(k, 4 * w);
      OutRow(raw, w, bpp, k - 1) + LoadedRows(raw, w, bpp, k - 1)
  }

  /** The texture data of an image `w` by `h` whose file pixels are `raw`. */
  function Loaded(raw: seq<Byte>, w: nat, h: nat, bpp: nat): (r: seq<Byte>)
    requires h * (w * (bpp / 8)) <= |raw|
    ensures |r| == h * (4 * w)
  {
    LoadedRows(raw, w, bpp, h)
  }

  /**
   * The loader as written: the source span is not advanced per scanline, so
   * every texture row is made from the first scanline of the file.
   */
  function LoadedAsWritten(raw: seq<Byte>, w: nat, h: nat, bpp: nat): (r: seq<Byte>)
    requires w * (bpp / 8) <= |raw|
    ensures |r| == h * (4 * w)
  {
    if h == 0 then []
    else
      MulPred(h, 4 * w);
      OutRow(raw, w, bpp, 0) + LoadedAsWritten(raw, w, h - 1, bpp)
  }

  /** The file's pixel bytes: `width * height * bpp / 8`, one scanline after another. */
  lemma {:induction false} RawSizeRows(w: nat, h: nat, bpp: nat)
    requires bpp % 8 == 0
    ensures w * h * bpp / 8 == h * (w * (bpp / 8))
  {
    var b := bpp / 8;
    assert bpp == 8 * b;
    assert w * h * bpp == 8 * (h * (w * b));
  }

  /** Pixel `x` of a loaded row is file pixel `x` of the scanline, reordered. */
  lemma {:induction false} LoadRowPixel(raw: seq<Byte>, bpp: nat, s0: nat, n: nat, x: nat)
    requires Repacked(bpp) && s0 + n * (bpp / 8) <= |raw| && x < n
    ensures x * (bpp / 8) <= (n - 1) * (bpp / 8)
    ensures LoadRow(raw, bpp, s0, n)[4 * x..4 * x + 4] == LoadPixel(raw, bpp, s0 + x * (bpp / 8))
  {
    MulPred(n, bpp / 8);
    MulMono(x, n - 1, bpp / 8);
    var prev := LoadRow(raw, bpp, s0, n - 1);
    var r := LoadRow(raw, bpp, s0, n);
    assert r == prev + LoadPixel(raw, bpp, s0 + (n - 1) * (bpp / 8));
    if x < n - 1 {
      LoadRowPixel(raw, bpp, s0, n - 1, x);
      assert r[4 * x..4 * x + 4] == prev[4 * x..4 * x + 4];
    } else {
      assert r[4 * x..4 * x + 4] == r[|prev|..];
    }
  }

  /** Row `r` of the last `k` texture rows is made from scanline `k - 1 - r`. */
  lemma {:induction false} LoadedRowAt(raw: seq<Byte>, w: nat, bpp: nat, k: nat, r: nat)
    requires k * (w * (bpp / 8)) <= |raw| && r < k
    requires (k - r) * (w * (bpp / 8)) <= |raw| && (r + 1) * (4 * w) <= k * (4 * w)
    ensures Row(LoadedRows(raw, w, bpp, k), 4 * w, r) == OutRow(raw, w, bpp, k - 1 - r)
    decreases r, 1
  {
    if r == 0 {
      LoadedFirstRow(raw, w, bpp, k, r);
    } else {
      LoadedRowAfter(raw, w, bpp, k, r);
    }
  }

  /** The step of LoadedRowAt for a row below the first. */
  lemma {:induction false} LoadedRowAfter(raw: seq<Byte>, w: nat, bpp: nat, k: nat, r: nat)
    requires k * (w * (bpp / 8)) <= |raw| && 0 < r < k
    requires (k - r) * (w * (bpp / 8)) <= |raw|
    ensures (r + 1) * (4 * w) <= k * (4 * w)
    ensures Row(LoadedRows(raw, w, bpp, k), 4 * w, r) == OutRow(raw, w, bpp, k - 1 - r)
    decreases r, 0
  {
    RowBounds(w * (bpp / 8), 4 * w, k, r);
    LoadedRowAt(raw, w, bpp, k - 1, r - 1);
    LoadedLaterRow(raw, w, bpp, k, r);
  }

  /** The size facts the step from `k` rows to `k - 1` needs. */
  lemma {:induction false} RowBounds(rb: nat, m: nat, k: nat, r: nat)
    requires 0 < r < k
    ensures (k - 1) * rb <= k * rb
    ensures r * m <= (k - 1) * m
  {
    MulMono(k - 1, k, rb);
    MulMono(r, k - 1, m);
  }

  lemma {:induction false} LoadedFirstRow(raw: seq<Byte>, w: nat, bpp: nat, k: nat, r: nat)
    requires k * (w * (bpp / 8)) <= |raw| && r == 0 < k
    requires (r + 1) * (4 * w) <= k * (4 * w)
    ensures Row(LoadedRows(raw, w, bpp, k), 4 * w, r) == OutRow(raw, w, bpp, k - 1 - r)
  {
    assert r * (4 * w) == 0 && (r + 1) * (4 * w) == 4 * w;
  }

  /** Row `r` of the last `k` rows is row `r - 1` of the last `k - 1`. */
  lemma {:induction false} LoadedLaterRow(raw: seq<Byte>, w: nat, bpp: nat, k: nat, r: nat)
    requires k * (w * (bpp / 8)) <= |raw| && 0 < r < k
    requires (k - 1) * (w * (bpp / 8)) <= |raw| && r * (4 * w) <= (k - 1) * (4 * w)
    requires (k - r) * (w * (bpp / 8)) <= |raw|
    requires Row(LoadedRows(raw, w, bpp, k - 1), 4 * w, r - 1) == OutRow(raw, w, bpp, k - 1 - r)
    ensures (r + 1) * (4 * w) <= k * (4 * w)
    ensures Row(LoadedRows(raw, w, bpp, k), 4 * w, r) == OutRow(raw, w, bpp, k - 1 - r)
  {
    MulPred(k, 4 * w);
    var first := OutRow(raw, w, bpp, k - 1);
    var rest := LoadedRows(raw, w, bpp, k - 1);
    assert LoadedRows(raw, w, bpp, k) == first + rest;
    RowShift(first, rest, 4 * w, r);
  }

  /** Row `j` after a first row of `m` bytes is row `j - 1` of what follows it. */
  lemma {:induction false} RowShift(p: seq<Byte>, s: seq<Byte>, m: nat, j: nat)
    requires |p| == m && 0 < j && j * m <= |s|
    ensures (j + 1) * m <= |p + s| && Row(p + s, m, j) == Row(s, m, j - 1)
  {
    MulPred(j, m);
    MulPred(j + 1, m);
    MulNat(j - 1, m);
    Shifted(p, s, (j - 1) * m, j * m);
  }

  /** A slice of what follows a prefix, read in the whole sequence. */
  lemma {:induction false} Shifted(p: seq<Byte>, s: seq<Byte>, a: nat, b: nat)
    requires a <= b <= |s|
    ensures (p + s)[|p| + a..|p| + b] == s[a..b]
  {
  }

  /**
   * Flipping the rows: texture row `r` of a loaded image is made from
   * scanline `h - 1 - r` of the file, the bottom scanline being stored first.
   */
  lemma {:induction false} LoadedFlipsRows(raw: seq<Byte>, w: nat, h: nat, bpp: nat, r: nat)
    requires h * (w * (bpp / 8)) <= |raw| && r < h
    ensures |Loaded(raw, w, h, bpp)| == h * (4 * w)
    ensures (h - r) * (w * (bpp / 8)) <= |raw| && (r + 1) * (4 * w) <= h * (4 * w)
    ensures Row(Loaded(raw, w, h, bpp), 4 * w, r) == OutRow(raw, w, bpp, h - 1 - r)
  {
    MulMono(h - r, h, w * (bpp / 8));
    MulMono(r + 1, h, 4 * w);
    LoadedRowAt(raw, w, bpp, h, r);
  }

  /** A 32-bit image of one column and two rows shows that the loader as written repeats the bottom scanline. */
  lemma {:induction false} LoadAsWrittenRepeatsScanline()
    ensures LoadedAsWritten([1, 2, 3, 4, 5, 6, 7, 8], 1, 2, 32) == [3, 2, 1, 4, 3, 2, 1, 4]
    ensures Loaded([1, 2, 3, 4, 5, 6, 7, 8], 1, 2, 32) == [7, 6, 5, 8, 3, 2, 1, 4]
  {
    var raw: seq<Byte> := [1, 2, 3, 4, 5, 6, 7, 8];
    assert LoadRow(raw, 32, 0, 1) == [3, 2, 1, 4];
    assert LoadRow(raw, 32, 4, 1) == [7, 6, 5, 8];
    assert OutRow(raw, 1, 32, 0) == [3, 2, 1, 4];
    assert OutRow(raw, 1, 32, 1) == [7, 6, 5, 8];
    assert LoadedAsWritten(raw, 1, 1, 32) == [3, 2, 1, 4];
    assert LoadedRows(raw, 1, 32, 1) == [3, 2, 1, 4];
  }

  // ----- saving

  /** The formats the saver accepts: 8 bits per channel, in either channel order. */
  predicate Savable(pf: PixelFormat)
  {
    pf == R8G8B8A8Srgb || pf == B8G8R8A8Srgb
  }

  /** One texture pixel in the file's order (B, G, R, A): R and B swap for RGBA, BGRA is copied. */
  function SavePixel(t: seq<Byte>, pf: PixelFormat, s: nat): (px: seq<Byte>)
    requires Savable(pf) && s + 4 <= |t|
  {
    if pf == R8G8B8A8Srgb then [t[s + 2], t[s + 1], t[s], t[s + 3]] else [t[s], t[s + 1], t[s + 2], t[s + 3]]
  }

  /** The first `n` pixels of a texture row that starts at `s0`. */
  function SaveRow(t: seq<Byte>, pf: PixelFormat, s0: nat, n: nat): (r: seq<Byte>)
    requires Savable(pf) && s0 + 4 * n <= |t|
    ensures |r| == 4 * n
  {
    if n == 0 then [] else SaveRow(t, pf, s0, n - 1) + SavePixel(t, pf, s0 + 4 * (n - 1))
  }

  /** Every one of the `h` rows of `w` pixels, `stride` bytes apart from `offset`, lies inside the data. */
  predicate RowsWithin(size: nat, w: nat, h: nat, offset: nat, stride: nat)
  {
    h == 0 || offset + (h - 1) * stride + 4 * w <= size
  }

  /** Where texture row `i` starts. */
  function RowStart(offset: nat, stride: nat, i: nat): (r: nat)
    ensures r >= offset
  {
    MulNat(i, stride);
    offset + i * stride
  }

  /** Every row of a texture whose rows lie within its data starts early enough to hold `w` pixels. */
  lemma {:induction false} RowStartWithin(size: nat, w: nat, h: nat, offset: nat, stride: nat, i: nat)
    requires RowsWithin(size, w, h, offset, stride) && i < h
    ensures RowStart(offset, stride, i) + 4 * w <= size
  {
    MulMono(i, h - 1, stride);
  }

  /** The first `k` scanlines of the file: texture rows `h - 1` down to `h - k`. */
  function SavedRows(t: seq<Byte>, pf: PixelFormat, w: nat, h: nat, offset: nat, stride: nat, k: nat): (r: seq<Byte>)
    requires Savable(pf) && RowsWithin(|t|, w, h, offset, stride) && k <= h
    ensures |r| == k * (4 * w)
  {
    if k == 0 then []
    else
      RowStartWithin(|t|, w, h, offset, stride, h - k);
      MulPred(k, 4 * w);
      SavedRows(t, pf, w, h, offset, stride, k - 1) + SaveRow(t, pf, RowStart(offset, stride, h - k), w)
  }

  /** The file's pixel data for a texture of `h` rows of `w` pixels. */
  function Saved(t: seq<Byte>, pf: PixelFormat, w: nat, h: nat, offset: nat, stride: nat): (r: seq<Byte>)
    requires Savable(pf) && RowsWithin(|t|, w, h, offset, stride)
    ensures |r| == h * (4 * w)
  {
    SavedRows(t, pf, w, h, offset, stride, h)
  }

  /**
   * The saver as written: the destination index is not advanced per row, so
   * every row lands at the start of the buffer and the last one written, the
   * top texture row, is all that remains; the other scanlines stay zero.
   */
  function SavedAsWritten(t: seq<Byte>, pf: PixelFormat, w: nat, h: nat, offset: nat): (r: seq<Byte>)
    requires Savable(pf) && offset + 4 * w <= |t|
  {
    if h == 0 then []
    else
      MulNat(h - 1, 4 * w);
      var rest: nat := (h - 1) * (4 * w);
      SaveRow(t, pf, offset, w) + Zeros(rest)
  }

  /**
   * Copying a row out of a span that is checked on every access, as a
   * `gsl::span` is: absent when the span is shorter than the row's bytes.
   */
  function SaveRowChecked(span: seq<Byte>, pf: PixelFormat, n: nat): (r: Option<seq<Byte>>)
    requires Savable(pf)
    ensures r.Some? <==> 4 * n <= |span|
    ensures r.Some? ==> r.value == SaveRow(span, pf, 0, n)
  {
    if n == 0 then Some([])
    else if 4 * n > |span| then None
    else
      match SaveRowChecked(span, pf, n - 1)
      case None => None
      case Some(prev) => Some(prev + SavePixel(span, pf, 4 * (n - 1)))
  }

  /** As written the source row is a span of `width` bytes: every row of one pixel or more overruns it. */
  lemma {:induction false} SaveSpanAsWrittenOverruns(span: seq<Byte>, pf: PixelFormat, w: nat)
    requires Savable(pf) && |span| == w && w >= 1
    ensures SaveRowChecked(span, pf, w).None?
  {
  }

  /** A span of `4 * width` bytes holds the whole row. */
  lemma {:induction false} SaveSpanCorrectedFits(span: seq<Byte>, pf: PixelFormat, w: nat)
    requires Savable(pf) && |span| == 4 * w
    ensures SaveRowChecked(span, pf, w) == Some(SaveRow(span, pf, 0, w))
  {
  }

  /** A texture of one pixel by two rows shows that the saver as written keeps only the top row. */
  lemma {:induction false} SaveAsWrittenLosesRows()
    ensures SavedAsWritten([1, 2, 3, 4, 5, 6, 7, 8], R8G8B8A8Srgb, 1, 2, 0) == [3, 2, 1, 4, 0, 0, 0, 0]
    ensures Saved([1, 2, 3, 4, 5, 6, 7, 8], R8G8B8A8Srgb, 1, 2, 0, 4) == [7, 6, 5, 8, 3, 2, 1, 4]
  {
    var t: seq<Byte> := [1, 2, 3, 4, 5, 6, 7, 8];
    assert SaveRow(t, R8G8B8A8Srgb, 0, 1) == [3, 2, 1, 4];
    assert SaveRow(t, R8G8B8A8Srgb, 4, 1) == [7, 6, 5, 8];
    assert Zeros(4) == [0, 0, 0, 0];
    assert SavedRows(t, R8G8B8A8Srgb, 1, 2, 0, 4, 1) == [7, 6, 5, 8];
  }

  // ----- saving then loading

  /** Row `j` of data cut into rows of `m` bytes. */
  function Row(s: seq<Byte>, m: nat, j: nat): (r: seq<Byte>)
    requires (j + 1) * m <= |s|
    ensures |r| == m
  {
    MulPred(j + 1, m);
    MulNat(j, m);
    s[j * m..(j + 1) * m]
  }

  /** A row that lies in a prefix is the same row of the prefix. */
  lemma {:induction false} RowOfPrefix(p: seq<Byte>, s: seq<Byte>, m: nat, j: nat)
    requires (j + 1) * m <= |p|
    ensures Row(p + s, m, j) == Row(p, m, j)
  {
    MulPred(j + 1, m);
    MulNat(j, m);
    var a: nat := j * m;
    assert (p + s)[a..a + m] == p[a..a + m];
  }

  /** The row that starts where a prefix ends is what follows it. */
  lemma {:induction false} RowAfter(p: seq<Byte>, s: seq<Byte>, m: nat, j: nat)
    requires |p| == j * m && |s| == m
    ensures (j + 1) * m <= |p + s|
    ensures Row(p + s, m, j) == s
  {
    MulPred(j + 1, m);
  }

  /** Row `j` as a slice that starts at `j * m`. */
  lemma {:induction false} RowSlice(s: seq<Byte>, m: nat, j: nat)
    requires (j + 1) * m <= |s|
    ensures j * m + m <= |s| && Row(s, m, j) == s[j * m..j * m + m]
  {
    MulPred(j + 1, m);
  }

  /** A 32-bit scanline of `n` pixels ends with its pixel `n - 1`. */
  lemma {:induction false} LoadRowLast(raw: seq<Byte>, a: nat, n: nat)
    requires 0 < n && a + 4 * n <= |raw|
    ensures LoadRow(raw, 32, a, n) == LoadRow(raw, 32, a, n - 1) + LoadPixel(raw, 32, a + 4 * (n - 1))
  {
    assert (n - 1) * (32 / 8) == 4 * (n - 1);
  }

  /** A file pixel saved from RGBA loads back to the texture pixel. */
  lemma {:induction false} LoadSavedPixel(raw: seq<Byte>, p: nat, t: seq<Byte>, s: nat)
    requires p + 4 <= |raw| && s + 4 <= |t|
    requires raw[p..p + 4] == SavePixel(t, R8G8B8A8Srgb, s)
    ensures LoadPixel(raw, 32, p) == t[s..s + 4]
  {
    assert raw[p] == raw[p..p + 4][0] && raw[p + 1] == raw[p..p + 4][1];
    assert raw[p + 2] == raw[p..p + 4][2] && raw[p + 3] == raw[p..p + 4][3];
  }

  /** A window of `b + 4` bytes that holds a row and one pixel more holds each in its place. */
  lemma {:induction false} SplitLast(raw: seq<Byte>, a: nat, n: nat, prev: seq<Byte>, px: seq<Byte>)
    requires 0 < n && a + 4 * n <= |raw| && |prev| == 4 * (n - 1) && |px| == 4
    requires raw[a..a + 4 * n] == prev + px
    ensures raw[a..a + 4 * (n - 1)] == prev && raw[a + 4 * (n - 1)..a + 4 * (n - 1) + 4] == px
  {
    var b := 4 * (n - 1);
    assert b + 4 == 4 * n;
    assert raw[a..a + b] == raw[a..a + 4 * n][..b];
    assert raw[a + b..a + b + 4] == raw[a..a + 4 * n][b..];
  }

  /** A saved window of `n` pixels holds the first `n - 1` saved, and its last pixel loads back. */
  lemma {:induction false} LoadSavedLast(raw: seq<Byte>, a: nat, t: seq<Byte>, s0: nat, n: nat)
    requires 0 < n && a + 4 * n <= |raw| && s0 + 4 * n <= |t|
    requires raw[a..a + 4 * n] == SaveRow(t, R8G8B8A8Srgb, s0, n)
    ensures raw[a..a + 4 * (n - 1)] == SaveRow(t, R8G8B8A8Srgb, s0, n - 1)
    ensures LoadPixel(raw, 32, a + 4 * (n - 1)) == t[s0 + 4 * (n - 1)..s0 + 4 * (n - 1) + 4]
  {
    var prev := SaveRow(t, R8G8B8A8Srgb, s0, n - 1);
    var px := SavePixel(t, R8G8B8A8Srgb, s0 + 4 * (n - 1));
    SplitLast(raw, a, n, prev, px);
    LoadSavedPixel(raw, a + 4 * (n - 1), t, s0 + 4 * (n - 1));
  }

  /** The file row `a` bytes into `raw`, when it holds texture pixels saved as RGBA, loads back to those pixels. */
  lemma {:induction false} LoadSavedPixels(raw: seq<Byte>, a: nat, t: seq<Byte>, s0: nat, n: nat)
    requires a + 4 * n <= |raw| && s0 + 4 * n <= |t|
    requires raw[a..a + 4 * n] == SaveRow(t, R8G8B8A8Srgb, s0, n)
    ensures LoadRow(raw, 32, a, n) == t[s0..s0 + 4 * n]
  {
    if n > 0 {
      LoadSavedLast(raw, a, t, s0, n);
      LoadSavedPixels(raw, a, t, s0, n - 1);
      LoadRowJoin(raw, a, t, s0, n);
    }
  }

  /** A loaded scanline is a texture row when its first `n - 1` pixels and its last one are. */
  lemma {:induction false} LoadRowJoin(raw: seq<Byte>, a: nat, t: seq<Byte>, s0: nat, n: nat)
    requires 0 < n && a + 4 * n <= |raw| && s0 + 4 * n <= |t|
    requires LoadRow(raw, 32, a, n - 1) == t[s0..s0 + 4 * (n - 1)]
    requires LoadPixel(raw, 32, a + 4 * (n - 1)) == t[s0 + 4 * (n - 1)..s0 + 4 * (n - 1) + 4]
    ensures LoadRow(raw, 32, a, n) == t[s0..s0 + 4 * n]
  {
    LoadRowLast(raw, a, n);
    var b := 4 * (n - 1);
    assert t[s0..s0 + b] + t[s0 + b..s0 + b + 4] == t[s0..s0 + 4 * n];
  }

  /** File row `j` of the first `k` saved rows is texture row `h - 1 - j`. */
  lemma {:induction false} SavedRowAt(t: seq<Byte>, pf: PixelFormat, w: nat, h: nat, offset: nat, stride: nat, k: nat, j: nat)
    requires Savable(pf) && RowsWithin(|t|, w, h, offset, stride) && j < k <= h
    ensures RowStart(offset, stride, h - 1 - j) + 4 * w <= |t| && (j + 1) * (4 * w) <= k * (4 * w)
    ensures Row(SavedRows(t, pf, w, h, offset, stride, k), 4 * w, j) == SaveRow(t, pf, RowStart(offset, stride, h - 1 - j), w)
  {
    RowStartWithin(|t|, w, h, offset, stride, h - 1 - j);
    RowStartWithin(|t|, w, h, offset, stride, h - k);
    MulMono(j + 1, k, 4 * w);
    var prev := SavedRows(t, pf, w, h, offset, stride, k - 1);
    var last := SaveRow(t, pf, RowStart(offset, stride, h - k), w);
    assert SavedRows(t, pf, w, h, offset, stride, k) == prev + last;
    if j == k - 1 {
      RowAfter(prev, last, 4 * w, j);
    } else {
      SavedRowAt(t, pf, w, h, offset, stride, k - 1, j);
      RowOfPrefix(prev, last, 4 * w, j);
    }
  }

  /** Texture row `j` of a reloaded RGBA texture is row `j` of the texture. */
  lemma {:induction false} LoadSavedRow(t: seq<Byte>, w: nat, h: nat, j: nat)
    requires |t| == h * (4 * w) && j < h
    ensures RowsWithin(|t|, w, h, 0, 4 * w) && (h - j) * (w * 4) <= h * (w * 4) && (h - j) * (4 * w) <= |t|
    ensures OutRow(Saved(t, R8G8B8A8Srgb, w, h, 0, 4 * w), w, 32, h - 1 - j) == Row(t, 4 * w, j)
  {
    assert w * (32 / 8) == w * 4 == 4 * w;
    SavedWithin(w, h);
    MulMono(h - j, h, 4 * w);
    MulMono(j + 1, h, 4 * w);
    SavedRowOf(t, w, h, j);
    var f := h - 1 - j;
    var sv := SavedRows(t, R8G8B8A8Srgb, w, h, 0, 4 * w, h);
    assert f + 1 == h - j && |sv| == h * (4 * w);
    LoadSavedRowFrom(sv, t, w, f, j);
  }

  /** File row `h - 1 - j` of a texture saved as RGBA holds texture row `j`. */
  lemma {:induction false} SavedRowOf(t: seq<Byte>, w: nat, h: nat, j: nat)
    requires |t| == h * (4 * w) && j < h && RowsWithin(|t|, w, h, 0, 4 * w)
    ensures (h - j) * (4 * w) <= h * (4 * w) && j * (4 * w) + 4 * w <= |t|
    ensures Row(SavedRows(t, R8G8B8A8Srgb, w, h, 0, 4 * w, h), 4 * w, h - 1 - j) == SaveRow(t, R8G8B8A8Srgb, j * (4 * w), w)
  {
    MulMono(h - j, h, 4 * w);
    MulMono(j + 1, h, 4 * w);
    MulPred(j + 1, 4 * w);
    MulNat(j, 4 * w);
    var f := h - 1 - j;
    SavedRowAt(t, R8G8B8A8Srgb, w, h, 0, 4 * w, h, f);
    assert h - 1 - f == j;
  }

  /** File row `f` holding texture row `j` saved as RGBA loads back to texture row `j`. */
  lemma {:induction false} LoadSavedRowFrom(sv: seq<Byte>, t: seq<Byte>, w: nat, f: nat, j: nat)
    requires (f + 1) * (4 * w) <= |sv| && j * (4 * w) + 4 * w <= |t|
    requires Row(sv, 4 * w, f) == SaveRow(t, R8G8B8A8Srgb, j * (4 * w), w)
    ensures (j + 1) * (4 * w) <= |t|
    ensures OutRow(sv, w, 32, f) == Row(t, 4 * w, j)
  {
    MulPred(j + 1, 4 * w);
    MulNat(f, 4 * w);
    MulNat(j, 4 * w);
    RowSlice(sv, 4 * w, f);
    RowSlice(t, 4 * w, j);
    LoadSavedPixels(sv, f * (4 * w), t, j * (4 * w), w);
    OutRowAt(sv, w, f);
  }

  /** A 32-bit scanline starts `4 * w` bytes per row into the file. */
  lemma {:induction false} OutRowAt(raw: seq<Byte>, w: nat, f: nat)
    requires (f + 1) * (4 * w) <= |raw|
    ensures f * (4 * w) + 4 * w <= |raw|
    ensures OutRow(raw, w, 32, f) == LoadRow(raw, 32, f * (4 * w), w)
  {
    MulPred(f + 1, 4 * w);
    assert w * (32 / 8) == 4 * w;
  }

  lemma {:induction false} SavedWithin(w: nat, h: nat)
    ensures RowsWithin(h * (4 * w), w, h, 0, 4 * w)
  {
    if h > 0 {
      MulPred(h, 4 * w);
    }
  }

  /** The last `k` rows loaded back from a saved RGBA texture are its last `k` rows. */
  lemma {:induction false} LoadSavedRows(t: seq<Byte>, w: nat, h: nat, k: nat)
    requires |t| == h * (4 * w) && k <= h
    ensures RowsWithin(|t|, w, h, 0, 4 * w) && k * (w * 4) <= h * (w * 4) && (h - k) * (4 * w) <= |t|
    ensures LoadedRows(Saved(t, R8G8B8A8Srgb, w, h, 0, 4 * w), w, 32, k) == t[(h - k) * (4 * w)..]
  {
    if k == 0 {
      SavedWithin(w, h);
      assert w * 4 == 4 * w;
      assert t[h * (4 * w)..] == [];
    } else {
      LoadSavedRows(t, w, h, k - 1);
      LoadSavedRowsStep(t, w, h, k);
    }
  }

  /** One more row loaded back: the row above the last `k - 1` rows joins them. */
  lemma {:induction false} LoadSavedRowsStep(t: seq<Byte>, w: nat, h: nat, k: nat)
    requires |t| == h * (4 * w) && 0 < k <= h
    requires RowsWithin(|t|, w, h, 0, 4 * w) && (k - 1) * (w * 4) <= h * (w * 4) && (h - (k - 1)) * (4 * w) <= |t|
    requires LoadedRows(Saved(t, R8G8B8A8Srgb, w, h, 0, 4 * w), w, 32, k - 1) == t[(h - (k - 1)) * (4 * w)..]
    ensures k * (w * 4) <= h * (w * 4) && (h - k) * (4 * w) <= |t|
    ensures LoadedRows(Saved(t, R8G8B8A8Srgb, w, h, 0, 4 * w), w, 32, k) == t[(h - k) * (4 * w)..]
  {
    assert w * (32 / 8) == w * 4 == 4 * w;
    MulMono(k, h, 4 * w);
    MulMono(h - k, h, 4 * w);
    var sv := Saved(t, R8G8B8A8Srgb, w, h, 0, 4 * w);
    var j := h - k;
    LoadSavedRow(t, w, h, j);
    assert h - 1 - j == k - 1 && h - (k - 1) == j + 1;
    RowThenRest(t, 4 * w, j);
    assert LoadedRows(sv, w, 32, k) == OutRow(sv, w, 32, k - 1) + LoadedRows(sv, w, 32, k - 1);
  }

  /** Row `j` followed by everything after it is everything from row `j` on. */
  lemma {:induction false} RowThenRest(t: seq<Byte>, m: nat, j: nat)
    requires (j + 1) * m <= |t|
    ensures j * m <= |t| && Row(t, m, j) + t[(j + 1) * m..] == t[j * m..]
  {
    RowSlice(t, m, j);
    MulPred(j + 1, m);
    MulNat(j, m);
    assert t[j * m..(j + 1) * m] + t[(j + 1) * m..] == t[j * m..];
  }

  /** Saving an RGBA texture of tightly packed rows and loading the file back gives its data back. */
  lemma {:induction false} SaveLoadRoundTrip(t: seq<Byte>, w: nat, h: nat)
    requires |t| == h * (4 * w)
    ensures RowsWithin(|t|, w, h, 0, 4 * w)
    ensures h * (w * (32 / 8)) <= |Saved(t, R8G8B8A8Srgb, w, h, 0, 4 * w)|
    ensures Loaded(Saved(t, R8G8B8A8Srgb, w, h, 0, 4 * w), w, h, 32) == t
  {
    LoadSavedRows(t, w, h, h);
    assert t[0..] == t;
  }

  // ----- the repacking loops

  /** The buffer `o` with `piece` written over it at `at`: the same length, the piece in place, every other byte kept. */
  function Spliced(o: seq<Byte>, at: nat, piece: seq<Byte>): (r: seq<Byte>)
    requires at + |piece| <= |o|
    ensures |r| == |o| && r[at..at + |piece|] == piece
    ensures r[..at] == o[..at] && r[at + |piece|..] == o[at + |piece|..]
  {
    o[..at] + piece + o[at + |piece|..]
  }

  /** Writing a piece just after the one already written is writing both at once. */
  lemma {:induction false} SplicedNext(o: seq<Byte>, base: nat, cur: seq<Byte>, px: seq<Byte>)
    requires base + |cur| + |px| <= |o|
    ensures Spliced(Spliced(o, base, cur), base + |cur|, px) == Spliced(o, base, cur + px)
  {
    var s := Spliced(o, base, cur);
    assert s[..base + |cur|] == o[..base] + cur;
    assert s[base + |cur| + |px|..] == o[base + |cur| + |px|..];
  }

  /** Stores one pixel's four bytes at `at`, leaving every other byte as it was. */
  method PutPixel(data: array<Byte>, at: nat, px: seq<Byte>)
    requires at + 4 <= data.Length && |px| == 4
    modifies data
    ensures data[..] == Spliced(old(data[..]), at, px)
  {
    data[at] := px[0];
    data[at + 1] := px[1];
    data[at + 2] := px[2];
    data[at + 3] := px[3];
  }

  /** Nothing written yet: the buffer as it was. */
  lemma {:induction false} SpliceEmpty(o: seq<Byte>, base: nat)
    requires base <= |o|
    ensures Spliced(o, base, []) == o
  {
    assert o[..base] + [] + o[base..] == o[..base] + o[base..];
  }

  /**
   * One pass of a pixel loop: stores pixel `x` of the scanline, read `s`
   * bytes in, after the `x` pixels already stored at `base`.
   */
  method StorePixel(data: array<Byte>, base: nat, raw: seq<Byte>, bpp: nat, src0: nat, n: nat, x: nat, s: nat, ghost o: seq<Byte>)
    requires Repacked(bpp) && x < n && s == x * (bpp / 8) && src0 + (x + 1) * (bpp / 8) <= |raw|
    requires |o| == data.Length && base + 4 * n <= |o|
    requires data[..] == Spliced(o, base, LoadRow(raw, bpp, src0, x))
    modifies data
    ensures data[..] == Spliced(o, base, LoadRow(raw, bpp, src0, x + 1))
  {
    LoadRowNext(raw, bpp, src0, x, s, x + 1);
    var px := LoadPixel(raw, bpp, src0 + s);
    ghost var cur := LoadRow(raw, bpp, src0, x);
    SplicedNext(o, base, cur, px);
    PutPixel(data, base + 4 * x, px);
    assert data[..] == Spliced(Spliced(o, base, cur), base + |cur|, px);
  }

  /** The pixel loop of a 32-bit scanline: writes the loaded row at `base` and nothing else. */
  method RepackRow32(data: array<Byte>, base: nat, raw: seq<Byte>, src0: nat, n: nat)
    requires base + 4 * n <= data.Length && src0 + n * (32 / 8) <= |raw|
    modifies data
    ensures data[..] == Spliced(old(data[..]), base, LoadRow(raw, 32, src0, n))
  {
    ghost var o := data[..];
    SpliceEmpty(o, base);
    var x, s := 0, 0;
    while x < n
      invariant x <= n && s == 4 * x
      invariant data[..] == Spliced(o, base, LoadRow(raw, 32, src0, x))
    {
      StorePixel(data, base, raw, 32, src0, n, x, s, o);
      x, s := x + 1, s + 4;
    }
  }

  /** The pixel loop of a 24-bit scanline, whose source index advances by three bytes. */
  method RepackRow24(data: array<Byte>, base: nat, raw: seq<Byte>, src0: nat, n: nat)
    requires base + 4 * n <= data.Length && src0 + n * (24 / 8) <= |raw|
    modifies data
    ensures data[..] == Spliced(old(data[..]), base, LoadRow(raw, 24, src0, n))
  {
    ghost var o := data[..];
    SpliceEmpty(o, base);
    var x, s := 0, 0;
    while x < n
      invariant x <= n && s == 3 * x
      invariant data[..] == Spliced(o, base, LoadRow(raw, 24, src0, x))
    {
      StorePixel(data, base, raw, 24, src0, n, x, s, o);
      x, s := x + 1, s + 3;
    }
  }

  /** The next pixel of a scanline read `s` bytes in. */
  lemma {:induction false} LoadRowNext(raw: seq<Byte>, bpp: nat, src0: nat, x: nat, s: nat, n: nat)
    requires Repacked(bpp) && x < n && s == x * (bpp / 8) && src0 + n * (bpp / 8) <= |raw|
    ensures src0 + s + bpp / 8 <= |raw| && src0 + (x + 1) * (bpp / 8) <= |raw|
    ensures LoadRow(raw, bpp, src0, x + 1) == LoadRow(raw, bpp, src0, x) + LoadPixel(raw, bpp, src0 + s)
  {
    MulPred(x + 1, bpp / 8);
    MulMono(x + 1, n, bpp / 8);
  }

  /** Writing a row just before the rows already loaded, over zeros. */
  lemma {:induction false} RowBeforeRest(o: seq<Byte>, z: nat, rest: seq<Byte>, row: seq<Byte>)
    requires o == Zeros(z) + rest && |row| <= z
    ensures o[..z - |row|] + row + o[z..] == Zeros(z - |row|) + (row + rest)
  {
    assert o[..z - |row|] == Zeros(z - |row|);
    assert o[z..] == rest;
  }

  /** Where the loop's row `y` starts, in the texture and in the file. */
  lemma {:induction false} ScanlinePlace(h: nat, w: nat, bpp: nat, y: nat)
    requires 0 < y <= h
    ensures 0 <= (h - y) * (4 * w) && (h - y) * (4 * w) + 4 * w + (y - 1) * (4 * w) == h * (4 * w)
    ensures (y - 1) * (4 * w) + 4 * w == y * (4 * w)
    ensures 0 <= (y - 1) * (w * (bpp / 8)) && (y - 1) * (w * (bpp / 8)) + w * (bpp / 8) == y * (w * (bpp / 8))
    ensures y * (w * (bpp / 8)) <= h * (w * (bpp / 8))
  {
    MulNat(h - y, 4 * w);
    MulPred(y, 4 * w);
    assert (h - y) * (4 * w) + y * (4 * w) == h * (4 * w);
    MulNat(y - 1, w * (bpp / 8));
    MulPred(y, w * (bpp / 8));
    MulMono(y, h, w * (bpp / 8));
  }

  /** After `y` passes of the row loop the last `y` texture rows are loaded and the rows above them are zero. */
  ghost predicate LoadedSoFar(d: seq<Byte>, raw: seq<Byte>, w: nat, bpp: nat, y: nat)
  {
    y * (w * (bpp / 8)) <= |raw| && y * (4 * w) <= |d| &&
    d == Zeros(|d| - y * (4 * w)) + LoadedRows(raw, w, bpp, y)
  }

  /** One pass of the row loop: texture row `h - y` made from scanline `y - 1`. */
  method RepackScanline(data: array<Byte>, raw: seq<Byte>, w: nat, h: nat, bpp: nat, y: nat)
    requires 0 < y <= h && data.Length == h * (4 * w) && h * (w * (bpp / 8)) <= |raw|
    requires LoadedSoFar(data[..], raw, w, bpp, y - 1)
    modifies data
    ensures LoadedSoFar(data[..], raw, w, bpp, y)
  {
    ScanlinePlace(h, w, bpp, y);
    var base: nat := (h - y) * (4 * w);
    ghost var before := data[..];
    if Repacked(bpp) {
      var src0: nat := (y - 1) * (w * (bpp / 8));
      if bpp == 32 {
        RepackRow32(data, base, raw, src0, w);
      } else {
        RepackRow24(data, base, raw, src0, w);
      }
      assert data[..] == Spliced(before, base, OutRow(raw, w, bpp, y - 1));
    }
    LoadedNext(before, data[..], raw, w, h, bpp, y, base);
  }

  /** Row `h - y` written from scanline `y - 1`, or left zero at another depth, extends the rows loaded so far by one. */
  lemma {:induction false} LoadedNext(before: seq<Byte>, after: seq<Byte>, raw: seq<Byte>, w: nat, h: nat, bpp: nat, y: nat, base: nat)
    requires 0 < y <= h && |before| == h * (4 * w) && h * (w * (bpp / 8)) <= |raw|
    requires LoadedSoFar(before, raw, w, bpp, y - 1)
    requires base == (h - y) * (4 * w) && base + 4 * w <= |before| && y * (w * (bpp / 8)) <= |raw|
    requires after == if Repacked(bpp) then Spliced(before, base, OutRow(raw, w, bpp, y - 1)) else before
    ensures LoadedSoFar(after, raw, w, bpp, y)
  {
    ScanlinePlace(h, w, bpp, y);
    var rest := LoadedRows(raw, w, bpp, y - 1);
    var row := OutRow(raw, w, bpp, y - 1);
    assert LoadedRows(raw, w, bpp, y) == row + rest;
    if Repacked(bpp) {
      RowBeforeRest(before, base + 4 * w, rest, row);
    } else {
      ZerosAdd(base, 4 * w);
    }
  }

  /**
   * The loader's repacking loop, with the source scanline advanced row by
   * row: the buffer holds the loaded texture data when it ends.
   */
  method RepackLoaded(raw: seq<Byte>, w: nat, h: nat, bpp: nat) returns (data: array<Byte>)
    requires h * (w * (bpp / 8)) <= |raw|
    ensures fresh(data) && data[..] == Loaded(raw, w, h, bpp)
  {
    MulNat(h, 4 * w);
    data := new Byte[h * (4 * w)](_ => 0);
    assert data[..] == Zeros(data.Length - 0 * (4 * w)) + LoadedRows(raw, w, bpp, 0);
    var y := 1;
    while y <= h
      invariant 1 <= y <= h + 1 && data.Length == h * (4 * w)
      invariant LoadedSoFar(data[..], raw, w, bpp, y - 1)
    {
      RepackScanline(data, raw, w, h, bpp, y);
      y := y + 1;
    }
    assert y - 1 == h;
    assert data.Length - h * (4 * w) == 0;
  }

  /** One pass of the saver's pixel loop: stores pixel `x` of a texture row after the `x` pixels already stored at `base`. */
  method StoreSavedPixel(data: array<Byte>, base: nat, t: seq<Byte>, pf: PixelFormat, src0: nat, n: nat, x: nat, ghost o: seq<Byte>)
    requires Savable(pf) && x < n && src0 + 4 * n <= |t|
    requires |o| == data.Length && base + 4 * n <= |o|
    requires data[..] == Spliced(o, base, SaveRow(t, pf, src0, x))
    modifies data
    ensures data[..] == Spliced(o, base, SaveRow(t, pf, src0, x + 1))
  {
    var px := SavePixel(t, pf, src0 + 4 * x);
    ghost var cur := SaveRow(t, pf, src0, x);
    SplicedNext(o, base, cur, px);
    PutPixel(data, base + 4 * x, px);
    assert data[..] == Spliced(Spliced(o, base, cur), base + |cur|, px);
  }

  /** The saver's pixel loop over one texture row: writes the saved row at `base` and nothing else. */
  method SaveRowInto(data: array<Byte>, base: nat, t: seq<Byte>, pf: PixelFormat, src0: nat, n: nat)
    requires Savable(pf) && base + 4 * n <= data.Length && src0 + 4 * n <= |t|
    modifies data
    ensures data[..] == Spliced(old(data[..]), base, SaveRow(t, pf, src0, n))
  {
    ghost var o := data[..];
    SpliceEmpty(o, base);
    var x := 0;
    while x < n
      invariant x <= n
      invariant data[..] == Spliced(o, base, SaveRow(t, pf, src0, x))
    {
      StoreSavedPixel(data, base, t, pf, src0, n, x, o);
      x := x + 1;
    }
  }

  /** Writing a row just after the rows already saved, over zeros. */
  lemma {:induction false} RowAfterDone(o: seq<Byte>, done: seq<Byte>, z: nat, row: seq<Byte>)
    requires o == done + Zeros(z) && |row| <= z
    ensures o[..|done|] + row + o[|done| + |row|..] == (done + row) + Zeros(z - |row|)
  {
    assert o[..|done|] == done;
    assert o[|done| + |row|..] == Zeros(z - |row|);
  }

  /** After `y` passes of the saver's row loop the first `y` file rows are saved and the rest are zero. */
  ghost predicate SavedSoFar(d: seq<Byte>, t: seq<Byte>, pf: PixelFormat, w: nat, h: nat, offset: nat, stride: nat, y: nat)
  {
    Savable(pf) && RowsWithin(|t|, w, h, offset, stride) && y <= h && y * (4 * w) <= |d| &&
    d == SavedRows(t, pf, w, h, offset, stride, y) + Zeros(|d| - y * (4 * w))
  }

  /** One pass of the saver's row loop: file row `y - 1` made from texture row `h - y`. */
  method SaveScanline(data: array<Byte>, t: seq<Byte>, pf: PixelFormat, w: nat, h: nat, offset: nat, stride: nat, y: nat)
    requires 0 < y <= h && data.Length == h * (4 * w)
    requires SavedSoFar(data[..], t, pf, w, h, offset, stride, y - 1)
    modifies data
    ensures SavedSoFar(data[..], t, pf, w, h, offset, stride, y)
  {
    ScanlinePlace(h, w, 32, y);
    MulMono(y, h, 4 * w);
    RowStartWithin(|t|, w, h, offset, stride, h - y);
    ghost var done := SavedRows(t, pf, w, h, offset, stride, y - 1);
    var src0 := RowStart(offset, stride, h - y);
    ghost var row := SaveRow(t, pf, src0, w);
    assert SavedRows(t, pf, w, h, offset, stride, y) == done + row;
    var base: nat := (y - 1) * (4 * w);
    ghost var before := data[..];
    RowAfterDone(before, done, data.Length - (y - 1) * (4 * w), row);
    SaveRowInto(data, base, t, pf, src0, w);
  }

  /**
   * The saver's repacking loop, with each row written at its own place in
   * the file data and read as `4 * width` bytes: the buffer holds the saved
   * pixel data when it ends.
   */
  method RepackSaved(t: seq<Byte>, pf: PixelFormat, w: nat, h: nat, offset: nat, stride: nat) returns (data: array<Byte>)
    requires Savable(pf) && RowsWithin(|t|, w, h, offset, stride)
    ensures fresh(data) && data[..] == Saved(t, pf, w, h, offset, stride)
  {
    MulNat(h, 4 * w);
    data := new Byte[h * (4 * w)](_ => 0);
    assert data[..] == SavedRows(t, pf, w, h, offset, stride, 0) + Zeros(data.Length - 0 * (4 * w));
    var y := 1;
    while y <= h
      invariant 1 <= y <= h + 1 && data.Length == h * (4 * w)
      invariant SavedSoFar(data[..], t, pf, w, h, offset, stride, y - 1)
    {
      SaveScanline(data, t, pf, w, h, offset, stride, y);
      y := y + 1;
    }
    assert y - 1 == h;
    assert data[..] == SavedRows(t, pf, w, h, offset, stride, h) + Zeros(0);
  }
}
