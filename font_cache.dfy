/**
 * The font cache (src/font/font_cache.cpp): font faces registered under
 * case-insensitive names, each with its own cache of the fonts created from
 * it, keyed by the font options.
 */
module FontCache {
  import opened Errors
  import opened Bytes
  import opened Strings

  /** A linear RGB colour; components are modelled as reals. */
  datatype ColorRGB = ColorRGB(r: real, g: real, b: real)

  /** `operator<` on colours: lexicographic over r, g, b. */
  predicate ColorLess(c1: ColorRGB, c2: ColorRGB)
  {
    c1.r < c2.r || (c1.r == c2.r && (c1.g < c2.g || (c1.g == c2.g && c1.b < c2.b)))
  }

  /** The options a font is created with. */
  datatype FontOptions = FontOptions(
    fontSizePx: nat, colorTop: ColorRGB, colorBottom: ColorRGB, vertScale: real,
    strokeSizePx: real, strokeColor: ColorRGB, embossed: bool)

  /** `false < true`, as on `bool`. */
  predicate BoolLess(a: bool, b: bool)
  {
    !a && b
  }

  /** `operator<` on options: lexicographic over the seven fields in declaration order. */
  predicate OptionsLess(o1: FontOptions, o2: FontOptions)
  {
    o1.fontSizePx < o2.fontSizePx || (o1.fontSizePx == o2.fontSizePx && (
    ColorLess(o1.colorTop, o2.colorTop) || (o1.colorTop == o2.colorTop && (
    ColorLess(o1.colorBottom, o2.colorBottom) || (o1.colorBottom == o2.colorBottom && (
    o1.vertScale < o2.vertScale || (o1.vertScale == o2.vertScale && (
    o1.strokeSizePx < o2.strokeSizePx || (o1.strokeSizePx == o2.strokeSizePx && (
    ColorLess(o1.strokeColor, o2.strokeColor) || (o1.strokeColor == o2.strokeColor &&
    BoolLess(o1.embossed, o2.embossed))))))))))))
  }

  /** The description a face is created from: the font file's bytes. */
  datatype FontFaceDesc = FontFaceDesc(data: seq<Byte>)

  /** A font created from a face; each creation makes a new one. */
  class Font {
    const options: FontOptions

    constructor (options: FontOptions)
      ensures this.options == options
    {
      this.options := options;
    }
  }

  /** `FontCache::FaceCache`: a face and the fonts created from it so far. */
  class FaceCache {
    const face: FontFaceDesc
    var fonts: map<FontOptions, Font>
    /** The options `create_font` has been called with, in order. */
    ghost var created: seq<FontOptions>

    constructor (face: FontFaceDesc)
      ensures this.face == face && fonts == map[] && created == []
    {
      this.face := face;
      fonts := map[];
      created := [];
    }

    /** `get`: the font cached for these options, or a newly created one that is then cached. */
    method Get(options: FontOptions) returns (font: Font)
      modifies this
      ensures options in old(fonts) ==> font == old(fonts)[options] && fonts == old(fonts) && created == old(created)
      ensures options !in old(fonts) ==>
        fresh(font) && font.options == options && fonts == old(fonts)[options := font] && created == old(created) + [options]
    {
      if options in fonts {
        return fonts[options];
      }
      font := new Font(options);
      created := created + [options];
      fonts := fonts[options := font];
    }

    /** `clear`: forgets the fonts, keeps the face. */
    method Clear()
      modifies this
      ensures fonts == map[] && created == old(created)
    {
      fonts := map[];
    }
  }

  /** `FontCache`: the face caches, filed under their lower-cased names. */
  class FontCache {
    var faces: map<string, FaceCache>

    constructor ()
      ensures faces == map[]
    {
      faces := map[];
    }

    /** `add_face`: an argument error when the name is taken in any case, else a new face cache. */
    method AddFace(name: string, desc: FontFaceDesc) returns (r: Result<()>)
      modifies this
      ensures r.Err? <==> Fold(name) in old(faces)
      ensures r.Err? ==> r.error == ArgumentError && faces == old(faces)
      ensures r.Ok? ==> (Fold(name) in faces && fresh(faces[Fold(name)]) &&
        faces[Fold(name)].face == desc && faces[Fold(name)].fonts == map[] &&
        faces == old(faces)[Fold(name) := faces[Fold(name)]])
    {
      var key := Fold(name);
      if key in faces {
        return Err(ArgumentError);
      }
      var cache := new FaceCache(desc);
      faces := faces[key := cache];
      r := Ok(());
    }

    /** `get`: no font for an unknown face, and nothing changes; otherwise the face cache's `get`. */
    method Get(name: string, options: FontOptions) returns (font: Font?)
      modifies if Fold(name) in faces then {faces[Fold(name)]} else {}
      ensures Fold(name) !in faces ==> font == null
      ensures Fold(name) in faces ==> (font != null &&
        var cache := faces[Fold(name)];
        (options in old(cache.fonts) ==> font == old(cache.fonts)[options] && cache.fonts == old(cache.fonts)) &&
        (options !in old(cache.fonts) ==>
          (fresh(font) && font.options == options && cache.fonts == old(cache.fonts)[options := font])))
    {
      var key := Fold(name);
      if key !in faces {
        return null;
      }
      font := faces[key].Get(options);
    }

    /** `clear`: every face keeps its place but forgets its fonts. */
    method Clear()
      modifies set k | k in faces :: faces[k]
      ensures faces == old(faces)
      ensures forall k :: k in faces ==> faces[k].fonts == map[]
    {
      var todo := faces.Keys;
      while todo != {}
        invariant todo <= faces.Keys
        invariant forall k :: k in faces.Keys - todo ==> faces[k].fonts == map[]
        decreases todo
      {
        var k :| k in todo;
        faces[k].Clear();
        todo := todo - {k};
      }
    }

    /**
     * `clear` as its declaration documents it: removes every face, and with
     * them the cache's references to the fonts created from them.
     */
    method ClearAsDocumented()
      modifies this
      ensures faces == map[]
    {
      faces := map[];
    }
  }

  /**
   * After `clear` as written a face name stays taken, so adding the face
   * again is refused; after the documented `clear` it is accepted.
   */
  method ReAddAfterClear(name: string, desc: FontFaceDesc) returns (asWritten: Result<()>, documented: Result<()>)
    ensures asWritten == Err(ArgumentError) && documented.Ok?
  {
    var cache := new FontCache();
    var _ := cache.AddFace(name, desc);
    cache.Clear();
    asWritten := cache.AddFace(name, desc);
    var other := new FontCache();
    var _ := other.AddFace(name, desc);
    other.ClearAsDocumented();
    documented := other.AddFace(name, desc);
  }

  // ----- properties

  /** Colour order is a strict order, and two colours neither of which is less are equal. */
  lemma {:induction false} ColorLessStrictTotal(a: ColorRGB, b: ColorRGB, c: ColorRGB)
    ensures !ColorLess(a, a)
    ensures ColorLess(a, b) && ColorLess(b, c) ==> ColorLess(a, c)
    ensures !ColorLess(a, b) && !ColorLess(b, a) ==> a == b
  {
  }

  /**
   * Option order is a strict order, and two options neither of which is
   * less are equal, so the font map holds one font per distinct options.
   */
  lemma {:induction false} OptionsLessStrictTotal(a: FontOptions, b: FontOptions, c: FontOptions)
    ensures !OptionsLess(a, a)
    ensures OptionsLess(a, b) && OptionsLess(b, c) ==> OptionsLess(a, c)
    ensures !OptionsLess(a, b) && !OptionsLess(b, a) ==> a == b
  {
    ColorLessStrictTotal(a.colorTop, b.colorTop, c.colorTop);
    ColorLessStrictTotal(a.colorBottom, b.colorBottom, c.colorBottom);
    ColorLessStrictTotal(a.strokeColor, b.strokeColor, c.strokeColor);
  }
}
