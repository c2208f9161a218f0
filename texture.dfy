// The texture object of the level compiler: the decoded picture turned into
// a palette, packed image words and colour classes, plus the VRAM
// coordinates the packer assigns to its image and its palette.
//
// The picture, palette, image and shapes are fixed once the texture is
// built; only the blend mode and the four coordinates change afterwards.
// The x coordinates are stored with 512 added in size_t arithmetic and the
// getters take it off again; the y coordinates are stored as given.

module Textures {
  import opened Dedup
  import opened Pixels
  import opened ColorShapes

  /** A size_t value. */
  type SizeT = x: int | 0 <= x < SizeMod

  /** How an x coordinate is stored: x + 512, wrapping in size_t. */
  function StoredX(x: SizeT): SizeT {
    (x + 512) % SizeMod
  }

  /** What the getters return for a stored x coordinate: v - 512, wrapping in size_t. */
  function LoadedX(v: SizeT): SizeT {
    (v - 512) % SizeMod
  }

  /** Storing an x coordinate and reading it back gives it back, for every size_t. */
  lemma StoredLoaded(x: SizeT)
    ensures LoadedX(StoredX(x)) == x
  {
    if x + 512 < SizeMod {
      assert StoredX(x) == x + 512;
    } else {
      assert StoredX(x) == x + 512 - SizeMod;
    }
  }

  /** Reading a stored coordinate and storing it again leaves it unchanged. */
  lemma LoadedStored(v: SizeT)
    ensures StoredX(LoadedX(v)) == v
  {
    if v >= 512 {
      assert LoadedX(v) == v - 512;
    } else {
      assert LoadedX(v) == v - 512 + SizeMod;
    }
  }

  /**
   * The intended direct-colour image: each pixel's index looked up in the
   * palette.  CreateTexture stores `DirectImageAsWritten` instead.
   */
  function DirectImage(clut: seq<u16>, indexes: seq<nat>): (image: seq<u16>)
    requires IndexesUnder(indexes, |clut|)
    ensures |image| == |indexes|
  {
    seq(|indexes|, i requires 0 <= i < |indexes| => clut[indexes[i]])
  }

  /** The direct-colour image of a picture is its colour sequence, pixel by pixel. */
  lemma DirectImageColors(colors: seq<u16>)
    ensures IndexesUnder(Numbering(colors), |Distinct(colors)|)
    ensures DirectImage(Distinct(colors), Numbering(colors)) == colors
  {
  }

  /** The direct-colour image as CreateTexture writes it: the palette itself. */
  function DirectImageAsWritten(clut: seq<u16>, indexes: seq<nat>): (image: seq<u16>)
    ensures image == clut
  {
    clut
  }

  /**
   * A direct-colour picture in which some colour occurs twice gets an image
   * with fewer words than it has pixels, while its VRAM rectangle is one word
   * per pixel.
   */
  lemma DirectImageAsWrittenShort(colors: seq<u16>, i: nat, j: nat)
    requires i < j < |colors| && colors[i] == colors[j]
    ensures |DirectImageAsWritten(Distinct(colors), Numbering(colors))| < |colors|
  {
    DistinctRepeat(colors, i, j);
  }

  /** Every palette index of a paletted picture fits the field width of its depth. */
  lemma NumberingFits(colors: seq<u16>)
    requires GetBpp(|Distinct(colors)|) != Bpp16
    ensures IndexesBelow(Numbering(colors), IndexesPerWord(GetBpp(|Distinct(colors)|)))
  {
    var k := |Distinct(colors)|;
    var idx := Numbering(colors);
    forall i | 0 <= i < |idx| ensures idx[i] < Pow2(Shifter(IndexesPerWord(GetBpp(k)))) {
      IndexesFit(k, idx[i]);
    }
  }

  /** Every palette entry of a picture is used by some pixel: no shape is empty. */
  lemma PaletteEntriesUsed(colors: seq<u16>, c: nat)
    requires c < |Distinct(colors)|
    ensures Shapes(Numbering(colors), |Distinct(colors)|)[c] != []
  {
    var d := Distinct(colors);
    var idx := Numbering(colors);
    DistinctMembers(colors, d[c]);
    var j :| 0 <= j < |colors| && colors[j] == d[c];
    assert d[idx[j]] == d[c];
    assert idx[j] == c;
    ShapesNonEmpty(idx, |d|, j);
  }

  /** Equal 16-bit words are equal numbers, and back. */
  lemma AsNatInjective(a: seq<u16>, b: seq<u16>)
    requires AsNat(a) == AsNat(b)
    ensures a == b
  {
    assert |a| == |AsNat(a)|;
    forall i | 0 <= i < |a| ensures a[i] == b[i] {
      assert AsNat(a)[i] == AsNat(b)[i];
    }
  }

  /** A paletted row of `width` indices fills `VramWidth` words. */
  lemma RowWords(width: nat, bpp: Bpp)
    requires bpp != Bpp16
    ensures VramWidth(width, bpp) == (width + IndexesPerWord(bpp) - 1) / IndexesPerWord(bpp)
  {
    if bpp == Bpp4 {
      assert IndexesPerWord(bpp) == 4;
    } else {
      assert IndexesPerWord(bpp) == 2;
    }
  }

  lemma MulPositive(a: nat, b: nat)
    requires a >= 1 && b >= 1
    ensures a * b >= 1
  {
  }

  lemma MulComm(a: nat, b: nat)
    ensures a * b == b * a
  {
  }

  lemma MulLess(a: nat, b: nat, h: nat)
    requires a < b && h >= 1
    ensures a * h < b * h
  {
  }

  /** Rounding the row width down loses a word exactly when the width is not a whole number of words. */
  lemma CeilFloor(width: nat, bpp: Bpp)
    requires bpp != Bpp16
    ensures VramWidthAsWritten(width, bpp) <= VramWidth(width, bpp) <= VramWidthAsWritten(width, bpp) + 1
    ensures VramWidth(width, bpp) == VramWidthAsWritten(width, bpp) <==> width % IndexesPerWord(bpp) == 0
  {
  }

  class Texture {
    const width: nat
    const height: nat
    /** The palette: the distinct 16-bit colours in order of first occurrence. */
    const clut: seq<u16>
    /** The words that go into VRAM: packed indices, or one colour per pixel at 16 bpp. */
    const image: seq<u16>
    /** Per palette entry, the ascending positions of the pixels using it; none at 16 bpp. */
    const shapes: seq<seq<nat>>
    /** The picture: the 16-bit colour of every pixel, row by row. */
    ghost const colors: seq<u16>
    /** The palette index of every pixel. */
    ghost const indexes: seq<nat>

    var blendMode: u16
    /** Image x coordinate in stored form (see `StoredX`). */
    var imageX: SizeT
    var imageY: SizeT
    /** Palette x coordinate in stored form. */
    var clutX: SizeT
    var clutY: SizeT

    /** The colour depth chosen for the palette size. */
    function Depth(): Bpp {
      GetBpp(|clut|)
    }

    /**
     * How the texture's parts follow from its picture: the palette and the
     * indices are the first-occurrence table and numbering of the colours;
     * a paletted image is the indices packed row by row and its shapes are
     * the colour classes; a direct-colour image is the palette itself.
     */
    ghost predicate Valid() {
      && (width == 0 <==> height == 0)
      && |colors| == width * height
      && clut == Distinct(colors)
      && indexes == Numbering(colors)
      && (Depth() == Bpp16 ==> image == clut && shapes == [])
      && (Depth() != Bpp16 ==>
            && AsNat(image) == Packed(indexes, width, IndexesPerWord(Depth()))
            && shapes == Shapes(indexes, |clut|))
    }

    /**
     * CreateTexture on a decoded picture of `width` by `height` pixels with
     * `channels` bytes each: build the palette, pack or copy the image and
     * collect the shapes.  The new texture carries `blendMode` and has all
     * its coordinates cleared.
     */
    constructor (width: nat, height: nat, channels: nat, pixels: seq<u8>, blendMode: u16)
      requires width == 0 <==> height == 0
      requires HoldsPixels(pixels, channels, width * height)
      ensures Valid()
      ensures this.width == width && this.height == height
      ensures colors == Colors(pixels, channels, width * height)
      ensures this.blendMode == blendMode
      ensures imageX == 0 && imageY == 0 && clutX == 0 && clutY == 0
    {
      ghost var cs := Colors(pixels, channels, width * height);
      var c, idx := BuildPalette(pixels, channels, width * height);
      var bpp := GetBpp(|c|);
      var img: seq<u16>;
      if bpp == Bpp4 {
        NumberingFits(cs);
        img := ConvertPixels(idx, width, 4);
      } else if bpp == Bpp8 {
        NumberingFits(cs);
        img := ConvertPixels(idx, width, 2);
      } else {
        img := DirectImageAsWritten(c, idx);
      }
      var shp := FillShapes(idx, |c|);
      this.width := width;
      this.height := height;
      clut := c;
      image := img;
      shapes := shp;
      colors := cs;
      indexes := idx;
      this.blendMode := blendMode;
      imageX, imageY, clutX, clutY := 0, 0, 0, 0;
    }

    /** Empty: a texture without columns. */
    predicate Empty() {
      width == 0
    }

    /**
     * GetVRAMWidth: the width of the image's VRAM rectangle in words, the
     * pixel width divided by the indices per word and rounded down.
     */
    function VramWords(): (w: nat)
      ensures Depth() == Bpp16 ==> w == width
      ensures Depth() != Bpp16 ==> w * IndexesPerWord(Depth()) <= width < (w + 1) * IndexesPerWord(Depth())
    {
      VramWidthAsWritten(width, Depth())
    }

    /** The image fits the `VramWords()` by `height` rectangle the packer reserves for it. */
    predicate RowsFit() {
      |image| <= VramWords() * height
    }

    /**
     * The image's size: a paletted image has `height` rows of ceil(width /
     * ipp) words; a direct-colour image has one word per palette entry, at
     * most one per pixel.
     */
    lemma ImageFillsRect()
      requires Valid() && !Empty()
      ensures Depth() != Bpp16 ==> |image| == VramWidth(width, Depth()) * height
      ensures Depth() == Bpp16 ==> |image| <= VramWords() * height
    {
      assert width > 0 && height > 0;
      if Depth() != Bpp16 {
        var ipp := IndexesPerWord(Depth());
        assert |image| == |AsNat(image)|;
        PackedRowsLength(indexes, width, height, ipp);
        RowWords(width, Depth());
        MulComm(height, VramWidth(width, Depth()));
      }
    }

    /**
     * The image fits its rectangle exactly when the texture is direct-colour
     * or its width is a whole number of words; otherwise BufferToVRM folds
     * its rows at the narrower width and writes below the rectangle.
     */
    lemma RowsFitIff()
      requires Valid() && !Empty()
      ensures RowsFit() <==> Depth() == Bpp16 || width % IndexesPerWord(Depth()) == 0
    {
      ImageFillsRect();
      if Depth() != Bpp16 {
        var ceil, floor := VramWidth(width, Depth()), VramWidthAsWritten(width, Depth());
        CeilFloor(width, Depth());
        if floor < ceil {
          MulLess(floor, ceil, height);
        }
      }
    }

    /** A texture with pixels has a palette entry, a row and an image word; its rectangle has a column if the image fits it. */
    lemma NonEmptyExtent()
      requires Valid() && !Empty()
      ensures |clut| >= 1 && height >= 1 && |image| >= 1
      ensures RowsFit() ==> VramWords() >= 1
    {
      assert |colors| >= 1 by {
        MulPositive(width, height);
      }
      DistinctMembers(colors, colors[0]);
      ImageFillsRect();
      if Depth() != Bpp16 {
        assert VramWidth(width, Depth()) >= 1;
        MulPositive(VramWidth(width, Depth()), height);
      }
      if VramWords() == 0 {
        assert VramWords() * height == 0;
      }
    }

    function GetImageX(): SizeT
      reads this
    {
      LoadedX(imageX)
    }

    function GetClutX(): SizeT
      reads this
    {
      LoadedX(clutX)
    }

    /** SetImageCoords: the getters return `x` and `y` afterwards. */
    method SetImageCoords(x: SizeT, y: SizeT)
      modifies this
      ensures imageX == StoredX(x) && imageY == y
      ensures GetImageX() == x
      ensures clutX == old(clutX) && clutY == old(clutY) && blendMode == old(blendMode)
    {
      imageX := StoredX(x);
      imageY := y;
      StoredLoaded(x);
    }

    /** SetCLUTCoords: the getters return `x` and `y` afterwards. */
    method SetClutCoords(x: SizeT, y: SizeT)
      modifies this
      ensures clutX == StoredX(x) && clutY == y
      ensures GetClutX() == x
      ensures imageX == old(imageX) && imageY == old(imageY) && blendMode == old(blendMode)
    {
      clutX := StoredX(x);
      clutY := y;
      StoredLoaded(x);
    }

    /** SetBlendMode: the mode truncated to 16 bits. */
    method SetBlendMode(mode: SizeT)
      modifies this
      ensures blendMode as int == mode % 0x1_0000
      ensures imageX == old(imageX) && imageY == old(imageY) && clutX == old(clutX) && clutY == old(clutY)
    {
      blendMode := (mode % 0x1_0000) as u16;
    }

    /**
     * CopyVRAMAttributes: take over the image and palette coordinates of
     * `tex` (which may be this texture itself).
     */
    method CopyVramAttributes(tex: Texture)
      modifies this
      ensures imageX == old(tex.imageX) && imageY == old(tex.imageY)
      ensures clutX == old(tex.clutX) && clutY == old(tex.clutY)
      ensures blendMode == old(blendMode)
    {
      var ix, iy, cx, cy := tex.GetImageX(), tex.imageY, tex.GetClutX(), tex.clutY;
      LoadedStored(tex.imageX);
      LoadedStored(tex.clutX);
      SetImageCoords(ix, iy);
      SetClutCoords(cx, cy);
    }

    /** operator==: same size, depth, palette and image words. */
    predicate Equals(tex: Texture) {
      && width == tex.width && height == tex.height
      && Depth() == tex.Depth()
      && clut == tex.clut && image == tex.image
    }

    /**
     * CompareEquivalency: paletted, same size and depth, and for each colour
     * class of this texture, the first class of `tex` holding its smallest
     * position lies within it.
     */
    method CompareEquivalency(tex: Texture) returns (equivalent: bool)
      requires Valid() && tex.Valid()
      ensures equivalent <==> EquivalentAsWritten(width, height, |clut|, shapes, tex.width, tex.height, |tex.clut|, tex.shapes)
    {
      var bpp := Depth();
      if bpp == Bpp16 || width != tex.width || height != tex.height || bpp != tex.Depth() {
        return false;
      }
      var mine, theirs := shapes, tex.shapes;
      forall c | 0 <= c < |mine|
        ensures mine[c] != []
      {
        PaletteEntriesUsed(colors, c);
      }
      var k := 0;
      while k < |mine|
        invariant k <= |mine|
        invariant forall m :: 0 <= m < k ==> ShapeMatched(mine[m], theirs, false)
      {
        var matched := MatchShape(mine[k], theirs);
        if !matched {
          assert !ShapesMatch(mine, theirs, false);
          return false;
        }
        k := k + 1;
      }
      assert ShapesMatch(mine, theirs, false);
      return true;
    }
  }

  /** The CompareEquivalency relation between two textures. */
  predicate TexturesEquivalentAsWritten(a: Texture, b: Texture) {
    EquivalentAsWritten(a.width, a.height, |a.clut|, a.shapes, b.width, b.height, |b.clut|, b.shapes)
  }

  /** The intended CompareEquivalency relation, with the inclusion checked both ways. */
  predicate TexturesEquivalent(a: Texture, b: Texture) {
    Equivalent(a.width, a.height, |a.clut|, a.shapes, b.width, b.height, |b.clut|, b.shapes)
  }

  /** Whether every member of `b` is a member of `a`. */
  method Contained(b: seq<nat>, a: seq<nat>) returns (ok: bool)
    ensures ok <==> Within(b, a)
  {
    var l := 0;
    while l < |b|
      invariant l <= |b|
      invariant forall m :: 0 <= m < l ==> b[m] in a
    {
      if b[l] !in a {
        return false;
      }
      l := l + 1;
    }
    return true;
  }

  /**
   * The inner loop of CompareEquivalency for one shape `a`: find the first
   * shape of `bs` holding a's smallest position and check that it lies
   * within `a`.
   */
  method MatchShape(a: seq<nat>, bs: seq<seq<nat>>) returns (matched: bool)
    requires a != []
    ensures matched <==> ShapeMatched(a, bs, false)
  {
    var idx := a[0];
    var l := 0;
    while l < |bs|
      invariant l <= |bs|
      invariant forall m :: 0 <= m < l ==> idx !in bs[m]
    {
      if idx in bs[l] {
        assert FirstContaining(bs, idx).value == l;
        matched := Contained(bs[l], a);
        return;
      }
      l := l + 1;
    }
    return false;
  }

  /**
   * Two valid textures the corrected CompareEquivalency accepts have the
   * same image words: letting the second reuse the first's image in VRAM
   * shows the second's pixels through the second's own palette.
   */
  lemma EquivalentSameImage(a: Texture, b: Texture)
    requires a.Valid() && b.Valid()
    requires TexturesEquivalent(a, b)
    ensures a.width == b.width && a.height == b.height && a.Depth() == b.Depth()
    ensures a.indexes == b.indexes
    ensures a.image == b.image
  {
    MatchSamePattern(a.indexes, |a.clut|, b.indexes, |b.clut|);
    PatternNumbering(a.indexes, b.indexes);
    NumberingNumbering(a.colors);
    NumberingNumbering(b.colors);
    AsNatInjective(a.image, b.image);
  }

  /**
   * A texture that reuses the place of a texture CompareEquivalency accepts
   * gets a rectangle of its own shape: the two have the same row width in
   * words, the same height and images of the same length.
   */
  lemma EquivalentAsWrittenSameRect(a: Texture, b: Texture)
    requires a.Valid() && b.Valid() && !a.Empty()
    requires TexturesEquivalentAsWritten(a, b)
    ensures a.VramWords() == b.VramWords() && a.height == b.height
    ensures |a.image| == |b.image| && (a.RowsFit() <==> b.RowsFit())
  {
    a.ImageFillsRect();
    b.ImageFillsRect();
  }

  /** Two valid textures of one size showing the same picture compare equal. */
  lemma SamePictureEquals(a: Texture, b: Texture)
    requires a.Valid() && b.Valid()
    requires a.width == b.width && a.height == b.height && a.colors == b.colors
    ensures a.Equals(b)
  {
    if a.Depth() != Bpp16 {
      AsNatInjective(a.image, b.image);
    }
  }

  /**
   * GetVRAMWidth rounds down, but every image row starts a fresh word: a
   * 4 bpp texture 6 pixels wide has two words per row and is given one.
   */
  lemma VramWidthAsWrittenShort()
    ensures VramWidthAsWritten(6, Bpp4) == 1
    ensures VramWidth(6, Bpp4) == 2
    ensures |Packed([0, 0, 0, 0, 0, 0], 6, 4)| == 2
  {
    ChunksLength([0, 0, 0, 0, 0, 0], 4);
  }
}
