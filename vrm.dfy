// PackVRM: placing every texture's image and palette in the VRAM grid and
// serialising the grid as the level's .vrm file.
//
// The file holds two TIM images of the grid: the 384 x 256 block left of
// the reserved pages, then the full-width 512 x 256 block below it.

module Vrm {
  import opened Pixels
  import opened Textures
  import opened Vram

  // ---------------------------------------------------------------------
  // What the packer guarantees about one buffer
  // ---------------------------------------------------------------------

  /** `buffer` sits `w` words per row at (x, y) under the placement rules, and its cells are marked. */
  ghost predicate Stored(grid: seq<u16>, used: seq<bool>, buffer: seq<u16>, x: nat, y: nat, w: nat, h: nat, clut: bool) {
    && PageRules(x, y, w, h, clut)
    && |buffer| <= w * h
    && Placed(grid, buffer, x, y, w)
    && Marked(used, x, y, w, |buffer|)
  }

  /** The VRAM coordinates of a texture's image and palette, in stored form. */
  datatype VramPlace = VramPlace(imageX: SizeT, imageY: SizeT, clutX: SizeT, clutY: SizeT)

  /** The coordinates `t` holds. */
  function PlaceOf(t: Texture): VramPlace
    reads t
  {
    VramPlace(t.imageX, t.imageY, t.clutX, t.clutY)
  }

  /** The image of `t` is stored at the image coordinates of `p`. */
  ghost predicate ImageAt(grid: seq<u16>, used: seq<bool>, t: Texture, p: VramPlace) {
    Stored(grid, used, t.image, LoadedX(p.imageX), p.imageY, t.VramWords(), t.height, false)
  }

  /** The palette of `t` is stored, as one row on a 16-word column, at the palette coordinates of `p`. */
  ghost predicate ClutAt(grid: seq<u16>, used: seq<bool>, t: Texture, p: VramPlace) {
    LoadedX(p.clutX) % ClutStep == 0 && Stored(grid, used, t.clut, LoadedX(p.clutX), p.clutY, |t.clut|, 1, true)
  }

  /** Every cell inside a free rectangle is free. */
  lemma FreeInRect(used: seq<bool>, x: nat, y: nat, w: nat, h: nat, px: nat, py: nat)
    requires RectFree(used, x, y, w, h) && InRect(px, py, x, y, w, h)
    ensures Loc(px, py) < |used| && !used[Loc(px, py)]
  {
    assert Cell(x, y, px - x, py - y) == Loc(px, py);
  }

  /** Copying into a free rectangle leaves every stored buffer stored. */
  lemma KeepStored(g0: seq<u16>, g1: seq<u16>, u0: seq<bool>, u1: seq<bool>, buffer: seq<u16>,
                   x': nat, y': nat, w': nat, h': nat, clut': bool, x: nat, y: nat, w: nat, h: nat)
    requires Stored(g0, u0, buffer, x', y', w', h', clut')
    requires RectFree(u0, x, y, w, h)
    requires Untouched(g0, g1, u0, u1, x, y, w, h)
    ensures Stored(g1, u1, buffer, x', y', w', h', clut')
  {
    forall r: nat, c: nat | c < w' && Index(w', r, c) < |buffer|
      ensures Cell(x', y', c, r) < |g1| && g1[Cell(x', y', c, r)] == buffer[Index(w', r, c)]
      ensures Cell(x', y', c, r) < |u1| && u1[Cell(x', y', c, r)]
    {
      RowBelow(r, c, w', h');
      if InRect(x' + c, y' + r, x, y, w, h) {
        FreeInRect(u0, x, y, w, h, x' + c, y' + r);
        assert false;
      }
    }
  }

  /**
   * The search of PackVRM's first loop: the first cached texture
   * CompareEquivalency accepts.
   */
  method FindEquivalent(t: Texture, cached: seq<Texture>) returns (found: bool, k: nat)
    requires t.Valid() && forall c :: c in cached ==> c.Valid()
    ensures found ==> k < |cached| && TexturesEquivalentAsWritten(t, cached[k])
    ensures found ==> forall m :: 0 <= m < k ==> !TexturesEquivalentAsWritten(t, cached[m])
    ensures !found ==> forall m :: 0 <= m < |cached| ==> !TexturesEquivalentAsWritten(t, cached[m])
  {
    k := 0;
    while k < |cached|
      invariant k <= |cached|
      invariant forall m :: 0 <= m < k ==> !TexturesEquivalentAsWritten(t, cached[m])
    {
      var equivalent := t.CompareEquivalency(cached[k]);
      if equivalent {
        return true, k;
      }
      k := k + 1;
    }
    return false, 0;
  }

  // ---------------------------------------------------------------------
  // The .vrm file
  // ---------------------------------------------------------------------

  /** Bytes of one texture page: 64 x 256 words of two bytes. */
  const TexpageBytes: nat := TexpageWidth * TexpageHeight * 2
  /** The first TIM block: the six pages left of the reserved ones. */
  const Buffer1Bytes: nat := TexpageBytes * 6
  /** The second TIM block: the eight pages of the lower half. */
  const Buffer2Bytes: nat := TexpageBytes * 8
  const VrmMagic: nat := 0x20
  const TimMagic: nat := 0x10
  const TimFlags: nat := 0x2
  /** Size of the file buffer the packer allocates. */
  const VrmSize: nat := 0x7_0038
  const HeaderBytes: nat := 24
  const TopCols: nat := TexpageWidth * 6

  /** Little-endian bytes of a 16-bit value. */
  function U16Bytes(n: nat): (bs: seq<u8>)
    requires n < 0x1_0000
    ensures |bs| == 2
  {
    [(n % 0x100) as u8, (n / 0x100) as u8]
  }

  /** Little-endian bytes of a 32-bit value. */
  function U32Bytes(n: nat): (bs: seq<u8>)
    requires n < 0x1_0000_0000
    ensures |bs| == 4
  {
    [(n % 0x100) as u8, (n / 0x100 % 0x100) as u8, (n / 0x1_0000 % 0x100) as u8, (n / 0x100_0000) as u8]
  }

  /**
   * A VRMHeader: the block size, the TIM magic and flags, the image block
   * length, then the destination rectangle in VRAM.
   */
  function Header(bufferBytes: nat, x: nat, y: nat, w: nat, h: nat): (bs: seq<u8>)
    requires bufferBytes + 0x14 < 0x1_0000_0000 && x < 0x1_0000 && y < 0x1_0000 && w < 0x1_0000 && h < 0x1_0000
    ensures |bs| == HeaderBytes
  {
    U32Bytes(bufferBytes + 0x14) + U32Bytes(TimMagic) + U32Bytes(TimFlags) + U32Bytes(bufferBytes + 0xC)
    + U16Bytes(x) + U16Bytes(y) + U16Bytes(w) + U16Bytes(h)
  }

  /** Words as little-endian bytes, as memcpy lays them out. */
  function WordBytes(ws: seq<u16>): (bs: seq<u8>)
    ensures |bs| == 2 * |ws|
  {
    seq(2 * |ws|, i requires 0 <= i < 2 * |ws| =>
      if i % 2 == 0 then (ws[i / 2] as int % 0x100) as u8 else (ws[i / 2] as int / 0x100) as u8)
  }

  /** The first block: columns 0 to 383 of rows 0 to 255, row by row. */
  function TopBlock(grid: seq<u16>): (ws: seq<u16>)
    requires |grid| == VramCells
    ensures |ws| == TopCols * TexpageHeight
  {
    seq(TopCols * TexpageHeight, i requires 0 <= i < TopCols * TexpageHeight => grid[Loc(i % TopCols, i / TopCols)])
  }

  /** The second block: rows 256 to 511, all columns. */
  function BottomBlock(grid: seq<u16>): (ws: seq<u16>)
    requires |grid| == VramCells
    ensures |ws| == VramCols * TexpageHeight
  {
    grid[Loc(0, TexpageHeight)..]
  }

  /**
   * The .vrm file: the magic word, the first header and block, the second
   * header and block, and the four zero bytes left over at the end of the
   * buffer.
   */
  function VrmFile(grid: seq<u16>): (file: seq<u8>)
    requires |grid| == VramCells
  {
    U32Bytes(VrmMagic)
    + Header(Buffer1Bytes, VramCols, 0, TopCols, TexpageHeight)
    + WordBytes(TopBlock(grid))
    + Header(Buffer2Bytes, VramCols, TexpageHeight, VramCols, TexpageHeight)
    + WordBytes(BottomBlock(grid))
    + [0, 0, 0, 0]
  }

  /** Where the first block starts in the file, and where the second one does. */
  const TopStart: nat := 4 + HeaderBytes
  const BottomStart: nat := TopStart + Buffer1Bytes + HeaderBytes

  /** Byte offset of grid cell (px, py) in the file, for the cells the file holds. */
  function FileOffset(px: nat, py: nat): nat
    requires (px < TopCols && py < TexpageHeight) || (px < VramCols && TexpageHeight <= py < VramRows)
  {
    if py < TexpageHeight then TopStart + 2 * (py * TopCols + px)
    else BottomStart + 2 * ((py - TexpageHeight) * VramCols + px)
  }

  /** The file is the size of the buffer the packer allocates. */
  lemma VrmFileSize(grid: seq<u16>)
    requires |grid| == VramCells
    ensures |VrmFile(grid)| == VrmSize
  {
  }

  /** The file holds word `v` at byte offset `o`, low byte first. */
  predicate WordAt(file: seq<u8>, o: nat, v: u16) {
    o + 1 < |file| && file[o] as int == v as int % 0x100 && file[o + 1] as int == v as int / 0x100
  }

  /** Each word is two bytes of the word list, low byte first. */
  lemma WordBytesAt(ws: seq<u16>, i: nat)
    requires i < |ws|
    ensures 2 * i + 1 < |WordBytes(ws)|
    ensures WordBytes(ws)[2 * i] as int == ws[i] as int % 0x100
    ensures WordBytes(ws)[2 * i + 1] as int == ws[i] as int / 0x100
  {
    assert (2 * i) / 2 == i && (2 * i) % 2 == 0;
    assert (2 * i + 1) / 2 == i && (2 * i + 1) % 2 == 1;
  }

  /** A row-major position of a block `cols` wide lies inside a block of `rows` rows. */
  lemma RowMajorBound(cols: nat, rows: nat, px: nat, py: nat)
    requires px < cols && py < rows
    ensures py * cols + px < cols * rows
  {
    assert py * cols + px < (py + 1) * cols;
    assert (py + 1) * cols <= rows * cols;
  }

  /** Position i of the upper-left block is column i % 384 of row i / 384. */
  lemma TopRowMajor(px: nat, py: nat)
    requires px < TopCols && py < TexpageHeight
    ensures (py * TopCols + px) % TopCols == px && (py * TopCols + px) / TopCols == py
  {
  }

  /** A cell of the upper-left block, in the file. */
  lemma TopCell(grid: seq<u16>, px: nat, py: nat)
    requires |grid| == VramCells && px < TopCols && py < TexpageHeight
    ensures WordAt(VrmFile(grid), TopStart + 2 * (py * TopCols + px), grid[Loc(px, py)])
  {
    var head := U32Bytes(VrmMagic) + Header(Buffer1Bytes, VramCols, 0, TopCols, TexpageHeight);
    var top := WordBytes(TopBlock(grid));
    var rest := Header(Buffer2Bytes, VramCols, TexpageHeight, VramCols, TexpageHeight) + WordBytes(BottomBlock(grid)) + [0, 0, 0, 0];
    assert VrmFile(grid) == head + top + rest;
    var i := py * TopCols + px;
    RowMajorBound(TopCols, TexpageHeight, px, py);
    TopRowMajor(px, py);
    assert TopBlock(grid)[i] == grid[Loc(px, py)];
    WordBytesAt(TopBlock(grid), i);
  }

  /** A cell of the lower half, in the file. */
  lemma BottomCell(grid: seq<u16>, px: nat, py: nat)
    requires |grid| == VramCells && px < VramCols && TexpageHeight <= py < VramRows
    ensures WordAt(VrmFile(grid), BottomStart + 2 * ((py - TexpageHeight) * VramCols + px), grid[Loc(px, py)])
  {
    var head := U32Bytes(VrmMagic) + Header(Buffer1Bytes, VramCols, 0, TopCols, TexpageHeight)
      + WordBytes(TopBlock(grid)) + Header(Buffer2Bytes, VramCols, TexpageHeight, VramCols, TexpageHeight);
    var bottom := WordBytes(BottomBlock(grid));
    assert VrmFile(grid) == head + bottom + [0, 0, 0, 0];
    var i := (py - TexpageHeight) * VramCols + px;
    RowMajorBound(VramCols, TexpageHeight, px, py - TexpageHeight);
    assert Loc(0, TexpageHeight) + i == Loc(px, py);
    WordBytesAt(BottomBlock(grid), i);
  }

  /** Every cell of the grid's two blocks is in the file, low byte first, at its offset. */
  lemma VrmFileCell(grid: seq<u16>, px: nat, py: nat)
    requires |grid| == VramCells
    requires (px < TopCols && py < TexpageHeight) || (px < VramCols && TexpageHeight <= py < VramRows)
    ensures WordAt(VrmFile(grid), FileOffset(px, py), grid[Loc(px, py)])
  {
    if py < TexpageHeight {
      TopCell(grid, px, py);
    } else {
      BottomCell(grid, px, py);
    }
  }

  /** Cells the file holds: the upper-left block and the whole lower half. */
  predicate InFile(px: nat, py: nat) {
    (px < TopCols && py < TexpageHeight) || (px < VramCols && TexpageHeight <= py < VramRows)
  }

  /** Page numbers are column page plus eight times row page, with fewer than eight column pages. */
  lemma PageParts(x: nat, y: nat, x': nat, y': nat)
    requires x < VramCols && x' < VramCols && TexPage(x, y) == TexPage(x', y')
    ensures x / TexpageWidth == x' / TexpageWidth && y / TexpageHeight == y' / TexpageHeight
  {
  }

  /**
   * Every cell of a rectangle the placement rules accept is one the file
   * holds: an image stays inside one page that is not 6 or 7, and a palette
   * is a single row whose first and last pages are not 6 or 7.
   */
  lemma {:induction false} PlacedInFile(x: nat, y: nat, w: nat, h: nat, clut: bool, c: nat, r: nat)
    requires PageRules(x, y, w, h, clut) && (clut ==> h == 1)
    requires c < w && r < h
    ensures InFile(x + c, y + r)
  {
    assert LastOf(x, w) == x + w - 1 && LastOf(y, h) == y + h - 1;
    if !clut {
      PageParts(x, y, x + w - 1, y + h - 1);
      if y < TexpageHeight {
        assert x / TexpageWidth <= 5;
      }
    } else if y < TexpageHeight {
      assert (x + w - 1) / TexpageWidth <= 5;
    }
  }

  // ---------------------------------------------------------------------
  // PackVRM
  // ---------------------------------------------------------------------

  /** `places` holds the coordinates of every texture of `ts`. */
  ghost predicate PlacesOf(ts: seq<Texture>, places: map<Texture, VramPlace>)
    reads set t | t in ts
  {
    forall t :: t in ts ==> t in places && places[t] == PlaceOf(t)
  }

  /** Every non-empty texture of `ts` has its image stored at its place in `places`. */
  ghost predicate ImagesAt(grid: seq<u16>, used: seq<bool>, ts: seq<Texture>, places: map<Texture, VramPlace>) {
    forall s :: s in ts && !s.Empty() ==> s in places && ImageAt(grid, used, s, places[s])
  }

  /** Every non-empty paletted texture of `ts` has its palette stored at its place in `places`. */
  ghost predicate ClutsAt(grid: seq<u16>, used: seq<bool>, ts: seq<Texture>, places: map<Texture, VramPlace>) {
    forall s :: s in ts && !s.Empty() && s.Depth() != Bpp16 ==> s in places && ClutAt(grid, used, s, places[s])
  }

  /**
   * At its place in `places`, `t` shows the image of a texture of `pool`
   * whose image is stored: that texture has the same image coordinates,
   * and is `t` or one CompareEquivalency accepted for it.
   */
  ghost predicate ImageShown(grid: seq<u16>, used: seq<bool>, t: Texture, pool: seq<Texture>, places: map<Texture, VramPlace>) {
    && t in places
    && exists c :: (c in pool && c in places && !c.Empty() && (c == t || TexturesEquivalentAsWritten(t, c))
      && places[t].imageX == places[c].imageX && places[t].imageY == places[c].imageY
      && ImageAt(grid, used, c, places[c]))
  }

  /** Every non-empty texture of `ts` shows the stored image of a texture of `pool`. */
  ghost predicate ImagesShown(grid: seq<u16>, used: seq<bool>, ts: seq<Texture>, pool: seq<Texture>,
                              places: map<Texture, VramPlace>) {
    forall s :: s in ts && !s.Empty() ==> ImageShown(grid, used, s, pool, places)
  }

  /** Every image fits the rectangle the packer reserves for it (see `Texture.RowsFitIff`). */
  predicate AllFit(ts: seq<Texture>) {
    forall t :: t in ts && !t.Empty() ==> t.RowsFit()
  }

  /** No texture appears twice. */
  predicate Separate(ts: seq<Texture>) {
    forall i, j :: 0 <= i < j < |ts| ==> Apart(ts, i, j)
  }

  /** Positions `i` and `j` of `ts` hold different textures. */
  predicate Apart(ts: seq<Texture>, i: nat, j: nat)
    requires i < |ts| && j < |ts|
  {
    ts[i] != ts[j]
  }

  /** `places'` gives every texture of `ts` that `places` knows the same image coordinates. */
  ghost predicate SameImages(ts: seq<Texture>, places: map<Texture, VramPlace>, places': map<Texture, VramPlace>) {
    forall s :: s in ts && s in places ==>
      s in places' && places'[s].imageX == places[s].imageX && places'[s].imageY == places[s].imageY
  }

  /** Moving nothing of `ts` keeps its images where they were. */
  lemma ImagesMoved(grid: seq<u16>, used: seq<bool>, ts: seq<Texture>, places: map<Texture, VramPlace>,
                    places': map<Texture, VramPlace>)
    requires ImagesAt(grid, used, ts, places) && SameImages(ts, places, places')
    ensures ImagesAt(grid, used, ts, places')
  {
    forall s | s in ts && !s.Empty() ensures s in places' && ImageAt(grid, used, s, places'[s]) {
      assert ImageAt(grid, used, s, places[s]);
    }
  }

  /** Moving nothing of `ts` or `pool` keeps every shown image shown. */
  lemma ShownMoved(grid: seq<u16>, used: seq<bool>, ts: seq<Texture>, pool: seq<Texture>,
                   places: map<Texture, VramPlace>, places': map<Texture, VramPlace>)
    requires ImagesShown(grid, used, ts, pool, places)
    requires SameImages(ts, places, places') && SameImages(pool, places, places')
    ensures ImagesShown(grid, used, ts, pool, places')
  {
    forall s | s in ts && !s.Empty() ensures ImageShown(grid, used, s, pool, places') {
      var c :| c in pool && c in places && !c.Empty() && (c == s || TexturesEquivalentAsWritten(s, c))
        && places[s].imageX == places[c].imageX && places[s].imageY == places[c].imageY
        && ImageAt(grid, used, c, places[c]);
      assert ImageAt(grid, used, c, places'[c]);
    }
  }

  /** `places'` gives every texture of `ts` that `places` knows the same coordinates. */
  ghost predicate Agree(ts: seq<Texture>, places: map<Texture, VramPlace>, places': map<Texture, VramPlace>) {
    forall s :: s in ts && s in places ==> s in places' && places'[s] == places[s]
  }

  /** Moving nothing of `ts` keeps its palettes where they were. */
  lemma ClutsMoved(grid: seq<u16>, used: seq<bool>, ts: seq<Texture>, places: map<Texture, VramPlace>,
                   places': map<Texture, VramPlace>)
    requires ClutsAt(grid, used, ts, places) && Agree(ts, places, places')
    ensures ClutsAt(grid, used, ts, places')
  {
  }

  /** Copying into a free rectangle keeps every stored image stored. */
  lemma KeepImages(g0: seq<u16>, g1: seq<u16>, u0: seq<bool>, u1: seq<bool>, ts: seq<Texture>,
                   places: map<Texture, VramPlace>, x: nat, y: nat, w: nat, h: nat)
    requires ImagesAt(g0, u0, ts, places)
    requires RectFree(u0, x, y, w, h) && Untouched(g0, g1, u0, u1, x, y, w, h)
    ensures ImagesAt(g1, u1, ts, places)
  {
    forall s | s in ts && !s.Empty() ensures s in places && ImageAt(g1, u1, s, places[s]) {
      var p := places[s];
      KeepStored(g0, g1, u0, u1, s.image, LoadedX(p.imageX), p.imageY, s.VramWords(), s.height, false, x, y, w, h);
    }
  }

  /** Copying into a free rectangle keeps every shown image shown. */
  lemma KeepShown(g0: seq<u16>, g1: seq<u16>, u0: seq<bool>, u1: seq<bool>, ts: seq<Texture>, pool: seq<Texture>,
                  places: map<Texture, VramPlace>, x: nat, y: nat, w: nat, h: nat)
    requires ImagesShown(g0, u0, ts, pool, places)
    requires RectFree(u0, x, y, w, h) && Untouched(g0, g1, u0, u1, x, y, w, h)
    ensures ImagesShown(g1, u1, ts, pool, places)
  {
    forall s | s in ts && !s.Empty() ensures ImageShown(g1, u1, s, pool, places) {
      var c :| c in pool && c in places && !c.Empty() && (c == s || TexturesEquivalentAsWritten(s, c))
        && places[s].imageX == places[c].imageX && places[s].imageY == places[c].imageY
        && ImageAt(g0, u0, c, places[c]);
      var p := places[c];
      KeepStored(g0, g1, u0, u1, c.image, LoadedX(p.imageX), p.imageY, c.VramWords(), c.height, false, x, y, w, h);
    }
  }

  /**
   * Copying the palette of `t` into a free rectangle keeps every stored
   * palette stored, and adds the one of `t`, wherever `t` appears.
   */
  lemma KeepCluts(g0: seq<u16>, g1: seq<u16>, u0: seq<bool>, u1: seq<bool>, ts: seq<Texture>, t: Texture,
                  places: map<Texture, VramPlace>, places': map<Texture, VramPlace>, x: nat, y: nat, w: nat, h: nat)
    requires ClutsAt(g0, u0, ts, places)
    requires RectFree(u0, x, y, w, h) && Untouched(g0, g1, u0, u1, x, y, w, h)
    requires t in places' && ClutAt(g1, u1, t, places'[t])
    requires forall s :: s in places && s != t ==> s in places' && places'[s] == places[s]
    ensures ClutsAt(g1, u1, ts + [t], places')
  {
    forall s | s in ts + [t] && !s.Empty() && s.Depth() != Bpp16 ensures s in places' && ClutAt(g1, u1, s, places'[s]) {
      if s != t {
        var p := places[s];
        KeepStored(g0, g1, u0, u1, s.clut, LoadedX(p.clutX), p.clutY, |s.clut|, 1, true, x, y, w, h);
      }
    }
  }

  /** A texture without an image adds nothing to show. */
  lemma ShownSnocEmpty(grid: seq<u16>, used: seq<bool>, ts: seq<Texture>, t: Texture, pool: seq<Texture>,
                       places: map<Texture, VramPlace>)
    requires ImagesShown(grid, used, ts, pool, places) && t.Empty()
    ensures ImagesShown(grid, used, ts + [t], pool, places)
  {
    forall s | s in ts + [t] && !s.Empty() ensures ImageShown(grid, used, s, pool, places) {
      assert s in ts;
    }
  }

  /** A texture that shows an image joins the textures showing one. */
  lemma ShownSnoc(grid: seq<u16>, used: seq<bool>, ts: seq<Texture>, t: Texture, pool: seq<Texture>,
                  places: map<Texture, VramPlace>)
    requires ImagesShown(grid, used, ts, pool, places) && ImageShown(grid, used, t, pool, places)
    ensures ImagesShown(grid, used, ts + [t], pool, places)
  {
    forall s | s in ts + [t] && !s.Empty() ensures ImageShown(grid, used, s, pool, places) {
      if s != t {
        assert s in ts;
      }
    }
  }

  /** A pool holding every texture of a smaller pool shows whatever the smaller one shows. */
  lemma ShownInLargerPool(grid: seq<u16>, used: seq<bool>, ts: seq<Texture>, pool: seq<Texture>, pool': seq<Texture>,
                          places: map<Texture, VramPlace>)
    requires ImagesShown(grid, used, ts, pool, places) && forall c :: c in pool ==> c in pool'
    ensures ImagesShown(grid, used, ts, pool', places)
  {
    forall s | s in ts && !s.Empty() ensures ImageShown(grid, used, s, pool', places) {
      var c :| c in pool && c in places && !c.Empty() && (c == s || TexturesEquivalentAsWritten(s, c))
        && places[s].imageX == places[c].imageX && places[s].imageY == places[c].imageY
        && ImageAt(grid, used, c, places[c]);
    }
  }

  /** Texture `t` has an image, and no free rectangle of `used` takes it. */
  ghost predicate NoRoomForImage(used: seq<bool>, t: Texture) {
    !t.Empty() && NoneFits(used, t.VramWords(), t.height, false)
  }

  /** Texture `t` has a palette, and no free 16-aligned row of `used` takes it. */
  ghost predicate NoRoomForClut(used: seq<bool>, t: Texture) {
    !t.Empty() && t.Depth() != Bpp16 && NoneFits(used, |t.clut|, 1, true)
  }

  /**
   * One step of PackVRM's first loop, on a non-empty texture: reuse the
   * place of the first cached texture CompareEquivalency accepts, or copy
   * the image to the first free spot (BufferToVRM folds it at the row width
   * GetVRAMWidth gives) and cache the texture.  `ok` is false when there is
   * no room.  `places'` records the new coordinates of `t`.  When the image
   * fits its rectangle and `t` is new (`fits`), the cached images are
   * still stored, every image shown before is still shown, and `t` shows
   * its own image or the cached one it reuses.
   */
  method PlaceImage(t: Texture, vram: array<u16>, used: array<bool>, cached: seq<Texture>, ghost done: seq<Texture>,
                    ghost fits: bool, ghost places: map<Texture, VramPlace>)
    returns (ok: bool, placed: bool, ghost places': map<Texture, VramPlace>)
    requires vram.Length == VramCells && used.Length == VramCells
    requires t.Valid() && !t.Empty() && forall c :: c in cached ==> c.Valid() && !c.Empty()
    requires PlacesOf(cached, places)
    requires fits ==> t.RowsFit() && t !in cached && t !in done
    requires fits ==> ImagesAt(vram[..], used[..], cached, places) && ImagesShown(vram[..], used[..], done, cached, places)
    modifies t, vram, used
    ensures places' == places[t := PlaceOf(t)]
    ensures t.clutX == old(t.clutX) && t.clutY == old(t.clutY) && t.blendMode == old(t.blendMode)
    ensures placed ==> ok
    ensures ok && !placed ==>
      exists c :: c in cached && TexturesEquivalentAsWritten(t, c) && t.imageX == places[c].imageX && t.imageY == places[c].imageY
    ensures placed ==> FirstFit(old(used[..]), t.GetImageX(), t.imageY, t.VramWords(), t.height, false)
    ensures ok && fits ==> ImagesAt(vram[..], used[..], if placed then cached + [t] else cached, places')
    ensures ok && fits ==> ImagesShown(vram[..], used[..], done + [t], if placed then cached + [t] else cached, places')
    ensures !ok ==> !placed && used[..] == old(used[..])
    ensures !ok ==> (forall c :: c in cached ==> !TexturesEquivalentAsWritten(t, c)) && NoRoomForImage(used[..], t)
  {
    var found, k := FindEquivalent(t, cached);
    if found {
      var c := cached[k];
      var x, y := c.GetImageX(), c.imageY;
      LoadedStored(c.imageX);
      t.SetImageCoords(x, y);
      places' := places[t := PlaceOf(t)];
      if fits {
        ImagesMoved(vram[..], used[..], cached, places, places');
        ShownMoved(vram[..], used[..], done, cached, places, places');
        assert ImageAt(vram[..], used[..], c, places'[c]);
        assert ImageShown(vram[..], used[..], t, cached, places');
        ShownSnoc(vram[..], used[..], done, t, cached, places');
      }
      return true, false, places';
    }
    var w := t.VramWords();
    var x, y;
    ok, x, y := FindAvailableSpace(used, w, t.height, false);
    if !ok {
      return false, false, places[t := PlaceOf(t)];
    }
    placed := true;
    t.SetImageCoords(x, y);
    places' := places[t := PlaceOf(t)];
    ghost var g0, u0 := vram[..], used[..];
    BufferToVram(vram, used, t.image, x, y, w);
    if fits {
      t.NonEmptyExtent();
      WritesInRect(g0, vram[..], u0, used[..], t.image, x, y, w, t.height);
      ImagesMoved(g0, u0, cached, places, places');
      ShownMoved(g0, u0, done, cached, places, places');
      KeepImages(g0, vram[..], u0, used[..], cached, places', x, y, w, t.height);
      KeepShown(g0, vram[..], u0, used[..], done, cached, places', x, y, w, t.height);
      ShownInLargerPool(vram[..], used[..], done, cached, cached + [t], places');
      assert ImageAt(vram[..], used[..], t, places'[t]);
      assert ImageShown(vram[..], used[..], t, cached + [t], places');
      ShownSnoc(vram[..], used[..], done, t, cached + [t], places');
    }
  }

  /**
   * One step of PackVRM's second loop, on a non-empty paletted texture:
   * copy the palette to the first free 16-aligned spot.  `ok` is false
   * when there is no room.  `places'` records the new coordinates of `t`.
   * Every stored palette stays stored, the new one with them; with `fits`,
   * every shown image stays shown.
   */
  method PlaceClut(t: Texture, vram: array<u16>, used: array<bool>, ghost all: seq<Texture>, ghost done: seq<Texture>,
                   ghost fits: bool, ghost places: map<Texture, VramPlace>)
    returns (ok: bool, ghost places': map<Texture, VramPlace>)
    requires vram.Length == VramCells && used.Length == VramCells
    requires t.Valid() && !t.Empty() && t.Depth() != Bpp16
    requires t in places && places[t] == PlaceOf(t)
    requires ClutsAt(vram[..], used[..], done, places)
    requires fits ==> ImagesShown(vram[..], used[..], all, all, places)
    modifies t, vram, used
    ensures places' == places[t := PlaceOf(t)]
    ensures t.imageX == old(t.imageX) && t.imageY == old(t.imageY) && t.blendMode == old(t.blendMode)
    ensures ok ==> ClutsAt(vram[..], used[..], done + [t], places')
    ensures ok && fits ==> ImagesShown(vram[..], used[..], all, all, places')
    ensures ok ==> FirstFit(old(used[..]), t.GetClutX(), t.clutY, |t.clut|, 1, true)
    ensures !ok ==> used[..] == old(used[..]) && NoRoomForClut(used[..], t)
  {
    t.NonEmptyExtent();
    var n := |t.clut|;
    var x, y;
    ok, x, y := FindAvailableSpace(used, n, 1, true);
    if !ok {
      return false, places[t := PlaceOf(t)];
    }
    t.SetClutCoords(x, y);
    places' := places[t := PlaceOf(t)];
    ghost var g0, u0 := vram[..], used[..];
    BufferToVram(vram, used, t.clut, x, y, n);
    WritesInRect(g0, vram[..], u0, used[..], t.clut, x, y, n, 1);
    if fits {
      ShownMoved(g0, u0, all, all, places, places');
      KeepShown(g0, vram[..], u0, used[..], all, all, places', x, y, n, 1);
    }
    assert ClutAt(vram[..], used[..], t, places'[t]);
    KeepCluts(g0, vram[..], u0, used[..], done, t, places, places', x, y, n, 1);
  }

  /** The part of `Packing` that does not depend on the grid: what the cache holds. */
  ghost predicate Caching(textures: seq<Texture>, i: nat, cached: seq<Texture>, empty: bool, fits: bool) {
    && i <= |textures|
    && (cached != [] ==> !empty)
    && (empty <==> forall j :: 0 <= j < i ==> textures[j].Empty())
    && (forall c :: c in cached ==> c.Valid() && !c.Empty() && c in textures[..i])
    && (fits ==> AllFit(textures) && Separate(textures))
  }

  /**
   * PackVRM's first loop after the first `i` textures: `cached` holds those
   * whose images took new room, `empty` says that none had an image, and,
   * when every image fits and no texture appears twice (`fits`), the cached
   * images are stored at their places and each texture so far shows one of
   * them.
   */
  ghost predicate Packing(grid: seq<u16>, used: seq<bool>, textures: seq<Texture>, i: nat, cached: seq<Texture>,
                          empty: bool, fits: bool, places: map<Texture, VramPlace>) {
    && Caching(textures, i, cached, empty, fits)
    && (fits ==> ImagesAt(grid, used, cached, places) && ImagesShown(grid, used, textures[..i], cached, places))
  }

  /** Texture `i`, non-empty, joins the textures seen, and the cache when it took new room. */
  lemma CachingStep(textures: seq<Texture>, i: nat, cached: seq<Texture>, empty: bool, fits: bool, placed: bool)
    requires Caching(textures, i, cached, empty, fits) && i < |textures|
    requires textures[i].Valid() && !textures[i].Empty() && (placed || cached != [])
    ensures Caching(textures, i + 1, if placed then cached + [textures[i]] else cached, if placed then false else empty, fits)
  {
    assert textures[..i + 1] == textures[..i] + [textures[i]];
  }

  /** When no texture appears twice, texture `i` is none of the ones before it. */
  lemma SeparateBefore(ts: seq<Texture>, i: nat)
    requires Separate(ts) && i < |ts|
    ensures ts[i] !in ts[..i]
  {
    forall j | 0 <= j < i ensures ts[..i][j] != ts[i] {
      assert Apart(ts, j, i);
    }
  }

  /**
   * When every image fits and no texture appears twice, the image of
   * texture `i` fits, and the texture is neither seen nor cached yet.
   */
  lemma NotSeen(textures: seq<Texture>, i: nat, cached: seq<Texture>, empty: bool)
    requires Caching(textures, i, cached, empty, true) && i < |textures| && !textures[i].Empty()
    ensures textures[i].RowsFit() && textures[i] !in textures[..i] && textures[i] !in cached
  {
    assert textures[i] in textures;
    SeparateBefore(textures, i);
  }

  /** The cached textures are textures of the list, so `places` has their coordinates. */
  lemma CachedPlaces(textures: seq<Texture>, i: nat, cached: seq<Texture>, empty: bool, fits: bool,
                     places: map<Texture, VramPlace>)
    requires Caching(textures, i, cached, empty, fits) && PlacesOf(textures, places)
    ensures PlacesOf(cached, places)
  {
    forall c | c in cached ensures c in places && places[c] == PlaceOf(c) {
      assert c in textures[..i];
    }
  }

  /** Texture `i`, empty, joins the textures seen and leaves the cache as it was. */
  lemma CachingSkip(textures: seq<Texture>, i: nat, cached: seq<Texture>, empty: bool, fits: bool)
    requires Caching(textures, i, cached, empty, fits) && i < |textures| && textures[i].Empty()
    ensures Caching(textures, i + 1, cached, empty, fits)
  {
    assert textures[..i + 1] == textures[..i] + [textures[i]];
  }

  /**
   * One step of PackVRM's first loop, on texture `i`: a texture without an
   * image is skipped; any other is placed, and cached when it took new
   * room.  `places'` follows the coordinates.
   */
  method PlaceNext(textures: seq<Texture>, i: nat, vram: array<u16>, used: array<bool>, cached: seq<Texture>,
                   empty: bool, ghost fits: bool, ghost places: map<Texture, VramPlace>)
    returns (ok: bool, cached': seq<Texture>, empty': bool, ghost places': map<Texture, VramPlace>)
    requires vram.Length == VramCells && used.Length == VramCells
    requires i < |textures| && forall t :: t in textures ==> t.Valid()
    requires Packing(vram[..], used[..], textures, i, cached, empty, fits, places)
    requires PlacesOf(textures, places)
    modifies textures[i], vram, used
    ensures PlacesOf(textures, places')
    ensures ok ==> Packing(vram[..], used[..], textures, i + 1, cached', empty', fits, places')
    ensures !ok ==> (forall c :: c in cached ==> !TexturesEquivalentAsWritten(textures[i], c)) && NoRoomForImage(used[..], textures[i])
  {
    var t := textures[i];
    assert textures[..i + 1] == textures[..i] + [t];
    if t.Empty() {
      CachingSkip(textures, i, cached, empty, fits);
      if fits {
        ShownSnocEmpty(vram[..], used[..], textures[..i], t, cached, places);
      }
      return true, cached, empty, places;
    }
    if fits {
      NotSeen(textures, i, cached, empty);
    }
    CachedPlaces(textures, i, cached, empty, fits, places);
    var placed;
    ok, placed, places' := PlaceImage(t, vram, used, cached, textures[..i], fits, places);
    forall s | s in textures ensures s in places' && places'[s] == PlaceOf(s) {
      if s != t {
        assert old(PlaceOf(s)) == PlaceOf(s);
      }
    }
    if !ok {
      return false, cached, empty, places';
    }
    CachingStep(textures, i, cached, empty, fits, placed);
    if placed {
      cached', empty' := cached + [t], false;
    } else {
      cached', empty' := cached, empty;
    }
  }

  /**
   * PackVRM's first loop: the images of all non-empty textures.  `empty`
   * says that no texture had an image; `ok` is false when one found no room.
   * `places` holds the coordinates afterwards.  When every image fits its
   * rectangle and no texture appears twice, every non-empty texture shows
   * the stored image of one of them.
   */
  method PlaceImages(textures: seq<Texture>, vram: array<u16>, used: array<bool>)
    returns (ok: bool, empty: bool, ghost places: map<Texture, VramPlace>)
    requires vram.Length == VramCells && used.Length == VramCells
    requires forall t :: t in textures ==> t.Valid()
    modifies (set t | t in textures), vram, used
    ensures PlacesOf(textures, places)
    ensures ok ==> (empty <==> forall t :: t in textures ==> t.Empty())
    ensures ok && AllFit(textures) && Separate(textures) ==> ImagesShown(vram[..], used[..], textures, textures, places)
    ensures !ok ==> exists t :: t in textures && NoRoomForImage(used[..], t)
  {
    ghost var fits := AllFit(textures) && Separate(textures);
    empty := true;
    var cached: seq<Texture> := [];
    places := map t | t in textures :: PlaceOf(t);
    var i := 0;
    while i < |textures|
      invariant PlacesOf(textures, places)
      invariant Packing(vram[..], used[..], textures, i, cached, empty, fits, places)
    {
      ok, cached, empty, places := PlaceNext(textures, i, vram, used, cached, empty, fits, places);
      if !ok {
        assert textures[i] in textures;
        return;
      }
      i := i + 1;
    }
    PackingDone(vram[..], used[..], textures, cached, empty, fits, places);
    ok := true;
  }

  /** After the whole list, `empty` says that every texture is empty, and every texture shows an image of the list. */
  lemma PackingDone(grid: seq<u16>, used: seq<bool>, textures: seq<Texture>, cached: seq<Texture>, empty: bool,
                    fits: bool, places: map<Texture, VramPlace>)
    requires Packing(grid, used, textures, |textures|, cached, empty, fits, places)
    ensures empty <==> forall t :: t in textures ==> t.Empty()
    ensures fits ==> ImagesShown(grid, used, textures, textures, places)
  {
    assert textures[..|textures|] == textures;
    if fits {
      ShownInLargerPool(grid, used, textures, cached, textures, places);
    }
  }

  /**
   * PackVRM's second loop after the first `i` textures: their palettes are
   * stored, the shown images still shown, and the textures without a
   * palette keep their places.
   */
  ghost predicate Paletting(grid: seq<u16>, used: seq<bool>, textures: seq<Texture>, i: nat, fits: bool,
                            places0: map<Texture, VramPlace>, places: map<Texture, VramPlace>) {
    && i <= |textures|
    && ClutsAt(grid, used, textures[..i], places)
    && (fits ==> ImagesShown(grid, used, textures, textures, places))
    && (forall t :: t in textures && (t.Empty() || t.Depth() == Bpp16) && t in places0 ==> t in places && places[t] == places0[t])
  }

  /** Texture `i`, without a palette, joins the textures done. */
  lemma PalettingSkip(grid: seq<u16>, used: seq<bool>, textures: seq<Texture>, i: nat, fits: bool,
                      places0: map<Texture, VramPlace>, places: map<Texture, VramPlace>)
    requires Paletting(grid, used, textures, i, fits, places0, places) && i < |textures|
    requires textures[i].Empty() || textures[i].Depth() == Bpp16
    ensures Paletting(grid, used, textures, i + 1, fits, places0, places)
  {
    assert textures[..i + 1] == textures[..i] + [textures[i]];
  }

  /** Texture `i`, its palette placed, joins the textures done. */
  lemma PalettingStep(g0: seq<u16>, u0: seq<bool>, g1: seq<u16>, u1: seq<bool>, textures: seq<Texture>, i: nat,
                      fits: bool, places0: map<Texture, VramPlace>, places: map<Texture, VramPlace>, p: VramPlace)
    requires Paletting(g0, u0, textures, i, fits, places0, places) && i < |textures|
    requires !textures[i].Empty() && textures[i].Depth() != Bpp16
    requires ClutsAt(g1, u1, textures[..i] + [textures[i]], places[textures[i] := p])
    requires fits ==> ImagesShown(g1, u1, textures, textures, places[textures[i] := p])
    ensures Paletting(g1, u1, textures, i + 1, fits, places0, places[textures[i] := p])
  {
    assert textures[..i + 1] == textures[..i] + [textures[i]];
  }

  /**
   * One step of PackVRM's second loop, on texture `i`: a texture without a
   * palette is skipped; any other has its palette placed.  `places'`
   * follows the coordinates.
   */
  method PaletteNext(textures: seq<Texture>, i: nat, vram: array<u16>, used: array<bool>, ghost fits: bool,
                     ghost places0: map<Texture, VramPlace>, ghost places: map<Texture, VramPlace>)
    returns (ok: bool, ghost places': map<Texture, VramPlace>)
    requires vram.Length == VramCells && used.Length == VramCells
    requires i < |textures| && forall t :: t in textures ==> t.Valid()
    requires Paletting(vram[..], used[..], textures, i, fits, places0, places)
    requires PlacesOf(textures, places)
    modifies textures[i], vram, used
    ensures PlacesOf(textures, places')
    ensures forall t :: t in textures && (t.Empty() || t.Depth() == Bpp16) && t in places ==> t in places' && places'[t] == places[t]
    ensures ok ==> Paletting(vram[..], used[..], textures, i + 1, fits, places0, places')
    ensures !ok ==> NoRoomForClut(used[..], textures[i])
  {
    var t := textures[i];
    if t.Empty() || t.Depth() == Bpp16 {
      PalettingSkip(vram[..], used[..], textures, i, fits, places0, places);
      return true, places;
    }
    assert t in textures;
    ghost var g0, u0 := vram[..], used[..];
    ok, places' := PlaceClut(t, vram, used, textures, textures[..i], fits, places);
    forall s | s in textures ensures s in places' && places'[s] == PlaceOf(s) {
      if s != t {
        assert old(PlaceOf(s)) == PlaceOf(s);
      }
    }
    if ok {
      PalettingStep(g0, u0, vram[..], used[..], textures, i, fits, places0, places, PlaceOf(t));
    }
  }

  /**
   * PackVRM's second loop: the palettes of all non-empty paletted textures,
   * `places'` following the coordinates.  Images shown stay shown, and the
   * textures without a palette keep their places.
   */
  method PlaceCluts(textures: seq<Texture>, vram: array<u16>, used: array<bool>, ghost fits: bool,
                    ghost places: map<Texture, VramPlace>)
    returns (ok: bool, ghost places': map<Texture, VramPlace>)
    requires vram.Length == VramCells && used.Length == VramCells
    requires forall t :: t in textures ==> t.Valid()
    requires PlacesOf(textures, places)
    requires fits ==> ImagesShown(vram[..], used[..], textures, textures, places)
    modifies (set t | t in textures), vram, used
    ensures PlacesOf(textures, places')
    ensures ok ==> ClutsAt(vram[..], used[..], textures, places')
    ensures ok && fits ==> ImagesShown(vram[..], used[..], textures, textures, places')
    ensures forall t :: t in textures && (t.Empty() || t.Depth() == Bpp16) ==> places'[t] == places[t]
    ensures !ok ==> exists t :: t in textures && NoRoomForClut(used[..], t)
  {
    places' := places;
    for i := 0 to |textures|
      invariant PlacesOf(textures, places')
      invariant Paletting(vram[..], used[..], textures, i, fits, places, places')
    {
      ok, places' := PaletteNext(textures, i, vram, used, fits, places, places');
      if !ok {
        assert textures[i] in textures;
        return;
      }
    }
    assert textures[..|textures|] == textures;
    ok := true;
  }

  /**
   * PackVRM: place the image of every non-empty texture, reusing the place
   * of a cached texture CompareEquivalency accepts, then the palette of
   * every paletted one, each at the first free spot FindAvailableSpace
   * reports, and write the grid out as a .vrm file.  `places` holds the
   * textures' coordinates afterwards.  The result is empty when every
   * texture is empty or when some image or palette finds no room.
   * Otherwise every palette is stored at its place; and when every image
   * fits the rectangle reserved for it and no texture appears twice, every
   * texture shows the stored image of itself or of a texture
   * CompareEquivalency accepted for it.
   */
  method PackVrm(textures: seq<Texture>)
    returns (vrm: seq<u8>, ghost grid: seq<u16>, ghost taken: seq<bool>, ghost places: map<Texture, VramPlace>)
    requires forall t :: t in textures ==> t.Valid()
    modifies set t | t in textures
    ensures PlacesOf(textures, places)
    ensures (forall t :: t in textures ==> t.Empty()) ==> vrm == []
    ensures vrm != [] ==> |grid| == VramCells && vrm == VrmFile(grid) && |vrm| == VrmSize
    ensures vrm != [] ==> ClutsAt(grid, taken, textures, places)
    ensures vrm != [] && AllFit(textures) && Separate(textures) ==> ImagesShown(grid, taken, textures, textures, places)
    ensures vrm == [] ==>
      (forall t :: t in textures ==> t.Empty()) ||
      (exists t :: t in textures && (NoRoomForImage(taken, t) || NoRoomForClut(taken, t)))
  {
    var used := new bool[VramCells](_ => false);
    var vram := new u16[VramCells](_ => 0);
    var ok, empty;
    ok, empty, places := PlaceImages(textures, vram, used);
    if !ok || empty {
      return [], vram[..], used[..], places;
    }
    ok, places := PlaceCluts(textures, vram, used, AllFit(textures) && Separate(textures), places);
    if !ok {
      return [], vram[..], used[..], places;
    }
    vrm := VrmFile(vram[..]);
    grid, taken := vram[..], used[..];
    VrmFileSize(grid);
  }

  /**
   * A stored buffer reaches the file: word `Index(w, r, c)` of the buffer
   * is the two bytes at the offset of cell (x + c, y + r).
   */
  lemma StoredInFile(grid: seq<u16>, used: seq<bool>, buffer: seq<u16>, x: nat, y: nat, w: nat, h: nat, clut: bool, r: nat, c: nat)
    requires |grid| == VramCells
    requires Stored(grid, used, buffer, x, y, w, h, clut) && (clut ==> h == 1)
    requires c < w && r < h && Index(w, r, c) < |buffer|
    ensures InFile(x + c, y + r)
    ensures WordAt(VrmFile(grid), FileOffset(x + c, y + r), buffer[Index(w, r, c)])
  {
    PlacedInFile(x, y, w, h, clut, c, r);
    VrmFileCell(grid, x + c, y + r);
  }

  /** Every word of an image stored at `p` is in the file, at the cell it was placed in. */
  lemma ImageInFile(grid: seq<u16>, used: seq<bool>, t: Texture, p: VramPlace, r: nat, c: nat)
    requires |grid| == VramCells && ImageAt(grid, used, t, p)
    requires c < t.VramWords() && r < t.height && Index(t.VramWords(), r, c) < |t.image|
    ensures InFile(LoadedX(p.imageX) + c, p.imageY + r)
    ensures WordAt(VrmFile(grid), FileOffset(LoadedX(p.imageX) + c, p.imageY + r), t.image[Index(t.VramWords(), r, c)])
  {
    StoredInFile(grid, used, t.image, LoadedX(p.imageX), p.imageY, t.VramWords(), t.height, false, r, c);
  }

  /** Every entry of a palette stored at `p` is in the file, on the palette's row. */
  lemma ClutInFile(grid: seq<u16>, used: seq<bool>, t: Texture, p: VramPlace, c: nat)
    requires |grid| == VramCells && ClutAt(grid, used, t, p)
    requires c < |t.clut|
    ensures InFile(LoadedX(p.clutX) + c, p.clutY)
    ensures WordAt(VrmFile(grid), FileOffset(LoadedX(p.clutX) + c, p.clutY), t.clut[c])
  {
    assert Index(|t.clut|, 0, c) == c;
    StoredInFile(grid, used, t.clut, LoadedX(p.clutX), p.clutY, |t.clut|, 1, true, 0, c);
  }

  /** The number little-endian bytes stand for. */
  function LeValue(bs: seq<u8>): nat
    decreases |bs|
  {
    if bs == [] then 0 else bs[0] as nat + 0x100 * LeValue(bs[1..])
  }

  /** Reading the bytes of a 16-bit value back gives the value. */
  lemma U16RoundTrip(n: nat)
    requires n < 0x1_0000
    ensures LeValue(U16Bytes(n)) == n
  {
    var bs := U16Bytes(n);
    assert bs[1..][1..] == [];
    assert LeValue(bs[1..]) == n / 0x100;
  }

  /** Reading the bytes of a 32-bit value back gives the value. */
  lemma U32RoundTrip(n: nat)
    requires n < 0x1_0000_0000
    ensures LeValue(U32Bytes(n)) == n
  {
    var bs := U32Bytes(n);
    assert bs[1..][1..][1..][1..] == [];
    assert LeValue(bs[1..][1..][1..]) == n / 0x100_0000;
    assert LeValue(bs[1..][1..]) == n / 0x1_0000;
    assert LeValue(bs[1..]) == n / 0x100;
  }

  /**
   * The file opens with the magic word and the first block's header, and
   * the second header follows the first block.
   */
  lemma VrmFileHeaders(grid: seq<u16>)
    requires |grid| == VramCells
    ensures var file := VrmFile(grid);
      && file[..4] == U32Bytes(VrmMagic)
      && file[4..TopStart] == Header(Buffer1Bytes, VramCols, 0, TopCols, TexpageHeight)
      && file[BottomStart - HeaderBytes..BottomStart] == Header(Buffer2Bytes, VramCols, TexpageHeight, VramCols, TexpageHeight)
      && file[VrmSize - 4..] == [0, 0, 0, 0]
  {
    var m := U32Bytes(VrmMagic);
    var h1 := Header(Buffer1Bytes, VramCols, 0, TopCols, TexpageHeight);
    var top := WordBytes(TopBlock(grid));
    var h2 := Header(Buffer2Bytes, VramCols, TexpageHeight, VramCols, TexpageHeight);
    var bottom := WordBytes(BottomBlock(grid));
    var file := VrmFile(grid);
    assert file == m + h1 + top + h2 + bottom + [0, 0, 0, 0];
    assert file[..4] == m;
    assert file[4..TopStart] == h1;
    assert file[BottomStart - HeaderBytes..BottomStart] == h2;
  }
}
