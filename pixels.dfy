// Pixel conversion of a texture: 16-bit colours, the palette (CLUT), the
// colour depth and the packing of palette indices into 16-bit VRAM words.
//
// Image decoding is not part of this model: a texture is built from a
// width, a height, a channel count and the decoded bytes.

module Pixels {
  import opened Wrappers
  import opened Dedup

  newtype u8 = x: int | 0 <= x < 0x100
  newtype u16 = x: int | 0 <= x < 0x1_0000

  /** size_t is 64 bits wide; its arithmetic wraps modulo this. */
  const SizeMod: int := 0x1_0000_0000_0000_0000

  // ---------------------------------------------------------------------
  // Colour conversion
  // ---------------------------------------------------------------------

  /** One 8-bit channel scaled to 5 bits: ((c * 249) + 1014) >> 11, masked with 0x1F. */
  function Channel(c: int): (q: nat)
    requires 0 <= c < 0x100
    ensures q < 32
  {
    ((c * 249 + 1014) / 2048) % 32
  }

  /** The 0x1F mask never removes anything: the scaled value is already below 32. */
  lemma ChannelInRange(c: int)
    requires 0 <= c < 0x100
    ensures (c * 249 + 1014) / 2048 < 32
    ensures Channel(c) == (c * 249 + 1014) / 2048
  {
  }

  /**
   * The shift/or sequence that assembles a colour from an alpha bit and
   * three 5-bit channels: color = a << 5; color |= b; color <<= 5; color |= g;
   * color <<= 5; color |= r.  Each or fills bits the preceding shift left
   * zero, so it adds; with a <= 1 nothing is shifted out of 16 bits.
   */
  function Assemble(a: int, b5: nat, g5: nat, r5: nat): (color: u16)
    requires 0 <= a <= 1 && b5 < 32 && g5 < 32 && r5 < 32
  {
    (((a * 32 + b5) * 32 + g5) * 32 + r5) as u16
  }

  /** Only all-zero fields assemble to the transparent value 0. */
  lemma AssembleZero(a: int, b5: nat, g5: nat, r5: nat)
    requires 0 <= a <= 1 && b5 < 32 && g5 < 32 && r5 < 32
    ensures Assemble(a, b5, g5, r5) == 0 <==> a == 0 && b5 == 0 && g5 == 0 && r5 == 0
  {
  }

  /**
   * ConvertColor exactly as the source writes it: opaque (a == 255) clears
   * the semi-transparency bit and turns pure black (0,0,0) into a dark blue
   * so that it does not become the transparent value 0; a == 0 gives black
   * with the bit clear; any other alpha sets the bit.
   */
  function ConvertColorAsWritten(r: u8, g: u8, b: u8, a: u8): (color: u16) {
    if a == 255 then
      Assemble(0, Channel(if r == 0 && g == 0 && b == 0 then 8 else b as int), Channel(g as int), Channel(r as int))
    else if a == 0 then
      Assemble(0, Channel(0), Channel(0), Channel(0))
    else
      Assemble(1, Channel(b as int), Channel(g as int), Channel(r as int))
  }

  /**
   * ConvertColor with the black test applied to the converted channels: an
   * opaque colour whose three channels all scale to 0 gets the dark blue.
   * This is the intended conversion; textures are built with
   * `ConvertColorAsWritten`.
   */
  function ConvertColor(r: u8, g: u8, b: u8, a: u8): (color: u16)
    ensures a == 255 ==> color != 0
    ensures a == 0 ==> color == 0
  {
    if a == 255 then OpaqueColor(r, g, b)
    else if a == 0 then TransparentColor()
    else Assemble(1, Channel(b as int), Channel(g as int), Channel(r as int))
  }

  /** The a == 255 branch of ConvertColor. */
  function OpaqueColor(r: u8, g: u8, b: u8): (color: u16)
    ensures color != 0
  {
    var black := Channel(r as int) == 0 && Channel(g as int) == 0 && Channel(b as int) == 0;
    var b5 := Channel(if black then 8 else b as int);
    assert Channel(8) == 1;
    AssembleZero(0, b5, Channel(g as int), Channel(r as int));
    Assemble(0, b5, Channel(g as int), Channel(r as int))
  }

  /** The a == 0 branch of ConvertColor: red, green and blue are zeroed first. */
  function TransparentColor(): (color: u16)
    ensures color == 0
  {
    Assemble(0, Channel(0), Channel(0), Channel(0))
  }

  /**
   * The colour's fields: bit 15 is set iff 0 < a < 255, blue sits at bits
   * 10..14, green at 5..9 and red at 0..4, each the scaled channel; an
   * opaque pixel whose raw bytes are all 0 has its blue byte taken as 8.
   */
  lemma ConvertColorFields(r: u8, g: u8, b: u8, a: u8)
    requires a != 0
    ensures var alpha := if a == 255 then 0 else 1;
      var black := a == 255 && r == 0 && g == 0 && b == 0;
      ConvertColorAsWritten(r, g, b, a) as int
        == alpha * 0x8000 + Channel(if black then 8 else b as int) * 0x400 + Channel(g as int) * 0x20 + Channel(r as int)
  {
  }

  /**
   * An opaque pixel converts to the transparent value 0 exactly when its
   * raw bytes are not all 0 but each of them scales to 0.
   */
  lemma OpaqueZeroAsWritten(r: u8, g: u8, b: u8)
    ensures ConvertColorAsWritten(r, g, b, 255) == 0 <==>
      ((r, g, b) != (0, 0, 0) && Channel(r as int) == 0 && Channel(g as int) == 0 && Channel(b as int) == 0)
  {
    if r == 0 && g == 0 && b == 0 {
      assert Channel(8) == 1 && Channel(0) == 0;
      AssembleZero(0, Channel(8), Channel(0), Channel(0));
    } else {
      AssembleZero(0, Channel(b as int), Channel(g as int), Channel(r as int));
    }
  }

  /** A semi-transparent pixel always has bit 15 set, so it is never 0. */
  lemma SemiTransparentAsWritten(r: u8, g: u8, b: u8, a: u8)
    requires 0 < a < 255
    ensures ConvertColorAsWritten(r, g, b, a) as int >= 0x8000
  {
  }

  /** Alpha 0 gives the transparent value whatever the colour. */
  lemma ConvertColorTransparent(r: u8, g: u8, b: u8)
    ensures ConvertColor(r, g, b, 0) == 0 && ConvertColorAsWritten(r, g, b, 0) == 0
  {
    assert Channel(0) == 0;
  }

  /** Opaque pure black becomes 0x0400 (blue channel 1), never the transparent 0. */
  lemma ConvertColorOpaqueBlack()
    ensures ConvertColor(0, 0, 0, 255) == 0x400
    ensures ConvertColorAsWritten(0, 0, 0, 255) == 0x400
  {
    assert Channel(0) == 0 && Channel(8) == 1;
  }

  /**
   * The test on the raw bytes misses the opaque near-blacks: every channel
   * from 0 to 4 scales to 0, so (4, 4, 4, 255) becomes the transparent 0.
   */
  lemma ConvertColorAsWrittenNearBlack()
    ensures ConvertColorAsWritten(4, 4, 4, 255) == 0
  {
    assert Channel(4) == 0;
  }

  /** The two conversions differ only on opaque colours whose channels all scale to 0. */
  lemma ConvertColorAgrees(r: u8, g: u8, b: u8, a: u8)
    ensures ConvertColor(r, g, b, a) != ConvertColorAsWritten(r, g, b, a) <==>
      (a == 255 && (r, g, b) != (0, 0, 0) && Channel(r as int) == 0 && Channel(g as int) == 0 && Channel(b as int) == 0)
  {
    if a == 255 {
      OpaqueAgrees(r, g, b);
    }
  }

  lemma OpaqueAgrees(r: u8, g: u8, b: u8)
    ensures OpaqueColor(r, g, b) != ConvertColorAsWritten(r, g, b, 255) <==>
      ((r, g, b) != (0, 0, 0) && Channel(r as int) == 0 && Channel(g as int) == 0 && Channel(b as int) == 0)
  {
    var rawBlack := r == 0 && g == 0 && b == 0;
    var black := Channel(r as int) == 0 && Channel(g as int) == 0 && Channel(b as int) == 0;
    assert rawBlack ==> black by { assert Channel(0) == 0; }
    if black && !rawBlack {
      assert Channel(8) == 1;
      assert OpaqueColor(r, g, b) == Assemble(0, 1, 0, 0);
      assert ConvertColorAsWritten(r, g, b, 255) == Assemble(0, 0, 0, 0);
    } else {
      var b5 := Channel(if black then 8 else b as int);
      assert b5 == Channel(if rawBlack then 8 else b as int);
    }
  }

  // ---------------------------------------------------------------------
  // Palette
  // ---------------------------------------------------------------------


  /**
   * `pixels` holds `n` pixels of `channels` bytes each, for the one to four
   * channels stbi_load returns (grey, grey and alpha, RGB, RGBA).
   */
  predicate HoldsPixels(pixels: seq<u8>, channels: nat, n: nat) {
    || (channels == 1 && n <= |pixels|)
    || (channels == 2 && 2 * n <= |pixels|)
    || (channels == 3 && 3 * n <= |pixels|)
    || (channels == 4 && 4 * n <= |pixels|)
  }

  /**
   * The colour of pixel `i`, converted as CreateTexture does it (with the
   * black test on the raw bytes) and read from the pixel's own bytes: a grey
   * byte stands for red, green and blue alike, and a picture without an
   * alpha channel is opaque. On three- and four-channel pictures this is the
   * code's reading (`PixelColorAgrees`).
   */
  function PixelColor(pixels: seq<u8>, channels: nat, i: nat): u16
    requires HoldsPixels(pixels, channels, i + 1)
  {
    if channels == 4 then ConvertColorAsWritten(pixels[4 * i], pixels[4 * i + 1], pixels[4 * i + 2], pixels[4 * i + 3])
    else if channels == 3 then ConvertColorAsWritten(pixels[3 * i], pixels[3 * i + 1], pixels[3 * i + 2], 255)
    else if channels == 2 then ConvertColorAsWritten(pixels[2 * i], pixels[2 * i], pixels[2 * i], pixels[2 * i + 1])
    else ConvertColorAsWritten(pixels[i], pixels[i], pixels[i], 255)
  }

  /**
   * CreateTexture's reading of pixel `i` as written: from px = i * channels it
   * takes bytes px, px + 1 and px + 2 as red, green and blue, and px + 3 as
   * alpha only for four channels, whatever the channel count; None when one of
   * those bytes lies past the buffer.
   */
  function PixelColorAsWritten(pixels: seq<u8>, channels: nat, i: nat): Option<u16> {
    var px := i * channels;
    if channels == 4 then
      if px + 4 <= |pixels| then Some(ConvertColorAsWritten(pixels[px], pixels[px + 1], pixels[px + 2], pixels[px + 3]))
      else None
    else if px + 3 <= |pixels| then Some(ConvertColorAsWritten(pixels[px], pixels[px + 1], pixels[px + 2], 255))
    else None
  }

  /** On three- and four-channel pictures the code reads every pixel as `PixelColor` does. */
  lemma PixelColorAgrees(pixels: seq<u8>, channels: nat, n: nat, i: nat)
    requires HoldsPixels(pixels, channels, n) && i < n && (channels == 3 || channels == 4)
    ensures PixelColorAsWritten(pixels, channels, i) == Some(PixelColor(pixels, channels, i))
  {
    assert i * channels == channels * i;
  }

  /**
   * On a one- or two-channel picture the code's read of the last pixel runs
   * past the end of the buffer stbi_load returned.
   */
  lemma ShortChannelsPastBuffer(pixels: seq<u8>, channels: nat, n: nat)
    requires (channels == 1 || channels == 2) && n >= 1 && |pixels| == channels * n
    ensures PixelColorAsWritten(pixels, channels, n - 1).None?
  {
    assert (n - 1) * channels + 3 > |pixels|;
  }

  /**
   * On a one-channel picture the code reads pixel 0 from the bytes of pixels
   * 0, 1 and 2: a black pixel followed by two white ones comes out cyan, not
   * the dark blue that stands in for black.
   */
  lemma GreyAsWrittenCounterexample()
    ensures PixelColorAsWritten([0, 255, 255], 1, 0).Some?
    ensures PixelColorAsWritten([0, 255, 255], 1, 0) != Some(PixelColor([0, 255, 255], 1, 0))
  {
    var p: seq<u8> := [0, 255, 255];
    assert Channel(255) == 31 && Channel(0) == 0;
    assert PixelColorAsWritten(p, 1, 0) == Some(Assemble(0, 31, 31, 0));
    assert PixelColor(p, 1, 0) == Assemble(0, Channel(8), 0, 0);
  }

  /** Each pixel's colour depends on its own `channels` bytes alone. */
  lemma PixelColorOwnBytes(pixels: seq<u8>, channels: nat, n: nat, i: nat)
    requires HoldsPixels(pixels, channels, n) && i < n
    ensures HoldsPixels(pixels[channels * i..channels * (i + 1)], channels, 1)
    ensures PixelColor(pixels, channels, i) == PixelColor(pixels[channels * i..channels * (i + 1)], channels, 0)
  {
  }

  /** The converted colour of every pixel. */
  function Colors(pixels: seq<u8>, channels: nat, n: nat): (cs: seq<u16>)
    requires HoldsPixels(pixels, channels, n)
    ensures |cs| == n
  {
    seq(n, i requires 0 <= i < n => PixelColor(pixels, channels, i))
  }

  /** The linear palette search: the first position holding `color`, or |clut| when absent. */
  method FindColor(clut: seq<u16>, color: u16) returns (clutIndex: nat, found: bool)
    ensures found <==> color in clut
    ensures found ==> clutIndex < |clut| && clut[clutIndex] == color
    ensures !found ==> clutIndex == |clut|
  {
    found := false;
    clutIndex := |clut|;
    var j := 0;
    while j < |clut|
      invariant 0 <= j <= |clut|
      invariant forall m :: 0 <= m < j ==> clut[m] != color
    {
      if color == clut[j] {
        clutIndex := j;
        found := true;
        return;
      }
      j := j + 1;
    }
  }

  /** What the palette loop keeps after `i` pixels of `colors`. */
  ghost predicate PaletteSoFar(colors: seq<u16>, i: nat, clut: seq<u16>, indexes: seq<nat>) {
    && i <= |colors|
    && clut == Distinct(colors[..i])
    && |indexes| == i
    && (forall k :: 0 <= k < i ==> indexes[k] < |clut| && clut[indexes[k]] == colors[k])
  }

  /** One pixel of the palette loop keeps `PaletteSoFar`. */
  lemma PaletteStep(colors: seq<u16>, i: nat, clut: seq<u16>, indexes: seq<nat>, clutIndex: nat, found: bool)
    requires PaletteSoFar(colors, i, clut, indexes) && i < |colors|
    requires found <==> colors[i] in clut
    requires found ==> clutIndex < |clut| && clut[clutIndex] == colors[i]
    requires !found ==> clutIndex == |clut|
    ensures PaletteSoFar(colors, i + 1, if found then clut else clut + [colors[i]], indexes + [clutIndex])
  {
    assert colors[..i + 1] == colors[..i] + [colors[i]];
    DistinctSnoc(colors[..i], colors[i]);
  }

  /** At the end of the loop the indices are the first-occurrence numbering. */
  lemma PaletteDone(colors: seq<u16>, clut: seq<u16>, indexes: seq<nat>)
    requires PaletteSoFar(colors, |colors|, clut, indexes)
    ensures clut == Distinct(colors) && indexes == Numbering(colors)
  {
    assert colors[..|colors|] == colors;
    forall k | 0 <= k < |colors| ensures indexes[k] == Numbering(colors)[k] {
      IndexOfUnique(clut, indexes[k]);
    }
  }

  /** The colour of pixel `i`, as `Colors` lists it. */
  method ConvertPixel(pixels: seq<u8>, channels: nat, n: nat, i: nat) returns (color: u16)
    requires HoldsPixels(pixels, channels, n) && i < n
    ensures color == Colors(pixels, channels, n)[i]
  {
    color := PixelColor(pixels, channels, i);
  }

  /**
   * The palette loop of CreateTexture: convert each pixel, look its colour up
   * in the palette and append it when absent; the pixel's index is the
   * position found, or the new last position.
   */
  method BuildPalette(pixels: seq<u8>, channels: nat, n: nat) returns (clut: seq<u16>, indexes: seq<nat>)
    requires HoldsPixels(pixels, channels, n)
    ensures clut == Distinct(Colors(pixels, channels, n))
    ensures indexes == Numbering(Colors(pixels, channels, n))
  {
    ghost var colors := Colors(pixels, channels, n);
    clut, indexes := [], [];
    var i := 0;
    while i < n
      invariant 0 <= i <= n
      invariant PaletteSoFar(colors, i, clut, indexes)
    {
      var color := ConvertPixel(pixels, channels, n, i);
      var clutIndex, found := FindColor(clut, color);
      PaletteStep(colors, i, clut, indexes, clutIndex, found);
      if !found {
        clut := clut + [color];
      }
      indexes := indexes + [clutIndex];
      i := i + 1;
    }
    PaletteDone(colors, clut, indexes);
  }

  /** Looking a pixel's index up in the palette gives back the pixel's colour. */
  lemma PaletteLookup(pixels: seq<u8>, channels: nat, n: nat, i: nat)
    requires HoldsPixels(pixels, channels, n) && i < n
    ensures var colors := Colors(pixels, channels, n);
      Numbering(colors)[i] < |Distinct(colors)| && Distinct(colors)[Numbering(colors)[i]] == colors[i]
  {
  }

  // ---------------------------------------------------------------------
  // Colour depth
  // ---------------------------------------------------------------------

  datatype Bpp = Bpp4 | Bpp8 | Bpp16

  /** GetBPP: 4 bits per pixel up to 16 colours, 8 up to 256, direct colour beyond. */
  function GetBpp(clutSize: nat): Bpp {
    if clutSize <= 16 then Bpp4 else if clutSize <= 256 then Bpp8 else Bpp16
  }

  /** Palette indices packed into one 16-bit word (ConvertPixels' indexesPerPixel). */
  function IndexesPerWord(bpp: Bpp): (ipp: nat)
    requires bpp != Bpp16
    ensures ipp == 2 || ipp == 4
  {
    if bpp == Bpp4 then 4 else 2
  }

  /** Bit width of one packed index: 16 / indexesPerPixel. */
  function Shifter(ipp: nat): nat
    requires ipp == 2 || ipp == 4
  {
    if ipp == 2 then 8 else 4
  }

  function Pow2(n: nat): (p: nat)
    ensures p >= 1
  {
    if n == 0 then 1 else 2 * Pow2(n - 1)
  }

  lemma {:induction false} PowAdd(a: nat, b: nat)
    ensures Pow2(a + b) == Pow2(a) * Pow2(b)
    decreases a
  {
    if a > 0 {
      PowAdd(a - 1, b);
    }
  }

  lemma PowValues()
    ensures Pow2(4) == 16 && Pow2(8) == 256 && Pow2(16) == 0x1_0000
  {
    assert Pow2(4) == 16;
    PowAdd(4, 4);
    PowAdd(8, 8);
  }

  /**
   * Every palette index of a paletted texture fits the field width of its
   * depth: at most 16 colours in 4 bits, at most 256 in 8.
   */
  lemma IndexesFit(clutSize: nat, index: nat)
    requires GetBpp(clutSize) != Bpp16 && index < clutSize
    ensures index < Pow2(Shifter(IndexesPerWord(GetBpp(clutSize))))
  {
    PowValues();
  }

  /** GetVRAMWidth as the source writes it: truncating division. */
  function VramWidthAsWritten(width: nat, bpp: Bpp): nat {
    match bpp
    case Bpp4 => width / 4
    case Bpp8 => width / 2
    case Bpp16 => width
  }

  /** VRAM words per image row, rounding up: the packing starts a fresh word on every row. */
  function VramWidth(width: nat, bpp: Bpp): nat {
    match bpp
    case Bpp4 => (width + 3) / 4
    case Bpp8 => (width + 1) / 2
    case Bpp16 => width
  }

  // ---------------------------------------------------------------------
  // Packing indices into words
  // ---------------------------------------------------------------------

  /** Indices `ws` packed into one word: index k shifted left by shift * k. */
  function Word(ws: seq<nat>, shift: nat): nat
    decreases |ws|
  {
    if ws == [] then 0
    else Word(ws[..|ws| - 1], shift) + ws[|ws| - 1] * Pow2(shift * (|ws| - 1))
  }

  /** A row cut into words of `ipp` indices; a short last group is a word of its own. */
  function Chunks(row: seq<nat>, ipp: nat): seq<nat>
    requires ipp == 2 || ipp == 4
    decreases |row|
  {
    if |row| <= ipp then (if row == [] then [] else [Word(row, Shifter(ipp))])
    else [Word(row[..ipp], Shifter(ipp))] + Chunks(row[ipp..], ipp)
  }

  /** Indices cut into rows of `width`, each row packed on its own. */
  function PackedRows(idx: seq<nat>, width: nat, ipp: nat): seq<nat>
    requires width > 0 && (ipp == 2 || ipp == 4)
    decreases |idx|
  {
    if |idx| <= width then Chunks(idx, ipp)
    else Chunks(idx[..width], ipp) + PackedRows(idx[width..], width, ipp)
  }

  /** The image words ConvertPixels produces; no indices give a single 0 word. */
  function Packed(idx: seq<nat>, width: nat, ipp: nat): seq<nat>
    requires (width > 0 || idx == []) && (ipp == 2 || ipp == 4)
  {
    if idx == [] then [0] else PackedRows(idx, width, ipp)
  }

  /** Whether `s` is made of whole blocks of `n`. */
  predicate Blocks(s: seq<nat>, n: nat)
    requires n > 0
    decreases |s|
  {
    s == [] || (|s| >= n && Blocks(s[n..], n))
  }

  lemma {:induction false} ChunksAppend(s: seq<nat>, t: seq<nat>, ipp: nat)
    requires ipp == 2 || ipp == 4
    requires Blocks(s, ipp) && 0 < |t| <= ipp
    ensures Chunks(s + t, ipp) == Chunks(s, ipp) + [Word(t, Shifter(ipp))]
    decreases |s|
  {
    if s == [] {
      assert s + t == t;
    } else {
      assert (s + t)[..ipp] == s[..ipp];
      assert (s + t)[ipp..] == s[ipp..] + t;
      ChunksAppend(s[ipp..], t, ipp);
      if |s| == ipp {
        assert s[..ipp] == s;
        assert s[ipp..] == [];
      }
    }
  }

  lemma {:induction false} BlocksAppend(s: seq<nat>, t: seq<nat>, n: nat)
    requires n > 0 && Blocks(s, n) && |t| == n
    ensures Blocks(s + t, n)
    decreases |s|
  {
    if s == [] {
      assert s + t == t;
      assert t[n..] == [];
    } else {
      assert (s + t)[n..] == s[n..] + t;
      BlocksAppend(s[n..], t, n);
    }
  }

  lemma {:induction false} PackedRowsAppend(p: seq<nat>, row: seq<nat>, width: nat, ipp: nat)
    requires width > 0 && (ipp == 2 || ipp == 4)
    requires Blocks(p, width) && 0 < |row| <= width
    ensures PackedRows(p + row, width, ipp) == PackedRows(p, width, ipp) + Chunks(row, ipp)
    decreases |p|
  {
    if p == [] {
      assert p + row == row;
    } else {
      var q := p + row;
      var head, tail := p[..width], p[width..];
      assert q[..width] == head;
      assert q[width..] == tail + row;
      PackedRowsAppend(tail, row, width, ipp);
      assert PackedRows(q, width, ipp) == Chunks(head, ipp) + (PackedRows(tail, width, ipp) + Chunks(row, ipp));
      if |p| == width {
        assert head == p && tail == [];
        assert PackedRows(tail, width, ipp) == [];
      } else {
        assert PackedRows(p, width, ipp) == Chunks(head, ipp) + PackedRows(tail, width, ipp);
      }
    }
  }

  /** A value below P plus a digit below Q scaled by P stays below Q * P. */
  lemma DigitBound(low: nat, digit: nat, P: nat, Q: nat)
    requires low < P && digit < Q
    ensures low + digit * P < Q * P
  {
    assert digit * P <= (Q - 1) * P;
  }

  lemma MulSucc(a: nat, n: nat)
    ensures a * n + a == a * (n + 1)
  {
  }

  /** A word of n indices, each below 2^shift, is below 2^(shift * n): the fields do not overlap. */
  lemma {:induction false} WordBound(ws: seq<nat>, shift: nat)
    requires forall i :: 0 <= i < |ws| ==> ws[i] < Pow2(shift)
    ensures Word(ws, shift) < Pow2(shift * |ws|)
    decreases |ws|
  {
    if ws != [] {
      var n := |ws| - 1;
      var init := ws[..n];
      WordBound(init, shift);
      DigitBound(Word(init, shift), ws[n], Pow2(shift * n), Pow2(shift));
      MulSucc(shift, n);
      PowAdd(shift * n, shift);
    }
  }

  lemma {:induction false} PowMonotone(a: nat, b: nat)
    requires a <= b
    ensures Pow2(a) <= Pow2(b)
    decreases b
  {
    if a < b {
      PowMonotone(a, b - 1);
    }
  }

  /** Every word of a packed image fits 16 bits. */
  lemma {:induction false} ChunksBounded(row: seq<nat>, ipp: nat)
    requires ipp == 2 || ipp == 4
    requires forall i :: 0 <= i < |row| ==> row[i] < Pow2(Shifter(ipp))
    ensures forall w :: w in Chunks(row, ipp) ==> w < 0x1_0000
    decreases |row|
  {
    PowValues();
    var n := if |row| <= ipp then |row| else ipp;
    WordBound(row[..n], Shifter(ipp));
    PowMonotone(Shifter(ipp) * n, 16);
    if |row| > ipp {
      ChunksBounded(row[ipp..], ipp);
    } else {
      assert row[..n] == row;
    }
  }

  lemma {:induction false} PackedRowsBounded(idx: seq<nat>, width: nat, ipp: nat)
    requires width > 0 && (ipp == 2 || ipp == 4)
    requires forall i :: 0 <= i < |idx| ==> idx[i] < Pow2(Shifter(ipp))
    ensures forall w :: w in PackedRows(idx, width, ipp) ==> w < 0x1_0000
    decreases |idx|
  {
    if |idx| <= width {
      ChunksBounded(idx, ipp);
    } else {
      ChunksBounded(idx[..width], ipp);
      PackedRowsBounded(idx[width..], width, ipp);
    }
  }

  /** A row of n indices takes ceil(n / ipp) words. */
  lemma {:induction false} ChunksLength(row: seq<nat>, ipp: nat)
    requires ipp == 2 || ipp == 4
    ensures |Chunks(row, ipp)| == (|row| + ipp - 1) / ipp
    decreases |row|
  {
    if |row| > ipp {
      ChunksLength(row[ipp..], ipp);
    }
  }

  /** An image of `height` full rows has height * ceil(width / ipp) words. */
  lemma {:induction false} PackedRowsLength(idx: seq<nat>, width: nat, height: nat, ipp: nat)
    requires width > 0 && height > 0 && (ipp == 2 || ipp == 4)
    requires |idx| == width * height
    ensures |PackedRows(idx, width, ipp)| == height * ((width + ipp - 1) / ipp)
    decreases height
  {
    if height == 1 {
      ChunksLength(idx, ipp);
    } else {
      assert width * height - width == width * (height - 1);
      assert |idx[width..]| == width * (height - 1);
      ChunksLength(idx[..width], ipp);
      PackedRowsLength(idx[width..], width, height - 1, ipp);
      var c := (width + ipp - 1) / ipp;
      assert |PackedRows(idx, width, ipp)| == c + (height - 1) * c;
      assert c + (height - 1) * c == height * c;
    }
  }

  /** The 16-bit words of `s` as numbers. */
  function AsNat(s: seq<u16>): (r: seq<nat>)
    ensures |r| == |s|
  {
    seq(|s|, i requires 0 <= i < |s| => s[i] as nat)
  }

  lemma AsNatSnoc(s: seq<u16>, w: u16)
    ensures AsNat(s + [w]) == AsNat(s) + [w as nat]
  {
  }

  /** Every index fits the field width of `ipp` indices per word. */
  ghost predicate IndexesBelow(idx: seq<nat>, ipp: nat)
    requires ipp == 2 || ipp == 4
  {
    forall i :: 0 <= i < |idx| ==> idx[i] < Pow2(Shifter(ipp))
  }

  /**
   * What ConvertPixels keeps after `i` indices: they are split into the
   * finished rows, the finished words of the current row and the indices of
   * the word being filled.  The words pushed pack the first two, `px` packs
   * the third, and the two counters measure the current row and word.
   */
  ghost predicate PackSoFar(idx: seq<nat>, i: nat, width: nat, ipp: nat, rows: seq<nat>, done: seq<nat>, cur: seq<nat>,
                            words: seq<nat>, px: nat, relWidth: nat, colorsAdded: nat)
    requires ipp == 2 || ipp == 4
  {
    && width > 0
    && i <= |idx|
    && rows + (done + cur) == idx[..i]
    && Blocks(rows, width)
    && Blocks(done, ipp)
    && |cur| <= ipp
    && |done| + |cur| <= width
    && relWidth == |done| + |cur|
    && colorsAdded == |cur|
    && words == PackedRows(rows, width, ipp) + Chunks(done, ipp)
    && px == Word(cur, Shifter(ipp))
  }

  /** The word being filled always fits 16 bits. */
  lemma PackFits(idx: seq<nat>, i: nat, width: nat, ipp: nat, rows: seq<nat>, done: seq<nat>, cur: seq<nat>,
                 words: seq<nat>, px: nat, relWidth: nat, colorsAdded: nat)
    requires ipp == 2 || ipp == 4
    requires IndexesBelow(idx, ipp)
    requires PackSoFar(idx, i, width, ipp, rows, done, cur, words, px, relWidth, colorsAdded)
    ensures px < 0x1_0000
  {
    CurBelow(idx, i, rows, done, cur, ipp);
    var sh := Shifter(ipp);
    WordBound(cur, sh);
    FieldsFit(ipp, |cur|);
    PowMonotone(sh * |cur|, 16);
    PowValues();
  }

  /** At most `ipp` fields of 16 / ipp bits fill at most 16 bits. */
  lemma FieldsFit(ipp: nat, n: nat)
    requires (ipp == 2 || ipp == 4) && n <= ipp
    ensures Shifter(ipp) * n <= 16
  {
    if ipp == 2 {
      assert Shifter(ipp) == 8;
    } else {
      assert Shifter(ipp) == 4;
    }
  }

  /** The indices of the word being filled are indices of the image. */
  lemma CurBelow(idx: seq<nat>, i: nat, rows: seq<nat>, done: seq<nat>, cur: seq<nat>, ipp: nat)
    requires ipp == 2 || ipp == 4
    requires IndexesBelow(idx, ipp) && i <= |idx| && rows + (done + cur) == idx[..i]
    ensures IndexesBelow(cur, ipp)
  {
    forall k | 0 <= k < |cur| ensures cur[k] < Pow2(Shifter(ipp)) {
      assert cur[k] == (rows + (done + cur))[|rows| + |done| + k];
    }
  }

  /** Nothing consumed, nothing pushed. */
  lemma PackStart(idx: seq<nat>, width: nat, ipp: nat)
    requires (ipp == 2 || ipp == 4) && width > 0
    ensures PackSoFar(idx, 0, width, ipp, [], [], [], [], 0, 0, 0)
  {
  }

  /** Or-ing index i into the word being filled, at field |cur|. */
  lemma PackAdd(idx: seq<nat>, i: nat, width: nat, ipp: nat, rows: seq<nat>, done: seq<nat>, cur: seq<nat>,
                words: seq<nat>, px: nat, relWidth: nat, colorsAdded: nat)
    requires ipp == 2 || ipp == 4
    requires PackSoFar(idx, i, width, ipp, rows, done, cur, words, px, relWidth, colorsAdded)
    requires i < |idx| && colorsAdded < ipp && relWidth < width
    ensures PackSoFar(idx, i + 1, width, ipp, rows, done, cur + [idx[i]], words,
                      px + idx[i] * Pow2(Shifter(ipp) * colorsAdded), relWidth + 1, colorsAdded + 1)
  {
    assert (cur + [idx[i]])[..|cur|] == cur;
    assert idx[..i + 1] == idx[..i] + [idx[i]];
  }

  /** Pushing a full word inside a row. */
  lemma PackWordEnd(idx: seq<nat>, i: nat, width: nat, ipp: nat, rows: seq<nat>, done: seq<nat>, cur: seq<nat>,
                    words: seq<nat>, px: nat, relWidth: nat)
    requires ipp == 2 || ipp == 4
    requires PackSoFar(idx, i, width, ipp, rows, done, cur, words, px, relWidth, ipp)
    ensures PackSoFar(idx, i, width, ipp, rows, done + cur, [], words + [px], 0, relWidth, 0)
  {
    ChunksAppend(done, cur, ipp);
    BlocksAppend(done, cur, ipp);
    assert done + cur + [] == done + cur;
  }

  /** Pushing the word that ends a row. */
  lemma PackRowEnd(idx: seq<nat>, i: nat, width: nat, ipp: nat, rows: seq<nat>, done: seq<nat>, cur: seq<nat>,
                   words: seq<nat>, px: nat, colorsAdded: nat)
    requires ipp == 2 || ipp == 4
    requires PackSoFar(idx, i, width, ipp, rows, done, cur, words, px, width, colorsAdded)
    requires cur != []
    ensures PackSoFar(idx, i, width, ipp, rows + (done + cur), [], [], words + [px], 0, 0, 0)
  {
    ChunksAppend(done, cur, ipp);
    PackedRowsAppend(rows, done + cur, width, ipp);
    BlocksAppend(rows, done + cur, width);
    assert rows + (done + cur) + ([] + []) == rows + (done + cur);
  }

  /** After the last index the final push completes the packed image. */
  lemma PackDone(idx: seq<nat>, width: nat, ipp: nat, rows: seq<nat>, done: seq<nat>, cur: seq<nat>,
                 words: seq<nat>, px: nat, relWidth: nat, colorsAdded: nat)
    requires ipp == 2 || ipp == 4
    requires PackSoFar(idx, |idx|, width, ipp, rows, done, cur, words, px, relWidth, colorsAdded)
    requires cur != []
    ensures words + [px] == Packed(idx, width, ipp)
  {
    assert idx[..|idx|] == idx;
    assert idx != [];
    ChunksAppend(done, cur, ipp);
    PackedRowsAppend(rows, done + cur, width, ipp);
    calc {
      Packed(idx, width, ipp);
      PackedRows(rows + (done + cur), width, ipp);
      PackedRows(rows, width, ipp) + (Chunks(done, ipp) + [Word(cur, Shifter(ipp))]);
      words + [px];
    }
  }

  /**
   * ConvertPixels: pack the palette indices into words, `ipp` per word and
   * a fresh word at every row start; the word being filled is pushed when
   * the row or the word is full, and once more at the end.  The field
   * being or-ed in is still zero, so the or is written as an addition.
   */
  method ConvertPixels(indexes: seq<nat>, width: nat, ipp: nat) returns (image: seq<u16>)
    requires ipp == 2 || ipp == 4
    requires width > 0 || indexes == []
    requires IndexesBelow(indexes, ipp)
    ensures AsNat(image) == Packed(indexes, width, ipp)
  {
    var shifter := Shifter(ipp);
    var px: nat := 0;
    var relWidth := 0;
    var colorsAdded := 0;
    ghost var rows: seq<nat>, done: seq<nat>, cur: seq<nat> := [], [], [];
    image := [];
    if width > 0 {
      PackStart(indexes, width, ipp);
    }
    var i := 0;
    while i < |indexes|
      invariant i <= |indexes|
      invariant width > 0 ==> PackSoFar(indexes, i, width, ipp, rows, done, cur, AsNat(image), px, relWidth, colorsAdded)
      invariant i == 0 ==> image == [] && px == 0 && relWidth == 0 && colorsAdded == 0
      invariant i > 0 ==> cur != []
    {
      var index := indexes[i];
      if relWidth == width {
        PackFits(indexes, i, width, ipp, rows, done, cur, AsNat(image), px, relWidth, colorsAdded);
        PackRowEnd(indexes, i, width, ipp, rows, done, cur, AsNat(image), px, colorsAdded);
        AsNatSnoc(image, px as u16);
        relWidth := 0;
        image := image + [px as u16];
        px := 0;
        colorsAdded := 0;
        rows, done, cur := rows + (done + cur), [], [];
      } else if colorsAdded == ipp {
        PackFits(indexes, i, width, ipp, rows, done, cur, AsNat(image), px, relWidth, colorsAdded);
        PackWordEnd(indexes, i, width, ipp, rows, done, cur, AsNat(image), px, relWidth);
        AsNatSnoc(image, px as u16);
        image := image + [px as u16];
        px := 0;
        colorsAdded := 0;
        done, cur := done + cur, [];
      }
      PackAdd(indexes, i, width, ipp, rows, done, cur, AsNat(image), px, relWidth, colorsAdded);
      px := px + index * Pow2(shifter * colorsAdded);
      colorsAdded := colorsAdded + 1;
      relWidth := relWidth + 1;
      cur := cur + [index];
      i := i + 1;
    }
    if indexes != [] {
      PackFits(indexes, i, width, ipp, rows, done, cur, AsNat(image), px, relWidth, colorsAdded);
      PackDone(indexes, width, ipp, rows, done, cur, AsNat(image), px, relWidth, colorsAdded);
    }
    AsNatSnoc(image, px as u16);
    image := image + [px as u16];
  }
}
