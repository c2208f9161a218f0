// Finding room for textures in VRAM and copying them there.
//
// The packer works on a 512 x 512 grid of 16-bit words kept row by row,
// beside a bitmap of the words already taken; the grid stands for the right
// half of the PlayStation's 1024 x 512 VRAM, so a texture's stored x
// coordinate is its grid column plus 512.  Each
// texture page is 64 words wide and 256 rows high; pages 6 and 7 (the
// right-most two of the top row) are reserved.  Images go first, each
// inside one page; palettes follow, on 16-word columns, and may cross pages.

module Vram {
  import opened Pixels
  import opened ColorShapes
  import opened Textures

  const TexpageWidth: nat := 64
  const TexpageHeight: nat := 256
  const VramCols: nat := 512
  const VramRows: nat := 512
  const VramCells: nat := VramCols * VramRows
  /** Palettes start on multiples of this column (MIN_CLUT_WIDTH). */
  const ClutStep: nat := 16

  /** GetTexPage: pages are numbered row by row, 8 per row of pages. */
  function TexPage(x: nat, y: nat): nat {
    x / TexpageWidth + (VramCols / TexpageWidth) * (y / TexpageHeight)
  }

  predicate Reserved(page: nat) {
    page == 6 || page == 7
  }

  /** GetVRAMLocation: the word index of column x, row y. */
  function Loc(x: nat, y: nat): nat {
    x + y * VramCols
  }

  /** Word index of the cell `c` columns right of and `r` rows below (x, y). */
  function Cell(x: nat, y: nat, c: nat, r: nat): nat {
    Loc(x + c, y + r)
  }

  /** The last column or row of a span of `n` starting at `p`: p + n - 1 in size_t. */
  function LastOf(p: nat, n: nat): nat {
    (p + n - 1) % SizeMod
  }

  /** No cell of the `w` by `h` rectangle at (x, y) is taken. */
  ghost predicate RectFree(used: seq<bool>, x: nat, y: nat, w: nat, h: nat) {
    forall r: nat, c: nat :: c < w && r < h ==> Cell(x, y, c, r) < |used| && !used[Cell(x, y, c, r)]
  }

  /**
   * The placement rules TestRect checks before looking at the cells: the
   * rectangle ends left of column 512 and above row 512, neither corner lies
   * on a reserved page, and an image (not a palette) keeps both corners on
   * one page.
   */
  predicate PageRules(x: nat, y: nat, w: nat, h: nat, clut: bool) {
    var first := TexPage(x, y);
    var last := TexPage(LastOf(x, w), LastOf(y, h));
    && x + w < VramCols && y + h < VramRows
    && !Reserved(first) && !Reserved(last)
    && (clut || first == last)
  }

  /** What TestRect accepts: the placement rules hold and every cell is free. */
  ghost predicate Fits(used: seq<bool>, x: nat, y: nat, w: nat, h: nat, clut: bool) {
    PageRules(x, y, w, h, clut) && RectFree(used, x, y, w, h)
  }

  /** The rows before `rows`, and the first `cols` cells of row `rows`, are free. */
  ghost predicate ScanFree(used: seq<bool>, x: nat, y: nat, w: nat, rows: nat, cols: nat) {
    && (forall r: nat, c: nat :: c < w && r < rows ==> Cell(x, y, c, r) < |used| && !used[Cell(x, y, c, r)])
    && (forall c: nat :: c < cols ==> Cell(x, y, c, rows) < |used| && !used[Cell(x, y, c, rows)])
  }

  lemma RowStep(r: nat, w: nat)
    ensures (r + 1) * w == r * w + w
  {
  }

  /** A cell numbered below w * h in row-major order lies in one of the h rows. */
  lemma RowBelow(r: nat, c: nat, w: nat, h: nat)
    requires r * w + c < w * h
    ensures r < h
  {
  }

  /** Products with the same positive factor compare like the other factors. */
  lemma LessMul(a: nat, b: nat, w: nat)
    requires a * w < b * w
    ensures a < b
  {
  }

  /** Having numbered all w * h cells, the scan stands at the end of the last row. */
  lemma LastRow(r: nat, c: nat, w: nat, h: nat)
    requires 1 <= c <= w && r * w + c == w * h
    ensures r + 1 == h && c == w
  {
    assert w * h == h * w;
    assert h >= 1;
    RowStep(h - 1, w);
    LessMul(r, h, w);
    RowStep(r, w);
    LessMul(h - 1, r + 1, w);
  }

  lemma ZeroProduct(w: nat, h: nat)
    requires w * h == 0
    ensures w == 0 || h == 0
  {
  }

  /** A row-major scan that has numbered all w * h cells has covered the rectangle. */
  lemma ScanCovers(used: seq<bool>, x: nat, y: nat, w: nat, h: nat, rows: nat, cols: nat)
    requires ScanFree(used, x, y, w, rows, cols)
    requires cols <= w && rows * w + cols == w * h && (w * h > 0 ==> cols >= 1)
    ensures RectFree(used, x, y, w, h)
  {
    if w * h == 0 {
      ZeroProduct(w, h);
    } else {
      LastRow(rows, cols, w, h);
    }
  }

  /** TestRect: whether a `width` by `height` rectangle fits at (x, y). */
  method TestRect(used: array<bool>, x: nat, y: nat, width: nat, height: nat, clut: bool) returns (ok: bool)
    requires used.Length == VramCells
    ensures ok <==> Fits(used[..], x, y, width, height, clut)
  {
    if x + width >= VramCols || y + height >= VramRows {
      return false;
    }
    var texPage := TexPage(x, y);
    var texPageLastCorner := TexPage(LastOf(x, width), LastOf(y, height));
    if texPage == 6 || texPage == 7 {
      return false;
    }
    if texPageLastCorner == 6 || texPageLastCorner == 7 {
      return false;
    }
    if !clut && texPage != texPageLastCorner {
      return false;
    }
    var relWidth, relHeight := 0, 0;
    var i := 0;
    while i < width * height
      invariant i <= width * height
      invariant relWidth <= width && (i > 0 ==> relWidth >= 1)
      invariant relHeight * width + relWidth == i
      invariant ScanFree(used[..], x, y, width, relHeight, relWidth)
      decreases width * height - i
    {
      if relWidth == width {
        RowStep(relHeight, width);
        relWidth := 0;
        relHeight := relHeight + 1;
      }
      RowBelow(relHeight, relWidth, width, height);
      if used[Cell(x, y, relWidth, relHeight)] {
        return false;
      }
      relWidth := relWidth + 1;
      i := i + 1;
    }
    ScanCovers(used[..], x, y, width, height, relHeight, relWidth);
    return true;
  }

  /** A position FindAvailableSpace tries: inside the grid, on a 16-word column for a palette. */
  predicate Candidate(x: nat, y: nat, clut: bool) {
    x < VramCols && y < VramRows && (clut ==> x % ClutStep == 0)
  }

  /** No candidate scanned before (x, y) fits. */
  ghost predicate NoneBefore(used: seq<bool>, x: nat, y: nat, w: nat, h: nat, clut: bool) {
    forall cx: nat, cy: nat :: Candidate(cx, cy, clut) && Loc(cx, cy) < Loc(x, y) ==> !Fits(used, cx, cy, w, h, clut)
  }

  /** Between a candidate and the next one the scan tries there is no other candidate. */
  lemma NextCandidate(cx: nat, cy: nat, x: nat, y: nat, clut: bool)
    requires Candidate(cx, cy, clut) && Candidate(x, y, clut)
    requires Loc(cx, cy) < Loc(x + (if clut then ClutStep else 1), y)
    ensures Loc(cx, cy) < Loc(x, y) || (cx == x && cy == y)
  {
  }

  /** No candidate fits at all. */
  ghost predicate NoneFits(used: seq<bool>, w: nat, h: nat, clut: bool) {
    forall cx: nat, cy: nat :: Candidate(cx, cy, clut) ==> !Fits(used, cx, cy, w, h, clut)
  }

  /** Moving past a candidate that does not fit to the next one. */
  lemma ScanStep(used: seq<bool>, x: nat, y: nat, w: nat, h: nat, clut: bool)
    requires Candidate(x, y, clut) && NoneBefore(used, x, y, w, h, clut)
    requires !Fits(used, x, y, w, h, clut)
    ensures NoneBefore(used, x + (if clut then ClutStep else 1), y, w, h, clut)
    ensures x + (if clut then ClutStep else 1) <= VramCols
    ensures clut ==> (x + ClutStep) % ClutStep == 0
  {
    var x' := x + (if clut then ClutStep else 1);
    forall cx: nat, cy: nat | Candidate(cx, cy, clut) && Loc(cx, cy) < Loc(x', y)
      ensures !Fits(used, cx, cy, w, h, clut)
    {
      NextCandidate(cx, cy, x, y, clut);
    }
  }

  /** (x, y) is the first candidate in scan order where the rectangle fits. */
  ghost predicate FirstFit(used: seq<bool>, x: nat, y: nat, w: nat, h: nat, clut: bool) {
    Candidate(x, y, clut) && Fits(used, x, y, w, h, clut) && NoneBefore(used, x, y, w, h, clut)
  }

  lemma ScanFound(used: seq<bool>, x: nat, y: nat, w: nat, h: nat, clut: bool)
    requires Candidate(x, y, clut) && Fits(used, x, y, w, h, clut) && NoneBefore(used, x, y, w, h, clut)
    ensures FirstFit(used, x, y, w, h, clut)
  {
  }

  /** Column 512 of a row is column 0 of the next. */
  lemma ScanWrap(used: seq<bool>, y: nat, w: nat, h: nat, clut: bool)
    requires NoneBefore(used, VramCols, y, w, h, clut)
    ensures NoneBefore(used, 0, y + 1, w, h, clut)
  {
    assert Loc(VramCols, y) == Loc(0, y + 1);
  }

  /** Past the right edge of the last row that could hold the rectangle, nothing later fits. */
  lemma ScanPastEnd(used: seq<bool>, x: nat, y: nat, w: nat, h: nat, clut: bool)
    requires x <= VramCols && NoneBefore(used, x, y, w, h, clut)
    requires x + w >= VramCols && y + h >= VramRows
    ensures NoneFits(used, w, h, clut)
  {
    forall cx: nat, cy: nat | Candidate(cx, cy, clut) ensures !Fits(used, cx, cy, w, h, clut) {
      if Loc(cx, cy) >= Loc(x, y) {
        assert cy >= y;
        assert cy == y ==> cx >= x;
      }
    }
  }

  /** Once the scan has left the grid, every candidate has been tried. */
  lemma ScanDone(used: seq<bool>, x: nat, y: nat, w: nat, h: nat, clut: bool)
    requires NoneBefore(used, x, y, w, h, clut) && Loc(x, y) >= VramCells
    ensures NoneFits(used, w, h, clut)
  {
    forall cx: nat, cy: nat | Candidate(cx, cy, clut) ensures !Fits(used, cx, cy, w, h, clut) {
      assert Loc(cx, cy) < Loc(x, y);
    }
  }

  /**
   * FindAvailableSpace: scan the candidate positions row by row and return
   * the first one where the rectangle fits, or report that none does.
   */
  method FindAvailableSpace(used: array<bool>, width: nat, height: nat, clut: bool) returns (found: bool, retX: nat, retY: nat)
    requires used.Length == VramCells
    ensures found ==> FirstFit(used[..], retX, retY, width, height, clut)
    ensures !found ==> NoneFits(used[..], width, height, clut)
  {
    ghost var u := used[..];
    var x: nat, y: nat := 0, 0;
    while Loc(x, y) < VramCells
      invariant x <= VramCols && (clut ==> x % ClutStep == 0)
      invariant NoneBefore(u, x, y, width, height, clut)
      decreases VramCells - Loc(x, y)
    {
      if x == VramCols {
        ScanWrap(u, y, width, height, clut);
        x := 0;
        y := y + 1;
      }
      var ok := TestRect(used, x, y, width, height, clut);
      if ok {
        ScanFound(u, x, y, width, height, clut);
        return true, x, y;
      }
      ScanStep(u, x, y, width, height, clut);
      if clut {
        x := x + ClutStep;
      } else {
        x := x + 1;
      }
      if x + width >= VramCols && y + height >= VramRows {
        ScanPastEnd(u, x, y, width, height, clut);
        return false, 0, 0;
      }
    }
    ScanDone(u, x, y, width, height, clut);
    return false, 0, 0;
  }

  // ---------------------------------------------------------------------
  // Copying a buffer into the grid
  // ---------------------------------------------------------------------

  /** Row-major number of the cell in row `r`, column `c` of a rectangle `w` wide. */
  function Index(w: nat, r: nat, c: nat): nat {
    r * w + c
  }

  /** The grid holds `buffer` row by row, `w` per row, from (x, y) on. */
  ghost predicate Placed<T>(v: seq<T>, buffer: seq<T>, x: nat, y: nat, w: nat) {
    forall r: nat, c: nat :: c < w && Index(w, r, c) < |buffer| ==>
      Cell(x, y, c, r) < |v| && v[Cell(x, y, c, r)] == buffer[Index(w, r, c)]
  }

  /** The first `n` cells of the `w`-wide rectangle at (x, y) are marked taken. */
  ghost predicate Marked(used: seq<bool>, x: nat, y: nat, w: nat, n: nat) {
    forall r: nat, c: nat :: c < w && Index(w, r, c) < n ==> Cell(x, y, c, r) < |used| && used[Cell(x, y, c, r)]
  }

  predicate InRect(px: nat, py: nat, x: nat, y: nat, w: nat, h: nat) {
    x <= px < x + w && y <= py < y + h
  }

  /** Outside the `w` by `h` rectangle at (x, y) neither grid nor bitmap changed. */
  ghost predicate Untouched(g0: seq<u16>, g1: seq<u16>, u0: seq<bool>, u1: seq<bool>, x: nat, y: nat, w: nat, h: nat) {
    && |g0| == |g1| == |u0| == |u1| == VramCells
    && forall px: nat, py: nat :: px < VramCols && py < VramRows && !InRect(px, py, x, y, w, h) ==>
         g1[Loc(px, py)] == g0[Loc(px, py)] && u1[Loc(px, py)] == u0[Loc(px, py)]
  }

  /** Two cells of rectangles that end left of the grid's edge coincide only if their coordinates do. */
  lemma LocInjective(px: nat, py: nat, qx: nat, qy: nat)
    requires px < VramCols && qx < VramCols && Loc(px, py) == Loc(qx, qy)
    ensures px == qx && py == qy
  {
  }

  lemma RowLe(w: nat, r: nat, c: nat, r': nat, c': nat)
    requires c' < w && Index(w, r, c) == Index(w, r', c')
    ensures r <= r'
  {
    RowStep(r', w);
    LessMul(r, r' + 1, w);
  }

  /** A row-major number determines its row and column. */
  lemma IndexUnique(w: nat, r: nat, c: nat, r': nat, c': nat)
    requires c < w && c' < w && Index(w, r, c) == Index(w, r', c')
    ensures r == r' && c == c'
  {
    RowLe(w, r, c, r', c');
    RowLe(w, r', c', r, c);
  }

  /** Distinct cells of a rectangle inside the grid are distinct words. */
  lemma CellsDiffer(x: nat, y: nat, w: nat, r: nat, c: nat, r': nat, c': nat)
    requires c < w && c' < w && x + w <= VramCols && (r != r' || c != c')
    ensures Cell(x, y, c, r) != Cell(x, y, c', r')
  {
  }

  /** Word `Index(w, r, c)` of `buffer` is in cell (x + c, y + r) wherever that cell is in the grid. */
  ghost predicate PlacedIn<T>(v: seq<T>, buffer: seq<T>, x: nat, y: nat, w: nat) {
    forall r: nat, c: nat :: c < w && Index(w, r, c) < |buffer| && Cell(x, y, c, r) < |v| ==>
      v[Cell(x, y, c, r)] == buffer[Index(w, r, c)]
  }

  /** The cells of the first `n` words of the `w`-wide rectangle at (x, y) are marked wherever they are in the grid. */
  ghost predicate MarkedIn(used: seq<bool>, x: nat, y: nat, w: nat, n: nat) {
    forall r: nat, c: nat :: c < w && Index(w, r, c) < n && Cell(x, y, c, r) < |used| ==> used[Cell(x, y, c, r)]
  }

  /** Copying the next word, or dropping it when its cell is past the grid, extends the placed prefix by one. */
  lemma PlaceStep<T>(v: seq<T>, buffer: seq<T>, k: nat, x: nat, y: nat, w: nat, r: nat, c: nat)
    requires k < |buffer| && c < w && x + w <= VramCols && Index(w, r, c) == k
    requires PlacedIn(v, buffer[..k], x, y, w)
    ensures PlacedIn(if Cell(x, y, c, r) < |v| then v[Cell(x, y, c, r) := buffer[k]] else v, buffer[..k + 1], x, y, w)
  {
    var v' := if Cell(x, y, c, r) < |v| then v[Cell(x, y, c, r) := buffer[k]] else v;
    forall r': nat, c': nat | c' < w && Index(w, r', c') < k + 1 && Cell(x, y, c', r') < |v'|
      ensures v'[Cell(x, y, c', r')] == buffer[..k + 1][Index(w, r', c')]
    {
      if Index(w, r', c') == k {
        IndexUnique(w, r, c, r', c');
      } else {
        CellsDiffer(x, y, w, r, c, r', c');
      }
    }
  }

  /** Marking the next cell, or dropping it when it is past the grid, extends the marked prefix by one. */
  lemma MarkStep(used: seq<bool>, k: nat, x: nat, y: nat, w: nat, r: nat, c: nat)
    requires c < w && Index(w, r, c) == k && MarkedIn(used, x, y, w, k)
    ensures MarkedIn(if Cell(x, y, c, r) < |used| then used[Cell(x, y, c, r) := true] else used, x, y, w, k + 1)
  {
    var u' := if Cell(x, y, c, r) < |used| then used[Cell(x, y, c, r) := true] else used;
    forall r': nat, c': nat | c' < w && Index(w, r', c') < k + 1 && Cell(x, y, c', r') < |u'|
      ensures u'[Cell(x, y, c', r')]
    {
      if Index(w, r', c') == k {
        IndexUnique(w, r, c, r', c');
      }
    }
  }

  /** The rows a buffer of `n` words takes at `w` words per row. */
  function RowsOf(n: nat, w: nat): nat
    requires w > 0
  {
    (n + w - 1) / w
  }

  /** A buffer whose last row holds `c` of its `w` words takes `r + 1` rows. */
  lemma CeilRows(n: nat, w: nat, r: nat, c: nat)
    requires 1 <= c <= w && Index(w, r, c) == n
    ensures RowsOf(n, w) == r + 1
  {
    var m := n + w - 1;
    DivMod(w, m);
    RowStep(r, w);
    IndexUnique(w, r + 1, c - 1, m / w, m % w);
  }

  /** A buffer of at most `w * rows` words takes at most `rows` rows. */
  lemma RowsOfBound(n: nat, w: nat, rows: nat)
    requires w > 0 && n <= w * rows
    ensures RowsOf(n, w) <= rows
  {
    var m := n + w - 1;
    DivMod(w, m);
    RowStep(rows, w);
    assert w * rows == rows * w;
    assert (m / w) * w < (rows + 1) * w;
    LessMul(m / w, rows + 1, w);
  }

  /** A number is its quotient and remainder by `w` put back together. */
  lemma DivMod(w: nat, k: nat)
    requires w > 0
    ensures k % w < w && k == Index(w, k / w, k % w)
  {
  }

  /** Every cell of the run of `|buffer|` cells from `start` that is in the grid holds its word and is marked. */
  ghost predicate RunWritten(v: seq<u16>, used: seq<bool>, buffer: seq<u16>, start: nat) {
    && |v| == |used| == VramCells
    && forall k :: 0 <= k < |buffer| && start + k < VramCells ==> v[start + k] == buffer[k] && used[start + k]
  }

  /** Outside the run of `n` cells from `start` neither grid nor bitmap changed. */
  ghost predicate RunKept(g0: seq<u16>, g1: seq<u16>, u0: seq<bool>, u1: seq<bool>, start: nat, n: nat) {
    && |g0| == |g1| == |u0| == |u1| == VramCells
    && forall i :: 0 <= i < VramCells && !(start <= i < start + n) ==> g1[i] == g0[i] && u1[i] == u0[i]
  }

  /** Cell (x + c, y + r) lies in every rectangle at (x, y) wider than `c` and taller than `r`. */
  lemma OutsideRect(x: nat, y: nat, w: nat, c: nat, r: nat)
    requires c < w && x + w <= VramCols
    ensures forall px: nat, py: nat :: px < VramCols && py < VramRows && !InRect(px, py, x, y, w, r + 1) ==>
      Loc(px, py) != Loc(x + c, y + r)
  {
    forall px: nat, py: nat | px < VramCols && py < VramRows && Loc(px, py) == Loc(x + c, y + r)
      ensures InRect(px, py, x, y, w, r + 1)
    {
      LocInjective(px, py, x + c, y + r);
    }
  }

  /** Copying word `k` to cell start + k, or dropping it past the grid, extends the run by one. */
  lemma RunStep(g0: seq<u16>, v: seq<u16>, u0: seq<bool>, u: seq<bool>, buffer: seq<u16>, k: nat, start: nat)
    requires k < |buffer| && RunWritten(v, u, buffer[..k], start) && RunKept(g0, v, u0, u, start, k)
    ensures var i := start + k;
      && RunWritten(if i < VramCells then v[i := buffer[k]] else v, if i < VramCells then u[i := true] else u, buffer[..k + 1], start)
      && RunKept(g0, if i < VramCells then v[i := buffer[k]] else v, u0, if i < VramCells then u[i := true] else u, start, k + 1)
  {
  }

  /**
   * The state of BufferToVRM after `k` words: with `w` positive, the words
   * so far placed and marked wherever they fall in the grid, and nothing
   * changed outside the rows begun; with `w` zero, the run of words so far
   * written from (x, y + 1) and nothing else changed.  `relWidth` and
   * `relHeight` are the source's column and row counters.
   */
  ghost predicate Copying(g0: seq<u16>, u0: seq<bool>, v: seq<u16>, u: seq<bool>, buffer: seq<u16>,
                          x: nat, y: nat, w: nat, k: nat, relWidth: nat, relHeight: nat) {
    && k <= |buffer| && |v| == |u| == |g0| == |u0| == VramCells
    && (k == 0 ==> relWidth == 0 && relHeight == 0)
    && (w > 0 && k > 0 ==> 1 <= relWidth <= w && Index(w, relHeight, relWidth) == k)
    && (w > 0 ==> PlacedIn(v, buffer[..k], x, y, w) && MarkedIn(u, x, y, w, k))
    && (w > 0 ==> Untouched(g0, v, u0, u, x, y, w, if k == 0 then 0 else relHeight + 1))
    && (w == 0 && k > 0 ==> relWidth == k && relHeight == 1)
    && (w == 0 ==> RunWritten(v, u, buffer[..k], Loc(x, y + 1)) && RunKept(g0, v, u0, u, Loc(x, y + 1), k))
  }

  /** One turn of BufferToVRM's loop: word `k` copied to the cell the counters name, or dropped past the grid. */
  lemma CopyStep(g0: seq<u16>, u0: seq<bool>, v: seq<u16>, u: seq<bool>, v': seq<u16>, u': seq<bool>, buffer: seq<u16>,
                 x: nat, y: nat, w: nat, k: nat, relWidth: nat, relHeight: nat, c: nat, r: nat, k': nat, c': nat)
    requires Copying(g0, u0, v, u, buffer, x, y, w, k, relWidth, relHeight) && k < |buffer| && x + w <= VramCols
    requires (c, r) == if relWidth == w then (0, relHeight + 1) else (relWidth, relHeight)
    requires var coord := Loc(x + c, y + r);
      && v' == (if coord < VramCells then v[coord := buffer[k]] else v)
      && u' == (if coord < VramCells then u[coord := true] else u)
    requires k' == k + 1 && c' == c + 1
    ensures Copying(g0, u0, v', u', buffer, x, y, w, k', c', r)
  {
    var coord := Loc(x + c, y + r);
    if w > 0 {
      if relWidth == w {
        RowStep(relHeight, w);
      }
      assert Cell(x, y, c, r) == coord;
      PlaceStep(v, buffer, k, x, y, w, r, c);
      MarkStep(u, k, x, y, w, r, c);
      UntouchedStep(g0, v, v', u0, u, u', x, y, w, c, r, if k == 0 then 0 else relHeight + 1);
      RowStep(r, w);
    } else {
      assert coord == Loc(x, y + 1) + k;
      RunStep(g0, v, u0, u, buffer, k, Loc(x, y + 1));
    }
  }

  /** Writing cell (x + c, y + r) keeps untouched what lies outside the rectangle down to row r. */
  lemma UntouchedStep(g0: seq<u16>, v: seq<u16>, v': seq<u16>, u0: seq<bool>, u: seq<bool>, u': seq<bool>,
                      x: nat, y: nat, w: nat, c: nat, r: nat, rows: nat)
    requires c < w && x + w <= VramCols && |v'| == |u'| == VramCells
    requires rows <= r + 1 && Untouched(g0, v, u0, u, x, y, w, rows)
    requires forall i :: 0 <= i < VramCells && i != Loc(x + c, y + r) ==> v'[i] == v[i] && u'[i] == u[i]
    ensures Untouched(g0, v', u0, u', x, y, w, r + 1)
  {
    OutsideRect(x, y, w, c, r);
  }

  /** After the last word, the state is what BufferToVRM promises. */
  lemma CopyDone(g0: seq<u16>, u0: seq<bool>, v: seq<u16>, u: seq<bool>, buffer: seq<u16>,
                 x: nat, y: nat, w: nat, relWidth: nat, relHeight: nat)
    requires Copying(g0, u0, v, u, buffer, x, y, w, |buffer|, relWidth, relHeight)
    ensures w > 0 ==> PlacedIn(v, buffer, x, y, w) && MarkedIn(u, x, y, w, |buffer|)
    ensures w > 0 ==> Untouched(g0, v, u0, u, x, y, w, RowsOf(|buffer|, w))
    ensures w == 0 ==> RunWritten(v, u, buffer, Loc(x, y + 1)) && RunKept(g0, v, u0, u, Loc(x, y + 1), |buffer|)
  {
    assert buffer[..|buffer|] == buffer;
    if w > 0 && |buffer| > 0 {
      CeilRows(|buffer|, w, relHeight, relWidth);
    }
  }

  /**
   * BufferToVRM: copy `buffer` into the grid row by row, `width` words per
   * row, from (x, y) on, and mark the cells taken, for as many rows as the
   * buffer needs; a word whose cell is past the end of the grid is dropped.
   * With `width` zero the row counter moves on once, before the first word,
   * and the column never goes back, so the words run on from (x, y + 1)
   * through the grid's word order.
   */
  method BufferToVram(vram: array<u16>, used: array<bool>, buffer: seq<u16>, x: nat, y: nat, width: nat)
    requires vram.Length == VramCells && used.Length == VramCells && x + width <= VramCols
    modifies vram, used
    ensures width > 0 ==> PlacedIn(vram[..], buffer, x, y, width) && MarkedIn(used[..], x, y, width, |buffer|)
    ensures width > 0 ==> Untouched(old(vram[..]), vram[..], old(used[..]), used[..], x, y, width, RowsOf(|buffer|, width))
    ensures width == 0 ==> RunWritten(vram[..], used[..], buffer, Loc(x, y + 1))
    ensures width == 0 ==> RunKept(old(vram[..]), vram[..], old(used[..]), used[..], Loc(x, y + 1), |buffer|)
  {
    var relWidth, relHeight := 0, 0;
    var k := 0;
    while k < |buffer|
      invariant Copying(old(vram[..]), old(used[..]), vram[..], used[..], buffer, x, y, width, k, relWidth, relHeight)
      decreases |buffer| - k
    {
      ghost var v, u, c0, r0 := vram[..], used[..], relWidth, relHeight;
      if relWidth == width {
        relWidth := 0;
        relHeight := relHeight + 1;
      }
      var coord := Loc(x + relWidth, y + relHeight);
      if coord < VramCells {
        vram[coord] := buffer[k];
        used[coord] := true;
        assert vram[..] == v[coord := buffer[k]];
        assert used[..] == u[coord := true];
      }
      ghost var k0, c := k, relWidth;
      relWidth := relWidth + 1;
      k := k + 1;
      CopyStep(old(vram[..]), old(used[..]), v, u, vram[..], used[..], buffer, x, y, width, k0, c0, r0, c, relHeight, k, relWidth);
    }
    CopyDone(old(vram[..]), old(used[..]), vram[..], used[..], buffer, x, y, width, relWidth, relHeight);
  }

  /**
   * When the buffer fits the `width` by `rows` rectangle at (x, y), and the
   * rectangle lies inside the grid, BufferToVRM places the buffer in it row
   * by row, marks its cells and changes nothing outside it.
   */
  lemma WritesInRect(g0: seq<u16>, g1: seq<u16>, u0: seq<bool>, u1: seq<bool>, buffer: seq<u16>,
                     x: nat, y: nat, width: nat, rows: nat)
    requires width > 0 && |buffer| <= width * rows && x + width <= VramCols && y + rows <= VramRows
    requires PlacedIn(g1, buffer, x, y, width) && MarkedIn(u1, x, y, width, |buffer|)
    requires Untouched(g0, g1, u0, u1, x, y, width, RowsOf(|buffer|, width))
    ensures Placed(g1, buffer, x, y, width) && Marked(u1, x, y, width, |buffer|)
    ensures Untouched(g0, g1, u0, u1, x, y, width, rows)
  {
    RowsOfBound(|buffer|, width, rows);
    forall r: nat, c: nat | c < width && Index(width, r, c) < |buffer|
      ensures Cell(x, y, c, r) < |g1| && Cell(x, y, c, r) < |u1|
    {
      RowBelow(r, c, width, rows);
    }
  }
}
