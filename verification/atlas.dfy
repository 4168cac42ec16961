// The glyph atlas (core/include/tcBitmapFont.h): an RGBA picture drawn in place,
// glyph by glyph, and the picture it stands for, pixel by pixel.
module Atlas {
  import opened Basics
  import opened Glyphs

  // ---- pixels, numbered row by row ----

  function X(p: nat): nat { p % ATLAS_WIDTH }

  function Y(p: nat): nat { p / ATLAS_WIDTH }

  lemma PixelAt(p: nat, x: int, y: int)
    ensures 0 <= x < ATLAS_WIDTH && 0 <= y ==> (X(p) == x && Y(p) == y <==> p == y * ATLAS_WIDTH + x)
  {
  }

  /** White, and opaque or not: a pixel takes no other value. */
  predicate Shows(a: array<int>, p: nat, lit: bool)
    reads a
  {
    && 4 * p + 3 < a.Length
    && a[4 * p] == 255 && a[4 * p + 1] == 255 && a[4 * p + 2] == 255
    && a[4 * p + 3] == if lit then 255 else 0
  }

  /** The picture of height `h` whose opaque pixels are `lit`. */
  ghost predicate Drawn(a: array<int>, h: nat, lit: set<nat>)
    reads a
  {
    && a.Length == 4 * (ATLAS_WIDTH * h)
    && forall p: nat {:trigger Shows(a, p, p in lit)} :: p < ATLAS_WIDTH * h ==> Shows(a, p, p in lit)
  }

  function Point(x: int, y: int, h: nat): set<nat> {
    if 0 <= x < ATLAS_WIDTH && 0 <= y < h then {y * ATLAS_WIDTH + x} else {}
  }

  method WritePixel(a: array<int>, h: nat, x: int, y: int, ghost lit: set<nat>)
    requires Drawn(a, h, lit)
    modifies a
    ensures Drawn(a, h, lit + Point(x, y, h))
  {
    if x < 0 || x >= ATLAS_WIDTH || y < 0 || y >= h {
      assert lit + {} == lit;
      return;
    }
    var i := (y * ATLAS_WIDTH + x) * 4;
    a[i + 0] := 255;
    a[i + 1] := 255;
    a[i + 2] := 255;
    a[i + 3] := 255;
    forall p: nat | p < ATLAS_WIDTH * h ensures Shows(a, p, p in lit + Point(x, y, h)) {
      assert old(Shows(a, p, p in lit));
    }
  }

  // ---- one row of a glyph ----

  /** Bits of a glyph row, at most `cols` of them, drawn from (x, y) on. */
  predicate RowLit(bits: RowBits, x: int, y: int, cols: nat, p: nat) {
    Y(p) == y && 0 <= X(p) - x < 8 && X(p) - x < cols && bits[X(p) - x]
  }

  ghost function RowPoints(bits: RowBits, x: int, y: int, cols: nat, h: nat): set<nat> {
    set p: nat | p < ATLAS_WIDTH * h && RowLit(bits, x, y, cols, p)
  }

  lemma RowStep(bits: RowBits, x: int, y: int, col: nat, h: nat)
    requires col < 8
    ensures RowPoints(bits, x, y, col + 1, h) == RowPoints(bits, x, y, col, h) + if bits[col] then Point(x + col, y, h) else {}
  {
    forall p: nat | p < ATLAS_WIDTH * h
      ensures RowLit(bits, x, y, col + 1, p) <==> RowLit(bits, x, y, col, p) || (bits[col] && p in Point(x + col, y, h))
    {
      PixelAt(p, x + col, y);
    }
    if 0 <= x + col < ATLAS_WIDTH && 0 <= y < h {
      assert y * ATLAS_WIDTH + x + col < ATLAS_WIDTH * h;
    }
  }

  method RasterRow(a: array<int>, h: nat, bits: RowBits, x: int, y: int, ghost lit: set<nat>)
    requires Drawn(a, h, lit)
    modifies a
    ensures Drawn(a, h, lit + RowPoints(bits, x, y, 8, h))
  {
    assert lit + RowPoints(bits, x, y, 0, h) == lit;
    for col := 0 to 8
      invariant Drawn(a, h, lit + RowPoints(bits, x, y, col, h))
    {
      RowStep(bits, x, y, col, h);
      ghost var on := lit + RowPoints(bits, x, y, col, h);
      if bits[col] {
        WritePixel(a, h, x + col, y, on);
      } else {
        assert on + {} == on;
      }
      assert lit + RowPoints(bits, x, y, col + 1, h) == on + if bits[col] then Point(x + col, y, h) else {};
    }
  }

  // ---- whole glyphs, `rows` rows of them ----

  /** A halfwidth glyph, one pixel row below the top of its cell. */
  predicate HalfLit(data: seq<RowBits>, x: int, y: int, rows: nat, p: nat)
    requires rows <= |data|
  {
    1 <= Y(p) - y <= rows && 0 <= X(p) - x < 8 && data[Y(p) - y - 1][X(p) - x]
  }

  ghost function HalfPoints(data: seq<RowBits>, x: int, y: int, rows: nat, h: nat): set<nat>
    requires rows <= |data|
  {
    set p: nat | p < ATLAS_WIDTH * h && HalfLit(data, x, y, rows, p)
  }

  lemma HalfStep(data: seq<RowBits>, x: int, y: int, row: nat, h: nat)
    requires row < |data|
    ensures HalfPoints(data, x, y, row + 1, h) == HalfPoints(data, x, y, row, h) + RowPoints(data[row], x, y + row + 1, 8, h)
  {
  }

  method RasterPackedHalf(a: array<int>, h: nat, data: seq<RowBits>, x: int, y: int, ghost lit: set<nat>)
    requires Drawn(a, h, lit) && |data| == CHAR_HEIGHT
    modifies a
    ensures Drawn(a, h, lit + HalfPoints(data, x, y, CHAR_HEIGHT, h))
  {
    assert lit + HalfPoints(data, x, y, 0, h) == lit;
    for row := 0 to CHAR_HEIGHT
      invariant Drawn(a, h, lit + HalfPoints(data, x, y, row, h))
    {
      HalfStep(data, x, y, row, h);
      ghost var on := lit + HalfPoints(data, x, y, row, h);
      RasterRow(a, h, data[row], x, y + row + 1, on);
      assert lit + HalfPoints(data, x, y, row + 1, h) == on + RowPoints(data[row], x, y + row + 1, 8, h);
    }
  }

  /** A fullwidth glyph: two bytes a row. */
  predicate FullLit(data: seq<RowBits>, x: int, y: int, rows: nat, p: nat)
    requires 2 * rows <= |data|
  {
    1 <= Y(p) - y <= rows && 0 <= X(p) - x < 16 &&
    if X(p) - x < 8 then data[2 * (Y(p) - y - 1)][X(p) - x] else data[2 * (Y(p) - y - 1) + 1][X(p) - x - 8]
  }

  ghost function FullPoints(data: seq<RowBits>, x: int, y: int, rows: nat, h: nat): set<nat>
    requires 2 * rows <= |data|
  {
    set p: nat | p < ATLAS_WIDTH * h && FullLit(data, x, y, rows, p)
  }

  lemma FullStep(data: seq<RowBits>, x: int, y: int, row: nat, h: nat)
    requires 2 * row + 1 < |data|
    ensures FullPoints(data, x, y, row + 1, h) ==
            FullPoints(data, x, y, row, h) + PairPoints(data[2 * row], data[2 * row + 1], x, y + row + 1, 8, h)
  {
  }

  method RasterPackedFull(a: array<int>, h: nat, data: seq<RowBits>, x: int, y: int, ghost lit: set<nat>)
    requires Drawn(a, h, lit) && |data| == 2 * CHAR_HEIGHT
    modifies a
    ensures Drawn(a, h, lit + FullPoints(data, x, y, CHAR_HEIGHT, h))
  {
    assert lit + FullPoints(data, x, y, 0, h) == lit;
    for row := 0 to CHAR_HEIGHT
      invariant Drawn(a, h, lit + FullPoints(data, x, y, row, h))
    {
      FullStep(data, x, y, row, h);
      ghost var on := lit + FullPoints(data, x, y, row, h);
      RasterRowPair(a, h, data[2 * row], data[2 * row + 1], x, y + row + 1, on);
      assert lit + FullPoints(data, x, y, row + 1, h) ==
             on + PairPoints(data[2 * row], data[2 * row + 1], x, y + row + 1, 8, h);
    }
  }

  ghost function PairPoints(lo: RowBits, hi: RowBits, x: int, y: int, cols: nat, h: nat): set<nat> {
    RowPoints(lo, x, y, cols, h) + RowPoints(hi, x + 8, y, cols, h)
  }

  lemma PairStep(lo: RowBits, hi: RowBits, x: int, y: int, col: nat, h: nat)
    requires col < 8
    ensures PairPoints(lo, hi, x, y, col + 1, h) == PairPoints(lo, hi, x, y, col, h)
            + (if lo[col] then Point(x + col, y, h) else {}) + (if hi[col] then Point(x + 8 + col, y, h) else {})
  {
    RowStep(lo, x, y, col, h);
    RowStep(hi, x + 8, y, col, h);
  }

  /** The two bytes of a row are drawn column by column. */
  method RasterRowPair(a: array<int>, h: nat, lo: RowBits, hi: RowBits, x: int, y: int, ghost lit: set<nat>)
    requires Drawn(a, h, lit)
    modifies a
    ensures Drawn(a, h, lit + PairPoints(lo, hi, x, y, 8, h))
  {
    assert lit + PairPoints(lo, hi, x, y, 0, h) == lit;
    for col := 0 to 8
      invariant Drawn(a, h, lit + PairPoints(lo, hi, x, y, col, h))
    {
      PairStep(lo, hi, x, y, col, h);
      ghost var on := lit + PairPoints(lo, hi, x, y, col, h);
      ghost var left, right := if lo[col] then Point(x + col, y, h) else {}, if hi[col] then Point(x + 8 + col, y, h) else {};
      PixelIf(a, h, lo[col], x + col, y, on);
      PixelIf(a, h, hi[col], x + 8 + col, y, on + left);
      assert lit + PairPoints(lo, hi, x, y, col + 1, h) == on + left + right;
    }
  }

  method PixelIf(a: array<int>, h: nat, bit: bool, x: int, y: int, ghost lit: set<nat>)
    requires Drawn(a, h, lit)
    modifies a
    ensures Drawn(a, h, lit + if bit then Point(x, y, h) else {})
  {
    if bit {
      WritePixel(a, h, x, y, lit);
    } else {
      assert lit + {} == lit;
    }
  }

  // ---- the tofu box ----

  predicate TofuLit(x: int, y: int, p: nat) {
    var dx, dy := X(p) - x, Y(p) - y;
    || (1 <= dx < CELL_W - 1 && (dy == 2 || dy == CELL_H - 3))
    || (2 <= dy < CELL_H - 2 && (dx == 1 || dx == CELL_W - 2))
  }

  ghost function TofuPoints(x: int, y: int, h: nat): set<nat> {
    set p: nat | p < ATLAS_WIDTH * h && TofuLit(x, y, p)
  }

  ghost function Bars(x: int, y: int, upTo: int, h: nat): set<nat> {
    set p: nat | p < ATLAS_WIDTH * h && 1 <= X(p) - x < upTo && (Y(p) - y == 2 || Y(p) - y == CELL_H - 3)
  }

  ghost function Sides(x: int, y: int, upTo: int, h: nat): set<nat> {
    set p: nat | p < ATLAS_WIDTH * h && 2 <= Y(p) - y < upTo && (X(p) - x == 1 || X(p) - x == CELL_W - 2)
  }

  method RasterTofu(a: array<int>, h: nat, x: nat, y: nat, ghost lit: set<nat>)
    requires Drawn(a, h, lit) && x + CELL_W <= ATLAS_WIDTH && y + CELL_H <= h
    modifies a
    ensures Drawn(a, h, lit + TofuPoints(x, y, h))
  {
    RasterBars(a, h, x, y, lit);
    RasterSides(a, h, x, y, lit + Bars(x, y, CELL_W - 1, h));
    assert lit + Bars(x, y, CELL_W - 1, h) + Sides(x, y, CELL_H - 2, h) == lit + TofuPoints(x, y, h);
  }

  method RasterBars(a: array<int>, h: nat, x: nat, y: nat, ghost lit: set<nat>)
    requires Drawn(a, h, lit) && x + CELL_W <= ATLAS_WIDTH && y + CELL_H <= h
    modifies a
    ensures Drawn(a, h, lit + Bars(x, y, CELL_W - 1, h))
  {
    assert lit + Bars(x, y, 1, h) == lit;
    for i := 1 to CELL_W - 1
      invariant Drawn(a, h, lit + Bars(x, y, i, h))
    {
      ghost var on := lit + Bars(x, y, i, h);
      WritePixel(a, h, x + i, y + 2, on);
      WritePixel(a, h, x + i, y + CELL_H - 3, on + Point(x + i, y + 2, h));
      BarStep(x, y, i, h);
      assert lit + Bars(x, y, i + 1, h) == on + Point(x + i, y + 2, h) + Point(x + i, y + CELL_H - 3, h);
    }
  }

  method RasterSides(a: array<int>, h: nat, x: nat, y: nat, ghost lit: set<nat>)
    requires Drawn(a, h, lit) && x + CELL_W <= ATLAS_WIDTH && y + CELL_H <= h
    modifies a
    ensures Drawn(a, h, lit + Sides(x, y, CELL_H - 2, h))
  {
    assert lit + Sides(x, y, 2, h) == lit;
    for i := 2 to CELL_H - 2
      invariant Drawn(a, h, lit + Sides(x, y, i, h))
    {
      ghost var on := lit + Sides(x, y, i, h);
      WritePixel(a, h, x + 1, y + i, on);
      WritePixel(a, h, x + CELL_W - 2, y + i, on + Point(x + 1, y + i, h));
      SideStep(x, y, i, h);
      assert lit + Sides(x, y, i + 1, h) == on + Point(x + 1, y + i, h) + Point(x + CELL_W - 2, y + i, h);
    }
  }

  lemma BarStep(x: nat, y: nat, i: nat, h: nat)
    requires 1 <= i && x + i < ATLAS_WIDTH && y + CELL_H <= h
    ensures Bars(x, y, i + 1, h) == Bars(x, y, i, h) + Point(x + i, y + 2, h) + Point(x + i, y + CELL_H - 3, h)
  {
    forall p: nat | p < ATLAS_WIDTH * h
      ensures p in Bars(x, y, i + 1, h) <==>
              p in Bars(x, y, i, h) || p in Point(x + i, y + 2, h) || p in Point(x + i, y + CELL_H - 3, h)
    {
      PixelAt(p, x + i, y + 2);
      PixelAt(p, x + i, y + CELL_H - 3);
    }
  }

  lemma SideStep(x: nat, y: nat, i: nat, h: nat)
    requires 2 <= i && x + CELL_W <= ATLAS_WIDTH && y + i < h
    ensures Sides(x, y, i + 1, h) == Sides(x, y, i, h) + Point(x + 1, y + i, h) + Point(x + CELL_W - 2, y + i, h)
  {
    forall p: nat | p < ATLAS_WIDTH * h
      ensures p in Sides(x, y, i + 1, h) <==>
              p in Sides(x, y, i, h) || p in Point(x + 1, y + i, h) || p in Point(x + CELL_W - 2, y + i, h)
    {
      PixelAt(p, x + 1, y + i);
      PixelAt(p, x + CELL_W - 2, y + i);
    }
  }

  // ---- the picture, cell by cell ----

  /** The cell a pixel lies in, and where in it. */
  function CellIndex(p: nat): nat {
    Y(p) / CELL_H * CELLS_PER_ROW + X(p) / CELL_W
  }

  function Dx(p: nat): nat { X(p) % CELL_W }

  function Dy(p: nat): nat { Y(p) % CELL_H }

  /** A glyph's bit for a pixel of its `k`-th cell. */
  predicate CellBit(data: seq<RowBits>, width: nat, k: nat, p: nat)
    requires k < width && |data| == CHAR_HEIGHT * width && (width == 1 || width == 2)
  {
    1 <= Dy(p) <= CHAR_HEIGHT && data[if width == 1 then Dy(p) - 1 else 2 * (Dy(p) - 1) + k][Dx(p)]
  }

  /** The 95 printable ASCII glyphs. */
  ghost predicate FontOk(font: seq<seq<RowBits>>) {
    |font| == TOFU_CELL && forall i :: 0 <= i < TOFU_CELL ==> |font[i]| == CHAR_HEIGHT
  }

  predicate AsciiLit(font: seq<seq<RowBits>>, p: nat)
    requires FontOk(font)
  {
    CellIndex(p) < TOFU_CELL && CellBit(font[CellIndex(p)], 1, 0, p)
  }

  predicate BoxLit(p: nat) {
    CellIndex(p) == TOFU_CELL &&
    (|| (1 <= Dx(p) < CELL_W - 1 && (Dy(p) == 2 || Dy(p) == CELL_H - 3))
     || (2 <= Dy(p) < CELL_H - 2 && (Dx(p) == 1 || Dx(p) == CELL_W - 2)))
  }

  predicate GlyphLit(g: StoredGlyph, p: nat) {
    (g.width == 1 || g.width == 2) && |g.data| == CHAR_HEIGHT * g.width &&
    g.cellStart <= CellIndex(p) < g.cellStart + g.width && CellBit(g.data, g.width, CellIndex(p) - g.cellStart, p)
  }

  lemma HalfIsCell(data: seq<RowBits>, cell: nat, p: nat)
    requires |data| == CHAR_HEIGHT
    ensures HalfLit(data, cell % CELLS_PER_ROW * CELL_W, cell / CELLS_PER_ROW * CELL_H, CHAR_HEIGHT, p) <==>
            CellIndex(p) == cell && CellBit(data, 1, 0, p)
  {
  }

  lemma FullIsCells(data: seq<RowBits>, cell: nat, p: nat)
    requires |data| == 2 * CHAR_HEIGHT && cell % 2 == 0
    ensures FullLit(data, cell % CELLS_PER_ROW * CELL_W, cell / CELLS_PER_ROW * CELL_H, CHAR_HEIGHT, p) <==>
            cell <= CellIndex(p) < cell + 2 && CellBit(data, 2, CellIndex(p) - cell, p)
  {
  }

  lemma TofuIsBox(p: nat)
    ensures TofuLit(TOFU_CELL % CELLS_PER_ROW * CELL_W, TOFU_CELL / CELLS_PER_ROW * CELL_H, p) <==> BoxLit(p)
  {
  }

  /** A cell whose row the atlas does not have has no pixel in it. */
  lemma RowMissing(cell: nat, h: nat, p: nat)
    requires p < ATLAS_WIDTH * h && cell / CELLS_PER_ROW * CELL_H + CELL_H > h && h % CELL_H == 0
    ensures CellIndex(p) < cell / CELLS_PER_ROW * CELLS_PER_ROW
  {
  }

  predicate AnyGlyph(glyphs: seq<StoredGlyph>, p: nat) {
    glyphs != [] && (AnyGlyph(glyphs[..|glyphs| - 1], p) || GlyphLit(glyphs[|glyphs| - 1], p))
  }

  /** The picture: which pixels the ASCII glyphs, the tofu box and the registered glyphs light. */
  predicate Lit(font: seq<seq<RowBits>>, glyphs: seq<StoredGlyph>, p: nat)
    requires FontOk(font)
  {
    AsciiLit(font, p) || BoxLit(p) || AnyGlyph(glyphs, p)
  }

  ghost function AsciiPoints(font: seq<seq<RowBits>>, upTo: nat, h: nat): set<nat>
    requires FontOk(font)
  {
    set p: nat | p < ATLAS_WIDTH * h && CellIndex(p) < upTo && AsciiLit(font, p)
  }

  ghost function GlyphPoints(glyphs: seq<StoredGlyph>, h: nat): set<nat> {
    set p: nat | p < ATLAS_WIDTH * h && AnyGlyph(glyphs, p)
  }

  lemma AsciiStep(font: seq<seq<RowBits>>, cell: nat, h: nat)
    requires FontOk(font) && cell < TOFU_CELL && h % CELL_H == 0
    ensures AsciiPoints(font, cell + 1, h) == AsciiPoints(font, cell, h) +
            if cell / CELLS_PER_ROW * CELL_H + CELL_H > h then {}
            else HalfPoints(font[cell], cell % CELLS_PER_ROW * CELL_W, cell / CELLS_PER_ROW * CELL_H, CHAR_HEIGHT, h)
  {
    forall p: nat | p < ATLAS_WIDTH * h
      ensures p in AsciiPoints(font, cell + 1, h) <==>
              (|| p in AsciiPoints(font, cell, h)
               || (cell / CELLS_PER_ROW * CELL_H + CELL_H <= h &&
                   HalfLit(font[cell], cell % CELLS_PER_ROW * CELL_W, cell / CELLS_PER_ROW * CELL_H, CHAR_HEIGHT, p)))
    {
      HalfIsCell(font[cell], cell, p);
      if cell / CELLS_PER_ROW * CELL_H + CELL_H > h {
        RowMissing(cell, h, p);
      }
    }
  }

  method DrawAscii(a: array<int>, h: nat, font: seq<seq<RowBits>>)
    requires FontOk(font) && h % CELL_H == 0 && Drawn(a, h, {})
    modifies a
    ensures Drawn(a, h, AsciiPoints(font, TOFU_CELL, h))
  {
    assert AsciiPoints(font, 0, h) == {};
    for cp := 0x20 to 0x7F
      invariant Drawn(a, h, AsciiPoints(font, cp - 0x20, h))
    {
      var cell := cp - 0x20;
      AsciiStep(font, cell, h);
      var cy := cell / CELLS_PER_ROW * CELL_H;
      if cy + CELL_H > h {
        assert AsciiPoints(font, cell, h) + {} == AsciiPoints(font, cell, h);
        continue;
      }
      var cx := cell % CELLS_PER_ROW * CELL_W;
      RasterPackedHalf(a, h, font[cell], cx, cy, AsciiPoints(font, cell, h));
    }
  }

  method DrawTofu(a: array<int>, h: nat, ghost lit: set<nat>)
    requires h % CELL_H == 0 && Drawn(a, h, lit)
    modifies a
    ensures Drawn(a, h, lit + BoxPoints(h))
  {
    var tcx := TOFU_CELL % CELLS_PER_ROW * CELL_W;
    var tcy := TOFU_CELL / CELLS_PER_ROW * CELL_H;
    BoxIsTofu(h);
    if tcy + CELL_H <= h {
      RasterTofu(a, h, tcx, tcy, lit);
    } else {
      assert lit + {} == lit;
    }
  }

  ghost function BoxPoints(h: nat): set<nat> {
    set p: nat | p < ATLAS_WIDTH * h && BoxLit(p)
  }

  lemma BoxIsTofu(h: nat)
    requires h % CELL_H == 0
    ensures BoxPoints(h) == if TOFU_CELL / CELLS_PER_ROW * CELL_H + CELL_H <= h
                            then TofuPoints(TOFU_CELL % CELLS_PER_ROW * CELL_W, TOFU_CELL / CELLS_PER_ROW * CELL_H, h) else {}
  {
    forall p: nat | p < ATLAS_WIDTH * h
      ensures BoxLit(p) <==> TofuLit(TOFU_CELL % CELLS_PER_ROW * CELL_W, TOFU_CELL / CELLS_PER_ROW * CELL_H, p)
      ensures TOFU_CELL / CELLS_PER_ROW * CELL_H + CELL_H > h ==> !BoxLit(p)
    {
      TofuIsBox(p);
      if TOFU_CELL / CELLS_PER_ROW * CELL_H + CELL_H > h {
        RowMissing(TOFU_CELL, h, p);
      }
    }
  }

  /** What one stored glyph adds; nothing if its row is missing. */
  ghost function Added(g: StoredGlyph, h: nat): set<nat>
    requires (g.width == 1 || g.width == 2) && |g.data| == CHAR_HEIGHT * g.width
  {
    var x, y := g.cellStart % CELLS_PER_ROW * CELL_W, g.cellStart / CELLS_PER_ROW * CELL_H;
    if y + CELL_H > h then {}
    else if g.width == 1 then HalfPoints(g.data, x, y, CHAR_HEIGHT, h)
    else FullPoints(g.data, x, y, CHAR_HEIGHT, h)
  }

  lemma AddedIsLit(g: StoredGlyph, next: nat, h: nat, p: nat)
    requires InCells(g, next) && p < ATLAS_WIDTH * h && h % CELL_H == 0
    ensures p in Added(g, h) <==> GlyphLit(g, p)
  {
    if g.width == 1 {
      HalfIsCell(g.data, g.cellStart, p);
    } else {
      FullIsCells(g.data, g.cellStart, p);
    }
    if g.cellStart / CELLS_PER_ROW * CELL_H + CELL_H > h {
      RowMissing(g.cellStart, h, p);
    }
  }

  lemma GlyphStep(glyphs: seq<StoredGlyph>, i: nat, next: nat, h: nat)
    requires i < |glyphs| && InCells(glyphs[i], next) && h % CELL_H == 0
    ensures GlyphPoints(glyphs[..i + 1], h) == GlyphPoints(glyphs[..i], h) + Added(glyphs[i], h)
  {
    assert glyphs[..i + 1][..i] == glyphs[..i];
    forall p: nat | p < ATLAS_WIDTH * h
      ensures AnyGlyph(glyphs[..i + 1], p) <==> AnyGlyph(glyphs[..i], p) || p in Added(glyphs[i], h)
    {
      AddedIsLit(glyphs[i], next, h, p);
    }
    if h > 0 {
      AddedInPicture(glyphs[i], h);
    }
  }

  lemma AddedInPicture(g: StoredGlyph, h: nat)
    requires (g.width == 1 || g.width == 2) && |g.data| == CHAR_HEIGHT * g.width
    ensures forall p :: p in Added(g, h) ==> 0 <= p < ATLAS_WIDTH * h
  {
  }

  method DrawGlyph(a: array<int>, h: nat, sg: StoredGlyph, ghost lit: set<nat>)
    requires (sg.width == 1 || sg.width == 2) && |sg.data| == CHAR_HEIGHT * sg.width && Drawn(a, h, lit)
    modifies a
    ensures Drawn(a, h, lit + Added(sg, h))
  {
    var cy := sg.cellStart / CELLS_PER_ROW * CELL_H;
    if cy + CELL_H > h {
      assert lit + {} == lit;
      return;
    }
    var cx := sg.cellStart % CELLS_PER_ROW * CELL_W;
    if sg.width == 1 {
      RasterPackedHalf(a, h, sg.data, cx, cy, lit);
    } else {
      RasterPackedFull(a, h, sg.data, cx, cy, lit);
    }
  }

  method DrawRegistered(a: array<int>, h: nat, glyphs: seq<StoredGlyph>, ghost next: nat, ghost lit: set<nat>)
    requires StoreOk(glyphs, next) && h % CELL_H == 0 && Drawn(a, h, lit)
    modifies a
    ensures Drawn(a, h, lit + GlyphPoints(glyphs, h))
  {
    assert lit + GlyphPoints(glyphs[..0], h) == lit;
    for i := 0 to |glyphs|
      invariant Drawn(a, h, lit + GlyphPoints(glyphs[..i], h))
    {
      LookupAt(glyphs, i);
      GlyphStep(glyphs, i, next, h);
      DrawGlyph(a, h, glyphs[i], lit + GlyphPoints(glyphs[..i], h));
      assert lit + GlyphPoints(glyphs[..i + 1], h) == lit + GlyphPoints(glyphs[..i], h) + Added(glyphs[i], h);
    }
    assert glyphs[..|glyphs|] == glyphs;
  }

  method Blank(h: nat) returns (a: array<int>)
    ensures fresh(a) && Drawn(a, h, {})
  {
    a := new int[4 * (ATLAS_WIDTH * h)];
    BlankAll(a, ATLAS_WIDTH * h);
    ghost var none: set<nat> := {};
    forall p: nat | p < ATLAS_WIDTH * h ensures Shows(a, p, p in none) {
      assert Shows(a, p, false);
    }
  }

  method BlankAll(a: array<int>, ghost count: nat)
    requires a.Length == 4 * count
    modifies a
    ensures forall p: nat {:trigger Shows(a, p, false)} :: p < count ==> Shows(a, p, false)
  {
    var i := 0;
    ghost var done := 0;
    while i < a.Length
      invariant i == 4 * done && done <= count
      invariant forall p: nat {:trigger Shows(a, p, false)} :: p < done ==> Shows(a, p, false)
    {
      BlankPixel(a, i, done);
      i := i + 4;
      done := done + 1;
    }
  }

  method BlankPixel(a: array<int>, i: nat, ghost done: nat)
    requires i == 4 * done && i + 4 <= a.Length
    requires forall p: nat {:trigger Shows(a, p, false)} :: p < done ==> Shows(a, p, false)
    modifies a
    ensures forall p: nat {:trigger Shows(a, p, false)} :: p < done + 1 ==> Shows(a, p, false)
  {
    a[i + 0] := 255;
    a[i + 1] := 255;
    a[i + 2] := 255;
    a[i + 3] := 0;
    forall p: nat | p < done + 1 ensures Shows(a, p, false) {
      if p < done {
        assert old(Shows(a, p, false));
      }
    }
  }

  function Height(rows: int): nat {
    if rows <= 0 then 0 else if rows > CELLS_PER_COL then CELLS_PER_COL * CELL_H else rows * CELL_H
  }

  /** An atlas of at most 32 rows of cells; nothing for no rows. */
  method GenerateAtlasPixels(font: seq<seq<RowBits>>, reg: GlyphRegistry, rows: int) returns (a: array?<int>)
    requires FontOk(font) && reg.Valid()
    ensures a == null <==> rows <= 0
    ensures a != null ==> fresh(a) && a.Length == 4 * (ATLAS_WIDTH * Height(rows))
    ensures a != null ==> forall p: nat :: p < ATLAS_WIDTH * Height(rows) ==> Shows(a, p, Lit(font, reg.glyphs, p))
  {
    if rows <= 0 {
      return null;
    }
    var h := Height(rows);
    var pixels := Blank(h);
    DrawAscii(pixels, h, font);
    ghost var lit := AsciiPoints(font, TOFU_CELL, h);
    DrawTofu(pixels, h, lit);
    DrawRegistered(pixels, h, reg.glyphs, reg.nextFree, lit + BoxPoints(h));
    ghost var all := lit + BoxPoints(h) + GlyphPoints(reg.glyphs, h);
    forall p: nat | p < ATLAS_WIDTH * h ensures Shows(pixels, p, Lit(font, reg.glyphs, p)) {
      assert Shows(pixels, p, p in all);
    }
    a := pixels;
  }

  /** Each cell has one owner: a pixel in it is lit exactly when the owner's glyph has that bit set. */
  lemma {:induction false} OneOwner(font: seq<seq<RowBits>>, glyphs: seq<StoredGlyph>, next: nat, p: nat)
    requires FontOk(font) && StoreOk(glyphs, next)
    ensures CellIndex(p) < TOFU_CELL ==> (Lit(font, glyphs, p) <==> CellBit(font[CellIndex(p)], 1, 0, p))
    ensures CellIndex(p) == TOFU_CELL ==> (Lit(font, glyphs, p) <==> BoxLit(p))
    ensures forall g <- glyphs :: g.cellStart <= CellIndex(p) < g.cellStart + g.width ==> (Lit(font, glyphs, p) <==> GlyphLit(g, p))
    ensures CellIndex(p) > TOFU_CELL && (forall g <- glyphs :: !(g.cellStart <= CellIndex(p) < g.cellStart + g.width)) ==>
              !Lit(font, glyphs, p)
  {
    if AnyGlyph(glyphs, p) {
      var j := Lighter(glyphs, p);
      LookupAt(glyphs, j);
    }
    forall g | g in glyphs && g.cellStart <= CellIndex(p) < g.cellStart + g.width
      ensures CellIndex(p) > TOFU_CELL && (AnyGlyph(glyphs, p) <==> GlyphLit(g, p))
    {
      var i :| 0 <= i < |glyphs| && glyphs[i] == g;
      LookupAt(glyphs, i);
      if GlyphLit(g, p) {
        LightsUp(glyphs, i, p);
      } else if AnyGlyph(glyphs, p) {
        var j := Lighter(glyphs, p);
        LookupAt(glyphs, j);
        assert false;
      }
    }
  }

  lemma {:induction false} LightsUp(glyphs: seq<StoredGlyph>, i: nat, p: nat)
    requires i < |glyphs| && GlyphLit(glyphs[i], p)
    ensures AnyGlyph(glyphs, p)
  {
    if i < |glyphs| - 1 {
      LightsUp(glyphs[..|glyphs| - 1], i, p);
    }
  }

  lemma {:induction false} Lighter(glyphs: seq<StoredGlyph>, p: nat) returns (i: nat)
    requires AnyGlyph(glyphs, p)
    ensures i < |glyphs| && GlyphLit(glyphs[i], p)
  {
    if GlyphLit(glyphs[|glyphs| - 1], p) {
      i := |glyphs| - 1;
    } else {
      i := Lighter(glyphs[..|glyphs| - 1], p);
    }
  }

  /** Whatever a text shows can be drawn from the atlas generated for its rows: every pixel of
    * its cells is in the picture, unless the text needs more rows than an atlas has. */
  lemma TextVisible(glyphs: seq<StoredGlyph>, next: nat, cps: seq<nat>, i: nat, dx: nat, dy: nat)
    requires StoreOk(glyphs, next) && i < |cps| && MaxRows(glyphs, cps) <= CELLS_PER_COL
    requires dx < CELL_W * CellOf(glyphs, cps[i]).width && dy < CELL_H
    ensures var c := CellOf(glyphs, cps[i]);
            var p := (c.y * CELL_H + dy) * ATLAS_WIDTH + c.x * CELL_W + dx;
            && p < ATLAS_WIDTH * Height(MaxRows(glyphs, cps))
            && c.y * CELLS_PER_ROW + c.x <= CellIndex(p) < c.y * CELLS_PER_ROW + c.x + c.width
  {
    TextFits(glyphs, next, cps, i);
    CellsFit(glyphs, next, cps[i]);
    var c := CellOf(glyphs, cps[i]);
    PixelInCell(c.x, c.y, c.width, dx, dy, MaxRows(glyphs, cps));
  }

  /** The pixel of a codepoint's cells at column dx and row dy. */
  function PixelOf(glyphs: seq<StoredGlyph>, cp: nat, dx: nat, dy: nat): nat {
    var c := CellOf(glyphs, cp);
    (c.y * CELL_H + dy) * ATLAS_WIDTH + c.x * CELL_W + dx
  }

  /** In the cell where an ASCII codepoint is shown stands its glyph of the font, bit for bit. */
  lemma AsciiShown(font: seq<seq<RowBits>>, glyphs: seq<StoredGlyph>, next: nat, cp: nat, dx: nat, dy: nat)
    requires FontOk(font) && StoreOk(glyphs, next) && 0x20 <= cp <= 0x7E && dx < 8 && dy < 16
    ensures Lit(font, glyphs, PixelOf(glyphs, cp, dx, dy)) <==> 1 <= dy <= 13 && font[cp - 0x20][dy - 1][dx]
  {
    var p := PlaceOf(glyphs, next, cp, dx, dy);
    OneOwner(font, glyphs, next, p);
    assert CellIndex(p) == cp - 0x20;
  }

  /** In the cells of a registered one the glyph that was registered for it. */
  lemma RegisteredShown(font: seq<seq<RowBits>>, glyphs: seq<StoredGlyph>, next: nat, cp: nat, g: StoredGlyph, dx: nat, dy: nat)
    requires FontOk(font) && StoreOk(glyphs, next) && !(0x20 <= cp <= 0x7E) && Lookup(glyphs, cp) == Some(g)
    requires dx < 8 * g.width && dy < 16
    ensures (g.width == 1 || g.width == 2) && |g.data| == 13 * g.width
    ensures Lit(font, glyphs, PixelOf(glyphs, cp, dx, dy)) <==>
            1 <= dy <= 13 && if g.width == 1 then g.data[dy - 1][dx] else g.data[2 * (dy - 1) + dx / 8][dx % 8]
  {
    assert InCells(g, next);
    var p := PlaceOf(glyphs, next, cp, dx, dy);
    OwnedBy(font, glyphs, next, g, p);
    GlyphLitAt(g, p, dx, dy);
  }

  /** In the cell of any other the box. */
  lemma BoxShown(font: seq<seq<RowBits>>, glyphs: seq<StoredGlyph>, next: nat, cp: nat, dx: nat, dy: nat)
    requires FontOk(font) && StoreOk(glyphs, next) && !(0x20 <= cp <= 0x7E) && Lookup(glyphs, cp) == None && dx < 8 && dy < 16
    ensures Lit(font, glyphs, PixelOf(glyphs, cp, dx, dy)) <==>
            (1 <= dx <= 6 && (dy == 2 || dy == 13)) || (2 <= dy <= 13 && (dx == 1 || dx == 6))
  {
    var p := PlaceOf(glyphs, next, cp, dx, dy);
    OneOwner(font, glyphs, next, p);
    assert CellIndex(p) == TOFU_CELL;
  }

  /** The first cell a codepoint is shown in. */
  function FirstCell(glyphs: seq<StoredGlyph>, cp: nat): nat {
    if Ascii(cp) then cp - 0x20
    else match Lookup(glyphs, cp)
      case Some(g) => g.cellStart
      case None => TOFU_CELL
  }

  lemma PlaceOf(glyphs: seq<StoredGlyph>, next: nat, cp: nat, dx: nat, dy: nat) returns (p: nat)
    requires StoreOk(glyphs, next) && dx < CELL_W * CellOf(glyphs, cp).width && dy < CELL_H
    ensures p == PixelOf(glyphs, cp, dx, dy)
    ensures CellIndex(p) == FirstCell(glyphs, cp) + dx / CELL_W && Dx(p) == dx % CELL_W && Dy(p) == dy
  {
    var c := CellOf(glyphs, cp);
    CellsFit(glyphs, next, cp);
    PixelOfCell(c.x, c.y, c.width, dx, dy);
    p := PixelOf(glyphs, cp, dx, dy);
    Whole(FirstCell(glyphs, cp));
  }

  lemma Whole(cell: nat)
    ensures cell / CELLS_PER_ROW * CELLS_PER_ROW + cell % CELLS_PER_ROW == cell
  {
  }

  lemma OwnedBy(font: seq<seq<RowBits>>, glyphs: seq<StoredGlyph>, next: nat, g: StoredGlyph, p: nat)
    requires FontOk(font) && StoreOk(glyphs, next) && g in glyphs && g.cellStart <= CellIndex(p) < g.cellStart + g.width
    ensures Lit(font, glyphs, p) <==> GlyphLit(g, p)
  {
    OneOwner(font, glyphs, next, p);
  }

  lemma GlyphLitAt(g: StoredGlyph, p: nat, dx: nat, dy: nat)
    requires (g.width == 1 || g.width == 2) && |g.data| == 13 * g.width && dx < 8 * g.width
    requires CellIndex(p) == g.cellStart + dx / CELL_W && Dx(p) == dx % CELL_W && Dy(p) == dy
    ensures GlyphLit(g, p) <==>
            1 <= dy <= 13 && if g.width == 1 then g.data[dy - 1][dx] else g.data[2 * (dy - 1) + dx / 8][dx % 8]
  {
  }

  lemma PixelOfCell(x: nat, y: nat, width: nat, dx: nat, dy: nat)
    requires x + width <= CELLS_PER_ROW && dx < CELL_W * width && dy < CELL_H
    ensures var p := (y * CELL_H + dy) * ATLAS_WIDTH + x * CELL_W + dx;
            CellIndex(p) == y * CELLS_PER_ROW + x + dx / CELL_W && Dx(p) == dx % CELL_W && Dy(p) == dy
  {
    var p := (y * CELL_H + dy) * ATLAS_WIDTH + x * CELL_W + dx;
    PixelAt(p, x * CELL_W + dx, y * CELL_H + dy);
  }

  lemma PixelInCell(x: nat, y: nat, width: nat, dx: nat, dy: nat, rows: nat)
    requires y < rows <= CELLS_PER_COL && x + width <= CELLS_PER_ROW && dx < CELL_W * width && dy < CELL_H
    ensures var p := (y * CELL_H + dy) * ATLAS_WIDTH + x * CELL_W + dx;
            p < ATLAS_WIDTH * Height(rows) && CellIndex(p) == y * CELLS_PER_ROW + x + dx / CELL_W
  {
    var p := (y * CELL_H + dy) * ATLAS_WIDTH + x * CELL_W + dx;
    PixelAt(p, x * CELL_W + dx, y * CELL_H + dy);
  }
}
