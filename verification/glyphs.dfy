// The glyph registry of the bitmap font (core/include/tcBitmapFont.h): a sorted
// list of registered glyphs and the allocator of their cells in the atlas.
module Glyphs {
  import opened Basics

  const CELL_W := 8
  const CELL_H := 16
  const CHAR_HEIGHT := 13
  const ATLAS_WIDTH := 512
  const CELLS_PER_ROW := 64
  const CELLS_PER_COL := 32
  const TOFU_CELL := 95
  const FIRST_REGISTERED_CELL := 96
  const UINT16 := 0x1_0000
  const UINT64 := 0x1_0000_0000_0000_0000

  /** One row of eight pixels, leftmost first. */
  type RowBits = b: seq<bool> | |b| == 8 witness [false, false, false, false, false, false, false, false]

  /** `width` 1: 13 rows of one byte; 2: 13 rows of two. */
  datatype Glyph = Glyph(cp: nat, data: seq<RowBits>, width: nat)
  {
    predicate Ok() {
      (width == 1 || width == 2) && |data| == CHAR_HEIGHT * width
    }
  }

  datatype StoredGlyph = StoredGlyph(cp: nat, cellStart: nat, data: seq<RowBits>, width: nat)

  /** Coordinates in cells, and the width in cells. */
  datatype GlyphCell = GlyphCell(x: nat, y: nat, width: nat)

  predicate Ascii(cp: nat) {
    0x20 <= cp <= 0x7E
  }

  // ---- the sorted list ----

  ghost predicate Sorted(s: seq<StoredGlyph>) {
    forall i, j :: 0 <= i < j < |s| ==> s[i].cp < s[j].cp
  }

  /** The glyph stored for a codepoint. */
  function Lookup(s: seq<StoredGlyph>, cp: nat): (r: Option<StoredGlyph>)
    ensures r.Some? ==> r.value in s && r.value.cp == cp
    ensures r.None? ==> forall i :: 0 <= i < |s| ==> s[i].cp != cp
  {
    if s == [] then None
    else if s[0].cp == cp then Some(s[0])
    else Lookup(s[1..], cp)
  }

  lemma LookupAt(s: seq<StoredGlyph>, k: nat)
    requires Sorted(s) && k < |s|
    ensures Lookup(s, s[k].cp) == Some(s[k])
  {
    if Lookup(s, s[k].cp).Some? {
      var i :| 0 <= i < |s| && s[i] == Lookup(s, s[k].cp).value;
    }
  }

  /** `k` is where a glyph of this codepoint stands, or would have to be inserted. */
  ghost predicate SplitsAt(s: seq<StoredGlyph>, cp: nat, k: nat) {
    && k <= |s|
    && (forall i :: 0 <= i < k ==> s[i].cp < cp)
    && (forall i :: k <= i < |s| ==> cp <= s[i].cp)
  }

  lemma SplitFinds(s: seq<StoredGlyph>, cp: nat, k: nat)
    requires Sorted(s) && SplitsAt(s, cp, k)
    ensures Lookup(s, cp) == if k < |s| && s[k].cp == cp then Some(s[k]) else None
  {
    if k < |s| && s[k].cp == cp {
      LookupAt(s, k);
    }
  }

  lemma InsertSorted(s: seq<StoredGlyph>, k: nat, g: StoredGlyph, x: nat)
    requires Sorted(s) && SplitsAt(s, g.cp, k) && (k < |s| ==> s[k].cp != g.cp)
    ensures Sorted(s[..k] + [g] + s[k..])
    ensures Lookup(s[..k] + [g] + s[k..], x) == if x == g.cp then Some(g) else Lookup(s, x)
  {
    var t := s[..k] + [g] + s[k..];
    LookupAt(t, k);
    if x != g.cp {
      SameLookup(s, t, x);
    }
  }

  lemma RemoveSorted(s: seq<StoredGlyph>, k: nat, x: nat)
    requires Sorted(s) && k < |s|
    ensures Sorted(s[..k] + s[k + 1..])
    ensures Lookup(s[..k] + s[k + 1..], x) == if x == s[k].cp then None else Lookup(s, x)
  {
    var t := s[..k] + s[k + 1..];
    if x != s[k].cp {
      SameLookup(s, t, x);
    }
  }

  /** Sorted lists with the same glyphs of a codepoint agree on it. */
  lemma SameLookup(s: seq<StoredGlyph>, t: seq<StoredGlyph>, x: nat)
    requires Sorted(s) && Sorted(t)
    requires forall g: StoredGlyph :: g.cp == x ==> (g in s <==> g in t)
    ensures Lookup(s, x) == Lookup(t, x)
  {
    if Lookup(s, x).Some? {
      var j :| 0 <= j < |t| && t[j] == Lookup(s, x).value;
      LookupAt(t, j);
    }
  }

  // ---- cells ----

  /** The first cell of a fresh range: an even one for a fullwidth glyph, counted in 16 bits. */
  function StartCell(next: nat, width: nat): nat {
    if width == 2 && next % 2 != 0 then (next + 1) % UINT16 else next
  }

  /** The counter does not wrap. */
  predicate Fits(next: nat, width: nat) {
    (if width == 2 && next % 2 != 0 then next + 1 else next) + width < UINT16
  }

  /** The codepoint already has cells of this width. */
  predicate KeepsCells(s: seq<StoredGlyph>, g: Glyph) {
    Lookup(s, g.cp).Some? && Lookup(s, g.cp).value.width == g.width
  }

  /** What registering a glyph leaves, codepoint by codepoint. */
  ghost predicate Registered(s: seq<StoredGlyph>, next: nat, g: Glyph, s': seq<StoredGlyph>, next': nat) {
    var start := if KeepsCells(s, g) then Lookup(s, g.cp).value.cellStart else StartCell(next, g.width);
    && Sorted(s')
    && next' == (if KeepsCells(s, g) then next else (start + g.width) % UINT16)
    && Lookup(s', g.cp) == Some(StoredGlyph(g.cp, start, g.data, g.width))
    && (forall x {:trigger Lookup(s', x)} :: x != g.cp ==> Lookup(s', x) == Lookup(s, x))
  }

  /** Its cells are handed out already, and lie in one row. */
  predicate InCells(g: StoredGlyph, next: nat) {
    && (g.width == 1 || g.width == 2) && |g.data| == CHAR_HEIGHT * g.width
    && FIRST_REGISTERED_CELL <= g.cellStart && g.cellStart + g.width <= next
    && (g.width == 2 ==> g.cellStart % 2 == 0)
  }

  predicate Apart(a: StoredGlyph, b: StoredGlyph) {
    a.cellStart + a.width <= b.cellStart || b.cellStart + b.width <= a.cellStart
  }

  ghost predicate StoreOk(s: seq<StoredGlyph>, next: nat) {
    && Sorted(s) && FIRST_REGISTERED_CELL <= next < UINT16
    && (forall x {:trigger Lookup(s, x)} :: Lookup(s, x).Some? ==> InCells(Lookup(s, x).value, next))
    && (forall x, y {:trigger Lookup(s, x), Lookup(s, y)} ::
          Lookup(s, x).Some? && Lookup(s, y).Some? && x != y ==> Apart(Lookup(s, x).value, Lookup(s, y).value))
  }

  lemma FreshStart(next: nat, width: nat)
    requires 0 < width <= 2 && Fits(next, width)
    ensures next <= StartCell(next, width) && (width == 2 ==> StartCell(next, width) % 2 == 0)
    ensures (StartCell(next, width) + width) % UINT16 == StartCell(next, width) + width < UINT16
  {
  }

  /** The cells of the glyph registered: its own old ones, or ones not handed out before. */
  lemma RegisteredCells(s: seq<StoredGlyph>, next: nat, g: Glyph, s': seq<StoredGlyph>, next': nat)
    requires StoreOk(s, next) && g.Ok() && Registered(s, next, g, s', next')
    requires KeepsCells(s, g) || Fits(next, g.width)
    ensures next <= next' < UINT16 && Lookup(s', g.cp).Some? && InCells(Lookup(s', g.cp).value, next')
    ensures KeepsCells(s, g) || next <= Lookup(s', g.cp).value.cellStart
    ensures KeepsCells(s, g) ==> Lookup(s, g.cp).value.cellStart == Lookup(s', g.cp).value.cellStart
  {
    if KeepsCells(s, g) {
      assert InCells(Lookup(s, g.cp).value, next);
    } else {
      FreshStart(next, g.width);
    }
  }

  lemma RegisteredApart(s: seq<StoredGlyph>, next: nat, g: Glyph, s': seq<StoredGlyph>, next': nat, y: nat)
    requires StoreOk(s, next) && g.Ok() && Registered(s, next, g, s', next')
    requires KeepsCells(s, g) || Fits(next, g.width)
    requires Lookup(s, y).Some? && y != g.cp
    ensures Lookup(s', y) == Lookup(s, y) && InCells(Lookup(s, y).value, next')
    ensures Lookup(s', g.cp).Some? && Apart(Lookup(s', g.cp).value, Lookup(s, y).value)
  {
    RegisteredCells(s, next, g, s', next');
    assert InCells(Lookup(s, y).value, next);
    if KeepsCells(s, g) {
      assert Apart(Lookup(s, g.cp).value, Lookup(s, y).value);
    }
  }

  /** Registering keeps the store in order exactly as long as the 16-bit counter does not wrap. */
  lemma RegisterKeeps(s: seq<StoredGlyph>, next: nat, g: Glyph, s': seq<StoredGlyph>, next': nat)
    requires StoreOk(s, next) && g.Ok() && Registered(s, next, g, s', next')
    ensures StoreOk(s', next') <==> KeepsCells(s, g) || Fits(next, g.width)
  {
    if KeepsCells(s, g) || Fits(next, g.width) {
      RegisteredCells(s, next, g, s', next');
      forall x | Lookup(s', x).Some? && x != g.cp
        ensures Lookup(s', x) == Lookup(s, x) && InCells(Lookup(s', x).value, next')
        ensures Apart(Lookup(s', g.cp).value, Lookup(s', x).value)
      {
        assert Lookup(s', x) == Lookup(s, x);
        RegisteredApart(s, next, g, s', next', x);
      }
    } else {
      Wrapped(s, next, g, s', next');
    }
  }

  lemma Wrapped(s: seq<StoredGlyph>, next: nat, g: Glyph, s': seq<StoredGlyph>, next': nat)
    requires StoreOk(s, next) && g.Ok() && Registered(s, next, g, s', next')
    requires !KeepsCells(s, g) && !Fits(next, g.width)
    ensures !StoreOk(s', next')
  {
    assert Lookup(s', g.cp).Some?;
  }

  // ---- cells given up ----

  predicate Covers(g: StoredGlyph, cell: nat) {
    g.cellStart <= cell < g.cellStart + g.width
  }

  /** Some glyph is shown in this cell. */
  ghost predicate InUse(s: seq<StoredGlyph>, cell: nat) {
    exists x {:trigger Lookup(s, x)} :: Lookup(s, x).Some? && Covers(Lookup(s, x).value, cell)
  }

  /** A glyph that changes its width leaves its old cells to nobody. */
  lemma CellsGivenUp(s: seq<StoredGlyph>, next: nat, g: Glyph, s': seq<StoredGlyph>, next': nat, cell: nat)
    requires StoreOk(s, next) && g.Ok() && Registered(s, next, g, s', next') && Fits(next, g.width)
    requires Lookup(s, g.cp).Some? && Lookup(s, g.cp).value.width != g.width && Covers(Lookup(s, g.cp).value, cell)
    ensures cell < next && !InUse(s', cell)
  {
    RegisteredCells(s, next, g, s', next');
    var before := Lookup(s, g.cp).value;
    assert InCells(before, next);
    forall x | Lookup(s', x).Some? ensures !Covers(Lookup(s', x).value, cell) {
      if x != g.cp {
        assert Lookup(s', x) == Lookup(s, x);
        assert Apart(before, Lookup(s, x).value);
      }
    }
  }

  /** A cell below the counter that nobody uses is not handed out again. */
  lemma StaysUnused(s: seq<StoredGlyph>, next: nat, g: Glyph, s': seq<StoredGlyph>, next': nat, cell: nat)
    requires StoreOk(s, next) && g.Ok() && Registered(s, next, g, s', next') && (KeepsCells(s, g) || Fits(next, g.width))
    requires cell < next && !InUse(s, cell)
    ensures cell < next' && !InUse(s', cell)
  {
    RegisteredCells(s, next, g, s', next');
    forall x | Lookup(s', x).Some? ensures !Covers(Lookup(s', x).value, cell) {
      if x != g.cp {
        assert Lookup(s', x) == Lookup(s, x);
      } else if KeepsCells(s, g) {
        assert !Covers(Lookup(s, x).value, cell);
      }
    }
  }

  /** A store and its counter after each of some registrations that do not wrap it. */
  datatype Store = Store(glyphs: seq<StoredGlyph>, next: nat)

  ghost predicate History(states: seq<Store>, gs: seq<Glyph>) {
    && |states| == |gs| + 1 && StoreOk(states[0].glyphs, states[0].next)
    && forall i :: 0 <= i < |gs| ==> StepOk(states[i], gs[i], states[i + 1])
  }

  ghost predicate StepOk(a: Store, g: Glyph, b: Store) {
    && g.Ok() && Registered(a.glyphs, a.next, g, b.glyphs, b.next)
    && (KeepsCells(a.glyphs, g) || Fits(a.next, g.width))
  }

  /** Cells once given up are never used again, however many glyphs are registered. */
  lemma {:induction false} NeverReused(states: seq<Store>, gs: seq<Glyph>, n: nat, cell: nat)
    requires History(states, gs) && n <= |gs| && cell < states[0].next && !InUse(states[0].glyphs, cell)
    ensures StoreOk(states[n].glyphs, states[n].next) && cell < states[n].next && !InUse(states[n].glyphs, cell)
  {
    if n > 0 {
      NeverReused(states, gs, n - 1, cell);
      var a, g, b := states[n - 1], gs[n - 1], states[n];
      assert StepOk(a, g, b);
      RegisterKeeps(a.glyphs, a.next, g, b.glyphs, b.next);
      StaysUnused(a.glyphs, a.next, g, b.glyphs, b.next, cell);
    }
  }

  // ---- registering in place ----

  /** A glyph with fresh cells, put in its place. */
  lemma InsertedIsRegistered(s: seq<StoredGlyph>, next: nat, g: Glyph, k: nat)
    requires Sorted(s) && Lookup(s, g.cp) == None && SplitsAt(s, g.cp, k)
    ensures var start := StartCell(next, g.width);
            Registered(s, next, g, s[..k] + [StoredGlyph(g.cp, start, g.data, g.width)] + s[k..], (start + g.width) % UINT16)
  {
    var stored := StoredGlyph(g.cp, StartCell(next, g.width), g.data, g.width);
    forall x ensures Lookup(s[..k] + [stored] + s[k..], x) == if x == g.cp then Some(stored) else Lookup(s, x) {
      InsertSorted(s, k, stored, x);
    }
    InsertSorted(s, k, stored, 0);
  }

  // ---- queries ----

  function CellAt(cell: nat, width: nat): GlyphCell {
    GlyphCell(cell % CELLS_PER_ROW, cell / CELLS_PER_ROW, width)
  }

  /** Where in the atlas a codepoint is shown; unknown ones share the tofu cell. */
  function CellOf(s: seq<StoredGlyph>, cp: nat): GlyphCell {
    if Ascii(cp) then CellAt(cp - 0x20, 1)
    else match Lookup(s, cp)
      case Some(g) => CellAt(g.cellStart, g.width)
      case None => CellAt(TOFU_CELL, 1)
  }

  /** Atlas rows that must exist before the codepoint can be drawn. */
  function RequiredRows(s: seq<StoredGlyph>, cp: nat): nat {
    if Ascii(cp) then 2
    else match Lookup(s, cp)
      case Some(g) => if g.cellStart + g.width > 0 then (g.cellStart + g.width - 1) % UINT16 / CELLS_PER_ROW + 1 else 0
      case None => 2
  }

  /** Every cell of a codepoint lies in one row of the atlas and above the reported number of rows. */
  lemma CellsFit(s: seq<StoredGlyph>, next: nat, cp: nat)
    requires StoreOk(s, next)
    ensures CellOf(s, cp).y < RequiredRows(s, cp)
    ensures CellOf(s, cp).x + CellOf(s, cp).width <= CELLS_PER_ROW
  {
    if !Ascii(cp) && Lookup(s, cp).Some? {
      var g := Lookup(s, cp).value;
      assert InCells(g, next);
      RowOf(g.cellStart, g.width);
    }
  }

  lemma RowOf(start: nat, width: nat)
    requires 0 < width <= 2 && start + width < UINT16 && (width == 2 ==> start % 2 == 0)
    ensures (start + width - 1) % UINT16 / CELLS_PER_ROW == start / CELLS_PER_ROW
    ensures start % CELLS_PER_ROW + width <= CELLS_PER_ROW
  {
    var row, x := start / CELLS_PER_ROW, start % CELLS_PER_ROW;
    assert start == CELLS_PER_ROW * row + x && (width == 2 ==> x % 2 == 0);
    assert x + width <= CELLS_PER_ROW;
    InRow(row, x + width - 1);
  }

  lemma InRow(row: nat, x: nat)
    requires x < CELLS_PER_ROW
    ensures (CELLS_PER_ROW * row + x) / CELLS_PER_ROW == row
  {
  }

  /** The first registration that wraps the counter can already share the cell of the space. */
  lemma WrapHitsAscii(s: seq<StoredGlyph>, g: Glyph, s': seq<StoredGlyph>, next': nat)
    requires g.width == 2 && !Ascii(g.cp) && Lookup(s, g.cp) == None && Registered(s, UINT16 - 1, g, s', next')
    ensures CellOf(s', g.cp).x == CellOf(s', 0x20).x && CellOf(s', g.cp).y == CellOf(s', 0x20).y
  {
  }

  class GlyphRegistry {
    var glyphs: seq<StoredGlyph>
    var nextFree: nat
    var version: nat

    ghost predicate Valid()
      reads this
    {
      StoreOk(glyphs, nextFree)
    }

    constructor ()
      ensures Valid() && glyphs == [] && nextFree == FIRST_REGISTERED_CELL && version == 0
    {
      glyphs, nextFree, version := [], FIRST_REGISTERED_CELL, 0;
    }

    /** `std::lower_bound` by codepoint. */
    method LowerBound(cp: nat) returns (k: nat)
      requires Sorted(glyphs)
      ensures SplitsAt(glyphs, cp, k)
      ensures Lookup(glyphs, cp) == if k < |glyphs| && glyphs[k].cp == cp then Some(glyphs[k]) else None
    {
      k := 0;
      var hi := |glyphs|;
      while k < hi
        invariant k <= hi <= |glyphs|
        invariant forall i :: 0 <= i < k ==> glyphs[i].cp < cp
        invariant forall i :: hi <= i < |glyphs| ==> cp <= glyphs[i].cp
      {
        var mid := k + (hi - k) / 2;
        if glyphs[mid].cp < cp {
          k := mid + 1;
        } else {
          hi := mid;
        }
      }
      SplitFinds(glyphs, cp, k);
    }

    method FindRegistered(cp: nat) returns (r: Option<StoredGlyph>)
      requires Sorted(glyphs)
      ensures r == Lookup(glyphs, cp)
    {
      var k := LowerBound(cp);
      r := if k < |glyphs| && glyphs[k].cp == cp then Some(glyphs[k]) else None;
    }

    method RegisterGlyph(g: Glyph)
      requires Sorted(glyphs) && nextFree < UINT16 && g.Ok()
      modifies this
      ensures Registered(old(glyphs), old(nextFree), g, glyphs, nextFree)
      ensures version == (old(version) + 1) % UINT64
      ensures old(Valid()) ==> (Valid() <==> KeepsCells(old(glyphs), g) || Fits(old(nextFree), g.width))
    {
      var k := LowerBound(g.cp);
      if k < |glyphs| && glyphs[k].cp == g.cp && glyphs[k].width == g.width {
        SetData(k, g.data);
      } else {
        Reallocate(k, g);
      }
      version := (version + 1) % UINT64;
      if old(Valid()) {
        RegisterKeeps(old(glyphs), old(nextFree), g, glyphs, nextFree);
      }
    }

    /** Fresh cells; a glyph of another width loses its own. */
    method Reallocate(k: nat, g: Glyph)
      requires Sorted(glyphs) && nextFree < UINT16 && g.Ok() && SplitsAt(glyphs, g.cp, k)
      requires Lookup(glyphs, g.cp) == if k < |glyphs| && glyphs[k].cp == g.cp then Some(glyphs[k]) else None
      requires !KeepsCells(glyphs, g)
      modifies this`glyphs, this`nextFree
      ensures Registered(old(glyphs), old(nextFree), g, glyphs, nextFree)
    {
      if k < |glyphs| && glyphs[k].cp == g.cp {
        Erase(k);
      }
      Allocate(g);
    }

    /** In place: the glyph keeps its cells. */
    method SetData(k: nat, data: seq<RowBits>)
      requires Sorted(glyphs) && k < |glyphs|
      modifies this`glyphs
      ensures Sorted(glyphs)
      ensures Lookup(glyphs, old(glyphs[k].cp)) == Some(old(glyphs[k]).(data := data))
      ensures forall x {:trigger Lookup(glyphs, x)} :: x != old(glyphs[k].cp) ==> Lookup(glyphs, x) == Lookup(old(glyphs), x)
    {
      glyphs := glyphs[k := glyphs[k].(data := data)];
      LookupAt(glyphs, k);
      forall x | x != old(glyphs[k].cp) ensures Lookup(glyphs, x) == Lookup(old(glyphs), x) {
        assert forall i :: 0 <= i < |glyphs| && i != k ==> glyphs[i] == old(glyphs)[i];
        SameLookup(old(glyphs), glyphs, x);
      }
    }

    method Erase(k: nat)
      requires Sorted(glyphs) && k < |glyphs|
      modifies this`glyphs
      ensures Sorted(glyphs)
      ensures forall x {:trigger Lookup(glyphs, x)} ::
                Lookup(glyphs, x) == if x == old(glyphs[k].cp) then None else Lookup(old(glyphs), x)
    {
      forall x ensures Lookup(glyphs[..k] + glyphs[k + 1..], x) == if x == glyphs[k].cp then None else Lookup(glyphs, x) {
        RemoveSorted(glyphs, k, x);
      }
      RemoveSorted(glyphs, k, 0);
      glyphs := glyphs[..k] + glyphs[k + 1..];
    }

    method Allocate(g: Glyph)
      requires Sorted(glyphs) && nextFree < UINT16 && g.Ok() && Lookup(glyphs, g.cp) == None
      modifies this`glyphs, this`nextFree
      ensures Registered(old(glyphs), old(nextFree), g, glyphs, nextFree)
    {
      if g.width == 2 && nextFree % 2 != 0 {
        nextFree := (nextFree + 1) % UINT16;
      }
      var stored := StoredGlyph(g.cp, nextFree, g.data, g.width);
      nextFree := (nextFree + g.width) % UINT16;
      var k := LowerBound(g.cp);
      glyphs := glyphs[..k] + [stored] + glyphs[k..];
      InsertedIsRegistered(old(glyphs), old(nextFree), g, k);
    }

    /** New pixels for a registered codepoint; no other codepoint and no cell changes. */
    method UpdateGlyph(cp: nat, data: seq<RowBits>)
      requires Sorted(glyphs)
      modifies this
      ensures Sorted(glyphs) && nextFree == old(nextFree)
      ensures forall x {:trigger Lookup(glyphs, x)} :: x != cp ==> Lookup(glyphs, x) == Lookup(old(glyphs), x)
      ensures match Lookup(old(glyphs), cp)
              case None => glyphs == old(glyphs) && version == old(version)
              case Some(g) => Lookup(glyphs, cp) == Some(g.(data := data)) && version == (old(version) + 1) % UINT64
    {
      var k := LowerBound(cp);
      if k < |glyphs| && glyphs[k].cp == cp {
        SetData(k, data);
        version := (version + 1) % UINT64;
      }
    }

    method LookupGlyph(cp: nat) returns (c: GlyphCell)
      requires Sorted(glyphs)
      ensures c == CellOf(glyphs, cp)
    {
      if Ascii(cp) {
        return CellAt(cp - 0x20, 1);
      }
      var g := FindRegistered(cp);
      c := if g.Some? then CellAt(g.value.cellStart, g.value.width) else CellAt(TOFU_CELL, 1);
    }

    method CodepointPixelWidth(cp: nat) returns (w: nat)
      requires Sorted(glyphs)
      ensures w == CellOf(glyphs, cp).width * CELL_W
    {
      if Ascii(cp) {
        return CELL_W;
      }
      var g := FindRegistered(cp);
      w := if g.Some? then g.value.width * CELL_W else CELL_W;
    }

    method CodepointRequiredRows(cp: nat) returns (rows: nat)
      requires Sorted(glyphs)
      ensures rows == RequiredRows(glyphs, cp)
    {
      if Ascii(cp) {
        return 2;
      }
      var g := FindRegistered(cp);
      if g.Some? && g.value.cellStart + g.value.width > 0 {
        var lastCell := (g.value.cellStart + g.value.width - 1) % UINT16;
        rows := lastCell / CELLS_PER_ROW + 1;
      } else {
        rows := if g.Some? then 0 else 2;
      }
    }

    /** The rows a text needs: as many as its codepoint that needs most, and 0 if it shows none. */
    method TextRequiredRows(text: seq<nat>) returns (rows: nat)
      requires Sorted(glyphs) && Bytes(text)
      ensures rows == MaxRows(glyphs, Shown(text))
    {
      rows := 0;
      var p := 0;
      while p < |text|
        invariant p <= |text|
        invariant Max(rows, MaxRows(glyphs, Shown(text[p..]))) == MaxRows(glyphs, Shown(text))
      {
        var rest := text[p..];
        if text[p] < 32 {
          p := p + 1;
          assert rest[1..] == text[p..];
          continue;
        }
        var cp, n := Utf8Decode(rest);
        if cp == 0 {
          break;
        }
        p := p + n;
        assert rest[n..] == text[p..];
        var r := CodepointRequiredRows(cp);
        if r > rows {
          rows := r;
        }
      }
    }
  }

  function Max(a: nat, b: nat): nat {
    if a < b then b else a
  }

  function MaxRows(s: seq<StoredGlyph>, cps: seq<nat>): nat {
    if cps == [] then 0 else Max(RequiredRows(s, cps[0]), MaxRows(s, cps[1..]))
  }

  /** Whatever a text shows fits in the rows reported for it, and some codepoint needs them all. */
  lemma {:induction false} TextFits(s: seq<StoredGlyph>, next: nat, cps: seq<nat>, i: nat)
    requires StoreOk(s, next) && i < |cps|
    ensures CellOf(s, cps[i]).y < MaxRows(s, cps)
    ensures exists k :: 0 <= k < |cps| && RequiredRows(s, cps[k]) == MaxRows(s, cps)
  {
    CellsFit(s, next, cps[i]);
    if i > 0 {
      TextFits(s, next, cps[1..], i - 1);
    }
    WorstCodepoint(s, cps);
  }

  lemma {:induction false} WorstCodepoint(s: seq<StoredGlyph>, cps: seq<nat>)
    requires cps != []
    ensures exists k :: 0 <= k < |cps| && RequiredRows(s, cps[k]) == MaxRows(s, cps)
  {
    if |cps| > 1 && MaxRows(s, cps) != RequiredRows(s, cps[0]) {
      WorstCodepoint(s, cps[1..]);
      var k :| 0 <= k < |cps[1..]| && RequiredRows(s, cps[1..][k]) == MaxRows(s, cps[1..]);
      assert cps[k + 1] == cps[1..][k];
    } else {
      assert RequiredRows(s, cps[0]) == MaxRows(s, cps);
    }
  }

  predicate Bytes(s: seq<nat>) {
    forall i :: 0 <= i < |s| ==> s[i] < 256
  }

  // ---- UTF-8 ----

  const REPLACEMENT := 0xFFFD

  datatype Decoded = Decoded(cp: nat, used: nat)

  /** How many bytes must continue a sequence with this first byte. */
  function Extra(first: nat): nat {
    if 0xC0 <= first < 0xE0 then 1 else if 0xE0 <= first < 0xF0 then 2 else if 0xF0 <= first < 0xF8 then 3 else 0
  }

  function Lead(first: nat): nat
    requires 0xC0 <= first
  {
    if first < 0xE0 then first - 0xC0 else if first < 0xF0 then first - 0xE0 else first - 0xF0
  }

  /** One codepoint of a byte string; a malformed one gives the replacement character, up to
    * the first byte that does not continue it. */
  function Decode(s: seq<nat>): (d: Decoded)
    requires Bytes(s)
    ensures d.used <= |s| && (d.cp != 0 ==> d.used > 0)
  {
    if s == [] || s[0] == 0 then Decoded(0, 0)
    else if s[0] < 0x80 then Decoded(s[0], 1)
    else if s[0] < 0xC0 || s[0] >= 0xF8 then Decoded(REPLACEMENT, 1)
    else
      var extra := Extra(s[0]);
      if 1 + extra > |s| then Decoded(REPLACEMENT, |s|)
      else Continue(s, Lead(s[0]), 1, extra)
  }

  function Continue(s: seq<nat>, cp: nat, at: nat, extra: nat): (d: Decoded)
    requires 0 < at && at + extra <= |s|
    ensures 0 < d.used <= |s|
    decreases extra
  {
    if extra == 0 then Decoded(cp, at)
    else if s[at] / 64 != 2 then Decoded(REPLACEMENT, at)
    else Continue(s, cp * 64 + s[at] % 64, at + 1, extra - 1)
  }

  /** No sequence starts with this byte, or one that is cut short or not continued. */
  predicate Malformed(s: seq<nat>) {
    && s != [] && 0x80 <= s[0]
    && (Extra(s[0]) == 0 || |s| <= Extra(s[0]) || exists i :: 1 <= i <= Extra(s[0]) && s[i] / 64 != 2)
  }

  /** A malformed sequence is passed over one byte at a time exactly when its first byte starts
    * none, stands alone, or is the only one of enough bytes that belongs to it. */
  lemma MalformedUsed(s: seq<nat>)
    requires Bytes(s) && Malformed(s)
    ensures Decode(s).cp == REPLACEMENT
    ensures Decode(s).used == 1 <==> Extra(s[0]) == 0 || |s| == 1 || (Extra(s[0]) < |s| && s[1] / 64 != 2)
  {
    if 0 < Extra(s[0]) < |s| {
      Broken(s, Lead(s[0]), 1, Extra(s[0]));
    }
  }

  /** Decoding stops at the first byte that does not continue the sequence. */
  lemma {:induction false} Broken(s: seq<nat>, cp: nat, at: nat, extra: nat)
    requires 0 < at && at + extra <= |s| && exists i :: at <= i < at + extra && s[i] / 64 != 2
    ensures var d := Continue(s, cp, at, extra);
            && d.cp == REPLACEMENT && at <= d.used < at + extra
            && s[d.used] / 64 != 2 && forall k :: at <= k < d.used ==> s[k] / 64 == 2
    decreases extra
  {
    if s[at] / 64 == 2 {
      Broken(s, cp * 64 + s[at] % 64, at + 1, extra - 1);
    }
  }

  /** Two bytes are passed over here, not one. */
  lemma TwoBytesLost()
    ensures Decode([0xE2, 0x82, 0x41]) == Decoded(REPLACEMENT, 2)
  {
    var s := [0xE2, 0x82, 0x41];
    assert Continue(s, 0x82, 2, 1) == Decoded(REPLACEMENT, 2);
    assert Continue(s, 2, 1, 2) == Continue(s, 2 * 64 + 2, 2, 1);
  }

  function Encode(cp: nat): (s: seq<nat>)
    requires 0 < cp < 0x20_0000
    ensures Bytes(s)
  {
    if cp < 0x80 then [cp]
    else if cp < 0x800 then [0xC0 + cp / 64, 0x80 + cp % 64]
    else if cp < 0x1_0000 then [0xE0 + cp / 4096, 0x80 + cp / 64 % 64, 0x80 + cp % 64]
    else [0xF0 + cp / 262144, 0x80 + cp / 4096 % 64, 0x80 + cp / 64 % 64, 0x80 + cp % 64]
  }

  lemma Utf8RoundTrip(cp: nat, rest: seq<nat>)
    requires 0 < cp < 0x20_0000 && Bytes(rest)
    ensures Decode(Encode(cp) + rest) == Decoded(cp, |Encode(cp)|)
  {
    var s := Encode(cp) + rest;
    if cp >= 0x1_0000 {
      assert s[0] == 0xF0 + cp / 262144;
      FourBytes(s, cp);
    } else if cp >= 0x800 {
      assert s[0] == 0xE0 + cp / 4096;
      ThreeBytes(s, cp);
    } else if cp >= 0x80 {
      assert s[0] == 0xC0 + cp / 64;
      TwoBytes(s, cp);
    }
  }

  lemma TwoBytes(s: seq<nat>, cp: nat)
    requires |s| >= 2 && s[1] == 0x80 + cp % 64
    ensures Continue(s, cp / 64, 1, 1) == Decoded(cp, 2)
  {
    ContinueStep(s, cp, 1, 1);
  }

  lemma ThreeBytes(s: seq<nat>, cp: nat)
    requires |s| >= 3 && s[1] == 0x80 + cp / 64 % 64 && s[2] == 0x80 + cp % 64
    ensures Continue(s, cp / 4096, 1, 2) == Decoded(cp, 3)
  {
    assert cp / 64 / 64 == cp / 4096;
    ContinueStep(s, cp / 64, 1, 2);
    ContinueStep(s, cp, 2, 1);
  }

  lemma FourBytes(s: seq<nat>, cp: nat)
    requires |s| >= 4 && s[1] == 0x80 + cp / 4096 % 64 && s[2] == 0x80 + cp / 64 % 64 && s[3] == 0x80 + cp % 64
    ensures Continue(s, cp / 262144, 1, 3) == Decoded(cp, 4)
  {
    assert cp / 4096 / 64 == cp / 262144 && cp / 64 / 64 == cp / 4096;
    ContinueStep(s, cp / 4096, 1, 3);
    ContinueStep(s, cp / 64, 2, 2);
    ContinueStep(s, cp, 3, 1);
  }

  lemma ContinueStep(s: seq<nat>, cp: nat, at: nat, extra: nat)
    requires 0 < at && 0 < extra && at + extra <= |s| && s[at] == 0x80 + cp % 64
    ensures Continue(s, cp / 64, at, extra) == Continue(s, cp, at + 1, extra - 1)
  {
    assert s[at] / 64 == 2 && s[at] % 64 == cp % 64;
  }

  /** The codepoints a text shows: bytes below 32, NUL among them, are passed over; a sequence that decodes
    * to zero, an overlong one, ends the text. */
  function Shown(text: seq<nat>): seq<nat>
    requires Bytes(text)
    decreases |text|
  {
    if text == [] then []
    else if text[0] < 32 then Shown(text[1..])
    else
      var d := Decode(text);
      if d.cp == 0 then [] else [d.cp] + Shown(text[d.used..])
  }

  /** A text as its writer sees it: codepoints, and control bytes as themselves. */
  function WriteText(cps: seq<nat>): (s: seq<nat>)
    requires forall i :: 0 <= i < |cps| ==> cps[i] < 0x20_0000
    ensures Bytes(s)
  {
    if cps == [] then [] else WriteOne(cps[0]) + WriteText(cps[1..])
  }

  function WriteOne(cp: nat): (s: seq<nat>)
    requires cp < 0x20_0000
    ensures Bytes(s)
  {
    if cp == 0 then [0] else Encode(cp)
  }

  function Printing(cps: seq<nat>): seq<nat> {
    if cps == [] then [] else PrintingOne(cps[0]) + Printing(cps[1..])
  }

  function PrintingOne(cp: nat): seq<nat> {
    if cp < 32 then [] else [cp]
  }

  /** Every codepoint that was written is shown, in order, and nothing else; also behind a NUL. */
  lemma {:induction false} AllShown(cps: seq<nat>, rest: seq<nat>)
    requires (forall i :: 0 <= i < |cps| ==> cps[i] < 0x20_0000) && Bytes(rest)
    ensures Shown(WriteText(cps) + rest) == Printing(cps) + Shown(rest)
  {
    if cps == [] {
      assert WriteText(cps) + rest == rest;
    } else {
      AllShown(cps[1..], rest);
      OneShown(cps[0], WriteText(cps[1..]) + rest);
      Joined(WriteOne(cps[0]), WriteText(cps[1..]), rest);
      Joined(PrintingOne(cps[0]), Printing(cps[1..]), Shown(rest));
    }
  }

  lemma Joined(a: seq<nat>, b: seq<nat>, c: seq<nat>)
    ensures a + b + c == a + (b + c)
  {
  }

  lemma OneShown(cp: nat, later: seq<nat>)
    requires cp < 0x20_0000 && Bytes(later)
    ensures Shown(WriteOne(cp) + later) == PrintingOne(cp) + Shown(later)
  {
    if cp < 32 {
      assert WriteOne(cp) == [cp] && ([cp] + later)[1..] == later;
    } else {
      FirstShown(cp, later);
    }
  }

  lemma FirstShown(cp: nat, later: seq<nat>)
    requires 32 <= cp < 0x20_0000 && Bytes(later)
    ensures Shown(Encode(cp) + later) == [cp] + Shown(later)
  {
    var text := Encode(cp) + later;
    Utf8RoundTrip(cp, later);
    assert text[0] >= 32 && text[|Encode(cp)|..] == later;
  }

  /** A zero in two bytes ends the text. */
  lemma OverlongEnds(rest: seq<nat>)
    requires Bytes(rest)
    ensures Shown([0xC0, 0x80] + rest) == []
  {
    var text := [0xC0, 0x80] + rest;
    assert Continue(text, 0, 1, 1) == Continue(text, 0, 2, 0);
  }

  method Utf8Decode(s: seq<nat>) returns (cp: nat, used: nat)
    requires Bytes(s)
    ensures Decoded(cp, used) == Decode(s)
  {
    if |s| == 0 || s[0] == 0 {
      return 0, 0;
    }
    var c0 := s[0];
    if c0 < 0x80 {
      return c0, 1;
    }
    var extra;
    if c0 / 32 == 6 {
      extra, cp := 1, c0 % 32;
    } else if c0 / 16 == 14 {
      extra, cp := 2, c0 % 16;
    } else if c0 / 8 == 30 {
      extra, cp := 3, c0 % 8;
    } else {
      return REPLACEMENT, 1;
    }
    if 1 + extra > |s| {
      return REPLACEMENT, |s|;
    }
    used := 1;
    for i := 0 to extra
      invariant used == 1 + i
      invariant Continue(s, cp, used, extra - i) == Decode(s)
    {
      var c := s[used];
      if c / 64 != 2 {
        return REPLACEMENT, used;
      }
      cp := cp * 64 + c % 64;
      used := used + 1;
    }
  }
}
