/** DECODE: one symbol from the packet, by table, by binary search or by linear search. */
module Decoding {
  import opened Words
  import opened Codewords
  import opened CodeTables
  import opened Codebooks
  import opened Packets
  import opened BitReader

  /** The word w begins with the codeword of entry e. */
  predicate Owner(lens: seq<nat>, codes: seq<nat>, w: nat, e: nat)
    requires |codes| == |lens| && ValidLengths(lens)
  {
    e < |lens| && Used(lens, e) && Owns(codes[e], lens[e], w)
  }

  /** The pending bits begin with the codeword of entry e. */
  predicate Prefix(lens: seq<nat>, codes: seq<nat>, p: Bits, e: nat)
    requires |codes| == |lens| && ValidLengths(lens)
  {
    e < |lens| && Used(lens, e) && lens[e] <= p.len && Low(p.val, lens[e]) == Mirror(codes[e])
  }

  ghost predicate Code(lens: seq<nat>, codes: seq<nat>) {
    |codes| == |lens| && ValidLengths(lens) && Canonical(lens, codes) && KraftSum(lens, |lens|) <= WORD
  }

  lemma OwnerUnique(lens: seq<nat>, codes: seq<nat>, w: nat, d: nat, e: nat)
    requires Code(lens, codes) && Owner(lens, codes, w, d) && Owner(lens, codes, w, e)
    ensures d == e
  {
    CommonWord(codes[d], lens[d], codes[e], lens[e], w);
    if d != e {
      PrefixFree(lens, codes, d, e);
      assert false;
    }
  }

  lemma CodeOf(lens: seq<nat>, codes: seq<nat>, e: nat)
    requires Code(lens, codes) && e < |lens| && Used(lens, e)
    ensures IsCode(codes[e], lens[e])
  {
    assert LowestAt(lens, codes, e);
  }

  /** Among increasing codewords the last one not above w is the owner's, when it is in the table. */
  lemma BinaryFinds(lens: seq<nat>, codes: seq<nat>, sparse: bool, sc: seq<nat>, sv: seq<nat>, cl: seq<nat>,
                    w: nat, e: nat, x: nat)
    requires Code(lens, codes) && SortedTable(lens, codes, sparse, sc, sv, cl)
    requires Owner(lens, codes, w, e) && Included(sparse, lens[e]) && LastNotAbove(sc, w, x)
    ensures sv[x] == e
  {
    var y :| 0 <= y < |sc| && sc[y] == codes[e];
    assert TableRow(lens, codes, sparse, sc[y], sv[y]) && TableRow(lens, codes, sparse, sc[x], sv[x]);
    CodeOf(lens, codes, e);
    CodeOf(lens, codes, sv[x]);
    OwnsFrom(codes[e], lens[e], w);
    if sv[y] != e { CodesDiffer(lens, codes, sv[y], e); }
    if y < x {
      Squeezed(codes[e], lens[e], sc[x], w);
      CommonWord(codes[e], lens[e], sc[x], lens[sv[x]], sc[x]);
      PrefixFree(lens, codes, e, sv[x]);
    }
  }

  lemma Squeezed(v: nat, l: nat, c: nat, w: nat)
    requires l <= 32 && v <= c <= w && Owns(v, l, w)
    ensures Owns(v, l, c)
  {
    HighMonotone(v, c, 32 - l);
    HighMonotone(c, w, 32 - l);
  }

  // ---------------------------------------------------------------------
  // Codewords longer than the buffer
  // ---------------------------------------------------------------------

  lemma TilesOf(lens: seq<nat>, codes: seq<nat>) returns (t: Leaves)
    requires Code(lens, codes)
    ensures Tiled(lens, codes, t) && LeafTotal(t) + KraftSum(lens, |lens|) == WORD
  {
    AssignIffKraft(lens, |lens|);
    AssignTiles(lens, |lens|);
    KraftConserved(lens, |lens|);
    var a := Assign(lens, |lens|).value;
    CanonicalUnique(lens, codes, a.codes, |lens|);
    t := a.leaves;
    SameTiles(lens, a.codes, codes, t);
  }

  lemma SameTiles(lens: seq<nat>, cs: seq<nat>, codes: seq<nat>, t: Leaves)
    requires |cs| == |codes| == |lens| && ValidLengths(lens) && Tiled(lens, cs, t)
    requires forall e :: 0 <= e < |lens| && Used(lens, e) ==> codes[e] == cs[e]
    ensures Tiled(lens, codes, t)
  {
    forall p | Covered(lens, cs, p) ensures Covered(lens, codes, p) {
      var e :| 0 <= e < |cs| && Used(lens, e) && Owns(cs[e], lens[e], p);
      assert Owns(codes[e], lens[e], p);
    }
    forall i | 0 <= i < 32 && Leaf(t, i)
      ensures LeafOk(lens, codes, t, i) && Free(lens, codes, |codes|, t.av[i], i)
    {
      assert LeafOk(lens, cs, t, i) && Free(lens, cs, |cs|, t.av[i], i);
    }
  }

  /** The first word of a block that holds a codeword is taken, by a codeword inside the block. */
  lemma BlockStart(lens: seq<nat>, codes: seq<nat>, w: nat, k: nat, e: nat) returns (d: nat)
    requires Code(lens, codes) && e < |lens| && Used(lens, e) && k < lens[e]
    requires IsCode(w, k) && Owns(w, k, codes[e])
    ensures Owner(lens, codes, w, d) && lens[d] > k
  {
    var t := TilesOf(lens, codes);
    if InLeaf(t, w) {
      var i :| 0 <= i < 32 && Leaf(t, i) && Owns(t.av[i], i, w);
      assert LeafOk(lens, codes, t, i) && Free(lens, codes, |codes|, t.av[i], i);
      NoLeafAtStart(w, k, codes[e], lens[e], t.av[i], i);
    }
    assert Covered(lens, codes, w);
    d :| 0 <= d < |codes| && Used(lens, d) && Owns(codes[d], lens[d], w);
    if lens[d] <= k {
      OwnsShorter(w, k, codes[e], lens[d]);
      PrefixFree(lens, codes, d, e);
      assert false;
    }
  }

  lemma NoLeafAtStart(w: nat, k: nat, c: nat, l: nat, a: nat, i: nat)
    requires k < l <= 32 && i <= 32 && IsCode(w, k) && Owns(w, k, c) && IsCode(a, i) && Owns(a, i, w)
    ensures Overlap(c, l, a, i) || (i > k && High(a, 32 - i) % 2 == 0)
  {
    if i <= k {
      OwnsShorter(w, k, c, i);
      CommonWord(c, l, a, i, c);
    } else {
      RightSibling(w, k, i);
    }
  }

  /** Reading the top bits of the mirrored accumulator. */
  lemma MirrorBuffer(v: nat, acc: nat, vb: nat)
    requires vb <= 32 && acc == Low(v, vb)
    ensures IsCode(Mirror(acc), vb) && High(Mirror(acc), 32 - vb) == High(Mirror(v), 32 - vb)
  {
    Split(v, vb);
    LowSmall(acc, vb);
    MirrorHigh(acc, vb);
    MirrorHigh(v, vb);
    RevSplit(acc, vb, 32);
    RevZero(32 - vb);
    RevBound(acc, vb);
    Join(Rev(acc, vb), 0, 32 - vb);
    RevBound(acc, 32);
    Pow2Constants();
  }

  /** A codeword that is pending either shows in the buffer, or is too long for it and the buffer
      then shows another codeword that is too long. */
  lemma PrefixShows(lens: seq<nat>, codes: seq<nat>, p: Bits, acc: nat, vb: nat, e: nat) returns (d: nat)
    requires Code(lens, codes) && vb <= 32 && acc == Low(p.val, vb) && Prefix(lens, codes, p, e)
    ensures Owner(lens, codes, Mirror(acc), d)
    ensures if lens[e] <= vb then d == e else lens[d] > vb
  {
    CodeOf(lens, codes, e);
    if lens[e] <= vb {
      LowLow(p.val, lens[e], vb);
      PrefixIsBlock(acc, codes[e], lens[e]);
      d := e;
    } else {
      MirrorBuffer(p.val, acc, vb);
      PrefixIsBlock(p.val, codes[e], lens[e]);
      OwnsShorter(codes[e], lens[e], Mirror(p.val), vb);
      d := BlockStart(lens, codes, Mirror(acc), vb, e);
    }
  }

  /** Conversely an owner that fits the buffer is pending. */
  lemma ShownIsPrefix(lens: seq<nat>, codes: seq<nat>, p: Bits, acc: nat, vb: nat, d: nat)
    requires Code(lens, codes) && vb <= 32 && acc == Low(p.val, vb) && vb <= p.len
    requires Owner(lens, codes, Mirror(acc), d) && lens[d] <= vb
    ensures Prefix(lens, codes, p, d)
  {
    CodeOf(lens, codes, d);
    LowLow(p.val, lens[d], vb);
    PrefixIsBlock(acc, codes[d], lens[d]);
  }

  /** A complete code leaves no word without an owner. */
  lemma {:induction false} CompleteOwns(lens: seq<nat>, codes: seq<nat>, w: nat) returns (d: nat)
    requires Code(lens, codes) && KraftSum(lens, |lens|) == WORD && w < WORD
    ensures Owner(lens, codes, w, d)
  {
    var t := TilesOf(lens, codes);
    if InLeaf(t, w) {
      var i :| 0 <= i < 32 && Leaf(t, i) && Owns(t.av[i], i, w);
      LeafSumPositive(t, i, |t.av|);
      assert false;
    }
    assert Covered(lens, codes, w);
    d :| 0 <= d < |codes| && Used(lens, d) && Owns(codes[d], lens[d], w);
  }

  lemma {:induction false} LeafSumPositive(t: Leaves, i: nat, k: nat)
    requires |t.av| == 32 && i < k <= 32 && Leaf(t, i)
    ensures LeafSum(t, k) > 0
  {
    if i < k - 1 { LeafSumPositive(t, i, k - 1); }
  }

  // ---------------------------------------------------------------------
  // Binary and linear search
  // ---------------------------------------------------------------------

  /** The test that selects binary search. */
  predicate UsesBinary(t: Tables) {
    if t.entries > 8 then t.haveSorted else !t.haveCodewords
  }

  /** A book without a table: a sparse one that uses no entry. */
  predicate NoTables(t: Tables) { !t.haveCodewords && !t.haveSorted }

  predicate Position(t: Tables, x: int) {
    0 <= x < |t.lengths| && (t.sparse ==> x < |t.sortedValues|)
  }

  /** The symbol behind a table position. */
  function EntryOf(t: Tables, x: int): nat
    requires Position(t, x)
  {
    if t.sparse then t.sortedValues[x] else x
  }

  /** Entries that the search after the ten-bit table can deliver. */
  predicate InSearch(t: Tables, lens: seq<nat>, e: nat)
    requires e < |lens|
  {
    t.sparse || !UsesBinary(t) || lens[e] > FAST_LENGTH
  }

  /** Entries that can be decoded at all: a dense book with long codes loses the short codewords of
      entries past the reach of its 16-bit table. */
  predicate Decodable(t: Tables, lens: seq<nat>, e: nat)
    requires e < |lens|
  {
    InSearch(t, lens, e) || e < MAX_FAST
  }

  /** Position x stands for an entry with a code, and knows its length. */
  ghost predicate GoodPosition(t: Tables, lens: seq<nat>, x: int) {
    Position(t, x) && EntryOf(t, x) < |lens| && Used(lens, EntryOf(t, x)) && t.lengths[x] == lens[EntryOf(t, x)]
  }

  /** If the buffer shows the codeword of e, the outcome d is e, or -1 when it is incomplete. */
  ghost predicate Finds(lens: seq<nat>, codes: seq<nat>, acc: nat, vb: int, d: int, e: nat)
    requires |codes| == |lens| && ValidLengths(lens)
  {
    Owner(lens, codes, Mirror(acc), e) ==> d == if lens[e] <= vb then e else -1
  }

  method BinaryPosition(c: Codebook, acc: nat, ghost lens: seq<nat>, ghost codes: seq<nat>) returns (x: nat)
    requires c.Ready(lens, codes) && c.haveSorted
    ensures GoodPosition(c.Tables(), lens, x) && InSearch(c.Tables(), lens, EntryOf(c.Tables(), x))
    ensures forall e: nat :: Owner(lens, codes, Mirror(acc), e) && Included(c.sparse, lens[e]) ==> EntryOf(c.Tables(), x) == e
  {
    ghost var t := c.Tables();
    assert Opened(0);
    var code := BitReverse(acc);
    var y := Search(c.sortedCodewords, c.sortedEntries, code);
    assert TableRow(lens, codes, t.sparse, t.sortedCodes[y], t.sortedValues[y]);
    forall e: nat | Owner(lens, codes, Mirror(acc), e) && Included(c.sparse, lens[e]) ensures t.sortedValues[y] == e {
      BinaryFinds(lens, codes, t.sparse, t.sortedCodes, t.sortedValues, t.lengths, code, e, y);
    }
    x := if c.sparse then y else c.sortedValues[y];
  }

  method LinearPosition(c: Codebook, acc: nat, ghost lens: seq<nat>, ghost codes: seq<nat>) returns (x: int)
    requires c.Ready(lens, codes) && !c.sparse
    ensures x == -1 || (x >= 0 && Owner(lens, codes, Mirror(acc), x))
    ensures forall e: nat :: Owner(lens, codes, Mirror(acc), e) ==> x == e
  {
    ghost var t := c.Tables();
    assert Opened(0);
    var i := 0;
    while i < c.entries
      invariant 0 <= i <= c.entries
      invariant forall e :: 0 <= e < i ==> !Owner(lens, codes, Mirror(acc), e)
    {
      assert c.codewordLengths[i] == t.lengths[i] == lens[i] && c.codewords[i] == t.codewords[i];
      if c.codewordLengths[i] != NO_CODE {
        CodeOf(lens, codes, i);
        PrefixIsBlock(acc, codes[i], lens[i]);
        assert t.codewords[i] == Mirror(codes[i]);
        if c.codewords[i] == Low(acc, c.codewordLengths[i]) {
          forall e: nat | Owner(lens, codes, Mirror(acc), e) ensures e == i {
            OwnerUnique(lens, codes, Mirror(acc), e, i);
          }
          return i;
        }
      }
      i := i + 1;
    }
    return -1;
  }

  /** Where the search of `codebook_decode_scalar_raw` ends for a given buffer. */
  method SearchPosition(c: Codebook, acc: nat, ghost lens: seq<nat>, ghost codes: seq<nat>) returns (x: int)
    requires c.Ready(lens, codes) && !NoTables(c.Tables())
    ensures x == -1 || (GoodPosition(c.Tables(), lens, x) && InSearch(c.Tables(), lens, EntryOf(c.Tables(), x)))
    ensures forall e: nat :: Owner(lens, codes, Mirror(acc), e) && InSearch(c.Tables(), lens, e) ==>
      x >= 0 && EntryOf(c.Tables(), x) == e
  {
    assert Opened(0);
    assert UsesBinary(c.Tables()) == (if c.entries > 8 then c.haveSorted else !c.haveCodewords);
    if (if c.entries > 8 then c.haveSorted else !c.haveCodewords) {
      x := BinaryPosition(c, acc, lens, codes);
    } else {
      x := LinearPosition(c, acc, lens, codes);
    }
  }

  lemma NothingToFind(t: Tables, lens: seq<nat>, codes: seq<nat>, acc: nat)
    requires Describes(t, lens, codes) && !t.haveCodewords && !t.haveSorted
    ensures forall e: nat :: !Owner(lens, codes, Mirror(acc), e)
  {
    forall e: nat | Owner(lens, codes, Mirror(acc), e) ensures false {
      TableNotEmpty(t, lens, codes, e);
    }
  }

  /** A book has no table exactly if it is sparse and uses no entry. */
  lemma NoTablesIff(t: Tables, lens: seq<nat>, codes: seq<nat>)
    requires Describes(t, lens, codes)
    ensures NoTables(t) <==> t.sparse && forall e :: 0 <= e < |lens| ==> !Used(lens, e)
  {
    if NoTables(t) {
      forall e | 0 <= e < |lens| && Used(lens, e) ensures false {
        TableNotEmpty(t, lens, codes, e);
      }
    } else if t.sparse {
      assert TableRow(lens, codes, t.sparse, t.sortedCodes[0], t.sortedValues[0]);
      assert Used(lens, t.sortedValues[0]);
    }
  }

  lemma OwnerHasTable(t: Tables, lens: seq<nat>, codes: seq<nat>, acc: nat, e: nat)
    requires Describes(t, lens, codes) && Owner(lens, codes, Mirror(acc), e)
    ensures !NoTables(t)
  {
    if NoTables(t) { NothingToFind(t, lens, codes, acc); }
  }

  lemma TableNotEmpty(t: Tables, lens: seq<nat>, codes: seq<nat>, e: nat)
    requires Describes(t, lens, codes) && e < |lens| && Included(t.sparse, lens[e])
    ensures |t.sortedCodes| > 0
  {
    assert codes[e] in t.sortedCodes;
  }

  // ---------------------------------------------------------------------
  // codebook_decode_scalar_raw
  // ---------------------------------------------------------------------

  /** The result as an entry, -1 for none. */
  function Outcome(t: Tables, x: int): int
    requires x == -1 || Position(t, x)
  {
    if x < 0 then -1 else EntryOf(t, x)
  }

  function After(p: Bits, n: nat): Bits
    requires n <= p.len
  {
    Bits(High(p.val, n), p.len - n)
  }

  /** d is an outcome of decoding from p with vb bits buffered: the bits of its codeword, which
      were buffered, are gone; or nothing was decoded and the buffer is dropped, unless the book has
      no table, which costs no bits. */
  ghost predicate Consumed(f: Stream, t: Tables, lens: seq<nat>, p: Bits, vb: int, d: int)
    reads f
  {
    if d < 0 then d == -1 && if NoTables(t) then f.validBits == vb >= 0 && PendingBits(f) == p else f.validBits == 0
    else
      && d < |lens| && Used(lens, d) && lens[d] <= vb && lens[d] <= p.len
      && f.validBits >= 0 && PendingBits(f) == After(p, lens[d])
  }

  /** Every codeword of R that the buffer shows is the one decoded, if it is there completely. */
  ghost predicate FindsAll(lens: seq<nat>, codes: seq<nat>, acc: nat, vb: int, d: int, R: set<nat>)
    requires |codes| == |lens| && ValidLengths(lens)
  {
    forall e :: e in R ==> Finds(lens, codes, acc, vb, d, e)
  }

  ghost function Searched(t: Tables, lens: seq<nat>): set<nat> {
    set e | 0 <= e < |lens| && InSearch(t, lens, e)
  }

  ghost function AllDecodable(t: Tables, lens: seq<nat>): set<nat> {
    set e | 0 <= e < |lens| && Decodable(t, lens, e)
  }

  /** The end of both procedures: a codeword of length len comes off the buffer, or the buffer is
      dropped because it is shorter. */
  method Accept(f: Stream, x: nat, len: nat) returns (r: int)
    requires Sound(f)
    modifies f`acc, f`validBits
    ensures Sound(f)
    ensures if len <= old(f.validBits) then
              r == x && f.validBits >= 0 && len <= old(PendingBits(f)).len
              && PendingBits(f) == After(old(PendingBits(f)), len)
            else r == -1 && f.validBits == 0
  {
    if f.validBits >= len {
      var _ := Cut(f, len);
      return x;
    }
    DropBuffer(f);
    return -1;
  }

  /** What a buffer holds after `PrepHuffman`, as a number. */
  lemma BufferIsLow(f: Stream)
    requires Buffered(f) && f.validBits >= 0 && f.acc < Pow2(f.validBits)
    ensures f.acc == Low(PendingBits(f).val, f.validBits) && f.validBits <= PendingBits(f).len
  {
    LowSmall(f.acc, f.validBits);
    Join(BytesValue(f.rest), f.acc, f.validBits);
  }

  /** How many bits the next refill can buffer. */
  ghost function RefillTo(f: Stream): nat
    requires f.validBits >= 0
    reads f
  {
    PrepBits(f.validBits, |f.rest|)
  }

  /** On a packet that is over the mark of the reader is dropped, except by a book without a table. */
  predicate SpentStays(t: Tables, validBits: int) {
    if NoTables(t) then validBits < 0 else validBits == 0
  }

  method DecodeScalarRaw(f: Stream, c: Codebook, ghost lens: seq<nat>, ghost codes: seq<nat>) returns (r: int)
    requires Sound(f) && c.Ready(lens, codes)
    modifies f
    ensures Sound(f) && (r == -1 || Position(c.Tables(), r))
    ensures old(f.validBits) < 0 ==> r == -1 && SpentStays(c.Tables(), f.validBits)
    ensures old(f.validBits) >= 0 ==>
      var p, vb := old(PendingBits(f)), old(RefillTo(f));
      && Consumed(f, c.Tables(), lens, p, vb, Outcome(c.Tables(), r))
      && FindsAll(lens, codes, Low(p.val, vb), vb, Outcome(c.Tables(), r), Searched(c.Tables(), lens))
      && (r >= 0 ==> InSearch(c.Tables(), lens, EntryOf(c.Tables(), r)))
  {
    PrepHuffman(f);
    if f.validBits >= 0 { BufferIsLow(f); }
    if !c.haveCodewords && !c.haveSorted {
      NothingToFind(c.Tables(), lens, codes, f.acc) by { assert Opened(0); }
      return -1;
    }
    var x := SearchPosition(c, f.acc, lens, codes);
    if x < 0 {
      DropBuffer(f);
      return -1;
    }
    r := Accept(f, x, c.codewordLengths[x]);
  }

  // ---------------------------------------------------------------------
  // The ten-bit table in front
  // ---------------------------------------------------------------------

  ghost function Reach(t: Tables): nat { if |t.lengths| <= MAX_FAST then |t.lengths| else MAX_FAST }

  lemma PositionsAreCodeList(t: Tables, lens: seq<nat>, codes: seq<nat>)
    requires Describes(t, lens, codes)
    ensures CodeList(t.lengths, Positions(t, codes))
  {
    if t.sparse {
      SortedIsCodeList(lens, codes, t.sortedCodes, t.sortedValues, t.lengths);
    } else {
      EntriesAreCodeList(lens, codes);
    }
  }

  /** A table hit names the owner of the buffer. */
  lemma FastHit(t: Tables, lens: seq<nat>, codes: seq<nat>, acc: nat)
    requires Describes(t, lens, codes) && Low(acc, FAST_LENGTH) < FAST_SIZE
    requires t.fast[Low(acc, FAST_LENGTH)] >= 0
    ensures var i := t.fast[Low(acc, FAST_LENGTH)];
            && GoodPosition(t, lens, i) && Decodable(t, lens, EntryOf(t, i))
            && Owner(lens, codes, Mirror(acc), EntryOf(t, i))
  {
    var C, z := Positions(t, codes), Low(acc, FAST_LENGTH);
    var i := t.fast[z];
    assert FastSlot(t.lengths, C, i, z, Reach(t));
    PositionsAreCodeList(t, lens, codes);
    LowLow(acc, t.lengths[i], FAST_LENGTH);
    PrefixIsBlock(acc, C[i], t.lengths[i]);
    if t.sparse { assert TableRow(lens, codes, true, C[i], t.sortedValues[i]); }
  }

  /** After a miss no short codeword within the table's reach is pending. */
  lemma FastMiss(t: Tables, lens: seq<nat>, codes: seq<nat>, acc: nat, v: nat, e: nat)
    requires Describes(t, lens, codes) && !t.sparse && e < |lens| && e < MAX_FAST && lens[e] <= FAST_LENGTH
    requires Low(acc, FAST_LENGTH) < FAST_SIZE && t.fast[Low(acc, FAST_LENGTH)] < 0
    requires Low(acc, lens[e]) == Low(v, lens[e])
    ensures !Owner(lens, codes, Mirror(v), e)
  {
    PositionsAreCodeList(t, lens, codes);
    FastExact(lens, codes, t.fast, Reach(t), Low(acc, FAST_LENGTH), e);
    if Owner(lens, codes, Mirror(v), e) {
      CodeOf(lens, codes, e);
      LowLow(acc, lens[e], FAST_LENGTH);
      PrefixIsBlock(v, codes[e], lens[e]);
    }
  }

  /** The same codeword shows in a fuller buffer. */
  lemma HitStays(lens: seq<nat>, codes: seq<nat>, p: Bits, v0: nat, vb: nat, d: nat, R: set<nat>)
    requires Code(lens, codes) && v0 <= vb <= 32 && vb <= p.len
    requires Owner(lens, codes, Mirror(Low(p.val, v0)), d) && lens[d] <= v0
    ensures FindsAll(lens, codes, Low(p.val, vb), vb, d, R)
    ensures lens[d] <= p.len
  {
    ShownIsPrefix(lens, codes, p, Low(p.val, v0), v0, d);
    var o := PrefixShows(lens, codes, p, Low(p.val, vb), vb, d);
    forall e | e in R ensures Finds(lens, codes, Low(p.val, vb), vb, d, e) {
      if Owner(lens, codes, Mirror(Low(p.val, vb)), e) { OwnerUnique(lens, codes, Mirror(Low(p.val, vb)), d, e); }
    }
  }

  lemma HitTooLong(lens: seq<nat>, codes: seq<nat>, acc: nat, vb: nat, d: nat, R: set<nat>)
    requires Code(lens, codes) && Owner(lens, codes, Mirror(acc), d) && lens[d] > vb
    ensures FindsAll(lens, codes, acc, vb, -1, R)
  {
    forall e | e in R ensures Finds(lens, codes, acc, vb, -1, e) {
      if Owner(lens, codes, Mirror(acc), e) { OwnerUnique(lens, codes, Mirror(acc), d, e); }
    }
  }

  /** A second refill has nothing to add. */
  lemma PrepTwice(vb: nat, k: nat, k1: nat)
    requires vb <= 32 && PrepBits(vb, k) + 8 * k1 == vb + 8 * k
    ensures PrepBits(PrepBits(vb, k), k1) == PrepBits(vb, k)
  {
    PrepBitsEnough(vb, k);
  }

  lemma LowFast(acc: nat)
    ensures Low(acc, FAST_LENGTH) < FAST_SIZE
  {
    Split(acc, FAST_LENGTH);
    Pow2Constants();
  }

  /** The contract of both decoders: r is the table position of what is decoded from p. */
  ghost predicate DecodedFrom(f: Stream, t: Tables, lens: seq<nat>, codes: seq<nat>, p: Bits, vb: nat, r: int)
    requires |codes| == |lens| && ValidLengths(lens) && (r == -1 || Position(t, r))
    reads f
  {
    && Consumed(f, t, lens, p, vb, Outcome(t, r))
    && FindsAll(lens, codes, Low(p.val, vb), vb, Outcome(t, r), AllDecodable(t, lens))
    && (r >= 0 ==> Decodable(t, lens, EntryOf(t, r)))
  }

  /** Between the refill and the table lookup: p is pending, all buffered bits are below vb, and a
      further refill stops at vb. */
  ghost predicate Looking(f: Stream, p: Bits, vb: nat)
    reads f
  {
    && Sound(f) && 0 <= f.validBits <= vb <= 32 && vb <= p.len && PendingBits(f) == p
    && f.acc == Low(p.val, f.validBits)
    && RefillTo(f) == vb
    && (f.validBits >= FAST_LENGTH || f.validBits == vb)
  }

  /** The first line of `DECODE_RAW`. */
  method PrepForTable(f: Stream)
    requires Sound(f)
    modifies f
    ensures Sound(f)
    ensures old(f.validBits) < 0 ==> f.validBits < 0
    ensures old(f.validBits) >= 0 ==> Looking(f, old(PendingBits(f)), old(RefillTo(f)))
  {
    ghost var v0, k := f.validBits, |f.rest|;
    if v0 >= 0 { PrepBitsEnough(v0, k); }
    if f.validBits < FAST_LENGTH { PrepHuffman(f); }
    if v0 >= 0 {
      BufferIsLow(f);
      if f.validBits == PrepBits(v0, k) { PrepTwice(v0, k, |f.rest|); }
    }
  }

  /** A table hit. */
  method DecodeFast(f: Stream, c: Codebook, ghost lens: seq<nat>, ghost codes: seq<nat>, i: nat,
                    ghost p: Bits, ghost vb: nat) returns (r: int)
    requires Sealed(c.Tables(), lens, codes) && Low(f.acc, FAST_LENGTH) < FAST_SIZE == |c.Tables().fast|
    requires i == c.Tables().fast[Low(f.acc, FAST_LENGTH)]
    requires Sound(f) && (f.validBits >= 0 ==> Looking(f, p, vb))
    modifies f`acc, f`validBits
    ensures Sound(f) && (r == -1 || Position(c.Tables(), r))
    ensures old(f.validBits) < 0 ==> r == -1 && SpentStays(c.Tables(), f.validBits)
    ensures old(f.validBits) >= 0 ==> DecodedFrom(f, c.Tables(), lens, codes, p, vb, r)
  {
    ghost var t := c.Tables();
    assert Describes(t, lens, codes) by { assert Opened(0); }
    FastHit(t, lens, codes, f.acc);
    OwnerHasTable(t, lens, codes, f.acc, EntryOf(t, i));
    ghost var d, v0 := EntryOf(t, i), f.validBits;
    if v0 >= 0 {
      if lens[d] <= v0 {
        HitStays(lens, codes, p, v0, vb, d, AllDecodable(t, lens));
      } else {
        HitTooLong(lens, codes, Low(p.val, vb), vb, d, AllDecodable(t, lens));
      }
    }
    r := Accept(f, i, c.codewordLengths[i]);
  }

  /** After a miss the search finds whatever can be decoded. */
  lemma MissExtends(t: Tables, lens: seq<nat>, codes: seq<nat>, acc: nat, v: nat, v0: nat, vb: nat, d: int)
    requires Describes(t, lens, codes) && Low(acc, FAST_LENGTH) < FAST_SIZE && t.fast[Low(acc, FAST_LENGTH)] < 0
    requires acc == Low(v, v0) && v0 <= vb && (v0 >= FAST_LENGTH || v0 == vb)
    requires FindsAll(lens, codes, Low(v, vb), vb, d, Searched(t, lens))
    ensures FindsAll(lens, codes, Low(v, vb), vb, d, AllDecodable(t, lens))
  {
    forall e | e in AllDecodable(t, lens) ensures Finds(lens, codes, Low(v, vb), vb, d, e) {
      if InSearch(t, lens, e) {
        assert e in Searched(t, lens);
      } else {
        if v0 < vb {
          LowLow(v, lens[e], v0);
          LowLow(v, lens[e], vb);
        }
        FastMiss(t, lens, codes, acc, Low(v, vb), e);
      }
    }
  }

  /** `DECODE_RAW`. */
  method DecodeRaw(f: Stream, c: Codebook, ghost lens: seq<nat>, ghost codes: seq<nat>) returns (r: int)
    requires Sound(f) && c.Ready(lens, codes)
    modifies f
    ensures Sound(f) && (r == -1 || Position(c.Tables(), r))
    ensures old(f.validBits) < 0 ==> r == -1 && SpentStays(c.Tables(), f.validBits)
    ensures old(f.validBits) >= 0 ==>
      DecodedFrom(f, c.Tables(), lens, codes, old(PendingBits(f)), old(RefillTo(f)), r)
  {
    ghost var p, vb := Bits(0, 0), 0;
    if f.validBits >= 0 { p, vb := PendingBits(f), RefillTo(f); }
    PrepForTable(f);
    label Looked:
    LowFast(f.acc);
    assert |c.Tables().fast| == FAST_SIZE by { assert Opened(0); }
    var i := c.fastHuffman[Low(f.acc, FAST_LENGTH)];
    assert i == c.Tables().fast[Low(f.acc, FAST_LENGTH)];
    if i >= 0 {
      r := DecodeFast(f, c, lens, codes, i, p, vb);
    } else {
      r := DecodeScalarRaw(f, c, lens, codes);
      if old(f.validBits) >= 0 {
        assert Opened(0);
        MissExtends(c.Tables(), lens, codes, old@Looked(f.acc), p.val, old@Looked(f.validBits), vb, Outcome(c.Tables(), r));
      }
    }
  }
}
