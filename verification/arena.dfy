// The two-ended allocator of the Vorbis decoder (core/include/stb_vorbis.c), in
// the mode where the caller passes one buffer: set-up memory grows up from its
// start, temporary memory grows down from its end.
module Arena {
  import opened Basics

  const INT_MAX := 0x7FFF_FFFF
  const UINT32 := 0x1_0000_0000

  /** `(sz + 7) & ~7`. */
  function Round(size: nat): nat {
    (size + 7) / 8 * 8
  }

  /** The next multiple of 8. */
  lemma RoundIs(size: nat)
    ensures size <= Round(size) < size + 8 && Round(size) % 8 == 0
  {
  }

  /** The C conversion of a 64-bit size to `int`. */
  function ToInt(size: nat): int {
    var low := size % UINT32;
    if low > INT_MAX then low - UINT32 else low
  }

  /** The sizes both allocators turn down outright. */
  predicate Refused(size: nat) {
    ToInt(size) <= 0 || INT_MAX - 7 < size
  }

  lemma RefusedSizes(size: nat)
    ensures Refused(size) <==> size == 0 || INT_MAX - 7 < size
    ensures !Refused(size) ==> ToInt(size) == size
  {
  }

  /** A block that was handed out: where it starts, and the size asked for. */
  datatype Block = Block(at: nat, size: nat)
  {
    function End(): nat {
      at + Round(size)
    }
  }

  predicate Disjoint(a: Block, b: Block) {
    a.End() <= b.at || b.End() <= a.at
  }

  /** Blocks that fill lo..hi upwards, the latest on top. */
  predicate Up(blocks: seq<Block>, lo: nat, hi: nat) {
    if blocks == [] then lo == hi
    else var b := blocks[|blocks| - 1]; b.End() == hi && b.size > 0 && Up(blocks[..|blocks| - 1], lo, b.at)
  }

  /** Blocks that fill lo..hi downwards, the latest at the bottom. */
  predicate Down(blocks: seq<Block>, lo: nat, hi: nat) {
    if blocks == [] then lo == hi
    else var b := blocks[|blocks| - 1]; b.at == lo && b.size > 0 && Down(blocks[..|blocks| - 1], b.End(), hi)
  }

  lemma {:induction false} UpAt(blocks: seq<Block>, lo: nat, hi: nat, i: nat)
    requires Up(blocks, lo, hi) && lo % 8 == 0 && i < |blocks|
    ensures lo <= blocks[i].at && blocks[i].End() <= hi && blocks[i].at % 8 == 0 && hi % 8 == 0 && blocks[i].size > 0
  {
    var init := blocks[..|blocks| - 1];
    UpAligned(init, lo, blocks[|blocks| - 1].at);
    if i < |init| {
      UpAt(init, lo, blocks[|blocks| - 1].at, i);
    }
  }

  lemma {:induction false} UpAligned(blocks: seq<Block>, lo: nat, hi: nat)
    requires Up(blocks, lo, hi) && lo % 8 == 0
    ensures lo <= hi && hi % 8 == 0
  {
    if blocks != [] {
      UpAligned(blocks[..|blocks| - 1], lo, blocks[|blocks| - 1].at);
    }
  }

  lemma {:induction false} UpApart(blocks: seq<Block>, lo: nat, hi: nat, i: nat, j: nat)
    requires Up(blocks, lo, hi) && lo % 8 == 0 && i < j < |blocks|
    ensures blocks[i].End() <= blocks[j].at
  {
    var init := blocks[..|blocks| - 1];
    if j < |init| {
      UpApart(init, lo, blocks[|blocks| - 1].at, i, j);
    } else {
      UpAt(init, lo, blocks[j].at, i);
    }
  }

  lemma {:induction false} DownAligned(blocks: seq<Block>, lo: nat, hi: nat)
    requires Down(blocks, lo, hi) && hi % 8 == 0
    ensures lo <= hi && lo % 8 == 0
  {
    if blocks != [] {
      DownAligned(blocks[..|blocks| - 1], blocks[|blocks| - 1].End(), hi);
    }
  }

  lemma {:induction false} DownAt(blocks: seq<Block>, lo: nat, hi: nat, i: nat)
    requires Down(blocks, lo, hi) && hi % 8 == 0 && i < |blocks|
    ensures lo <= blocks[i].at && blocks[i].End() <= hi && blocks[i].at % 8 == 0 && blocks[i].size > 0
  {
    var init, b := blocks[..|blocks| - 1], blocks[|blocks| - 1];
    DownAligned(init, b.End(), hi);
    if i < |init| {
      DownAt(init, b.End(), hi, i);
    }
  }

  lemma {:induction false} DownApart(blocks: seq<Block>, lo: nat, hi: nat, i: nat, j: nat)
    requires Down(blocks, lo, hi) && hi % 8 == 0 && i < j < |blocks|
    ensures blocks[j].End() <= blocks[i].at
  {
    var init, b := blocks[..|blocks| - 1], blocks[|blocks| - 1];
    if j < |init| {
      DownApart(init, b.End(), hi, i, j);
    } else {
      DownAt(init, b.End(), hi, i);
    }
  }

  lemma PushUp(blocks: seq<Block>, lo: nat, hi: nat, size: nat)
    requires Up(blocks, lo, hi) && size > 0
    ensures Up(blocks + [Block(hi, size)], lo, hi + Round(size))
  {
    assert (blocks + [Block(hi, size)])[..|blocks|] == blocks;
  }

  lemma PushDown(blocks: seq<Block>, lo: nat, hi: nat, size: nat)
    requires Down(blocks, lo, hi) && 0 < size && Round(size) <= lo
    ensures Down(blocks + [Block(lo - Round(size), size)], lo - Round(size), hi)
  {
    assert (blocks + [Block(lo - Round(size), size)])[..|blocks|] == blocks;
  }

  class Allocator {
    const length: nat
    var setupOffset: nat
    var tempOffset: nat
    var setupMemoryRequired: nat
    ghost var setup: seq<Block>  // set-up memory is never given back
    ghost var temp: seq<Block>   // a stack

    ghost predicate Valid()
      reads this
    {
      && length <= INT_MAX && length % 8 == 0
      && setupOffset <= tempOffset <= length
      && Up(setup, 0, setupOffset) && Down(temp, tempOffset, length)
    }

    constructor (lengthInBytes: nat)
      requires lengthInBytes <= INT_MAX
      ensures Valid() && length == lengthInBytes / 8 * 8 && tempOffset == length
      ensures setup == [] && temp == []
    {
      length := lengthInBytes / 8 * 8;
      setupOffset, tempOffset, setupMemoryRequired := 0, lengthInBytes / 8 * 8, 0;
      setup, temp := [], [];
    }

    method SetupMalloc(size: nat) returns (p: Option<nat>)
      requires Valid()
      modifies this
      ensures Valid() && temp == old(temp) && tempOffset == old(tempOffset)
      ensures p.Some? <==> 0 < size <= INT_MAX - 7 && old(setupOffset) + Round(size) <= tempOffset
      ensures setup == old(setup) + if p.Some? then [Block(p.value, size)] else []
    {
      RefusedSizes(size);
      if Refused(size) {
        return None;
      }
      var sz := Round(size);
      setupMemoryRequired := (setupMemoryRequired + sz) % UINT32;
      p := Some(setupOffset);
      if tempOffset < sz || tempOffset - sz < setupOffset {
        return None;
      }
      PushUp(setup, 0, setupOffset, size);
      setup := setup + [Block(setupOffset, size)];
      setupOffset := setupOffset + sz;
    }

    method SetupTempMalloc(size: nat) returns (p: Option<nat>)
      requires Valid()
      modifies this`tempOffset, this`temp
      ensures Valid()
      ensures p.Some? <==> 0 < size <= INT_MAX - 7 && setupOffset + Round(size) <= old(tempOffset)
      ensures temp == old(temp) + if p.Some? then [Block(p.value, size)] else []
      ensures tempOffset == old(tempOffset) - if p.Some? then Round(size) else 0
    {
      RefusedSizes(size);
      if Refused(size) {
        return None;
      }
      var sz := Round(size);
      if tempOffset < sz || tempOffset - sz < setupOffset {
        return None;
      }
      PushDown(temp, tempOffset, length, size);
      tempOffset := tempOffset - sz;
      temp := temp + [Block(tempOffset, size)];
      p := Some(tempOffset);
    }

    /** Gives the latest temporary block back; a size of 0 stands for a block that was never handed out. */
    method SetupTempFree(size: nat)
      requires Valid() && (size > 0 ==> temp != [] && temp[|temp| - 1].size == size)
      modifies this`tempOffset, this`temp
      ensures Valid() && temp == if size > 0 then old(temp)[..|old(temp)| - 1] else old(temp)
      ensures tempOffset == old(tempOffset) + Round(size)
    {
      if size > 0 {
        DownAligned(temp[..|temp| - 1], temp[|temp| - 1].End(), length);
        temp := temp[..|temp| - 1];
      }
      tempOffset := tempOffset + Round(size);
    }

    /** All live blocks lie in the buffer, start at multiples of 8, and no two overlap. */
    lemma LiveBlocks(i: nat, j: nat)
      requires Valid() && i < |setup + temp| && j < |setup + temp|
      ensures (setup + temp)[i].at % 8 == 0 && (setup + temp)[i].at + (setup + temp)[i].size <= length
      ensures i != j ==> Disjoint((setup + temp)[i], (setup + temp)[j])
    {
      if i < |setup| {
        UpAt(setup, 0, setupOffset, i);
      } else {
        DownAt(temp, tempOffset, length, i - |setup|);
      }
      if j < |setup| {
        UpAt(setup, 0, setupOffset, j);
      } else {
        DownAt(temp, tempOffset, length, j - |setup|);
      }
      var lo, hi := if i < j then i else j, if i < j then j else i;
      if lo < hi < |setup| {
        UpApart(setup, 0, setupOffset, lo, hi);
      } else if |setup| <= lo < hi {
        DownApart(temp, tempOffset, length, lo - |setup|, hi - |setup|);
      }
    }

    /** The memory a codebook asks for while it is parsed, on every path of the parser. */
    method ParseCodebook(b: Book) returns (ok: bool)
      requires Valid()
      modifies this
      ensures Valid() && old(setup) <= setup
      ensures ok ==> temp == old(temp) && tempOffset == old(tempOffset)
    {
      var sparse;
      ok, sparse := AllocateLengths(b);
      if !ok {
        return;
      }
      ok := BuildTables(b, sparse, old(temp));
      if ok && b.lookupType > 0 {
        ok := BuildLookup(b, sparse);
      }
    }

    /** The codeword lengths: in temporary memory for a sparse book, unless it is nearly full. */
    method AllocateLengths(b: Book) returns (ok: bool, sparse: bool)
      requires Valid()
      modifies this
      ensures Valid() && old(setup) <= setup
      ensures ok ==> b.entries > 0 && if sparse then OnTop(temp, old(temp), [b.entries]) else temp == old(temp)
    {
      sparse := b.sparse;
      var lengths;
      if sparse {
        lengths := SetupTempMalloc(b.entries);
      } else {
        lengths := SetupMalloc(b.entries);
      }
      ok := lengths.Some? && b.lengthsOk;
      if !ok {
        return;
      }
      if sparse {
        assert OnTop(old(temp), old(temp), []) && [b.entries] + [] == [b.entries];
        PushOnTop(old(temp), old(temp), [], Block(lengths.value, b.entries));
      }
      if sparse && b.total >= b.entries / 4 {
        var copy := SetupMalloc(b.entries);
        ok := copy.Some?;
        if ok {
          PopOnTop(temp, old(temp), b.entries, []);
          SetupTempFree(b.entries);
          sparse := false;
        }
      }
    }

    /** Codewords and sorted tables; for a sparse book on three temporary blocks. */
    method BuildTables(b: Book, sparse: bool, ghost before: seq<Block>) returns (ok: bool)
      requires Valid() && b.entries > 0
      requires if sparse then OnTop(temp, before, [b.entries]) else temp == before
      modifies this
      ensures Valid() && old(setup) <= setup
      ensures ok ==> temp == before
    {
      var sorted := if sparse then b.total else b.longCount;
      ok := AllocateWords(b, sparse, sorted, before);
      if !ok || !b.codesOk {
        return false;
      }
      ok := AllocateSorted(sorted);
      if ok && sparse {
        FreeWords(b.entries, sorted, before);
      }
    }

    method AllocateWords(b: Book, sparse: bool, sorted: nat, ghost before: seq<Block>) returns (ok: bool)
      requires Valid() && (sparse ==> OnTop(temp, before, [b.entries]))
      modifies this
      ensures Valid() && old(setup) <= setup
      ensures !sparse ==> temp == old(temp)
      ensures ok && sparse ==> OnTop(temp, before, if sorted > 0 then [4 * sorted, 4 * sorted, b.entries] else [b.entries])
    {
      if !sparse {
        var words := SetupMalloc(4 * b.entries);
        return words != None;
      } else if sorted > 0 {
        var kept := SetupMalloc(sorted);
        if kept == None {
          return false;
        }
        var words := SetupTempMalloc(4 * sorted);
        if words == None {
          return false;
        }
        PushOnTop(old(temp), before, [b.entries], Block(words.value, 4 * sorted));
        assert [4 * sorted] + [b.entries] == [4 * sorted, b.entries];
        ghost var two := temp;
        var values := SetupTempMalloc(4 * sorted);
        if values == None {
          return false;
        }
        PushOnTop(two, before, [4 * sorted, b.entries], Block(values.value, 4 * sorted));
        assert [4 * sorted] + [4 * sorted, b.entries] == [4 * sorted, 4 * sorted, b.entries];
      }
      ok := true;
    }

    method AllocateSorted(sorted: nat) returns (ok: bool)
      requires Valid()
      modifies this
      ensures Valid() && old(setup) <= setup && temp == old(temp)
    {
      if sorted > 0 {
        // one slot more for a sentinel
        var sortedWords := SetupMalloc(4 * (sorted + 1));
        if sortedWords == None {
          return false;
        }
        var sortedValues := SetupMalloc(4 * (sorted + 1));
        if sortedValues == None {
          return false;
        }
      }
      ok := true;
    }

    method FreeWords(entries: nat, sorted: nat, ghost before: seq<Block>)
      requires Valid() && entries > 0
      requires OnTop(temp, before, if sorted > 0 then [4 * sorted, 4 * sorted, entries] else [entries])
      modifies this`tempOffset, this`temp
      ensures Valid() && temp == before
    {
      if sorted > 0 {
        assert [4 * sorted] + [4 * sorted, entries] == [4 * sorted, 4 * sorted, entries];
        PopOnTop(temp, before, 4 * sorted, [4 * sorted, entries]);
      }
      SetupTempFree(4 * sorted);
      if sorted > 0 {
        assert [4 * sorted] + [entries] == [4 * sorted, entries];
        PopOnTop(temp, before, 4 * sorted, [entries]);
      }
      SetupTempFree(4 * sorted);
      assert [entries] + [] == [entries];
      PopOnTop(temp, before, entries, []);
      SetupTempFree(entries);
    }

    /** The lookup table, expanded from multiplicands in a temporary block. */
    method BuildLookup(b: Book, sparse: bool) returns (ok: bool)
      requires Valid()
      modifies this
      ensures Valid() && old(setup) <= setup
      ensures ok ==> temp == old(temp)
    {
      if b.lookupType > 2 || b.lookupValues == 0 {
        return false;
      }
      var mults := SetupTempMalloc(2 * b.lookupValues);
      if mults == None || !b.multsOk {
        return false;
      }
      var sorted := if sparse then b.total else b.longCount;
      if b.lookupType == 1 && sparse && sorted == 0 {
        // nothing to expand
      } else {
        var count := if b.lookupType == 2 then b.lookupValues
                     else (if sparse then sorted else b.entries) * b.dimensions;
        var values := SetupMalloc(4 * count);
        if values == None || !b.expandOk {
          return false;
        }
      }
      SetupTempFree(2 * b.lookupValues);
      ok := true;
    }
  }

  /** What the header says about one codebook, and where reading or building it goes wrong. */
  datatype Book = Book(
    entries: nat, dimensions: nat, sparse: bool,
    total: nat,       // used entries
    longCount: nat,   // used entries longer than the fast table reaches
    lookupType: nat, lookupValues: nat,
    lengthsOk: bool, codesOk: bool, multsOk: bool, expandOk: bool)

  /** On top of `before` lie blocks of these sizes, the latest first. */
  ghost predicate OnTop(temp: seq<Block>, before: seq<Block>, sizes: seq<nat>) {
    if sizes == [] then temp == before
    else temp != [] && temp[|temp| - 1].size == sizes[0] && OnTop(temp[..|temp| - 1], before, sizes[1..])
  }

  lemma PushOnTop(temp: seq<Block>, before: seq<Block>, sizes: seq<nat>, b: Block)
    requires OnTop(temp, before, sizes)
    ensures OnTop(temp + [b], before, [b.size] + sizes)
  {
    assert (temp + [b])[..|temp|] == temp && ([b.size] + sizes)[1..] == sizes;
  }

  lemma PopOnTop(temp: seq<Block>, before: seq<Block>, size: nat, sizes: seq<nat>)
    requires OnTop(temp, before, [size] + sizes)
    ensures temp != [] && temp[|temp| - 1].size == size && OnTop(temp[..|temp| - 1], before, sizes)
  {
    assert ([size] + sizes)[1..] == sizes;
  }
}
