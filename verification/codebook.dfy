/** A Vorbis codebook: the arrays that `compute_codewords`, `compute_sorted_huffman` and
    `compute_accelerated_huffman` fill from the codeword lengths of a header. */
module Codebooks {
  import opened Basics
  import opened Words
  import opened Codewords
  import opened CodeTables


  function UsedBefore(lens: seq<nat>, n: nat): (m: nat)
    requires n <= |lens|
    ensures m <= n
  {
    if n == 0 then 0 else UsedBefore(lens, n - 1) + if Used(lens, n - 1) then 1 else 0
  }

  lemma {:induction false} UsedBeforeMonotone(lens: seq<nat>, m: nat, n: nat)
    requires m <= n <= |lens|
    ensures UsedBefore(lens, m) <= UsedBefore(lens, n)
    ensures m < n && Used(lens, m) ==> UsedBefore(lens, m) < UsedBefore(lens, n)
  {
    if m < n { UsedBeforeMonotone(lens, m, n - 1); }
  }

  /** Every position among the used entries belongs to one of them. */
  lemma {:induction false} NthUsed(lens: seq<nat>, n: nat, m: nat) returns (e: nat)
    requires n <= |lens| && m < UsedBefore(lens, n)
    ensures e < n && Used(lens, e) && UsedBefore(lens, e) == m
  {
    if m == UsedBefore(lens, n - 1) { e := n - 1; } else { e := NthUsed(lens, n - 1, m); }
  }

  function Identity(n: nat): seq<nat> { seq(n, i => i) }

  lemma ItemsDense(lens: seq<nat>, codes: seq<nat>, cw: seq<nat>)
    requires |codes| == |lens| && ValidLengths(lens) && HoldsDense(lens, codes, cw)
    ensures Items(lens, codes, Identity(|lens|), cw)
  {
    var syms := Identity(|lens|);
    forall e | 0 <= e < |lens| ensures e in syms { assert syms[e] == e; }
  }

  lemma ItemsSparse(lens: seq<nat>, codes: seq<nat>, cw: seq<nat>, cl: seq<nat>, vals: seq<nat>)
    requires |codes| == |lens| && ValidLengths(lens) && HoldsSparse(lens, codes, cw, cl, vals)
    ensures Items(lens, codes, vals, cw) && forall i :: 0 <= i < |vals| ==> Used(lens, vals[i])
  {
    forall i | 0 <= i < |vals| ensures vals[i] < |lens| && Used(lens, vals[i]) && UsedBefore(lens, vals[i]) == i
      ensures cw[i] == Mirror(codes[vals[i]])
    {
      var e := NthUsed(lens, |lens|, i);
      assert HeldAt(lens, codes, e, cw, cl, vals);
    }
    forall e | 0 <= e < |lens| && Used(lens, e) ensures e in vals {
      assert HeldAt(lens, codes, e, cw, cl, vals);
    }
  }

  /** Before the first used entry nothing has been handed out. */
  lemma {:induction false} AssignUnused(lens: seq<nat>, n: nat)
    requires n <= |lens| && ValidLengths(lens) && forall e :: 0 <= e < n ==> !Used(lens, e)
    ensures Assign(lens, n).Some? && Assign(lens, n).value.leaves == NoLeaves()
    ensures UsedBefore(lens, n) == 0
  {
    if n > 0 { AssignUnused(lens, n - 1); }
  }

  lemma {:induction false} RootLeaf(z: nat)
    requires z < 32
    ensures Deepest(NoLeaves(), z) == 0
  {
    if z > 0 { RootLeaf(z - 1); }
  }

  /** A failed prefix fails the whole list. */
  lemma {:induction false} AssignFails(lens: seq<nat>, m: nat, n: nat)
    requires m <= n <= |lens| && ValidLengths(lens)
    ensures Assign(lens, n).Some? ==> Assign(lens, m).Some?
  {
    if m < n { AssignFails(lens, m, n - 1); }
  }

  /** The contents of a codebook: `lengths` by table position (the entry in a dense book, the sorted
      position in a sparse one), and the sorted codes without their sentinel. */
  datatype Tables = TablesOf(sparse: bool, entries: nat, haveCodewords: bool, haveSorted: bool,
                             lengths: seq<nat>, codewords: seq<nat>, fast: seq<int>,
                             sortedCodes: seq<nat>, sortedValues: seq<nat>)

  /** The codewords behind the table positions. */
  function Positions(t: Tables, codes: seq<nat>): seq<nat> {
    if t.sparse then t.sortedCodes else codes
  }

  /** The tables describe the canonical code of `lens`. */
  ghost predicate Describes(t: Tables, lens: seq<nat>, codes: seq<nat>) {
    && |lens| == |codes| == t.entries && ValidLengths(lens) && Canonical(lens, codes)
    && KraftSum(lens, |lens|) <= WORD
    && (t.haveSorted <==> |t.sortedCodes| > 0)
    && SortedTable(lens, codes, t.sparse, t.sortedCodes, t.sortedValues, t.lengths)
    && (t.sparse ==> !t.haveCodewords)
    && (!t.sparse ==> t.haveCodewords && t.lengths == lens && HoldsDense(lens, codes, t.codewords))
    && FastTable(t.lengths, Positions(t, codes), t.fast)
  }

  /** `Describes`, sealed. */
  ghost predicate Sealed(t: Tables, lens: seq<nat>, codes: seq<nat>) {
    |lens| == |codes| == t.entries && ValidLengths(lens) &&
    forall k: nat {:trigger Opened(k)} :: Opened(k) ==> Describes(t, lens, codes)
  }

  class Codebook {
    var sparse: bool
    var codewordLengths: array<nat>
    var codewords: array<nat>
    var fastHuffman: array<int>
    var sortedCodewords: array<nat>
    var sortedValues: array<nat>
    var sortedEntries: nat
    var entries: nat
    var haveCodewords: bool   // codewords != NULL
    var haveSorted: bool      // sorted_codewords != NULL

    /** What the arrays hold. */
    function Tables(): Tables
      reads this, codewordLengths, codewords, fastHuffman, sortedCodewords, sortedValues
    {
      TablesOf(sparse, entries, haveCodewords, haveSorted, codewordLengths[..], codewords[..], fastHuffman[..],
               if sortedEntries <= sortedCodewords.Length then sortedCodewords[..sortedEntries] else [], sortedValues[..])
    }

    /** The arrays describe the canonical code of `lens`. */
    ghost predicate Ready(lens: seq<nat>, codes: seq<nat>)
      reads this, codewordLengths, codewords, fastHuffman, sortedCodewords, sortedValues
    {
      sortedEntries <= sortedCodewords.Length && Sealed(Tables(), lens, codes)
    }

    /** Stores one codeword at its symbol (dense) or at its position among the used ones (sparse). */
    method AddEntry(code: nat, symbol: nat, count: nat, len: nat, values: array<nat>)
      requires !sparse ==> symbol < codewords.Length
      requires sparse ==> count < codewords.Length && count < codewordLengths.Length && count < values.Length
      requires codewords != codewordLengths && codewords != values && codewordLengths != values
      modifies codewords
      modifies if sparse then {codewordLengths, values} else {}
      ensures !sparse ==>
        && codewords[..] == old(codewords[..])[symbol := code]
        && codewordLengths[..] == old(codewordLengths[..]) && values[..] == old(values[..])
      ensures sparse ==>
        && codewords[..] == old(codewords[..])[count := code]
        && codewordLengths[..] == old(codewordLengths[..])[count := len]
        && values[..] == old(values[..])[count := symbol]
    {
      if !sparse {
        codewords[symbol] := code;
      } else {
        codewords[count] := code;
        codewordLengths[count] := len;
        values[count] := symbol;
      }
    }

    /** Room for every entry, or for every used entry of a sparse book. */
    ghost predicate Sized(lens: seq<nat>, values: array<nat>)
      reads this
    {
      && codewords != codewordLengths && codewords != values && codewordLengths != values
      && (!sparse ==> codewords.Length == |lens|)
      && (sparse ==> codewords.Length == codewordLengths.Length == values.Length == UsedBefore(lens, |lens|))
    }

    ghost predicate HoldsCodes(lens: seq<nat>, codes: seq<nat>, values: array<nat>)
      requires |codes| <= |lens| && ValidLengths(lens)
      reads this, codewords, codewordLengths, values
    {
      if sparse then HoldsSparse(lens, codes, codewords[..], codewordLengths[..], values[..])
      else HoldsDense(lens, codes, codewords[..])
    }

    /** Assigns every used entry its codeword, stored with its first bit lowest. Fails exactly
        when some entry finds no free leaf; nothing outside the code arrays changes. */
    method ComputeCodewords(lens: seq<nat>, values: array<nat>) returns (ok: bool)
      requires ValidLengths(lens) && Sized(lens, values)
      modifies codewords
      modifies if sparse then {codewordLengths, values} else {}
      ensures ok <==> Assign(lens, |lens|).Some?
      ensures ok ==> HoldsCodes(lens, Assign(lens, |lens|).value.codes, values)
    {
      var n := |lens|;
      var k := FirstUsed(lens);
      if k == n {
        AssignUnused(lens, k);
        return true;
      }
      var available;
      ghost var a;
      available, a := PlaceFirst(lens, k, values);
      ok := PlaceRest(lens, a, k, available, values);
    }

    /** The main loop, from the entry after the first used one. */
    method PlaceRest(lens: seq<nat>, ghost a0: Assigned, k: nat, available: array<nat>, values: array<nat>) returns (ok: bool)
      requires k < |lens| && ValidLengths(lens) && Sized(lens, values) && UsedBefore(lens, k + 1) == 1
      requires Assign(lens, k + 1) == Some(a0) && |a0.codes| == k + 1
      requires available.Length == 32 && available[..] == a0.leaves.av && !a0.leaves.blank
      requires HoldsCodes(lens, a0.codes, values)
      requires available != codewords && available != codewordLengths && available != values
      modifies codewords, available
      modifies if sparse then {codewordLengths, values} else {}
      ensures ok <==> Assign(lens, |lens|).Some?
      ensures ok ==> HoldsCodes(lens, Assign(lens, |lens|).value.codes, values)
    {
      ghost var a := a0;
      ok := true;
      var m, i := 1, k + 1;
      FirstPlaced(lens, a, i, available, values);
      while i < |lens|
        invariant k < i <= |lens| && ok && AtEntry(lens, a, i, m, available, values)
      {
        ok, a, m := PlaceEntry(lens, a, i, m, available, values);
        if !ok { return; }
        i := i + 1;
      }
      AllPlaced(lens, a, m, available, values);
    }

    lemma FirstPlaced(lens: seq<nat>, a: Assigned, i: nat, available: array<nat>, values: array<nat>)
      requires i <= |lens| && ValidLengths(lens) && UsedBefore(lens, i) == 1 && Assign(lens, i) == Some(a) && |a.codes| == i
      requires available[..] == a.leaves.av && !a.leaves.blank && HoldsCodes(lens, a.codes, values)
      ensures AtEntry(lens, a, i, 1, available, values)
    {
    }

    lemma AllPlaced(lens: seq<nat>, a: Assigned, m: nat, available: array<nat>, values: array<nat>)
      requires AtEntry(lens, a, |lens|, m, available, values)
      ensures ValidLengths(lens) && Assign(lens, |lens|) == Some(a) && |a.codes| == |lens| && HoldsCodes(lens, a.codes, values)
    {
      assert Opened(0);
    }

    /** The entries before i are placed, m of them used; sealed. */
    ghost predicate AtEntry(lens: seq<nat>, a: Assigned, i: nat, m: nat, available: array<nat>, values: array<nat>)
      reads this, codewords, codewordLengths, values, available
    {
      forall o: nat {:trigger Opened(o)} :: Opened(o) ==>
        && i <= |lens| && ValidLengths(lens) && m == UsedBefore(lens, i) && Assign(lens, i) == Some(a) && |a.codes| == i
        && available[..] == a.leaves.av && !a.leaves.blank && HoldsCodes(lens, a.codes, values)
    }

    /** The body of the main loop. */
    method PlaceEntry(lens: seq<nat>, ghost a: Assigned, i: nat, m: nat, available: array<nat>, values: array<nat>)
      returns (ok: bool, ghost a': Assigned, m': nat)
      requires i < |lens| && ValidLengths(lens) && Sized(lens, values) && AtEntry(lens, a, i, m, available, values)
      requires available.Length == 32 && available != codewords && available != codewordLengths && available != values
      modifies codewords, available
      modifies if sparse then {codewordLengths, values} else {}
      ensures !ok ==> Assign(lens, |lens|).None?
      ensures ok ==> AtEntry(lens, a', i + 1, m', available, values)
    {
      if lens[i] == NO_CODE {
        EntrySkipped(lens, a, i, m, available, values);
        return true, a.(codes := a.codes + [0]), m;
      }
      assert Opened(0);
      ok, a' := PlaceNext(lens, a, i, m, available, values);
      m' := m + 1;
      if !ok { AssignFails(lens, i + 1, |lens|); }
    }

    /** An entry without a code changes nothing. */
    lemma EntrySkipped(lens: seq<nat>, a: Assigned, i: nat, m: nat, available: array<nat>, values: array<nat>)
      requires i < |lens| && lens[i] == NO_CODE && AtEntry(lens, a, i, m, available, values)
      ensures AtEntry(lens, a.(codes := a.codes + [0]), i + 1, m, available, values)
    {
      assert Opened(0);
      HoldsSkip(lens, a.codes, codewords[..], codewordLengths[..], values[..]);
    }

    /** The first used entry gets the codeword of all zeros, and every level down to it a leaf. */
    method PlaceFirst(lens: seq<nat>, k: nat, values: array<nat>) returns (available: array<nat>, ghost a: Assigned)
      requires ValidLengths(lens) && Sized(lens, values)
      requires k < |lens| && Used(lens, k) && forall e :: 0 <= e < k ==> !Used(lens, e)
      modifies codewords
      modifies if sparse then {codewordLengths, values} else {}
      ensures Assign(lens, k + 1) == Some(a) && |a.codes| == k + 1 && UsedBefore(lens, k + 1) == 1
      ensures fresh(available) && available.Length == 32 && available[..] == a.leaves.av && !a.leaves.blank
      ensures HoldsCodes(lens, a.codes, values)
    {
      a := AssignFirst(lens, k);
      UsedBeforeMonotone(lens, k, |lens|);
      AddEntry(0, k, 0, lens[k], values);
      HoldsFirst(lens, a, k, codewords[..], codewordLengths[..], values[..]);
      available := FirstLeaves(lens[k]);
    }

    /** One entry of the main loop: take the deepest free leaf that is not too deep. */
    method PlaceNext(lens: seq<nat>, ghost a: Assigned, i: nat, m: nat, available: array<nat>, values: array<nat>)
      returns (found: bool, ghost a': Assigned)
      requires i < |lens| && ValidLengths(lens) && Used(lens, i) && Sized(lens, values) && m == UsedBefore(lens, i)
      requires Assign(lens, i) == Some(a) && |a.codes| == i
      requires available.Length == 32 && available[..] == a.leaves.av && !a.leaves.blank
      requires HoldsCodes(lens, a.codes, values)
      requires available != codewords && available != codewordLengths && available != values
      modifies codewords, available
      modifies if sparse then {codewordLengths, values} else {}
      ensures found <==> Assign(lens, i + 1).Some?
      ensures found ==>
        && Assign(lens, i + 1) == Some(a') && |a'.codes| == i + 1
        && HoldsCodes(lens, a'.codes, values)
        && available[..] == a'.leaves.av && !a'.leaves.blank
    {
      var res;
      found, res, a' := TakeLeaf(lens, a, i, available);
      if found {
        var code := BitReverse(res);
        Store(lens, a.codes, i, m, res, code, values);
      }
    }

    method Store(lens: seq<nat>, ghost codes: seq<nat>, i: nat, m: nat, ghost res: nat, code: nat, values: array<nat>)
      requires i == |codes| < |lens| && ValidLengths(lens) && Used(lens, i) && Sized(lens, values)
      requires m == UsedBefore(lens, i) && code == Mirror(res) && HoldsCodes(lens, codes, values)
      modifies codewords
      modifies if sparse then {codewordLengths, values} else {}
      ensures HoldsCodes(lens, codes + [res], values)
    {
      UsedBeforeMonotone(lens, i, |lens|);
      if sparse {
        ExtendSparse(lens, codes, res, codewords[..], codewordLengths[..], values[..]);
      } else {
        ExtendDense(lens, codes, res, codewords[..]);
      }
      AddEntry(code, i, m, lens[i], values);
    }

    ghost function Symbols(lens: seq<nat>, values: array<nat>): seq<nat>
      reads this, values
    {
      if sparse then values[..] else Identity(|lens|)
    }

    ghost predicate TableSized(lens: seq<nat>, codes: seq<nat>, values: array<nat>)
      requires |codes| == |lens|
      reads this, values, codewords
    {
      && ValidLengths(lens) && Canonical(lens, codes)
      && Items(lens, codes, Symbols(lens, values), codewords[..])
      && sortedEntries == |Gather(lens, codes, sparse, Symbols(lens, values))|
      && sortedCodewords.Length == sortedEntries + 1 && sortedValues.Length == sortedEntries
      && (sparse ==> codewordLengths.Length == sortedEntries)
      && sortedCodewords != codewords && sortedCodewords != codewordLengths && sortedCodewords != values && sortedCodewords != sortedValues
      && sortedValues != codewords && sortedValues != codewordLengths && sortedValues != values
      && codewordLengths != codewords && codewordLengths != values
    }

    /** The first loop: collect the codes to sort, first bit highest. */
    method GatherCodes(lens: seq<nat>, ghost codes: seq<nat>, values: array<nat>)
      requires |codes| == |lens| && TableSized(lens, codes, values)
      modifies sortedCodewords
      ensures sortedCodewords[..sortedEntries] == Gather(lens, codes, sparse, Symbols(lens, values))
    {
      ghost var syms := Symbols(lens, values);
      var k, i := 0, 0;
      while i < codewords.Length
        invariant 0 <= i <= codewords.Length && k <= sortedEntries
        invariant sortedCodewords[..k] == Gather(lens, codes, sparse, syms[..i])
        invariant values[..] == old(values[..]) && codewords[..] == old(codewords[..])
      {
        var e := if sparse then values[i] else i;
        assert e == syms[i];
        GatherStep(lens, codes, sparse, syms, codewords[..], i);
        if Included(sparse, lens[e]) {
          sortedCodewords[k] := BitReverse(codewords[i]);
          k := k + 1;
        }
        i := i + 1;
      }
      assert syms[..i] == syms;
    }

    /** `qsort`, for which any sorting routine does: the increasing arrangement of distinct words
        is unique. */
    method SortCodes()
      requires sortedEntries < sortedCodewords.Length && Distinct(sortedCodewords[..sortedEntries])
      modifies sortedCodewords
      ensures sortedCodewords[..sortedEntries] == Sorted(old(sortedCodewords[..sortedEntries]))
    {
      var t := Sorted(sortedCodewords[..sortedEntries]);
      SortedSorts(sortedCodewords[..sortedEntries]);
      forall i | 0 <= i < sortedEntries { sortedCodewords[i] := t[i]; }
    }

    /** The last loop: each code is searched for, and its entry stored where it is found. */
    method FillValues(lens: seq<nat>, ghost codes: seq<nat>, values: array<nat>)
      requires |codes| == |lens| && TableSized(lens, codes, values)
      requires sortedCodewords[..sortedEntries] == Sorted(Gather(lens, codes, sparse, Symbols(lens, values)))
      modifies sortedValues
      modifies if sparse then {codewordLengths} else {}
      ensures SortedTable(lens, codes, sparse, sortedCodewords[..sortedEntries], sortedValues[..], codewordLengths[..])
    {
      ghost var syms, sc := Symbols(lens, values), sortedCodewords[..sortedEntries];
      var i := 0;
      while i < codewords.Length
        invariant 0 <= i <= codewords.Length
        invariant Filled(lens, codes, sparse, syms, i, sc, sortedValues[..], codewordLengths[..])
        invariant values[..] == old(values[..]) && codewords[..] == old(codewords[..])
        invariant sortedCodewords[..sortedEntries] == sc
      {
        var e := if sparse then values[i] else i;
        assert e == syms[i];
        if Included(sparse, lens[e]) {
          FillOne(lens, codes, syms, i, e);
        }
        i := i + 1;
      }
      TableDone(lens, codes, sparse, syms, sortedValues[..], codewordLengths[..]);
    }

    method FillOne(lens: seq<nat>, ghost codes: seq<nat>, ghost syms: seq<nat>, i: nat, e: nat)
      requires |codes| == |lens| && ValidLengths(lens) && Canonical(lens, codes)
      requires Items(lens, codes, syms, codewords[..]) && i < |syms| && e == syms[i] && Included(sparse, lens[e])
      requires sortedCodewords.Length == sortedEntries + 1 && sortedValues.Length == sortedEntries
      requires sparse ==> codewordLengths.Length == sortedEntries
      requires sortedCodewords != codewords && sortedCodewords != codewordLengths && sortedCodewords != sortedValues
      requires sortedValues != codewords && sortedValues != codewordLengths && codewordLengths != codewords
      requires sortedCodewords[..sortedEntries] == Sorted(Gather(lens, codes, sparse, syms))
      requires Filled(lens, codes, sparse, syms, i, sortedCodewords[..sortedEntries], sortedValues[..], codewordLengths[..])
      modifies sortedValues
      modifies if sparse then {codewordLengths} else {}
      ensures Filled(lens, codes, sparse, syms, i + 1, sortedCodewords[..sortedEntries], sortedValues[..], codewordLengths[..])
    {
      var code := BitReverse(codewords[i]);
      ghost var sc := sortedCodewords[..sortedEntries];
      assert LowestAt(lens, codes, e);
      MirrorMirror(codewords[i], codes[e]);
      GatherDistinct(lens, codes, sparse, syms);
      SortedSorts(Gather(lens, codes, sparse, syms));
      GatherMembers(lens, codes, sparse, syms, code);
      assert code in sc;
      var x := Search(sortedCodewords, sortedEntries, code);
      SearchFinds(sc, code, x);
      FilledNext(lens, codes, sparse, syms, i, sc, sortedValues[..], codewordLengths[..], x);
      sortedValues[x] := e;
      if sparse { codewordLengths[x] := lens[e]; }
    }

    method ComputeSortedHuffman(lens: seq<nat>, ghost codes: seq<nat>, values: array<nat>)
      requires |codes| == |lens| && TableSized(lens, codes, values)
      modifies sortedCodewords, sortedValues
      modifies if sparse then {codewordLengths} else {}
      ensures SortedTable(lens, codes, sparse, sortedCodewords[..sortedEntries], sortedValues[..], codewordLengths[..])
    {
      GatherCodes(lens, codes, values);
      GatherDistinct(lens, codes, sparse, Symbols(lens, values));
      SortCodes();
      ghost var sc := sortedCodewords[..sortedEntries];
      sortedCodewords[sortedEntries] := 0xFFFFFFFF;
      assert sortedCodewords[..sortedEntries] == sc;
      FillValues(lens, codes, values);
    }

    /** Fills the table that maps ten bits to the entry (sparse: the sorted position) whose short
        codeword they begin with. `C` are the codewords behind the table positions. */
    method ComputeAcceleratedHuffman(ghost C: seq<nat>)
      requires FastReady(C)
      modifies fastHuffman
      ensures FastTable(codewordLengths[..], C, fastHuffman[..])
    {
      var i := 0;
      while i < FAST_SIZE
        invariant 0 <= i <= FAST_SIZE && forall z :: 0 <= z < i ==> fastHuffman[z] == -1
      {
        fastHuffman[i] := -1;
        i := i + 1;
      }
      var len := if sparse then sortedEntries else codewordLengths.Length;
      if len > MAX_FAST { len := MAX_FAST; }
      i := 0;
      while i < len
        invariant 0 <= i <= len
        invariant FastPrefix(codewordLengths[..], C, fastHuffman[..], i)
      {
        if codewordLengths[i] <= FAST_LENGTH {
          var z;
          if sparse { z := BitReverse(sortedCodewords[i]); } else { z := codewords[i]; }
          Accelerate(C, i, z);
        } else {
          FastSkip(codewordLengths[..], C, fastHuffman[..], i);
        }
        i := i + 1;
      }
    }

    ghost predicate FastReady(C: seq<nat>)
      reads this, codewordLengths, sortedCodewords, codewords
    {
      && fastHuffman.Length == FAST_SIZE && CodeList(codewordLengths[..], C)
      && (sparse ==> |C| == sortedEntries <= sortedCodewords.Length && sortedCodewords[..sortedEntries] == C)
      && (!sparse ==> codewords.Length == |C|)
      && (!sparse ==> forall i :: 0 <= i < |C| && codewordLengths[i] <= FAST_LENGTH ==> codewords[i] == Mirror(C[i]))
    }

    /** The inner loop: all ten-bit words that begin with the codeword of position i. */
    method Accelerate(ghost C: seq<nat>, i: nat, code: nat)
      requires fastHuffman.Length == FAST_SIZE && CodeList(codewordLengths[..], C)
      requires i < |C| && codewordLengths[i] <= FAST_LENGTH && code == Mirror(C[i])
      requires FastPrefix(codewordLengths[..], C, fastHuffman[..], i)
      modifies fastHuffman
      ensures FastPrefix(codewordLengths[..], C, fastHuffman[..], i + 1)
    {
      var l := codewordLengths[i];
      CodeFits(C[i], l, code);
      var z := code;
      while z < FAST_SIZE
        invariant Low(z, l) == code
        invariant forall y :: 0 <= y < FAST_SIZE ==>
          fastHuffman[y] == if y < z && Low(y, l) == code then i else old(fastHuffman[y])
        decreases FAST_SIZE - z
      {
        fastHuffman[z] := i;
        forall y | z < y < z + Pow2(l) ensures Low(y, l) != code { LowBetween(z, y, l); }
        LowPeriod(z, l);
        z := z + Pow2(l);
      }
      FastExtend(codewordLengths[..], C, old(fastHuffman[..]), fastHuffman[..], i);
    }

    ghost predicate Tabulable(lens: seq<nat>, codes: seq<nat>, values: array<nat>)
      reads this, values, codewords, codewordLengths
    {
      && |codes| == |lens| && ValidLengths(lens) && Canonical(lens, codes) && HoldsCodes(lens, codes, values)
      && sortedEntries == (if sparse then UsedBefore(lens, |lens|) else LongCount(lens, |lens|))
      && (!sparse ==> codewordLengths[..] == lens)
      && sortedCodewords.Length == sortedEntries + 1 && sortedValues.Length == sortedEntries
      && sortedCodewords != codewords && sortedCodewords != codewordLengths && sortedCodewords != values
      && sortedCodewords != sortedValues && sortedValues != codewords && sortedValues != codewordLengths
      && sortedValues != values && codewordLengths != codewords && codewordLengths != values
    }

    /** The sorted table, unless it would be empty. */
    method MakeSorted(lens: seq<nat>, ghost codes: seq<nat>, values: array<nat>)
      requires Tabulable(lens, codes, values)
      modifies sortedCodewords, sortedValues
      modifies if sparse then {codewordLengths} else {}
      ensures SortedTable(lens, codes, sparse, sortedCodewords[..sortedEntries], sortedValues[..], codewordLengths[..])
    {
      Listed(lens, codes, values);
      if sortedEntries > 0 {
        ComputeSortedHuffman(lens, codes, values);
      } else {
        NoTable(lens, codes, sparse, Symbols(lens, values), sortedCodewords[..0], sortedValues[..], codewordLengths[..]);
      }
    }

    /** Once the sorted table stands, the ten-bit table can be filled. */
    lemma FastIsReady(lens: seq<nat>, codes: seq<nat>)
      requires |codes| == |lens| && ValidLengths(lens) && Canonical(lens, codes) && fastHuffman.Length == FAST_SIZE
      requires !sparse ==> codewordLengths[..] == lens && HoldsDense(lens, codes, codewords[..])
      requires sortedEntries <= sortedCodewords.Length
      requires SortedTable(lens, codes, sparse, sortedCodewords[..sortedEntries], sortedValues[..], codewordLengths[..])
      ensures FastReady(Positions(Tables(), codes))
    {
      if sparse {
        SortedIsCodeList(lens, codes, sortedCodewords[..sortedEntries], sortedValues[..], codewordLengths[..]);
      } else {
        EntriesAreCodeList(lens, codes);
        forall i | 0 <= i < |codes| && codewordLengths[i] <= FAST_LENGTH ensures codewords[i] == Mirror(codes[i]) {
          assert codewordLengths[..][i] == lens[i] && codewords[..][i] == codewords[i];
        }
      }
    }

    lemma Listed(lens: seq<nat>, codes: seq<nat>, values: array<nat>)
      requires |codes| == |lens| && ValidLengths(lens) && HoldsCodes(lens, codes, values)
      ensures Items(lens, codes, Symbols(lens, values), codewords[..])
      ensures |Gather(lens, codes, sparse, Symbols(lens, values))| ==
              if sparse then UsedBefore(lens, |lens|) else LongCount(lens, |lens|)
    {
      if sparse {
        ItemsSparse(lens, codes, codewords[..], codewordLengths[..], values[..]);
        GatherAll(lens, codes, values[..]);
      } else {
        ItemsDense(lens, codes, codewords[..]);
        GatherLong(lens, codes, Identity(|lens|));
      }
    }

    /** Builds a codebook from the lengths a header lists: as `start_decoder` does. A sparse book with
        at least a quarter of its entries used is kept as a dense one. */
    method Setup(lens: seq<nat>, sparseFlag: bool) returns (ok: bool)
      requires ValidLengths(lens)
      modifies this
      ensures ok <==> KraftSum(lens, |lens|) <= WORD
      ensures ok ==> exists codes :: Ready(lens, codes)
      ensures sparse <==> sparseFlag && UsedBefore(lens, |lens|) < |lens| / 4
    {
      var values := Allocate(lens, sparseFlag);
      ok := ComputeCodewords(lens, values);
      ghost var codes := AssignedCode(lens);
      if ok { Finish(lens, codes, values); }
    }

    /** The lookup structures, once the codewords are known. */
    method Finish(lens: seq<nat>, ghost codes: seq<nat>, values: array<nat>)
      requires Tabulable(lens, codes, values) && entries == |lens| && KraftSum(lens, |lens|) <= WORD
      requires fastHuffman.Length == FAST_SIZE
      modifies this`haveSorted, this`haveCodewords, sortedCodewords, sortedValues, fastHuffman
      modifies if sparse then {codewordLengths} else {}
      ensures Ready(lens, codes)
    {
      MakeSorted(lens, codes, values);
      FastIsReady(lens, codes);
      haveSorted := sortedEntries > 0;
      haveCodewords := !sparse;
      ComputeAcceleratedHuffman(Positions(Tables(), codes));
      AllReady(lens, codes);
    }

    lemma AllReady(lens: seq<nat>, codes: seq<nat>)
      requires |codes| == |lens| == entries && ValidLengths(lens) && Canonical(lens, codes) && KraftSum(lens, |lens|) <= WORD
      requires sortedEntries <= sortedCodewords.Length && haveSorted == (sortedEntries > 0) && haveCodewords == !sparse
      requires SortedTable(lens, codes, sparse, sortedCodewords[..sortedEntries], sortedValues[..], codewordLengths[..])
      requires !sparse ==> codewordLengths[..] == lens && HoldsDense(lens, codes, codewords[..])
      requires FastReady(Positions(Tables(), codes))
      requires FastTable(codewordLengths[..], Positions(Tables(), codes), fastHuffman[..])
      ensures Ready(lens, codes)
    {
    }

    /** The arrays, sized for the used entries of a sparse book or all entries of a dense one. */
    method Allocate(lens: seq<nat>, sparseFlag: bool) returns (values: array<nat>)
      requires ValidLengths(lens)
      modifies this
      ensures Sized(lens, values)
      ensures entries == |lens|
      ensures sparse <==> sparseFlag && UsedBefore(lens, |lens|) < |lens| / 4
      ensures sortedEntries == if sparse then UsedBefore(lens, |lens|) else LongCount(lens, |lens|)
      ensures !sparse ==> codewordLengths[..] == lens
      ensures sortedCodewords.Length == sortedEntries + 1 && sortedValues.Length == sortedEntries
      ensures sortedCodewords != codewords && sortedCodewords != codewordLengths && sortedCodewords != values && sortedCodewords != sortedValues
      ensures sortedValues != codewords && sortedValues != codewordLengths && sortedValues != values
      ensures codewordLengths != codewords && codewordLengths != values
      ensures fastHuffman.Length == FAST_SIZE
      ensures fresh(codewordLengths) && fresh(codewords) && fresh(values) && fresh(sortedCodewords)
      ensures fresh(sortedValues) && fresh(fastHuffman)
    {
      var total, long := Count(lens);
      entries := |lens|;
      sparse := sparseFlag && total < entries / 4;
      sortedEntries := if sparse then total else long;
      if sparse {
        codewordLengths := new nat[total];
        codewords := new nat[total];
        values := new nat[total];
      } else {
        codewordLengths := CopyOf(lens);
        codewords := new nat[entries];
        values := new nat[0];
      }
      sortedCodewords := new nat[sortedEntries + 1];
      sortedValues := new nat[sortedEntries];
      fastHuffman := new int[FAST_SIZE];
    }
  }

  lemma NoTable(lens: seq<nat>, codes: seq<nat>, sparse: bool, syms: seq<nat>, sc: seq<nat>, sv: seq<nat>, cl: seq<nat>)
    requires |codes| == |lens| && ValidLengths(lens) && Lists(lens, syms) && sc == sv == []
    requires |Gather(lens, codes, sparse, syms)| == 0 && (sparse ==> cl == [])
    ensures SortedTable(lens, codes, sparse, sc, sv, cl)
  {
    forall e | 0 <= e < |lens| && Included(sparse, lens[e]) ensures codes[e] in sc {
      assert Used(lens, e) && e in syms;
      var i :| 0 <= i < |syms| && syms[i] == e;
      GatherMembers(lens, codes, sparse, syms, codes[e]);
    }
  }

  /** The codes of the construction, when there is room for them. */
  lemma AssignedCode(lens: seq<nat>) returns (codes: seq<nat>)
    requires ValidLengths(lens)
    ensures Assign(lens, |lens|).Some? <==> KraftSum(lens, |lens|) <= WORD
    ensures Assign(lens, |lens|).Some? ==>
      codes == Assign(lens, |lens|).value.codes && |codes| == |lens| && Canonical(lens, codes)
  {
    AssignIffKraft(lens, |lens|);
    codes := [];
    if Assign(lens, |lens|).Some? {
      codes := Assign(lens, |lens|).value.codes;
      AssignTiles(lens, |lens|);
    }
  }

  method CopyOf(s: seq<nat>) returns (a: array<nat>)
    ensures fresh(a) && a[..] == s
  {
    a := new nat[|s|](i requires 0 <= i < |s| => s[i]);
  }

  method Count(lens: seq<nat>) returns (total: nat, long: nat)
    requires ValidLengths(lens)
    ensures total == UsedBefore(lens, |lens|) && long == LongCount(lens, |lens|)
  {
    total, long := 0, 0;
    var j := 0;
    while j < |lens|
      invariant 0 <= j <= |lens| && total == UsedBefore(lens, j) && long == LongCount(lens, j)
    {
      if lens[j] != NO_CODE { total := total + 1; }
      if lens[j] > FAST_LENGTH && lens[j] != NO_CODE { long := long + 1; }
      j := j + 1;
    }
  }

  method FirstUsed(lens: seq<nat>) returns (k: nat)
    ensures k <= |lens| && (k < |lens| ==> Used(lens, k)) && forall e :: 0 <= e < k ==> !Used(lens, e)
  {
    k := 0;
    while k < |lens| && lens[k] >= NO_CODE
      invariant 0 <= k <= |lens| && forall e :: 0 <= e < k ==> !Used(lens, e)
    {
      k := k + 1;
    }

  }

  lemma MirrorMirror(c: nat, code: nat)
    requires c == Mirror(code) && code < WORD
    ensures Mirror(c) == code
  {
    Pow2Constants();
    RevInvolutive(code, 32);
  }

  lemma {:induction false} GatherGrows(lens: seq<nat>, codes: seq<nat>, sparse: bool, syms: seq<nat>, i: nat)
    requires |codes| == |lens| && forall i :: 0 <= i < |syms| ==> syms[i] < |lens|
    requires i <= |syms|
    ensures |Gather(lens, codes, sparse, syms[..i])| <= |Gather(lens, codes, sparse, syms)|
    decreases |syms| - i
  {
    if i < |syms| {
      GatherGrows(lens, codes, sparse, syms, i + 1);
      assert syms[..i + 1][..i] == syms[..i];
    } else {
      assert syms[..i] == syms;
    }
  }

  /** One entry more: an included one adds its codeword, first bit highest. */
  lemma GatherStep(lens: seq<nat>, codes: seq<nat>, sparse: bool, syms: seq<nat>, cw: seq<nat>, i: nat)
    requires |codes| == |lens| && ValidLengths(lens) && Canonical(lens, codes) && Items(lens, codes, syms, cw) && i < |syms|
    requires Included(sparse, lens[syms[i]]) ==> Used(lens, syms[i])
    ensures Gather(lens, codes, sparse, syms[..i + 1]) ==
            Gather(lens, codes, sparse, syms[..i]) + if Included(sparse, lens[syms[i]]) then [Mirror(cw[i])] else []
    ensures |Gather(lens, codes, sparse, syms[..i + 1])| <= |Gather(lens, codes, sparse, syms)|
  {
    var e := syms[i];
    assert syms[..i + 1][..i] == syms[..i];
    GatherGrows(lens, codes, sparse, syms, i + 1);
    if Included(sparse, lens[e]) {
      assert LowestAt(lens, codes, e);
      MirrorMirror(cw[i], codes[e]);
    }
  }

  /** The search loop: up from level z while there is no free leaf. */
  method LowestLeaf(ghost t: Leaves, available: array<nat>, l: nat) returns (z: nat)
    requires l < 32 && available.Length == 32 && available[..] == t.av && !t.blank
    ensures z == Deepest(t, l) && (z == 0 <==> !Leaf(t, z))
  {
    z := l;
    while z > 0 && available[z] == 0
      invariant 0 <= z <= l && Deepest(t, l) == Deepest(t, z)
    {
      z := z - 1;
    }
  }

  /** Finds the leaf for entry i and splits it; fails when there is none. */
  method TakeLeaf(lens: seq<nat>, ghost a: Assigned, i: nat, available: array<nat>)
    returns (found: bool, res: nat, ghost a': Assigned)
    requires i < |lens| && ValidLengths(lens) && Used(lens, i) && Assign(lens, i) == Some(a)
    requires available.Length == 32 && available[..] == a.leaves.av && !a.leaves.blank
    modifies available
    ensures found <==> Assign(lens, i + 1).Some?
    ensures found ==>
      && Assign(lens, i + 1) == Some(a') && a'.codes == a.codes + [res]
      && available[..] == a'.leaves.av && !a'.leaves.blank
  {
    var z := LowestLeaf(a.leaves, available, lens[i]);
    AssignStep(lens, i, a);
    if z == 0 { return false, 0, a; }
    res := available[z];
    Propagate(a.leaves, available, z, lens[i]);
    return true, res, Assigned(Take(a.leaves, z, lens[i]), a.codes + [res]);
  }

  /** The leaf of level z is used up; its right siblings down to level l become free. The sums
      are 32-bit words. */
  method Propagate(ghost t: Leaves, available: array<nat>, z: nat, l: nat)
    requires 0 < z <= l < 32 && available.Length == 32 && available[..] == t.av && IsCode(t.av[z], z)
    modifies available
    ensures available[..] == Take(t, z, l).av
  {
    PropagateTo(t, available, z, l, Take(t, z, l).av);
  }

  method PropagateTo(ghost t: Leaves, available: array<nat>, z: nat, l: nat, ghost goal: seq<nat>)
    requires 0 < z <= l < 32 && available.Length == 32 && available[..] == t.av && IsCode(t.av[z], z) && |goal| == 32
    requires Freed(t, z, l, goal)
    modifies available
    ensures available[..] == goal
  {
    var res := available[z];
    available[z] := 0;
    ghost var av := t.av;
    var y := l;
    while y > z
      invariant z <= y <= l
      invariant forall j :: 0 <= j < 32 ==>
        available[j] == if j == z then 0 else if y < j <= l then goal[j] else av[j]
    {
      FreedAt(t, z, l, goal, y);
      available[y] := (res + Pow2(32 - y)) % WORD;
      y := y - 1;
    }
    OthersKept(t, z, l, goal);
  }

  /** Sealed: what taking the leaf leaves. */
  ghost predicate Freed(t: Leaves, z: nat, l: nat, goal: seq<nat>)
    requires |t.av| == 32 && z <= l < 32
  {
    forall o: nat {:trigger Opened(o)} :: Opened(o) ==> goal == Take(t, z, l).av
  }

  lemma FreedAt(t: Leaves, z: nat, l: nat, goal: seq<nat>, y: nat)
    requires |t.av| == |goal| == 32 && 0 < z < y <= l < 32 && IsCode(t.av[z], z) && Freed(t, z, l, goal)
    ensures goal[y] == (t.av[z] + Pow2(32 - y)) % WORD
  {
    FreedEntry(t, z, l, goal, y);
    NoWrap(t.av[z], z, y);
  }

  lemma FreedEntry(t: Leaves, z: nat, l: nat, goal: seq<nat>, y: nat)
    requires |t.av| == |goal| == 32 && z < y <= l < 32 && Freed(t, z, l, goal)
    ensures goal[y] == t.av[z] + Pow2(32 - y)
  {
    assert Opened(0);
  }

  lemma OthersKept(t: Leaves, z: nat, l: nat, goal: seq<nat>)
    requires |t.av| == |goal| == 32 && z <= l < 32 && Freed(t, z, l, goal)
    ensures goal[z] == 0 && forall j :: 0 <= j < 32 && !(z <= j <= l) ==> goal[j] == t.av[j]
  {
    assert Opened(0);
  }

  /** The leaves after the first codeword, which is all zeros. */
  method FirstLeaves(l: nat) returns (available: array<nat>)
    requires l < 32
    ensures available.Length == 32 && available[..] == Take(NoLeaves(), 0, l).av && fresh(available)
  {
    ghost var goal := Take(NoLeaves(), 0, l).av;
    available := new nat[32](_ => 0);
    var i := 1;
    while i <= l
      invariant 1 <= i <= l + 1
      invariant forall j :: 0 <= j < 32 ==> available[j] == if 1 <= j < i then goal[j] else 0
    {
      assert goal[i] == Pow2(32 - i);
      available[i] := Pow2(32 - i);
      i := i + 1;
    }
  }

  /** The codewords of a dense book are stored at their entries. */
  ghost predicate HoldsDense(lens: seq<nat>, codes: seq<nat>, cw: seq<nat>)
    requires |codes| <= |lens| && ValidLengths(lens)
  {
    |cw| == |lens| &&
    forall e {:trigger codes[e]} :: 0 <= e < |codes| && Used(lens, e) ==> cw[e] == Mirror(codes[e])
  }

  /** ... and those of a sparse book in entry order, with their lengths and entries beside them. */
  ghost predicate HoldsSparse(lens: seq<nat>, codes: seq<nat>, cw: seq<nat>, cl: seq<nat>, vals: seq<nat>)
    requires |codes| <= |lens| && ValidLengths(lens)
  {
    |cw| == |cl| == |vals| == UsedBefore(lens, |lens|) &&
    forall e :: 0 <= e < |codes| ==> HeldAt(lens, codes, e, cw, cl, vals)
  }

  ghost predicate HeldAt(lens: seq<nat>, codes: seq<nat>, e: nat, cw: seq<nat>, cl: seq<nat>, vals: seq<nat>)
    requires e < |codes| <= |lens| && |cw| == |cl| == |vals|
  {
    Used(lens, e) ==>
      var m := UsedBefore(lens, e);
      m < |cw| && cw[m] == Mirror(codes[e]) && cl[m] == lens[e] && vals[m] == e
  }

  lemma ExtendDense(lens: seq<nat>, codes: seq<nat>, x: nat, cw: seq<nat>)
    requires |codes| < |lens| && ValidLengths(lens) && Used(lens, |codes|) && HoldsDense(lens, codes, cw)
    ensures HoldsDense(lens, codes + [x], cw[|codes| := Mirror(x)])
  {
    var cs := codes + [x];
    forall e | 0 <= e < |codes| ensures cs[e] == codes[e] { }
  }

  lemma ExtendSparse(lens: seq<nat>, codes: seq<nat>, x: nat, cw: seq<nat>, cl: seq<nat>, vals: seq<nat>)
    requires |codes| < |lens| && ValidLengths(lens) && Used(lens, |codes|) && HoldsSparse(lens, codes, cw, cl, vals)
    ensures var n := |codes|;
            var m := UsedBefore(lens, n);
            m < |cw| == |cl| == |vals| &&
            HoldsSparse(lens, codes + [x], cw[m := Mirror(x)], cl[m := lens[n]], vals[m := n])
  {
    var cs, n := codes + [x], |codes|;
    var m := UsedBefore(lens, n);
    UsedBeforeMonotone(lens, n, |lens|);
    var cw', cl', vals' := cw[m := Mirror(x)], cl[m := lens[n]], vals[m := n];
    forall e | 0 <= e < |cs| ensures HeldAt(lens, cs, e, cw', cl', vals') {
      if e < n {
        assert HeldAt(lens, codes, e, cw, cl, vals);
        UsedBeforeMonotone(lens, e, n);
      }
    }
  }

  lemma HoldsSkip(lens: seq<nat>, codes: seq<nat>, cw: seq<nat>, cl: seq<nat>, vals: seq<nat>)
    requires |codes| < |lens| && ValidLengths(lens) && !Used(lens, |codes|)
    ensures HoldsDense(lens, codes, cw) ==> HoldsDense(lens, codes + [0], cw)
    ensures HoldsSparse(lens, codes, cw, cl, vals) ==> HoldsSparse(lens, codes + [0], cw, cl, vals)
  {
    var cs := codes + [0];
    forall e | 0 <= e < |codes| ensures cs[e] == codes[e] { }
    if HoldsSparse(lens, codes, cw, cl, vals) {
      forall e | 0 <= e < |cs| ensures HeldAt(lens, cs, e, cw, cl, vals) {
        assert e < |codes| ==> HeldAt(lens, codes, e, cw, cl, vals);
      }
    }
  }

  /** The step of `Assign` at a used entry, seen from the leaf found. */
  lemma AssignStep(lens: seq<nat>, i: nat, a: Assigned)
    requires i < |lens| && ValidLengths(lens) && Used(lens, i) && Assign(lens, i) == Some(a)
    ensures |a.leaves.av| == 32 && |a.codes| == i
    ensures var z := Deepest(a.leaves, lens[i]);
            if Leaf(a.leaves, z) then
              IsCode(a.leaves.av[z], z) &&
              Assign(lens, i + 1) == Some(Assigned(Take(a.leaves, z, lens[i]), a.codes + [a.leaves.av[z]]))
            else Assign(lens, i + 1).None?
  {
    AssignTiles(lens, i);
    var z := Deepest(a.leaves, lens[i]);
    if Leaf(a.leaves, z) { assert LeafOk(lens, a.codes, a.leaves, z); }
  }

  /** The first used entry gets the codeword of all zeros. */
  lemma AssignFirst(lens: seq<nat>, k: nat) returns (a: Assigned)
    requires k < |lens| && ValidLengths(lens) && Used(lens, k) && forall e :: 0 <= e < k ==> !Used(lens, e)
    ensures Assign(lens, k + 1) == Some(a) && a.leaves == Take(NoLeaves(), 0, lens[k])
    ensures |a.codes| == k + 1 && UsedBefore(lens, k + 1) == 1
  {
    AssignUnused(lens, k);
    RootLeaf(lens[k]);
    a := Assign(lens, k + 1).value;
  }

  lemma HoldsFirst(lens: seq<nat>, a: Assigned, k: nat, cw: seq<nat>, cl: seq<nat>, vals: seq<nat>)
    requires k < |lens| && ValidLengths(lens) && Used(lens, k) && forall e :: 0 <= e < k ==> !Used(lens, e)
    requires Assign(lens, k + 1) == Some(a) && |a.codes| == k + 1
    ensures |cw| == |lens| && cw[k] == 0 ==> HoldsDense(lens, a.codes, cw)
    ensures |cw| == |cl| == |vals| == UsedBefore(lens, |lens|) && 0 < |cw| && cw[0] == 0 && cl[0] == lens[k] && vals[0] == k
      ==> HoldsSparse(lens, a.codes, cw, cl, vals)
  {
    AssignUnused(lens, k);
    RootLeaf(lens[k]);
    MirrorZero(a.codes[k]);
  }

  lemma MirrorZero(v: nat)
    requires v == 0
    ensures Mirror(v) == 0
  {
    RevZero(32);
  }

  /** The right siblings are 32-bit words: the additions never wrap around. */
  lemma NoWrap(res: nat, z: nat, y: nat)
    requires z < y <= 32 && IsCode(res, z)
    ensures res + Pow2(32 - y) < WORD
  {
    RightSibling(res, z, y);
  }
}
