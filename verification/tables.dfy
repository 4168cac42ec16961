/** The sorted code table and its binary search, on values. */
module CodeTables {
  import opened Words
  import opened Codewords

  const FAST_LENGTH: nat := 10

  /** `include_in_sort`: a dense book keeps its short codes out of the sorted table. */
  predicate Included(sparse: bool, len: nat) {
    len != NO_CODE && (sparse || len > FAST_LENGTH)
  }

  /** `syms` lists entries without repetition, every used one among them. */
  ghost predicate Lists(lens: seq<nat>, syms: seq<nat>) {
    && (forall i :: 0 <= i < |syms| ==> syms[i] < |lens|)
    && (forall i, j :: 0 <= i < j < |syms| ==> syms[i] != syms[j])
    && forall e :: 0 <= e < |lens| && Used(lens, e) ==> e in syms
  }

  /** The codes to be sorted, in list order. */
  function Gather(lens: seq<nat>, codes: seq<nat>, sparse: bool, syms: seq<nat>): (g: seq<nat>)
    requires |codes| == |lens| && forall i :: 0 <= i < |syms| ==> syms[i] < |lens|
  {
    if syms == [] then []
    else
      var e := syms[|syms| - 1];
      Gather(lens, codes, sparse, syms[..|syms| - 1]) + if Included(sparse, lens[e]) then [codes[e]] else []
  }

  ghost predicate Distinct(s: seq<nat>) {
    forall i, j :: 0 <= i < j < |s| ==> s[i] != s[j]
  }

  ghost predicate Increasing(s: seq<nat>) {
    forall i, j :: 0 <= i < j < |s| ==> s[i] < s[j]
  }

  /** What is gathered comes from a listed entry, and every listed entry's code is gathered. */
  lemma {:induction false} GatherMembers(lens: seq<nat>, codes: seq<nat>, sparse: bool, syms: seq<nat>, c: nat)
    requires |codes| == |lens| && forall i :: 0 <= i < |syms| ==> syms[i] < |lens|
    ensures c in Gather(lens, codes, sparse, syms) <==>
            exists i :: 0 <= i < |syms| && Included(sparse, lens[syms[i]]) && codes[syms[i]] == c
  {
    if syms != [] {
      var n := |syms| - 1;
      var front := syms[..n];
      GatherMembers(lens, codes, sparse, front, c);
      if c in Gather(lens, codes, sparse, front) {
        var i :| 0 <= i < |front| && Included(sparse, lens[front[i]]) && codes[front[i]] == c;
        assert syms[i] == front[i];
      }
      forall i | 0 <= i < |syms| && Included(sparse, lens[syms[i]]) && codes[syms[i]] == c
        ensures c in Gather(lens, codes, sparse, syms)
      {
        if i < n { assert front[i] == syms[i]; }
      }
    }
  }

  lemma CodesDiffer(lens: seq<nat>, codes: seq<nat>, d: nat, e: nat)
    requires |codes| == |lens| && ValidLengths(lens) && Canonical(lens, codes)
    requires d < |lens| && e < |lens| && d != e && Used(lens, d) && Used(lens, e)
    ensures codes[d] != codes[e]
  {
    PrefixFree(lens, codes, d, e);
  }

  lemma {:induction false} GatherDistinct(lens: seq<nat>, codes: seq<nat>, sparse: bool, syms: seq<nat>)
    requires |codes| == |lens| && ValidLengths(lens) && Canonical(lens, codes)
    requires forall i :: 0 <= i < |syms| ==> syms[i] < |lens|
    requires forall i, j :: 0 <= i < j < |syms| ==> syms[i] != syms[j]
    ensures Distinct(Gather(lens, codes, sparse, syms))
  {
    if syms != [] {
      var n := |syms| - 1;
      var e, front := syms[n], syms[..n];
      var g := Gather(lens, codes, sparse, front);
      GatherDistinct(lens, codes, sparse, front);
      if Included(sparse, lens[e]) {
        GatherMembers(lens, codes, sparse, front, codes[e]);
        if codes[e] in g {
          var i :| 0 <= i < |front| && Included(sparse, lens[front[i]]) && codes[front[i]] == codes[e];
          CodesDiffer(lens, codes, front[i], e);
        }
      }
    }
  }

  // ---------------------------------------------------------------------
  // qsort on distinct words; the increasing arrangement is unique
  // ---------------------------------------------------------------------

  function Insert(c: nat, s: seq<nat>): seq<nat> {
    if s == [] || c < s[0] then [c] + s else [s[0]] + Insert(c, s[1..])
  }

  function Sorted(s: seq<nat>): seq<nat> {
    if s == [] then [] else Insert(s[0], Sorted(s[1..]))
  }

  lemma {:induction false} InsertSorted(c: nat, s: seq<nat>)
    requires Increasing(s) && c !in s
    ensures Increasing(Insert(c, s)) && |Insert(c, s)| == |s| + 1
    ensures forall x :: x in Insert(c, s) <==> x == c || x in s
  {
    if s != [] && c > s[0] {
      InsertSorted(c, s[1..]);
      var t := Insert(c, s[1..]);
      assert forall x :: x in s <==> x == s[0] || x in s[1..];
      forall j | 0 <= j < |t| ensures s[0] < t[j] { assert t[j] in t; }
    }
  }

  lemma {:induction false} SortedSorts(s: seq<nat>)
    requires Distinct(s)
    ensures Increasing(Sorted(s)) && |Sorted(s)| == |s|
    ensures forall x :: x in Sorted(s) <==> x in s
  {
    if s != [] {
      SortedSorts(s[1..]);
      assert s[0] !in s[1..];
      InsertSorted(s[0], Sorted(s[1..]));
      assert forall x :: x in s <==> x == s[0] || x in s[1..];
    }
  }

  // ---------------------------------------------------------------------
  // The finished table
  // ---------------------------------------------------------------------

  /** Increasing codes, each with the entry it belongs to and, in a sparse book, its length; no
      included entry is missing. */
  ghost predicate SortedTable(lens: seq<nat>, codes: seq<nat>, sparse: bool, sc: seq<nat>, sv: seq<nat>, cl: seq<nat>)
    requires |codes| == |lens|
  {
    && |sv| == |sc| && (sparse ==> |cl| == |sc|)
    && Increasing(sc)
    && (forall x :: 0 <= x < |sc| ==> TableRow(lens, codes, sparse, sc[x], sv[x]))
    && (sparse ==> forall x :: 0 <= x < |sc| ==> cl[x] == lens[sv[x]])
    && forall e :: 0 <= e < |lens| && Included(sparse, lens[e]) ==> codes[e] in sc
  }

  ghost predicate TableRow(lens: seq<nat>, codes: seq<nat>, sparse: bool, c: nat, e: nat)
    requires |codes| == |lens|
  {
    e < |lens| && Included(sparse, lens[e]) && codes[e] == c
  }

  /** Where binary search ends up: the last code not above `code`, or the first code. */
  predicate LastNotAbove(sc: seq<nat>, code: nat, x: nat) {
    x < |sc| && (sc[x] <= code || x == 0) && (x + 1 < |sc| ==> code < sc[x + 1])
  }

  /** The search loop that setup and decoder share. */
  method Search(sc: array<nat>, count: nat, code: nat) returns (x: nat)
    requires 0 < count <= sc.Length && Increasing(sc[..count])
    ensures LastNotAbove(sc[..count], code, x)
  {
    x := 0;
    var n := count;
    while n > 1
      invariant 1 <= n <= count && x + n <= count
      invariant x == 0 || sc[x] <= code
      invariant x + n == count || code < sc[x + n]
    {
      var m := x + n / 2;
      if sc[m] <= code {
        x := m;
        n := n - n / 2;
      } else {
        n := n / 2;
      }
    }
    assert x + 1 < count ==> sc[..count][x + 1] == sc[x + 1];
  }

  /** A code in the table is found where it is. */
  lemma SearchFinds(sc: seq<nat>, code: nat, x: nat)
    requires Increasing(sc) && LastNotAbove(sc, code, x) && code in sc
    ensures sc[x] == code
  {
    var y :| 0 <= y < |sc| && sc[y] == code;
  }

  // ---------------------------------------------------------------------
  // From the construction to the table
  // ---------------------------------------------------------------------

  /** Position i of the code array holds the codeword of entry syms[i], first bit lowest. */
  ghost predicate Items(lens: seq<nat>, codes: seq<nat>, syms: seq<nat>, cw: seq<nat>)
    requires |codes| == |lens|
  {
    && |cw| == |syms| && Lists(lens, syms)
    && forall i {:trigger syms[i]} :: 0 <= i < |syms| && Used(lens, syms[i]) ==> cw[i] == Mirror(codes[syms[i]])
  }

  /** The values stored beside the sorted codes of the first n items. */
  ghost predicate Filled(lens: seq<nat>, codes: seq<nat>, sparse: bool, syms: seq<nat>, n: nat,
                         sc: seq<nat>, sv: seq<nat>, cl: seq<nat>)
    requires |codes| == |lens| && n <= |syms| && |sv| == |sc| && (sparse ==> |cl| == |sc|)
    requires forall i :: 0 <= i < |syms| ==> syms[i] < |lens|
  {
    forall i, x {:trigger syms[i], sc[x]} ::
      0 <= i < n && 0 <= x < |sc| && Included(sparse, lens[syms[i]]) && sc[x] == codes[syms[i]]
      ==> sv[x] == syms[i] && (sparse ==> cl[x] == lens[syms[i]])
  }

  lemma FilledNext(lens: seq<nat>, codes: seq<nat>, sparse: bool, syms: seq<nat>, n: nat,
                   sc: seq<nat>, sv: seq<nat>, cl: seq<nat>, x: nat)
    requires |codes| == |lens| && ValidLengths(lens) && Canonical(lens, codes) && Lists(lens, syms)
    requires n < |syms| && |sv| == |sc| && (sparse ==> |cl| == |sc|) && x < |sc| && Increasing(sc)
    requires Filled(lens, codes, sparse, syms, n, sc, sv, cl)
    requires Included(sparse, lens[syms[n]]) && sc[x] == codes[syms[n]]
    ensures Filled(lens, codes, sparse, syms, n + 1, sc, sv[x := syms[n]],
                   if sparse then cl[x := lens[syms[n]]] else cl)
  {
    forall i, y | 0 <= i < n + 1 && 0 <= y < |sc| && Included(sparse, lens[syms[i]]) && sc[y] == codes[syms[i]]
      ensures sv[x := syms[n]][y] == syms[i] && (sparse ==> cl[x := lens[syms[n]]][y] == lens[syms[i]])
    {
      if i < n { CodesDiffer(lens, codes, syms[i], syms[n]); }
    }
  }

  /** Sorting the gathered codes and filling in the values makes the table. */
  lemma TableDone(lens: seq<nat>, codes: seq<nat>, sparse: bool, syms: seq<nat>, sv: seq<nat>, cl: seq<nat>)
    requires |codes| == |lens| && ValidLengths(lens) && Canonical(lens, codes) && Lists(lens, syms)
    requires var sc := Sorted(Gather(lens, codes, sparse, syms));
             |sv| == |sc| && (sparse ==> |cl| == |sc|) && Filled(lens, codes, sparse, syms, |syms|, sc, sv, cl)
    ensures SortedTable(lens, codes, sparse, Sorted(Gather(lens, codes, sparse, syms)), sv, cl)
  {
    var g := Gather(lens, codes, sparse, syms);
    var sc := Sorted(g);
    GatherDistinct(lens, codes, sparse, syms);
    SortedSorts(g);
    forall x | 0 <= x < |sc| 
      ensures TableRow(lens, codes, sparse, sc[x], sv[x]) && (sparse ==> cl[x] == lens[sv[x]])
    {
      assert sc[x] in sc;
      GatherMembers(lens, codes, sparse, syms, sc[x]);
      var i :| 0 <= i < |syms| && Included(sparse, lens[syms[i]]) && codes[syms[i]] == sc[x];
      assert sv[x] == syms[i];
    }
    forall e | 0 <= e < |lens| && Included(sparse, lens[e]) ensures codes[e] in sc {
      assert Used(lens, e);
      var i :| 0 <= i < |syms| && syms[i] == e;
      GatherMembers(lens, codes, sparse, syms, codes[e]);
    }
  }

  // ---------------------------------------------------------------------
  // The ten-bit table
  // ---------------------------------------------------------------------

  const FAST_SIZE: nat := 1024
  const MAX_FAST: nat := 32767

  /** The low l bits of a are the top l bits of its mirror image. */
  lemma MirrorHigh(a: nat, l: nat)
    requires l <= 32
    ensures High(Mirror(a), 32 - l) == Rev(Low(a, l), l)
  {
    RevSplit(a, l, 32);
    RevBound(High(a, l), 32 - l);
    Join(Rev(Low(a, l), l), Rev(High(a, l), 32 - l), 32 - l);
  }

  /** Reading low bits first, a begins with the codeword (v, l) exactly when the mirrored word
      lies in its block. */
  lemma PrefixIsBlock(a: nat, v: nat, l: nat)
    requires l <= 32 && IsCode(v, l)
    ensures Low(a, l) == Mirror(v) <==> Owns(v, l, Mirror(a))
    ensures Mirror(v) < Pow2(l)
  {
    var q, t := High(v, 32 - l), Low(a, l);
    MirrorHigh(a, l);
    CodeMirror(v, l);
    RevBound(q, l);
    Split(a, l);
    assert q < Pow2(l) by { Pow2Constants(); HighBound(v, 32 - l, l); }
    RevSwap(t, q, l);
  }

  lemma RevSwap(t: nat, q: nat, l: nat)
    requires t < Pow2(l) && q < Pow2(l)
    ensures t == Rev(q, l) <==> Rev(t, l) == q
  {
    RevInvolutive(t, l);
    RevInvolutive(q, l);
  }

  lemma CodeMirror(v: nat, l: nat)
    requires l <= 32 && IsCode(v, l)
    ensures Mirror(v) == Rev(High(v, 32 - l), l)
  {
    RevSplit(v, 32 - l, 32);
    RevZero(32 - l);
    ShlZero(l);
  }

  lemma {:induction false} RevZero(w: nat)
    ensures Rev(0, w) == 0
  {
    if w > 0 { RevZero(w - 1); ShlZero(w - 1); }
  }

  /** The codewords behind the positions of a table: those with a code overlap nowhere. */
  ghost predicate CodeList(L: seq<nat>, C: seq<nat>) {
    && |L| == |C|
    && (forall i {:trigger L[i]} :: 0 <= i < |L| ==> 1 <= L[i] <= 31 || L[i] == NO_CODE)
    && (forall i :: 0 <= i < |L| && L[i] != NO_CODE ==> IsCode(C[i], L[i]))
    && forall i, j :: 0 <= i < j < |L| ==> Apart(L, C, i, j)
  }

  predicate Apart(L: seq<nat>, C: seq<nat>, i: nat, j: nat)
    requires i < |L| && j < |L| && |L| == |C|
    requires forall i {:trigger L[i]} :: 0 <= i < |L| ==> 1 <= L[i] <= 31 || L[i] == NO_CODE
  {
    L[i] != NO_CODE && L[j] != NO_CODE ==> !Overlap(C[i], L[i], C[j], L[j])
  }

  /** z begins with the codeword of position i, which is short. */
  predicate Hits(L: seq<nat>, C: seq<nat>, i: nat, z: nat)
    requires i < |L| == |C|
  {
    L[i] <= FAST_LENGTH && Low(z, L[i]) == Mirror(C[i])
  }

  lemma HitsOnce(L: seq<nat>, C: seq<nat>, i: nat, j: nat, z: nat)
    requires CodeList(L, C) && i < j < |L| && Hits(L, C, i, z)
    ensures !Hits(L, C, j, z)
  {
    assert Apart(L, C, i, j);
    if Hits(L, C, j, z) {
      PrefixIsBlock(z, C[i], L[i]);
      PrefixIsBlock(z, C[j], L[j]);
      CommonWord(C[i], L[i], C[j], L[j], Mirror(z));
    }
  }

  /** The table built from the first n positions: each slot holds the position that hits it. */
  ghost predicate FastPrefix(L: seq<nat>, C: seq<nat>, fast: seq<int>, n: nat)
    requires |L| == |C|
  {
    |fast| == FAST_SIZE && n <= |L| && forall z :: 0 <= z < FAST_SIZE ==> FastSlot(L, C, fast[z], z, n)
  }

  ghost predicate FastSlot(L: seq<nat>, C: seq<nat>, f: int, z: nat, n: nat)
    requires n <= |L| == |C|
  {
    if f < 0 then f == -1 && forall i :: 0 <= i < n ==> !Hits(L, C, i, z)
    else f < n && Hits(L, C, f, z)
  }

  ghost predicate FastTable(L: seq<nat>, C: seq<nat>, fast: seq<int>)
    requires |L| == |C|
  {
    FastPrefix(L, C, fast, if |L| <= MAX_FAST then |L| else MAX_FAST)
  }

  lemma FastSkip(L: seq<nat>, C: seq<nat>, fast: seq<int>, n: nat)
    requires |L| == |C| && n < |L| && FastPrefix(L, C, fast, n) && L[n] > FAST_LENGTH
    ensures FastPrefix(L, C, fast, n + 1)
  {
    forall z | 0 <= z < FAST_SIZE ensures FastSlot(L, C, fast[z], z, n + 1) {
      assert FastSlot(L, C, fast[z], z, n);
    }
  }

  lemma FastExtend(L: seq<nat>, C: seq<nat>, fast: seq<int>, fast': seq<int>, n: nat)
    requires CodeList(L, C) && n < |L| && L[n] <= FAST_LENGTH
    requires FastPrefix(L, C, fast, n) && |fast'| == FAST_SIZE
    requires forall y :: 0 <= y < FAST_SIZE ==> fast'[y] == if Low(y, L[n]) == Mirror(C[n]) then n else fast[y]
    ensures FastPrefix(L, C, fast', n + 1)
  {
    forall z | 0 <= z < FAST_SIZE ensures FastSlot(L, C, fast'[z], z, n + 1) {
      assert FastSlot(L, C, fast[z], z, n);
    }
  }

  /** A slot holds position i exactly when i is a short codeword that the ten bits begin with. */
  lemma FastExact(L: seq<nat>, C: seq<nat>, fast: seq<int>, n: nat, z: nat, i: nat)
    requires CodeList(L, C) && FastPrefix(L, C, fast, n) && z < FAST_SIZE && i < n
    ensures fast[z] == i <==> Hits(L, C, i, z)
  {
    assert FastSlot(L, C, fast[z], z, n);
    if Hits(L, C, i, z) && fast[z] != i {
      if fast[z] < i { HitsOnce(L, C, fast[z], i, z); } else { HitsOnce(L, C, i, fast[z], z); }
    }
  }

  lemma CodeFits(v: nat, l: nat, code: nat)
    requires l <= 32 && IsCode(v, l) && code == Mirror(v)
    ensures Low(code, l) == code && forall y :: 0 <= y < code ==> Low(y, l) != code
  {
    PrefixIsBlock(v, v, l);
    LowSmall(code, l);
    forall y | 0 <= y < code ensures Low(y, l) != code { LowSmall(y, l); }
  }

  lemma LowPeriod(z: nat, l: nat)
    ensures Low(z + Pow2(l), l) == Low(z, l)
  {
    Split(z, l);
    ShlPow2(0, l);
    ShlAdd(High(z, l), 1, l);
    Join(High(z, l) + 1, Low(z, l), l);
  }

  lemma LowBetween(z: nat, y: nat, l: nat)
    requires z < y < z + Pow2(l)
    ensures Low(y, l) != Low(z, l)
  {
    Split(z, l);
    Split(y, l);
    if Low(y, l) == Low(z, l) {
      ShlAdd(High(z, l), High(y, l), l);
      ShlAdd(High(y, l), High(z, l), l);
    }
  }

  // ---------------------------------------------------------------------
  // Counting the table
  // ---------------------------------------------------------------------

  function LongCount(lens: seq<nat>, n: nat): nat
    requires n <= |lens|
  {
    if n == 0 then 0 else LongCount(lens, n - 1) + if Included(false, lens[n - 1]) then 1 else 0
  }

  lemma {:induction false} GatherAll(lens: seq<nat>, codes: seq<nat>, syms: seq<nat>)
    requires |codes| == |lens| && forall i :: 0 <= i < |syms| ==> syms[i] < |lens| && Included(true, lens[syms[i]])
    ensures |Gather(lens, codes, true, syms)| == |syms|
  {
    if syms != [] { GatherAll(lens, codes, syms[..|syms| - 1]); }
  }

  lemma {:induction false} GatherLong(lens: seq<nat>, codes: seq<nat>, syms: seq<nat>)
    requires |codes| == |lens| && |syms| <= |lens| && forall i :: 0 <= i < |syms| ==> syms[i] == i
    ensures |Gather(lens, codes, false, syms)| == LongCount(lens, |syms|)
  {
    if syms != [] { GatherLong(lens, codes, syms[..|syms| - 1]); }
  }

  /** The codewords of a list of entries, or of a sorted table, form a code list. */
  lemma EntriesAreCodeList(lens: seq<nat>, codes: seq<nat>)
    requires |codes| == |lens| && ValidLengths(lens) && Canonical(lens, codes)
    ensures CodeList(lens, codes)
  {
    forall i | 0 <= i < |lens| && lens[i] != NO_CODE ensures IsCode(codes[i], lens[i]) {
      assert LowestAt(lens, codes, i);
    }
    forall i, j | 0 <= i < j < |lens| ensures Apart(lens, codes, i, j) {
      if Used(lens, i) && Used(lens, j) { PrefixFree(lens, codes, i, j); }
    }
  }

  lemma SortedIsCodeList(lens: seq<nat>, codes: seq<nat>, sc: seq<nat>, sv: seq<nat>, cl: seq<nat>)
    requires |codes| == |lens| && ValidLengths(lens) && Canonical(lens, codes)
    requires SortedTable(lens, codes, true, sc, sv, cl)
    ensures CodeList(cl, sc)
  {
    EntriesAreCodeList(lens, codes);
    forall i | 0 <= i < |cl| ensures 1 <= cl[i] <= 31 && IsCode(sc[i], cl[i]) {
      assert TableRow(lens, codes, true, sc[i], sv[i]);
    }
    forall i, j | 0 <= i < j < |cl| ensures Apart(cl, sc, i, j) {
      assert TableRow(lens, codes, true, sc[i], sv[i]) && TableRow(lens, codes, true, sc[j], sv[j]);
      PrefixFree(lens, codes, sv[i], sv[j]);
    }
  }
}
