/** Canonical prefix codes from unsorted lengths (section 3.2.1 of the Vorbis I specification).

    A codeword is kept as the 32-bit word whose top bits are the codeword, so the words that
    begin with it form one block of the 32-bit space. */
module Codewords {
  import opened Basics
  import opened Words

  const NO_CODE: nat := 255

  predicate Used(lens: seq<nat>, i: nat)
    requires i < |lens|
  {
    lens[i] < NO_CODE
  }

  /** What the header parser leaves behind: lengths 1..31, or no code at all. */
  predicate ValidLengths(lens: seq<nat>) {
    forall i {:trigger lens[i]} :: 0 <= i < |lens| ==> 1 <= lens[i] <= 31 || lens[i] == NO_CODE
  }

  /** p begins with the first l bits of v. */
  predicate Owns(v: nat, l: nat, p: nat)
    requires l <= 32
  {
    High(p, 32 - l) == High(v, 32 - l)
  }

  /** v is a word and has nothing after its first l bits. */
  predicate IsCode(v: nat, l: nat)
    requires l <= 32
  {
    v < WORD && Low(v, 32 - l) == 0
  }

  /** One of the two codewords is a prefix of the other. */
  predicate Overlap(v: nat, l: nat, v': nat, l': nat)
    requires l <= 32 && l' <= 32
  {
    if l <= l' then Owns(v, l, v') else Owns(v', l', v)
  }

  /** None of the first n codewords overlaps (v, l). */
  ghost predicate Free(lens: seq<nat>, codes: seq<nat>, n: nat, v: nat, l: nat)
    requires n <= |codes| <= |lens| && ValidLengths(lens) && l <= 32
  {
    IsCode(v, l) &&
    forall e :: 0 <= e < n && Used(lens, e) ==> !Overlap(codes[e], lens[e], v, l)
  }

  /** Entry e has the lowest codeword that its predecessors leave free. */
  ghost predicate LowestAt(lens: seq<nat>, codes: seq<nat>, e: nat)
    requires e < |codes| <= |lens| && ValidLengths(lens)
  {
    Used(lens, e) ==>
      && Free(lens, codes, e, codes[e], lens[e])
      && forall v :: Free(lens, codes, e, v, lens[e]) ==> codes[e] <= v
  }

  /** The code of the specification: entry by entry, the lowest codeword still free. */
  ghost predicate Canonical(lens: seq<nat>, codes: seq<nat>)
    requires |codes| <= |lens| && ValidLengths(lens)
  {
    forall e :: 0 <= e < |codes| ==> LowestAt(lens, codes, e)
  }

  /** The sum of 2^-len over the first n used entries, in units of 2^-32. */
  function KraftSum(lens: seq<nat>, n: nat): nat
    requires n <= |lens| && ValidLengths(lens)
  {
    if n == 0 then 0
    else KraftSum(lens, n - 1) + if Used(lens, n - 1) then Pow2(32 - lens[n - 1]) else 0
  }

  // ---------------------------------------------------------------------
  // The construction on values: free leaves and codes assigned so far
  // ---------------------------------------------------------------------

  /** `av[i]` is the free leaf at level i, 0 for none; `blank` until the first code is assigned. */
  datatype Leaves = Leaves(blank: bool, av: seq<nat>)

  function NoLeaves(): Leaves { Leaves(true, seq(32, _ => 0)) }

  predicate Leaf(t: Leaves, i: nat)
    requires |t.av| == 32 && i < 32
  {
    if i == 0 then t.blank else t.av[i] != 0
  }

  /** The deepest free leaf at level z or above, if there is one. */
  function Deepest(t: Leaves, z: nat): nat
    requires |t.av| == 32 && z < 32
    ensures Deepest(t, z) <= z
  {
    if z == 0 || Leaf(t, z) then z else Deepest(t, z - 1)
  }

  /** Assigns a codeword of length l at the leaf of level z and frees the right siblings on the way. */
  function Take(t: Leaves, z: nat, l: nat): Leaves
    requires |t.av| == 32 && z <= l < 32
  {
    Leaves(false, seq(32, k requires 0 <= k < 32 =>
      if k == z then 0 else if z < k <= l then t.av[z] + Pow2(32 - k) else t.av[k]))
  }

  datatype Assigned = Assigned(leaves: Leaves, codes: seq<nat>)

  /** The first n entries' codewords, or None when one of them finds no free leaf. */
  function Assign(lens: seq<nat>, n: nat): (r: Option<Assigned>)
    requires n <= |lens| && ValidLengths(lens)
    ensures r.Some? ==> |r.value.codes| == n && |r.value.leaves.av| == 32
  {
    if n == 0 then Some(Assigned(NoLeaves(), []))
    else
      var r := Assign(lens, n - 1);
      if r.None? then None
      else if !Used(lens, n - 1) then Some(Assigned(r.value.leaves, r.value.codes + [0]))
      else
        var t := r.value.leaves;
        var z := Deepest(t, lens[n - 1]);
        if !Leaf(t, z) then None
        else Some(Assigned(Take(t, z, lens[n - 1]), r.value.codes + [t.av[z]]))
  }

  // ---------------------------------------------------------------------
  // Blocks
  // ---------------------------------------------------------------------

  /** Owning is inherited by shorter prefixes. */
  lemma OwnsShorter(v: nat, l: nat, p: nat, k: nat)
    requires k <= l <= 32 && Owns(v, l, p)
    ensures Owns(v, k, p)
  {
    HighHigh(p, 32 - l, l - k);
    HighHigh(v, 32 - l, l - k);
  }

  /** Two blocks with a common word overlap. */
  lemma CommonWord(v: nat, l: nat, v': nat, l': nat, p: nat)
    requires l <= 32 && l' <= 32 && Owns(v, l, p) && Owns(v', l', p)
    ensures Overlap(v, l, v', l')
  {
    if l <= l' { OwnsShorter(v', l', p, l); } else { OwnsShorter(v, l, p, l'); }
  }

  lemma OwnsFrom(v: nat, l: nat, p: nat)
    requires l <= 32 && IsCode(v, l) && Owns(v, l, p)
    ensures v <= p < WORD
  {
    Split(v, 32 - l);
    Split(p, 32 - l);
    Pow2Constants();
    HighBound(v, 32 - l, l);
    ShlAdd(High(v, 32 - l), Pow2(l), 32 - l);
    ShlPow2(l, 32 - l);
  }

  /** A code is also a multiple of every smaller block. */
  lemma IsCodeDeeper(v: nat, l: nat, k: nat)
    requires l <= k <= 32 && IsCode(v, l)
    ensures IsCode(v, k)
  {
    LowLow(v, 32 - k, 32 - l);
    LowZero(32 - k);
  }

  lemma NextBlock(v: nat, k: nat)
    requires Low(v, k) == 0
    ensures High(v + Pow2(k), k) == High(v, k) + 1 && Low(v + Pow2(k), k) == 0
  {
    Split(v, k);
    ShlPow2(0, k);
    ShlAdd(High(v, k), 1, k);
    Join(High(v, k) + 1, 0, k);
  }

  lemma InnerBlock(v: nat, a: nat, k: nat)
    requires Low(v, k) == 0 && a < k
    ensures High(v + Pow2(a), k) == High(v, k)
  {
    Split(v, k);
    Pow2Monotone(a, k);
    Join(High(v, k), Pow2(a), k);
  }

  /** The right sibling at level y of a block that starts at v. */
  lemma RightSibling(v: nat, z: nat, y: nat)
    requires z < y <= 32 && IsCode(v, z)
    ensures var w := v + Pow2(32 - y);
            IsCode(w, y) && Owns(v, z, w) && High(w, 32 - y) == High(v, 32 - y) + 1
    ensures High(v, 32 - y) % 2 == 0
  {
    IsCodeDeeper(v, z, y);
    NextBlock(v, 32 - y);
    InnerBlock(v, 32 - y, 32 - z);
    OwnsBound(v, z, v + Pow2(32 - y));
    IsCodeDeeper(v, z, y - 1);
    EvenAbove(v, 32 - y);
  }

  lemma OwnsBound(v: nat, l: nat, p: nat)
    requires l <= 32 && v < WORD && Owns(v, l, p)
    ensures p < WORD
  {
    Split(p, 32 - l);
    Pow2Constants();
    HighBound(v, 32 - l, l);
    ShlAdd(High(v, 32 - l), Pow2(l), 32 - l);
    ShlPow2(l, 32 - l);
  }

  lemma {:induction false} LowZero(k: nat)
    ensures Low(0, k) == 0
  {
    if k > 0 { LowZero(k - 1); }
  }

  lemma {:induction false} EvenAbove(n: nat, k: nat)
    requires Low(n, k + 1) == 0
    ensures High(n, k) % 2 == 0
  {
    if k > 0 { EvenAbove(n / 2, k - 1); }
  }

  // ---------------------------------------------------------------------
  // Free leaves and codewords tile the 32-bit space
  // ---------------------------------------------------------------------

  ghost predicate Covered(lens: seq<nat>, codes: seq<nat>, p: nat)
    requires |codes| <= |lens| && ValidLengths(lens)
  {
    exists e :: 0 <= e < |codes| && Used(lens, e) && Owns(codes[e], lens[e], p)
  }

  ghost predicate InLeaf(t: Leaves, p: nat)
    requires |t.av| == 32
  {
    exists i :: 0 <= i < 32 && Leaf(t, i) && Owns(t.av[i], i, p)
  }

  ghost predicate CodesOk(lens: seq<nat>, codes: seq<nat>)
    requires |codes| <= |lens| && ValidLengths(lens)
  {
    forall e :: 0 <= e < |codes| && Used(lens, e) ==> IsCode(codes[e], lens[e])
  }

  /** A free leaf is a right sibling, and the word where its left sibling starts is taken. */
  ghost predicate LeafOk(lens: seq<nat>, codes: seq<nat>, t: Leaves, i: nat)
    requires |codes| <= |lens| && ValidLengths(lens) && |t.av| == 32 && i < 32
  {
    IsCode(t.av[i], i) &&
    (i > 0 ==> High(t.av[i], 32 - i) % 2 == 1 && t.av[i] >= Pow2(32 - i) &&
               Covered(lens, codes, t.av[i] - Pow2(32 - i)))
  }

  /** At most one free leaf a level; deeper ones have smaller values and lie outside. */
  ghost predicate LeavesOrdered(t: Leaves)
    requires |t.av| == 32
  {
    t.av[0] == 0 &&
    (t.blank ==> forall i :: 0 < i < 32 ==> !Leaf(t, i)) &&
    forall i, j :: 0 <= i < j < 32 && Leaf(t, i) && Leaf(t, j) ==>
      t.av[j] < t.av[i] && !Owns(t.av[i], i, t.av[j])
  }

  ghost predicate LeavesFree(lens: seq<nat>, codes: seq<nat>, t: Leaves)
    requires |codes| <= |lens| && ValidLengths(lens) && |t.av| == 32
  {
    forall i :: 0 <= i < 32 && Leaf(t, i) ==> Free(lens, codes, |codes|, t.av[i], i)
  }

  ghost predicate Tiled(lens: seq<nat>, codes: seq<nat>, t: Leaves)
    requires |codes| <= |lens| && ValidLengths(lens)
  {
    && |t.av| == 32
    && CodesOk(lens, codes)
    && (forall i :: 0 <= i < 32 && Leaf(t, i) ==> LeafOk(lens, codes, t, i))
    && LeavesOrdered(t)
    && LeavesFree(lens, codes, t)
    && forall p :: 0 <= p < WORD ==> Covered(lens, codes, p) || InLeaf(t, p)
  }

  lemma {:induction false} DeepestFinds(t: Leaves, l: nat)
    requires |t.av| == 32 && l < 32
    ensures var z := Deepest(t, l);
            z == 0 || Leaf(t, z)
    ensures forall k :: Deepest(t, l) < k <= l ==> !Leaf(t, k)
  {
    if l > 0 && !Leaf(t, l) { DeepestFinds(t, l - 1); }
  }

  /** A word of the block (v, z) that is not in its leftmost sub-block of level l lies under
      exactly one right sibling on the way down. */
  lemma {:induction false} SiblingFor(v: nat, z: nat, l: nat, p: nat) returns (y: nat)
    requires z <= l <= 32 && IsCode(v, z) && Owns(v, z, p) && !Owns(v, l, p)
    ensures z < y <= l && Owns(v + Pow2(32 - y), y, p)
  {
    if Owns(v, l - 1, p) {
      y := l;
      RightSibling(v, z, y);
      HighStep(p, 32 - y);
      HighStep(v, 32 - y);
    } else {
      y := SiblingFor(v, z, l - 1, p);
    }
  }

  lemma HighStep(n: nat, k: nat)
    ensures High(n, k + 1) == High(n, k) / 2
  {
    HighHigh(n, k, 1);
    assert High(High(n, k), 1) == High(n, k) / 2;
  }

  lemma CoveredMore(lens: seq<nat>, codes: seq<nat>, v: nat, p: nat)
    requires |codes| < |lens| && ValidLengths(lens)
    requires Covered(lens, codes, p) || (Used(lens, |codes|) && Owns(v, lens[|codes|], p))
    ensures Covered(lens, codes + [v], p)
  {
    var cs := codes + [v];
    if Covered(lens, codes, p) {
      var e :| 0 <= e < |codes| && Used(lens, e) && Owns(codes[e], lens[e], p);
      assert cs[e] == codes[e];
    } else {
      assert cs[|codes|] == v;
    }
  }

  /** z is the deepest free leaf from level l up. */
  ghost predicate DeepestAt(t: Leaves, z: nat, l: nat)
    requires |t.av| == 32
  {
    z <= l < 32 && Leaf(t, z) && (t.blank ==> z == 0) && forall k :: z < k <= l ==> !Leaf(t, k)
  }

  lemma TakeCovers(lens: seq<nat>, codes: seq<nat>, t: Leaves, z: nat, p: nat)
    requires |codes| < |lens| && ValidLengths(lens) && |t.av| == 32
    requires Used(lens, |codes|) && DeepestAt(t, z, lens[|codes|]) && IsCode(t.av[z], z)
    requires Covered(lens, codes, p) || InLeaf(t, p)
    ensures Covered(lens, codes + [t.av[z]], p) || InLeaf(Take(t, z, lens[|codes|]), p)
  {
    var l, v := lens[|codes|], t.av[z];
    if Covered(lens, codes, p) || Owns(v, l, p) {
      CoveredMore(lens, codes, v, p);
    } else {
      var i :| 0 <= i < 32 && Leaf(t, i) && Owns(t.av[i], i, p);
      TakeKeeps(t, z, l, p, i);
    }
  }

  lemma TakeKeeps(t: Leaves, z: nat, l: nat, p: nat, i: nat)
    requires |t.av| == 32 && DeepestAt(t, z, l) && IsCode(t.av[z], z)
    requires i < 32 && Leaf(t, i) && Owns(t.av[i], i, p) && !Owns(t.av[z], l, p)
    ensures InLeaf(Take(t, z, l), p)
  {
    var t' := Take(t, z, l);
    if i == z {
      var y := SiblingFor(t.av[z], z, l, p);
      assert Leaf(t', y) && t'.av[y] == t.av[z] + Pow2(32 - y);
    } else {
      assert Leaf(t', i) && t'.av[i] == t.av[i];
    }
  }

  /** The leaves after a step: the untouched ones and the new right siblings. */
  lemma TakeLeaves(t: Leaves, z: nat, l: nat, i: nat)
    requires |t.av| == 32 && z <= l < 32 && i < 32 && t.av[0] == 0
    requires Leaf(Take(t, z, l), i)
    ensures i != z && i > 0
    ensures z < i <= l || Leaf(t, i)
    ensures Take(t, z, l).av[i] == if z < i <= l then t.av[z] + Pow2(32 - i) else t.av[i]
  {
  }

  lemma TakeLeafOk(lens: seq<nat>, codes: seq<nat>, t: Leaves, z: nat, i: nat)
    requires |codes| < |lens| && ValidLengths(lens) && |t.av| == 32 && t.av[0] == 0
    requires Used(lens, |codes|) && z <= lens[|codes|] && IsCode(t.av[z], z)
    requires i < 32 && Leaf(Take(t, z, lens[|codes|]), i)
    requires Leaf(t, i) ==> LeafOk(lens, codes, t, i)
    ensures LeafOk(lens, codes + [t.av[z]], Take(t, z, lens[|codes|]), i)
  {
    var l, v := lens[|codes|], t.av[z];
    TakeLeaves(t, z, l, i);
    if z < i <= l {
      SiblingLeafOk(lens, codes, v, z, i);
    } else {
      OldLeafOk(lens, codes, v, t, Take(t, z, l), i);
    }
  }

  lemma OldLeafOk(lens: seq<nat>, codes: seq<nat>, v: nat, t: Leaves, u: Leaves, i: nat)
    requires |codes| < |lens| && ValidLengths(lens) && |t.av| == 32 && |u.av| == 32 && 0 < i < 32
    requires LeafOk(lens, codes, t, i) && u.av[i] == t.av[i]
    ensures LeafOk(lens, codes + [v], u, i)
  {
    CoveredMore(lens, codes, v, t.av[i] - Pow2(32 - i));
  }

  lemma SiblingLeafOk(lens: seq<nat>, codes: seq<nat>, v: nat, z: nat, i: nat)
    requires |codes| < |lens| && ValidLengths(lens) && Used(lens, |codes|)
    requires z < i <= lens[|codes|] && IsCode(v, z)
    ensures var w := v + Pow2(32 - i);
            IsCode(w, i) && High(w, 32 - i) % 2 == 1 && Covered(lens, codes + [v], w - Pow2(32 - i))
  {
    RightSibling(v, z, i);
    CoveredMore(lens, codes, v, v);
  }

  lemma NotOwnsBefore(v: nat, l: nat, a: nat, b: nat, m: nat)
    requires l <= m <= 32 && a < v && !Owns(v, l, a) && Owns(a, m, b)
    ensures b < v && !Owns(v, l, b)
  {
    OwnsShorter(a, m, b, l);
    HighMonotone(a, v, 32 - l);
    if b >= v { HighMonotone(v, b, 32 - l); }
  }

  lemma TakeOrdered(t: Leaves, z: nat, l: nat, i: nat, j: nat)
    requires |t.av| == 32 && DeepestAt(t, z, l) && LeavesOrdered(t) && IsCode(t.av[z], z)
    requires i < j < 32 && Leaf(Take(t, z, l), i) && Leaf(Take(t, z, l), j)
    ensures var t' := Take(t, z, l);
            t'.av[j] < t'.av[i] && !Owns(t'.av[i], i, t'.av[j])
  {
    var wi, wj := Take(t, z, l).av[i], Take(t, z, l).av[j];
    assert i > 0 && wi == (if z < i <= l then t.av[z] + Pow2(32 - i) else t.av[i]) by { TakeLeaves(t, z, l, i); }
    assert wj == (if z < j <= l then t.av[z] + Pow2(32 - j) else t.av[j]) by { TakeLeaves(t, z, l, j); }
    assert i != z && j != z && (z < i <= l || Leaf(t, i)) && (z < j <= l || Leaf(t, j));
    if z < i <= l {
      if j <= l { SiblingsOrdered(t.av[z], z, i, j); } else { SiblingAfter(t.av[z], z, i, t.av[j]); }
    } else if z < j <= l {
      RightSibling(t.av[z], z, j);
      NotOwnsBefore(t.av[i], i, t.av[z], t.av[z] + Pow2(32 - j), z);
    }
  }

  /** A word before v and outside its block lies before every sibling freed inside the block. */
  lemma SiblingAfter(v: nat, z: nat, i: nat, a: nat)
    requires z < i <= 32 && IsCode(v, z) && a < v && !Owns(v, z, a)
    ensures a < v + Pow2(32 - i) && !Owns(v + Pow2(32 - i), i, a)
  {
    RightSibling(v, z, i);
    if Owns(v + Pow2(32 - i), i, a) { OwnsShorter(v + Pow2(32 - i), i, a, z); }
  }

  lemma SiblingsOrdered(v: nat, z: nat, i: nat, j: nat)
    requires z < i < j <= 32 && IsCode(v, z)
    ensures v + Pow2(32 - j) < v + Pow2(32 - i)
    ensures !Owns(v + Pow2(32 - i), i, v + Pow2(32 - j))
  {
    RightSibling(v, z, i);
    IsCodeDeeper(v, z, i);
    RightSibling(v, i, j);
    Pow2Monotone(32 - j, 32 - i);
  }

  lemma OverlapInside(v: nat, z: nat, w: nat, k: nat, c: nat, m: nat)
    requires z <= k <= 32 && m <= 32 && Owns(v, z, w) && !Overlap(c, m, v, z)
    ensures !Overlap(c, m, w, k)
  {
    if m <= k {
      if Owns(c, m, w) { CommonWord(c, m, v, z, w); }
    } else if Owns(w, k, c) {
      OwnsShorter(w, k, c, z);
      CommonWord(c, m, v, z, c);
    }
  }

  lemma TakeFree(lens: seq<nat>, codes: seq<nat>, t: Leaves, z: nat, i: nat)
    requires |codes| < |lens| && ValidLengths(lens) && |t.av| == 32
    requires Used(lens, |codes|) && DeepestAt(t, z, lens[|codes|])
    requires LeavesOrdered(t) && LeavesFree(lens, codes, t)
    requires i < 32 && Leaf(Take(t, z, lens[|codes|]), i)
    ensures Free(lens, codes + [t.av[z]], |codes| + 1, Take(t, z, lens[|codes|]).av[i], i)
  {
    var n, l, v := |codes|, lens[|codes|], t.av[z];
    var cs := codes + [v];
    TakeLeaves(t, z, l, i);
    var w := Take(t, z, l).av[i];
    assert Free(lens, codes, n, v, z);
    if z < i <= l {
      RightSibling(v, z, i);
      OwnsShorterNot(v, l, w, i);
    } else {
      assert Free(lens, codes, n, w, i);
      if i > l && Owns(v, l, w) { OwnsShorter(v, l, w, z); }
    }
    forall e | 0 <= e < n + 1 && Used(lens, e) ensures !Overlap(cs[e], lens[e], w, i) {
      if e < n {
        assert cs[e] == codes[e];
        if z < i <= l { OverlapInside(v, z, w, i, codes[e], lens[e]); }
      }
    }
  }

  lemma OwnsShorterNot(v: nat, l: nat, w: nat, i: nat)
    requires i <= l <= 32 && High(w, 32 - i) == High(v, 32 - i) + 1
    ensures !Owns(w, i, v) && !Owns(v, l, w)
  {
    if Owns(v, l, w) { OwnsShorter(v, l, w, i); }
  }

  lemma TakeTiled(lens: seq<nat>, codes: seq<nat>, t: Leaves, z: nat)
    requires |codes| < |lens| && ValidLengths(lens) && Tiled(lens, codes, t)
    requires Used(lens, |codes|) && DeepestAt(t, z, lens[|codes|])
    ensures Tiled(lens, codes + [t.av[z]], Take(t, z, lens[|codes|]))
  {
    var n, l, v := |codes|, lens[|codes|], t.av[z];
    var cs, t' := codes + [v], Take(t, z, l);
    assert LeafOk(lens, codes, t, z);
    IsCodeDeeper(v, z, l);
    forall i | 0 <= i < 32 && Leaf(t', i) ensures LeafOk(lens, cs, t', i) {
      TakeLeafOk(lens, codes, t, z, i);
    }
    forall i, j | 0 <= i < j < 32 && Leaf(t', i) && Leaf(t', j)
      ensures t'.av[j] < t'.av[i] && !Owns(t'.av[i], i, t'.av[j])
    {
      TakeOrdered(t, z, l, i, j);
    }
    forall i | 0 <= i < 32 && Leaf(t', i) ensures Free(lens, cs, n + 1, t'.av[i], i) {
      TakeFree(lens, codes, t, z, i);
    }
    forall p | 0 <= p < WORD ensures Covered(lens, cs, p) || InLeaf(t', p) {
      TakeCovers(lens, codes, t, z, p);
    }
  }

  // ---------------------------------------------------------------------
  // The lowest free codeword, and the sum of the leaves
  // ---------------------------------------------------------------------

  lemma ParentStart(w: nat, i: nat, k: nat)
    requires 0 < i <= 32 && k < i && IsCode(w, i) && High(w, 32 - i) % 2 == 1 && w >= Pow2(32 - i)
    ensures Owns(w, k, w - Pow2(32 - i))
  {
    var q := w - Pow2(32 - i);
    Split(w, 32 - i);
    ShlPow2(0, 32 - i);
    ShlAdd(High(w, 32 - i) - 1, 1, 32 - i);
    Join(High(w, 32 - i) - 1, 0, 32 - i);
    HighStep(q, 32 - i);
    HighStep(w, 32 - i);
    OwnsShorter(w, i - 1, q, k);
  }

  /** The deepest usable leaf is the lowest free codeword of length l. */
  lemma LowestFree(lens: seq<nat>, codes: seq<nat>, t: Leaves, z: nat, l: nat, v: nat)
    requires |codes| <= |lens| && ValidLengths(lens) && Tiled(lens, codes, t)
    requires DeepestAt(t, z, l) && Free(lens, codes, |codes|, v, l)
    ensures t.av[z] <= v
  {
    NotCovered(lens, codes, v, l, v);
    assert InLeaf(t, v);
    var i :| 0 <= i < 32 && Leaf(t, i) && Owns(t.av[i], i, v);
    assert LeafOk(lens, codes, t, i);
    OwnsFrom(t.av[i], i, v);
    if i > l {
      ParentStart(t.av[i], i, l);
      OwnsShorter(t.av[i], i, v, l);
      NotCovered(lens, codes, v, l, t.av[i] - Pow2(32 - i));
      assert false;
    }
  }

  lemma NotCovered(lens: seq<nat>, codes: seq<nat>, v: nat, l: nat, p: nat)
    requires |codes| <= |lens| && ValidLengths(lens) && l <= 32
    requires Free(lens, codes, |codes|, v, l) && Owns(v, l, p)
    ensures !Covered(lens, codes, p)
  {
    if Covered(lens, codes, p) {
      var e :| 0 <= e < |codes| && Used(lens, e) && Owns(codes[e], lens[e], p);
      CommonWord(codes[e], lens[e], v, l, p);
      assert false;
    }
  }

  lemma FreeExtends(lens: seq<nat>, codes: seq<nat>, x: nat, n: nat, v: nat, l: nat)
    requires n <= |codes| < |lens| && ValidLengths(lens) && l <= 32
    ensures Free(lens, codes + [x], n, v, l) == Free(lens, codes, n, v, l)
  {
    var cs := codes + [x];
    forall e | 0 <= e < n ensures cs[e] == codes[e] { }
  }

  lemma CanonicalExtends(lens: seq<nat>, codes: seq<nat>, x: nat)
    requires |codes| < |lens| && ValidLengths(lens) && Canonical(lens, codes)
    requires Used(lens, |codes|) ==>
      && Free(lens, codes, |codes|, x, lens[|codes|])
      && forall v :: Free(lens, codes, |codes|, v, lens[|codes|]) ==> x <= v
    ensures Canonical(lens, codes + [x])
  {
    var cs := codes + [x];
    forall e | 0 <= e < |cs| ensures LowestAt(lens, cs, e) {
      assert e < |codes| ==> cs[e] == codes[e] && LowestAt(lens, codes, e);
      if Used(lens, e) {
        FreeExtends(lens, codes, x, e, cs[e], lens[e]);
        forall v | Free(lens, cs, e, v, lens[e]) ensures cs[e] <= v {
          FreeExtends(lens, codes, x, e, v, lens[e]);
        }
      }
    }
  }

  /** A free leaf is a free codeword at every deeper level. */
  lemma LeafIsFree(lens: seq<nat>, codes: seq<nat>, t: Leaves, z: nat, l: nat)
    requires |codes| <= |lens| && ValidLengths(lens) && Tiled(lens, codes, t)
    requires z <= l < 32 && Leaf(t, z)
    ensures Free(lens, codes, |codes|, t.av[z], l)
  {
    var v := t.av[z];
    assert LeafOk(lens, codes, t, z) && Free(lens, codes, |codes|, v, z);
    IsCodeDeeper(v, z, l);
    forall e | 0 <= e < |codes| && Used(lens, e) ensures !Overlap(codes[e], lens[e], v, l) {
      OverlapInside(v, z, v, l, codes[e], lens[e]);
    }
  }

  /** An entry without a code changes nothing. */
  lemma SkipTiled(lens: seq<nat>, codes: seq<nat>, t: Leaves)
    requires |codes| < |lens| && ValidLengths(lens) && Tiled(lens, codes, t) && !Used(lens, |codes|)
    ensures Tiled(lens, codes + [0], t)
  {
    var cs := codes + [0];
    forall p | Covered(lens, codes, p) ensures Covered(lens, cs, p) { CoveredMore(lens, codes, 0, p); }
    forall i | 0 <= i < 32 && Leaf(t, i)
      ensures LeafOk(lens, cs, t, i) && Free(lens, cs, |cs|, t.av[i], i)
    {
      assert LeafOk(lens, codes, t, i);
      FreeExtends(lens, codes, 0, |codes|, t.av[i], i);
    }
  }

  /** The codes handed out are the canonical ones, and with the free leaves they tile the space. */
  lemma {:induction false} AssignTiles(lens: seq<nat>, n: nat)
    requires n <= |lens| && ValidLengths(lens) && Assign(lens, n).Some?
    ensures var a := Assign(lens, n).value;
            Tiled(lens, a.codes, a.leaves) && Canonical(lens, a.codes)
  {
    if n == 0 {
      forall p | 0 <= p < WORD ensures InLeaf(NoLeaves(), p) {
        Pow2Constants();
        LowSmall(p, 32);
        LowSmall(0, 32);
        assert Leaf(NoLeaves(), 0) && Owns(0, 0, p);
      }
      LowZero(32);
      assert LeafOk(lens, [], NoLeaves(), 0);
    } else {
      AssignTiles(lens, n - 1);
      var a := Assign(lens, n - 1).value;
      if Used(lens, n - 1) {
        var l := lens[n - 1];
        var z := Deepest(a.leaves, l);
        DeepestFinds(a.leaves, l);
        TakeTiled(lens, a.codes, a.leaves, z);
        LeafIsFree(lens, a.codes, a.leaves, z, l);
        var x, m := a.leaves.av[z], n - 1;
        forall v | Free(lens, a.codes, m, v, l) ensures x <= v {
          LowestFree(lens, a.codes, a.leaves, z, l, v);
        }
        CanonicalExtends(lens, a.codes, a.leaves.av[z]);
      } else {
        SkipTiled(lens, a.codes, a.leaves);
        CanonicalExtends(lens, a.codes, 0);
      }
    }
  }

  /** The size of the free leaves at levels below k. */
  function LeafSum(t: Leaves, k: nat): nat
    requires |t.av| == 32 && k <= 32
  {
    if k == 0 then 0 else LeafSum(t, k - 1) + if Leaf(t, k - 1) then Pow2(33 - k) else 0
  }

  /** The levels of the free leaves after a codeword of length l is taken at level z. */
  ghost predicate LevelsMoved(t: Leaves, t': Leaves, z: nat, l: nat)
    requires |t.av| == 32 && |t'.av| == 32
  {
    forall k :: 0 <= k < 32 ==>
      Leaf(t', k) == (if k == z then false else z < k <= l || Leaf(t, k))
  }

  lemma TakeMoves(t: Leaves, z: nat, l: nat)
    requires |t.av| == 32 && DeepestAt(t, z, l) && LeavesOrdered(t)
    ensures LevelsMoved(t, Take(t, z, l), z, l)
  {
  }

  lemma {:induction false} LeafSumTake(t: Leaves, t': Leaves, z: nat, l: nat, k: nat)
    requires |t.av| == 32 && |t'.av| == 32 && DeepestAt(t, z, l) && LevelsMoved(t, t', z, l) && k <= 32
    ensures LeafSum(t', k) ==
            LeafSum(t, k) - if k <= z then 0 else if k <= l then Pow2(33 - k) else Pow2(32 - l)
  {
    if k > 0 {
      LeafSumTake(t, t', z, l, k - 1);
      assert Leaf(t', k - 1) == (if k - 1 == z then false else z < k - 1 <= l || Leaf(t, k - 1));
      if z < k - 1 <= l { assert Pow2(34 - k) == 2 * Pow2(33 - k); }
    }
  }

  /** Leaves deeper than l amount to less than one codeword of length l. */
  lemma {:induction false} LeafSumDeep(t: Leaves, l: nat, k: nat)
    requires |t.av| == 32 && l < 32 && k <= 32 && forall i :: 0 <= i <= l ==> !Leaf(t, i)
    ensures k <= l + 1 ==> LeafSum(t, k) == 0
    ensures k > l ==> LeafSum(t, k) + Pow2(32 - k + 1) <= Pow2(32 - l)
  {
    if k > 0 {
      LeafSumDeep(t, l, k - 1);
    }
  }

  /** The size of all free leaves. */
  function LeafTotal(t: Leaves): nat
    requires |t.av| == 32
  {
    LeafSum(t, |t.av|)
  }

  lemma TakeTotal(t: Leaves, z: nat, l: nat)
    requires |t.av| == 32 && DeepestAt(t, z, l) && LeavesOrdered(t)
    ensures LeafTotal(Take(t, z, l)) == LeafTotal(t) - Pow2(32 - l)
  {
    TakeMoves(t, z, l);
    LeafSumTake(t, Take(t, z, l), z, l, |t.av|);
  }

  /** Used codewords and free leaves always add up to the whole space. */
  lemma {:induction false} KraftConserved(lens: seq<nat>, n: nat)
    requires n <= |lens| && ValidLengths(lens) && Assign(lens, n).Some?
    ensures KraftSum(lens, n) + LeafTotal(Assign(lens, n).value.leaves) == WORD
  {
    if n == 0 {
      Pow2Constants();
      EmptySum(|NoLeaves().av|);
    } else {
      KraftConserved(lens, n - 1);
      var t := Assign(lens, n - 1).value.leaves;
      assert LeavesOrdered(t) by { AssignTiles(lens, n - 1); }
      if Used(lens, n - 1) {
        DeepestFinds(t, lens[n - 1]);
        TakeTotal(t, Deepest(t, lens[n - 1]), lens[n - 1]);
      }
    }
  }

  lemma {:induction false} EmptySum(k: nat)
    requires k <= 32
    ensures LeafSum(NoLeaves(), k) == if k == 0 then 0 else Pow2(32)
  {
    if k > 0 { EmptySum(k - 1); }
  }

  /** The construction succeeds exactly on the length lists whose codewords fit the space. */
  lemma {:induction false} AssignIffKraft(lens: seq<nat>, n: nat)
    requires n <= |lens| && ValidLengths(lens)
    ensures Assign(lens, n).Some? <==> KraftSum(lens, n) <= WORD
  {
    if n > 0 {
      AssignIffKraft(lens, n - 1);
      if Assign(lens, n).Some? {
        KraftConserved(lens, n);
      } else if Assign(lens, n - 1).Some? {
        KraftConserved(lens, n - 1);
        var t := Assign(lens, n - 1).value.leaves;
        DeepestFinds(t, lens[n - 1]);
        LeafSumDeep(t, lens[n - 1], |t.av|);
      }
    }
  }

  /** A codeword list that is canonical is the only one: each codeword is a least element. */
  lemma {:induction false} CanonicalUnique(lens: seq<nat>, codes: seq<nat>, codes': seq<nat>, n: nat)
    requires n <= |codes| <= |lens| && |codes'| == |codes| && ValidLengths(lens)
    requires Canonical(lens, codes) && Canonical(lens, codes')
    ensures forall e :: 0 <= e < n && Used(lens, e) ==> codes[e] == codes'[e]
  {
    if n > 0 {
      CanonicalUnique(lens, codes, codes', n - 1);
      var e := n - 1;
      assert LowestAt(lens, codes, e) && LowestAt(lens, codes', e);
      if Used(lens, e) {
        assert Free(lens, codes', e, codes[e], lens[e]);
        assert Free(lens, codes, e, codes'[e], lens[e]);
      }
    }
  }

  /** No codeword is a prefix of another. */
  lemma PrefixFree(lens: seq<nat>, codes: seq<nat>, d: nat, e: nat)
    requires |codes| <= |lens| && ValidLengths(lens) && Canonical(lens, codes)
    requires d < |codes| && e < |codes| && d != e && Used(lens, d) && Used(lens, e)
    ensures !Overlap(codes[d], lens[d], codes[e], lens[e])
  {
    assert LowestAt(lens, codes, d) && LowestAt(lens, codes, e);
  }
}
