/** The page checksum (section 6 of RFC 3533): updates by table lookup against long division of
    the message by the generator polynomial. Words are their bits, highest first. */
module Crc {
  import opened Basics
  import Words

  /** The low w bits of a number, highest first, and the number that bits spell. */
  function BitsOf(n: nat, w: nat): (s: seq<bool>)
    ensures |s| == w
  {
    if w == 0 then [] else BitsOf(n / 2, w - 1) + [n % 2 == 1]
  }

  function ValueOf(s: seq<bool>): nat {
    if s == [] then 0 else 2 * ValueOf(s[..|s| - 1]) + if s[|s| - 1] then 1 else 0
  }

  function Zeros(n: nat): seq<bool> { seq(n, _ => false) }

  function Xor(a: seq<bool>, b: seq<bool>): (s: seq<bool>)
    requires |a| == |b|
    ensures |s| == |a|
  {
    seq(|a|, i requires 0 <= i < |a| => a[i] != b[i])
  }

  type Word = s: seq<bool> | |s| == 32 witness Zeros(32)
  function Poly(): Word { BitsOf(0x04C11DB7, 32) }

  /** s << k. */
  function ShiftOut(s: Word, k: nat): Word
    requires k <= 32
  {
    s[k..] + Zeros(k)
  }

  /** One step of division: shift, and subtract the polynomial when a bit falls out. */
  function Shift(s: Word): Word {
    Xor(ShiftOut(s, 1), if s[0] then Poly() else Zeros(32))
  }

  function Shifts(s: Word, n: nat): Word
    decreases n
  {
    if n == 0 then s else Shifts(Shift(s), n - 1)
  }

  lemma ShiftsStep(s: Word, n: nat)
    requires n > 0
    ensures Shifts(s, n) == Shifts(Shift(s), n - 1)
  {
  }

  /** n << 24 for a byte. */
  function High8(n: nat): Word { BitsOf(n, 8) + Zeros(24) }

  lemma {:induction false} ValueBits(s: seq<bool>, w: nat)
    requires |s| == w
    ensures BitsOf(ValueOf(s), w) == s
  {
    if w > 0 {
      var t := s[..w - 1];
      ValueBits(t, w - 1);
      assert ValueOf(s) / 2 == ValueOf(t);
      assert s == t + [s[w - 1]];
    }
  }

  lemma {:induction false} ValueBelow(s: seq<bool>)
    ensures ValueOf(s) < Words.Pow2(|s|)
  {
    if s != [] {
      ValueBelow(s[..|s| - 1]);
    }
  }

  lemma ByteValue(s: seq<bool>)
    requires |s| == 8
    ensures ValueOf(s) < 256
  {
    ValueBelow(s);
    Words.Pow2Constants();
  }

  /** `crc32_init`. */
  method InitTable() returns (table: array<Word>)
    ensures fresh(table) && IsTable(table[..])
  {
    table := new Word[256](_ => Zeros(32));
    var i := 0;
    while i < 256
      invariant 0 <= i <= 256
      invariant forall k :: 0 <= k < i ==> Entry(table[k], k)
    {
      table[i] := ShiftBy(High8(i), 8);
      i := i + 1;
    }
    forall k | 0 <= k < 256 ensures table[..][k] == Shifts(High8(k), 8) {
      assert Entry(table[k], k) && Words.Opened(0);
    }
  }

  /** Sealed: the entry of byte k. */
  ghost predicate Entry(w: Word, k: nat) {
    forall o: nat {:trigger Words.Opened(o)} :: Words.Opened(o) ==> w == Shifts(High8(k), 8)
  }

  method ShiftBy(s0: Word, times: nat) returns (s: Word)
    ensures s == Shifts(s0, times)
  {
    s := s0;
    var j: nat := 0;
    while j < times
      invariant j <= times && Shifts(s, times - j) == Shifts(s0, times)
    {
      ShiftsStep(s, times - j);
      s := Shift(s);
      j := j + 1;
    }
  }

  ghost predicate IsTable(table: seq<Word>) {
    |table| == 256 && forall i :: 0 <= i < 256 ==> table[i] == Shifts(High8(i), 8)
  }

  /** `crc32_update`: the byte and the top of the register select the table entry. */
  function Update(table: seq<Word>, crc: Word, byte: Byte): Word
    requires |table| == 256
  {
    var index := Xor(BitsOf(byte, 8), crc[..8]);
    ByteValue(index);
    Xor(ShiftOut(crc, 8), table[ValueOf(index)])
  }

  function Fold(table: seq<Word>, crc: Word, bytes: seq<Byte>): Word
    requires |table| == 256
    decreases |bytes|
  {
    if bytes == [] then crc else Fold(table, Update(table, crc, bytes[0]), bytes[1..])
  }

  // ---------------------------------------------------------------------
  // Long division
  // ---------------------------------------------------------------------

  /** The message as one string of bits, each byte highest bit first. */
  function Message(bytes: seq<Byte>): seq<bool> {
    if bytes == [] then [] else BitsOf(bytes[0], 8) + Message(bytes[1..])
  }

  function One(b: bool): Word { Zeros(31) + [b] }

  /** Brings down the bits of a dividend one at a time; r is the remainder so far. */
  function Divide(r: Word, bits: seq<bool>): Word
    decreases |bits|
  {
    if bits == [] then r else Divide(Xor(Shift(r), One(bits[0])), bits[1..])
  }

  // ---------------------------------------------------------------------
  // Linearity
  // ---------------------------------------------------------------------

  lemma XorAlgebra(a: Word, b: Word, c: Word)
    ensures Xor(a, b) == Xor(b, a)
    ensures Xor(Xor(a, b), c) == Xor(a, Xor(b, c))
    ensures Xor(a, Zeros(32)) == a
  {
  }

  lemma ShiftXor(a: Word, b: Word)
    ensures Shift(Xor(a, b)) == Xor(Shift(a), Shift(b))
  {
  }

  lemma {:induction false} ShiftsXor(a: Word, b: Word, n: nat)
    ensures Shifts(Xor(a, b), n) == Xor(Shifts(a, n), Shifts(b, n))
    decreases n
  {
    if n > 0 {
      ShiftXor(a, b);
      ShiftsXor(Shift(a), Shift(b), n - 1);
    }
  }

  lemma {:induction false} ShiftsLast(s: Word, n: nat)
    ensures Shifts(s, n + 1) == Shift(Shifts(s, n))
    decreases n
  {
    ShiftsStep(s, n + 1);
    if n > 0 {
      ShiftsStep(s, n);
      ShiftsLast(Shift(s), n - 1);
    }
  }

  /** While only zeros fall out, shifting is just shifting. */
  lemma {:induction false} ShiftsClear(s: Word, n: nat)
    requires n <= 32 && s[..n] == Zeros(n)
    ensures Shifts(s, n) == ShiftOut(s, n)
    decreases n
  {
    if n > 0 {
      assert !s[0] by { assert s[..n][0] == s[0]; }
      var t := Shift(s);
      assert t == ShiftOut(s, 1);
      assert t[..n - 1] == s[1..n] == s[..n][1..] == Zeros(n - 1);
      ShiftsClear(t, n - 1);
      assert ShiftOut(t, n - 1) == ShiftOut(s, n);
    } else {
      assert ShiftOut(s, 0) == s;
    }
  }

  /** One table lookup is eight steps of division on the register with the byte added on top. */
  lemma UpdateIsEightSteps(table: seq<Word>, crc: Word, byte: Byte)
    requires IsTable(table)
    ensures Update(table, crc, byte) == Shifts(Xor(crc, High8(byte)), 8)
  {
    var index := Xor(BitsOf(byte, 8), crc[..8]);
    ByteValue(index);
    ValueBits(index, 8);
    var top, low := High8(ValueOf(index)), Zeros(8) + crc[8..];
    assert Xor(crc, High8(byte)) == Xor(low, top);
    ShiftsXor(low, top, 8);
    assert low[..8] == Zeros(8);
    ShiftsClear(low, 8);
    assert ShiftOut(low, 8) == ShiftOut(crc, 8);
  }

  // ---------------------------------------------------------------------
  // The register and the remainder
  // ---------------------------------------------------------------------

  /** A register that is the remainder r carried 32 places further. */
  lemma {:induction false} StepAhead(r: Word, b: bool)
    ensures Shifts(Xor(Shift(r), One(b)), 32) == Shift(Xor(Shifts(r, 32), [b] + Zeros(31)))
  {
    ShiftsXor(Shift(r), One(b), 32);
    ShiftsLast(r, 32);
    assert Shifts(Shift(r), 32) == Shifts(r, 33);
    ShiftsClear(One(b), 31);
    assert ShiftOut(One(b), 31) == [b] + Zeros(31);
    ShiftsLast(One(b), 31);
    ShiftXor(Shifts(r, 32), [b] + Zeros(31));
  }

  /** Adding n bits on top one at a time, shifting after each. */
  function Feed(crc: Word, bits: seq<bool>): Word
    decreases |bits|
  {
    if bits == [] then crc else Feed(Shift(Xor(crc, [bits[0]] + Zeros(31))), bits[1..])
  }

  lemma {:induction false} FeedIsDivide(r: Word, bits: seq<bool>)
    ensures Feed(Shifts(r, 32), bits) == Shifts(Divide(r, bits), 32)
    decreases |bits|
  {
    if bits != [] {
      StepAhead(r, bits[0]);
      FeedIsDivide(Xor(Shift(r), One(bits[0])), bits[1..]);
    }
  }

  /** Bits added all at once meet the register at the same moment as bits added one by one. */
  lemma {:induction false} FeedAtOnce(crc: Word, bits: seq<bool>)
    requires |bits| <= 32
    ensures Shifts(Xor(crc, bits + Zeros(32 - |bits|)), |bits|) == Feed(crc, bits)
    decreases |bits|
  {
    if bits == [] {
      NothingAdded(crc);
    } else {
      AddAndShift(crc, bits);
      ShiftsStep(Xor(crc, bits + Zeros(32 - |bits|)), |bits|);
      FeedAtOnce(Shift(Xor(crc, [bits[0]] + Zeros(31))), bits[1..]);
    }
  }

  lemma NothingAdded(crc: Word)
    ensures Xor(crc, [] + Zeros(32)) == crc
  {
  }

  lemma AddAndShift(crc: Word, bits: seq<bool>)
    requires 0 < |bits| <= 32
    ensures Shift(Xor(crc, bits + Zeros(32 - |bits|))) ==
            Xor(Shift(Xor(crc, [bits[0]] + Zeros(31))), bits[1..] + Zeros(32 - (|bits| - 1)))
  {
    FirstBitApart(crc, bits);
    ShiftXor(Xor(crc, [bits[0]] + Zeros(31)), [false] + bits[1..] + Zeros(32 - |bits|));
  }

  /** The first bit can be added by itself; shifting the others moves them up. */
  lemma FirstBitApart(crc: Word, bits: seq<bool>)
    requires 0 < |bits| <= 32
    ensures var first, later := [bits[0]] + Zeros(31), [false] + bits[1..] + Zeros(32 - |bits|);
            && Xor(crc, bits + Zeros(32 - |bits|)) == Xor(Xor(crc, first), later)
            && Shift(later) == bits[1..] + Zeros(32 - (|bits| - 1))
  {
    var later := [false] + bits[1..] + Zeros(32 - |bits|);
    assert Xor(ShiftOut(later, 1), Zeros(32)) == ShiftOut(later, 1);
  }

  lemma {:induction false} FeedAppend(crc: Word, a: seq<bool>, b: seq<bool>)
    ensures Feed(crc, a + b) == Feed(Feed(crc, a), b)
    decreases |a|
  {
    if a == [] {
      assert a + b == b;
    } else {
      assert (a + b)[1..] == a[1..] + b;
      FeedAppend(Shift(Xor(crc, [a[0]] + Zeros(31))), a[1..], b);
    }
  }

  lemma {:induction false} FoldIsFeed(table: seq<Word>, crc: Word, bytes: seq<Byte>)
    requires IsTable(table)
    ensures Fold(table, crc, bytes) == Feed(crc, Message(bytes))
    decreases |bytes|
  {
    if bytes != [] {
      UpdateIsEightSteps(table, crc, bytes[0]);
      FeedAtOnce(crc, BitsOf(bytes[0], 8));
      FeedAppend(crc, BitsOf(bytes[0], 8), Message(bytes[1..]));
      FoldIsFeed(table, Update(table, crc, bytes[0]), bytes[1..]);
    }
  }

  lemma {:induction false} DivideZeros(r: Word, n: nat)
    ensures Divide(r, Zeros(n)) == Shifts(r, n)
    decreases n
  {
    if n > 0 {
      assert Zeros(n)[1..] == Zeros(n - 1);
      assert One(false) == Zeros(32);
      XorAlgebra(Shift(r), Zeros(32), Zeros(32));
      DivideZeros(Shift(r), n - 1);
    }
  }

  lemma {:induction false} DivideAppend(r: Word, a: seq<bool>, b: seq<bool>)
    ensures Divide(r, a + b) == Divide(Divide(r, a), b)
    decreases |a|
  {
    if a == [] {
      assert a + b == b;
    } else {
      assert (a + b)[1..] == a[1..] + b;
      DivideAppend(Xor(Shift(r), One(a[0])), a[1..], b);
    }
  }

  /** The checksum of a byte string is the remainder of its bits, followed by 32 zeros, on long
      division by the generator polynomial. */
  lemma ChecksumIsRemainder(table: seq<Word>, bytes: seq<Byte>)
    requires IsTable(table)
    ensures Fold(table, Zeros(32), bytes) == Divide(Zeros(32), Message(bytes) + Zeros(32))
  {
    ShiftsClear(Zeros(32), 32);
    assert ShiftOut(Zeros(32), 32) == Zeros(32);
    FoldIsFeed(table, Zeros(32), bytes);
    FeedIsDivide(Zeros(32), Message(bytes));
    DivideAppend(Zeros(32), Message(bytes), Zeros(32));
    DivideZeros(Divide(Zeros(32), Message(bytes)), 32);
  }
}
