/** Unsigned words as numbers. `Shl`, `High` and `Low` are the shift left, shift right and
    mask of C, written so that every fact about them is an induction over the bits. */
module Words {

  /** Marks the proofs that look inside a sealed predicate, one of the form
      `forall k {:trigger Opened(k)} :: Opened(k) ==> ...`. Other proofs carry it along unseen. */
  predicate Opened(k: nat) { true }

  /** n << k, without a width. */
  function Shl(n: nat, k: nat): (r: nat) {
    if k == 0 then n else 2 * Shl(n, k - 1)
  }

  /** n >> k. */
  function High(n: nat, k: nat): nat {
    if k == 0 then n else High(n / 2, k - 1)
  }

  /** n & ((1 << k) - 1). */
  function Low(n: nat, k: nat): nat {
    if k == 0 then 0 else n % 2 + 2 * Low(n / 2, k - 1)
  }

  function Pow2(k: nat): (p: nat)
    ensures p > 0
  {
    if k == 0 then 1 else 2 * Pow2(k - 1)
  }

  /** The number of 32-bit words. */
  const WORD: nat := 0x1_0000_0000

  lemma Pow2Constants()
    ensures Pow2(8) == 256 && Pow2(10) == 1024 && Pow2(16) == 65536
    ensures Pow2(24) == 0x100_0000 && Pow2(31) == 0x8000_0000 && Pow2(32) == WORD
  {
    assert Pow2(8) == 256;
    assert Pow2(16) == 65536;
    assert Pow2(24) == 0x100_0000;
  }

  lemma {:induction false} Pow2Monotone(a: nat, b: nat)
    requires a <= b
    ensures Pow2(a) <= Pow2(b)
    ensures a < b ==> 2 * Pow2(a) <= Pow2(b)
  {
    if a < b { Pow2Monotone(a, b - 1); }
  }

  lemma {:induction false} ShlPow2(a: nat, k: nat)
    ensures Shl(Pow2(a), k) == Pow2(a + k)
    ensures Shl(1, k) == Pow2(k)
  {
    if k > 0 { ShlPow2(a, k - 1); }
  }

  lemma {:induction false} ShlAdd(m: nat, n: nat, k: nat)
    ensures Shl(m + n, k) == Shl(m, k) + Shl(n, k)
    ensures m < n ==> Shl(m, k) + Pow2(k) <= Shl(n, k)
    ensures m <= n ==> Shl(m, k) <= Shl(n, k)
  {
    if k > 0 { ShlAdd(m, n, k - 1); }
  }

  lemma {:induction false} ShlZero(k: nat)
    ensures Shl(0, k) == 0
  {
    if k > 0 { ShlZero(k - 1); }
  }

  lemma {:induction false} ShlShl(n: nat, a: nat, b: nat)
    ensures Shl(Shl(n, a), b) == Shl(n, a + b)
  {
    if b > 0 { ShlShl(n, a, b - 1); }
  }

  /** A shift left can also double first. */
  lemma {:induction false} ShlInner(n: nat, k: nat)
    ensures Shl(2 * n, k) == 2 * Shl(n, k)
  {
    if k > 0 { ShlInner(n, k - 1); }
  }

  /** Every number is its high part shifted back plus its low part. */
  lemma {:induction false} Split(n: nat, k: nat)
    ensures n == Shl(High(n, k), k) + Low(n, k)
    ensures Low(n, k) < Pow2(k)
  {
    if k > 0 {
      Split(n / 2, k - 1);
    }
  }

  /** ... and that decomposition is unique. */
  lemma {:induction false} Join(h: nat, l: nat, k: nat)
    requires l < Pow2(k)
    ensures High(Shl(h, k) + l, k) == h
    ensures Low(Shl(h, k) + l, k) == l
  {
    if k > 0 {
      Join(h, l / 2, k - 1);
      assert (Shl(h, k) + l) / 2 == Shl(h, k - 1) + l / 2;
    }
  }

  lemma {:induction false} HighHigh(n: nat, a: nat, b: nat)
    ensures High(High(n, a), b) == High(n, a + b)
  {
    if a > 0 { HighHigh(n / 2, a - 1, b); }
  }

  lemma {:induction false} LowLow(n: nat, a: nat, b: nat)
    requires a <= b
    ensures Low(Low(n, b), a) == Low(n, a)
    ensures High(Low(n, b), a) == Low(High(n, a), b - a)
  {
    if a > 0 { LowLow(n / 2, a - 1, b - 1); }
  }

  lemma {:induction false} HighMonotone(m: nat, n: nat, k: nat)
    requires m <= n
    ensures High(m, k) <= High(n, k)
  {
    if k > 0 { HighMonotone(m / 2, n / 2, k - 1); }
  }

  lemma {:induction false} LowSmall(n: nat, k: nat)
    requires n < Pow2(k)
    ensures Low(n, k) == n && High(n, k) == 0
  {
    if k > 0 { LowSmall(n / 2, k - 1); }
  }

  lemma {:induction false} HighBound(n: nat, a: nat, b: nat)
    requires n < Pow2(a + b)
    ensures High(n, a) < Pow2(b)
  {
    if a > 0 { HighBound(n / 2, a - 1, b); }
  }

  // ---------------------------------------------------------------------
  // Bit reversal
  // ---------------------------------------------------------------------

  /** The low w bits of n in the opposite order. */
  function Rev(n: nat, w: nat): nat {
    if w == 0 then 0 else Shl(n % 2, w - 1) + Rev(n / 2, w - 1)
  }

  lemma {:induction false} RevBound(n: nat, w: nat)
    ensures Rev(n, w) < Pow2(w)
  {
    if w > 0 { RevBound(n / 2, w - 1); ShlPow2(0, w - 1); ShlAdd(n % 2, 1, w - 1); }
  }

  /** Reversal splits at any bit: the low l bits become the high ones. */
  lemma {:induction false} RevSplit(n: nat, l: nat, w: nat)
    requires l <= w
    ensures Rev(n, w) == Shl(Rev(Low(n, l), l), w - l) + Rev(High(n, l), w - l)
  {
    if l == 0 {
      ShlZero(w);
    } else {
      RevSplit(n / 2, l - 1, w - 1);
      var t := Rev(Low(n / 2, l - 1), l - 1);
      assert Rev(Low(n, l), l) == Shl(n % 2, l - 1) + t;
      ShlAdd(Shl(n % 2, l - 1), t, w - l);
      ShlShl(n % 2, l - 1, w - l);
    }
  }

  /** The bit that was highest becomes the lowest. */
  lemma {:induction false} RevHigh(n: nat, w: nat)
    requires w > 0
    ensures Rev(n, w) == 2 * Rev(n, w - 1) + High(n, w - 1) % 2
  {
    if w > 1 {
      RevHigh(n / 2, w - 1);
      assert Shl(n % 2, w - 1) == 2 * Shl(n % 2, w - 2);
    }
  }

  /** Only the low w bits matter. */
  lemma {:induction false} RevLow(n: nat, w: nat)
    ensures Rev(Low(n, w), w) == Rev(n, w)
  {
    if w > 0 { RevLow(n / 2, w - 1); }
  }

  lemma {:induction false} RevInvolutive(n: nat, w: nat)
    requires n < Pow2(w)
    ensures Rev(Rev(n, w), w) == n
  {
    if w > 0 {
      var r, t := Rev(n, w), Rev(n / 2, w - 1);
      assert High(r, w - 1) == n % 2 && Low(r, w - 1) == t by {
        RevBound(n / 2, w - 1);
        Join(n % 2, t, w - 1);
      }
      assert Rev(r, w - 1) == n / 2 by {
        RevLow(r, w - 1);
        RevInvolutive(n / 2, w - 1);
      }
      RevHigh(r, w);
    }
  }

  /** Bit i of a number. */
  predicate Bit(n: nat, i: nat) { High(n, i) % 2 == 1 }

  lemma {:induction false} RevBit(n: nat, w: nat, i: nat)
    requires i < w
    ensures Bit(Rev(n, w), i) == Bit(n, w - 1 - i)
  {
    RevHigh(n, w);
    if i > 0 {
      RevBit(n, w - 1, i - 1);
    }
  }

  // ---------------------------------------------------------------------
  // bit_reverse: five mask-and-shift swaps on the 32 bits of a word
  // ---------------------------------------------------------------------

  function ToBits(n: nat): seq<bool> { seq(32, i requires 0 <= i => Bit(n, i)) }

  function FromBits(s: seq<bool>): nat {
    if s == [] then 0 else (if s[0] then 1 else 0) + 2 * FromBits(s[1..])
  }

  function ShiftRight(s: seq<bool>, k: nat): seq<bool> {
    seq(|s|, i requires 0 <= i < |s| => i + k < |s| && s[i + k])
  }

  function ShiftLeft(s: seq<bool>, k: nat): seq<bool> {
    seq(|s|, i requires 0 <= i < |s| => i >= k && s[i - k])
  }

  function Or(s: seq<bool>, t: seq<bool>): seq<bool>
    requires |s| == |t|
  {
    seq(|s|, i requires 0 <= i < |s| => s[i] || t[i])
  }

  /** The bits selected by one of the masks: for e = 0, 1, 2, 3 the upper groups are
      0xAAAAAAAA, 0xCCCCCCCC, 0xF0F0F0F0, 0xFF00FF00 and the lower ones their complements. */
  function Masked(s: seq<bool>, e: nat, upper: bool): seq<bool> {
    seq(|s|, i requires 0 <= i < |s| => s[i] && Bit(i, e) == upper)
  }

  function Swap(s: seq<bool>, e: nat): seq<bool> {
    Or(ShiftRight(Masked(s, e, true), Pow2(e)), ShiftLeft(Masked(s, e, false), Pow2(e)))
  }

  /** i with bit e inverted. */
  function Partner(i: nat, e: nat): int {
    if Bit(i, e) then i - Pow2(e) else i + Pow2(e)
  }

  lemma {:induction false} BitToggles(i: nat, e: nat)
    ensures Bit(i + Pow2(e), e) == !Bit(i, e)
  {
    if e > 0 {
      BitToggles(i / 2, e - 1);
      assert (i + Pow2(e)) / 2 == i / 2 + Pow2(e - 1);
    }
  }

  lemma SwapIndex(s: seq<bool>, e: nat, i: nat)
    requires i < |s| == 32 && 0 <= Partner(i, e) < 32
    ensures Swap(s, e)[i] == s[Partner(i, e)]
  {
    BitToggles(i, e);
    if i >= Pow2(e) { BitToggles(i - Pow2(e), e); }
  }

  lemma Partners(i: nat, b0: nat, b1: nat, b2: nat, b3: nat, b4: nat)
    requires b0 <= 1 && b1 <= 1 && b2 <= 1 && b3 <= 1
    requires i == b0 + 2 * b1 + 4 * b2 + 8 * b3 + 16 * b4
    ensures Partner(i, 0) == i + 1 - 2 * b0 && Partner(i, 1) == i + 2 - 4 * b1
    ensures Partner(i, 2) == i + 4 - 8 * b2 && Partner(i, 3) == i + 8 - 16 * b3
  {
    assert Pow2(1) == 2 && Pow2(2) == 4 && Pow2(3) == 8;
    assert i / 2 == b1 + 2 * b2 + 4 * b3 + 8 * b4;
    assert i / 2 / 2 == b2 + 2 * b3 + 4 * b4;
    assert i / 2 / 2 / 2 == b3 + 2 * b4;
    assert High(i, 1) == i / 2;
    assert High(i, 2) == High(i / 2, 1) == i / 2 / 2;
    assert High(i, 3) == High(i / 2, 2) == High(i / 2 / 2, 1) == i / 2 / 2 / 2;
  }

  /** Inverting bits 4, 3, 2, 1 and 0 of an index mirrors it. */
  lemma PartnersMirror(i: nat) returns (i4: nat, i3: nat, i2: nat, i1: nat)
    requires i < 32
    ensures i4 == (if i < 16 then i + 16 else i - 16) < 32
    ensures i3 == Partner(i4, 3) < 32 && i2 == Partner(i3, 2) < 32 && i1 == Partner(i2, 1) < 32
    ensures Partner(i1, 0) == 31 - i
  {
    var b0, b1, b2, b3, b4 := i % 2, i / 2 % 2, i / 2 / 2 % 2, i / 2 / 2 / 2 % 2, i / 2 / 2 / 2 / 2;
    i4 := if i < 16 then i + 16 else i - 16;
    Partners(i4, b0, b1, b2, b3, 1 - b4);
    i3 := i4 + 8 - 16 * b3;
    Partners(i3, b0, b1, b2, 1 - b3, 1 - b4);
    i2 := i3 + 4 - 8 * b2;
    Partners(i2, b0, b1, 1 - b2, 1 - b3, 1 - b4);
    i1 := i2 + 2 - 4 * b1;
    Partners(i1, b0, 1 - b1, 1 - b2, 1 - b3, 1 - b4);
  }

  lemma SwapsReverse(s: seq<bool>, i: nat)
    requires i < |s| == 32
    ensures var t := Swap(Swap(Swap(Swap(s, 0), 1), 2), 3);
            Or(ShiftRight(t, 16), ShiftLeft(t, 16))[i] == s[31 - i]
  {
    var i4, i3, i2, i1 := PartnersMirror(i);
    var a := Swap(s, 0);
    var b := Swap(a, 1);
    var c := Swap(b, 2);
    SwapIndex(s, 0, i1);
    SwapIndex(a, 1, i2);
    SwapIndex(b, 2, i3);
    SwapIndex(c, 3, i4);
  }

  lemma {:induction false} FromBitsOf(s: seq<bool>, n: nat)
    requires n < Pow2(|s|)
    requires forall i :: 0 <= i < |s| ==> s[i] == Bit(n, i)
    ensures FromBits(s) == n
  {
    if s != [] {
      assert Bit(n, 0) == (n % 2 == 1);
      forall i | 0 <= i < |s| - 1 ensures s[1..][i] == Bit(n / 2, i) {
        assert s[i + 1] == Bit(n, i + 1);
      }
      FromBitsOf(s[1..], n / 2);
    }
  }

  /** A 32-bit word with its bits in the opposite order. */
  function Mirror(n: nat): nat { Rev(n, 32) }

  /** The five swaps reverse the 32 bits. */
  lemma SwapsMirror(n: nat, s: seq<bool>)
    requires s == Swap(Swap(Swap(Swap(ToBits(n), 0), 1), 2), 3)
    ensures FromBits(Or(ShiftRight(s, 16), ShiftLeft(s, 16))) == Mirror(n)
  {
    var r := Or(ShiftRight(s, 16), ShiftLeft(s, 16));
    forall i | 0 <= i < 32 ensures r[i] == Bit(Mirror(n), i) {
      SwapsReverse(ToBits(n), i);
      RevBit(n, 32, i);
    }
    RevBound(n, 32);
    FromBitsOf(r, Mirror(n));
  }

  method BitReverse(n: nat) returns (r: nat)
    ensures r == Mirror(n)
  {
    var s := ToBits(n);
    s := Swap(s, 0);
    s := Swap(s, 1);
    s := Swap(s, 2);
    s := Swap(s, 3);
    r := FromBits(Or(ShiftRight(s, 16), ShiftLeft(s, 16)));
    SwapsMirror(n, s);
  }
}
