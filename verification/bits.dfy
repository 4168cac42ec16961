/** The bit reader: bits of a packet, lowest bit of each byte first (section 2 of the Vorbis I
    specification), buffered in a 32-bit accumulator. */
module BitReader {
  import opened Basics
  import opened Words
  import opened Packets

  const INVALID_BITS: int := -1

  /** A finite bit string as a number, first bit lowest, and its length. */
  datatype Bits = Bits(val: nat, len: nat)

  /** The bit string of a byte string. */
  function BytesValue(bs: seq<Byte>): nat {
    if bs == [] then 0 else bs[0] + 256 * BytesValue(bs[1..])
  }

  /** What is still to be read: the buffered bits, then the rest of the packet. */
  function Pending(rest: seq<Byte>, acc: nat, vb: nat): Bits {
    Bits(Low(acc, vb) + Shl(BytesValue(rest), vb), vb + 8 * |rest|)
  }

  /** How many bits are buffered after a refill that can take k more bytes. */
  function PrepBits(vb: nat, k: nat): nat
    decreases k
  {
    if vb > 24 || k == 0 then vb else PrepBits(vb + 8, k - 1)
  }

  lemma {:induction false} PrepBitsEnough(vb: nat, k: nat)
    requires vb <= 32
    ensures vb <= PrepBits(vb, k) <= 32
    ensures PrepBits(vb, k) >= 25 || PrepBits(vb, k) == vb + 8 * k
    decreases k
  {
    if vb <= 24 && k > 0 { PrepBitsEnough(vb + 8, k - 1); }
  }

  /** Eight shifted bits above vb buffered ones. */
  lemma Shl8(b: nat, v: nat, vb: nat)
    requires b < 256
    ensures Shl(b, vb) + Pow2(vb) <= Pow2(vb + 8)
    ensures Shl(b + 256 * v, vb) == Shl(b, vb) + Shl(v, vb + 8)
  {
    Pow2Constants();
    ShlAdd(b, 256, vb);
    ShlPow2(8, vb);
    ShlAdd(b, 256 * v, vb);
    Shl256(v);
    ShlShl(v, 8, vb);
  }

  lemma Shl256(v: nat)
    ensures Shl(v, 8) == 256 * v
  {
    ShlShl(v, 4, 4);
    Shl16(v);
    Shl16(16 * v);
  }

  lemma Shl16(v: nat)
    ensures Shl(v, 4) == 16 * v
  {
    assert Shl(v, 1) == 2 * v;
    assert Shl(v, 2) == 4 * v;
    assert Shl(v, 3) == 8 * v;
  }

  /** Moving one byte from the packet to the buffer changes nothing. */
  lemma Refill(rest: seq<Byte>, acc: nat, vb: nat)
    requires rest != [] && acc < Pow2(vb)
    ensures Pending(rest[1..], acc + Shl(rest[0], vb), vb + 8) == Pending(rest, acc, vb)
    ensures acc + Shl(rest[0], vb) < Pow2(vb + 8)
  {
    Shl8(rest[0], BytesValue(rest[1..]), vb);
    LowSmall(acc, vb);
    LowSmall(acc + Shl(rest[0], vb), vb + 8);
  }

  /** Taking n buffered bits takes them off the front of everything pending. */
  lemma TakeBits(rest: seq<Byte>, acc: nat, vb: nat, n: nat)
    requires n <= vb
    ensures var p := Pending(rest, acc, vb);
            && Low(acc, n) == Low(p.val, n)
            && Pending(rest, High(acc, n), vb - n) == Bits(High(p.val, n), p.len - n)
  {
    var v, p := BytesValue(rest), Pending(rest, acc, vb).val;
    Split(acc, vb);
    Join(v, Low(acc, vb), vb);
    LowLow(acc, n, vb);
    LowLow(p, n, vb);
    HighHigh(p, n, vb - n);
    Split(High(p, n), vb - n);
  }

  /** 24 bits and n - 24 more. */
  lemma TwoReads(v: nat, n: nat)
    requires n >= 24
    ensures Low(v, 24) + Shl(Low(High(v, 24), n - 24), 24) == Low(v, n)
    ensures High(High(v, 24), n - 24) == High(v, n)
  {
    LowLow(v, 24, n);
    Split(Low(v, n), 24);
    HighHigh(v, 24, n - 24);
  }

  /** The ghost fields describe what the source still delivers; sealed. */
  ghost predicate Linked(f: Stream)
    requires f.Valid()
    reads f
  {
    forall k: nat {:trigger Opened(k)} :: Opened(k) ==>
      f.rest == Rest(f.data, f.View()) && f.closed == Closed(f.data, f.View()) && (f.validBits < 0 && f.closed ==> AtEnd(f.View()))
  }

  /** The accumulator holds nothing above the valid bits. */
  ghost predicate Buffered(f: Stream)
    reads f
  {
    f.Valid() && Linked(f) && -1 <= f.validBits <= 32 && (f.validBits > 0 ==> f.acc < Pow2(f.validBits))
  }

  /** A reader whose packet ends for good. */
  ghost predicate Sound(f: Stream)
    reads f
  {
    Buffered(f) && f.closed
  }

  ghost function PendingBits(f: Stream): Bits
    requires f.validBits >= 0
    reads f
  {
    Pending(f.rest, f.acc, f.validBits)
  }

  /** At the start of a packet nothing is buffered and the whole packet is pending. */
  ghost method Link(f: Stream)
    requires f.Valid() && f.validBits == 0
    modifies f`rest, f`closed
    ensures Buffered(f) && f.rest == Rest(f.data, f.View()) && f.closed == Closed(f.data, f.View())
  {
    f.rest := Rest(f.data, f.View());
    f.closed := Closed(f.data, f.View());
  }

  /** One more byte into the buffer, if the packet has one. */
  method TakeByte(f: Stream) returns (z: int)
    requires Buffered(f) && 0 <= f.validBits <= 24 && f.acc < Pow2(f.validBits)
    modifies f
    ensures f.Valid() && 0 <= f.validBits && f.acc < Pow2(f.validBits)
    ensures f.closed == old(f.closed)
    ensures z == EOP ==> f.rest == old(f.rest) == [] && f.validBits == old(f.validBits) && f.acc == old(f.acc)
    ensures z == EOP && f.closed ==> Buffered(f) && AtEnd(f.View())
    ensures z != EOP ==>
      && Buffered(f) && old(f.rest) != [] && f.rest == old(f.rest)[1..]
      && f.validBits == old(f.validBits) + 8 && PendingBits(f) == old(PendingBits(f))
  {
    assert Opened(0);
    ghost var s := f.View();
    PacketByteWf(f.data, s);
    z := f.Get8PacketRaw();
    if z == EOP {
      if f.closed { EopSticky(f.data, s); }
    } else {
      Refill(f.rest, f.acc, f.validBits);
      f.acc := f.acc + Shl(z, f.validBits);
      f.validBits := f.validBits + 8;
      f.rest := f.rest[1..];
    }
  }

  /** The refill loop of `get_bits`: at least n buffered bits, or the packet is over. */
  method Fill(f: Stream, n: nat) returns (ok: bool)
    requires Buffered(f) && 0 <= f.validBits <= n <= 24 && (f.validBits == 0 ==> f.acc == 0)
    modifies f
    ensures f.Valid() && f.closed == old(f.closed)
    ensures ok <==> n <= old(PendingBits(f)).len
    ensures ok ==> Buffered(f) && f.validBits >= n && PendingBits(f) == old(PendingBits(f))
    ensures !ok ==> f.validBits == INVALID_BITS && (f.closed ==> Buffered(f))
  {
    while f.validBits < n
      invariant Buffered(f) && 0 <= f.validBits <= 31 && f.acc < Pow2(f.validBits)
      invariant PendingBits(f) == old(PendingBits(f)) && f.closed == old(f.closed)
      decreases n - f.validBits
    {
      var z := TakeByte(f);
      if z == EOP {
        MarkInvalid(f);
        return false;
      }
    }
    return true;
  }

  method MarkInvalid(f: Stream)
    requires f.Valid() && (f.closed ==> Buffered(f) && AtEnd(f.View()))
    modifies f`validBits
    ensures f.validBits == INVALID_BITS && (f.closed ==> Buffered(f))
  {
    assert Opened(0);
    f.validBits := INVALID_BITS;
  }

  /** The next n bits, first one lowest. With fewer than n left the packet counts as over. The
      mask is computed in 32 bits, hence the limit on n when that many bits are buffered. */
  method GetBits(f: Stream, n: nat) returns (z: nat)
    requires f.Valid() && f.validBits >= -1 && (f.validBits >= 0 ==> Buffered(f))
    requires n <= 32 && (n <= 30 || f.validBits < n)
    modifies f
    ensures f.Valid() && f.validBits >= -1 && (f.validBits >= 0 ==> Buffered(f)) && f.closed == old(f.closed)
    ensures old(Sound(f)) ==> Sound(f)
    ensures old(f.validBits) < 0 ==> z == 0 && f.validBits == old(f.validBits)
    ensures old(f.validBits) >= 0 ==> BitsTaken(old(PendingBits(f)), n, z, f)
    decreases n
  {
    if f.validBits < 0 { return 0; }
    if f.validBits < n && n > 24 {
      z := GetBits(f, 24);
      var y := GetBits(f, n - 24);
      TwoReads(old(PendingBits(f)).val, n);
      ShlZero(24);
      return z + Shl(y, 24);
    }
    z := GetFew(f, n);
  }

  /** The outcome of reading n bits from p: they come off the front, or the reader is marked. */
  ghost predicate BitsTaken(p: Bits, n: nat, z: nat, f: Stream)
    reads f
  {
    if n <= p.len then
      z == Low(p.val, n) && f.validBits >= 0 && PendingBits(f) == Bits(High(p.val, n), p.len - n)
    else
      z == (if n > 24 && p.len >= 24 then Low(p.val, 24) else 0) && f.validBits == INVALID_BITS
  }

  /** The case where the accumulator has room for all n bits. */
  method GetFew(f: Stream, n: nat) returns (z: nat)
    requires Buffered(f) && f.validBits >= 0 && (n <= 24 || n <= f.validBits)
    modifies f
    ensures f.Valid() && f.validBits >= -1 && (f.validBits >= 0 || f.closed ==> Buffered(f)) && f.closed == old(f.closed)
    ensures BitsTaken(old(PendingBits(f)), n, z, f)
  {
    if f.validBits < n {
      if f.validBits == 0 { ClearBuffer(f); }
      var ok := Fill(f, n);
      if !ok { return 0; }
    }
    z := Cut(f, n);
  }

  /** An empty buffer is set to zero before it is filled. */
  method ClearBuffer(f: Stream)
    requires Buffered(f) && f.validBits == 0
    modifies f`acc
    ensures Buffered(f) && f.acc == 0 && PendingBits(f) == old(PendingBits(f))
  {
    assert Opened(0);
    f.acc := 0;
  }

  method Cut(f: Stream, n: nat) returns (z: nat)
    requires Buffered(f) && n <= f.validBits
    modifies f`acc, f`validBits
    ensures Buffered(f) && f.validBits >= 0
    ensures var p := old(PendingBits(f));
            z == Low(p.val, n) && PendingBits(f) == Bits(High(p.val, n), p.len - n)
  {
    assert Opened(0);
    TakeBits(f.rest, f.acc, f.validBits, n);
    HighBoundTake(f.acc, n, f.validBits);
    z := Low(f.acc, n);
    f.acc := High(f.acc, n);
    f.validBits := f.validBits - n;
  }

  lemma HighBoundTake(acc: nat, n: nat, vb: int)
    requires n <= vb
    ensures vb > 0 && acc < Pow2(vb) ==> High(acc, n) < Pow2(vb - n)
  {
    if vb > 0 && acc < Pow2(vb) { HighBound(acc, n, vb - n); }
  }

  /** Refills the buffer as far as possible: 25 bits or the end of the packet. What is pending
      does not change. Only a packet that is cut off, when it is used up, leaves a reader that has
      gone on to another page. */
  method PrepHuffman(f: Stream)
    requires Buffered(f) && (f.closed || f.validBits >= 0)
    modifies f
    ensures f.Valid() && f.closed == old(f.closed) && (f.closed || f.validBits > 24 ==> Buffered(f))
    ensures old(f.validBits) < 0 ==> f.validBits == old(f.validBits) && f.acc == old(f.acc)
    ensures old(f.validBits) >= 0 ==>
      && f.validBits == PrepBits(old(f.validBits), |old(f.rest)|)
      && PendingBits(f) == old(PendingBits(f)) && f.acc < Pow2(f.validBits)
  {
    if f.validBits > 24 { return; }
    if f.validBits == 0 { ClearBuffer(f); }
    while true
      invariant Buffered(f) && f.closed == old(f.closed) && (f.closed || f.validBits >= 0)
      invariant old(f.validBits) < 0 ==> f.validBits == old(f.validBits) && f.acc == old(f.acc)
      invariant old(f.validBits) >= 0 ==>
        && 0 <= f.validBits <= 24
        && PrepBits(f.validBits, |f.rest|) == PrepBits(old(f.validBits), |old(f.rest)|)
        && PendingBits(f) == old(PendingBits(f)) && f.acc < Pow2(f.validBits)
      decreases 32 - f.validBits
    {
      if f.lastSeg && f.bytesInSeg == 0 {
        NothingLeft(f);
        return;
      }
      if f.validBits < 0 { InvalidIsAtEnd(f); assert false; }
      var z := TakeByte(f);
      if z == EOP || f.validBits > 24 { return; }
    }
  }

  /** Gives up on what is buffered. */
  method DropBuffer(f: Stream)
    requires Sound(f)
    modifies f`validBits
    ensures Sound(f) && f.validBits == 0
  {
    assert Opened(0);
    f.validBits := 0;
  }

  lemma NothingLeft(f: Stream)
    requires Buffered(f) && AtEnd(f.View())
    ensures f.rest == []
  {
    assert Opened(0);
  }

  lemma InvalidIsAtEnd(f: Stream)
    requires Sound(f) && f.validBits < 0
    ensures AtEnd(f.View())
  {
    assert Opened(0);
  }
}
