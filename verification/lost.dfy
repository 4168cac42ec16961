/** Symbols that the decoder cannot deliver: one book for each way to lose one. */
module LostSymbols {
  import opened Words
  import opened Codewords
  import opened CodeTables
  import opened Codebooks
  import opened Packets
  import opened BitReader
  import opened Decoding
  import opened RoundTrip

  // ---------------------------------------------------------------------
  // A codeword longer than the refill
  // ---------------------------------------------------------------------

  /** A book whose only codeword has 26 bits, all zero. */
  const LONG: seq<nat> := [26]

  lemma LongCode(codes: seq<nat>)
    requires Code(LONG, codes)
    ensures codes == [0]
  {
    assert LowestAt(LONG, codes, 0);
    LowZero(6);
    assert Free(LONG, codes, 0, 0, 26);
  }

  /** With one bit in the buffer and 32 more in the packet the refill stops at 25 bits. The codeword
      is all there, and it is not delivered. */
  method LoseLongCodeword(f: Stream, c: Codebook, ghost codes: seq<nat>) returns (e: int)
    requires Sound(f) && c.Ready(LONG, codes) && f.validBits == 1 && |f.rest| == 4 && PendingBits(f).val == 0
    modifies f
    ensures |codes| == 1 && Prefix(LONG, codes, old(PendingBits(f)), 0) && e == -1
  {
    assert Code(LONG, codes) by { assert Opened(0); }
    LongCode(codes);
    assert PrepBits(1, 4) == 25;
    RevZero(32);
    LowZero(26);
    e := Decode(f, c, LONG, codes);
  }

  // ---------------------------------------------------------------------
  // An entry past the reach of the ten-bit table
  // ---------------------------------------------------------------------

  /** 32769 entries, all in use: the last one has a codeword of 10 bits, the others have 16. */
  function LateLengths(): seq<nat> {
    seq(32769, i => if i == 32768 then 10 else 16)
  }

  lemma {:induction false} LateSum(n: nat)
    requires n <= 32768
    ensures KraftSum(LateLengths(), n) == n * Pow2(16)
  {
    if n > 0 {
      LateSum(n - 1);
      assert LateLengths()[n - 1] == 16;
      Times(n, Pow2(16));
    }
  }

  lemma Times(n: nat, w: nat)
    requires n > 0
    ensures (n - 1) * w + w == n * w
  {
  }

  /** A header can list these lengths for a dense book, and the code is not overfull. */
  lemma LateAccepted()
    ensures ValidLengths(LateLengths()) && KraftSum(LateLengths(), 32769) <= WORD
    ensures forall i :: 0 <= i < 32769 ==> Used(LateLengths(), i)
  {
    LateSum(32768);
    Pow2Monotone(22, 24);
    Pow2Constants();
  }

  /** The book is dense and built; its last entry is in neither table. */
  lemma LateEntryLost(t: Tables, codes: seq<nat>)
    requires |codes| == 32769 && Describes(t, LateLengths(), codes) && !t.sparse
    ensures !Decodable(t, LateLengths(), 32768)
  {
    TableNotEmpty(t, LateLengths(), codes, 0);
  }

  method BuildLate(c: Codebook) returns (ok: bool, ghost codes: seq<nat>)
    modifies c
    ensures ok && !c.sparse && c.Ready(LateLengths(), codes)
  {
    LateAccepted();
    ok := c.Setup(LateLengths(), false);
    codes :| c.Ready(LateLengths(), codes);
  }

  /** What is not decodable is not decoded, although it is pending. */
  method DecodeOther(f: Stream, c: Codebook, ghost lens: seq<nat>, ghost codes: seq<nat>, ghost d: nat) returns (e: int)
    requires Sound(f) && c.Ready(lens, codes) && f.validBits >= 0 && |codes| == |lens| && ValidLengths(lens)
    requires Prefix(lens, codes, PendingBits(f), d) && !Decodable(c.Tables(), lens, d)
    modifies f
    ensures e != d
  {
    e := Decode(f, c, lens, codes);
  }

  /** A packet that begins with the codeword of the last entry yields another symbol, or none. */
  method LoseLateEntry(f: Stream, c: Codebook, ghost codes: seq<nat>) returns (e: int)
    requires Sound(f) && c.Ready(LateLengths(), codes) && !c.sparse && f.validBits >= 0
    requires Prefix(LateLengths(), codes, PendingBits(f), 32768)
    modifies f
    ensures e != 32768
  {
    assert Describes(c.Tables(), LateLengths(), codes) by { assert Opened(0); }
    LateEntryLost(c.Tables(), codes);
    e := DecodeOther(f, c, LateLengths(), codes, 32768);
  }
}
