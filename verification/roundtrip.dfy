/** Decoding undoes encoding, whichever structure each symbol is found through. */
module RoundTrip {
  import opened Basics
  import opened Words
  import opened Codewords
  import opened CodeTables
  import opened Codebooks
  import opened Packets
  import Scanner
  import opened Payloads
  import WrittenPages
  import opened BitReader
  import opened Decoding

  /** What decoding one symbol from p amounts to when vb bits could be buffered: the entry whose
      codeword is pending, unless that codeword is longer than the buffer (then nothing) or out of
      reach of the tables (then never that entry). In a complete code whose entries are all within
      reach nothing else is ever delivered. */
  ghost predicate SymbolRead(t: Tables, lens: seq<nat>, codes: seq<nat>, p: Bits, vb: nat, e: int)
    requires |codes| == |lens| && ValidLengths(lens)
  {
    && (forall d :: 0 <= d < |lens| && Prefix(lens, codes, p, d) ==>
          if !Decodable(t, lens, d) then e != d else e == if lens[d] <= vb then d else -1)
    && (e >= 0 && Complete(t, lens) ==> Prefix(lens, codes, p, e))
  }

  /** Every word begins with some codeword, and every entry is within reach. */
  ghost predicate Complete(t: Tables, lens: seq<nat>)
    requires ValidLengths(lens)
  {
    KraftSum(lens, |lens|) == WORD && forall d :: 0 <= d < |lens| ==> Decodable(t, lens, d)
  }

  /** The bits of codeword e are gone; or the buffer was dropped, which a book without a table
      does not do. */
  ghost predicate BitsGone(f: Stream, t: Tables, lens: seq<nat>, p: Bits, vb: nat, e: int)
    reads f
  {
    if e < 0 then e == -1 && if NoTables(t) then f.validBits == vb && PendingBits(f) == p else f.validBits == 0
    else
      && e < |lens| && Used(lens, e) && lens[e] <= p.len
      && f.validBits >= 0 && PendingBits(f) == After(p, lens[e])
  }

  lemma OutcomeReads(t: Tables, lens: seq<nat>, codes: seq<nat>, p: Bits, vb: nat, e: int)
    requires Code(lens, codes) && vb <= 32 && vb <= p.len && (vb >= 25 || vb == p.len)
    requires FindsAll(lens, codes, Low(p.val, vb), vb, e, AllDecodable(t, lens))
    requires e >= 0 ==> e < |lens| && Decodable(t, lens, e)
    ensures SymbolRead(t, lens, codes, p, vb, e)
  {
    forall d | 0 <= d < |lens| && Prefix(lens, codes, p, d)
      ensures if !Decodable(t, lens, d) then e != d else e == if lens[d] <= vb then d else -1
    {
      var o := PrefixShows(lens, codes, p, Low(p.val, vb), vb, d);
      if Decodable(t, lens, d) {
        assert o in AllDecodable(t, lens);
        assert Finds(lens, codes, Low(p.val, vb), vb, e, o);
      }
    }
    if e >= 0 && Complete(t, lens) {
      RevBound(Low(p.val, vb), 32);
      Pow2Constants();
      var o := CompleteOwns(lens, codes, Mirror(Low(p.val, vb)));
      assert o in AllDecodable(t, lens);
      assert Finds(lens, codes, Low(p.val, vb), vb, e, o);
      ShownIsPrefix(lens, codes, p, Low(p.val, vb), vb, o);
    }
  }

  /** `DECODE`: a symbol, or -1. */
  method Decode(f: Stream, c: Codebook, ghost lens: seq<nat>, ghost codes: seq<nat>) returns (e: int)
    requires Sound(f) && c.Ready(lens, codes)
    modifies f
    ensures Sound(f)
    ensures old(f.validBits) < 0 ==> e == -1 && SpentStays(c.Tables(), f.validBits)
    ensures old(f.validBits) >= 0 ==>
      var p, vb := old(PendingBits(f)), old(RefillTo(f));
      SymbolRead(c.Tables(), lens, codes, p, vb, e) && BitsGone(f, c.Tables(), lens, p, vb, e)
  {
    if f.validBits >= 0 { PrepBitsEnough(f.validBits, |f.rest|); }
    e := DecodeRaw(f, c, lens, codes);
    if old(f.validBits) >= 0 {
      assert Code(lens, codes) by { assert Opened(0); }
      OutcomeReads(c.Tables(), lens, codes, old(PendingBits(f)), old(RefillTo(f)), Outcome(c.Tables(), e));
    }
    if c.sparse && e >= 0 { e := c.sortedValues[e]; }
  }

  // ---------------------------------------------------------------------
  // Encoding
  // ---------------------------------------------------------------------

  /** The codewords of a symbol sequence, one after the other. */
  function Encode(lens: seq<nat>, codes: seq<nat>, syms: seq<nat>): Bits
    requires |codes| == |lens| && forall i :: 0 <= i < |syms| ==> syms[i] < |lens|
  {
    if syms == [] then Bits(0, 0)
    else
      var e, r := syms[0], Encode(lens, codes, syms[1..]);
      Bits(Mirror(codes[e]) + Shl(r.val, lens[e]), lens[e] + r.len)
  }

  /** Symbols with codewords of at most 25 bits, within reach. */
  ghost predicate AllReadable(t: Tables, lens: seq<nat>, syms: seq<nat>) {
    forall i :: 0 <= i < |syms| ==>
      syms[i] < |lens| && Used(lens, syms[i]) && lens[syms[i]] <= 25 && Decodable(t, lens, syms[i])
  }

  predicate StartsWith(p: Bits, q: Bits) {
    q.len <= p.len && Low(p.val, q.len) == q.val
  }

  /** The first codeword is a prefix, and what follows it starts with the rest. */
  lemma EncodeSplits(lens: seq<nat>, codes: seq<nat>, syms: seq<nat>, p: Bits)
    requires Code(lens, codes) && syms != [] && forall i :: 0 <= i < |syms| ==> syms[i] < |lens| && Used(lens, syms[i])
    requires StartsWith(p, Encode(lens, codes, syms))
    ensures var e := syms[0];
            && Prefix(lens, codes, p, e)
            && StartsWith(Bits(High(p.val, lens[e]), p.len - lens[e]), Encode(lens, codes, syms[1..]))
  {
    MirrorFits(lens, codes, syms[0]);
    HeadThenRest(lens, codes, syms, p);
  }

  lemma HeadThenRest(lens: seq<nat>, codes: seq<nat>, syms: seq<nat>, p: Bits)
    requires |codes| == |lens| && syms != [] && forall i :: 0 <= i < |syms| ==> syms[i] < |lens|
    requires Mirror(codes[syms[0]]) < Pow2(lens[syms[0]]) && StartsWith(p, Encode(lens, codes, syms))
    ensures var e := syms[0];
            && lens[e] <= p.len && Low(p.val, lens[e]) == Mirror(codes[e])
            && StartsWith(Bits(High(p.val, lens[e]), p.len - lens[e]), Encode(lens, codes, syms[1..]))
  {
    EncodeHead(lens, codes, syms);
    JoinedStarts(p, Encode(lens, codes, syms), Mirror(codes[syms[0]]), lens[syms[0]], Encode(lens, codes, syms[1..]));
  }

  lemma MirrorFits(lens: seq<nat>, codes: seq<nat>, e: nat)
    requires Code(lens, codes) && e < |lens| && Used(lens, e)
    ensures lens[e] <= 31 && Mirror(codes[e]) < Pow2(lens[e])
  {
    CodeOf(lens, codes, e);
    PrefixIsBlock(codes[e], codes[e], lens[e]);
  }

  /** q is c, of l bits, followed by r; sealed. */
  ghost predicate Joined(q: Bits, c: nat, l: nat, r: Bits) {
    forall o: nat {:trigger Opened(o)} :: Opened(o) ==> q == Bits(c + Shl(r.val, l), l + r.len)
  }

  lemma JoinedStarts(p: Bits, q: Bits, c: nat, l: nat, r: Bits)
    requires StartsWith(p, q) && Joined(q, c, l, r) && c < Pow2(l)
    ensures l <= p.len && Low(p.val, l) == c && StartsWith(Bits(High(p.val, l), p.len - l), r)
  {
    assert Opened(0);
    SplitsAfter(p.val, c, l, r.val, r.len);
  }

  lemma EncodeHead(lens: seq<nat>, codes: seq<nat>, syms: seq<nat>)
    requires |codes| == |lens| && syms != [] && forall i :: 0 <= i < |syms| ==> syms[i] < |lens|
    ensures var e, r := syms[0], Encode(lens, codes, syms[1..]);
            Joined(Encode(lens, codes, syms), Mirror(codes[e]), lens[e], r)
  {
  }

  lemma SplitsAfter(p: nat, c: nat, l: nat, v: nat, k: nat)
    requires Low(p, l + k) == c + Shl(v, l) && c < Pow2(l)
    ensures Low(p, l) == c && Low(High(p, l), k) == v
  {
    Join(v, c, l);
    LowLow(p, l, l + k);
  }

  /** Decodes `count` symbols in a row. Whatever follows, a packet that begins with the codewords of
      `syms` yields `syms` and loses exactly those bits. */
  method DecodeMany(f: Stream, c: Codebook, count: nat, ghost lens: seq<nat>, ghost codes: seq<nat>, ghost syms: seq<nat>)
    returns (out: seq<int>)
    requires Sound(f) && c.Ready(lens, codes) && f.validBits >= 0 && |syms| == count
    requires AllReadable(c.Tables(), lens, syms)
    requires StartsWith(PendingBits(f), Encode(lens, codes, syms))
    modifies f
    ensures out == syms && Sound(f) && f.validBits >= 0
    ensures var p, q := old(PendingBits(f)), Encode(lens, codes, syms);
            PendingBits(f) == After(p, q.len)
  {
    out := [];
    ghost var p0, rest, total := PendingBits(f), syms, Encode(lens, codes, syms).len;
    FirstReading(f, c.Tables(), lens, codes, syms);
    while |out| < count
      invariant syms == out + rest
      invariant Reading(f, c.Tables(), lens, codes, p0, total, rest)
    {
      var e := DecodeNext(f, c, lens, codes, p0, total, rest);
      out, rest := out + [e], rest[1..];
    }
    LastReading(f, c.Tables(), lens, codes, p0, total);
  }

  /** Sealed: `ReadingNow`. */
  ghost predicate Reading(f: Stream, t: Tables, lens: seq<nat>, codes: seq<nat>, p0: Bits, total: nat, rest: seq<nat>)
    reads f
  {
    Sound(f) && f.validBits >= 0 &&
    forall o: nat {:trigger Opened(o)} :: Opened(o) ==> ReadingNow(f, t, lens, codes, p0, total, rest)
  }

  /** After some of the `total` bits at the front of p0 the codewords of `rest` are next. */
  ghost predicate ReadingNow(f: Stream, t: Tables, lens: seq<nat>, codes: seq<nat>, p0: Bits, total: nat, rest: seq<nat>)
    reads f
  {
    && Sound(f) && f.validBits >= 0 && |codes| == |lens| && AllReadable(t, lens, rest)
    && StartsWith(PendingBits(f), Encode(lens, codes, rest))
    && Encode(lens, codes, rest).len <= total <= p0.len
    && PendingBits(f) == After(p0, total - Encode(lens, codes, rest).len)
  }

  lemma FirstReading(f: Stream, t: Tables, lens: seq<nat>, codes: seq<nat>, syms: seq<nat>)
    requires Sound(f) && f.validBits >= 0 && |codes| == |lens| && AllReadable(t, lens, syms)
    requires StartsWith(PendingBits(f), Encode(lens, codes, syms))
    ensures Reading(f, t, lens, codes, PendingBits(f), Encode(lens, codes, syms).len, syms)
  {
  }

  lemma LastReading(f: Stream, t: Tables, lens: seq<nat>, codes: seq<nat>, p0: Bits, total: nat)
    requires Reading(f, t, lens, codes, p0, total, [])
    ensures total <= p0.len && PendingBits(f) == After(p0, total)
  {
    assert Opened(0);
  }

  method DecodeNext(f: Stream, c: Codebook, ghost lens: seq<nat>, ghost codes: seq<nat>, ghost p0: Bits,
                    ghost total: nat, ghost rest: seq<nat>)
    returns (e: int)
    requires c.Ready(lens, codes) && Reading(f, c.Tables(), lens, codes, p0, total, rest) && rest != []
    modifies f
    ensures e == rest[0] && Reading(f, c.Tables(), lens, codes, p0, total, rest[1..])
  {
    ghost var p := PendingBits(f);
    NextSymbol(f, c, lens, codes, p0, total, rest);
    e := Decode(f, c, lens, codes);
    StillReading(f, c.Tables(), lens, codes, p0, total, rest, p);
  }

  /** The next codeword is pending, whole in the buffer and within reach. */
  lemma NextSymbol(f: Stream, c: Codebook, lens: seq<nat>, codes: seq<nat>, p0: Bits, total: nat, rest: seq<nat>)
    requires c.Ready(lens, codes) && Reading(f, c.Tables(), lens, codes, p0, total, rest) && rest != []
    ensures Code(lens, codes) && rest[0] < |lens| && Used(lens, rest[0]) && Decodable(c.Tables(), lens, rest[0])
    ensures Prefix(lens, codes, PendingBits(f), rest[0]) && lens[rest[0]] <= PrepBits(f.validBits, |f.rest|)
    ensures Pending1(PendingBits(f), c.Tables(), lens, codes, p0, total, rest)
  {
    assert Opened(0);
    EncodeSplits(lens, codes, rest, PendingBits(f));
    PrepBitsEnough(f.validBits, |f.rest|);
  }

  /** What is known of the pending bits p before the first of `rest` is read; sealed. */
  ghost predicate Pending1(p: Bits, t: Tables, lens: seq<nat>, codes: seq<nat>, p0: Bits, total: nat, rest: seq<nat>) {
    forall o: nat {:trigger Opened(o)} :: Opened(o) ==>
      && |codes| == |lens| && rest != [] && AllReadable(t, lens, rest)
      && Encode(lens, codes, rest).len <= total <= p0.len && p == After(p0, total - Encode(lens, codes, rest).len)
      && lens[rest[0]] <= p.len && StartsWith(After(p, lens[rest[0]]), Encode(lens, codes, rest[1..]))
  }

  lemma StillReading(f: Stream, t: Tables, lens: seq<nat>, codes: seq<nat>, p0: Bits, total: nat, rest: seq<nat>, p: Bits)
    requires rest != [] && rest[0] < |lens| && lens[rest[0]] <= p.len && Pending1(p, t, lens, codes, p0, total, rest)
    requires Sound(f) && f.validBits >= 0 && PendingBits(f) == After(p, lens[rest[0]])
    ensures Reading(f, t, lens, codes, p0, total, rest[1..])
  {
    assert Opened(0);
    HighHigh(p0.val, total - Encode(lens, codes, rest).len, lens[rest[0]]);
    assert forall i :: 0 <= i < |rest| - 1 ==> rest[1..][i] == rest[i + 1];
  }

  // ---------------------------------------------------------------------
  // Packing into bytes
  // ---------------------------------------------------------------------

  /** n bytes holding a number, lowest first. */
  function Pack(v: nat, n: nat): seq<Byte> {
    if n == 0 then [] else [v % 256] + Pack(v / 256, n - 1)
  }

  lemma {:induction false} PackValue(v: nat, n: nat)
    ensures BytesValue(Pack(v, n)) == Low(v, 8 * n) && |Pack(v, n)| == n
  {
    if n > 0 {
      PackValue(v / 256, n - 1);
      var bs := Pack(v, n);
      assert bs[1..] == Pack(v / 256, n - 1);
      High8(v);
      LowLow(v, 8, 8 * n);
      Split(Low(v, 8 * n), 8);
      Shl256(Low(v / 256, 8 * (n - 1)));
    }
  }

  lemma High8(v: nat)
    ensures High(v, 8) == v / 256 && Low(v, 8) == v % 256
  {
    Split(v, 8);
    Shl256(High(v, 8));
    Pow2Constants();
  }

  /** A packet made of the packed bits of q, padded to whole bytes, starts with q. */
  lemma PackedStartsWith(acc: nat, q: Bits, n: nat)
    requires q.val < Pow2(q.len) && q.len <= 8 * n
    ensures StartsWith(Pending(Pack(q.val, n), acc, 0), q)
  {
    PackValue(q.val, n);
    Pow2Monotone(q.len, 8 * n);
    LowSmall(q.val, 8 * n);
    LowSmall(q.val, q.len);
  }

  /** The encoding fits its length, so it can be packed. */
  lemma {:induction false} EncodeFits(lens: seq<nat>, codes: seq<nat>, syms: seq<nat>)
    requires Code(lens, codes) && forall i :: 0 <= i < |syms| ==> syms[i] < |lens| && Used(lens, syms[i])
    ensures var q := Encode(lens, codes, syms);
            q.val < Pow2(q.len)
  {
    if syms != [] {
      var e, r := syms[0], Encode(lens, codes, syms[1..]);
      EncodeFits(lens, codes, syms[1..]);
      CodeOf(lens, codes, e);
      PrefixIsBlock(codes[e], codes[e], lens[e]);
      JoinFits(Mirror(codes[e]), lens[e], r.val, r.len);
    }
  }

  lemma JoinFits(c: nat, l: nat, v: nat, k: nat)
    requires c < Pow2(l) && v < Pow2(k)
    ensures c + Shl(v, l) < Pow2(l + k)
  {
    ShlAdd(v, Pow2(k), l);
    ShlPow2(k, l);
  }

  /** From symbols to the bytes of a packet and back: the packet holds nothing but the packed
      codewords and padding, and the reader stands at its start. */
  method DecodePacket(f: Stream, c: Codebook, count: nat, ghost n: nat, ghost lens: seq<nat>, ghost codes: seq<nat>, ghost syms: seq<nat>)
    returns (out: seq<int>)
    requires Sound(f) && c.Ready(lens, codes) && f.validBits == 0 && |syms| == count
    requires AllReadable(c.Tables(), lens, syms) && |codes| == |lens|
    requires Encode(lens, codes, syms).len <= 8 * n && f.rest == Pack(Encode(lens, codes, syms).val, n)
    modifies f
    ensures out == syms && Sound(f) && f.validBits >= 0
    ensures Encode(lens, codes, syms).len <= old(PendingBits(f)).len &&
            PendingBits(f) == After(old(PendingBits(f)), Encode(lens, codes, syms).len)
  {
    assert Code(lens, codes) by { assert Opened(0); }
    EncodeFits(lens, codes, syms);
    PackedStartsWith(f.acc, Encode(lens, codes, syms), n);
    out := DecodeMany(f, c, count, lens, codes, syms);
  }

  // ---------------------------------------------------------------------
  // From the look-ahead to the symbols
  // ---------------------------------------------------------------------

  /** The packet that starts here has these bytes in the segments of its pages. */
  ghost predicate Carries(st: seq<Byte>, s: Source, packet: seq<Byte>)
    requires Wf(st, s)
  {
    var (ok, t) := Scanner.StartPacket(st, s);
    ok && AtSegment(st, t) && Payload(st, t) == packet
  }

  /** A whole packet is closed for good: so it is if all its pages have segments. */
  ghost predicate WellPaged(st: seq<Byte>, s: Source, resync: bool)
    requires Wf(st, s) && s.nextSeg <= s.count
  {
    var r := Scanner.ScanPacket(st, s, resync);
    var (ok, t) := Scanner.StartPacket(st, s);
    r.Whole? && ok && Wf(st, t) ==> (!r.emptyPage && s.nextSeg < s.count) || Closed(st, t)
  }

  /** The scan of a packet that starts on a new page has seen the mark that starting it sees. */
  lemma StartsUnmarked(st: seq<Byte>, s: Source, resync: bool)
    requires Wf(st, s) && s.nextSeg == -1 && !s.eof && Scanner.ScanPacket(st, s, resync).Whole? && Scanner.StartPacket(st, s).0
    ensures st[s.pos + 5] % 2 == 0
  {
    Scanner.OpenPage(st, s);
  }

  lemma ClosedWhole(st: seq<Byte>, s: Source, resync: bool)
    requires Wf(st, s) && s.nextSeg <= s.count && !s.eof && WellPaged(st, s, resync)
    requires Scanner.ScanPacket(st, s, resync).Whole? && Scanner.StartPacket(st, s).0 && Wf(st, Scanner.StartPacket(st, s).1)
    ensures Closed(st, Scanner.StartPacket(st, s).1)
  {
    if !Scanner.ScanPacket(st, s, resync).emptyPage && s.nextSeg < s.count {
      if s.nextSeg == -1 {
        StartsUnmarked(st, s, resync);
      }
      Scanner.ScannedPacketIsReadable(st, s, resync);
    }
  }

  /** Push mode: look whether the packet is there, start it, and decode it. */
  method ReceivePacket(f: Stream, previousLength: nat, c: Codebook, count: nat,
                       ghost n: nat, ghost lens: seq<nat>, ghost codes: seq<nat>, ghost syms: seq<nat>)
    returns (whole: bool, out: seq<int>)
    requires f.Valid() && !f.eof && f.nextSeg <= f.segmentCount && WellPaged(f.data, f.View(), previousLength == 0)
    requires c.Ready(lens, codes) && |codes| == |lens| && |syms| == count && AllReadable(c.Tables(), lens, syms)
    requires Encode(lens, codes, syms).len <= 8 * n
    requires Carries(f.data, f.View(), Pack(Encode(lens, codes, syms).val, n))
    modifies f
    ensures whole <==> old(Scanner.ScanPacket(f.data, f.View(), previousLength == 0)).Whole?
    ensures whole ==> out == syms && Sound(f) && f.validBits >= 0
    ensures !whole ==> f.View() == old(f.View())
  {
    ghost var end;
    whole, end := Scanner.IsWholePacketPresent(f, previousLength);
    out := [];
    if whole {
      ClosedWhole(f.data, f.View(), previousLength == 0);
      RestIsPayload(f.data, Scanner.StartPacket(f.data, f.View()).1);
      var ok := Scanner.StartThePacket(f);
      Link(f);
      out := DecodePacket(f, c, count, n, lens, codes, syms);
    }
  }

  /** Pages written for a packet are found, and starting it leaves the reader with its bytes. */
  lemma WrittenCarries(st: seq<Byte>, s: Source, before: seq<Byte>, pages: seq<WrittenPages.Page>, packet: seq<Byte>,
                       after: seq<Byte>, resync: bool)
    requires Wf(st, s) && s.nextSeg == -1 && !s.eof && s.pos == |before| && WrittenPages.Cut(pages, |packet|)
    requires st == before + WrittenPages.WritePages(pages, false, packet) + after
    ensures Carries(st, s, packet) && WellPaged(st, s, resync)
    ensures Scanner.ScanPacket(st, s, resync) == Scanner.Whole(WrittenPages.PagesEnd(s.pos, pages), false)
  {
    WrittenPages.WrittenStand(st, before, pages, false, packet, after);
    WrittenPages.ScanFinds(st, s.pos, pages, true, packet, resync);
    WrittenPages.StartWritten(st, s, pages, packet);
  }

  /** From symbols to a stream of pages and back: packed into bytes, cut into any pages, found by the scanner,
      started and decoded. */
  method ReceiveWritten(f: Stream, previousLength: nat, c: Codebook, count: nat, ghost pages: seq<WrittenPages.Page>,
                        ghost before: seq<Byte>, ghost after: seq<Byte>, ghost n: nat,
                        ghost lens: seq<nat>, ghost codes: seq<nat>, ghost syms: seq<nat>)
    returns (whole: bool, out: seq<int>)
    requires f.Valid() && !f.eof && f.nextSeg == -1 && f.pos == |before|
    requires c.Ready(lens, codes) && |codes| == |lens| && |syms| == count && AllReadable(c.Tables(), lens, syms)
    requires Encode(lens, codes, syms).len <= 8 * n && WrittenPages.Cut(pages, |Pack(Encode(lens, codes, syms).val, n)|)
    requires f.data == before + WrittenPages.WritePages(pages, false, Pack(Encode(lens, codes, syms).val, n)) + after
    modifies f
    ensures whole && out == syms && Sound(f) && f.validBits >= 0
  {
    WrittenCarries(f.data, f.View(), before, pages, Pack(Encode(lens, codes, syms).val, n), after, previousLength == 0);
    whole, out := ReceivePacket(f, previousLength, c, count, n, lens, codes, syms);
  }
}
