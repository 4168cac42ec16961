/** Reading a Vorbis packet out of Ogg pages (section 6 of RFC 3533): bytes, pages, segments. */
module Packets {
  import opened Basics

  const EOP: int := -1

  /** The part of the decoder that decides which byte comes next. */
  datatype Source = Source(
    pos: nat,               // next byte of the stream
    eof: bool,
    nextSeg: int,           // next entry of the segment table, -1 for "on the next page"
    count: nat,             // segments on this page
    segments: seq<Byte>,    // the table; entries past `count` are left from earlier pages
    continued: bool,        // the page begins inside a packet
    bytesInSeg: nat,
    lastSeg: bool)

  predicate Wf(st: seq<Byte>, s: Source) {
    && s.pos <= |st|
    && |s.segments| == 255 && s.count <= 255
    && -1 <= s.nextSeg < 255
    && s.bytesInSeg <= 255
  }

  /** The byte at a position; past the end the decoder reads zeros. */
  function ByteAt(st: seq<Byte>, p: nat): Byte {
    if p < |st| then st[p] else 0
  }

  function Min(a: nat, b: nat): nat { if a <= b then a else b }

  /** After reading n single bytes. */
  function Advance(st: seq<Byte>, s: Source, n: nat): Source {
    s.(pos := Min(s.pos + n, |st|), eof := s.eof || s.pos + n > |st|)
  }

  const CAPTURE: seq<Byte> := [0x4f, 0x67, 0x67, 0x53]

  /** How many bytes of the capture pattern match, and the source behind what was read. */
  function Capture(st: seq<Byte>, s: Source): (bool, Source) {
    if ByteAt(st, s.pos) != 0x4f then (false, Advance(st, s, 1))
    else if ByteAt(st, s.pos + 1) != 0x67 then (false, Advance(st, s, 2))
    else if ByteAt(st, s.pos + 2) != 0x67 then (false, Advance(st, s, 3))
    else (ByteAt(st, s.pos + 3) == 0x53, Advance(st, s, 4))
  }

  /** `start_page_no_capturepattern`: 23 header bytes, then the segment table. A header cut off by
      the end of the stream reads as zeros. */
  function PageHeader(st: seq<Byte>, s: Source): (bool, Source)
    requires Wf(st, s)
  {
    if ByteAt(st, s.pos) != 0 then (false, Advance(st, s, 1))
    else
      var n := ByteAt(st, s.pos + 22);
      var t := Advance(st, s, 23).(continued := ByteAt(st, s.pos + 1) % 2 == 1, count := n);
      if t.pos + n > |st| then (false, t.(eof := true))
      else (true, t.(pos := t.pos + n, segments := st[t.pos..t.pos + n] + s.segments[n..], nextSeg := 0))
  }

  function StartPage(st: seq<Byte>, s: Source): (bool, Source)
    requires Wf(st, s)
  {
    var c := Capture(st, s);
    if !c.0 then c else PageHeader(st, c.1)
  }

  /** `next_segment`: its length, 0 when the packet has no more bytes. */
  function NextSegment(st: seq<Byte>, s: Source): (nat, Source)
    requires Wf(st, s)
  {
    if s.lastSeg then (0, s)
    else if s.nextSeg == -1 then
      var p := StartPage(st, s);
      if !p.0 then (0, p.1.(lastSeg := true))
      else if !p.1.continued then (0, p.1)
      else TakeSegment(st, p.1)
    else TakeSegment(st, s)
  }

  function TakeSegment(st: seq<Byte>, s: Source): (nat, Source)
    requires Wf(st, s) && s.nextSeg >= 0
  {
    var len := s.segments[s.nextSeg];
    var next := if s.nextSeg + 1 >= s.count then -1 else s.nextSeg + 1;
    (len, s.(lastSeg := s.lastSeg || len < 255, nextSeg := next, bytesInSeg := len))
  }

  /** `get8_packet_raw`: the next byte of the packet, or EOP. */
  function PacketByte(st: seq<Byte>, s: Source): (int, Source)
    requires Wf(st, s)
  {
    if s.bytesInSeg > 0 then (ByteAt(st, s.pos), Advance(st, s, 1).(bytesInSeg := s.bytesInSeg - 1))
    else
      var n := NextSegment(st, s);
      if s.lastSeg || n.0 == 0 then (EOP, n.1)
      else (ByteAt(st, n.1.pos), Advance(st, n.1, 1).(bytesInSeg := n.1.bytesInSeg - 1))
  }

  lemma StartPageWf(st: seq<Byte>, s: Source)
    requires Wf(st, s)
    ensures Wf(st, StartPage(st, s).1)
    ensures StartPage(st, s).1.pos >= s.pos && StartPage(st, s).1.bytesInSeg == s.bytesInSeg
    ensures StartPage(st, s).0 ==> StartPage(st, s).1.pos > s.pos && StartPage(st, s).1.nextSeg == 0
    ensures StartPage(st, s).1.lastSeg == s.lastSeg
  {
    CaptureWf(st, s);
    if Capture(st, s).0 {
      PageHeaderWf(st, Capture(st, s).1);
    }
  }

  lemma CaptureWf(st: seq<Byte>, s: Source)
    requires Wf(st, s)
    ensures Wf(st, Capture(st, s).1) && Capture(st, s).1.pos >= s.pos
    ensures Capture(st, s).1.bytesInSeg == s.bytesInSeg && Capture(st, s).1.lastSeg == s.lastSeg
    ensures Capture(st, s).0 ==> Capture(st, s).1.pos == s.pos + 4
  {
  }

  lemma PageHeaderWf(st: seq<Byte>, s: Source)
    requires Wf(st, s)
    ensures Wf(st, PageHeader(st, s).1) && PageHeader(st, s).1.pos >= s.pos
    ensures PageHeader(st, s).1.bytesInSeg == s.bytesInSeg && PageHeader(st, s).1.lastSeg == s.lastSeg
    ensures PageHeader(st, s).0 ==> PageHeader(st, s).1.nextSeg == 0
  {
  }

  lemma SegmentWf(st: seq<Byte>, s: Source)
    requires Wf(st, s) && s.bytesInSeg == 0
    ensures Wf(st, NextSegment(st, s).1)
    ensures NextSegment(st, s).0 == 0 ==> NextSegment(st, s).1.bytesInSeg == 0
    ensures NextSegment(st, s).0 > 0 ==> NextSegment(st, s).1.bytesInSeg == NextSegment(st, s).0
  {
    StartPageWf(st, s);
  }

  /** Reading terminates: bytes of the stream, segments of the page, bytes of the segment. */
  function Segs(s: Source): nat {
    if s.nextSeg < 0 || s.nextSeg >= 255 then 0 else 255 - s.nextSeg
  }

  lemma PacketByteWf(st: seq<Byte>, s: Source)
    requires Wf(st, s)
    ensures var (b, t) := PacketByte(st, s);
            && Wf(st, t) && t.pos >= s.pos
            && (b != EOP ==> 0 <= b < 256)
            && (b != EOP ==> t.pos > s.pos || Segs(t) < Segs(s) || (Segs(t) == Segs(s) && t.bytesInSeg < s.bytesInSeg))
            && (b != EOP ==> t.pos > s.pos || Segs(t) <= Segs(s))
  {
    if s.bytesInSeg == 0 {
      SegmentWf(st, s);
      StartPageWf(st, s);
    }
  }

  /** The bytes up to the end of the packet. */
  function Rest(st: seq<Byte>, s: Source): seq<Byte>
    requires Wf(st, s)
    decreases |st| - s.pos, Segs(s), s.bytesInSeg
  {
    PacketByteWf(st, s);
    var (b, t) := PacketByte(st, s);
    if b == EOP then [] else [b] + Rest(st, t)
  }

  /** Where the source stands after EOP. */
  function Drain(st: seq<Byte>, s: Source): (r: Source)
    requires Wf(st, s)
    ensures Wf(st, r)
    decreases |st| - s.pos, Segs(s), s.bytesInSeg
  {
    PacketByteWf(st, s);
    var (b, t) := PacketByte(st, s);
    if b == EOP then t else Drain(st, t)
  }

  /** The packet ends for good: no later page is missing its continuation mark. */
  predicate Closed(st: seq<Byte>, s: Source)
    requires Wf(st, s)
  {
    Drain(st, s).lastSeg
  }

  predicate AtEnd(s: Source) { s.lastSeg && s.bytesInSeg == 0 }

  /** In a closed packet EOP repeats for ever. */
  lemma EopSticky(st: seq<Byte>, s: Source)
    requires Wf(st, s) && PacketByte(st, s).0 == EOP && Closed(st, s)
    ensures AtEnd(PacketByte(st, s).1)
    ensures PacketByte(st, PacketByte(st, s).1) == (EOP, PacketByte(st, s).1)
  {
    SegmentWf(st, s);
  }

  /** A full segment ends a page, and the page that follows is not marked as continuing the packet. */
  predicate CutOff(st: seq<Byte>, s: Source)
    requires Wf(st, s)
  {
    !s.lastSeg && s.nextSeg == -1 && StartPage(st, s).0 && !StartPage(st, s).1.continued
  }

  /** Where a packet runs out it is closed unless the next page cuts it off. */
  lemma ClosedIff(st: seq<Byte>, s: Source)
    requires Wf(st, s) && PacketByte(st, s).0 == EOP
    ensures Closed(st, s) <==> !CutOff(st, s)
  {
    PacketByteWf(st, s);
    SegmentWf(st, s);
    StartPageWf(st, s);
  }

  /** In a packet that is cut off EOP is only a pause: the next read starts on the data of the page
      that cut it, and finds some unless that page begins with an empty segment. */
  lemma EopRepeatsIff(st: seq<Byte>, s: Source)
    requires Wf(st, s) && PacketByte(st, s).0 == EOP
    ensures Wf(st, PacketByte(st, s).1)
    ensures PacketByte(st, PacketByte(st, s).1).0 == EOP <==> !CutOff(st, s) || StartPage(st, s).1.segments[0] == 0
  {
    PacketByteWf(st, s);
    SegmentWf(st, s);
    StartPageWf(st, s);
  }

  /** The stream fields of the decoder, updated in place. */
  class Stream {
    const data: seq<Byte>
    var pos: nat
    var eof: bool
    var nextSeg: int
    var segmentCount: nat
    var segments: seq<Byte>
    var pageFlag: Byte
    var bytesInSeg: nat
    var lastSeg: bool
    var acc: nat          // bit buffer, next bit lowest
    var validBits: int    // how many of its bits count; -1 once get_bits ran off the packet
    ghost var rest: seq<Byte>   // the bytes up to the end of the packet,
    ghost var closed: bool      // and whether it ends there for good

    constructor (data: seq<Byte>)
      ensures this.data == data && pos == 0 && nextSeg == -1 && Valid()
    {
      this.data := data;
      pos, eof, nextSeg, segmentCount, bytesInSeg, lastSeg := 0, false, -1, 0, 0, false;
      segments := seq(255, _ => 0);
      pageFlag, acc, validBits := 0, 0, 0;
      rest, closed := [], true;
    }

    function View(): Source
      reads this
    {
      Source(pos, eof, nextSeg, segmentCount, segments, pageFlag % 2 == 1, bytesInSeg, lastSeg)
    }

    predicate Valid()
      reads this
    {
      Wf(data, View())
    }

    method Get8() returns (b: Byte)
      requires Valid()
      modifies `pos, `eof
      ensures b == ByteAt(data, old(pos)) && View() == Advance(data, old(View()), 1) && Valid()
    {
      if pos >= |data| { eof := true; return 0; }
      b := data[pos];
      pos := pos + 1;
    }

    /** Reads n bytes, of which the caller uses none. */
    method Get8s(n: nat)
      requires Valid()
      modifies `pos, `eof
      ensures View() == Advance(data, old(View()), n) && Valid()
    {
      var i := 0;
      while i < n
        invariant 0 <= i <= n && Valid() && View() == Advance(data, old(View()), i)
      {
        var _ := Get8();
        i := i + 1;
      }
    }

    method CapturePattern() returns (ok: bool)
      requires Valid()
      modifies `pos, `eof
      ensures (ok, View()) == Capture(data, old(View())) && Valid()
    {
      var b := Get8();
      if b != 0x4f { return false; }
      b := Get8();
      if b != 0x67 { return false; }
      b := Get8();
      if b != 0x67 { return false; }
      b := Get8();
      return b == 0x53;
    }

    /** The header fields in order; the granule position, serial number, sequence number and
        checksum are read and dropped. */
    method StartPageNoCapture() returns (ok: bool)
      requires Valid()
      modifies `pos, `eof, `nextSeg, `segmentCount, `segments, `pageFlag, `bytesInSeg, `lastSeg
      ensures (ok, View()) == PageHeader(data, old(View())) && Valid()
    {
      ok := ReadHeader();
      if !ok { return; }
      ok := GetSegments(segmentCount);
      if !ok { return; }
      nextSeg := 0;
    }

    /** The 23 bytes before the segment table. */
    method ReadHeader() returns (ok: bool)
      requires Valid()
      modifies `pos, `eof, `segmentCount, `pageFlag
      ensures Valid() && ok == (ByteAt(data, old(pos)) == 0)
      ensures View() == if !ok then Advance(data, old(View()), 1)
                        else Advance(data, old(View()), 23).(
                          continued := ByteAt(data, old(pos) + 1) % 2 == 1, count := ByteAt(data, old(pos) + 22))
    {
      var version := Get8();
      if version != 0 { return false; }
      pageFlag := Get8();
      Get8s(20);
      segmentCount := Get8();
      ok := true;
    }

    /** `getn` into the segment table: all n bytes or none. */
    method GetSegments(n: nat) returns (ok: bool)
      requires Valid() && n <= 255
      modifies `pos, `eof, `segments
      ensures Valid() && ok == (old(pos) + n <= |data|)
      ensures View() == if ok then old(View()).(pos := old(pos) + n, segments := data[old(pos)..old(pos) + n] + old(segments)[n..])
                        else old(View()).(eof := true)
    {
      if pos + n > |data| { eof := true; return false; }
      segments := data[pos..pos + n] + segments[n..];
      pos := pos + n;
      return true;
    }

    method StartThePage() returns (ok: bool)
      requires Valid()
      modifies `pos, `eof, `nextSeg, `segmentCount, `segments, `pageFlag, `bytesInSeg, `lastSeg
      ensures (ok, View()) == StartPage(data, old(View())) && Valid()
    {
      ok := CapturePattern();
      if !ok { return; }
      ok := StartPageNoCapture();
    }

    method NextTheSegment() returns (len: nat)
      requires Valid() && bytesInSeg == 0
      modifies `pos, `eof, `nextSeg, `segmentCount, `segments, `pageFlag, `bytesInSeg, `lastSeg
      ensures (len, View()) == NextSegment(data, old(View())) && Valid()
    {
      SegmentWf(data, View());
      if lastSeg { return 0; }
      if nextSeg == -1 {
        var ok := StartThePage();
        if !ok { lastSeg := true; return 0; }
        if pageFlag % 2 == 0 { return 0; }
      }
      len := segments[nextSeg];
      nextSeg := nextSeg + 1;
      if len < 255 { lastSeg := true; }
      if nextSeg >= segmentCount { nextSeg := -1; }
      bytesInSeg := len;
    }

    /** The next byte of the packet, or EOP. */
    method Get8PacketRaw() returns (b: int)
      requires Valid()
      modifies `pos, `eof, `nextSeg, `segmentCount, `segments, `pageFlag, `bytesInSeg, `lastSeg
      ensures (b, View()) == PacketByte(data, old(View())) && Valid()
    {
      PacketByteWf(data, View());
      if bytesInSeg == 0 {
        if lastSeg { return EOP; }
        var len := NextTheSegment();
        if len == 0 { return EOP; }
      }
      bytesInSeg := bytesInSeg - 1;
      b := Get8();
    }
  }
}
