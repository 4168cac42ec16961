/** Where the reader stops, against where the look-ahead scan says the packet ends. They part only over
    pages without segments: the scan passes over such a page, the reader takes the length that an
    earlier page left in the table. */
module ScanAgreement {
  import opened Basics
  import opened Packets
  import opened Scanner

  // ---------------------------------------------------------------------
  // The end of the stream
  // ---------------------------------------------------------------------

  lemma {:induction false} EofStays(st: seq<Byte>, s: Source)
    requires Wf(st, s) && s.eof
    ensures Drain(st, s).eof
    decreases |st| - s.pos, Segs(s), s.bytesInSeg
  {
    PacketByteWf(st, s);
    var (b, t) := PacketByte(st, s);
    if b != EOP {
      EofStays(st, t);
    }
  }

  /** A segment that the stream does not hold. */
  lemma RunsOut(st: seq<Byte>, s: Source)
    requires Wf(st, s) && |st| < s.pos + s.bytesInSeg
    ensures Drain(st, s).eof
  {
    var u := Skip(s, |st| - s.pos);
    DrainBytes(st, s, |st| - s.pos);
    PacketByteWf(st, u);
    EofStays(st, PacketByte(st, u).1);
  }

  // ---------------------------------------------------------------------
  // The reader's way through the pages
  // ---------------------------------------------------------------------

  /** The entry of its table at which the reader opens the next page: on a page without segments it
      still takes one. */
  function TableTop(s: Source): nat
    requires 0 <= s.nextSeg < 255
  {
    if s.nextSeg < s.count then s.count else s.nextSeg + 1
  }

  /** Where the reader will stop, from the page headers alone; None when it meets the end of the
      stream or is cut off. */
  function ReaderEnd(st: seq<Byte>, s: Source): Option<nat>
    requires BetweenSegments(st, s)
    decreases |st| - s.pos, if s.nextSeg == -1 then 1 else 0
  {
    if s.nextSeg == -1 then
      StartPageWf(st, s);
      var (ok, t) := StartPage(st, s);
      if t.eof then None
      else if !ok then Some(t.pos)
      else if !t.continued then None
      else ReaderEnd(st, t)
    else
      ScanTableEnd(s.segments, s.nextSeg, TableTop(s), s.pos);
      var (stop, end) := ScanTable(s.segments, s.nextSeg, TableTop(s), s.pos);
      if end > |st| then None
      else if stop then Some(end)
      else ReaderEnd(st, s.(pos := end, nextSeg := -1))
  }

  /** The one entry that the reader takes on a page without segments. */
  lemma OneEntry(st: seq<Byte>, s: Source)
    requires BetweenSegments(st, s) && s.count <= s.nextSeg
    ensures var len := s.segments[s.nextSeg];
            && ScanTable(s.segments, s.nextSeg, TableTop(s), s.pos) == (len < 255, s.pos + len)
            && Behind(s) == s.(pos := s.pos + len, nextSeg := -1, lastSeg := len < 255)
  {
    var len := s.segments[s.nextSeg];
    assert ScanTable(s.segments, s.nextSeg + 1, s.nextSeg + 1, s.pos + len) == (false, s.pos + len);
  }

  lemma OneDrains(st: seq<Byte>, s: Source)
    requires BetweenSegments(st, s) && s.count <= s.nextSeg && s.pos + s.segments[s.nextSeg] <= |st|
    ensures Wf(st, Behind(s))
    ensures if s.segments[s.nextSeg] < 255 then EndsAt(st, s, Behind(s).pos) else Drain(st, s) == Drain(st, Behind(s))
  {
    DrainOne(st, s);
  }

  lemma TopDrains(st: seq<Byte>, s: Source)
    requires BetweenSegments(st, s) && 0 <= s.nextSeg
    requires ScanTable(s.segments, s.nextSeg, TableTop(s), s.pos).1 <= |st|
    ensures var (stop, end) := ScanTable(s.segments, s.nextSeg, TableTop(s), s.pos);
            if stop then EndsAt(st, s, end)
            else
              var t := s.(pos := end, nextSeg := -1);
              Wf(st, t) && Drain(st, s) == Drain(st, t)
  {
    if s.nextSeg < s.count {
      DrainTable(st, s);
    } else {
      OneEntry(st, s);
      OneDrains(st, s);
    }
  }

  lemma {:induction false} TopRunsOut(st: seq<Byte>, s: Source)
    requires BetweenSegments(st, s) && 0 <= s.nextSeg
    requires ScanTable(s.segments, s.nextSeg, TableTop(s), s.pos).1 > |st|
    ensures Drain(st, s).eof
    decreases 255 - s.nextSeg
  {
    if s.pos + s.segments[s.nextSeg] > |st| {
      DrainTaken(st, s);
      RunsOut(st, TakeSegment(st, s).1);
    } else {
      DrainOne(st, s);
      TopRunsOut(st, Behind(s));
    }
  }

  lemma PageDrains(st: seq<Byte>, s: Source)
    requires BetweenSegments(st, s) && s.nextSeg == -1
    ensures var (ok, t) := StartPage(st, s);
            && Wf(st, t)
            && Drain(st, s) == if !ok then t.(lastSeg := true) else if !t.continued then t else Drain(st, t)
  {
    StartPageWf(st, s);
    var (ok, t) := StartPage(st, s);
    if ok && t.continued {
      assert NextSegment(st, s) == TakeSegment(st, t);
      SameDrain(st, s, t);
    } else {
      assert PacketByte(st, s) == (EOP, if ok then t else t.(lastSeg := true));
    }
  }

  /** The byte-by-byte reader stops where the walk over the headers says, and nowhere else. */
  lemma {:induction false} ReaderEndIs(st: seq<Byte>, s: Source, end: nat)
    requires BetweenSegments(st, s)
    ensures EndsAt(st, s, end) <==> ReaderEnd(st, s) == Some(end)
    decreases |st| - s.pos, if s.nextSeg == -1 then 1 else 0
  {
    if s.nextSeg == -1 {
      StartPageWf(st, s);
      PageDrains(st, s);
      var (ok, t) := StartPage(st, s);
      if t.eof {
        EofStays(st, t);
      } else if ok && t.continued {
        ReaderEndIs(st, t, end);
      }
    } else {
      ScanTableEnd(s.segments, s.nextSeg, TableTop(s), s.pos);
      var (stop, e) := ScanTable(s.segments, s.nextSeg, TableTop(s), s.pos);
      if e > |st| {
        TopRunsOut(st, s);
      } else {
        TopDrains(st, s);
        if !stop { ReaderEndIs(st, s.(pos := e, nextSeg := -1), end); }
      }
    }
  }

  // ---------------------------------------------------------------------
  // Pages without segments
  // ---------------------------------------------------------------------

  /** The scan of a page, told from the page opened. */
  lemma PageScan(st: seq<Byte>, s: Source, first: bool, resync: bool)
    requires Wf(st, s) && ScanPages(st, s.pos, first, resync).Whole?
    ensures s.pos + 26 < |st| && s.pos + 27 + st[s.pos + 26] <= |st|
    ensures var t, r := PageOpened(st, s), ScanPages(st, s.pos, first, resync);
            && StartPage(st, s) == (true, t) && Wf(st, t) && (!first ==> t.continued)
            && ScanPacket(st, t, resync).Whole? && ScanPacket(st, t, resync).end == r.end
            && (r.emptyPage <==> t.count == 0 || ScanPacket(st, t, resync).emptyPage)
  {
    OpenPage(st, s);
    TableOpened(st, s);
  }

  /** A scan that passes over a page without segments, or starts on one. */
  predicate Skips(st: seq<Byte>, s: Source, resync: bool)
    requires Wf(st, s) && s.nextSeg <= s.count
  {
    var r := ScanPacket(st, s, resync);
    r.Whole? && (r.emptyPage || s.nextSeg == s.count)
  }

  /** The reader on the first page without segments. */
  function ToEmpty(st: seq<Byte>, t: Source): Source
    requires BetweenSegments(st, t) && 0 <= t.nextSeg
    decreases |st| - t.pos
  {
    ScanTableEnd(t.segments, t.nextSeg, t.count, t.pos);
    var end := ScanTable(t.segments, t.nextSeg, t.count, t.pos).1;
    if t.nextSeg >= t.count || end + 26 >= |st| || end + 27 + st[end + 26] > |st| then t
    else ToEmpty(st, PageOpened(st, t.(pos := end, nextSeg := -1)))
  }

  lemma {:induction false} ToEmptyIs(st: seq<Byte>, t: Source, resync: bool)
    requires BetweenSegments(st, t) && 0 <= t.nextSeg <= t.count && Skips(st, t, resync)
    ensures var u := ToEmpty(st, t);
            && BetweenSegments(st, u) && u.nextSeg == u.count && ReaderEnd(st, t) == ReaderEnd(st, u)
    decreases |st| - t.pos
  {
    if t.nextSeg < t.count {
      var u := NextPage(st, t, resync);
      ToEmptyIs(st, u, resync);
    }
  }

  /** One page with segments on the way. */
  lemma NextPage(st: seq<Byte>, t: Source, resync: bool) returns (u: Source)
    requires BetweenSegments(st, t) && 0 <= t.nextSeg < t.count && Skips(st, t, resync)
    ensures BetweenSegments(st, u) && 0 <= u.nextSeg <= u.count && Skips(st, u, resync) && t.pos < u.pos <= |st|
    ensures ReaderEnd(st, t) == ReaderEnd(st, u) && ToEmpty(st, t) == ToEmpty(st, u)
  {
    ScanTableEnd(t.segments, t.nextSeg, t.count, t.pos);
    var s := t.(pos := ScanTable(t.segments, t.nextSeg, t.count, t.pos).1, nextSeg := -1);
    PageScan(st, s, false, resync);
    u := PageOpened(st, s);
    assert ReaderEnd(st, s) == ReaderEnd(st, u);
  }

  /** On such a page the reader stops behind the length left in the table, or, if that is a full one,
      goes on to the page that it finds behind those 255 bytes. */
  ghost predicate LeftLengthLeads(st: seq<Byte>, u: Source, end: nat)
    requires BetweenSegments(st, u) && u.nextSeg == u.count
  {
    var len := u.segments[u.nextSeg];
    && u.pos + len <= |st|
    && if len < 255 then end == u.pos + len else ReaderEnd(st, u.(pos := u.pos + len, nextSeg := -1)) == Some(end)
  }

  lemma EmptyTakes(st: seq<Byte>, u: Source, end: nat)
    requires BetweenSegments(st, u) && u.nextSeg == u.count
    ensures ReaderEnd(st, u) == Some(end) <==> LeftLengthLeads(st, u, end)
  {
    OneEntry(st, u);
  }

  /** The exact condition: over a page without segments scan and reader agree when the length left in
      the table leads the reader to the byte the scan ends at. */
  lemma EmptyPageEnds(st: seq<Byte>, s: Source, resync: bool)
    requires Wf(st, s) && s.nextSeg <= s.count && !s.eof && Skips(st, s, resync)
    requires s.nextSeg == -1 ==> st[s.pos + 5] % 2 == 0
    ensures var (ok, t) := StartPacket(st, s);
            && ok && BetweenSegments(st, t) && 0 <= t.nextSeg
            && var u, end := ToEmpty(st, t), ScanPacket(st, s, resync).end;
               && BetweenSegments(st, u) && u.nextSeg == u.count
               && (EndsAt(st, t, end) <==> LeftLengthLeads(st, u, end))
  {
    var t := StartPacket(st, s).1;
    var end := ScanPacket(st, s, resync).end;
    StartSkips(st, s, resync);
    ToEmptyIs(st, t, resync);
    ReaderEndIs(st, t, end);
    EmptyTakes(st, ToEmpty(st, t), end);
  }

  lemma StartSkips(st: seq<Byte>, s: Source, resync: bool)
    requires Wf(st, s) && s.nextSeg <= s.count && !s.eof && Skips(st, s, resync)
    requires s.nextSeg == -1 ==> st[s.pos + 5] % 2 == 0
    ensures var (ok, t) := StartPacket(st, s);
            && ok && BetweenSegments(st, t) && 0 <= t.nextSeg <= t.count && Skips(st, t, resync)
  {
    if s.nextSeg == -1 {
      PageScan(st, s, true, resync);
    }
  }

  /** A page without segments inside a packet: the table the reader goes by is still the one before. */
  lemma EmptyPageOpened(st: seq<Byte>, s: Source)
    requires BetweenSegments(st, s) && s.nextSeg == -1 && s.pos + 26 < |st|
    requires st[s.pos..s.pos + 4] == CAPTURE && st[s.pos + 4] == 0 && st[s.pos + 5] % 2 == 1 && st[s.pos + 26] == 0
    ensures var t := s.(pos := s.pos + 27, nextSeg := 0, count := 0, continued := true);
            BetweenSegments(st, t) && Drain(st, s) == Drain(st, t)
  {
    OpenPage(st, s);
    var t := PageOpened(st, s);
    assert t.segments == s.segments;
    assert NextSegment(st, s) == TakeSegment(st, t);
    SameDrain(st, s, t);
  }

  /** A page that ends a packet of 10 bytes and begins another, a page without segments, and a page
      that ends the other packet. */
  function EmptyPageStream(): seq<Byte> {
    CAPTURE + [0, 0] + seq(20, _ => 0) + [2, 10, 255] + seq(265, _ => 9)
    + (CAPTURE + [0, 1] + seq(20, _ => 0) + [0])
    + (CAPTURE + [0, 1] + seq(20, _ => 0) + [1, 1, 7])
  }

  /** What the reader is left with after the first packet of it. */
  lemma FirstPacketRead(s: Source)
    requires s == Source(0, false, -1, 0, seq(255, _ => 0), false, 0, false)
    ensures var st := EmptyPageStream();
            && StartPacket(st, s).0 && Wf(st, StartPacket(st, s).1)
            && Drain(st, StartPacket(st, s).1)
            == Source(39, false, 1, 2, [10, 255] + seq(253, _ => 0), false, 0, true)
  {
    var st := EmptyPageStream();
    assert st[0..4] == CAPTURE && st[4] == 0 && st[5] == 0 && st[26] == 2 && st[27..29] == [10, 255];
    OpenPage(st, s);
    DrainOne(st, StartPacket(st, s).1);
  }

  /** The second packet of it: the scanner finds its end at 350, the reader takes the length 10 left
      from the first page and stops inside the header of the third. */
  lemma EmptyPageMisread(s: Source)
    requires s == Source(39, false, 1, 2, [10, 255] + seq(253, _ => 0), false, 0, true)
    ensures var st := EmptyPageStream();
            && Wf(st, s) && ScanPacket(st, s, false) == Whole(350, true)
            && StartPacket(st, s).0 && Wf(st, StartPacket(st, s).1)
            && EndsAt(st, StartPacket(st, s).1, 331)
  {
    var st, t := EmptyPageStream(), s.(lastSeg := false);
    DrainOne(st, t);
    SecondPage(t.(pos := 294, nextSeg := -1));
    DrainOne(st, t.(pos := 321, nextSeg := 0, count := 0, continued := true));
    MisreadScan(s);
  }

  lemma SecondPage(s: Source)
    requires s == Source(294, false, -1, 2, [10, 255] + seq(253, _ => 0), false, 0, false)
    ensures var st, t := EmptyPageStream(), s.(pos := 321, nextSeg := 0, count := 0, continued := true);
            Wf(st, s) && Wf(st, t) && Drain(st, s) == Drain(st, t)
  {
    var st := EmptyPageStream();
    assert st[294..298] == CAPTURE && st[298] == 0 && st[299] == 1 && st[320] == 0;
    EmptyPageOpened(st, s);
  }

  lemma MisreadScan(s: Source)
    requires s == Source(39, false, 1, 2, [10, 255] + seq(253, _ => 0), false, 0, true)
    ensures Wf(EmptyPageStream(), s) && ScanPacket(EmptyPageStream(), s, false) == Whole(350, true)
  {
    var st := EmptyPageStream();
    assert st[294..298] == CAPTURE && st[298] == 0 && st[299] == 1 && st[320] == 0;
    assert st[321..325] == CAPTURE && st[325] == 0 && st[326] == 1 && st[347] == 1 && st[348] == 1;
    assert ScanPages(st, 321, false, false) == Whole(350, false) by {
      assert ScanTable(st[348..349], 0, 1, 349) == (true, 350);
    }
    assert ScanTable(st[321..321], 0, 0, 321) == (false, 321);
    assert ScanPages(st, 294, false, false) == Whole(350, true);
    assert ScanTable(s.segments, 2, 2, 294) == (false, 294);
    assert ScanTable(s.segments, 1, 2, 39) == (false, 294);
  }
}
