/** Push mode looks ahead before it decodes: `is_whole_packet_present` walks the page headers
    without consuming anything. When it says yes, reading the packet cannot run dry. */
module Scanner {
  import opened Basics
  import opened Packets

  datatype Scan = NeedMoreData | InvalidStream | Whole(end: nat, emptyPage: bool)

  /** Adds up segments i..n of a table until the first short one: whether there is one, and where
      the data ends. */
  function ScanTable(table: seq<Byte>, i: nat, n: nat, p: nat): (bool, nat)
    requires n <= |table|
    decreases n - i
  {
    if i >= n then (false, p)
    else if table[i] < 255 then (true, p + table[i])
    else ScanTable(table, i + 1, n, p + table[i])
  }

  lemma {:induction false} ScanTableEnd(table: seq<Byte>, i: nat, n: nat, p: nat)
    requires n <= |table|
    ensures ScanTable(table, i, n, p).1 >= p
    ensures i < n && !ScanTable(table, i, n, p).0 ==> ScanTable(table, i, n, p).1 > p
    decreases n - i
  {
    if i < n && table[i] == 255 { ScanTableEnd(table, i + 1, n, p + table[i]); }
  }

  /** The pages from p on. `first`: the packet starts on this page, where a continuation mark is
      only tolerated while resynchronising. */
  function ScanPages(st: seq<Byte>, p: nat, first: bool, resync: bool): Scan
    decreases |st| - p
  {
    if p + 26 >= |st| then NeedMoreData
    else if st[p..p + 4] != CAPTURE || st[p + 4] != 0 then InvalidStream
    else if (if first then !resync && st[p + 5] % 2 == 1 else st[p + 5] % 2 == 0) then InvalidStream
    else
      var n := st[p + 26];
      var q := p + 27;
      if q + n > |st| then NeedMoreData
      else
        var (stop, end) := ScanTable(st[q..q + n], 0, n, q + n);
        if end > |st| then NeedMoreData
        else if stop then Whole(end, false)
        else
          ScanTableEnd(st[q..q + n], 0, n, q + n);
          var r := ScanPages(st, end, false, resync);
          if r.Whole? then r.(emptyPage := r.emptyPage || n == 0) else r
  }

  function ScanPacket(st: seq<Byte>, s: Source, resync: bool): Scan
    requires Wf(st, s) && s.nextSeg <= s.count
  {
    if s.nextSeg == -1 then ScanPages(st, s.pos, true, resync)
    else
      var (stop, end) := ScanTable(s.segments, s.nextSeg, s.count, s.pos);
      if end > |st| then NeedMoreData
      else if stop then Whole(end, false)
      else ScanPages(st, end, false, resync)
  }

  /** `maybe_start_packet`: at a page boundary, open the page; then forget the previous packet. */
  function StartPacket(st: seq<Byte>, s: Source): (bool, Source)
    requires Wf(st, s)
  {
    if s.nextSeg != -1 then (true, s.(lastSeg := false, bytesInSeg := 0))
    else if s.eof then (false, Advance(st, s, 1))
    else
      var p := StartPage(st, s);
      if !p.0 then p
      else if p.1.continued then (false, p.1.(lastSeg := false, bytesInSeg := 0))
      else (true, p.1.(lastSeg := false, bytesInSeg := 0))
  }

  // ---------------------------------------------------------------------
  // Draining
  // ---------------------------------------------------------------------

  /** Sources that read the same byte are drained alike. */
  lemma SameDrain(st: seq<Byte>, s: Source, t: Source)
    requires Wf(st, s) && Wf(st, t) && PacketByte(st, s) == PacketByte(st, t)
    ensures Drain(st, s) == Drain(st, t)
  {
  }

  /** The source k bytes further on in its segment. */
  function Skip(s: Source, k: nat): Source
    requires k <= s.bytesInSeg
  {
    s.(pos := s.pos + k, bytesInSeg := s.bytesInSeg - k)
  }

  lemma DrainByte(st: seq<Byte>, s: Source)
    requires Wf(st, s) && 0 < s.bytesInSeg && s.pos < |st|
    ensures Wf(st, Skip(s, 1)) && Drain(st, s) == Drain(st, Skip(s, 1))
  {
    assert PacketByte(st, s).1 == Skip(s, 1);
  }

  /** Draining a part of a segment that the stream holds. */
  lemma {:induction false} DrainBytes(st: seq<Byte>, s: Source, k: nat)
    requires Wf(st, s) && k <= s.bytesInSeg && s.pos + k <= |st|
    ensures Wf(st, Skip(s, k)) && Drain(st, s) == Drain(st, Skip(s, k))
  {
    if k == 0 {
      assert Skip(s, 0) == s;
    } else {
      DrainBytes(st, s, k - 1);
      DrainByte(st, Skip(s, k - 1));
      assert Skip(Skip(s, k - 1), 1) == Skip(s, k);
    }
  }

  predicate BetweenSegments(st: seq<Byte>, s: Source) {
    Wf(st, s) && s.bytesInSeg == 0 && !s.lastSeg && !s.eof
  }

  /** The source behind the next segment of the table. */
  function Behind(s: Source): Source
    requires |s.segments| == 255 && 0 <= s.nextSeg < 255
  {
    var len := s.segments[s.nextSeg];
    s.(pos := s.pos + len, nextSeg := if s.nextSeg + 1 >= s.count then -1 else s.nextSeg + 1, lastSeg := len < 255)
  }

  lemma SkipTaken(st: seq<Byte>, s: Source)
    requires BetweenSegments(st, s) && 0 <= s.nextSeg
    ensures var u := TakeSegment(st, s).1; u.bytesInSeg == s.segments[s.nextSeg] && Skip(u, u.bytesInSeg) == Behind(s)
  {
  }

  /** One segment of the table, also one that an earlier page left there. */
  lemma DrainOne(st: seq<Byte>, s: Source)
    requires BetweenSegments(st, s) && 0 <= s.nextSeg
    requires s.pos + s.segments[s.nextSeg] <= |st|
    ensures Wf(st, Behind(s))
    ensures Drain(st, s) == if s.segments[s.nextSeg] < 255 then Behind(s) else Drain(st, Behind(s))
  {
    var u := TakeSegment(st, s).1;
    SkipTaken(st, s);
    DrainTaken(st, s);
    DrainBytes(st, u, u.bytesInSeg);
    if u.bytesInSeg < 255 {
      DrainOver(st, Behind(s));
    }
  }

  lemma DrainTaken(st: seq<Byte>, s: Source)
    requires BetweenSegments(st, s) && 0 <= s.nextSeg
    ensures var u := TakeSegment(st, s).1; Wf(st, u) && Drain(st, s) == if u.bytesInSeg > 0 then Drain(st, u) else u
  {
    SegmentWf(st, s);
    var u := TakeSegment(st, s).1;
    if u.bytesInSeg > 0 {
      SameDrain(st, s, u);
    }
  }

  lemma DrainOver(st: seq<Byte>, s: Source)
    requires Wf(st, s) && s.bytesInSeg == 0 && s.lastSeg
    ensures Drain(st, s) == s
  {
    assert PacketByte(st, s) == (EOP, s);
  }

  /** The segments left on a page. */
  lemma {:induction false} DrainTable(st: seq<Byte>, s: Source)
    requires BetweenSegments(st, s) && 0 <= s.nextSeg < s.count
    requires ScanTable(s.segments, s.nextSeg, s.count, s.pos).1 <= |st|
    ensures var (stop, end) := ScanTable(s.segments, s.nextSeg, s.count, s.pos);
            if stop then Drain(st, s).pos == end && !Drain(st, s).eof && AtEnd(Drain(st, s))
            else
              var t := s.(pos := end, nextSeg := -1);
              Wf(st, t) && Drain(st, s) == Drain(st, t)
    decreases s.count - s.nextSeg
  {
    var len := s.segments[s.nextSeg];
    ScanTableEnd(s.segments, s.nextSeg + 1, s.count, s.pos + len);
    DrainOne(st, s);
    if len == 255 && s.nextSeg + 1 < s.count {
      DrainTable(st, s.(pos := s.pos + len, nextSeg := s.nextSeg + 1));
    }
  }

  lemma {:induction false} ScanTableSame(t: seq<Byte>, u: seq<Byte>, i: nat, n: nat, p: nat)
    requires n <= |t| && n <= |u| && t[..n] == u[..n]
    ensures ScanTable(t, i, n, p) == ScanTable(u, i, n, p)
    decreases n - i
  {
    if i < n {
      assert t[i] == t[..n][i] == u[i];
      ScanTableSame(t, u, i + 1, n, p + t[i]);
    }
  }

  /** What `StartPage` leaves when the header and its table are all there. */
  function PageOpened(st: seq<Byte>, s: Source): Source
    requires Wf(st, s) && s.pos + 26 < |st| && s.pos + 27 + st[s.pos + 26] <= |st|
  {
    var n := st[s.pos + 26];
    var q := s.pos + 27;
    s.(pos := q + n, count := n, segments := st[q..q + n] + s.segments[n..], continued := st[s.pos + 5] % 2 == 1, nextSeg := 0)
  }

  lemma OpenPage(st: seq<Byte>, s: Source)
    requires Wf(st, s) && s.pos + 26 < |st| && s.pos + 27 + st[s.pos + 26] <= |st|
    requires st[s.pos..s.pos + 4] == CAPTURE && st[s.pos + 4] == 0
    ensures StartPage(st, s) == (true, PageOpened(st, s))
  {
    var c := st[s.pos..s.pos + 4];
    assert c[0] == st[s.pos] && c[1] == st[s.pos + 1] && c[2] == st[s.pos + 2] && c[3] == st[s.pos + 3];
  }

  lemma TableOpened(st: seq<Byte>, s: Source)
    requires Wf(st, s) && s.pos + 26 < |st| && s.pos + 27 + st[s.pos + 26] <= |st|
    ensures var n, q, t := st[s.pos + 26], s.pos + 27, PageOpened(st, s);
            Wf(st, t) && ScanTable(st[q..q + n], 0, n, q + n) == ScanTable(t.segments, t.nextSeg, t.count, t.pos)
  {
    var n, q, t := st[s.pos + 26], s.pos + 27, PageOpened(st, s);
    assert t.segments[..n] == st[q..q + n];
    ScanTableSame(st[q..q + n], t.segments, 0, n, q + n);
  }

  /** What a successful scan promises of draining from s. */
  predicate EndsAt(st: seq<Byte>, s: Source, end: nat)
    requires Wf(st, s)
  {
    var d := Drain(st, s);
    d.pos == end && !d.eof && AtEnd(d)
  }

  /** Draining a page whose header has been opened, and the pages after it. */
  lemma {:induction false} DrainOpened(st: seq<Byte>, s: Source, resync: bool)
    requires BetweenSegments(st, s) && 0 <= s.nextSeg < s.count
    requires ScanTable(s.segments, s.nextSeg, s.count, s.pos).1 <= |st|
    requires !ScanTable(s.segments, s.nextSeg, s.count, s.pos).0 ==>
      var r := ScanPages(st, ScanTable(s.segments, s.nextSeg, s.count, s.pos).1, false, resync);
      r.Whole? && !r.emptyPage
    ensures var (stop, end) := ScanTable(s.segments, s.nextSeg, s.count, s.pos);
            EndsAt(st, s, if stop then end else ScanPages(st, end, false, resync).end)
    decreases |st| - s.pos, 0
  {
    var (stop, end) := ScanTable(s.segments, s.nextSeg, s.count, s.pos);
    ScanTableEnd(s.segments, s.nextSeg, s.count, s.pos);
    DrainTable(st, s);
    if !stop { DrainPages(st, s.(pos := end, nextSeg := -1), resync); }
  }

  /** Draining on from a page boundary inside a packet. */
  lemma {:induction false} DrainPages(st: seq<Byte>, s: Source, resync: bool)
    requires BetweenSegments(st, s) && s.nextSeg == -1
    requires var r := ScanPages(st, s.pos, false, resync); r.Whole? && !r.emptyPage
    ensures EndsAt(st, s, ScanPages(st, s.pos, false, resync).end)
    decreases |st| - s.pos, 1
  {
    var t := PageOpened(st, s);
    OpenPage(st, s);
    TableOpened(st, s);
    assert NextSegment(st, s) == TakeSegment(st, t);
    SameDrain(st, s, t);
    DrainOpened(st, t, resync);
  }

  /** When the scanner has seen the whole packet, opening and draining it never meets the end of
      the stream and stops exactly where the scanner stopped, over any number of pages. */
  lemma ScannedPacketIsReadable(st: seq<Byte>, s: Source, resync: bool)
    requires Wf(st, s) && s.nextSeg < s.count && !s.eof
    requires var r := ScanPacket(st, s, resync); r.Whole? && !r.emptyPage
    requires s.nextSeg == -1 ==> st[s.pos + 5] % 2 == 0
    ensures var (ok, t) := StartPacket(st, s);
            ok && Wf(st, t) && EndsAt(st, t, ScanPacket(st, s, resync).end)
  {
    if s.nextSeg == -1 {
      OpenPage(st, s);
      TableOpened(st, s);
      DrainOpened(st, StartPacket(st, s).1, resync);
    } else {
      DrainOpened(st, StartPacket(st, s).1, resync);
    }
  }

  /** A page of one full segment, and a page of one byte that does not continue it. */
  function CutStream(): seq<Byte> {
    CAPTURE + [0, 0] + seq(20, _ => 0) + [1, 255] + seq(255, _ => 9) + CAPTURE + [0, 0] + seq(20, _ => 0) + [1, 1, 7]
  }

  /** What starting a packet at the beginning of it leaves. */
  lemma CutStarts(s: Source)
    requires s == Source(0, false, -1, 0, seq(255, _ => 0), false, 0, false)
    ensures var (ok, t) := StartPacket(CutStream(), s);
            ok && BetweenSegments(CutStream(), t) && t.pos == 28 && t.nextSeg == 0 && t.count == 1 && t.segments[0] == 255
  {
    var st := CutStream();
    assert st[0..4] == CAPTURE && st[4] == 0 && st[5] == 0 && st[26] == 1 && st[27] == 255;
    OpenPage(st, s);
  }

  /** A page that does not continue the packet is opened, and none of its data read. */
  lemma UnmarkedPage(st: seq<Byte>, s: Source)
    requires BetweenSegments(st, s) && s.nextSeg == -1 && s.pos + 26 < |st| && s.pos + 27 + st[s.pos + 26] <= |st|
    requires st[s.pos..s.pos + 4] == CAPTURE && st[s.pos + 4] == 0 && st[s.pos + 5] % 2 == 0
    ensures Wf(st, PageOpened(st, s)) && Drain(st, s) == PageOpened(st, s)
  {
    OpenPage(st, s);
    assert PacketByte(st, s) == (EOP, PageOpened(st, s));
  }

  /** The end of the packet is not final: after its 255 bytes the next read delivers a byte of the
      page that cut it off. */
  lemma LostContinuation(s: Source)
    requires s == Source(0, false, -1, 0, seq(255, _ => 0), false, 0, false)
    ensures StartPacket(CutStream(), s).0
    ensures var st, t := CutStream(), StartPacket(CutStream(), s).1;
            Wf(st, t) && !Closed(st, t) && PacketByte(st, Drain(st, t)).0 == 7
  {
    var st, t := CutStream(), StartPacket(CutStream(), s).1;
    CutStarts(s);
    DrainOne(st, t);
    var u := t.(pos := 283, nextSeg := -1);
    assert st[283..287] == CAPTURE && st[287] == 0 && st[288] == 0 && st[309] == 1 && st[310] == 1 && st[311] == 7;
    UnmarkedPage(st, u);
    var v := PageOpened(st, u);
    assert NextSegment(st, v) == TakeSegment(st, v);
  }

  // ---------------------------------------------------------------------
  // The procedures
  // ---------------------------------------------------------------------

  /** One pass over a segment table. */
  method WalkTable(table: seq<Byte>, from: nat, n: nat, start: nat) returns (s: nat, p: nat)
    requires from <= n <= |table|
    ensures (s < n, p) == ScanTable(table, from, n, start) && s <= n
  {
    s, p := from, start;
    while s < n
      invariant from <= s <= n && ScanTable(table, from, n, start) == ScanTable(table, s, n, p)
    {
      p := p + table[s];
      if table[s] < 255 { return; }
      s := s + 1;
    }
  }

  method IsWholePacketPresent(f: Stream, previousLength: nat) returns (whole: bool, ghost end: nat)
    requires f.Valid() && f.nextSeg <= f.segmentCount
    ensures whole == ScanPacket(f.data, f.View(), previousLength == 0).Whole?
    ensures whole ==> end == ScanPacket(f.data, f.View(), previousLength == 0).end
  {
    ghost var resync := previousLength == 0;
    ghost var goal := ScanPacket(f.data, f.View(), resync);
    var s, first, p := f.nextSeg, true, f.pos;
    if s != -1 {
      s, p := WalkTable(f.segments, s, f.segmentCount, p);
      if s == f.segmentCount { s := -1; }
      if p > |f.data| { return false, 0; }
      first := false;
    }
    end := p;
    while s == -1
      invariant p <= |f.data| && (s == -1 ==> (goal.Whole? <==> ScanPages(f.data, p, first, resync).Whole?))
      invariant s == -1 && goal.Whole? ==> goal.end == ScanPages(f.data, p, first, resync).end
      invariant s != -1 ==> goal.Whole? && end == goal.end
      decreases if s == -1 then |f.data| - p + 1 else 0
    {
      if p + 26 >= |f.data| { return false, 0; }
      if f.data[p..p + 4] != CAPTURE { return false, 0; }
      if f.data[p + 4] != 0 { return false, 0; }
      if first {
        if previousLength != 0 && f.data[p + 5] % 2 == 1 { return false, 0; }
      } else {
        if f.data[p + 5] % 2 == 0 { return false, 0; }
      }
      var n := f.data[p + 26];
      var q := p + 27;
      if q + n > |f.data| { return false, 0; }
      var table := f.data[q..q + n];
      ScanTableEnd(table, 0, n, q + n);
      s, p := WalkTable(table, 0, n, q + n);
      if s == n { s := -1; }
      if p > |f.data| { return false, 0; }
      first := false;
      end := p;
    }
    return true, end;
  }

  method StartThePacket(f: Stream) returns (ok: bool)
    requires f.Valid()
    modifies f
    ensures f.Valid() && (ok, f.View()) == StartPacket(f.data, old(f.View()))
    ensures f.validBits == if ok then 0 else old(f.validBits)
  {
    StartPageWf(f.data, f.View());
    if f.nextSeg == -1 {
      if f.eof {
        var _ := f.Get8();
        return false;
      }
      ok := f.StartThePage();
      if !ok { return; }
      if f.pageFlag % 2 == 1 {
        f.lastSeg := false;
        f.bytesInSeg := 0;
        return false;
      }
    }
    f.lastSeg := false;
    f.validBits := 0;
    f.bytesInSeg := 0;
    return true;
  }
}
