/** Packets written into Ogg pages (section 6 of RFC 3533), however they are cut, and read back. */
module WrittenPages {
  import opened Basics
  import Words
  import opened Packets
  import opened Scanner
  import opened Payloads

  /** One page of a packet: the header fields that do not decide what is read (position, serial number,
      sequence number, checksum), and its segment lengths. */
  datatype Page = Page(fields: seq<Byte>, table: seq<Byte>)

  function Sum(table: seq<Byte>): nat {
    if table == [] then 0 else table[0] + Sum(table[1..])
  }

  /** Segments of 255 bytes: the packet goes on. */
  predicate Full(table: seq<Byte>) {
    table == [] || (table[0] == 255 && Full(table[1..]))
  }

  /** ... up to a shorter one, which ends it. */
  predicate Ends(table: seq<Byte>) {
    table != [] && if |table| == 1 then table[0] < 255 else table[0] == 255 && Ends(table[1..])
  }

  lemma {:induction false} NotBoth(table: seq<Byte>)
    requires Ends(table)
    ensures !Full(table)
  {
    if |table| > 1 {
      NotBoth(table[1..]);
    }
  }

  /** A way to cut a packet of this length into pages. */
  ghost predicate Cut(pages: seq<Page>, len: nat) {
    && pages != [] && |pages[0].fields| == 20 && 0 < |pages[0].table| <= 255
    && if |pages| == 1 then Ends(pages[0].table) && Sum(pages[0].table) == len
       else Full(pages[0].table) && Sum(pages[0].table) <= len && Cut(pages[1..], len - Sum(pages[0].table))
  }

  /** A packet of any length can be cut into pages. */
  lemma {:induction false} EveryLength(len: nat) returns (pages: seq<Page>)
    ensures Cut(pages, len)
  {
    var fields := seq(20, _ => 0);
    if len < 255 {
      pages := [Page(fields, [len])];
    } else {
      var rest := EveryLength(len - 255);
      pages := [Page(fields, [255])] + rest;
      assert pages[1..] == rest && Sum([255]) == 255;
    }
  }

  /** The part of the packet on its first page, and the rest. */
  function Head(pages: seq<Page>, data: seq<Byte>): seq<Byte>
    requires Cut(pages, |data|)
  {
    data[..Sum(pages[0].table)]
  }

  function Tail(pages: seq<Page>, data: seq<Byte>): seq<Byte>
    requires Cut(pages, |data|)
  {
    data[Sum(pages[0].table)..]
  }

  function WritePage(page: Page, continued: bool, data: seq<Byte>): (r: seq<Byte>)
    requires |page.fields| == 20 && |page.table| <= 255
    ensures |r| == 27 + |page.table| + |data|
  {
    CAPTURE + [0, if continued then 1 else 0] + page.fields + [|page.table|] + page.table + data
  }

  /** All pages after the first are marked as continuing the packet. */
  function WritePages(pages: seq<Page>, continued: bool, data: seq<Byte>): (r: seq<Byte>)
    requires Cut(pages, |data|)
  {
    WritePage(pages[0], continued, Head(pages, data)) +
    if |pages| == 1 then [] else WritePages(pages[1..], true, Tail(pages, data))
  }

  // ---------------------------------------------------------------------
  // One page in a stream
  // ---------------------------------------------------------------------

  /** A page of this packet stands at p; sealed: `StandsNow`. */
  ghost predicate Stands(st: seq<Byte>, p: nat, page: Page, continued: bool, data: seq<Byte>) {
    forall o: nat {:trigger Words.Opened(o)} :: Words.Opened(o) ==> StandsNow(st, p, page, continued, data)
  }

  ghost predicate StandsNow(st: seq<Byte>, p: nat, page: Page, continued: bool, data: seq<Byte>) {
    && |page.fields| == 20 && 0 < |page.table| <= 255
    && p + 27 + |page.table| + |data| <= |st|
    && st[p..p + 4] == CAPTURE && st[p + 4] == 0 && st[p + 5] == (if continued then 1 else 0)
    && st[p + 26] == |page.table| && st[p + 27..p + 27 + |page.table|] == page.table
    && st[p + 27 + |page.table|..p + 27 + |page.table| + |data|] == data
  }

  lemma WrittenStands(before: seq<Byte>, page: Page, continued: bool, data: seq<Byte>, after: seq<Byte>)
    requires |page.fields| == 20 && 0 < |page.table| <= 255
    ensures Stands(before + WritePage(page, continued, data) + after, |before|, page, continued, data)
  {
    var st := before + WritePage(page, continued, data) + after;
    var w := WritePage(page, continued, data);
    Within(before, w, after, 0, 4);
    Within(before, w, after, 27, 27 + |page.table|);
    Within(before, w, after, 27 + |page.table|, |w|);
    assert st[|before| + 4] == w[4] && st[|before| + 5] == w[5] && st[|before| + 26] == w[26];
  }

  lemma Within(a: seq<Byte>, w: seq<Byte>, b: seq<Byte>, i: nat, j: nat)
    requires i <= j <= |w|
    ensures (a + w + b)[|a| + i..|a| + j] == w[i..j]
  {
  }

  // ---------------------------------------------------------------------
  // The tables
  // ---------------------------------------------------------------------

  lemma {:induction false} ScanFull(table: seq<Byte>, i: nat, p: nat)
    requires i <= |table| && Full(table[i..])
    ensures ScanTable(table, i, |table|, p) == (false, p + Sum(table[i..]))
    decreases |table| - i
  {
    if i < |table| {
      assert table[i..][1..] == table[i + 1..];
      ScanFull(table, i + 1, p + table[i]);
    }
  }

  lemma {:induction false} ScanEnds(table: seq<Byte>, i: nat, p: nat)
    requires i <= |table| && Ends(table[i..])
    ensures ScanTable(table, i, |table|, p) == (true, p + Sum(table[i..]))
    decreases |table| - i
  {
    assert table[i..][1..] == table[i + 1..];
    if i + 1 < |table| {
      ScanEnds(table, i + 1, p + table[i]);
    } else {
      assert Sum(table[i + 1..]) == 0;
    }
  }

  /** From s the reader takes `part`, and then what it takes from u; sealed. */
  ghost predicate Gives(st: seq<Byte>, s: Source, part: seq<Byte>, u: Source) {
    AtSegment(st, s) && AtSegment(st, u) &&
    forall o: nat {:trigger Words.Opened(o)} :: Words.Opened(o) ==> Payload(st, s) == part + Payload(st, u)
  }

  /** From s the reader takes these bytes, and the packet is over; sealed. */
  ghost predicate Delivers(st: seq<Byte>, s: Source, data: seq<Byte>) {
    AtSegment(st, s) &&
    forall o: nat {:trigger Words.Opened(o)} :: Words.Opened(o) ==> Payload(st, s) == data
  }

  lemma GivesMore(st: seq<Byte>, s: Source, a: seq<Byte>, u: Source, b: seq<Byte>, v: Source)
    requires Gives(st, s, a, u) && Gives(st, u, b, v)
    ensures Gives(st, s, a + b, v)
  {
    assert Words.Opened(0);
    assert a + (b + Payload(st, v)) == a + b + Payload(st, v);
  }

  lemma GivesLast(st: seq<Byte>, s: Source, a: seq<Byte>, u: Source, b: seq<Byte>)
    requires Gives(st, s, a, u) && Delivers(st, u, b)
    ensures Delivers(st, s, a + b)
  {
    assert Words.Opened(0);
  }

  /** One segment. */
  lemma SegmentGives(st: seq<Byte>, s: Source, t: seq<Byte>)
    requires AtSegment(st, s) && 0 <= s.nextSeg < s.count && t == s.segments[s.nextSeg..s.count] && s.pos + Sum(t) <= |st|
    ensures t != [] && s.pos + t[0] <= |st|
    ensures t[0] == 255 ==> Gives(st, s, st[s.pos..s.pos + t[0]], Passed(st, s))
    ensures t[0] < 255 ==> Delivers(st, s, st[s.pos..s.pos + t[0]])
  {
    PassedIs(st, s, t);
  }

  /** The source behind the segments `t`, the last of their page. */
  function PageBehind(s: Source, t: seq<Byte>): Source {
    s.(pos := s.pos + Sum(t), nextSeg := -1)
  }

  ghost predicate Holds(st: seq<Byte>, s: Source, t: seq<Byte>) {
    AtSegment(st, s) && 0 <= s.nextSeg < s.count && t == s.segments[s.nextSeg..s.count] && s.pos + Sum(t) <= |st|
  }

  function Data(st: seq<Byte>, s: Source, t: seq<Byte>): seq<Byte>
    requires s.pos + Sum(t) <= |st|
  {
    st[s.pos..s.pos + Sum(t)]
  }

  /** One segment off a page. */
  lemma OneOff(st: seq<Byte>, s: Source, t: seq<Byte>) returns (v: Source)
    requires Holds(st, s, t)
    ensures t != [] && v == Passed(st, s) && AtSegment(st, v) && s.pos <= v.pos <= |st|
    ensures t[0] == 255 ==> Gives(st, s, st[s.pos..v.pos], v)
    ensures t[0] < 255 ==> Delivers(st, s, st[s.pos..v.pos])
    ensures |t| == 1 ==> v == PageBehind(s, t) && st[s.pos..v.pos] == Data(st, s, t)
    ensures |t| > 1 ==> Holds(st, v, t[1..]) && PageBehind(v, t[1..]) == PageBehind(s, t) && v.count - v.nextSeg < s.count - s.nextSeg
    ensures |t| > 1 ==> st[s.pos..v.pos] + Data(st, v, t[1..]) == Data(st, s, t)
  {
    v := Passed(st, s);
    PassedIs(st, s, t);
    SegmentGives(st, s, t);
  }

  /** Full segments: their slices join up, and what follows is read from the next page. */
  lemma {:induction false} FullData(st: seq<Byte>, s: Source, t: seq<Byte>)
    requires Holds(st, s, t) && Full(t)
    ensures Gives(st, s, Data(st, s, t), PageBehind(s, t))
    decreases s.count - s.nextSeg
  {
    var v := OneOff(st, s, t);
    if |t| > 1 {
      FullData(st, v, t[1..]);
      GivesMore(st, s, st[s.pos..v.pos], v, Data(st, v, t[1..]), PageBehind(s, t));
    }
  }

  /** ... and the short one is the last of the packet. */
  lemma {:induction false} LastData(st: seq<Byte>, s: Source, t: seq<Byte>)
    requires Holds(st, s, t) && Ends(t)
    ensures Delivers(st, s, Data(st, s, t))
    decreases s.count - s.nextSeg
  {
    var v := OneOff(st, s, t);
    if |t| > 1 {
      LastData(st, v, t[1..]);
      GivesLast(st, s, st[s.pos..v.pos], v, Data(st, v, t[1..]));
    }
  }

  lemma PassedIs(st: seq<Byte>, s: Source, t: seq<Byte>)
    requires AtSegment(st, s) && 0 <= s.nextSeg < s.count && t == s.segments[s.nextSeg..s.count]
    requires s.pos + Sum(t) <= |st|
    ensures t != [] && t[0] == s.segments[s.nextSeg] && Slice(st, s.pos, t[0]) == st[s.pos..s.pos + t[0]]
    ensures Passed(st, s) == s.(pos := s.pos + t[0], nextSeg := if |t| == 1 then -1 else s.nextSeg + 1)
    ensures |t| > 1 ==> t[1..] == s.segments[s.nextSeg + 1..s.count]
    ensures |t| == 1 ==> Sum(t) == t[0]
  {
  }

  // ---------------------------------------------------------------------
  // One page, scanned and read
  // ---------------------------------------------------------------------

  lemma PageScanned(st: seq<Byte>, p: nat, page: Page, first: bool, data: seq<Byte>, resync: bool)
    requires Stands(st, p, page, !first, data) && |data| == Sum(page.table)
    ensures Ends(page.table) ==> ScanPages(st, p, first, resync) == Whole(p + 27 + |page.table| + |data|, false)
    ensures Full(page.table) ==> ScanPages(st, p, first, resync) == ScanPages(st, p + 27 + |page.table| + |data|, false, resync)
  {
    var t := page.table;
    TableScanned(st, p, page, first, data, resync);
    assert t[0..] == t;
    if Ends(t) {
      ScanEnds(t, 0, p + 27 + |t|);
    }
    if Full(t) {
      ScanFull(t, 0, p + 27 + |t|);
    }
  }

  lemma TableScanned(st: seq<Byte>, p: nat, page: Page, first: bool, data: seq<Byte>, resync: bool)
    requires Stands(st, p, page, !first, data)
    ensures var (stop, end) := ScanTable(page.table, 0, |page.table|, p + 27 + |page.table|);
            end == p + 27 + |page.table| + |data| ==>
              end <= |st| && ScanPages(st, p, first, resync) == if stop then Whole(end, false) else ScanPages(st, end, false, resync)
  {
    assert Words.Opened(0);
    assert st[p + 27..p + 27 + st[p + 26]] == page.table;
  }

  /** The page at a boundary, opened. */
  lemma PageOpens(st: seq<Byte>, s: Source, page: Page, continued: bool, data: seq<Byte>) returns (t: Source)
    requires AtSegment(st, s) && s.nextSeg == -1 && Stands(st, s.pos, page, continued, data)
    ensures StartPage(st, s) == (true, t) && t.continued == continued && AtSegment(st, t)
    ensures t.pos == s.pos + 27 + |page.table|
    ensures |data| == Sum(page.table) ==> Holds(st, t, page.table) && Data(st, t, page.table) == data
  {
    assert Words.Opened(0);
    OpenPage(st, s);
    t := PageOpened(st, s);
  }

  lemma LastPageRead(st: seq<Byte>, s: Source, page: Page, continued: bool, data: seq<Byte>) returns (t: Source)
    requires AtSegment(st, s) && s.nextSeg == -1 && Stands(st, s.pos, page, continued, data)
    requires Ends(page.table) && |data| == Sum(page.table)
    ensures StartPage(st, s) == (true, t) && t.continued == continued && Delivers(st, t, data)
  {
    t := PageOpens(st, s, page, continued, data);
    LastData(st, t, page.table);
  }

  lemma FullPageRead(st: seq<Byte>, s: Source, page: Page, continued: bool, data: seq<Byte>) returns (t: Source, u: Source)
    requires AtSegment(st, s) && s.nextSeg == -1 && Stands(st, s.pos, page, continued, data)
    requires Full(page.table) && |data| == Sum(page.table)
    ensures StartPage(st, s) == (true, t) && t.continued == continued && Gives(st, t, data, u)
    ensures u.nextSeg == -1 && u.pos == NextAt(s.pos, page)
  {
    t := PageOpens(st, s, page, continued, data);
    FullData(st, t, page.table);
    u := PageBehind(t, page.table);
  }

  // ---------------------------------------------------------------------
  // All pages of a packet
  // ---------------------------------------------------------------------

  /** The pages of a packet stand at p, one after the other. */
  ghost predicate StandAll(st: seq<Byte>, p: nat, pages: seq<Page>, continued: bool, data: seq<Byte>)
    requires Cut(pages, |data|)
    decreases |pages|
  {
    && Stands(st, p, pages[0], continued, Head(pages, data))
    && (|pages| > 1 ==> StandAll(st, NextAt(p, pages[0]), pages[1..], true, Tail(pages, data)))
  }

  /** Where the page after this one begins. */
  function NextAt(p: nat, page: Page): nat {
    p + 27 + |page.table| + Sum(page.table)
  }

  /** Where the pages end. */
  function PagesEnd(p: nat, pages: seq<Page>): nat
    decreases |pages|
  {
    if pages == [] then p else PagesEnd(NextAt(p, pages[0]), pages[1..])
  }

  lemma {:induction false} WrittenStand(st: seq<Byte>, before: seq<Byte>, pages: seq<Page>, continued: bool, data: seq<Byte>,
                                        after: seq<Byte>)
    requires Cut(pages, |data|) && st == before + WritePages(pages, continued, data) + after
    ensures StandAll(st, |before|, pages, continued, data)
    decreases |pages|
  {
    var rest := FirstWritten(st, before, pages, continued, data, after);
    if |pages| > 1 {
      var w := WritePage(pages[0], continued, Head(pages, data));
      assert |before + w| == NextAt(|before|, pages[0]);
      WrittenStand(st, before + w, pages[1..], true, Tail(pages, data), after);
    }
  }

  lemma FirstWritten(st: seq<Byte>, before: seq<Byte>, pages: seq<Page>, continued: bool, data: seq<Byte>, after: seq<Byte>)
    returns (rest: seq<Byte>)
    requires Cut(pages, |data|) && st == before + WritePages(pages, continued, data) + after
    ensures Stands(st, |before|, pages[0], continued, Head(pages, data))
    ensures |pages| > 1 ==> rest == WritePages(pages[1..], true, Tail(pages, data))
                            && st == before + WritePage(pages[0], continued, Head(pages, data)) + rest + after
  {
    rest := if |pages| == 1 then [] else WritePages(pages[1..], true, Tail(pages, data));
    Regrouped(before, WritePage(pages[0], continued, Head(pages, data)), rest, after);
    WrittenStands(before, pages[0], continued, Head(pages, data), rest + after);
  }

  lemma Regrouped(a: seq<Byte>, b: seq<Byte>, c: seq<Byte>, d: seq<Byte>)
    ensures a + (b + c) + d == a + b + (c + d) == (a + b) + c + d
  {
  }

  /** The scanner finds every packet whose pages are all there, and its end. */
  lemma {:induction false} ScanFinds(st: seq<Byte>, p: nat, pages: seq<Page>, first: bool, data: seq<Byte>, resync: bool)
    requires Cut(pages, |data|) && StandAll(st, p, pages, !first, data)
    ensures ScanPages(st, p, first, resync) == Whole(PagesEnd(p, pages), false)
    decreases |pages|
  {
    PageScanned(st, p, pages[0], first, Head(pages, data), resync);
    if |pages| == 1 {
      assert pages[1..] == [];
    } else {
      ScanFinds(st, NextAt(p, pages[0]), pages[1..], false, Tail(pages, data), resync);
    }
  }

  /** The packet read off these pages is the one that was written. */
  lemma {:induction false} PayloadWritten(st: seq<Byte>, s: Source, pages: seq<Page>, continued: bool, data: seq<Byte>)
    returns (t: Source)
    requires Cut(pages, |data|) && AtSegment(st, s) && s.nextSeg == -1 && StandAll(st, s.pos, pages, continued, data)
    ensures StartPage(st, s) == (true, t) && t.continued == continued && Delivers(st, t, data)
    decreases |pages|
  {
    if |pages| == 1 {
      t := LastPageRead(st, s, pages[0], continued, Head(pages, data));
      assert Head(pages, data) == data;
    } else {
      var u;
      t, u := FullPageRead(st, s, pages[0], continued, Head(pages, data));
      var v := PayloadWritten(st, u, pages[1..], true, Tail(pages, data));
      Resumes(st, u, v);
      GivesMore(st, t, Head(pages, data), u, [], v);
      GivesLast(st, t, Head(pages, data) + [], v, Tail(pages, data));
      assert Head(pages, data) + [] + Tail(pages, data) == data;
    }
  }

  /** At a page boundary inside a packet the page that continues it is read. */
  lemma Resumes(st: seq<Byte>, u: Source, v: Source)
    requires AtSegment(st, u) && u.nextSeg == -1 && StartPage(st, u) == (true, v) && v.continued
    ensures Gives(st, u, [], v)
  {
    StartPageWf(st, u);
  }

  /** Starting the packet at its first page. */
  lemma StartWritten(st: seq<Byte>, s: Source, pages: seq<Page>, data: seq<Byte>)
    requires Cut(pages, |data|) && Wf(st, s) && !s.eof && s.nextSeg == -1 && StandAll(st, s.pos, pages, false, data)
    ensures var (ok, t) := StartPacket(st, s); ok && AtSegment(st, t) && Payload(st, t) == data
  {
    var u := s.(lastSeg := false, bytesInSeg := 0);
    var t := PayloadWritten(st, u, pages, false, data);
    StartsLike(st, s, t);
    assert Words.Opened(0);
  }

  /** Starting a packet forgets where the one before was left. */
  lemma StartsLike(st: seq<Byte>, s: Source, t: Source)
    requires Wf(st, s) && !s.eof && s.nextSeg == -1
    requires StartPage(st, s.(lastSeg := false, bytesInSeg := 0)) == (true, t) && !t.continued
    ensures StartPacket(st, s) == (true, t)
  {
    StartPageWf(st, s);
    StartPageWf(st, s.(lastSeg := false, bytesInSeg := 0));
  }
}
