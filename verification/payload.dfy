/** The bytes of a packet, read off the segment tables of its pages. */
module Payloads {
  import opened Basics
  import opened Packets
  import opened Scanner

  /** `len` bytes of the stream from p on; past its end the decoder reads zeros. */
  function Slice(st: seq<Byte>, p: nat, len: nat): (r: seq<Byte>)
    requires p <= |st|
    ensures |r| == len
  {
    if p + len <= |st| then st[p..p + len] else st[p..] + seq(p + len - |st|, _ => 0)
  }

  predicate AtSegment(st: seq<Byte>, s: Source) {
    Wf(st, s) && s.bytesInSeg == 0 && !s.lastSeg
  }

  /** The source behind the segment whose length it is at. */
  function Passed(st: seq<Byte>, s: Source): Source
    requires AtSegment(st, s) && 0 <= s.nextSeg
  {
    var len := s.segments[s.nextSeg];
    Advance(st, s, len).(nextSeg := if s.nextSeg + 1 >= s.count then -1 else s.nextSeg + 1)
  }

  /** The slices of the stream that the segment tables name, up to the first short one, over any number of
    * pages; a page that cannot be opened, or does not continue the packet, ends it. */
  function Payload(st: seq<Byte>, s: Source): seq<Byte>
    requires AtSegment(st, s)
    decreases |st| - s.pos, Segs(s)
  {
    if s.nextSeg == -1 then
      StartPageWf(st, s);
      var (ok, t) := StartPage(st, s);
      if ok && t.continued then Payload(st, t) else []
    else
      var len := s.segments[s.nextSeg];
      Slice(st, s.pos, len) + if len < 255 then [] else Payload(st, Passed(st, s))
  }

  /** The source at the end of its segment. */
  function AtEndOf(st: seq<Byte>, s: Source): Source
    requires Wf(st, s)
  {
    Advance(st, s, s.bytesInSeg).(bytesInSeg := 0)
  }

  function OneOn(st: seq<Byte>, s: Source): Source
    requires Wf(st, s) && 0 < s.bytesInSeg
  {
    Advance(st, s, 1).(bytesInSeg := s.bytesInSeg - 1)
  }

  lemma OneOnEnds(st: seq<Byte>, s: Source)
    requires Wf(st, s) && 0 < s.bytesInSeg
    ensures Wf(st, OneOn(st, s)) && AtEndOf(st, OneOn(st, s)) == AtEndOf(st, s)
    ensures Slice(st, s.pos, s.bytesInSeg) == [ByteAt(st, s.pos)] + Slice(st, OneOn(st, s).pos, s.bytesInSeg - 1)
  {
    SliceSteps(st, s.pos, s.bytesInSeg);
  }

  lemma {:induction false} RestOfSegment(st: seq<Byte>, s: Source)
    requires Wf(st, s)
    ensures Wf(st, AtEndOf(st, s)) && Rest(st, s) == Slice(st, s.pos, s.bytesInSeg) + Rest(st, AtEndOf(st, s))
    decreases s.bytesInSeg
  {
    if s.bytesInSeg == 0 {
      assert AtEndOf(st, s) == s && Slice(st, s.pos, 0) == [];
    } else {
      var t := OneOn(st, s);
      OneByte(st, s);
      OneOnEnds(st, s);
      RestOfSegment(st, t);
      Regroup([ByteAt(st, s.pos)], Slice(st, t.pos, t.bytesInSeg), Rest(st, AtEndOf(st, t)));
    }
  }

  lemma Regroup(a: seq<Byte>, b: seq<Byte>, c: seq<Byte>)
    ensures a + (b + c) == (a + b) + c
  {
  }

  lemma OneByte(st: seq<Byte>, s: Source)
    requires Wf(st, s) && 0 < s.bytesInSeg
    ensures Wf(st, OneOn(st, s)) && Rest(st, s) == [ByteAt(st, s.pos)] + Rest(st, OneOn(st, s))
  {
  }

  lemma SliceSteps(st: seq<Byte>, p: nat, len: nat)
    requires p <= |st| && 0 < len
    ensures Slice(st, p, len) == [ByteAt(st, p)] + Slice(st, Min(p + 1, |st|), len - 1)
  {
  }

  /** A segment of the table, byte by byte. */
  lemma RestTaken(st: seq<Byte>, s: Source)
    requires AtSegment(st, s) && 0 <= s.nextSeg
    ensures var len, t := s.segments[s.nextSeg], Passed(st, s);
            AtSegment(st, t) && Rest(st, s) == Slice(st, s.pos, len) + if len < 255 then [] else Rest(st, t)
  {
    var len, u := s.segments[s.nextSeg], TakeSegment(st, s).1;
    SegmentWf(st, s);
    if len == 0 {
      assert PacketByte(st, s).0 == EOP && Slice(st, s.pos, 0) == [];
    } else {
      SameRest(st, s, u);
      RestOfSegment(st, u);
      var v := AtEndOf(st, u);
      if len < 255 {
        assert PacketByte(st, v).0 == EOP;
      } else {
        assert v == Passed(st, s);
      }
    }
  }

  lemma SameRest(st: seq<Byte>, s: Source, t: Source)
    requires Wf(st, s) && Wf(st, t) && PacketByte(st, s) == PacketByte(st, t)
    ensures Rest(st, s) == Rest(st, t)
  {
  }

  /** What the reader delivers byte by byte is what the tables name: every byte of the packet, unchanged, in
    * order, and no other. */
  lemma {:induction false} RestIsPayload(st: seq<Byte>, s: Source)
    requires AtSegment(st, s)
    ensures Rest(st, s) == Payload(st, s)
    decreases |st| - s.pos, Segs(s)
  {
    if s.nextSeg == -1 {
      StartPageWf(st, s);
      var (ok, t) := StartPage(st, s);
      if ok && t.continued {
        assert NextSegment(st, s) == TakeSegment(st, t);
        SameRest(st, s, t);
        RestIsPayload(st, t);
      } else {
        assert PacketByte(st, s).0 == EOP;
      }
    } else {
      RestTaken(st, s);
      if s.segments[s.nextSeg] == 255 {
        RestIsPayload(st, Passed(st, s));
      }
    }
  }
}
