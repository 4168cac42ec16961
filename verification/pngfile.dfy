/** The PNG container as tools/adjudicate_render_pr4a.py reads it: chunks, their order and their
    checksums, and the image data put together from its pieces. */
module PngFile {
  import opened Basics
  import opened Words
  import opened Png

  const SIGNATURE: seq<Byte> := [0x89, 0x50, 0x4E, 0x47, 0x0D, 0x0A, 0x1A, 0x0A]
  const IHDR: seq<Byte> := [0x49, 0x48, 0x44, 0x52]
  const PLTE: seq<Byte> := [0x50, 0x4C, 0x54, 0x45]
  const IDAT: seq<Byte> := [0x49, 0x44, 0x41, 0x54]
  const IEND: seq<Byte> := [0x49, 0x45, 0x4E, 0x44]

  datatype Size = Size(width: nat, height: nat)

  datatype Image = Image(size: Size, pixels: seq<Byte>)

  /** What follows the first chunk up to IEND: how big the image is, and its compressed data. */
  datatype Content = Content(size: Size, compressed: seq<Byte>)

  /** A big-endian number of four bytes. */
  function Be32(n: nat): (s: seq<Byte>)
    ensures |s| == 4
  {
    [n / 0x100_0000 % 256, n / 0x1_0000 % 256, n / 0x100 % 256, n % 256]
  }

  function FromBe32(s: seq<Byte>): nat
    requires |s| >= 4
  {
    s[0] as nat * 0x100_0000 + s[1] as nat * 0x1_0000 + s[2] as nat * 0x100 + s[3] as nat
  }

  lemma Be32RoundTrip(n: nat)
    requires n < 0x1_0000_0000
    ensures FromBe32(Be32(n)) == n
  {
    LowByte(n);
    LowByte(n / 0x100);
    LowByte(n / 0x1_0000);
    assert n / 0x100 / 0x100 == n / 0x1_0000 && n / 0x1_0000 / 0x100 == n / 0x100_0000 < 256;
  }

  lemma LowByte(n: nat)
    ensures n == n / 0x100 * 0x100 + n % 0x100
  {
  }

  /** 8-bit RGBA without interlacing, and nothing else. */
  function ReadHeader(p: seq<Byte>): Option<Size>
    requires |p| == 13
  {
    var size := Size(FromBe32(p), FromBe32(p[4..]));
    if p[8] != 8 || p[9] != 6 || p[12] != 0 then None
    else if size.width == 0 || size.height == 0 || p[10] != 0 || p[11] != 0 then None
    else Some(size)
  }

  function WriteHeader(size: Size): seq<Byte> {
    Be32(size.width) + Be32(size.height) + [8, 6, 0, 0, 0]
  }

  lemma HeaderRoundTrip(size: Size)
    requires 0 < size.width < 0x1_0000_0000 && 0 < size.height < 0x1_0000_0000
    ensures |WriteHeader(size)| == 13 && ReadHeader(WriteHeader(size)) == Some(size)
  {
    var p := WriteHeader(size);
    Be32At(p, [], size.width, Be32(size.height) + [8, 6, 0, 0, 0]);
    Be32At(p, Be32(size.width), size.height, [8, 6, 0, 0, 0]);
    assert p[0..] == p;
  }

  /** A number written after `before` is read back from there. */
  lemma Be32At(p: seq<Byte>, before: seq<Byte>, n: nat, after: seq<Byte>)
    requires n < 0x1_0000_0000 && p == before + Be32(n) + after
    ensures FromBe32(p[|before|..]) == n
  {
    Be32RoundTrip(n);
    assert p[|before|..] == Be32(n) + after;
    FirstFour(Be32(n), after);
  }

  lemma FirstFour(s: seq<Byte>, after: seq<Byte>)
    requires |s| == 4
    ensures FromBe32(s + after) == FromBe32(s)
  {
  }

  /** A chunk that is none of those above may be skipped if its name says so. */
  predicate Skippable(kind: seq<Byte>)
    requires |kind| == 4
  {
    kind == PLTE || kind[0] / 32 % 2 == 1
  }

  type Checksum = seq<Byte> -> nat

  /** After a chunk the loop goes on, or it stops with a result. */
  datatype Step = Next(size: Option<Size>, compressed: seq<Byte>) | Stop(r: Result<Content>)

  function Take(kind: seq<Byte>, payload: seq<Byte>, size: Option<Size>, compressed: seq<Byte>): Step
    requires |kind| == 4
  {
    if size == None && kind != IHDR then Stop(Rejected)
    else if kind == IHDR then
      if size != None || |payload| != 13 || ReadHeader(payload) == None then Stop(Rejected)
      else Next(ReadHeader(payload), compressed)
    else if kind == IDAT then Next(size, compressed + payload)
    else if kind == IEND then
      Stop(if payload != [] || compressed == [] then Rejected else Ok(Content(size.value, compressed)))
    else if !Skippable(kind) then Stop(Rejected)
    else Next(size, compressed)
  }

  /** The chunk loop, on what is left of the file. */
  function Scan(rest: seq<Byte>, crc: Checksum, size: Option<Size>, compressed: seq<Byte>): Result<Content>
    decreases |rest|
  {
    if |rest| < 12 || |rest| < 12 + FromBe32(rest) then Rejected
    else
      var end := 8 + FromBe32(rest);
      if crc(rest[4..end]) != FromBe32(rest[end..]) then Rejected
      else match Take(rest[4..8], rest[8..end], size, compressed)
        case Stop(r) => r
        case Next(size', compressed') => Scan(rest[end + 4..], crc, size', compressed')
  }

  method ReadChunks(data: seq<Byte>, crc: Checksum) returns (r: Result<Content>)
    ensures r == if |data| < 8 || data[..8] != SIGNATURE then Rejected else Scan(data[8..], crc, None, [])
  {
    if |data| < 8 || data[..8] != SIGNATURE {
      return Rejected;
    }
    r := ReadAfterSignature(data, crc, Scan(data[8..], crc, None, []));
  }

  method ReadAfterSignature(data: seq<Byte>, crc: Checksum, ghost goal: Result<Content>) returns (r: Result<Content>)
    requires |data| >= 8 && Owed(goal, data, 8, crc, None, [])
    ensures r == goal
  {
    var offset, size, compressed := 8, None, [];
    while offset < |data|
      invariant 8 <= offset <= |data| && Owed(goal, data, offset, crc, size, compressed)
    {
      var step, next := NextChunk(goal, data, crc, offset, size, compressed);
      match step {
        case Stop(r') => return r';
        case Next(size', compressed') => size, compressed, offset := size', compressed', next;
      }
    }
    assert Opened(0);
    r := Rejected;
  }

  method NextChunk(ghost goal: Result<Content>, data: seq<Byte>, crc: Checksum, offset: nat, size: Option<Size>, compressed: seq<Byte>)
    returns (step: Step, next: nat)
    requires offset < |data| && Owed(goal, data, offset, crc, size, compressed)
    ensures match step
            case Stop(r) => r == goal
            case Next(size', compressed') => offset < next <= |data| && Owed(goal, data, next, crc, size', compressed')
  {
    var end := ChunkEnd(goal, data, crc, offset, size, compressed);
    if end == 0 {
      return Stop(Rejected), 0;
    }
    next := end + 4;
    ghost var kind, payload := data[offset + 4..offset + 8], data[offset + 8..end];
    step := TakeChunk(data[offset + 4..offset + 8], data[offset + 8..end], size, compressed);
    AfterTake(goal, data, next, crc, kind, payload, size, compressed, step);
  }

  /** The same after one chunk; sealed. */
  ghost predicate OwedAfter(goal: Result<Content>, data: seq<Byte>, next: nat, crc: Checksum,
                            kind: seq<Byte>, payload: seq<Byte>, size: Option<Size>, compressed: seq<Byte>)
    requires |kind| == 4 && next <= |data|
  {
    forall o: nat {:trigger Opened(o)} :: Opened(o) ==>
      match Take(kind, payload, size, compressed)
      case Stop(r) => goal == r
      case Next(size', compressed') => Owed(goal, data, next, crc, size', compressed')
  }

  ghost predicate Taken(step: Step, kind: seq<Byte>, payload: seq<Byte>, size: Option<Size>, compressed: seq<Byte>)
    requires |kind| == 4
  {
    forall o: nat {:trigger Opened(o)} :: Opened(o) ==> step == Take(kind, payload, size, compressed)
  }

  lemma AfterTake(goal: Result<Content>, data: seq<Byte>, next: nat, crc: Checksum,
                  kind: seq<Byte>, payload: seq<Byte>, size: Option<Size>, compressed: seq<Byte>, step: Step)
    requires |kind| == 4 && next <= |data| && OwedAfter(goal, data, next, crc, kind, payload, size, compressed)
    requires Taken(step, kind, payload, size, compressed)
    ensures match step
            case Stop(r) => r == goal
            case Next(size', compressed') => Owed(goal, data, next, crc, size', compressed')
  {
    assert Opened(0);
  }

  /** The result is what the rest of the file gives; sealed. */
  ghost predicate Owed(goal: Result<Content>, data: seq<Byte>, offset: nat, crc: Checksum, size: Option<Size>, compressed: seq<Byte>)
    requires offset <= |data|
  {
    forall o: nat {:trigger Opened(o)} :: Opened(o) ==> goal == Scan(data[offset..], crc, size, compressed)
  }

  /** Where the payload of the chunk ends; 0 if the chunk is cut off or its checksum is wrong. */
  method ChunkEnd(ghost goal: Result<Content>, data: seq<Byte>, crc: Checksum, offset: nat, ghost size: Option<Size>, ghost compressed: seq<Byte>)
    returns (end: nat)
    requires offset < |data| && Owed(goal, data, offset, crc, size, compressed)
    ensures end == 0 ==> goal == Rejected
    ensures end != 0 ==> offset + 8 <= end && end + 4 <= |data|
    ensures end != 0 ==> OwedAfter(goal, data, end + 4, crc, data[offset + 4..offset + 8], data[offset + 8..end], size, compressed)
  {
    assert Opened(0);
    if offset + 12 > |data| {
      return 0;
    }
    Prefix32(data, offset);
    end := offset + 8 + FromBe32(data[offset..offset + 4]);
    if end + 4 > |data| {
      return 0;
    }
    Slices(data, offset, end);
    if crc(data[offset + 4..end]) != FromBe32(data[end..end + 4]) {
      return 0;
    }
  }

  method TakeChunk(kind: seq<Byte>, payload: seq<Byte>, size: Option<Size>, compressed: seq<Byte>) returns (step: Step)
    requires |kind| == 4
    ensures Taken(step, kind, payload, size, compressed)
  {
    if size == None && kind != IHDR {
      return Stop(Rejected);
    }
    step := Next(size, compressed);
    if kind == IHDR {
      if size != None || |payload| != 13 {
        return Stop(Rejected);
      }
      var header := ReadHeader(payload);
      step := if header == None then Stop(Rejected) else Next(header, compressed);
    } else if kind == IDAT {
      step := Next(size, compressed + payload);
    } else if kind == IEND {
      step := Stop(if |payload| > 0 || compressed == [] then Rejected else Ok(Content(size.value, compressed)));
    } else if !Skippable(kind) {
      step := Stop(Rejected);
    }
  }

  lemma Prefix32(data: seq<Byte>, offset: nat)
    requires offset + 4 <= |data|
    ensures FromBe32(data[offset..]) == FromBe32(data[offset..offset + 4])
  {
  }

  lemma Slices(data: seq<Byte>, offset: nat, end: nat)
    requires offset + 8 <= end && end + 4 <= |data|
    ensures var rest := data[offset..];
            && FromBe32(rest) == FromBe32(data[offset..offset + 4]) && rest[4..8] == data[offset + 4..offset + 8]
            && rest[8..end - offset] == data[offset + 8..end] && rest[4..end - offset] == data[offset + 4..end]
            && FromBe32(rest[end - offset..]) == FromBe32(data[end..end + 4])
            && rest[end - offset + 4..] == data[end + 4..]
  {
  }

  // ---- writing ----

  datatype Chunk = Chunk(kind: seq<Byte>, payload: seq<Byte>)

  function Write(c: Chunk, crc: Checksum): seq<Byte> {
    Be32(|c.payload|) + c.kind + c.payload + Be32(crc(c.kind + c.payload))
  }

  function WriteAll(cs: seq<Chunk>, crc: Checksum): seq<Byte> {
    if cs == [] then [] else Write(cs[0], crc) + WriteAll(cs[1..], crc)
  }

  ghost predicate ChunkOk(c: Chunk, crc: Checksum) {
    |c.kind| == 4 && |c.payload| < 0x1_0000_0000 && crc(c.kind + c.payload) < 0x1_0000_0000
  }

  /** Image data, a palette, or an ancillary chunk. */
  ghost predicate Inner(c: Chunk) {
    |c.kind| == 4 && c.kind != IHDR && c.kind != IEND && (c.kind == IDAT || Skippable(c.kind))
  }

  /** The compressed data: all IDAT payloads, in order. */
  function ImageData(cs: seq<Chunk>): seq<Byte> {
    if cs == [] then [] else (if cs[0].kind == IDAT then cs[0].payload else []) + ImageData(cs[1..])
  }

  /** The first chunk of a file, taken apart again. */
  lemma ReadWritten(c: Chunk, crc: Checksum, tail: seq<Byte>)
    requires ChunkOk(c, crc)
    ensures var rest, end := Write(c, crc) + tail, 8 + |c.payload|;
            && |rest| >= 12 + |c.payload| && FromBe32(rest) == |c.payload| && rest[4..8] == c.kind && rest[8..end] == c.payload
            && rest[4..end] == c.kind + c.payload && FromBe32(rest[end..]) == crc(c.kind + c.payload) && rest[end + 4..] == tail
  {
    var rest := Write(c, crc) + tail;
    var size, sum := Be32(|c.payload|), Be32(crc(c.kind + c.payload));
    Pieces(size, c.kind, c.payload, sum, tail);
    assert rest == size + c.kind + c.payload + sum + tail && rest[0..] == rest;
    assert [] + size + (c.kind + c.payload + sum + tail) == rest;
    Be32At(rest, [], |c.payload|, c.kind + c.payload + sum + tail);
    Be32At(rest, size + c.kind + c.payload, crc(c.kind + c.payload), tail);
  }

  lemma Pieces(size: seq<Byte>, kind: seq<Byte>, payload: seq<Byte>, sum: seq<Byte>, tail: seq<Byte>)
    requires |size| == |kind| == |sum| == 4
    ensures var rest, end := size + kind + payload + sum + tail, 8 + |payload|;
            && |rest| >= end + 4 && rest[4..8] == kind && rest[8..end] == payload
            && rest[4..end] == kind + payload && rest[end + 4..] == tail
  {
  }

  lemma {:induction false} ScanInner(cs: seq<Chunk>, crc: Checksum, size: Size, compressed: seq<Byte>, tail: seq<Byte>)
    requires forall i :: 0 <= i < |cs| ==> ChunkOk(cs[i], crc) && Inner(cs[i])
    ensures Scan(WriteAll(cs, crc) + tail, crc, Some(size), compressed) == Scan(tail, crc, Some(size), compressed + ImageData(cs))
    decreases |cs|
  {
    if cs == [] {
      assert WriteAll(cs, crc) + tail == tail && compressed + ImageData(cs) == compressed;
    } else {
      var later := WriteAll(cs[1..], crc) + tail;
      var data := if cs[0].kind == IDAT then cs[0].payload else [];
      Regroup(Write(cs[0], crc), WriteAll(cs[1..], crc), tail);
      ScanOne(cs[0], crc, size, compressed, later);
      ScanInner(cs[1..], crc, size, compressed + data, tail);
      Regroup(compressed, data, ImageData(cs[1..]));
    }
  }

  lemma Regroup(a: seq<Byte>, b: seq<Byte>, c: seq<Byte>)
    ensures a + b + c == a + (b + c)
  {
  }

  lemma ScanOne(c: Chunk, crc: Checksum, size: Size, compressed: seq<Byte>, tail: seq<Byte>)
    requires ChunkOk(c, crc) && Inner(c)
    ensures Scan(Write(c, crc) + tail, crc, Some(size), compressed) ==
            Scan(tail, crc, Some(size), compressed + if c.kind == IDAT then c.payload else [])
  {
    ReadWritten(c, crc, tail);
    assert compressed + [] == compressed;
    assert Take(c.kind, c.payload, Some(size), compressed) ==
           Next(Some(size), compressed + if c.kind == IDAT then c.payload else []);
  }

  /** Sealed: what a file needs to be well formed. Dimensions, chunk lengths and checksums fit in
    * four bytes, there is image data, and between header and end stand only such chunks as may. */
  ghost predicate Writable(size: Size, cs: seq<Chunk>, crc: Checksum) {
    forall o: nat {:trigger Opened(o)} :: Opened(o) ==>
      && 0 < size.width < 0x1_0000_0000 && 0 < size.height < 0x1_0000_0000 && ImageData(cs) != []
      && (forall i :: 0 <= i < |cs| ==> ChunkOk(cs[i], crc) && Inner(cs[i]))
      && ChunkOk(Chunk(IHDR, WriteHeader(size)), crc) && ChunkOk(Chunk(IEND, []), crc)
  }

  function WriteFile(size: Size, cs: seq<Chunk>, crc: Checksum): seq<Byte> {
    SIGNATURE + (Write(Chunk(IHDR, WriteHeader(size)), crc) + (WriteAll(cs, crc) + Write(Chunk(IEND, []), crc)))
  }

  /** However the compressed data is cut into IDAT chunks, and whatever optional chunks lie between
    * them, reading the file puts it together again. */
  lemma ContainerRoundTrip(size: Size, cs: seq<Chunk>, crc: Checksum)
    requires Writable(size, cs, crc)
    ensures var data := WriteFile(size, cs, crc);
            |data| >= 8 && data[..8] == SIGNATURE && Scan(data[8..], crc, None, []) == Ok(Content(size, ImageData(cs)))
  {
    assert Opened(0);
    var data, last := WriteFile(size, cs, crc), Write(Chunk(IEND, []), crc);
    var inner := WriteAll(cs, crc) + last;
    assert data[..8] == SIGNATURE && data[8..] == Write(Chunk(IHDR, WriteHeader(size)), crc) + inner;
    ScanHeader(size, crc, inner);
    ScanInner(cs, crc, size, [], last);
    assert [] + ImageData(cs) == ImageData(cs);
    ScanEnd(size, crc, ImageData(cs));
  }

  lemma ScanHeader(size: Size, crc: Checksum, tail: seq<Byte>)
    requires 0 < size.width < 0x1_0000_0000 && 0 < size.height < 0x1_0000_0000
    requires ChunkOk(Chunk(IHDR, WriteHeader(size)), crc)
    ensures Scan(Write(Chunk(IHDR, WriteHeader(size)), crc) + tail, crc, None, []) == Scan(tail, crc, Some(size), [])
  {
    HeaderRoundTrip(size);
    ReadWritten(Chunk(IHDR, WriteHeader(size)), crc, tail);
    assert Take(IHDR, WriteHeader(size), None, []) == Next(Some(size), []);
  }

  lemma ScanEnd(size: Size, crc: Checksum, compressed: seq<Byte>)
    requires ChunkOk(Chunk(IEND, []), crc) && compressed != []
    ensures Scan(Write(Chunk(IEND, []), crc), crc, Some(size), compressed) == Ok(Content(size, compressed))
  {
    var last := Write(Chunk(IEND, []), crc);
    assert last + [] == last;
    ReadWritten(Chunk(IEND, []), crc, []);
    assert Take(IEND, [], Some(size), compressed) == Stop(Ok(Content(size, compressed)));
  }

  // ---- what is accepted ----

  lemma Be32Back(s: seq<Byte>)
    requires |s| >= 4
    ensures FromBe32(s) < 0x1_0000_0000 && Be32(FromBe32(s)) == s[..4]
  {
    var n, a, b := FromBe32(s), s[0] as nat, s[0] as nat * 0x100 + s[1];
    var c := b * 0x100 + s[2];
    assert n == c * 0x100 + s[3] && n / 0x100 == c;
    assert n == b * 0x1_0000 + (s[2] as nat * 0x100 + s[3]) && n / 0x1_0000 == b;
    assert n == a * 0x100_0000 + (s[1] as nat * 0x1_0000 + s[2] as nat * 0x100 + s[3]) && n / 0x100_0000 == a;
  }

  lemma HeaderBack(p: seq<Byte>)
    requires |p| == 13 && ReadHeader(p).Some?
    ensures var size := ReadHeader(p).value;
            0 < size.width < 0x1_0000_0000 && 0 < size.height < 0x1_0000_0000 && p == WriteHeader(size)
  {
    Be32Back(p);
    Be32Back(p[4..]);
    assert p[4..][..4] == p[4..8] && p == p[..4] + p[4..8] + p[8..];
    assert p[8..] == [8, 6, 0, 0, 0];
  }

  /** A chunk whose checksum is right was written. */
  lemma ChunkBack(rest: seq<Byte>, crc: Checksum) returns (c: Chunk)
    requires |rest| >= 12 && |rest| >= 12 + FromBe32(rest)
    requires var end := 8 + FromBe32(rest); crc(rest[4..end]) == FromBe32(rest[end..])
    ensures var end := 8 + FromBe32(rest);
            && c == Chunk(rest[4..8], rest[8..end]) && ChunkOk(c, crc) && rest == Write(c, crc) + rest[end + 4..]
  {
    var end := 8 + FromBe32(rest);
    c := Chunk(rest[4..8], rest[8..end]);
    Be32Back(rest);
    Be32Back(rest[end..]);
    assert c.kind + c.payload == rest[4..end] && rest[end..][..4] == rest[end..end + 4];
    assert rest == rest[..4] + rest[4..8] + rest[8..end] + rest[end..end + 4] + rest[end + 4..];
  }

  /** Behind the header everything up to IEND is chunks that may stand there. */
  lemma {:induction false} AcceptedInner(rest: seq<Byte>, crc: Checksum, size: Size, compressed: seq<Byte>)
    returns (cs: seq<Chunk>, tail: seq<Byte>)
    requires Scan(rest, crc, Some(size), compressed).Ok?
    ensures rest == WriteAll(cs, crc) + (Write(Chunk(IEND, []), crc) + tail) && ChunkOk(Chunk(IEND, []), crc)
    ensures forall i :: 0 <= i < |cs| ==> ChunkOk(cs[i], crc) && Inner(cs[i])
    ensures compressed + ImageData(cs) != []
    ensures Scan(rest, crc, Some(size), compressed) == Ok(Content(size, compressed + ImageData(cs)))
    decreases |rest|
  {
    var end := 8 + FromBe32(rest);
    var c := ChunkBack(rest, crc);
    if c.kind == IEND {
      cs, tail := [], rest[end + 4..];
      LastChunk(rest, crc, size, compressed, c);
      assert WriteAll(cs, crc) + rest == rest;
    } else {
      var data := if c.kind == IDAT then c.payload else [];
      var later;
      InnerChunk(rest, crc, size, compressed, c);
      later, tail := AcceptedInner(rest[end + 4..], crc, size, compressed + data);
      cs := [c] + later;
      MoreChunks(c, later, crc, Write(Chunk(IEND, []), crc) + tail);
      Regroup(compressed, data, ImageData(later));
    }
  }

  lemma InnerChunk(rest: seq<Byte>, crc: Checksum, size: Size, compressed: seq<Byte>, c: Chunk)
    requires Scan(rest, crc, Some(size), compressed).Ok?
    requires c == Chunk(rest[4..8], rest[8..8 + FromBe32(rest)]) && c.kind != IEND
    ensures Inner(c)
    ensures Scan(rest, crc, Some(size), compressed) ==
            Scan(rest[8 + FromBe32(rest) + 4..], crc, Some(size), compressed + if c.kind == IDAT then c.payload else [])
  {
    assert compressed + [] == compressed;
  }

  lemma LastChunk(rest: seq<Byte>, crc: Checksum, size: Size, compressed: seq<Byte>, c: Chunk)
    requires Scan(rest, crc, Some(size), compressed).Ok?
    requires c == Chunk(rest[4..8], rest[8..8 + FromBe32(rest)]) && c.kind == IEND
    ensures c == Chunk(IEND, []) && compressed + ImageData([]) != []
    ensures Scan(rest, crc, Some(size), compressed) == Ok(Content(size, compressed + ImageData([])))
  {
    assert compressed + [] == compressed;
  }

  lemma MoreChunks(c: Chunk, later: seq<Chunk>, crc: Checksum, tail: seq<Byte>)
    ensures WriteAll([c] + later, crc) + tail == Write(c, crc) + (WriteAll(later, crc) + tail)
    ensures ImageData([c] + later) == (if c.kind == IDAT then c.payload else []) + ImageData(later)
  {
    assert ([c] + later)[1..] == later;
    Regroup(Write(c, crc), WriteAll(later, crc), tail);
  }

  /** The converse of the round trip: whatever the reader accepts is a file that was written like this, with
    * nothing wrong in it up to IEND, and it delivers what that file holds. */
  lemma Accepted(data: seq<Byte>, crc: Checksum) returns (cs: seq<Chunk>, tail: seq<Byte>)
    requires |data| >= 8 && data[..8] == SIGNATURE && Scan(data[8..], crc, None, []).Ok?
    ensures var content := Scan(data[8..], crc, None, []).value;
            && Writable(content.size, cs, crc) && data == WriteFile(content.size, cs, crc) + tail
            && content.compressed == ImageData(cs)
  {
    var rest := data[8..];
    var end := 8 + FromBe32(rest);
    var c := ChunkBack(rest, crc);
    var size := FirstChunk(rest, crc, c);
    cs, tail := AcceptedInner(rest[end + 4..], crc, size, []);
    NothingBefore(ImageData(cs));
    IsWritable(size, cs, crc);
    FromParts(data);
    Parts(SIGNATURE, Write(c, crc), WriteAll(cs, crc), Write(Chunk(IEND, []), crc), tail);
  }

  lemma NothingBefore(a: seq<Byte>)
    ensures [] + a == a
  {
  }

  lemma FromParts(data: seq<Byte>)
    requires |data| >= 8
    ensures data == data[..8] + data[8..]
  {
  }

  lemma IsWritable(size: Size, cs: seq<Chunk>, crc: Checksum)
    requires 0 < size.width < 0x1_0000_0000 && 0 < size.height < 0x1_0000_0000 && ImageData(cs) != []
    requires forall i :: 0 <= i < |cs| ==> ChunkOk(cs[i], crc) && Inner(cs[i])
    requires ChunkOk(Chunk(IHDR, WriteHeader(size)), crc) && ChunkOk(Chunk(IEND, []), crc)
    ensures Writable(size, cs, crc)
  {
  }

  lemma Parts(a: seq<Byte>, b: seq<Byte>, c: seq<Byte>, d: seq<Byte>, e: seq<Byte>)
    ensures a + (b + (c + (d + e))) == a + (b + (c + d)) + e
  {
    Regroup(c, d, e);
    Regroup(b, c + d, e);
    Regroup(a, b + (c + d), e);
  }

  lemma FirstChunk(rest: seq<Byte>, crc: Checksum, c: Chunk) returns (size: Size)
    requires Scan(rest, crc, None, []).Ok?
    requires c == Chunk(rest[4..8], rest[8..8 + FromBe32(rest)])
    ensures 0 < size.width < 0x1_0000_0000 && 0 < size.height < 0x1_0000_0000 && c == Chunk(IHDR, WriteHeader(size))
    ensures Scan(rest, crc, None, []) == Scan(rest[8 + FromBe32(rest) + 4..], crc, Some(size), [])
  {
    HeaderBack(c.payload);
    size := ReadHeader(c.payload).value;
  }

  /** `read_png`; `inflate` is the decompressor. */
  method ReadPng(data: seq<Byte>, crc: Checksum, inflate: seq<Byte> -> Result<seq<Byte>>) returns (r: Result<Image>)
    ensures r == Decoded(data, crc, inflate)
  {
    var content := ReadChunks(data, crc);
    if content == Rejected {
      return Rejected;
    }
    var size := content.value.size;
    var raw := inflate(content.value.compressed);
    if raw == Rejected {
      return Rejected;
    }
    var pixels := Rebuild(raw.value, size.width, size.height);
    r := if pixels == Rejected then Rejected else Ok(Image(size, pixels.value));
  }

  ghost function Decoded(data: seq<Byte>, crc: Checksum, inflate: seq<Byte> -> Result<seq<Byte>>): Result<Image> {
    if |data| < 8 || data[..8] != SIGNATURE then Rejected
    else match Scan(data[8..], crc, None, [])
      case Rejected => Rejected
      case Ok(content) =>
        match inflate(content.compressed)
        case Rejected => Rejected
        case Ok(raw) => Pixels(raw, content.size)
  }

  ghost function Pixels(raw: seq<Byte>, size: Size): Result<Image> {
    if |raw| != size.height * (4 * size.width + 1) then Rejected
    else match UnfilterImage(raw, 4 * size.width, size.height, [])
      case Rejected => Rejected
      case Ok(pixels) => Ok(Image(size, pixels))
  }

  lemma {:induction false} FilteredSize(rows: seq<seq<Byte>>, filters: seq<Byte>, stride: nat, prev: seq<Byte>)
    requires |filters| == |rows| && forall y :: 0 <= y < |rows| ==> |rows[y]| == stride
    ensures |FilterImage(rows, filters, prev)| == Lines(|rows|, stride + 1)
  {
    if rows != [] {
      FilteredSize(rows[1..], filters[1..], stride, rows[0]);
    }
  }

  /** From an image to a file and back: for every RGBA image, every choice of filters line by line,
    * every way to compress the lines and to cut the result into chunks. */
  lemma PngRoundTrip(size: Size, rows: seq<seq<Byte>>, filters: seq<Byte>, cs: seq<Chunk>, crc: Checksum,
                     inflate: seq<Byte> -> Result<seq<Byte>>)
    requires Writable(size, cs, crc)
    requires |rows| == |filters| == size.height
    requires forall y :: 0 <= y < |rows| ==> |rows[y]| == 4 * size.width && filters[y] <= 4
    requires inflate(ImageData(cs)) == Ok(FilterImage(rows, filters, []))
    ensures Decoded(WriteFile(size, cs, crc), crc, inflate) == Ok(Image(size, Flatten(rows)))
  {
    ContainerRoundTrip(size, cs, crc);
    PixelsRoundTrip(size, rows, filters);
  }

  lemma PixelsRoundTrip(size: Size, rows: seq<seq<Byte>>, filters: seq<Byte>)
    requires |rows| == |filters| == size.height
    requires forall y :: 0 <= y < |rows| ==> |rows[y]| == 4 * size.width && filters[y] <= 4
    ensures Pixels(FilterImage(rows, filters, []), size) == Ok(Image(size, Flatten(rows)))
  {
    ImageRoundTrip(rows, filters, 4 * size.width, []);
    FilteredSize(rows, filters, 4 * size.width, []);
    LinesAre(size.height, 4 * size.width + 1);
  }
}
