/** Scanline reconstruction of 8-bit RGBA PNG files (section 6 of RFC 2083). */
module Png {
  import opened Basics
  import opened Words

  datatype Result<T> = Ok(value: T) | Rejected

  const BPP: nat := 4

  /** The byte at x, or 0 before the line. */
  function At(row: seq<Byte>, x: int): Byte {
    if 0 <= x < |row| then row[x] else 0
  }

  /** The predictor of the standard: of left, up and upper left the one nearest to
      left + up - upper left, in that order of preference. */
  function PaethPredictor(a: int, b: int, c: int): int {
    var pa, pb, pc := Abs(b - c), Abs(a - c), Abs(a + b - 2 * c);
    if pa <= pb && pa <= pc then a else if pb <= pc then b else c
  }

  function Predictor(filter: nat, left: Byte, up: Byte, upperLeft: Byte): int {
    match filter
    case 0 => 0
    case 1 => left
    case 2 => up
    case 3 => (left + up) / 2
    case _ => PaethPredictor(left, up, upperLeft)
  }

  /** What an encoder stores for a line, given the line above. */
  function FilterRow(row: seq<Byte>, prev: seq<Byte>, filter: nat): (r: seq<Byte>)
    ensures |r| == |row|
  {
    seq(|row|, x requires 0 <= x < |row| =>
      (row[x] - Predictor(filter, At(row, x - BPP), At(prev, x), At(prev, x - BPP))) % 256)
  }

  /** The five filters of the standard, byte by byte: None, Sub, Up, Average and Paeth. Before the line,
      and above the first one, stand zeros. */
  lemma FiltersAreStandard(row: seq<Byte>, prev: seq<Byte>, x: nat)
    requires x < |row| && (prev == [] || |prev| == |row|)
    ensures var left := if x >= 4 then row[x - 4] as int else 0;
            var up := if prev != [] then prev[x] as int else 0;
            var corner := if prev != [] && x >= 4 then prev[x - 4] as int else 0;
            && FilterRow(row, prev, 0)[x] == row[x]
            && FilterRow(row, prev, 1)[x] == (row[x] - left) % 256
            && FilterRow(row, prev, 2)[x] == (row[x] - up) % 256
            && FilterRow(row, prev, 3)[x] == (row[x] - (left + up) / 2) % 256
            && FilterRow(row, prev, 4)[x] == (row[x] - PaethPredictor(left, up, corner)) % 256
  {
    FilteredAt(row, prev, 0, x);
    FilteredAt(row, prev, 1, x);
    FilteredAt(row, prev, 2, x);
    FilteredAt(row, prev, 3, x);
    FilteredAt(row, prev, 4, x);
  }

  lemma FilteredAt(row: seq<Byte>, prev: seq<Byte>, filter: nat, x: nat)
    requires x < |row|
    ensures FilterRow(row, prev, filter)[x] == (row[x] - Predictor(filter, At(row, x - BPP), At(prev, x), At(prev, x - BPP))) % 256
  {
  }

  /** The Paeth predictor is one of the three, as near to left + up - corner as any; between equally near
      ones left goes before up, and up before the corner. */
  lemma PaethIsNearest(left: int, up: int, corner: int)
    ensures var p, r := left + up - corner, PaethPredictor(left, up, corner);
            && (r == left || r == up || r == corner)
            && Abs(p - r) <= Abs(p - left) && Abs(p - r) <= Abs(p - up) && Abs(p - r) <= Abs(p - corner)
            && (Abs(p - left) == Abs(p - r) ==> r == left)
            && (Abs(p - up) == Abs(p - r) && Abs(p - left) != Abs(p - r) ==> r == up)
  {
  }

  /** The first n bytes of a line from what is stored, left to right. */
  function UnfilterRow(stored: seq<Byte>, prev: seq<Byte>, filter: nat, n: nat): (r: seq<Byte>)
    requires n <= |stored|
    ensures |r| == n
  {
    if n == 0 then []
    else
      var r := UnfilterRow(stored, prev, filter, n - 1);
      r + [(stored[n - 1] + Predictor(filter, At(r, n - 1 - BPP), At(prev, n - 1), At(prev, n - 1 - BPP))) % 256]
  }

  lemma {:induction false} RowRoundTrip(row: seq<Byte>, prev: seq<Byte>, filter: nat, n: nat)
    requires n <= |row|
    ensures UnfilterRow(FilterRow(row, prev, filter), prev, filter, n) == row[..n]
  {
    if n > 0 {
      RowRoundTrip(row, prev, filter, n - 1);
      assert At(row[..n - 1], n - 1 - BPP) == At(row, n - 1 - BPP);
      var p := Predictor(filter, At(row, n - 1 - BPP), At(prev, n - 1), At(prev, n - 1 - BPP));
      ModRoundTrip(row[n - 1], p);
    }
  }

  lemma ModRoundTrip(b: Byte, p: int)
    ensures ((b - p) % 256 + p) % 256 == b
  {
  }

  /** A whole image: each line behind its filter type. */
  function FilterImage(rows: seq<seq<Byte>>, filters: seq<Byte>, prev: seq<Byte>): seq<Byte>
    requires |filters| == |rows|
  {
    if rows == [] then []
    else [filters[0]] + FilterRow(rows[0], prev, filters[0]) + FilterImage(rows[1..], filters[1..], rows[0])
  }

  function Flatten(rows: seq<seq<Byte>>): seq<Byte> {
    if rows == [] then [] else rows[0] + Flatten(rows[1..])
  }

  /** The pixels of `height` stored lines, or a rejection of an unknown filter type. */
  function UnfilterImage(raw: seq<Byte>, stride: nat, height: nat, prev: seq<Byte>): Result<seq<Byte>>
    decreases height
  {
    if height == 0 then Ok([])
    else if |raw| < stride + 1 || raw[0] > 4 then Rejected
    else
      var row := UnfilterRow(raw[1..stride + 1], prev, raw[0], stride);
      match UnfilterImage(raw[stride + 1..], stride, height - 1, row)
      case Ok(rest) => Ok(row + rest)
      case Rejected => Rejected
  }

  /** Whatever filters an encoder picked, reconstruction returns the image. */
  lemma {:induction false} ImageRoundTrip(rows: seq<seq<Byte>>, filters: seq<Byte>, stride: nat, prev: seq<Byte>)
    requires |filters| == |rows| && (forall y :: 0 <= y < |rows| ==> |rows[y]| == stride && filters[y] <= 4)
    ensures UnfilterImage(FilterImage(rows, filters, prev), stride, |rows|, prev) == Ok(Flatten(rows))
  {
    if rows != [] {
      var stored, tail := FilterRow(rows[0], prev, filters[0]), FilterImage(rows[1..], filters[1..], rows[0]);
      var raw := FilterImage(rows, filters, prev);
      assert raw == [filters[0]] + stored + tail;
      assert raw[1..stride + 1] == stored && raw[stride + 1..] == tail;
      RowRoundTrip(rows[0], prev, filters[0], stride);
      assert rows[0][..stride] == rows[0];
      ImageRoundTrip(rows[1..], filters[1..], stride, rows[0]);
    }
  }

  // ---------------------------------------------------------------------
  // The reconstruction loop
  // ---------------------------------------------------------------------

  /** The index of the smallest of three distances, first one on ties. */
  method FirstSmallest(d0: nat, d1: nat, d2: nat) returns (k: nat)
    ensures k == if d0 <= d1 && d0 <= d2 then 0 else if d1 <= d2 then 1 else 2
  {
    var least := if d0 <= d1 && d0 <= d2 then d0 else if d1 <= d2 then d1 else d2;
    k := if d0 == least then 0 else if d1 == least then 1 else 2;
  }

  method Predict(filter: nat, left: Byte, up: Byte, upperLeft: Byte) returns (p: int)
    requires filter <= 4
    ensures p == Predictor(filter, left, up, upperLeft)
  {
    if filter == 0 {
      p := 0;
    } else if filter == 1 {
      p := left;
    } else if filter == 2 {
      p := up;
    } else if filter == 3 {
      p := (left + up) / 2;
    } else {
      var q := left + up - upperLeft;
      var k := FirstSmallest(Abs(q - left), Abs(q - up), Abs(q - upperLeft));
      p := [left, up, upperLeft][k];
    }
  }

  function LineAt(pixels: seq<Byte>, above: int, length: nat): seq<Byte> {
    if 0 <= above && above + length <= |pixels| then pixels[above..above + length] else []
  }

  /** The predictor at x, from pixels to the left in the row and from the line above. */
  method PredictAt(row: array<Byte>, x: nat, pixels: seq<Byte>, above: int, filter: nat) returns (p: int)
    requires filter <= 4 && x < row.Length && (above >= 0 ==> above + row.Length <= |pixels|)
    ensures var prev := LineAt(pixels, above, row.Length);
            p == Predictor(filter, At(row[..x], x - BPP), At(prev, x), At(prev, x - BPP))
  {
    var left := if x >= BPP then row[x - BPP] else 0;
    var up := if above >= 0 then pixels[above + x] else 0;
    var upperLeft := if above >= 0 && x >= BPP then pixels[above + x - BPP] else 0;
    p := Predict(filter, left, up, upperLeft);
  }

  /** One line, rebuilt in place: bytes to the left of x are already pixels. `above` is where the
      previous line starts in `pixels`, if there is one. */
  method RebuildRow(row: array<Byte>, pixels: seq<Byte>, above: int, filter: nat)
    requires filter <= 4 && (above >= 0 ==> above + row.Length <= |pixels|)
    modifies row
    ensures row[..] == UnfilterRow(old(row[..]), LineAt(pixels, above, row.Length), filter, row.Length)
  {
    ghost var stored, prev := row[..], LineAt(pixels, above, row.Length);
    var x := 0;
    while x < row.Length
      invariant 0 <= x <= row.Length
      invariant row[..x] == UnfilterRow(stored, prev, filter, x)
      invariant row[x..] == stored[x..]
    {
      var p := PredictAt(row, x, pixels, above, filter);
      assert row[x] == row[x..][0] == stored[x];
      ghost var rest := row[x + 1..];
      assert rest == row[x..][1..] == stored[x + 1..];
      row[x] := (row[x] + p) % 256;
      assert row[x + 1..] == rest;
      x := x + 1;
    }
    assert row[..x] == row[..];
  }

  /** n lines of k bytes, without a product. */
  function Lines(n: nat, k: nat): nat {
    if n == 0 then 0 else Lines(n - 1, k) + k
  }

  lemma {:induction false} LinesAre(n: nat, k: nat)
    ensures Lines(n, k) == n * k
  {
    if n > 0 {
      LinesAre(n - 1, k);
      assert n * k == (n - 1) * k + k;
    }
  }

  lemma {:induction false} LinesGrow(m: nat, n: nat, k: nat)
    requires m <= n
    ensures Lines(m, k) <= Lines(n, k)
  {
    if m < n { LinesGrow(m, n - 1, k); }
  }

  /** The scanline loop of `read_png`: the decompressed data must hold exactly the lines of the
      image, each with a known filter type. */
  method Rebuild(raw: seq<Byte>, width: nat, height: nat) returns (r: Result<seq<Byte>>)
    ensures r == if |raw| == height * (4 * width + 1) then UnfilterImage(raw, 4 * width, height, []) else Rejected
  {
    var stride := 4 * width;
    if |raw| != height * (stride + 1) { return Rejected; }
    var pixels: seq<Byte> := seq(height * stride, _ => 0);
    LinesAre(height, stride);
    LinesAre(height, stride + 1);
    r := RebuildLines(raw, stride, height, pixels);
  }

  method RebuildLines(raw: seq<Byte>, stride: nat, height: nat, blank: seq<Byte>) returns (r: Result<seq<Byte>>)
    requires |raw| == Lines(height, stride + 1) && |blank| == Lines(height, stride)
    ensures r == UnfilterImage(raw, stride, height, [])
  {
    var pixels := blank;
    ghost var goal := UnfilterImage(raw, stride, height, []);
    NothingDone(raw, stride, height, pixels);
    var y := 0;
    while y < height
      invariant 0 <= y <= height && Progress(goal, raw, stride, height, y, pixels)
    {
      var ok;
      ok, pixels := RebuildLine(goal, raw, stride, height, y, pixels);
      if !ok { return Rejected; }
      y := y + 1;
    }
    assert Opened(0) && pixels[..Lines(y, stride)] + [] == pixels;
    return Ok(pixels);
  }

  /** The first y lines of `pixels` are done; what is left of the raw data gives the others. */
  ghost predicate Progress(goal: Result<seq<Byte>>, raw: seq<Byte>, stride: nat, height: nat, y: nat, pixels: seq<Byte>)
  {
    && y <= height && |raw| == Lines(height, stride + 1) && |pixels| == Lines(height, stride)
    && Lines(y, stride) <= |pixels| && Lines(y, stride + 1) <= |raw|
    && Owed(goal, pixels[..Lines(y, stride)], raw[Lines(y, stride + 1)..], stride, height - y, Above(pixels, y, stride))
  }

  /** The goal is what is done, then what the rest of the raw data gives; sealed. */
  ghost predicate Owed(goal: Result<seq<Byte>>, done: seq<Byte>, rest: seq<Byte>, stride: nat, left: nat, prev: seq<Byte>)
  {
    forall o: nat {:trigger Opened(o)} :: Opened(o) ==> goal == Prepend(done, UnfilterImage(rest, stride, left, prev))
  }

  lemma NothingDone(raw: seq<Byte>, stride: nat, height: nat, pixels: seq<Byte>)
    requires |raw| == Lines(height, stride + 1) && |pixels| == Lines(height, stride)
    ensures Progress(UnfilterImage(raw, stride, height, []), raw, stride, height, 0, pixels)
  {
    assert raw[0..] == raw;
    var r := UnfilterImage(raw, stride, height, []);
    if r.Ok? { assert [] + r.value == r.value; }
  }

  method RebuildLine(ghost goal: Result<seq<Byte>>, raw: seq<Byte>, stride: nat, height: nat, y: nat, pixels: seq<Byte>)
    returns (ok: bool, pixels': seq<Byte>)
    requires y < height && Progress(goal, raw, stride, height, y, pixels)
    ensures ok ==> Progress(goal, raw, stride, height, y + 1, pixels')
    ensures !ok ==> goal.Rejected?
  {
    var start, base, above := Offsets(goal, raw, stride, height, y, pixels);
    var filter := raw[start];
    if filter > 4 {
      assert Opened(0);
      return false, pixels;
    }
    var row := new Byte[stride](i requires 0 <= i < stride => raw[start + 1 + i]);
    assert row[..] == raw[start..][1..stride + 1];
    RebuildRow(row, pixels, above, filter);
    pixels' := Replace(pixels, base, row[..]);
    LineOwed(goal, raw, stride, height - y, Above(pixels, y, stride), pixels, row[..], start, base);
    LineProgress(goal, raw, stride, height, y, pixels, row[..], start, base, above);
    return true, pixels';
  }

  /** Where line y starts in the raw data and in the pixels, and the line above it (-1 for none). */
  method Offsets(ghost goal: Result<seq<Byte>>, raw: seq<Byte>, stride: nat, height: nat, y: nat, pixels: seq<Byte>)
    returns (start: nat, base: nat, above: int)
    requires y < height && Progress(goal, raw, stride, height, y, pixels)
    ensures Placed(raw, stride, y, pixels, start, base, above)
  {
    LinesGrow(y + 1, height, stride);
    LinesGrow(y + 1, height, stride + 1);
    LinesAre(y, stride);
    LinesAre(y, stride + 1);
    start, base, above := y * (stride + 1), y * stride, -1;
    if y > 0 {
      LinesAre(y - 1, stride);
      above := (y - 1) * stride;
    }
  }

  predicate Placed(raw: seq<Byte>, stride: nat, y: nat, pixels: seq<Byte>, start: nat, base: nat, above: int) {
    && start == Lines(y, stride + 1) && start + stride + 1 <= |raw|
    && base == Lines(y, stride) && base + stride <= |pixels|
    && above == if y == 0 then -1 else Lines(y - 1, stride)
  }

  lemma LineProgress(goal: Result<seq<Byte>>, raw: seq<Byte>, stride: nat, height: nat, y: nat, pixels: seq<Byte>, row: seq<Byte>,
                     start: nat, base: nat, above: int)
    requires y < height && |raw| == Lines(height, stride + 1) && |pixels| == Lines(height, stride) && |row| == stride
    requires Placed(raw, stride, y, pixels, start, base, above)
    requires Owed(goal, Replace(pixels, base, row)[..base + stride], raw[start + (stride + 1)..], stride, height - (y + 1), row)
    ensures Progress(goal, raw, stride, height, y + 1, Replace(pixels, base, row))
  {
    LinesNext(y, stride);
    LinesNext(y, stride + 1);
    AboveNext(pixels, y, stride, base, row);
    assert start + (stride + 1) == Lines(y + 1, stride + 1) && base + stride == Lines(y + 1, stride);
  }

  lemma LinesNext(n: nat, k: nat)
    ensures Lines(n + 1, k) == Lines(n, k) + k
  {
  }

  lemma LineOwed(goal: Result<seq<Byte>>, raw: seq<Byte>, stride: nat, left: nat, prev: seq<Byte>, pixels: seq<Byte>, row: seq<Byte>,
                 start: nat, base: nat)
    requires left > 0 && start + stride + 1 <= |raw| && raw[start] <= 4 && |row| == stride && base + stride <= |pixels|
    requires Owed(goal, pixels[..base], raw[start..], stride, left, prev)
    requires row == UnfilterRow(raw[start..][1..stride + 1], prev, raw[start], stride)
    ensures Owed(goal, Replace(pixels, base, row)[..base + stride], raw[start + (stride + 1)..], stride, left - 1, row)
  {
    Suffix(raw, start, stride + 1);
    Replaced(pixels, base, row);
    LineDone(goal, raw[start..], stride, left, prev, pixels[..base], row,
             raw[start + (stride + 1)..], Replace(pixels, base, row)[..base + stride], row);
  }

  lemma AboveNext(pixels: seq<Byte>, y: nat, stride: nat, base: nat, row: seq<Byte>)
    requires base == Lines(y, stride) && |row| == stride && base + stride <= |pixels|
    ensures Above(Replace(pixels, base, row), y + 1, stride) == row
  {
    Replaced(pixels, base, row);
  }

  lemma Suffix(raw: seq<Byte>, a: nat, b: nat)
    requires a + b <= |raw|
    ensures raw[a..][b..] == raw[a + b..]
  {
  }

  /** Assignment to a slice of the same size. */
  function Replace(s: seq<Byte>, at: nat, t: seq<Byte>): (r: seq<Byte>)
    requires at + |t| <= |s|
    ensures |r| == |s|
  {
    s[..at] + t + s[at + |t|..]
  }

  lemma Replaced(s: seq<Byte>, at: nat, t: seq<Byte>)
    requires at + |t| <= |s|
    ensures Replace(s, at, t)[..at + |t|] == s[..at] + t && Replace(s, at, t)[at..at + |t|] == t
  {
  }

  /** The line above line y. */
  function Above(pixels: seq<Byte>, y: nat, stride: nat): seq<Byte> {
    if y > 0 && Lines(y - 1, stride) + stride <= |pixels|
    then pixels[Lines(y - 1, stride)..Lines(y - 1, stride) + stride] else []
  }

  function Prepend(done: seq<Byte>, r: Result<seq<Byte>>): Result<seq<Byte>> {
    match r case Ok(rest) => Ok(done + rest) case Rejected => Rejected
  }

  lemma LineDone(goal: Result<seq<Byte>>, raw: seq<Byte>, stride: nat, left: nat, prev: seq<Byte>, done: seq<Byte>, row: seq<Byte>,
                 later: seq<Byte>, doneThen: seq<Byte>, prevThen: seq<Byte>)
    requires left > 0 && |raw| >= stride + 1 && raw[0] <= 4 && Owed(goal, done, raw, stride, left, prev)
    requires row == UnfilterRow(raw[1..stride + 1], prev, raw[0], stride)
    requires later == raw[stride + 1..] && doneThen == done + row && prevThen == row
    ensures Owed(goal, doneThen, later, stride, left - 1, prevThen)
  {
    assert Opened(0);
    var r := UnfilterImage(later, stride, left - 1, row);
    if r.Ok? { assert done + (row + r.value) == done + row + r.value; }
  }
}
