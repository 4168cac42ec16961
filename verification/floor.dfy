/** Floor type 1 (sections 7.2.3, 7.2.4 and 9.2.6, 9.2.7 of the Vorbis I specification): the line
    of amplitudes over the spectrum, in integers. */
module Floor {
  import opened Basics
  import opened Words

  /** C division, which drops the fraction. */
  function Quot(a: int, b: int): int
    requires b > 0
  {
    if a >= 0 then a / b else -(-a / b)
  }

  /** The integer point at x of the line from (x0, y0) to (x1, y1). */
  function PredictPoint(x: int, x0: int, x1: int, y0: int, y1: int): int
    requires x0 < x1
  {
    var off := Quot(Abs(y1 - y0) * (x - x0), x1 - x0);
    if y1 - y0 < 0 then y0 - off else y0 + off
  }

  // ---------------------------------------------------------------------
  // Products and quotients
  // ---------------------------------------------------------------------

  lemma MulLess(a: int, b: int, d: int)
    requires a < b && d > 0
    ensures a * d + d <= b * d
  {
    assert (b - a - 1) * d >= 0;
    assert b * d == (b - a - 1) * d + a * d + d;
  }

  lemma DivUnique(x: int, d: int, q: int, r: int)
    requires d > 0 && x == q * d + r && 0 <= r < d
    ensures x / d == q
  {
    var q1 := x / d;
    assert x == q1 * d + x % d;
    if q1 < q { MulLess(q1, q, d); } else if q < q1 { MulLess(q, q1, d); }
  }

  /** An error-accumulating step keeps quotient and remainder of a * k by d. */
  lemma ErrorStep(a: nat, d: int, base: int, rem: int, q: int, err: int, k: int)
    requires d > 0 && a == base * d + rem && a * k == q * d + err
    ensures a * (k + 1) == (q + base) * d + (err + rem)
    ensures a * (k + 1) == (q + base + 1) * d + (err + rem - d)
  {
    assert a * (k + 1) == a * k + a;
    assert (q + base) * d == q * d + base * d;
    assert (q + base + 1) * d == (q + base) * d + d;
  }

  lemma ProductBound(a: nat, k: nat, d: nat)
    requires k <= d
    ensures 0 <= a * k <= a * d
  {
  }

  lemma QuotientBound(m: nat, a: nat, d: nat)
    requires d > 0 && m <= a * d
    ensures 0 <= m / d <= a
  {
    var q := m / d;
    assert m == q * d + m % d;
    if q > a { MulLess(a, q, d); }
  }

  /** The line never leaves the range of its end points. */
  lemma Between(x: int, x0: int, x1: int, y0: int, y1: int)
    requires x0 <= x <= x1 && x0 < x1
    ensures if y0 <= y1 then y0 <= PredictPoint(x, x0, x1, y0, y1) <= y1
            else y1 <= PredictPoint(x, x0, x1, y0, y1) <= y0
  {
    var a: nat, k: nat, d: nat := Abs(y1 - y0), x - x0, x1 - x0;
    ProductBound(a, k, d);
    QuotientBound(a * k, a, d);
  }

  /** The line runs from end to end, and in between it is the exact one with the fraction dropped towards
      its start. */
  lemma PredictIs(x: int, x0: int, x1: int, y0: int, y1: int)
    requires x0 <= x <= x1 && x0 < x1
    ensures var off := Abs(PredictPoint(x, x0, x1, y0, y1) - y0);
            off * (x1 - x0) <= Abs(y1 - y0) * (x - x0) < off * (x1 - x0) + (x1 - x0)
    ensures PredictPoint(x0, x0, x1, y0, y1) == y0 && PredictPoint(x1, x0, x1, y0, y1) == y1
    ensures y0 <= y1 ==> y0 <= PredictPoint(x, x0, x1, y0, y1)
    ensures y1 <= y0 ==> PredictPoint(x, x0, x1, y0, y1) <= y0
  {
    var a: nat, k: nat, d: nat := Abs(y1 - y0), x - x0, x1 - x0;
    Between(x, x0, x1, y0, y1);
    ProductBound(a, k, d);
    DivUnique(0, d, 0, 0);
    assert a * (x0 - x0) == 0;
    DivUnique(a * d, d, a, 0);
    var q := a * k / d;
    assert a * k == q * d + a * k % d;
  }

  // ---------------------------------------------------------------------
  // Drawing
  // ---------------------------------------------------------------------

  /** a * k is q whole d and err; sealed. */
  ghost predicate Divided(a: nat, d: int, q: int, err: int, k: nat) {
    0 <= err < d && forall o: nat {:trigger Opened(o)} :: Opened(o) ==> a * k == q * d + err
  }

  /** The drawing state at x: y is the line's height, err the remainder of its slope; sealed. */
  ghost predicate At(x0: int, y0: int, x1: int, y1: int, x: int, y: int, err: int)
    requires x0 < x1
  {
    forall o: nat {:trigger Opened(o)} :: Opened(o) ==>
      x0 <= x && y == PredictPoint(x, x0, x1, y0, y1) &&
      Divided(Abs(y1 - y0), x1 - x0, if y1 < y0 then y0 - y else y - y0, err, x - x0)
  }

  lemma HeightIs(x0: int, y0: int, x1: int, y1: int, x: int, y: int, err: int)
    requires x0 < x1 && x0 <= x && Divided(Abs(y1 - y0), x1 - x0, if y1 < y0 then y0 - y else y - y0, err, x - x0)
    ensures At(x0, y0, x1, y1, x, y, err)
  {
    assert Opened(0);
    var a: nat, k: nat, d := Abs(y1 - y0), x - x0, x1 - x0;
    ProductBound(a, 0, k);
    DivUnique(a * k, d, if y1 < y0 then y0 - y else y - y0, err);
  }

  lemma StartOfLine(x0: int, y0: int, x1: int, y1: int)
    requires x0 < x1
    ensures At(x0, y0, x1, y1, x0, y0, 0)
  {
    assert Abs(y1 - y0) * (x0 - x0) == 0 * (x1 - x0) + 0;
    HeightIs(x0, y0, x1, y1, x0, y0, 0);
  }

  /** The two slopes of a step: truncated, and one further from zero. */
  predicate Slopes(x0: int, y0: int, x1: int, y1: int, base: int, sy: int, ady: int)
    requires x0 < x1
  {
    var whole := Abs(y1 - y0) / (x1 - x0);
    && base == (if y1 < y0 then -whole else whole)
    && sy == (if y1 < y0 then base - 1 else base + 1)
    && ady == Abs(y1 - y0) % (x1 - x0)
  }

  lemma SlopesAre(dy: int, adx: int)
    requires adx > 0
    ensures Abs(Quot(dy, adx)) == Abs(dy) / adx
    ensures Abs(dy) - Abs(Quot(dy, adx)) * adx == Abs(dy) % adx
  {
    QuotientSign(Abs(dy), adx);
  }

  lemma QuotientSign(a: nat, d: int)
    requires d > 0
    ensures a / d >= 0 && a - a / d * d == a % d
  {
  }

  /** One bin further along the line. */
  method NextPoint(ghost x0: int, ghost y0: int, ghost x1: int, ghost y1: int, ghost x: int,
                   adx: int, base: int, sy: int, ady: int, err: int, y: int) returns (err': int, y': int)
    requires x0 < x1 && x0 <= x && adx == x1 - x0 && Slopes(x0, y0, x1, y1, base, sy, ady) && At(x0, y0, x1, y1, x, y, err)
    ensures At(x0, y0, x1, y1, x + 1, y', err')
  {
    assert Opened(0);
    NextQuotient(Abs(y1 - y0), adx, if y1 < y0 then y0 - y else y - y0, err, x - x0);
    err' := err + ady;
    if err' >= adx {
      err' := err' - adx;
      y' := y + sy;
    } else {
      y' := y + base;
    }
    HeightIs(x0, y0, x1, y1, x + 1, y', err');
  }

  lemma NextQuotient(a: nat, d: int, q: int, err: int, k: nat)
    requires d > 0 && Divided(a, d, q, err, k)
    ensures if err + a % d >= d then Divided(a, d, q + a / d + 1, err + a % d - d, k + 1)
            else Divided(a, d, q + a / d, err + a % d, k + 1)
  {
    assert Opened(0);
    QuotientSign(a, d);
    ErrorStep(a, d, a / d, a % d, q, err, k);
  }

  function LineY(x: int, x0: int, y0: int, x1: int, y1: int): int {
    if x0 < x1 then PredictPoint(x, x0, x1, y0, y1) else y0
  }

  /** The bins from lo up to hi are multiplied by the table value at the height of the curve;
      the index is taken from the low eight bits of the height. The others are as they were. */
  ghost predicate Scaled(output: array<real>, was: seq<real>, lo: int, hi: int, curve: int -> int, table: seq<real>)
    requires |table| == 256
    reads output
  {
    && |was| == output.Length
    && forall i :: 0 <= i < output.Length ==>
                     output[i] == if lo <= i < hi then was[i] * table[curve(i) % 256] else was[i]
  }

  function Upto(x: nat, n: nat): nat { if x > n then n else x }

  /** Multiplies the bins x0 <= x < x1, n by the table value at the line's height, without a
      division a bin, and so carries a curve that follows the line there on to x1. */
  method DrawLine(output: array<real>, x0: nat, y0: int, x1: nat, y1: int, n: nat, table: seq<real>,
                  ghost was: seq<real>, ghost lo: nat, ghost curve: int -> int)
    requires lo <= x0 < x1 && n <= output.Length && |table| == 256
    requires Follows(curve, x0, y0, x1, y1) && Scaled(output, was, lo, Upto(x0, n), curve, table)
    modifies output
    ensures Scaled(output, was, lo, Upto(x1, n), curve, table)
  {
    var dy, adx := y1 - y0, x1 - x0;
    var ady := Abs(dy);
    var base := Quot(dy, adx);
    var sy := if dy < 0 then base - 1 else base + 1;
    ady := ady - Abs(base) * adx;
    SlopesAre(dy, adx);
    StartOfLine(x0, y0, x1, y1);
    if x0 < Upto(x1, n) {
      DrawSteps(output, x0, y0, x1, y1, Upto(x1, n), adx, base, sy, ady, table, was, lo, curve);
    }
  }

  /** Sealed: the curve follows this line. */
  ghost predicate Follows(curve: int -> int, x0: int, y0: int, x1: int, y1: int) {
    forall o: nat {:trigger Opened(o)} :: Opened(o) ==>
      forall x {:trigger curve(x)} :: x0 <= x < x1 ==> curve(x) == LineY(x, x0, y0, x1, y1)
  }

  lemma AtCurve(curve: int -> int, x0: int, y0: int, x1: int, y1: int, x: int, y: int, err: int)
    requires x0 < x1 && x < x1 && Follows(curve, x0, y0, x1, y1) && At(x0, y0, x1, y1, x, y, err)
    ensures y == curve(x)
  {
    assert Opened(0);
  }

  method DrawSteps(output: array<real>, x0: nat, y0: int, ghost x1: int, ghost y1: int, last: nat,
                   adx: int, base: int, sy: int, ady: int, table: seq<real>,
                   ghost was: seq<real>, ghost lo: nat, ghost curve: int -> int)
    requires lo <= x0 < last <= output.Length && last <= x1 && |table| == 256
    requires adx == x1 - x0 && Slopes(x0, y0, x1, y1, base, sy, ady) && At(x0, y0, x1, y1, x0, y0, 0)
    requires Follows(curve, x0, y0, x1, y1) && Scaled(output, was, lo, x0, curve, table)
    modifies output
    ensures Scaled(output, was, lo, last, curve, table)
  {
    var x, y, err := x0, y0, 0;
    AtCurve(curve, x0, y0, x1, y1, x, y, err);
    Hit(output, x, y, table, was, lo, curve);
    x := x + 1;
    while x < last
      invariant x0 < x <= last && At(x0, y0, x1, y1, x - 1, y, err)
      invariant Scaled(output, was, lo, x, curve, table)
    {
      err, y := NextPoint(x0, y0, x1, y1, x - 1, adx, base, sy, ady, err, y);
      AtCurve(curve, x0, y0, x1, y1, x, y, err);
      Hit(output, x, y, table, was, lo, curve);
      x := x + 1;
    }
  }

  /** `LINE_OP` at the next bin. */
  method Hit(output: array<real>, x: nat, y: int, table: seq<real>, ghost was: seq<real>, ghost lo: int, ghost curve: int -> int)
    requires x < output.Length && |table| == 256 && lo <= x && y == curve(x)
    requires Scaled(output, was, lo, x, curve, table)
    modifies output
    ensures Scaled(output, was, lo, x + 1, curve, table)
  {
    output[x] := output[x] * table[y % 256];
  }

  // ---------------------------------------------------------------------
  // The curve
  // ---------------------------------------------------------------------

  datatype Knot = Knot(x: nat, y: int)

  /** Posts of a floor in the order of their positions. */
  ghost predicate Ordered(X: seq<nat>, order: seq<nat>) {
    && |order| > 0 && (forall q :: 0 <= q < |order| ==> order[q] < |X|)
    && X[order[0]] == 0
    && forall q, r :: 0 <= q < r < |order| ==> X[order[q]] < X[order[r]]
  }

  /** The posts in use from position q of the order on, as points of the spectrum. */
  function Knots(X: seq<nat>, order: seq<nat>, finalY: seq<int>, mult: nat, q: nat): seq<Knot>
    requires q <= |order| && |finalY| == |X| && forall q :: 0 <= q < |order| ==> order[q] < |X|
    decreases |order| - q
  {
    if q == |order| then []
    else
      var j, rest := order[q], Knots(X, order, finalY, mult, q + 1);
      if finalY[j] >= 0 then [Knot(X[j], finalY[j] * mult)] + rest else rest
  }

  /** The piecewise linear curve through the knots, level after the last one. */
  function Curve(ks: seq<Knot>, x: int): int
    requires ks != []
  {
    if |ks| == 1 then ks[0].y
    else if x < ks[1].x then
      if ks[0].x < ks[1].x then PredictPoint(x, ks[0].x, ks[1].x, ks[0].y, ks[1].y) else ks[0].y
    else Curve(ks[1..], x)
  }

  lemma {:induction false} KnotsBelow(X: seq<nat>, order: seq<nat>, finalY: seq<int>, mult: nat, q: nat, top: nat)
    requires q <= |order| && |finalY| == |X| && Ordered(X, order)
    requires forall j :: 0 <= j < |finalY| ==> finalY[j] * mult < top
    ensures forall k <- Knots(X, order, finalY, mult, q) :: 0 <= k.y < top
    ensures forall k <- Knots(X, order, finalY, mult, q) :: q < |order| && X[order[q]] <= k.x
    ensures q < |order| && finalY[order[q]] >= 0 ==>
      Knots(X, order, finalY, mult, q) != [] && Knots(X, order, finalY, mult, q)[0].x == X[order[q]]
    decreases |order| - q
  {
    if q < |order| {
      KnotsBelow(X, order, finalY, mult, q + 1, top);
    }
  }

  /** The first knot from position q on stands at no post behind the first one in use. */
  lemma {:induction false} FirstKnot(X: seq<nat>, order: seq<nat>, finalY: seq<int>, mult: nat, q: nat, i: nat)
    requires Ordered(X, order) && |finalY| == |X| && q <= i < |order| && finalY[order[i]] >= 0
    ensures Knots(X, order, finalY, mult, q) != [] && Knots(X, order, finalY, mult, q)[0].x <= X[order[i]]
    decreases |order| - q
  {
    if finalY[order[q]] < 0 {
      FirstKnot(X, order, finalY, mult, q + 1, i);
    } else {
      assert q < i ==> X[order[q]] < X[order[i]];
    }
  }

  /** The curve passes through every post in use, at its amplitude times the multiplier. */
  lemma {:induction false} CurveAtPost(X: seq<nat>, order: seq<nat>, finalY: seq<int>, mult: nat, q: nat, i: nat)
    requires Ordered(X, order) && |finalY| == |X| && q <= i < |order| && finalY[order[i]] >= 0
    ensures Knots(X, order, finalY, mult, q) != []
    ensures Curve(Knots(X, order, finalY, mult, q), X[order[i]]) == finalY[order[i]] * mult
    decreases |order| - q
  {
    var ks, rest := Knots(X, order, finalY, mult, q), Knots(X, order, finalY, mult, q + 1);
    if q < i {
      FirstKnot(X, order, finalY, mult, q + 1, i);
      CurveAtPost(X, order, finalY, mult, q + 1, i);
      if finalY[order[q]] >= 0 {
        assert ks[1..] == rest && ks[1] == rest[0];
      }
    } else if |ks| > 1 {
      KnotsAfter(X, order, finalY, mult, q + 1);
      assert ks[1] == rest[0] && rest[0] in rest && X[order[q]] < X[order[q + 1]];
      PredictIs(ks[0].x, ks[0].x, ks[1].x, ks[0].y, ks[1].y);
    }
  }

  lemma {:induction false} KnotsAfter(X: seq<nat>, order: seq<nat>, finalY: seq<int>, mult: nat, q: nat)
    requires q <= |order| && |finalY| == |X| && Ordered(X, order)
    ensures forall k <- Knots(X, order, finalY, mult, q) :: q < |order| && X[order[q]] <= k.x
    decreases |order| - q
  {
    if q < |order| {
      KnotsAfter(X, order, finalY, mult, q + 1);
    }
  }

  /** A curve through knots between 0 and `top` stays between them. */
  lemma {:induction false} CurveBelow(ks: seq<Knot>, x: int, top: nat)
    requires ks != [] && ks[0].x <= x && forall k <- ks :: 0 <= k.y < top
    ensures 0 <= Curve(ks, x) < top
  {
    if |ks| > 1 {
      if x >= ks[1].x {
        CurveBelow(ks[1..], x, top);
      } else if ks[0].x < ks[1].x {
        Between(x, ks[0].x, ks[1].x, ks[0].y, ks[1].y);
      }
    }
  }

  /** The first post in order is post 0, which sits at position 0. */
  lemma FirstInOrder(X: seq<nat>, order: seq<nat>)
    requires Ordered(X, order) && 0 in order && |X| > 0 && X[0] == 0
    ensures order[0] == 0
  {
    var k :| 0 <= k < |order| && order[k] == 0;
  }

  /** Applies the curve to the bins below n, each exactly once. */
  method DoFloor(target: array<real>, n: nat, X: seq<nat>, order: seq<nat>, finalY: seq<int>, mult: nat, table: seq<real>)
    requires |finalY| == |X| && Ordered(X, order) && n <= target.Length && |table| == 256
    requires 0 in order && X[0] == 0 && finalY[0] >= 0
    modifies target
    ensures Scaled(target, old(target[..]), 0, n, CurveThrough(Knots(X, order, finalY, mult, 0)), table)
  {
    ghost var K := Knots(X, order, finalY, mult, 0);
    FirstInOrder(X, order);
    DrawKnots(target, n, X, order, finalY, mult, table, CurveThrough(K), target[..]);
  }

  method DrawKnots(target: array<real>, n: nat, X: seq<nat>, order: seq<nat>, finalY: seq<int>, mult: nat, table: seq<real>,
                   ghost curve: int -> int, ghost was: seq<real>)
    requires |finalY| == |X| && Ordered(X, order) && n <= target.Length && |table| == 256 && order[0] == 0
    requires Ahead(curve, Knot(0, finalY[0] * mult), Knots(X, order, finalY, mult, 1)) && Scaled(target, was, 0, 0, curve, table)
    modifies target
    ensures Scaled(target, was, 0, n, curve, table)
  {
    var lx: nat, ly, q := 0, finalY[0] * mult, 1;
    while q < |order|
      invariant 1 <= q <= |order| && lx <= X[order[q - 1]]
      invariant Ahead(curve, Knot(lx, ly), Knots(X, order, finalY, mult, q))
      invariant Scaled(target, was, 0, Upto(lx, n), curve, table)
    {
      var j := order[q];
      if finalY[j] >= 0 {
        var hy, hx := finalY[j] * mult, X[j];
        assert X[order[q - 1]] < X[order[q]];
        DrawToKnot(target, n, Knot(lx, ly), Knot(hx, hy), Knots(X, order, finalY, mult, q + 1), curve, table, was);
        lx, ly := hx, hy;
      }
      q := q + 1;
    }
    LevelOut(target, n, lx, ly, curve, table, was);
  }

  function CurveY(ks: seq<Knot>, x: int): int {
    if ks == [] then 0 else Curve(ks, x)
  }

  function CurveThrough(ks: seq<Knot>): int -> int {
    x => CurveY(ks, x)
  }

  /** From knot `a` on, the curve goes through the knots that are left. */
  ghost predicate Ahead(curve: int -> int, a: Knot, rest: seq<Knot>) {
    forall x {:trigger curve(x)} :: a.x <= x ==> curve(x) == CurveY([a] + rest, x)
  }

  lemma AheadFollows(curve: int -> int, a: Knot, b: Knot, rest: seq<Knot>)
    requires a.x < b.x && Ahead(curve, a, [b] + rest)
    ensures Follows(curve, a.x, a.y, b.x, b.y) && Ahead(curve, b, rest)
  {
    NextKnot(a, b, rest);
  }

  /** One segment of the curve, and what is left of it. */
  method DrawToKnot(target: array<real>, n: nat, a: Knot, b: Knot, ghost rest: seq<Knot>, ghost curve: int -> int,
                    table: seq<real>, ghost was: seq<real>)
    requires a.x < b.x && n <= target.Length && |table| == 256 && Ahead(curve, a, [b] + rest)
    requires Scaled(target, was, 0, Upto(a.x, n), curve, table)
    modifies target
    ensures Ahead(curve, b, rest)
    ensures Scaled(target, was, 0, Upto(b.x, n), curve, table)
  {
    AheadFollows(curve, a, b, rest);
    if a.x != b.x {
      DrawLine(target, a.x, a.y, b.x, b.y, n, table, was, 0, curve);
    }
  }

  /** Past the last knot the curve stays level. */
  method LevelOut(target: array<real>, n: nat, lx: nat, ly: int, ghost curve: int -> int, table: seq<real>, ghost was: seq<real>)
    requires n <= target.Length && |table| == 256 && Ahead(curve, Knot(lx, ly), [])
    requires Scaled(target, was, 0, Upto(lx, n), curve, table)
    modifies target
    ensures Scaled(target, was, 0, n, curve, table)
  {
    var j := lx;
    while j < n
      invariant lx <= j
      invariant Scaled(target, was, 0, Upto(j, n), curve, table)
    {
      assert curve(j) == ly;
      Hit(target, j, ly, table, was, 0, curve);
      j := j + 1;
    }
  }

  lemma NextKnot(a: Knot, b: Knot, rest: seq<Knot>)
    requires a.x < b.x
    ensures var ks := [a] + ([b] + rest);
            forall x {:trigger CurveY(ks, x)} :: CurveY(ks, x) == if x < b.x then LineY(x, a.x, a.y, b.x, b.y) else CurveY([b] + rest, x)
  {
    var ks := [a] + ([b] + rest);
    assert ks[1..] == [b] + rest;
  }
}
