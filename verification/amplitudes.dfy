/** Floor type 1 amplitudes: from decoded values to heights (section 7.2.4 of the Vorbis I
    specification). */
module Amplitudes {
  import opened Words
  import opened Floor

  /** `ilog`: the number of significant bits. */
  function Ilog(n: nat): nat {
    if n == 0 then 0 else 1 + Ilog(n / 2)
  }

  /** Amplitude ranges by multiplier. */
  function Range(multiplier: nat): nat
    requires 1 <= multiplier <= 4
  {
    [256, 128, 86, 64][multiplier - 1]
  }

  /** The first two posts are read with this many bits, so they are in range by themselves. */
  lemma FirstPostsInRange(multiplier: nat, y: nat)
    requires 1 <= multiplier <= 4 && y < Pow2(Ilog(Range(multiplier)) - 1)
    ensures y < Range(multiplier)
  {
    IlogRange(multiplier);
    Pow2Constants();
    assert Pow2(7) == 2 * Pow2(6) && Pow2(6) == 2 * Pow2(5);
  }

  lemma IlogRange(multiplier: nat)
    requires 1 <= multiplier <= 4
    ensures Ilog(Range(multiplier)) == match multiplier case 1 => 9 case 2 => 8 case _ => 7
  {
    assert Ilog(256) == 9 && Ilog(128) == 8 && Ilog(86) == 7 && Ilog(64) == 7;
  }

  /** The specification reads ilog(range - 1) bits. That is as many for every multiplier but 3, and
      exactly for multiplier 3 the bits read cannot spell every height. */
  lemma FirstPostBits(multiplier: nat)
    requires 1 <= multiplier <= 4
    ensures Ilog(Range(multiplier)) - 1 == Ilog(Range(multiplier) - 1) <==> multiplier != 3
    ensures Range(multiplier) <= Pow2(Ilog(Range(multiplier)) - 1) <==> multiplier != 3
  {
    IlogRange(multiplier);
    IlogBelow(multiplier);
    Pow2Constants();
    assert Pow2(8) == 2 * Pow2(7) && Pow2(7) == 2 * Pow2(6);
  }

  lemma IlogBelow(multiplier: nat)
    requires 1 <= multiplier <= 4
    ensures Ilog(Range(multiplier) - 1) == match multiplier case 1 => 8 case 4 => 6 case _ => 7
  {
    assert Ilog(255) == 8 && Ilog(127) == 7 && Ilog(85) == 7 && Ilog(63) == 6;
  }

  /** Height 64 is in the range of multiplier 3 and out of reach of its first two posts. */
  lemma HeightUnread()
    ensures 64 < Range(3) && Pow2(Ilog(Range(3)) - 1) <= 64
  {
    IlogRange(3);
    Pow2Constants();
    assert Pow2(8) == 2 * Pow2(7) && Pow2(7) == 2 * Pow2(6);
  }

  /** The height that a decoded value stands for, given the predicted one. */
  function Unwrap(val: int, pred: int, range: int): int {
    var highroom, lowroom := range - pred, pred;
    var room := if highroom < lowroom then highroom * 2 else lowroom * 2;
    if val == 0 then pred
    else if val >= room then
      if highroom > lowroom then val - lowroom + pred else pred - val + highroom - 1
    else if val % 2 == 1 then pred - (val + 1) / 2
    else pred + val / 2
  }

  /** ... and the value that a height is coded as. */
  function Wrap(y: int, pred: int, range: int): int {
    var highroom, lowroom := range - pred, pred;
    var near := if highroom < lowroom then highroom else lowroom;
    if -near <= y - pred < near then (if y >= pred then 2 * (y - pred) else 2 * (pred - y) - 1)
    else if highroom > lowroom then y else range - 1 - y
  }

  /** For every prediction in range, values in range and heights in range correspond one to one;
      a value outside gives a height outside. */
  lemma UnwrapBijection(val: nat, pred: int, range: int)
    requires 0 <= pred < range
    ensures val < range <==> 0 <= Unwrap(val, pred, range) < range
    ensures val < range ==> Wrap(Unwrap(val, pred, range), pred, range) == val
  {
  }

  lemma WrapBijection(y: int, pred: int, range: int)
    requires 0 <= pred < range && 0 <= y < range
    ensures 0 <= Wrap(y, pred, range) < range && Unwrap(Wrap(y, pred, range), pred, range) == y
  {
  }

  /** What a symbol that could not be decoded is stored as changes nothing of the prediction. */
  lemma UnwrapUndecoded(pred: int, range: int)
    requires 0 <= pred < range
    ensures Unwrap(-1, pred, range) == pred
  {
  }

  // ---------------------------------------------------------------------
  // Neighbours
  // ---------------------------------------------------------------------

  /** low and high are the nearest earlier posts on either side of post n. */
  ghost predicate AreNeighbors(X: seq<nat>, n: nat, low: nat, high: nat) {
    && low < n < |X| && high < n && X[low] < X[n] < X[high]
    && (forall i :: 0 <= i < n ==> X[i] <= X[low] || X[n] <= X[i])
    && forall i :: 0 <= i < n ==> X[i] <= X[n] || X[high] <= X[i]
  }

  /** The two outermost posts come first, and no position repeats. */
  ghost predicate PostList(X: seq<nat>) {
    && |X| >= 2 && X[0] == 0 && X[1] < 65536
    && (forall i :: 2 <= i < |X| ==> X[i] <= X[1])
    && forall i, j :: 0 <= i < j < |X| ==> X[i] != X[j]
  }

  method Neighbors(X: seq<nat>, n: nat) returns (low: nat, high: nat)
    requires PostList(X) && 2 <= n < |X|
    ensures AreNeighbors(X, n, low, high)
  {
    low, high := 0, 0;
    var lowX: int, highX: int := -1, 65536;
    var i := 0;
    while i < n
      invariant 0 <= i <= n
      invariant if i == 0 then lowX == -1 else low < i && lowX == X[low] < X[n]
      invariant if i < 2 then highX == 65536 else high < i && highX == X[high] > X[n]
      invariant forall k :: 0 <= k < i ==> X[k] <= lowX || X[n] <= X[k]
      invariant forall k :: 0 <= k < i ==> X[k] <= X[n] || highX <= X[k]
    {
      if X[i] > lowX && X[i] < X[n] { low, lowX := i, X[i]; }
      if X[i] < highX && X[i] > X[n] { high, highX := i, X[i]; }
      i := i + 1;
    }
  }

  // ---------------------------------------------------------------------
  // The amplitude loop
  // ---------------------------------------------------------------------

  /** The neighbour table of a floor. */
  ghost predicate Table(X: seq<nat>, near: seq<(nat, nat)>) {
    PostList(X) && |near| == |X| && forall j :: 2 <= j < |X| ==> AreNeighbors(X, j, near[j].0, near[j].1)
  }

  /** The height of post j. */
  function Height(X: seq<nat>, near: seq<(nat, nat)>, vals: seq<int>, range: int, j: nat): int
    requires |near| == |X| == |vals| && j < |X|
  {
    if j < 2 then vals[j]
    else
      var (low, high) := near[j];
      if low < j && high < j && X[low] < X[high] then
        Unwrap(vals[j], PredictPoint(X[j], X[low], X[high], Height(X, near, vals, range, low), Height(X, near, vals, range, high)), range)
      else 0
  }

  /** Post j is drawn: an end post, a post with a value, or a neighbour of a later one with a value. */
  predicate Drawn(near: seq<(nat, nat)>, vals: seq<int>, n: nat, j: nat)
    requires n <= |near| == |vals| && j < |vals|
  {
    j < 2 || (j < n && vals[j] != 0) || exists i :: 2 <= i < n && vals[i] != 0 && (near[i].0 == j || near[i].1 == j)
  }

  /** Two values read as bits, and the others decoded or -1. */
  ghost predicate InRange(vals: seq<int>, range: int) {
    forall i :: 0 <= i < |vals| ==> (if i < 2 then 0 else -1) <= vals[i] < range
  }

  /** All heights stay in range when all values do. */
  lemma {:induction false} HeightsInRange(X: seq<nat>, near: seq<(nat, nat)>, vals: seq<int>, range: int, j: nat)
    requires Table(X, near) && |vals| == |X| && j < |X| && range > 0
    requires InRange(vals, range)
    ensures 0 <= Height(X, near, vals, range, j) < range
  {
    if j >= 2 {
      var (low, high) := near[j];
      assert AreNeighbors(X, j, low, high);
      HeightsInRange(X, near, vals, range, low);
      HeightsInRange(X, near, vals, range, high);
      Between(X[j], X[low], X[high], Height(X, near, vals, range, low), Height(X, near, vals, range, high));
      var pred := PredictPoint(X[j], X[low], X[high], Height(X, near, vals, range, low), Height(X, near, vals, range, high));
      if vals[j] == -1 {
        UnwrapUndecoded(pred, range);
      } else {
        UnwrapBijection(vals[j], pred, range);
      }
    }
  }

  /** The values that an encoder writes for the heights ys: each one against the line through its two
      nearest earlier posts, at their heights. */
  function Written(X: seq<nat>, near: seq<(nat, nat)>, ys: seq<int>, range: int, j: nat): int
    requires |near| == |X| == |ys| && j < |X|
    requires j >= 2 ==> near[j].0 < |X| && near[j].1 < |X| && X[near[j].0] < X[near[j].1]
  {
    if j < 2 then ys[j] else Wrap(ys[j], Foretold(X, near, ys, j), range)
  }

  /** The height at post j of the line from the post on its left to the post on its right. */
  function Foretold(X: seq<nat>, near: seq<(nat, nat)>, ys: seq<int>, j: nat): int
    requires |near| == |X| == |ys| && j < |X|
    requires near[j].0 < |X| && near[j].1 < |X| && X[near[j].0] < X[near[j].1]
  {
    var (left, right) := near[j];
    PredictPoint(X[j], X[left], X[right], ys[left], ys[right])
  }

  ghost predicate Wrote(X: seq<nat>, near: seq<(nat, nat)>, ys: seq<int>, range: int, vals: seq<int>)
    requires Table(X, near) && |ys| == |X|
  {
    && |vals| == |X|
    && forall j :: 0 <= j < |X| ==> (j >= 2 ==> AreNeighbors(X, j, near[j].0, near[j].1)) && vals[j] == Written(X, near, ys, range, j)
  }

  /** Round trip over all posts: the values written for any heights in range give these heights back. */
  lemma {:induction false} HeightsRoundTrip(X: seq<nat>, near: seq<(nat, nat)>, ys: seq<int>, range: int, vals: seq<int>, j: nat)
    requires Table(X, near) && |ys| == |X| && j < |X| && Wrote(X, near, ys, range, vals)
    requires forall i :: 0 <= i < |ys| ==> 0 <= ys[i] < range
    ensures Height(X, near, vals, range, j) == ys[j]
    ensures 0 <= vals[j] < range
    ensures j >= 2 ==> AreNeighbors(X, j, near[j].0, near[j].1) && (vals[j] == 0 <==> ys[j] == Foretold(X, near, ys, j))
  {
    if j >= 2 {
      var (low, high) := near[j];
      assert AreNeighbors(X, j, low, high);
      HeightsRoundTrip(X, near, ys, range, vals, low);
      HeightsRoundTrip(X, near, ys, range, vals, high);
      Between(X[j], X[low], X[high], ys[low], ys[high]);
      WrapBijection(ys[j], Foretold(X, near, ys, j), range);
    }
  }

  /** The in-place loop undoes the encoder: a drawn post has its height back, and one that is not drawn
      lies on its predicted line. */
  method UnwrapWritten(X: seq<nat>, near: seq<(nat, nat)>, finalY: array<int>, range: int, ghost ys: seq<int>)
    requires Table(X, near) && finalY.Length == |X| == |ys| && Wrote(X, near, ys, range, finalY[..])
    requires forall i :: 0 <= i < |ys| ==> 0 <= ys[i] < range
    modifies finalY
    ensures forall j :: 0 <= j < |X| ==>
      if Drawn(near, old(finalY[..]), |X|, j) then finalY[j] == ys[j]
      else 2 <= j && AreNeighbors(X, j, near[j].0, near[j].1) && finalY[j] == -1 && ys[j] == Foretold(X, near, ys, j)
  {
    ghost var vals := finalY[..];
    UnwrapAmplitudes(X, near, finalY, range);
    forall j | 0 <= j < |X|
      ensures Height(X, near, vals, range, j) == ys[j]
      ensures j >= 2 ==> AreNeighbors(X, j, near[j].0, near[j].1) && (vals[j] == 0 <==> ys[j] == Foretold(X, near, ys, j))
    {
      HeightsRoundTrip(X, near, ys, range, vals, j);
    }
  }

  /** The loop of `vorbis_decode_packet_rest`: values become heights in place; posts that are not
      drawn end up as -1. */
  method UnwrapAmplitudes(X: seq<nat>, near: seq<(nat, nat)>, finalY: array<int>, range: int)
    requires Table(X, near) && finalY.Length == |X|
    modifies finalY
    ensures forall j :: 0 <= j < |X| ==>
      finalY[j] == if Drawn(near, old(finalY[..]), |X|, j) then Height(X, near, old(finalY[..]), range, j) else -1
    ensures InRange(old(finalY[..]), range) ==> forall j :: 0 <= j < |X| ==> -1 <= finalY[j] < range
  {
    ghost var vals := finalY[..];
    var flag := new bool[|X|](i => i < 2);
    var j := 2;
    while j < |X|
      invariant 2 <= j <= |X| && Unwrapped(X, near, vals, range, finalY[..], j) && Flagged(near, vals, flag[..], j)
    {
      UnwrapPost(X, near, finalY, flag, range, j, vals);
      j := j + 1;
    }
    DropUndrawn(finalY, flag);
    forall j | 0 <= j < |X| && InRange(vals, range) ensures -1 <= finalY[j] < range {
      assert 0 <= vals[0] < range;
      HeightsInRange(X, near, vals, range, j);
    }
  }

  /** Undrawn posts are marked. */
  method DropUndrawn(finalY: array<int>, flag: array<bool>)
    requires finalY.Length == flag.Length
    modifies finalY
    ensures forall i :: 0 <= i < finalY.Length ==> finalY[i] == if flag[i] then old(finalY[i]) else -1
  {
    var j := 0;
    while j < finalY.Length
      invariant 0 <= j <= finalY.Length
      invariant forall i :: 0 <= i < finalY.Length ==> finalY[i] == if i < j && !flag[i] then -1 else old(finalY[i])
    {
      if !flag[j] { finalY[j] := -1; }
      j := j + 1;
    }
  }

  /** The first n posts are heights, the others still values. */
  ghost predicate Unwrapped(X: seq<nat>, near: seq<(nat, nat)>, vals: seq<int>, range: int, ys: seq<int>, n: nat)
    requires |near| == |X| == |vals|
  {
    |ys| == |X| && forall i :: 0 <= i < |X| ==> ys[i] == if i < n then Height(X, near, vals, range, i) else vals[i]
  }

  ghost predicate Flagged(near: seq<(nat, nat)>, vals: seq<int>, flags: seq<bool>, n: nat)
    requires n <= |near| == |vals|
  {
    |flags| == |vals| && forall i :: 0 <= i < |vals| ==> flags[i] == Drawn(near, vals, n, i)
  }

  /** The nested decisions of the loop. */
  method NewHeight(val: int, pred: int, range: int) returns (y: int)
    ensures y == Unwrap(val, pred, range)
  {
    var highroom, lowroom := range - pred, pred;
    var room := if highroom < lowroom then highroom * 2 else lowroom * 2;
    if val != 0 {
      if val >= room {
        if highroom > lowroom {
          y := val - lowroom + pred;
        } else {
          y := pred - val + highroom - 1;
        }
      } else if val % 2 == 1 {
        y := pred - (val + 1) / 2;
      } else {
        y := pred + val / 2;
      }
    } else {
      y := pred;
    }
  }

  /** Post j gets its height and says which posts have to be drawn. */
  method UnwrapPost(X: seq<nat>, near: seq<(nat, nat)>, finalY: array<int>, flag: array<bool>, range: int, j: nat,
                    ghost vals: seq<int>)
    requires Table(X, near) && |X| == |vals| && 2 <= j < |X|
    requires Unwrapped(X, near, vals, range, finalY[..], j) && Flagged(near, vals, flag[..], j)
    modifies finalY, flag
    ensures Unwrapped(X, near, vals, range, finalY[..], j + 1) && Flagged(near, vals, flag[..], j + 1)
  {
    var (low, high) := near[j];
    assert AreNeighbors(X, j, low, high);
    ghost var ys, fs := finalY[..], flag[..];
    var pred := PredictPoint(X[j], X[low], X[high], finalY[low], finalY[high]);
    var val := finalY[j];
    assert pred == PredictPoint(X[j], X[low], X[high], ys[low], ys[high]) && val == ys[j];
    finalY[j] := NewHeight(val, pred, range);
    if val != 0 {
      flag[low], flag[high], flag[j] := true, true, true;
    } else {
      flag[j] := false;
    }
    assert finalY[..] == ys[j := Height(X, near, vals, range, j)];
    DrawnNext(near, vals, fs, j);
    assert flag[..] == if val != 0 then fs[low := true][high := true][j := true] else fs[j := false];
  }

  lemma DrawnNext(near: seq<(nat, nat)>, vals: seq<int>, fs: seq<bool>, j: nat)
    requires 2 <= j < |near| == |vals| && near[j].0 < j && near[j].1 < j && Flagged(near, vals, fs, j)
    requires forall i :: 2 <= i < |near| && i < j ==> near[i].0 != j && near[i].1 != j
    ensures Flagged(near, vals, if vals[j] != 0 then fs[near[j].0 := true][near[j].1 := true][j := true] else fs[j := false], j + 1)
  {
    var gs := if vals[j] != 0 then fs[near[j].0 := true][near[j].1 := true][j := true] else fs[j := false];
    forall i | 0 <= i < |vals| ensures gs[i] == Drawn(near, vals, j + 1, i) {
      assert fs[i] == Drawn(near, vals, j, i);
    }
  }

  // ---------------------------------------------------------------------
  // Amplitudes and curve together
  // ---------------------------------------------------------------------

  /** What the amplitude loop leaves: heights, and -1 where nothing is drawn. */
  function Posts(X: seq<nat>, near: seq<(nat, nat)>, vals: seq<int>, range: int): (ys: seq<int>)
    requires |near| == |X| == |vals|
    ensures |ys| == |X|
  {
    seq(|X|, j requires 0 <= j < |X| => if Drawn(near, vals, |X|, j) then Height(X, near, vals, range, j) else -1)
  }

  /** The curve of a floor, from the decoded values. */
  function FloorCurve(X: seq<nat>, near: seq<(nat, nat)>, order: seq<nat>, vals: seq<int>, multiplier: nat): int -> int
    requires 1 <= multiplier <= 4 && |near| == |X| == |vals| && Ordered(X, order)
  {
    CurveThrough(Knots(X, order, Posts(X, near, vals, Range(multiplier)), multiplier, 0))
  }

  /** In the range of its multiplier, a height times the multiplier is an index of the table. */
  lemma ScaledHeight(multiplier: nat, y: nat)
    requires 1 <= multiplier <= 4 && y < Range(multiplier)
    ensures y * multiplier < 256
  {
  }

  /** From values in range comes a curve inside the table of 256 entries: masking its index changes nothing. */
  lemma CurveInTable(X: seq<nat>, near: seq<(nat, nat)>, order: seq<nat>, vals: seq<int>, multiplier: nat, x: nat)
    requires 1 <= multiplier <= 4 && Table(X, near) && |vals| == |X| && Ordered(X, order) && 0 in order
    requires InRange(vals, Range(multiplier))
    ensures 0 <= FloorCurve(X, near, order, vals, multiplier)(x) < 256
  {
    var ys := Posts(X, near, vals, Range(multiplier));
    forall j | 0 <= j < |ys| ensures ys[j] * multiplier < 256 {
      HeightsInRange(X, near, vals, Range(multiplier), j);
      if ys[j] >= 0 {
        ScaledHeight(multiplier, ys[j]);
      }
    }
    FirstInOrder(X, order);
    HeightsInRange(X, near, vals, Range(multiplier), 0);
    KnotsBelow(X, order, ys, multiplier, 0, 256);
    CurveBelow(Knots(X, order, ys, multiplier, 0), x, 256);
  }

  /** From an encoder's heights to the curve: at every post that is drawn the curve has the height that was
      written, times the multiplier. */
  lemma CurveWritten(X: seq<nat>, near: seq<(nat, nat)>, order: seq<nat>, ys: seq<int>, vals: seq<int>, multiplier: nat, i: nat)
    requires 1 <= multiplier <= 4 && Table(X, near) && |ys| == |X| && Wrote(X, near, ys, Range(multiplier), vals)
    requires forall j :: 0 <= j < |ys| ==> 0 <= ys[j] < Range(multiplier)
    requires Ordered(X, order) && i < |order| && Drawn(near, vals, |X|, order[i])
    ensures FloorCurve(X, near, order, vals, multiplier)(X[order[i]]) == ys[order[i]] * multiplier
  {
    var posts := Posts(X, near, vals, Range(multiplier));
    HeightsRoundTrip(X, near, ys, Range(multiplier), vals, order[i]);
    assert posts[order[i]] == ys[order[i]];
    CurveAtPost(X, order, posts, multiplier, 0, i);
  }

  /** From decoded values to the spectrum: every bin below n is multiplied once, by the table value at
      the height of the curve. */
  method DrawFloor(target: array<real>, n: nat, X: seq<nat>, near: seq<(nat, nat)>, order: seq<nat>, finalY: array<int>,
                   multiplier: nat, table: seq<real>)
    requires 1 <= multiplier <= 4 && Table(X, near) && finalY.Length == |X| && Ordered(X, order) && 0 in order
    requires n <= target.Length && |table| == 256 && 0 <= finalY[0]
    modifies target, finalY
    ensures Scaled(target, old(target[..]), 0, n, FloorCurve(X, near, order, old(finalY[..]), multiplier), table)
    ensures InRange(old(finalY[..]), Range(multiplier)) ==>
      forall x: nat :: x < n ==> 0 <= FloorCurve(X, near, order, old(finalY[..]), multiplier)(x) < 256
  {
    ghost var vals, was := finalY[..], target[..];
    UnwrapAmplitudes(X, near, finalY, Range(multiplier));
    assert finalY[..] == Posts(X, near, vals, Range(multiplier));
    assert target[..] == was;
    DoFloor(target, n, X, order, finalY[..], multiplier, table);
    forall x: nat | x < n && InRange(vals, Range(multiplier)) ensures 0 <= FloorCurve(X, near, order, vals, multiplier)(x) < 256 {
      CurveInTable(X, near, order, vals, multiplier, x);
    }
  }
}
