// The scene graph (core/include/tcNode.h): a mutable forest of nodes with
// lazily cached matrices. Matrices are free terms over the transforms, so an
// equation between them holds for every interpretation of the multiplication.
module SceneGraph {

  datatype Vec =
    | Given(id: int)
    | Times(m: Mat, v: Vec)
    | InverseTimes(m: Mat, v: Vec)
    | WithDepth(xy: Vec, z: Vec)

  datatype Mat =
    | Translate(offset: Vec)
    | Rotate(q: int)
    | Scale(s: Vec)
    | Product(left: Mat, right: Mat)

  datatype Transform = Transform(pos: Vec, rot: int, scale: Vec)

  const ORIGIN := Given(0)

  function LocalOf(t: Transform): Mat {
    Product(Product(Translate(t.pos), Rotate(t.rot)), Scale(t.scale))
  }

  /** What translation, rotation and scale do to a point, as functions. */
  datatype Space<!P> = Space(move: (Vec, P) -> P, turn: (int, P) -> P, stretch: (Vec, P) -> P)

  /** A matrix applied to a point: of a product the right factor comes first. */
  function Applied<P>(sp: Space<P>, m: Mat, v: P): P {
    match m
    case Translate(offset) => sp.move(offset, v)
    case Rotate(q) => sp.turn(q, v)
    case Scale(s) => sp.stretch(s, v)
    case Product(left, right) => Applied(sp, left, Applied(sp, right, v))
  }

  /** A point of a node is scaled, then rotated, then moved. */
  lemma LocalApplied<P>(sp: Space<P>, t: Transform, v: P)
    ensures Applied(sp, LocalOf(t), v) == sp.move(t.pos, sp.turn(t.rot, sp.stretch(t.scale, v)))
  {
    var outer := Product(Translate(t.pos), Rotate(t.rot));
    var scaled := Applied(sp, Scale(t.scale), v);
    var turned := Applied(sp, Rotate(t.rot), scaled);
    assert scaled == sp.stretch(t.scale, v) && turned == sp.turn(t.rot, scaled);
    assert Applied(sp, Product(outer, Scale(t.scale)), v) == Applied(sp, outer, scaled) == Applied(sp, Translate(t.pos), turned);
    assert Applied(sp, Translate(t.pos), turned) == sp.move(t.pos, turned);
  }

  /** The product of the local matrices along a path, root first. */
  ghost function World(path: seq<Node>): Mat
    requires path != []
    reads path`transform
  {
    var last := path[|path| - 1];
    if |path| == 1 then LocalOf(last.transform)
    else Product(World(path[..|path| - 1]), LocalOf(last.transform))
  }

  /** A point of a node goes through the node's own transform first, and then through those above it. */
  lemma WorldApplied<P>(sp: Space<P>, path: seq<Node>, v: P)
    requires path != []
    ensures var t := path[|path| - 1].transform;
            var own := sp.move(t.pos, sp.turn(t.rot, sp.stretch(t.scale, v)));
            Applied(sp, World(path), v) == if |path| == 1 then own else Applied(sp, World(path[..|path| - 1]), own)
  {
    LocalApplied(sp, path[|path| - 1].transform, v);
  }

  /** `path` runs from the root to the node; it is what rules out cycles. */
  ghost predicate PathOk(nodes: set<Node>, n: Node)
    reads n`path, n`parent, nodes`path
  {
    if n.parent == null then n.path == [n]
    else n.parent in nodes && n.path == n.parent.path + [n]
  }

  ghost predicate ChildrenOk(nodes: set<Node>, loose: set<Node>, n: Node)
    reads n`children, nodes`parent
  {
    && (forall i :: 0 <= i < |n.children| ==>
                      n.children[i] in nodes && n.children[i].parent == n && n.children[i] !in loose)
    && Distinct(n.children)
  }

  ghost predicate ListedOk(nodes: set<Node>, loose: set<Node>, n: Node)
    reads n`parent, nodes`children
  {
    n.parent == null || n in loose || (n.parent in nodes && n in n.parent.children)
  }

  /** Parent and child links agree, except that `loose` nodes, which are
    * between two steps of a removal, are no longer listed by their parent. */
  ghost predicate Tree(nodes: set<Node>, loose: set<Node>)
    reads nodes`path, nodes`parent, nodes`children
  {
    && Paths(nodes)
    && (forall n {:trigger ChildrenOk(nodes, loose, n)} :: n in nodes ==> ChildrenOk(nodes, loose, n))
    && (forall n {:trigger ListedOk(nodes, loose, n)} :: n in nodes ==> ListedOk(nodes, loose, n))
  }

  ghost predicate Paths(nodes: set<Node>)
    reads nodes`path, nodes`parent
  {
    forall n {:trigger PathOk(nodes, n)} :: n in nodes ==> PathOk(nodes, n)
  }

  ghost predicate CacheOk(nodes: set<Node>, n: Node)
    reads n`path, n`localDirty, n`localMatrix, n`globalDirty, n`globalMatrix, n`transform, nodes`transform
  {
    && n.path != []
    && (forall a <- n.path :: a in nodes)
    && (!n.localDirty ==> n.localMatrix == LocalOf(n.transform))
    && (!n.globalDirty ==> n.globalMatrix == World(n.path))
  }

  ghost predicate Caches(nodes: set<Node>)
    reads nodes`path, nodes`localDirty, nodes`localMatrix, nodes`globalDirty, nodes`globalMatrix, nodes`transform
  {
    forall n {:trigger CacheOk(nodes, n)} :: n in nodes ==> CacheOk(nodes, n)
  }

  /** Every prefix of a path is the path of the node it ends in. */
  lemma {:induction false} Prefixes(nodes: set<Node>, n: Node, i: nat)
    requires Paths(nodes) && n in nodes && i < |n.path|
    ensures n.path[i] in nodes && n.path[i].path == n.path[..i + 1]
    decreases |n.path|
  {
    assert PathOk(nodes, n);
    if i < |n.path| - 1 {
      var p := n.parent.path;
      assert n.path == p + [n];
      Prefixes(nodes, n.parent, i);
      assert n.path[i] == p[i] && n.path[..i + 1] == p[..i + 1];
    } else if n.parent != null {
      assert n.path == n.parent.path + [n];
      assert n.path[..i + 1] == n.path;
    }
  }

  /** A node stands in a path at its own depth, and nowhere else. */
  lemma DepthOf(nodes: set<Node>, n: Node, a: Node)
    requires Paths(nodes) && n in nodes && a in n.path
    ensures a in nodes && 0 < |a.path| <= |n.path|
    ensures n.path[|a.path| - 1] == a && n.path[..|a.path|] == a.path
  {
    var i :| 0 <= i < |n.path| && n.path[i] == a;
    Prefixes(nodes, n, i);
  }

  /** No removal is under way strictly below `n`. */
  ghost predicate LooseAbove(nodes: set<Node>, loose: set<Node>, n: Node)
    reads nodes`path
  {
    forall l :: l in loose && l in nodes && n in l.path ==> l == n
  }

  /** Below `n` means below one of its listed children. */
  lemma ChildOnPath(nodes: set<Node>, loose: set<Node>, n: Node, m: Node)
    requires Tree(nodes, loose) && n in nodes && m in nodes && n in m.path && n != m
    requires LooseAbove(nodes, loose, n)
    ensures |n.path| < |m.path| && m.path[|n.path|] in n.children
  {
    DepthOf(nodes, m, n);
    var k := |n.path|;
    assert PathOk(nodes, m);
    if k < |m.path| {
      var c := m.path[k];
      Prefixes(nodes, m, k);
      Prefixes(nodes, m, k - 1);
      assert c.path == m.path[..k + 1];
      assert c.path[..k] == m.path[..k];
      assert PathOk(nodes, c);
      assert PathOk(nodes, c.parent);
      assert c.parent.path == c.path[..k] == n.path;
      assert ListedOk(nodes, loose, c);
      assert c.path[k - 1] == n;
    }
  }

  /** A listed child is one step deeper, and whatever lies below it lies below its parent. */
  lemma BelowChild(nodes: set<Node>, loose: set<Node>, n: Node, c: Node, m: Node)
    requires Tree(nodes, loose) && n in nodes && c in n.children && m in nodes && c in m.path
    ensures c in nodes && c.path == n.path + [c] && n in m.path && m != n && c !in n.path
  {
    assert ChildrenOk(nodes, loose, n);
    assert PathOk(nodes, c);
    DepthOf(nodes, m, c);
    assert PathOk(nodes, n);
    assert m.path[..|c.path|][|n.path| - 1] == n;
    if c in n.path {
      DepthOf(nodes, n, c);
    }
  }

  lemma BelowChildren(nodes: set<Node>, loose: set<Node>, n: Node, m: Node)
    requires Tree(nodes, loose) && n in nodes && m in nodes && LooseAbove(nodes, loose, n)
    ensures n in m.path <==> m == n || n.BelowFirst(m, |n.children|)
  {
    assert PathOk(nodes, m);
    if n in m.path && m != n {
      ChildOnPath(nodes, loose, n, m);
      var j :| 0 <= j < |n.children| && n.children[j] == m.path[|n.path|];
      assert n.children[j] in m.path;
    }
    if n.BelowFirst(m, |n.children|) {
      var j :| 0 <= j < |n.children| && n.children[j] in m.path;
      BelowChild(nodes, loose, n, n.children[j], m);
    }
  }

  lemma LooseAboveChild(nodes: set<Node>, loose: set<Node>, n: Node, c: Node)
    requires Tree(nodes, loose) && n in nodes && c in n.children && LooseAbove(nodes, loose, n)
    ensures c in nodes && c in c.path && LooseAbove(nodes, loose, c)
    ensures c.path == n.path + [c] && c !in n.path
  {
    assert ChildrenOk(nodes, loose, n);
    assert PathOk(nodes, c);
    BelowChild(nodes, loose, n, c, c);
    if l :| l in loose && l in nodes && c in l.path {
      BelowChild(nodes, loose, n, c, l);
      assert false;
    }
  }

  /** What is not above a node: it shrinks on the way down. */
  ghost function Elsewhere(nodes: set<Node>, path: seq<Node>): set<Node> {
    nodes - set a | a in path
  }

  lemma ElsewhereShrinks(nodes: set<Node>, path: seq<Node>, c: Node)
    requires c in nodes && c !in path
    ensures Elsewhere(nodes, path + [c]) < Elsewhere(nodes, path)
  {
    assert c in Elsewhere(nodes, path);
    assert c !in Elsewhere(nodes, path + [c]);
  }

  /** The list without the nodes in `gone`. */
  function Except(s: seq<Node>, gone: set<Node>): (r: seq<Node>)
    ensures forall i :: 0 <= i < |r| ==> r[i] in s && r[i] !in gone
    ensures forall i :: 0 <= i < |s| ==> s[i] in gone || s[i] in r
    ensures |r| <= |s|
  {
    if s == [] then []
    else if s[0] in gone then Except(s[1..], gone)
    else [s[0]] + Except(s[1..], gone)
  }

  function Members(s: seq<Node>): set<Node> {
    set x | x in s
  }

  function Dead(s: seq<Node>): set<Node>
    reads s`dead
  {
    set x | x in s && x.dead
  }

  ghost predicate Distinct(s: seq<Node>) {
    s != [] ==> s[0] !in s[1..] && Distinct(s[1..])
  }

  lemma {:induction false} DistinctMeans(s: seq<Node>, i: nat, j: nat)
    requires Distinct(s) && i < j < |s|
    ensures s[i] != s[j]
  {
    if i > 0 {
      DistinctMeans(s[1..], i - 1, j - 1);
    }
  }

  lemma {:induction false} ExceptDistinct(s: seq<Node>, gone: set<Node>)
    requires Distinct(s)
    ensures Distinct(Except(s, gone))
  {
    if s != [] {
      ExceptDistinct(s[1..], gone);
    }
  }

  lemma {:induction false} ExceptAbsent(s: seq<Node>, gone: set<Node>)
    requires forall i :: 0 <= i < |s| ==> s[i] !in gone
    ensures Except(s, gone) == s
  {
    if s != [] {
      ExceptAbsent(s[1..], gone);
    }
  }

  lemma {:induction false} ExceptSnoc(s: seq<Node>, x: Node, gone: set<Node>)
    ensures Except(s + [x], gone) == Except(s, gone) + if x in gone then [] else [x]
  {
    if s != [] {
      ExceptSnoc(s[1..], x, gone);
      assert (s + [x])[1..] == s[1..] + [x];
    }
  }

  lemma {:induction false} ExceptOne(s: seq<Node>, k: nat)
    requires Distinct(s) && k < |s|
    ensures Except(s, {s[k]}) == s[..k] + s[k + 1..]
  {
    if k == 0 {
      ExceptAbsent(s[1..], {s[0]});
    } else {
      ExceptOne(s[1..], k - 1);
      assert s[0] != s[k] && s[1..][k - 1] == s[k];
      assert s[1..][..k - 1] == s[1..k] && s[1..][k..] == s[k + 1..];
      assert s[..k] == [s[0]] + s[1..k];
    }
  }

  lemma {:induction false} DistinctInsert(s: seq<Node>, k: nat, c: Node)
    requires Distinct(s) && k <= |s| && c !in s
    ensures Distinct(s[..k] + [c] + s[k..])
  {
    if k == 0 {
      assert s[..0] + [c] + s[0..] == [c] + s;
      DistinctCons(c, s);
    } else {
      var u := s[1..][..k - 1] + [c] + s[1..][k - 1..];
      DistinctInsert(s[1..], k - 1, c);
      InsertTail(s, k, c);
      DistinctCons(s[0], u);
    }
  }

  lemma InsertTail(s: seq<Node>, k: nat, c: Node)
    requires 0 < k <= |s|
    ensures var u := s[1..][..k - 1] + [c] + s[1..][k - 1..];
            && s[..k] + [c] + s[k..] == [s[0]] + u
            && forall x :: x in u ==> x == c || x in s[1..]
  {
    assert s[1..][..k - 1] == s[1..k] && s[1..][k - 1..] == s[k..];
    assert s[..k] == [s[0]] + s[1..k];
  }

  lemma DistinctCons(x: Node, u: seq<Node>)
    requires x !in u && Distinct(u)
    ensures Distinct([x] + u)
  {
    assert ([x] + u)[1..] == u;
  }

  lemma RotatedSame(s: seq<Node>, k: nat, to: nat)
    requires k < |s|
    ensures var t := Rotated(s, k, to);
            (forall i :: 0 <= i < |t| ==> t[i] in s) && forall i :: 0 <= i < |s| ==> s[i] in t
  {
    assert s == s[..k] + [s[k]] + s[k + 1..];
  }

  /** One element moved to the front or to the back of a list. */
  function Rotated(s: seq<Node>, k: nat, to: nat): seq<Node>
    requires k < |s|
  {
    if to == 0 then [s[k]] + s[..k] + s[k + 1..] else s[..k] + s[k + 1..] + [s[k]]
  }

  lemma Rotates(s: seq<Node>, k: nat, to: nat)
    requires Distinct(s) && k < |s| && (to == 0 || to == |s| - 1)
    ensures var t := Rotated(s, k, to);
            && t == Inserted(Except(s, {s[k]}), to, s[k]) && Distinct(t) && |Except(s, {s[k]})| == |s| - 1
            && (forall i :: 0 <= i < |t| ==> t[i] in s) && forall i :: 0 <= i < |s| ==> s[i] in t
  {
    RotatedSame(s, k, to);
    ExceptOne(s, k);
    RotatedIs(s, k, to);
    ExceptDistinct(s, {s[k]});
    DistinctInserted(Except(s, {s[k]}), to, s[k]);
  }

  lemma RotatedIs(s: seq<Node>, k: nat, to: nat)
    requires k < |s| && (to == 0 || to == |s| - 1)
    ensures Rotated(s, k, to) == Inserted(s[..k] + s[k + 1..], to, s[k])
  {
    var e := s[..k] + s[k + 1..];
    assert |e| == |s| - 1;
    if to < |e| {
      assert e[..0] == [] && e[0..] == e;
    }
  }

  /** Wherever a node of `gone` stands on a path, it stands at this depth. */
  ghost predicate Behind(nodes: set<Node>, was: map<Node, seq<Node>>, depth: nat, gone: seq<Node>) {
    && (forall n <- nodes :: n in was)
    && (forall n, i :: n in nodes && 0 <= i < |gone| && gone[i] in was[n] ==>
                         depth < |was[n]| && was[n][depth] == gone[i])
  }

  ghost predicate CutOne(was: map<Node, seq<Node>>, above: map<Node, Node?>, depth: nat, done: seq<Node>, n: Node)
    reads n`path, n`parent
  {
    && n in was && n.path == Cut(was[n], depth, done)
    && n in above && n.parent == if n in done then null else above[n]
  }

  ghost predicate CutFrom(nodes: set<Node>, was: map<Node, seq<Node>>, above: map<Node, Node?>, depth: nat,
                          gone: seq<Node>, i: nat)
    requires i <= |gone|
    reads nodes`path, nodes`parent
  {
    forall n {:trigger CutOne(was, above, depth, gone[..i], n)} :: n in nodes ==> CutOne(was, above, depth, gone[..i], n)
  }

  lemma MembersStep(gone: seq<Node>, i: nat)
    requires i < |gone| && Distinct(gone)
    ensures gone[i] in Members(gone[i..]) && Members(gone[i..]) - {gone[i]} == Members(gone[i + 1..])
    ensures Members(gone[i..]) <= Members(gone)
  {
    assert gone[i..] == [gone[i]] + gone[i + 1..];
    if gone[i] in gone[i + 1..] {
      var k :| i < k < |gone| && gone[k] == gone[i];
      DistinctMeans(gone, i, k);
      assert false;
    }
  }

  lemma BehindParent(nodes: set<Node>, p: Node, was: map<Node, seq<Node>>, gone: seq<Node>)
    requires Paths(nodes) && p in nodes
    requires forall i :: 0 <= i < |gone| ==> gone[i] in nodes && gone[i].parent == p
    requires forall n <- nodes :: n in was && was[n] == n.path
    ensures Behind(nodes, was, |p.path|, gone)
  {
    forall n, i | n in nodes && 0 <= i < |gone| && gone[i] in was[n]
      ensures |p.path| < |was[n]| && was[n][|p.path|] == gone[i]
    {
      assert PathOk(nodes, gone[i]);
      DepthOf(nodes, n, gone[i]);
    }
  }

  /** A node still to go has its old path. */
  lemma StillStands(nodes: set<Node>, was: map<Node, seq<Node>>, above: map<Node, Node?>, depth: nat,
                    gone: seq<Node>, i: nat, k: nat)
    requires Paths(nodes) && Behind(nodes, was, depth, gone) && i <= k < |gone| && gone[k] in nodes && Distinct(gone)
    requires CutFrom(nodes, was, above, depth, gone, i)
    ensures gone[k] !in gone[..i] && gone[k].path == was[gone[k]] && |gone[k].path| == depth + 1
    ensures gone[k].path[depth] == gone[k]
  {
    var c := gone[k];
    assert CutOne(was, above, depth, gone[..i], c);
    if j :| 0 <= j < i && gone[j] == c {
      DistinctMeans(gone, j, k);
      assert false;
    }
    assert PathOk(nodes, c);
    assert c in c.path && c.path == Cut(was[c], depth, gone[..i]);
    DepthOf(nodes, c, c);
    Prefixes(nodes, c, depth);
  }

  lemma NextIsTop(nodes: set<Node>, was: map<Node, seq<Node>>, above: map<Node, Node?>, depth: nat, gone: seq<Node>, i: nat)
    requires Paths(nodes) && Behind(nodes, was, depth, gone) && i < |gone| && Distinct(gone)
    requires forall j :: 0 <= j < |gone| ==> gone[j] in nodes
    requires CutFrom(nodes, was, above, depth, gone, i)
    ensures gone[i] !in gone[..i] && |gone[i].path| == depth + 1
    ensures LooseAbove(nodes, Members(gone[i..]), gone[i])
  {
    StillStands(nodes, was, above, depth, gone, i, i);
    forall l | l in Members(gone[i..]) && l in nodes && gone[i] in l.path ensures l == gone[i] {
      var k :| i <= k < |gone| && gone[k] == l;
      StillStands(nodes, was, above, depth, gone, i, k);
    }
  }

  lemma CutMore(p: seq<Node>, depth: nat, gone: seq<Node>, i: nat)
    requires i < |gone| && gone[i] !in gone[..i]
    requires gone[i] in p ==> depth < |p| && p[depth] == gone[i]
    ensures Moved(Cut(p, depth, gone[..i]), gone[i], depth + 1, []) == Cut(p, depth, gone[..i + 1])
  {
    assert gone[..i + 1] == gone[..i] + [gone[i]];
  }

  /** Links agree both ways and every child is listed exactly once. */
  lemma LinksAgree(nodes: set<Node>, p: Node, c: Node)
    requires Tree(nodes, {}) && p in nodes && c in nodes
    ensures c.parent == p <==> c in p.children
    ensures Distinct(p.children)
  {
    assert ChildrenOk(nodes, {}, p) && ListedOk(nodes, {}, c);
  }

  /** No node is above itself, however far up one climbs. */
  lemma NoCycle(nodes: set<Node>, n: Node, i: nat, j: nat)
    requires Paths(nodes) && n in nodes && i < j < |n.path|
    ensures n.path[i] != n.path[j]
    ensures n.path[j].parent == n.path[j - 1]
  {
    Prefixes(nodes, n, i);
    Prefixes(nodes, n, j);
    Prefixes(nodes, n, j - 1);
    assert PathOk(nodes, n.path[j]) && PathOk(nodes, n.path[j - 1]);
    assert PathOk(nodes, n.path[j].parent);
    assert n.path[..j + 1][..j] == n.path[..j];
  }

  lemma WorldStep(nodes: set<Node>, n: Node)
    requires n in nodes && Paths(nodes)
    ensures n.path != [] && (n.parent != null ==> n.parent in nodes && n.parent.path != [] && |n.parent.path| < |n.path|)
    ensures World(n.path) == if n.parent == null then LocalOf(n.transform)
                             else Product(World(n.parent.path), LocalOf(n.transform))
  {
    assert PathOk(nodes, n);
    if n.parent != null {
      assert PathOk(nodes, n.parent);
      assert n.path[..|n.path| - 1] == n.parent.path;
    }
  }

  /** Where every tree starts. */
  lemma UnlinkedTree(nodes: set<Node>)
    requires forall n <- nodes :: n.Unlinked()
    ensures Tree(nodes, {}) && Caches(nodes)
  {
    forall n | n in nodes ensures PathOk(nodes, n) && ChildrenOk(nodes, {}, n) && ListedOk(nodes, {}, n) && CacheOk(nodes, n) {
    }
  }

  class Node {
    var children: seq<Node>
    var parent: Node?
    var transform: Transform
    var localMatrix: Mat
    var globalMatrix: Mat
    var localDirty: bool
    var globalDirty: bool
    var dead: bool
    var setupCalled: bool
    var liveRoot: bool
    ghost var path: seq<Node>

    constructor (t: Transform)
      ensures Unlinked() && transform == t && !dead
    {
      children, parent, transform := [], null, t;
      localMatrix, globalMatrix := Scale(ORIGIN), Scale(ORIGIN);
      localDirty, globalDirty := true, true;
      dead, setupCalled, liveRoot := false, false, false;
      path := [this];
    }

    /** As a node starts out: a tree of its own, nothing computed and not set up. */
    ghost predicate Unlinked()
      reads this
    {
      children == [] && parent == null && path == [this] && localDirty && globalDirty && !setupCalled && !liveRoot
    }

    method GetLocalMatrix(ghost nodes: set<Node>) returns (m: Mat)
      requires this in nodes && Caches(nodes)
      modifies this`localMatrix, this`localDirty
      ensures Caches(nodes)
      ensures m == LocalOf(transform) && !localDirty && localMatrix == m
    {
      assert CacheOk(nodes, this);
      if localDirty {
        localMatrix := LocalOf(transform);
        localDirty := false;
      }
      m := localMatrix;
      forall n | n in nodes ensures CacheOk(nodes, n) {
        assert old(CacheOk(nodes, n));
      }
    }

    method GetGlobalMatrix(ghost nodes: set<Node>) returns (m: Mat)
      requires this in nodes && Paths(nodes) && Caches(nodes)
      modifies nodes`localMatrix, nodes`localDirty, nodes`globalMatrix, nodes`globalDirty
      ensures Caches(nodes)
      ensures path != [] && m == World(path) && !globalDirty && globalMatrix == m
      decreases |path|
    {
      assert PathOk(nodes, this);
      assert CacheOk(nodes, this);
      if globalDirty {
        UpdateGlobalMatrix(nodes);
      }
      m := globalMatrix;
    }

    method UpdateGlobalMatrix(ghost nodes: set<Node>)
      requires this in nodes && Paths(nodes) && Caches(nodes)
      modifies nodes`localMatrix, nodes`localDirty, nodes`globalMatrix, nodes`globalDirty
      ensures Caches(nodes)
      ensures path != [] && globalMatrix == World(path) && !globalDirty
      decreases |path|, 0
    {
      WorldStep(nodes, this);
      var up: Mat := Scale(ORIGIN);
      if parent != null {
        up := parent.GetGlobalMatrix(nodes);
      }
      var own := GetLocalMatrix(nodes);
      StoreGlobalMatrix(nodes, if parent != null then Product(up, own) else own);
    }

    method StoreGlobalMatrix(ghost nodes: set<Node>, m: Mat)
      requires this in nodes && Caches(nodes) && path != [] && m == World(path)
      modifies this`globalMatrix, this`globalDirty
      ensures Caches(nodes) && globalMatrix == m && !globalDirty
    {
      assert CacheOk(nodes, this);
      globalMatrix := m;
      globalDirty := false;
      forall n | n in nodes ensures CacheOk(nodes, n) {
        assert old(CacheOk(nodes, n));
      }
    }

    method MarkGlobalMatrixDirty(ghost nodes: set<Node>, ghost loose: set<Node>)
      requires this in nodes && Tree(nodes, loose) && LooseAbove(nodes, loose, this)
      modifies nodes`globalDirty
      ensures forall n <- nodes :: n.globalDirty == (old(n.globalDirty) || this in n.path)
      decreases Elsewhere(nodes, path)
    {
      globalDirty := true;
      var i := 0;
      while i < |children|
        invariant i <= |children|
        invariant forall n <- nodes :: n.globalDirty == (old(n.globalDirty) || n == this || BelowFirst(n, i))
      {
        LooseAboveChild(nodes, loose, this, children[i]);
        ElsewhereShrinks(nodes, path, children[i]);
        children[i].MarkGlobalMatrixDirty(nodes, loose);
        i := i + 1;
      }
      forall n <- nodes ensures this in n.path <==> n == this || BelowFirst(n, i) {
        BelowChildren(nodes, loose, this, n);
      }
    }

    ghost predicate BelowFirst(n: Node, i: nat)
      reads this`children, n`path
    {
      exists j :: 0 <= j < i && j < |children| && children[j] in n.path
    }

    /** The assignment to `parent_`, with the paths below it kept up to date. */
    method Rehang(ghost nodes: set<Node>, p: Node?)
      requires this in nodes && Paths(nodes)
      requires p != null ==> p in nodes && this !in p.path
      modifies this`parent, nodes`path
      ensures Paths(nodes) && Carried(nodes, p) && Tracked(nodes, this)
    {
      ghost var prefix := if p == null then [] else p.path;
      ghost var d := |path|;
      Depths(nodes, this);
      parent := p;
      forall m | m in nodes {
        m.path := Moved(m.path, this, d, prefix);
      }
      RehungAll(nodes, p);
    }

    method SetPos(ghost nodes: set<Node>, pos: Vec)
      requires this in nodes && Tree(nodes, {}) && Caches(nodes)
      modifies this`transform, this`localDirty, nodes`globalDirty
      ensures Caches(nodes) && transform == old(transform).(pos := pos)
    {
      if transform.pos != pos {
        SetTransform(nodes, transform.(pos := pos));
      }
    }

    method SetQuaternion(ghost nodes: set<Node>, rot: int)
      requires this in nodes && Tree(nodes, {}) && Caches(nodes)
      modifies this`transform, this`localDirty, nodes`globalDirty
      ensures Caches(nodes) && transform == old(transform).(rot := rot)
    {
      if transform.rot != rot {
        SetTransform(nodes, transform.(rot := rot));
      }
    }

    method SetScale(ghost nodes: set<Node>, scale: Vec)
      requires this in nodes && Tree(nodes, {}) && Caches(nodes)
      modifies this`transform, this`localDirty, nodes`globalDirty
      ensures Caches(nodes) && transform == old(transform).(scale := scale)
    {
      if transform.scale != scale {
        SetTransform(nodes, transform.(scale := scale));
      }
    }

    /** The root above, when its tree is live: a started window's root that was not destroyed. */
    method FindLiveRoot(ghost nodes: set<Node>) returns (root: Node?)
      requires this in nodes && Paths(nodes)
      ensures path != []
      ensures root == if path[0].liveRoot && !path[0].dead then path[0] else null
    {
      var n := this;
      assert PathOk(nodes, this);
      while n.parent != null
        invariant n in nodes && n.path != [] && n.path[0] == path[0]
        decreases |n.path|
      {
        assert PathOk(nodes, n) && PathOk(nodes, n.parent);
        n := n.parent;
      }
      assert PathOk(nodes, n);
      root := if n.liveRoot && !n.dead then n else null;
    }

    /** Set up, and in the tree of a started window's root: a child that joins is set up at once. */
    ghost predicate Joins()
      reads this, path
    {
      setupCalled && path != [] && path[0].liveRoot && !path[0].dead
    }

    method IsChildOf(p: Node) returns (yes: bool)
      ensures yes == (!dead && parent == p)
    {
      yes := !dead && parent == p;
    }

    /** Stores a changed transform and marks every matrix that depends on it. */
    method SetTransform(ghost nodes: set<Node>, t: Transform)
      requires this in nodes && Tree(nodes, {}) && Caches(nodes)
      modifies this`transform, this`localDirty, nodes`globalDirty
      ensures Caches(nodes) && transform == t
      ensures localDirty && forall n <- nodes :: this in n.path ==> n.globalDirty
    {
      transform := t;
      localDirty := true;
      MarkGlobalMatrixDirty(nodes, {});
      forall n | n in nodes ensures CacheOk(nodes, n) {
        assert old(CacheOk(nodes, n));
        if !n.globalDirty {
          assert World(n.path) == old(World(n.path));
        }
      }
    }

    method MoveToFront(ghost nodes: set<Node>)
      requires this in nodes && Tree(nodes, {})
      modifies (if parent == null then {} else {parent})`children
      ensures Tree(nodes, {})
      ensures parent != null ==> parent.children == Except(old(parent.children), {this}) + [this]
    {
      if parent == null {
        return;
      }
      assert ListedOk(nodes, {}, this) && ChildrenOk(nodes, {}, parent);
      var sib := parent.children;
      var k := parent.IndexOf(this);
      ExceptOne(sib, k);
      if k + 1 == |sib| {
        assert sib == sib[..k] + [this];
        return;
      }
      parent.Reorder(nodes, |sib| - 1, this);
    }

    method MoveToBack(ghost nodes: set<Node>)
      requires this in nodes && Tree(nodes, {})
      modifies (if parent == null then {} else {parent})`children
      ensures Tree(nodes, {})
      ensures parent != null ==> parent.children == [this] + Except(old(parent.children), {this})
    {
      if parent == null {
        return;
      }
      assert ListedOk(nodes, {}, this) && ChildrenOk(nodes, {}, parent);
      var sib := parent.children;
      var k := parent.IndexOf(this);
      ExceptOne(sib, k);
      if k == 0 {
        return;
      }
      parent.Reorder(nodes, 0, this);
    }

    /** `std::rotate` of one listed child to the place `to` among the others. */
    method Reorder(ghost nodes: set<Node>, to: nat, c: Node)
      requires this in nodes && Tree(nodes, {}) && c in children && (to == 0 || to == |children| - 1)
      modifies this`children
      ensures Tree(nodes, {})
      ensures children == Inserted(Except(old(children), {c}), to, c)
      ensures |Except(old(children), {c})| == |old(children)| - 1
    {
      assert ChildrenOk(nodes, {}, this);
      var k := IndexOf(c);
      ghost var was := children;
      children := Rotated(children, k, to);
      Rotates(was, k, to);
      forall i | 0 <= i < |children| ensures children[i] in nodes && children[i].parent == this {
        assert children[i] in was;
      }
      assert ChildrenOk(nodes, {}, this);
      Relisted(nodes, {}, {});
    }

    method IndexOf(c: Node) returns (k: nat)
      ensures k <= |children| && (k < |children| ==> children[k] == c)
      ensures k == |children| <==> c !in children
    {
      k := 0;
      while k < |children| && children[k] != c
        invariant k <= |children| && c !in children[..k]
      {
        k := k + 1;
      }
    }

    method RemoveChild(ghost nodes: set<Node>, c: Node?)
      requires this in nodes && Tree(nodes, {}) && Caches(nodes)
      modifies this`children, (if c == null then {} else {c})`parent, nodes`path, nodes`globalDirty
      ensures Tree(nodes, {}) && Caches(nodes)
      ensures c != null && c in old(children) ==>
                c in nodes && children == Except(old(children), {c}) && c.Carried(nodes, null)
      ensures c == null || c !in old(children) ==>
                children == old(children) && (c != null ==> c.parent == old(c.parent)) && forall n <- nodes :: n.path == old(n.path)
    {
      if c == null {
        return;
      }
      var k := IndexOf(c);
      if k < |children| {
        RemoveAt(nodes, k);
      }
    }

    method RemoveAt(ghost nodes: set<Node>, k: nat)
      requires this in nodes && Tree(nodes, {}) && Caches(nodes) && k < |children|
      modifies this`children, {children[k]}`parent, nodes`path, nodes`globalDirty
      ensures Tree(nodes, {}) && Caches(nodes)
      ensures var c: Node := old(children[k]);
              c in nodes && children == Except(old(children), {c}) && c.Carried(nodes, null)
    {
      var c := children[k];
      assert ChildrenOk(nodes, {}, this);
      ExceptOne(children, k);
      ExceptDistinct(children, {c});
      children := children[..k] + children[k + 1..];
      assert ChildrenOk(nodes, {c}, this);
      Relisted(nodes, {}, {c});
      assert PathOk(nodes, c);
      assert {c} - {c} == {};
      c.Hang(nodes, {c}, null);
    }

    /** The first half of a move: off the old parent, if there is one. */
    method LeaveParent(ghost nodes: set<Node>)
      requires this in nodes && Tree(nodes, {}) && Caches(nodes)
      modifies (if parent == null then {} else {parent})`children, this`parent, nodes`path, nodes`globalDirty
      ensures Tree(nodes, {}) && Caches(nodes) && Carried(nodes, null) && Tracked(nodes, this)
      ensures Unlisted(nodes, this)
    {
      Depths(nodes, this);
      AbsentElsewhere(nodes);
      if parent != null {
        assert ListedOk(nodes, {}, this);
        parent.RemoveChild(nodes, this);
      } else {
        AlreadyRoot(nodes);
      }
    }

    lemma AbsentElsewhere(nodes: set<Node>)
      requires this in nodes && Tree(nodes, {})
      ensures forall n <- nodes :: n != parent ==> Except(n.children, {this}) == n.children
    {
      forall n | n in nodes && n != parent ensures Except(n.children, {this}) == n.children {
        assert ChildrenOk(nodes, {}, n);
        ExceptAbsent(n.children, {this});
      }
    }

    twostate lemma AlreadyRoot(nodes: set<Node>)
      requires this in nodes && parent == null && Paths(nodes) && AllAtDepth(nodes, this)
      requires forall n <- nodes :: n.path == old(n.path) && n.parent == old(n.parent)
      ensures Carried(nodes, null)
    {
      assert PathOk(nodes, this);
      forall n | n in nodes ensures n.path == Moved(old(n.path), this, |old(path)|, []) {
        assert AtDepth(n, this);
      }
    }

    /** Everything `insertChild` does up to the set-up of the joined subtree. */
    method Join(ghost nodes: set<Node>, index: nat, child: Node)
      requires this in nodes && child in nodes && Tree(nodes, {}) && Caches(nodes)
      requires child !in path
      modifies nodes`children, child`parent, nodes`path, nodes`globalDirty
      ensures Tree(nodes, {}) && Caches(nodes) && child.Carried(nodes, this)
      ensures children == Inserted(Except(old(children), {child}), index, child)
      ensures forall n <- nodes :: n != this ==> n.children == Except(old(n.children), {child})
    {
      child.MoveBelow(nodes, this);
      List(nodes, index, child);
    }

    /** `addChild`/`insertChild`, with the child's global position kept on request. */
    method Attach(ghost nodes: set<Node>, index: nat, child: Node, keep: bool)
      requires this in nodes && child in nodes && Tree(nodes, {}) && Caches(nodes)
      requires child !in path
      modifies nodes`children, child`parent, child`transform, nodes`path
      modifies nodes`globalDirty, nodes`localDirty, nodes`globalMatrix, nodes`localMatrix
      ensures Tree(nodes, {}) && Caches(nodes) && child.Carried(nodes, this)
      ensures children == Inserted(Except(old(children), {child}), index, child)
      ensures forall n <- nodes :: n != this ==> n.children == Except(old(n.children), {child})
      ensures !keep ==> child.transform == old(child.transform)
      ensures keep ==> path != [] && old(child.path) != [] && child.transform == old(child.transform).(
                pos := WithDepth(InverseTimes(World(path), Times(old(World(child.path)), ORIGIN)), old(child.transform.pos)))
    {
      var gpos := ORIGIN;
      if keep {
        var m := child.GetGlobalMatrix(nodes);
        gpos := Times(m, ORIGIN);
      }
      Join(nodes, index, child);
      if keep {
        Restore(nodes, child, gpos);
      }
    }

    /** Moves a child to this global position. */
    method Restore(ghost nodes: set<Node>, child: Node, gpos: Vec)
      requires this in nodes && child in nodes && child !in path && Tree(nodes, {}) && Caches(nodes)
      modifies child`transform, nodes`globalDirty, nodes`localDirty, nodes`globalMatrix, nodes`localMatrix
      ensures Caches(nodes) && path != []
      ensures child.transform == old(child.transform).(
                pos := WithDepth(InverseTimes(World(path), gpos), old(child.transform.pos)))
    {
      var m := GetGlobalMatrix(nodes);
      child.SetPos(nodes, WithDepth(InverseTimes(m, gpos), child.transform.pos));
      assert World(path) == old(World(path));
    }

    method MoveBelow(ghost nodes: set<Node>, p: Node)
      requires this in nodes && p in nodes && Tree(nodes, {}) && Caches(nodes)
      requires this !in p.path
      modifies nodes`children, this`parent, nodes`path, nodes`globalDirty
      ensures Tree(nodes, {this}) && Caches(nodes) && Carried(nodes, p) && Unlisted(nodes, this)
      ensures this !in p.children
    {
      ghost var was := map n | n in nodes :: n.path;
      assert PathOk(nodes, this);
      LeaveParent(nodes);
      assert path == [this] && p.path == old(p.path);
      forall n | n in nodes ensures FromTo(was, |old(path)|, [], n) {
        assert old(AtDepth(n, this));
      }
      HangRoot(nodes, p, was, |old(path)|);
      forall n | n in nodes ensures n.path == Moved(old(n.path), this, |old(path)|, old(p.path)) {
        assert FromTo(was, |old(path)|, old(p.path), n);
      }
    }

    ghost predicate FromTo(was: map<Node, seq<Node>>, depth: nat, prefix: seq<Node>, n: Node)
      reads n`path
    {
      && n in was && (this in was[n] ==> 0 < depth <= |was[n]| && was[n][depth - 1] == this)
      && n.path == Moved(was[n], this, depth, prefix)
    }

    method HangRoot(ghost nodes: set<Node>, p: Node, ghost was: map<Node, seq<Node>>, ghost depth: nat)
      requires this in nodes && parent == null && path == [this] && Tree(nodes, {}) && Caches(nodes)
      requires p in nodes && this !in p.path
      requires forall n {:trigger FromTo(was, depth, [], n)} :: n in nodes ==> FromTo(was, depth, [], n)
      modifies this`parent, nodes`path, nodes`globalDirty
      ensures Tree(nodes, {this}) && Caches(nodes) && this !in p.children
      ensures parent == p
      ensures forall n {:trigger FromTo(was, depth, old(p.path), n)} :: n in nodes ==> FromTo(was, depth, old(p.path), n)
    {
      assert {} + {this} == {this};
      Hang(nodes, {}, p);
      assert ChildrenOk(nodes, {this}, p);
      forall n | n in nodes ensures FromTo(was, depth, old(p.path), n) {
        assert old(FromTo(was, depth, [], n));
        MovedTwice(was[n], this, depth, old(p.path));
      }
    }

    method List(ghost nodes: set<Node>, index: nat, child: Node)
      requires this in nodes && child in nodes && Tree(nodes, {child}) && child.parent == this
      modifies this`children
      ensures Tree(nodes, {}) && children == Inserted(old(children), index, child)
    {
      assert ChildrenOk(nodes, {child}, this);
      DistinctInserted(children, index, child);
      children := Inserted(children, index, child);
      assert ChildrenOk(nodes, {}, this);
      Relisted(nodes, {child}, {});
    }

    method RemoveAllChildren(ghost nodes: set<Node>)
      requires this in nodes && Tree(nodes, {}) && Caches(nodes)
      modifies this`children, children`parent, nodes`path, nodes`globalDirty
      ensures Tree(nodes, {}) && Caches(nodes) && children == []
      ensures Released(nodes, old(children))
    {
      var cleared := children;
      assert ChildrenOk(nodes, {}, this);
      children := [];
      Relisted(nodes, {}, Members(cleared));
      Release(nodes, cleared);
    }

    method SweepDeadChildren(ghost nodes: set<Node>)
      requires this in nodes && Tree(nodes, {}) && Caches(nodes)
      modifies this`children, children`parent, nodes`path, nodes`globalDirty
      ensures Tree(nodes, {}) && Caches(nodes)
      ensures children == Except(old(children), Dead(old(children)))
      ensures Released(nodes, Except(old(children), Members(children)))
    {
      assert ChildrenOk(nodes, {}, this);
      var dead := CollectDead();
      if dead == [] {
        ExceptAbsent(children, Dead(children));
        return;
      }
      ExceptDistinct(children, Members(children) - Dead(children));
      ghost var living := Members(children) - Dead(children);
      Unlist(nodes, dead);
      assert Members(children) == living;
    }

    method Unlist(ghost nodes: set<Node>, dead: seq<Node>)
      requires this in nodes && Tree(nodes, {}) && Caches(nodes)
      requires Distinct(dead) && forall i :: 0 <= i < |dead| ==> dead[i] in children
      modifies this`children, dead`parent, nodes`path, nodes`globalDirty
      ensures Tree(nodes, {}) && Caches(nodes)
      ensures children == Except(old(children), Members(dead)) && Released(nodes, dead)
    {
      assert ChildrenOk(nodes, {}, this);
      ExceptDistinct(children, Members(dead));
      children := Except(children, Members(dead));
      assert ChildrenOk(nodes, Members(dead), this);
      Relisted(nodes, {}, Members(dead));
      Release(nodes, dead);
    }

    method CollectDead() returns (dead: seq<Node>)
      ensures dead == Except(children, Members(children) - Dead(children))
      ensures Members(dead) == Dead(children)
    {
      dead := [];
      ghost var living := Members(children) - Dead(children);
      for i := 0 to |children|
        invariant dead == Except(children[..i], living)
      {
        assert children[..i + 1] == children[..i] + [children[i]];
        ExceptSnoc(children[..i], children[i], living);
        if children[i].dead {
          dead := dead + [children[i]];
        }
      }
      assert children[..|children|] == children;
    }

    /** Unlinks nodes that are already off this node's list. */
    method Release(ghost nodes: set<Node>, gone: seq<Node>)
      requires this in nodes && Tree(nodes, Members(gone)) && Caches(nodes)
      requires Distinct(gone) && forall i :: 0 <= i < |gone| ==> gone[i] in nodes && gone[i].parent == this
      modifies gone`parent, nodes`path, nodes`globalDirty
      ensures Tree(nodes, {}) && Caches(nodes) && Released(nodes, gone)
    {
      ghost var was := map n | n in nodes :: n.path;
      ghost var above := map n | n in nodes :: n.parent;
      BehindParent(nodes, this, was, gone);
      var i := 0;
      while i < |gone|
        invariant i <= |gone|
        invariant Tree(nodes, Members(gone[i..])) && Caches(nodes)
        invariant CutFrom(nodes, was, above, |old(path)|, gone, i)
      {
        ReleaseNext(nodes, was, above, |old(path)|, gone, i);
        i := i + 1;
      }
      assert gone[..i] == gone && Members(gone[i..]) == {};
      forall n | n in nodes
        ensures n.path == Cut(old(n.path), |old(path)|, gone) && n.parent == if n in gone then null else old(n.parent)
      {
        assert CutOne(was, above, |old(path)|, gone[..i], n);
      }
    }

    static method ReleaseNext(ghost nodes: set<Node>, ghost was: map<Node, seq<Node>>, ghost above: map<Node, Node?>,
                              ghost depth: nat, gone: seq<Node>, i: nat)
      requires i < |gone| && Distinct(gone) && Tree(nodes, Members(gone[i..])) && Caches(nodes)
      requires forall j :: 0 <= j < |gone| ==> gone[j] in nodes
      requires Behind(nodes, was, depth, gone)
      requires CutFrom(nodes, was, above, depth, gone, i)
      modifies {gone[i]}`parent, nodes`path, nodes`globalDirty
      ensures Tree(nodes, Members(gone[i + 1..])) && Caches(nodes)
      ensures CutFrom(nodes, was, above, depth, gone, i + 1)
    {
      NextIsTop(nodes, was, above, depth, gone, i);
      MembersStep(gone, i);
      gone[i].Hang(nodes, Members(gone[i..]), null);
      forall n | n in nodes ensures CutOne(was, above, depth, gone[..i + 1], n) {
        assert old(CutOne(was, above, depth, gone[..i], n));
        CutMore(was[n], depth, gone, i);
      }
    }

    twostate predicate Released(nodes: set<Node>, new gone: seq<Node>)
      reads nodes`path, nodes`parent
    {
      && (forall n <- nodes :: n.parent == if n in gone then null else old(n.parent))
      && (forall n <- nodes :: n.path == Cut(old(n.path), |old(path)|, gone))
    }

    twostate lemma Relisted(nodes: set<Node>, new loose: set<Node>, new late: set<Node>)
      requires this in nodes && loose <= nodes && old(Tree(nodes, loose))
      requires forall n <- nodes :: n.path == old(n.path) && n.parent == old(n.parent)
      requires forall n <- nodes :: n != this ==> n.children == old(n.children)
      requires ChildrenOk(nodes, late, this)
      requires forall i :: 0 <= i < |old(children)| ==> old(children)[i] in late || old(children)[i] in children
      requires forall n <- nodes :: n.parent != this ==> (n in loose <==> n in late)
      requires forall n <- nodes :: n in loose && n !in late ==> n in children
      ensures Tree(nodes, late)
    {
      forall n | n in nodes ensures PathOk(nodes, n) {
        assert old(PathOk(nodes, n));
      }
      forall n | n in nodes ensures ChildrenOk(nodes, late, n) {
        assert old(ChildrenOk(nodes, loose, n));
      }
      forall n | n in nodes ensures ListedOk(nodes, late, n) {
        assert old(ListedOk(nodes, loose, n));
        if n.parent == this && n !in late && n !in loose {
          var i :| 0 <= i < |old(children)| && old(children)[i] == n;
        }
      }
    }

    /** Points the node at its new parent, or at none, and marks what lies below it. */
    method Hang(ghost nodes: set<Node>, ghost loose: set<Node>, p: Node?)
      requires this in nodes && Tree(nodes, loose) && Caches(nodes) && LooseAbove(nodes, loose, this)
      requires loose <= nodes && (this in loose || parent == null)
      requires p != null ==> p in nodes && this !in p.path
      modifies this`parent, nodes`path, nodes`globalDirty
      ensures Tree(nodes, if p == null then loose - {this} else loose + {this})
      ensures Caches(nodes) && Carried(nodes, p)
    {
      Rehang(nodes, p);
      RestOfTree(nodes, loose, p);
      MarkGlobalMatrixDirty(nodes, if p == null then loose - {this} else loose + {this});
      KeptCaches(nodes, p);
    }

    twostate lemma RestOfTree(nodes: set<Node>, new loose: set<Node>, new p: Node?)
      requires this in nodes && loose <= nodes && old(Tree(nodes, loose)) && (this in loose || old(parent) == null)
      requires old(LooseAbove(nodes, loose, this))
      requires Paths(nodes) && Carried(nodes, p)
      requires forall n <- nodes :: n.children == old(n.children)
      ensures Tree(nodes, if p == null then loose - {this} else loose + {this})
      ensures LooseAbove(nodes, if p == null then loose - {this} else loose + {this}, this)
    {
      ghost var late := if p == null then loose - {this} else loose + {this};
      forall n | n in nodes ensures ChildrenOk(nodes, late, n) {
        assert old(ChildrenOk(nodes, loose, n));
      }
      forall n | n in nodes ensures ListedOk(nodes, late, n) {
        assert old(ListedOk(nodes, loose, n));
      }
    }

    twostate lemma KeptCaches(nodes: set<Node>, new p: Node?)
      requires old(Caches(nodes)) && Paths(nodes) && Carried(nodes, p) && Tracked(nodes, this)
      requires OnlyMarked(nodes)
      ensures Caches(nodes)
    {
      forall n | n in nodes ensures CacheOk(nodes, n) {
        KeptCache(nodes, p, n);
      }
    }

    twostate predicate OnlyMarked(nodes: set<Node>)
      reads nodes
    {
      && (forall n <- nodes :: n.globalDirty == (old(n.globalDirty) || this in n.path))
      && (forall n <- nodes :: n.transform == old(n.transform) && n.localDirty == old(n.localDirty))
      && (forall n <- nodes :: n.localMatrix == old(n.localMatrix) && n.globalMatrix == old(n.globalMatrix))
    }

    twostate lemma KeptCache(nodes: set<Node>, new p: Node?, new n: Node)
      requires n in nodes && old(Caches(nodes)) && Paths(nodes) && Carried(nodes, p) && Tracked(nodes, this)
      requires OnlyMarked(nodes)
      ensures CacheOk(nodes, n)
    {
      assert old(CacheOk(nodes, n));
      assert PathOk(nodes, n);
      assert old(AtDepth(n, this));
      forall a | a in n.path ensures a in nodes {
        DepthOf(nodes, n, a);
      }
      if this in old(n.path) {
        assert (n.path)[|if p == null then [] else old(p.path)|] == this;
      } else if !n.globalDirty {
        assert World(n.path) == old(World(n.path));
      }
    }

    /** `this`, with all that is below it, was hung below `p`. */
    twostate predicate Carried(nodes: set<Node>, new p: Node?)
      reads nodes`path, nodes`parent
    {
      && this in nodes && parent == p && (p != null ==> p in nodes && this !in old(p.path))
      && (forall m <- nodes :: m != this ==> m.parent == old(m.parent))
      && (forall m <- nodes :: m.path == Moved(old(m.path), this, |old(path)|, if p == null then [] else old(p.path)))
    }

    twostate lemma RehungAll(nodes: set<Node>, new p: Node?)
      requires Tracked(nodes, this)
      requires Carried(nodes, p)
      ensures Paths(nodes)
    {
      forall n | n in nodes ensures PathOk(nodes, n) {
        Rehung(nodes, p, n);
      }
    }

    twostate lemma Rehung(nodes: set<Node>, new p: Node?, new n: Node)
      requires n in nodes && Tracked(nodes, this)
      requires Carried(nodes, p)
      ensures PathOk(nodes, n)
    {
      assert old(PathOk(nodes, n));
      assert old(PathOk(nodes, this));
      ghost var prefix := if p == null then [] else old(p.path);
      if n == this {
        assert path == prefix + [this];
      } else if n.parent != null {
        var q := n.parent;
        assert old(n.path) == old(q.path) + [n];
        if this in old(n.path) {
          assert old(AtDepth(q, this));
          MovedStep(old(q.path), n, this, |old(path)|, prefix);
        }
      }
    }
  }

  ghost predicate AtDepth(n: Node, a: Node)
    reads n`path, a`path
  {
    a in n.path ==> 0 < |a.path| <= |n.path| && n.path[|a.path| - 1] == a
  }

  ghost predicate AllAtDepth(nodes: set<Node>, a: Node)
    reads nodes`path, a`path
  {
    forall n {:trigger AtDepth(n, a)} :: n in nodes ==> AtDepth(n, a)
  }

  lemma Depths(nodes: set<Node>, a: Node)
    requires Paths(nodes)
    ensures AllAtDepth(nodes, a)
  {
    forall n | n in nodes ensures AtDepth(n, a) {
      if a in n.path {
        DepthOf(nodes, n, a);
      }
    }
  }

  twostate predicate Unlisted(nodes: set<Node>, new c: Node)
    reads nodes`children
  {
    forall n <- nodes :: n.children == Except(old(n.children), {c})
  }

  twostate predicate Tracked(nodes: set<Node>, c: Node)
    reads nodes`path, nodes`parent
  {
    c in nodes && old(Paths(nodes)) && old(AllAtDepth(nodes, c))
  }

  lemma MovedTwice(path: seq<Node>, c: Node, depth: nat, prefix: seq<Node>)
    requires c in path ==> 0 < depth <= |path| && path[depth - 1] == c
    ensures Moved(Moved(path, c, depth, []), c, 1, prefix) == Moved(path, c, depth, prefix)
  {
    if c in path {
      assert path[depth - 1..][0] == c;
    }
  }

  lemma MovedStep(path: seq<Node>, n: Node, c: Node, depth: nat, prefix: seq<Node>)
    requires c in path && 0 < depth <= |path|
    ensures Moved(path + [n], c, depth, prefix) == Moved(path, c, depth, prefix) + [n]
  {
    assert (path + [n])[depth - 1..] == path[depth - 1..] + [n];
  }

  lemma DistinctInserted(s: seq<Node>, index: nat, c: Node)
    requires Distinct(s) && c !in s
    ensures Distinct(Inserted(s, index, c))
  {
    DistinctInsert(s, if index >= |s| then |s| else index, c);
    assert s[..|s|] + [c] + s[|s|..] == s + [c];
  }

  function Inserted(s: seq<Node>, index: nat, c: Node): seq<Node> {
    if index >= |s| then s + [c] else s[..index] + [c] + s[index..]
  }

  /** The path of a node after the nodes `gone`, `depth` steps down, became roots. */
  ghost function Cut(path: seq<Node>, depth: nat, gone: seq<Node>): seq<Node> {
    if depth < |path| && path[depth] in gone then path[depth..] else path
  }

  /** A path after the node `c` on it, `depth` steps down, was hung below `prefix`. */
  ghost function Moved(path: seq<Node>, c: Node, depth: nat, prefix: seq<Node>): seq<Node> {
    if c in path && 0 < depth <= |path| then prefix + path[depth - 1..] else path
  }
}
