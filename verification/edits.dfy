// Edits of the scene graph as values (core/include/tcNode.h): a picture of the tree, what one
// edit makes of it, and the record of the edits that were made.
module TreeEdits {
  import opened SceneGraph

  /** What a `setup()` body does to the tree, one call at a time. */
  datatype Op =
    | Add(parent: Node, child: Node, keep: bool)
    | Insert(parent: Node, index: nat, child: Node, keep: bool)
    | Remove(parent: Node, gone: Node)
    | Clear(parent: Node)
    | Destroy(node: Node)
    | ToFront(node: Node)
    | ToBack(node: Node)
    | Place(node: Node, pos: Vec)
    | Turn(node: Node, rot: int)
    | Stretch(node: Node, scale: Vec)

  ghost predicate Within(nodes: set<Node>, op: Op) {
    match op
    case Add(p, c, _) => p in nodes && c in nodes
    case Insert(p, _, c, _) => p in nodes && c in nodes
    case Remove(p, c) => p in nodes && c in nodes
    case Clear(p) => p in nodes
    case Destroy(n) => n in nodes
    case ToFront(n) => n in nodes
    case ToBack(n) => n in nodes
    case Place(n, _) => n in nodes
    case Turn(n, _) => n in nodes
    case Stretch(n, _) => n in nodes
  }

  /** An edit, by the `setup()` body of a node or, with null, by the program; or something the frame loop does. */
  datatype Event =
    | Edit(author: Node?, op: Op)
    | Rooted(node: Node)
    | Swept(node: Node)

  // ---- the tree as a value ----

  datatype Shape = Shape(path: seq<Node>, parent: Node?, children: seq<Node>, dead: bool, liveRoot: bool, transform: Transform)

  type Picture = map<Node, Shape>

  ghost function ShapeOf(n: Node): Shape
    reads n`path, n`parent, n`children, n`dead, n`liveRoot, n`transform
  {
    Shape(n.path, n.parent, n.children, n.dead, n.liveRoot, n.transform)
  }

  ghost function PictureOf(nodes: set<Node>): Picture
    reads nodes`path, nodes`parent, nodes`children, nodes`dead, nodes`liveRoot, nodes`transform
  {
    map n | n in nodes :: ShapeOf(n)
  }

  /** The product of the local matrices along a path, root first. */
  ghost function WorldIn(pic: Picture, path: seq<Node>): Mat
    requires path != [] && forall a <- path :: a in pic
  {
    var own := LocalOf(pic[path[|path| - 1]].transform);
    if |path| == 1 then own else Product(WorldIn(pic, path[..|path| - 1]), own)
  }

  ghost predicate Placed(pic: Picture, n: Node) {
    n in pic && pic[n].path != [] && forall a <- pic[n].path :: a in pic
  }

  /** The local transform with which `c` keeps its global position below `p`. */
  ghost function Rebased(pic: Picture, p: Node, c: Node): Transform
    requires c in pic
  {
    var t := pic[c].transform;
    if Placed(pic, p) && Placed(pic, c) then
      t.(pos := WithDepth(InverseTimes(WorldIn(pic, pic[p].path), Times(WorldIn(pic, pic[c].path), ORIGIN)), t.pos))
    else t
  }

  // ---- what one edit makes of it ----

  /** `c` leaves its parent and comes to stand at `index` below `p`, with all that is below it. */
  ghost function HungIn(pic: Picture, p: Node, index: nat, c: Node, keep: bool): Picture
    requires p in pic && c in pic
  {
    map m | m in pic :: HungShape(pic, p, index, c, keep, m)
  }

  ghost function HungShape(pic: Picture, p: Node, index: nat, c: Node, keep: bool, m: Node): Shape
    requires p in pic && c in pic && m in pic
  {
    var without := Except(pic[m].children, {c});
    pic[m].(
      path := Moved(pic[m].path, c, |pic[c].path|, pic[p].path),
      parent := if m == c then p else pic[m].parent,
      children := if m == p then Inserted(without, index, c) else without,
      transform := if m == c && keep then Rebased(pic, p, c) else pic[m].transform)
  }

  /** The children `gone` of `p` become roots; `left` is what `p` still lists. */
  ghost function Loosed(pic: Picture, p: Node, gone: seq<Node>, left: seq<Node>): Picture
    requires p in pic
  {
    map m | m in pic ::
      pic[m].(
        path := Cut(pic[m].path, |pic[p].path|, gone),
        parent := if m in gone then null else pic[m].parent,
        children := if m == p then left else pic[m].children)
  }

  /** `c` leaves the list of `p` and becomes a root, with all that is below it. */
  ghost function Freed(pic: Picture, p: Node, c: Node): Picture
    requires p in pic && c in pic
  {
    map m | m in pic :: FreedShape(pic, p, c, m)
  }

  ghost function FreedShape(pic: Picture, p: Node, c: Node, m: Node): Shape
    requires p in pic && c in pic && m in pic
  {
    pic[m].(
      path := Moved(pic[m].path, c, |pic[c].path|, []),
      parent := if m == c then null else pic[m].parent,
      children := if m == p then Except(pic[m].children, {c}) else pic[m].children)
  }

  ghost function Reordered(pic: Picture, p: Node, children: seq<Node>): Picture
    requires p in pic
  {
    pic[p := pic[p].(children := children)]
  }

  ghost function ApplyOp(pic: Picture, op: Op): Picture {
    if !Within(pic.Keys, op) then pic
    else match op
      case Add(p, c, keep) => if c == p then pic else HungIn(pic, p, |pic[p].children|, c, keep)
      case Insert(p, index, c, keep) => if c == p then pic else HungIn(pic, p, index, c, keep)
      case Remove(p, c) => if c in pic[p].children then Freed(pic, p, c) else pic
      case Clear(p) => Loosed(pic, p, pic[p].children, [])
      case Destroy(n) => pic[n := pic[n].(dead := true)]
      case ToFront(n) =>
        if pic[n].parent == null || pic[n].parent !in pic then pic
        else Reordered(pic, pic[n].parent, Except(pic[pic[n].parent].children, {n}) + [n])
      case ToBack(n) =>
        if pic[n].parent == null || pic[n].parent !in pic then pic
        else Reordered(pic, pic[n].parent, [n] + Except(pic[pic[n].parent].children, {n}))
      case Place(n, pos) => pic[n := pic[n].(transform := pic[n].transform.(pos := pos))]
      case Turn(n, rot) => pic[n := pic[n].(transform := pic[n].transform.(rot := rot))]
      case Stretch(n, scale) => pic[n := pic[n].(transform := pic[n].transform.(scale := scale))]
  }

  ghost function DeadIn(pic: Picture, s: seq<Node>): set<Node> {
    set x | x in s && x in pic && pic[x].dead
  }

  ghost function Apply(pic: Picture, e: Event): Picture {
    match e
    case Edit(_, op) => ApplyOp(pic, op)
    case Rooted(n) => if n in pic then pic[n := pic[n].(liveRoot := true)] else pic
    case Swept(p) =>
      if p !in pic then pic
      else
        var left := Except(pic[p].children, DeadIn(pic, pic[p].children));
        Loosed(pic, p, Except(pic[p].children, Members(left)), left)
  }

  /** The tree after these events. */
  ghost function Replay(start: Picture, trace: seq<Event>): Picture {
    if trace == [] then start else Apply(Replay(start, trace[..|trace| - 1]), trace[|trace| - 1])
  }

  lemma ReplaySnoc(start: Picture, trace: seq<Event>, e: Event)
    ensures Replay(start, trace + [e]) == Apply(Replay(start, trace), e)
  {
    assert (trace + [e])[..|trace|] == trace;
  }

  /** What the source leaves to its callers: no node goes below itself, and a window's root stays a root. */
  ghost predicate Refused(pic: Picture, op: Op) {
    && (op.Add? || op.Insert?) && op.child != op.parent
    && op.parent in pic && op.child in pic && (op.child in pic[op.parent].path || pic[op.child].liveRoot)
  }

  // ---- whose edits ----

  /** The edits of one node's `setup()`, in order. */
  function Own(trace: seq<Event>, n: Node): seq<Op> {
    if trace == [] then []
    else
      var e := trace[|trace| - 1];
      Own(trace[..|trace| - 1], n) + if e.Edit? && e.author == n then [e.op] else []
  }

  lemma OwnSnoc(trace: seq<Event>, e: Event, n: Node)
    ensures Own(trace + [e], n) == Own(trace, n) + if e.Edit? && e.author == n then [e.op] else []
  {
    assert (trace + [e])[..|trace|] == trace;
  }

  /** From k on all events are edits by these. */
  ghost predicate ByOnly(trace: seq<Event>, k: nat, who: set<Node?>) {
    forall i :: k <= i < |trace| ==> trace[i].Edit? && trace[i].author in who
  }

  lemma {:induction false} OwnStays(trace: seq<Event>, k: nat, who: set<Node?>, n: Node)
    requires k <= |trace| && ByOnly(trace, k, who) && n !in who
    ensures Own(trace, n) == Own(trace[..k], n)
    decreases |trace|
  {
    if k < |trace| {
      var init := trace[..|trace| - 1];
      OwnStays(init, k, who, n);
      assert init[..k] == trace[..k];
    } else {
      assert trace[..k] == trace;
    }
  }

  lemma {:induction false} NoneBy(trace: seq<Event>, n: Node, i: nat)
    requires Own(trace, n) == [] && i < |trace|
    ensures !(trace[i].Edit? && trace[i].author == n)
  {
    if i < |trace| - 1 {
      NoneBy(trace[..|trace| - 1], n, i);
    }
  }

  /** When all later events are edits of one node, they are its own. */
  lemma {:induction false} AllBy(trace: seq<Event>, k: nat, n: Node)
    requires k <= |trace| && ByOnly(trace, k, {n}) && Own(trace[..k], n) == []
    ensures |Own(trace, n)| == |trace| - k
    ensures forall i :: k <= i < |trace| ==> trace[i] == Edit(n, Own(trace, n)[i - k])
    decreases |trace|
  {
    if k < |trace| {
      var init := trace[..|trace| - 1];
      assert init[..k] == trace[..k];
      AllBy(init, k, n);
      assert trace[|trace| - 1].Edit? && trace[|trace| - 1].author in {n as Node?};
    } else {
      assert trace[..k] == trace;
    }
  }

  // ---- one edit in the tree and in its picture ----

  lemma {:induction false} WorldPictured(nodes: set<Node>, path: seq<Node>)
    requires path != [] && forall a <- path :: a in nodes
    ensures forall a <- path :: a in PictureOf(nodes)
    ensures WorldIn(PictureOf(nodes), path) == World(path)
  {
    if |path| > 1 {
      WorldPictured(nodes, path[..|path| - 1]);
    }
  }

  /** Nothing changed but what is told of each node. */
  twostate predicate FlagsKept(nodes: set<Node>)
    reads nodes`dead, nodes`liveRoot
  {
    forall n <- nodes :: n.dead == old(n.dead) && n.liveRoot == old(n.liveRoot)
  }

  twostate lemma HungPictured(nodes: set<Node>, new p: Node, new index: nat, new c: Node, new keep: bool)
    requires p in nodes && c in nodes && c != p && c.Carried(nodes, p) && FlagsKept(nodes)
    requires p.children == Inserted(Except(old(p.children), {c}), index, c)
    requires forall n <- nodes :: n != p ==> n.children == Except(old(n.children), {c})
    requires forall n <- nodes :: n != c ==> n.transform == old(n.transform)
    requires c.transform == if keep then Rebased(old(PictureOf(nodes)), p, c) else old(c.transform)
    ensures PictureOf(nodes) == HungIn(old(PictureOf(nodes)), p, index, c, keep)
  {
    forall m | m in nodes ensures ShapeOf(m) == HungShape(old(PictureOf(nodes)), p, index, c, keep, m) {
      HungAt(nodes, p, index, c, keep, m);
    }
  }

  twostate lemma HungAt(nodes: set<Node>, new p: Node, new index: nat, new c: Node, new keep: bool, new m: Node)
    requires p in nodes && c in nodes && c != p && m in nodes && c.Carried(nodes, p) && FlagsKept(nodes)
    requires p.children == Inserted(Except(old(p.children), {c}), index, c)
    requires m != p ==> m.children == Except(old(m.children), {c})
    requires m != c ==> m.transform == old(m.transform)
    requires c.transform == if keep then Rebased(old(PictureOf(nodes)), p, c) else old(c.transform)
    ensures ShapeOf(m) == HungShape(old(PictureOf(nodes)), p, index, c, keep, m)
  {
    var pic := old(PictureOf(nodes));
    assert pic[c] == old(ShapeOf(c)) && pic[p] == old(ShapeOf(p)) && pic[m] == old(ShapeOf(m));
    assert m.path == Moved(old(m.path), c, |old(c.path)|, old(p.path));
  }

  twostate lemma FreedPictured(nodes: set<Node>, new p: Node, new c: Node)
    requires p in nodes && c in nodes && c.Carried(nodes, null) && FlagsKept(nodes)
    requires p.children == Except(old(p.children), {c})
    requires forall n <- nodes :: n.transform == old(n.transform) && (n != p ==> n.children == old(n.children))
    ensures PictureOf(nodes) == Freed(old(PictureOf(nodes)), p, c)
  {
    var pic := old(PictureOf(nodes));
    forall m | m in nodes ensures PictureOf(nodes)[m] == Freed(pic, p, c)[m] {
      FreedAt(nodes, p, c, m);
    }
    assert PictureOf(nodes).Keys == Freed(pic, p, c).Keys;
  }

  twostate lemma FreedAt(nodes: set<Node>, new p: Node, new c: Node, new m: Node)
    requires p in nodes && c in nodes && m in nodes && c.Carried(nodes, null) && FlagsKept(nodes)
    requires p.children == Except(old(p.children), {c})
    requires m.transform == old(m.transform) && (m != p ==> m.children == old(m.children))
    ensures ShapeOf(m) == FreedShape(old(PictureOf(nodes)), p, c, m)
  {
    var pic := old(PictureOf(nodes));
    assert pic[c] == old(ShapeOf(c)) && pic[m] == old(ShapeOf(m));
    assert m.path == Moved(old(m.path), c, |old(c.path)|, []);
  }

  /** A change that concerns one node only. */
  twostate lemma OnePictured(nodes: set<Node>, new n: Node)
    requires n in nodes && forall m <- nodes :: m != n ==> ShapeOf(m) == old(ShapeOf(m))
    ensures PictureOf(nodes) == old(PictureOf(nodes))[n := ShapeOf(n)]
  {
  }

  twostate lemma LoosedPictured(nodes: set<Node>, new p: Node, new gone: seq<Node>)
    requires p in nodes && p.Released(nodes, gone) && FlagsKept(nodes)
    requires forall n <- nodes :: n.transform == old(n.transform) && (n != p ==> n.children == old(n.children))
    ensures PictureOf(nodes) == Loosed(old(PictureOf(nodes)), p, gone, p.children)
  {
  }

  twostate lemma SweptPictured(nodes: set<Node>, new p: Node)
    requires p in nodes && FlagsKept(nodes) && forall x <- old(p.children) :: x in nodes
    requires p.children == Except(old(p.children), old(Dead(p.children)))
    requires p.Released(nodes, Except(old(p.children), Members(p.children)))
    requires forall n <- nodes :: n.transform == old(n.transform) && (n != p ==> n.children == old(n.children))
    ensures PictureOf(nodes) == Apply(old(PictureOf(nodes)), Swept(p))
  {
    var pic := old(PictureOf(nodes));
    assert pic[p].children == old(p.children);
    assert DeadIn(pic, old(p.children)) == old(Dead(p.children)) by {
      assert forall x :: x in old(p.children) ==> x in nodes && pic[x] == old(ShapeOf(x));
    }
    LoosedPictured(nodes, p, Except(old(p.children), Members(p.children)));
  }

  // ---- a script and its record ----

  /** The record holds the edits of this script up to the first that was refused, and at event `e` it was over. */
  ghost predicate ScriptRan(start: Picture, trace: seq<Event>, script: seq<Op>, n: Node, e: nat) {
    var own := Own(trace, n);
    && e <= |trace| && Own(trace[..e], n) == own && own <= script
    && (own == script || Refused(Replay(start, trace[..e]), script[|own|]))
  }

  lemma RanStays(start: Picture, trace: seq<Event>, script: seq<Op>, n: Node, e: nat, more: Event)
    requires ScriptRan(start, trace, script, n, e) && !(more.Edit? && more.author == n)
    ensures ScriptRan(start, trace + [more], script, n, e)
  {
    OwnSnoc(trace, more, n);
    assert (trace + [more])[..e] == trace[..e];
  }
}
