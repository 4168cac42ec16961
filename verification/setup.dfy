// Setting nodes up exactly once (core/include/tcNode.h). The `setup()` body of
// a node is a finite script of tree edits, which may set further nodes up.
module SetupOnce {
  import opened SceneGraph
  import opened TreeEdits
  import Words

  /** A set-up pass in progress: over a whole subtree, or over the part of it below some children. */
  datatype Pass = Whole(top: Node) | Rest(top: Node, todo: seq<Node>)

  ghost predicate Covers(f: Pass, m: Node)
    reads m`path
  {
    match f
    case Whole(n) => n in m.path
    case Rest(n, todo) => exists k :: 0 <= k && k + 1 < |m.path| && m.path[k] == n && m.path[k + 1] in todo
  }

  /** In a live tree, with no destroyed node on the way down from the root. */
  ghost predicate Live(nodes: set<Node>, m: Node)
    reads m`path, nodes`dead, nodes`liveRoot
  {
    m.path != [] && (forall a <- m.path :: a in nodes && !a.dead) && m.path[0].liveRoot
  }

  ghost predicate SettledAt(nodes: set<Node>, passes: set<Pass>, m: Node)
    reads m`path, nodes`dead, nodes`liveRoot, m`setupCalled
  {
    Live(nodes, m) && !m.setupCalled ==> exists f :: f in passes && Covers(f, m)
  }

  /** Every live node is set up, or one of the passes will come to it. */
  ghost predicate Settled(nodes: set<Node>, passes: set<Pass>)
    reads nodes`path, nodes`dead, nodes`liveRoot, nodes`setupCalled
  {
    forall m {:trigger SettledAt(nodes, passes, m)} :: m in nodes ==> SettledAt(nodes, passes, m)
  }

  ghost predicate RootsOk(nodes: set<Node>)
    reads nodes`liveRoot, nodes`parent
  {
    forall n <- nodes :: n.liveRoot ==> n.parent == null
  }

  lemma CoversBelow(f: Pass, p: Node, m: Node)
    requires p.path <= m.path && Covers(f, p)
    ensures Covers(f, m)
  {
    match f
    case Whole(n) =>
    case Rest(n, todo) =>
      var k :| 0 <= k && k + 1 < |p.path| && p.path[k] == n && p.path[k + 1] in todo;
      assert m.path[k] == n && m.path[k + 1] in todo;
  }

  lemma LiveAbove(nodes: set<Node>, p: Node, m: Node)
    requires p.path != [] && p.path <= m.path && Live(nodes, m)
    ensures Live(nodes, p)
  {
    forall a | a in p.path ensures a in m.path {
      var i :| 0 <= i < |p.path| && p.path[i] == a;
      assert m.path[i] == a;
    }
  }

  ghost function Unset(nodes: set<Node>): set<Node>
    reads nodes`setupCalled
  {
    set n | n in nodes && !n.setupCalled
  }

  datatype Entry = Entry(node: Node, parent: Node?)

  ghost predicate Started(log: seq<Entry>, n: Node) {
    exists i :: 0 <= i < |log| && log[i].node == n
  }

  ghost predicate EntryOk(log: seq<Entry>, i: nat)
    requires i < |log|
  {
    && !Started(log[..i], log[i].node)
    && (log[i].parent != null ==> Started(log[..i], log[i].parent))
  }

  lemma NotBefore(log: seq<Entry>, y: nat, k: nat)
    requires k <= y < |log| && EntryOk(log, y)
    ensures !Started(log[..k], log[y].node)
  {
    if Started(log[..k], log[y].node) {
      StartedLater(log, k, y, log[y].node);
      assert false;
    }
  }

  lemma StartedLater(log: seq<Entry>, k: nat, y: nat, n: Node)
    requires k <= y <= |log| && Started(log[..k], n)
    ensures Started(log[..y], n)
  {
    var i :| 0 <= i < k && log[..k][i].node == n;
    assert log[..y][i] == log[..k][i];
  }

  lemma StartedSnoc(log: seq<Entry>, e: Entry, n: Node)
    ensures Started(log + [e], n) <==> Started(log, n) || e.node == n
  {
    var all := log + [e];
    if Started(log, n) {
      var i :| 0 <= i < |log| && log[i].node == n;
      assert all[i].node == n;
    }
    assert all[|log|].node == e.node;
  }

  predicate Unfolded(k: nat) { true }

  function FirstIndex(s: seq<Node>, x: Node): (k: nat)
    requires x in s
    ensures k < |s| && s[k] == x && forall i :: 0 <= i < k ==> s[i] != x
  {
    if s[0] == x then 0 else 1 + FirstIndex(s[1..], x)
  }

  class Session {
    ghost const nodes: set<Node>
    const setup: Node -> seq<Op>
    ghost const start: Picture
    ghost var log: seq<Entry>
    ghost var trace: seq<Event>     // every edit of the tree, in order
    ghost var ended: map<Node, nat>   // whose `setup()` is over, and since which event

    /** Set-up starts in the log: each node once, and after the parent it had then; sealed: `LogNow`. */
    ghost predicate LogOk()
      reads this`log, nodes`setupCalled
    {
      forall o: nat {:trigger Words.Opened(o)} :: Words.Opened(o) ==> LogNow()
    }

    ghost predicate LogNow()
      reads this`log, nodes`setupCalled
    {
      && (forall i {:trigger EntryOk(log, i)} :: 0 <= i < |log| ==> EntryOk(log, i))
      && (forall n {:trigger Started(log, n)} :: n in nodes ==> (n.setupCalled <==> Started(log, n)))
      && (forall i {:trigger log[i]} :: 0 <= i < |log| ==> log[i].node in nodes)
    }

    ghost predicate Scripts() {
      forall n, i :: n in nodes && 0 <= i < |setup(n)| ==> Within(nodes, setup(n)[i])
    }

    /** Sealed: `assert Unfolded(0)` shows it. */
    ghost predicate Valid()
      reads this`log, nodes`setupCalled, nodes`path, nodes`parent, nodes`children, nodes`liveRoot, nodes`dead
      reads nodes`localDirty, nodes`localMatrix, nodes`globalDirty, nodes`globalMatrix, nodes`transform
      reads this`trace, this`ended
    {
      forall o: nat {:trigger Unfolded(o)} :: Unfolded(o) ==> Sane() && Traced() && RunsOk()
    }

    lemma Known()
      requires Valid()
      ensures Sane() && Traced() && RunsOk()
    {
      assert Unfolded(0);
    }

    /** The tree, its caches and the log. */
    ghost predicate Sane()
      reads this`log, nodes`setupCalled, nodes`path, nodes`parent, nodes`children, nodes`liveRoot
      reads nodes`localDirty, nodes`localMatrix, nodes`globalDirty, nodes`globalMatrix, nodes`transform
    {
      Scripts() && Tree(nodes, {}) && Caches(nodes) && RootsOk(nodes) && LogOk()
    }

    /** The tree is what the recorded edits made of it; sealed. */
    ghost predicate Traced()
      reads this`trace, nodes`path, nodes`parent, nodes`children, nodes`liveRoot, nodes`dead, nodes`transform
    {
      forall o: nat {:trigger Words.Opened(o)} :: Words.Opened(o) ==> PictureOf(nodes) == Replay(start, trace)
    }

    /** ... and of this event, which is still to be recorded; sealed. */
    ghost predicate Due(e: Event)
      reads this`trace, nodes`path, nodes`parent, nodes`children, nodes`liveRoot, nodes`dead, nodes`transform
    {
      forall o: nat {:trigger Words.Opened(o)} :: Words.Opened(o) ==> PictureOf(nodes) == Apply(Replay(start, trace), e)
    }

    /** The recorded edits led to a tree in which this one is refused; sealed. */
    ghost predicate RefusedNow(op: Op)
      reads this`trace
    {
      forall o: nat {:trigger Words.Opened(o)} :: Words.Opened(o) ==> Refused(Replay(start, trace), op)
    }

    /** An edit that the source leaves to its callers to avoid: a node below itself, a window's root as a child. */
    ghost predicate Blocked(op: Op)
      requires Within(nodes, op)
      reads nodes`path, nodes`liveRoot
    {
      (op.Add? || op.Insert?) && op.child != op.parent && (op.child in op.parent.path || op.child.liveRoot)
    }

    lemma BlockedIs(op: Op)
      requires Within(nodes, op) && Traced() && Blocked(op)
      ensures RefusedNow(op)
    {
      assert Words.Opened(0);
    }

    /** Whose `setup()` is over ran it to its end, or to the first edit that was refused; sealed. */
    ghost predicate RunsOk()
      reads this`trace, this`ended, nodes`setupCalled
    {
      forall o: nat {:trigger Words.Opened(o)} :: Words.Opened(o) ==>
        ended.Keys <= nodes && forall n {:trigger RanAt(n)} :: n in nodes ==> RanAt(n)
    }

    ghost predicate RanAt(n: Node)
      reads this`trace, this`ended, n`setupCalled
    {
      && (n in ended ==> n.setupCalled && ScriptRan(start, trace, setup(n), n, ended[n]))
      && (!n.setupCalled ==> Own(trace, n) == [])
    }

    /** Whose `setup()` is under way. */
    ghost function Running(): set<Node>
      reads this`ended, nodes`setupCalled
    {
      set n | n in nodes && n.setupCalled && n !in ended
    }

    /** The record grew by `first`, and then by edits of nodes that were set up meanwhile. */
    twostate predicate Acts(new first: Event)
      reads this`trace, this`ended, nodes`setupCalled
    {
      && old(trace) + [first] <= trace
      && ByOnly(trace, |old(trace)| + 1, old(Unset(nodes)))
      && Running() == old(Running())
    }

    /** The same, with nothing first. */
    twostate predicate ActsAlone()
      reads this`trace, this`ended, nodes`setupCalled
    {
      && old(trace) <= trace
      && ByOnly(trace, |old(trace)|, old(Unset(nodes)))
      && Running() == old(Running())
    }

    /** One more event, of which the tree is the outcome. */
    ghost method Record(e: Event)
      requires Due(e) && RunsOk()
      requires e.Edit? && e.author != null ==> e.author in Running()
      modifies this`trace
      ensures Traced() && RunsOk() && trace == old(trace) + [e] && Acts(e)
    {
      trace := trace + [e];
      TraceStays(e);
      RunsStay(e);
    }

    twostate lemma TraceStays(e: Event)
      requires old(Due(e)) && trace == old(trace) + [e] && forall n <- nodes :: ShapeOf(n) == old(ShapeOf(n))
      ensures Traced()
    {
      assert Words.Opened(0);
      ReplaySnoc(start, old(trace), e);
      assert PictureOf(nodes) == old(PictureOf(nodes));
    }

    twostate lemma RunsStay(new e: Event)
      requires old(RunsOk()) && trace == old(trace) + [e] && ended == old(ended)
      requires forall n <- nodes :: n.setupCalled == old(n.setupCalled)
      requires e.Edit? && e.author != null ==> e.author in Running()
      ensures RunsOk()
    {
      assert Words.Opened(0);
      forall n | n in nodes ensures RanAt(n) {
        assert old(RanAt(n));
        OwnSnoc(old(trace), e, n);
        if n in ended {
          RanStays(start, old(trace), setup(n), n, ended[n], e);
        }
      }
    }

    /** A tree of fresh nodes, none of them linked or set up. */
    constructor (ghost nodes: set<Node>, setup: Node -> seq<Op>)
      requires forall n <- nodes :: n.Unlinked()
      requires forall n, i :: n in nodes && 0 <= i < |setup(n)| ==> Within(nodes, setup(n)[i])
      ensures this.nodes == nodes && this.setup == setup && log == [] && trace == [] && start == PictureOf(nodes)
      ensures Valid() && Settled(nodes, {}) && Running() == {}
    {
      this.nodes := nodes;
      this.setup := setup;
      start := PictureOf(nodes);
      log, trace, ended := [], [], map[];
      new;
      UnlinkedTree(nodes);
    }

    /** No `setup()` body edits the tree. */
    ghost predicate Quiet() {
      forall n <- nodes :: setup(n) == []
    }

    /** Without such edits, or if nothing was set up, the tree stands still, and only nodes from `n` down were set up. */
    twostate predicate Still(n: Node)
      reads nodes`setupCalled, nodes`path, nodes`parent, nodes`children, nodes`dead
    {
      Quiet() || Unset(nodes) == old(Unset(nodes)) ==>
        forall m <- nodes :: && m.path == old(m.path) && m.parent == old(m.parent) && m.dead == old(m.dead)
                             && m.children == old(m.children)
                             && (m.setupCalled ==> old(m.setupCalled) || n in m.path)
    }

    /** `c` is below `p` now, and nobody outside its subtree was set up. */
    twostate predicate Hung(p: Node, c: Node)
      reads nodes`setupCalled, nodes`path, nodes`parent, nodes`dead
      reads p, p.path
    {
      && c.Carried(nodes, p)
      && forall m <- nodes :: m.dead == old(m.dead) && (m.setupCalled ==> old(m.setupCalled) || (old(p.Joins()) && c in m.path))
    }

    twostate predicate Untouched()
      reads this`log, nodes`setupCalled, nodes`path, nodes`parent, nodes`children, nodes`dead
    {
      && log == old(log)
      && forall m <- nodes :: && m.path == old(m.path) && m.parent == old(m.parent) && m.children == old(m.children)
                              && m.dead == old(m.dead) && m.setupCalled == old(m.setupCalled)
    }

    /** Which of the children `s` of `n` a node is below; -1 for none. */
    ghost function Branch(n: Node, s: seq<Node>, m: Node): int
      reads n`path, m`path
    {
      if |n.path| < |m.path| && m.path[|n.path|] in s then FirstIndex(s, m.path[|n.path|]) else -1
    }

    /** From entry k of the log on the branches were set up one after the other, in the order of the children. */
    ghost predicate InChildOrder(k: nat, n: Node, s: seq<Node>)
      reads this`log, nodes`path, n`path, (set e | e in log :: e.node)`path
    {
      forall x, y :: k <= x < y < |log| ==> Branch(n, s, log[x].node) <= Branch(n, s, log[y].node)
    }

    /** What no call undoes. */
    twostate predicate Forward()
      reads this`log, nodes`setupCalled, nodes`dead, nodes`liveRoot, nodes`path
    {
      && old(log) <= log
      && (forall n <- nodes :: old(n.setupCalled) ==> n.setupCalled)
      && (forall n <- nodes :: old(n.dead) ==> n.dead)
      && (forall n <- nodes :: n.liveRoot == old(n.liveRoot))
    }

    /** `setupOnce`. */
    method SetupNode(n: Node, ghost passes: set<Pass>)
      requires n in nodes && Valid() && Settled(nodes, passes)
      requires n.parent == null || n.parent.setupCalled
      modifies this`log, this`trace, this`ended, nodes
      ensures Valid() && Forward() && n.setupCalled && Settled(nodes, passes)
      ensures old(n.setupCalled) ==> log == old(log) && trace == old(trace) && forall m <- nodes :: m.path == old(m.path)
      ensures Still(n) && ActsAlone()
      ensures !old(n.setupCalled) ==> Ran(n) && (Quiet() ==> log == old(log) + [Entry(n, old(n.parent))])
      decreases Unset(nodes), 0, 1
    {
      if !n.setupCalled {
        RunSetup(n, passes);
      }
    }

    /** The first time. */
    method RunSetup(n: Node, ghost passes: set<Pass>)
      requires n in nodes && Valid() && Settled(nodes, passes) && !n.setupCalled
      requires n.parent == null || n.parent.setupCalled
      modifies this`log, this`trace, this`ended, nodes
      ensures Valid() && Forward() && n.setupCalled && Settled(nodes, passes)
      ensures n in old(Unset(nodes)) && n !in Unset(nodes)
      ensures Still(n) && ActsAlone() && Ran(n) && (Quiet() ==> log == old(log) + [Entry(n, old(n.parent))])
      decreases Unset(nodes), 0, 0
    {
      Begin(n, passes);
      assert old(Unset(nodes)) == Unset(nodes) + {n} && n !in Unset(nodes);
      RunScript(n, passes);
      assert n !in Unset(nodes);
      OnOwnPath(n);
      Finish(n);
    }

    lemma OnOwnPath(n: Node)
      requires Valid() && n in nodes
      ensures n in n.path && RunsOk()
    {
      Known();
      assert PathOk(nodes, n);
    }

    /** The edits of `setup()` that were made are those of its script, up to one that is refused now. */
    ghost predicate Ran(n: Node)
      reads this`trace
    {
      var own := Own(trace, n);
      own <= setup(n) && (own == setup(n) || RefusedNow(setup(n)[|own|]))
    }

    /** `setup()` is over. */
    ghost method Finish(n: Node)
      requires n in Running() && Valid() && Ran(n)
      modifies this`ended
      ensures Valid() && Running() == old(Running()) - {n}
    {
      Known();
      assert Words.Opened(0);
      ended := ended[n := |trace|];
      assert trace[..|trace|] == trace;
      forall m | m in nodes ensures RanAt(m) {
        assert old(RanAt(m));
      }
    }

    /** The flag goes up before `setup()` runs. */
    method Begin(n: Node, ghost passes: set<Pass>)
      requires n in nodes && Valid() && Settled(nodes, passes) && !n.setupCalled
      requires n.parent == null || n.parent.setupCalled
      modifies this`log, n`setupCalled
      ensures Valid() && n.setupCalled && Settled(nodes, passes)
      ensures log == old(log) + [Entry(n, n.parent)]
      ensures Own(trace, n) == [] && n in Running() && Running() == old(Running()) + {n}
    {
      Known();
      Unrun(n);
      assert PathOk(nodes, n);
      n.setupCalled := true;
      log := log + [Entry(n, n.parent)];
      Logged(n);
      Flagged(n);
    }

    twostate lemma Logged(new n: Node)
      requires n in nodes && old(LogOk()) && log == old(log) + [Entry(n, n.parent)] && !old(n.setupCalled) && n.setupCalled
      requires n.parent != null ==> n.parent in nodes && old(n.parent) == n.parent && n.parent.setupCalled && n.parent != n
      requires forall m <- nodes :: m != n ==> m.setupCalled == old(m.setupCalled)
      ensures LogOk()
    {
      assert Words.Opened(0);
      assert n.parent != null ==> Started(old(log), n.parent);
      forall i | 0 <= i < |log| ensures EntryOk(log, i) {
        assert log[..i] == old(log)[..i];
        assert old(log)[..|old(log)|] == old(log);
        assert i < |old(log)| ==> EntryOk(old(log), i);
      }
      forall m | m in nodes ensures m.setupCalled <==> Started(log, m) {
        assert Started(old(log), m) || !Started(old(log), m);
        StartedSnoc(old(log), log[|log| - 1], m);
      }
    }

    lemma Unrun(n: Node)
      requires n in nodes && RunsOk() && !n.setupCalled
      ensures Own(trace, n) == [] && n !in ended
    {
      assert Words.Opened(0);
      assert RanAt(n);
    }

    twostate lemma Flagged(new n: Node)
      requires n in nodes && old(RunsOk()) && trace == old(trace) && ended == old(ended) && !old(n.setupCalled) && n.setupCalled
      requires forall m <- nodes :: m != n ==> m.setupCalled == old(m.setupCalled)
      ensures RunsOk()
    {
      assert Words.Opened(0);
      forall m | m in nodes ensures RanAt(m) {
        assert old(RanAt(m));
      }
    }

    /** The node, then its children in order, each with its own subtree. */
    method SetupTree(n: Node, ghost passes: set<Pass>)
      requires n in nodes && Valid() && Settled(nodes, passes + {Whole(n)})
      requires n.parent == null || n.parent.setupCalled
      modifies this`log, this`trace, this`ended, nodes
      ensures Valid() && Forward() && n.setupCalled && Settled(nodes, passes)
      ensures Still(n) && ActsAlone() && (Quiet() ==> InChildOrder(|old(log)|, n, n.children))
      decreases Unset(nodes), 1, Elsewhere(nodes, n.path), 2
    {
      SetupNode(n, passes + {Whole(n)});
      var snapshot := n.children;
      ToRest(n, passes) by { Known(); }
      SetupChildren(n, passes, snapshot, |old(log)|);
    }

    method SetupChildren(n: Node, ghost passes: set<Pass>, snapshot: seq<Node>, ghost k: nat)
      requires n in nodes && Valid() && n.setupCalled && Settled(nodes, passes + {Rest(n, snapshot)}) && snapshot == n.children
      requires k <= |log| && (Quiet() ==> forall y :: k <= y < |log| ==> log[y].node == n)
      modifies this`log, this`trace, this`ended, nodes
      ensures Valid() && Forward() && Settled(nodes, passes)
      ensures Still(n) && ActsAlone() && (Quiet() ==> InChildOrder(k, n, snapshot))
      decreases Unset(nodes), 1, Elsewhere(nodes, n.path), 1
    {
      assert ChildrenOk(nodes, {}, n) by { Known(); }
      assert snapshot[0..] == snapshot;
      var i := 0;
      while i < |snapshot|
        invariant i <= |snapshot| && n.setupCalled
        invariant Valid() && Forward() && Settled(nodes, passes + {Rest(n, snapshot[i..])})
        invariant forall k :: 0 <= k < |snapshot| ==> snapshot[k] in nodes
        invariant Unset(nodes) <= old(Unset(nodes))
        invariant Still(n) && ActsAlone() && (Quiet() ==> BranchesDone(k, n, snapshot, i))
      {
        assert snapshot[i..][1..] == snapshot[i + 1..];
        SetupNext(n, passes, snapshot, i, k);
        i := i + 1;
      }
      assert snapshot[i..] == [];
      NoneLeft(n, passes);
    }

    method SetupNext(n: Node, ghost passes: set<Pass>, snapshot: seq<Node>, i: nat, ghost k: nat)
      requires i < |snapshot| && n in nodes && snapshot[i] in nodes && Valid() && n.setupCalled
      requires Settled(nodes, passes + {Rest(n, snapshot[i..])})
      requires Quiet() ==> snapshot == n.children && BranchesDone(k, n, snapshot, i)
      modifies this`log, this`trace, this`ended, nodes
      ensures Valid() && Forward() && n.setupCalled && Settled(nodes, passes + {Rest(n, snapshot[i..][1..])})
      ensures Still(n) && ActsAlone() && (Quiet() ==> BranchesDone(k, n, snapshot, i + 1))
      decreases Unset(nodes), 1, Elsewhere(nodes, n.path), 1, 0
    {
      SetupListed(n, passes, snapshot[i..]);
      if Quiet() {
        ChildDone(k, n, i) by { Known(); }
      }
    }

    /** From entry k of the log on, only `n` and what is below its first `i` children was set up, in their order. */
    ghost predicate BranchesDone(k: nat, n: Node, s: seq<Node>, i: nat)
      reads this`log, nodes`path, n`path, (set e | e in log :: e.node)`path
    {
      InChildOrder(k, n, s) && forall y :: k <= y < |log| ==> Branch(n, s, log[y].node) < i
    }

    twostate lemma ChildDone(new k: nat, n: Node, new i: nat)
      requires n in nodes && Tree(nodes, {}) && LogOk() && i < |n.children| && old(BranchesDone(k, n, n.children, i))
      requires AllBelow(n.children[i]) && Still(n) && Quiet()
      ensures BranchesDone(k, n, n.children, i + 1)
    {
      var s := n.children;
      assert Words.Opened(0);
      forall y | |old(log)| <= y < |log| ensures Branch(n, s, log[y].node) == i {
        BranchOf(n, i, log[y].node);
      }
      forall y | k <= y < |old(log)| ensures log[y] == old(log)[y] && log[y].node in nodes {
      }
    }

    lemma BranchOf(n: Node, i: nat, m: Node)
      requires n in nodes && m in nodes && Tree(nodes, {}) && i < |n.children| && n.children[i] in m.path
      ensures Branch(n, n.children, m) == i
    {
      var c := n.children[i];
      BelowChild(nodes, {}, n, c, m);
      DepthOf(nodes, m, c);
      assert m.path[..|c.path|][|n.path|] == c;
      assert ChildrenOk(nodes, {}, n);
      if FirstIndex(n.children, c) < i {
        DistinctMeans(n.children, FirstIndex(n.children, c), i);
      }
    }

    /** One round of the loop over the copied child list: the child may have left since. */
    method SetupListed(n: Node, ghost passes: set<Pass>, todo: seq<Node>)
      requires todo != [] && n in nodes && todo[0] in nodes && Valid() && n.setupCalled
      requires Settled(nodes, passes + {Rest(n, todo)})
      modifies this`log, this`trace, this`ended, nodes
      ensures Valid() && Forward() && n.setupCalled && Settled(nodes, passes + {Rest(n, todo[1..])})
      ensures Still(n) && ActsAlone() && (Quiet() ==> AllBelow(todo[0]))
      decreases Unset(nodes), 1, Elsewhere(nodes, n.path), 0
    {
      Known();
      var c := todo[0];
      NextChild(n, passes, todo);
      var still := c.IsChildOf(n);
      if still {
        assert PathOk(nodes, c) && ListedOk(nodes, {}, c);
        forall m | m in nodes && c in m.path ensures n in m.path {
          BelowChild(nodes, {}, n, c, m);
        }
        BelowChild(nodes, {}, n, c, c);
        ElsewhereShrinks(nodes, n.path, c);
        SetupTree(c, passes + {Rest(n, todo[1..])});
        Known();
        if Quiet() {
          NewBelow(c);
        }
      }
    }

    /** The nodes that were logged are all from `c` down. */
    twostate predicate AllBelow(new c: Node)
      reads this`log, (set e | e in log :: e.node)`path
    {
      old(log) <= log && forall y :: |old(log)| <= y < |log| ==> c in log[y].node.path
    }

    twostate lemma NewBelow(c: Node)
      requires old(LogOk()) && LogOk() && old(log) <= log && Still(c) && Quiet()
      ensures AllBelow(c)
    {
      assert Words.Opened(0);
      forall y | |old(log)| <= y < |log| ensures c in log[y].node.path {
        var m := log[y].node;
        assert EntryOk(log, y) && Started(log, m);
        NotBefore(log, y, |old(log)|);
        assert log[..|old(log)|] == old(log);
        assert old(m.setupCalled) <==> Started(old(log), m);
      }
    }

    /** After `setup()` and with its flag up, a whole-subtree pass has only the children left. */
    lemma ToRest(n: Node, passes: set<Pass>)
      requires n in nodes && Tree(nodes, {}) && n.setupCalled && Settled(nodes, passes + {Whole(n)})
      ensures Settled(nodes, passes + {Rest(n, n.children)})
    {
      forall m | m in nodes ensures SettledAt(nodes, passes + {Rest(n, n.children)}, m) {
        assert SettledAt(nodes, passes + {Whole(n)}, m);
        if Live(nodes, m) && !m.setupCalled {
          var f :| f in passes + {Whole(n)} && Covers(f, m);
          if f == Whole(n) {
            ChildOnPath(nodes, {}, n, m);
            DepthOf(nodes, m, n);
            assert Covers(Rest(n, n.children), m);
          }
        }
      }
    }

    lemma NextChild(n: Node, passes: set<Pass>, todo: seq<Node>)
      requires n in nodes && Tree(nodes, {}) && todo != [] && Settled(nodes, passes + {Rest(n, todo)})
      ensures Settled(nodes, passes + {Rest(n, todo[1..])} + {Whole(todo[0])})
      ensures (!todo[0].dead && todo[0].parent == n) || Settled(nodes, passes + {Rest(n, todo[1..])})
    {
      forall m | m in nodes
        ensures SettledAt(nodes, passes + {Rest(n, todo[1..])} + {Whole(todo[0])}, m)
        ensures (!todo[0].dead && todo[0].parent == n) || SettledAt(nodes, passes + {Rest(n, todo[1..])}, m)
      {
        assert SettledAt(nodes, passes + {Rest(n, todo)}, m);
        if Live(nodes, m) && !m.setupCalled {
          var f :| f in passes + {Rest(n, todo)} && Covers(f, m);
          if f == Rest(n, todo) {
            var k :| 0 <= k && k + 1 < |m.path| && m.path[k] == n && m.path[k + 1] in todo;
            Prefixes(nodes, m, k);
            Prefixes(nodes, m, k + 1);
            assert PathOk(nodes, m.path[k + 1]);
            assert PathOk(nodes, m.path[k + 1].parent);
            if m.path[k + 1] == todo[0] {
              assert Covers(Whole(todo[0]), m);
            } else {
              assert m.path[k + 1] in todo[1..];
              assert Covers(Rest(n, todo[1..]), m);
            }
          }
        }
      }
    }

    lemma NoneLeft(n: Node, passes: set<Pass>)
      requires Settled(nodes, passes + {Rest(n, [])})
      ensures Settled(nodes, passes)
    {
      forall m | m in nodes ensures SettledAt(nodes, passes, m) {
        assert SettledAt(nodes, passes + {Rest(n, [])}, m);
      }
    }

    /** The `setup()` body. A script stops where it would break the tree: by
      * adding a node below itself, or by adding a window's root. */
    method RunScript(n: Node, ghost passes: set<Pass>)
      requires n in nodes && Valid() && Settled(nodes, passes) && n in Running() && Own(trace, n) == []
      modifies this`log, this`trace, this`ended, nodes
      ensures Valid() && Forward() && Settled(nodes, passes)
      ensures Quiet() ==> Untouched()
      ensures ActsAs(n) && Ran(n)
      decreases Unset(nodes), 4
    {
      var script := setup(n);
      var i := 0;
      while i < |script|
        invariant i <= |script|
        invariant Valid() && Forward() && Settled(nodes, passes) && Unset(nodes) <= old(Unset(nodes))
        invariant i == 0 ==> Untouched()
        invariant ActsAs(n) && Own(trace, n) == script[..i]
      {
        var done := StepScript(n, i, passes);
        if !done {
          return;
        }
        i := i + 1;
      }
    }

    /** The record grew by edits of `n`, and of nodes that were set up meanwhile. */
    twostate predicate ActsAs(n: Node)
      reads this`trace, this`ended, nodes`setupCalled
    {
      && old(trace) <= trace
      && ByOnly(trace, |old(trace)|, old(Unset(nodes)) + {n})
      && Running() == old(Running())
    }

    /** One edit of the script, or none if it is refused. */
    method StepScript(n: Node, i: nat, ghost passes: set<Pass>) returns (done: bool)
      requires n in nodes && i < |setup(n)| && Valid() && Settled(nodes, passes) && n in Running()
      requires Own(trace, n) == setup(n)[..i]
      modifies this`log, this`trace, this`ended, nodes
      ensures Valid() && Forward() && Settled(nodes, passes) && ActsAs(n)
      ensures done ==> Own(trace, n) == setup(n)[..i + 1]
      ensures !done ==> Untouched() && trace == old(trace) && RefusedNow(setup(n)[i])
      decreases Unset(nodes), 3, 1
    {
      Known();
      var op := setup(n)[i];
      done := MayDo(op);
      if done {
        ghost var mid := trace + [Edit(n, op)];
        OwnSnoc(trace, Edit(n, op), n);
        Perform(op, n, passes);
        OwnStays(trace, |mid|, old(Unset(nodes)), n);
        assert trace[..|mid|] == mid;
      } else {
        BlockedIs(op);
      }
    }

    /** What the source leaves to its callers: no node goes below itself, and a
      * window's root stays a root. */
    method MayDo(op: Op) returns (yes: bool)
      requires Within(nodes, op) && Valid()
      ensures yes <==> !Blocked(op)
    {
      Known();
      if !(op.Add? || op.Insert?) || op.child == op.parent {
        return true;
      }
      var n := op.parent;
      assert PathOk(nodes, n);
      while n.parent != null && n != op.child
        invariant n in nodes && (op.child in n.path <==> op.child in op.parent.path)
        decreases |n.path|
      {
        assert PathOk(nodes, n) && PathOk(nodes, n.parent);
        n := n.parent;
      }
      assert PathOk(nodes, n);
      yes := n != op.child && !op.child.liveRoot;
    }

    /** One edit, by a `setup()` under way or by the program. Only nodes that join a live tree are set up. */
    method Perform(op: Op, ghost author: Node?, ghost passes: set<Pass>)
      requires Within(nodes, op) && Valid() && Settled(nodes, passes)
      requires !Blocked(op) && (author != null ==> author in Running())
      modifies this`log, this`trace, this`ended, nodes
      ensures Valid() && Forward() && Settled(nodes, passes)
      ensures Acts(Edit(author, op))
      ensures !(op.Add? || op.Insert?) || !old(op.parent.Joins()) ==> trace == old(trace) + [Edit(author, op)]
      decreases Unset(nodes), 3, 0
    {
      match op {
        case Add(p, c, keep) => AddChild(p, c, keep, author, passes);
        case Insert(p, index, c, keep) => InsertChild(p, index, c, keep, author, passes);
        case Remove(p, c) => Remove(p, c, author, passes);
        case Clear(p) => Clear(p, author, passes);
        case Destroy(n) => Destroy(n, author, passes);
        case ToFront(_) => Reorder(op, author, passes);
        case ToBack(_) => Reorder(op, author, passes);
        case Place(_, _) => Transform(op, author, passes);
        case Turn(_, _) => Transform(op, author, passes);
        case Stretch(_, _) => Transform(op, author, passes);
      }
    }

    method Reorder(op: Op, ghost author: Node?, ghost passes: set<Pass>)
      requires (op.ToFront? || op.ToBack?) && Within(nodes, op) && Valid() && Settled(nodes, passes)
      requires author != null ==> author in Running()
      modifies this`trace, nodes`children
      ensures Valid() && Settled(nodes, passes) && Acts(Edit(author, op)) && trace == old(trace) + [Edit(author, op)]
    {
      Known();
      ReorderSiblings(op, Edit(author, op));
      Record(Edit(author, op));
    }

    method ReorderSiblings(op: Op, ghost e: Event)
      requires (op.ToFront? || op.ToBack?) && Within(nodes, op) && Sane() && Traced() && e.Edit? && e.op == op
      modifies nodes`children
      ensures Sane() && Due(e)
    {
      assert Words.Opened(0);
      var n := op.node;
      assert PathOk(nodes, n);
      if op.ToFront? {
        n.MoveToFront(nodes);
      } else {
        n.MoveToBack(nodes);
      }
      if n.parent != null {
        OnePictured(nodes, n.parent);
      }
    }

    method Transform(op: Op, ghost author: Node?, ghost passes: set<Pass>)
      requires (op.Place? || op.Turn? || op.Stretch?) && Within(nodes, op) && Valid() && Settled(nodes, passes)
      requires author != null ==> author in Running()
      modifies this`trace, nodes`transform, nodes`localDirty, nodes`globalDirty
      ensures Valid() && Settled(nodes, passes) && Acts(Edit(author, op)) && trace == old(trace) + [Edit(author, op)]
    {
      Known();
      TransformNode(op, Edit(author, op));
      Record(Edit(author, op));
    }

    method TransformNode(op: Op, ghost e: Event)
      requires (op.Place? || op.Turn? || op.Stretch?) && Within(nodes, op) && Sane() && Traced() && e.Edit? && e.op == op
      modifies nodes`transform, nodes`localDirty, nodes`globalDirty
      ensures Sane() && Due(e)
    {
      assert Words.Opened(0);
      var n := op.node;
      if op.Place? {
        n.SetPos(nodes, op.pos);
      } else if op.Turn? {
        n.SetQuaternion(nodes, op.rot);
      } else {
        n.SetScale(nodes, op.scale);
      }
      OnePictured(nodes, n);
    }

    method AddChild(p: Node, c: Node, keep: bool, ghost author: Node?, ghost passes: set<Pass>)
      requires p in nodes && c in nodes && Valid() && Settled(nodes, passes)
      requires !Blocked(Add(p, c, keep)) && (author != null ==> author in Running())
      modifies this`log, this`trace, this`ended, nodes
      ensures Valid() && Forward() && Settled(nodes, passes)
      ensures Entered(p, c) && Acts(Edit(author, Add(p, c, keep)))
      ensures c == p || !old(p.Joins()) ==> trace == old(trace) + [Edit(author, Add(p, c, keep))]
      decreases Unset(nodes), 2, 2
    {
      Enter(Add(p, c, keep), |p.children|, author, passes);
    }

    method InsertChild(p: Node, index: nat, c: Node, keep: bool, ghost author: Node?, ghost passes: set<Pass>)
      requires p in nodes && c in nodes && Valid() && Settled(nodes, passes)
      requires !Blocked(Insert(p, index, c, keep)) && (author != null ==> author in Running())
      modifies this`log, this`trace, this`ended, nodes
      ensures Valid() && Forward() && Settled(nodes, passes)
      ensures Entered(p, c) && Acts(Edit(author, Insert(p, index, c, keep)))
      ensures c == p || !old(p.Joins()) ==> trace == old(trace) + [Edit(author, Insert(p, index, c, keep))]
      decreases Unset(nodes), 2, 2
    {
      Enter(Insert(p, index, c, keep), index, author, passes);
    }

    /** What a child added to `p` finds: it is set up exactly if `p` joins nodes at once. */
    twostate predicate Entered(p: Node, c: Node)
      reads this`log, nodes`setupCalled, nodes`path, nodes`parent, nodes`children, nodes`dead, p, p.path, c`setupCalled
    {
      && (c == p ==> Untouched())
      && (c != p && old(p.Joins()) ==> c.setupCalled)
      && (c != p && !old(p.Joins()) ==> log == old(log))
      && (c != p && (Quiet() || !old(p.Joins())) ==> Hung(p, c))
    }

    /** `addChild` and `insertChild`. */
    method Enter(op: Op, index: nat, ghost author: Node?, ghost passes: set<Pass>)
      requires (op.Add? || op.Insert?) && index == if op.Add? then |op.parent.children| else op.index
      requires Within(nodes, op) && Valid() && Settled(nodes, passes)
      requires !Blocked(op) && (author != null ==> author in Running())
      modifies this`log, this`trace, this`ended, nodes
      ensures Valid() && Forward() && Settled(nodes, passes)
      ensures Entered(op.parent, op.child) && Acts(Edit(author, op))
      ensures op.child == op.parent || !old(op.parent.Joins()) ==> trace == old(trace) + [Edit(author, op)]
      decreases Unset(nodes), 2, 1
    {
      Known();
      if op.child == op.parent {
        NothingDue(op, author);
        Record(Edit(author, op));
      } else {
        EnterOther(op, index, author, passes);
      }
    }

    lemma NothingDue(op: Op, author: Node?)
      requires Traced() && (op.Add? || op.Insert?) && op.child == op.parent
      ensures Due(Edit(author, op))
    {
      assert Words.Opened(0);
    }

    method EnterOther(op: Op, index: nat, ghost author: Node?, ghost passes: set<Pass>)
      requires (op.Add? || op.Insert?) && index == if op.Add? then |op.parent.children| else op.index
      requires Within(nodes, op) && Valid() && Settled(nodes, passes) && op.child != op.parent
      requires !Blocked(op) && (author != null ==> author in Running())
      modifies this`log, this`trace, this`ended, nodes
      ensures Valid() && Forward() && Settled(nodes, passes)
      ensures Entered(op.parent, op.child) && Acts(Edit(author, op))
      ensures op.child == op.parent || !old(op.parent.Joins()) ==> trace == old(trace) + [Edit(author, op)]
      decreases Unset(nodes), 2, 0, 1
    {
      Attach(op, index, author, passes);
      SetupJoined(op.parent, op.child, passes);
    }

    method Attach(op: Op, index: nat, ghost author: Node?, ghost passes: set<Pass>)
      requires (op.Add? || op.Insert?) && index == if op.Add? then |op.parent.children| else op.index
      requires Within(nodes, op) && Valid() && Settled(nodes, passes) && op.child != op.parent
      requires !Blocked(op) && (author != null ==> author in Running())
      modifies this`trace, nodes`children, op.child`parent, op.child`transform, nodes`path
      modifies nodes`globalDirty, nodes`localDirty, nodes`globalMatrix, nodes`localMatrix
      ensures Valid() && op.child.Carried(nodes, op.parent) && op.parent.path == old(op.parent.path)
      ensures Settled(nodes, passes + {Whole(op.child)})
      ensures (op.parent.setupCalled && Live(nodes, op.parent)) || Settled(nodes, passes)
      ensures trace == old(trace) + [Edit(author, op)] && Acts(Edit(author, op))
    {
      Known();
      AttachChild(op, index, passes, Edit(author, op));
      Record(Edit(author, op));
    }

    method AttachChild(op: Op, index: nat, ghost passes: set<Pass>, ghost e: Event)
      requires (op.Add? || op.Insert?) && index == if op.Add? then |op.parent.children| else op.index
      requires Within(nodes, op) && Sane() && Traced() && e.Edit? && e.op == op && Settled(nodes, passes) && op.child != op.parent && !Blocked(op)
      modifies nodes`children, op.child`parent, op.child`transform, nodes`path
      modifies nodes`globalDirty, nodes`localDirty, nodes`globalMatrix, nodes`localMatrix
      ensures Sane() && op.child.Carried(nodes, op.parent) && op.parent.path == old(op.parent.path)
      ensures Settled(nodes, passes + {Whole(op.child)})
      ensures (op.parent.setupCalled && Live(nodes, op.parent)) || Settled(nodes, passes)
      ensures Due(e)
    {
      var p, c := op.parent, op.child;
      Depths(nodes, c);
      ghost var rebased := NewTransform(p, c);
      ghost var world := World(p.path);
      p.Attach(nodes, index, c, op.keep);
      assert op.keep ==> World(p.path) == world;
      ChildHung(op, index, rebased, e);
      Attached(p, c, passes);
    }

    twostate lemma ChildHung(new op: Op, new index: nat, new t: Transform, new e: Event)
      requires e.Edit? && e.op == op && (op.Add? || op.Insert?) && Within(nodes, op) && op.child != op.parent
      requires op.child.Carried(nodes, op.parent) && FlagsKept(nodes) && old(Traced()) && trace == old(trace)
      requires index == if op.Add? then |old(op.parent.children)| else op.index
      requires op.parent.children == Inserted(Except(old(op.parent.children), {op.child}), index, op.child)
      requires forall n <- nodes :: n != op.parent ==> n.children == Except(old(n.children), {op.child})
      requires forall n <- nodes :: n != op.child ==> n.transform == old(n.transform)
      requires old(RebasedTo(op.parent, op.child, t)) && op.child.transform == if op.keep then t else old(op.child.transform)
      ensures Due(e)
    {
      assert Words.Opened(0);
      HungPictured(nodes, op.parent, index, op.child, op.keep);
    }

    /** `t` is the transform with which `c` keeps its global position below `p`; sealed. */
    ghost predicate RebasedTo(p: Node, c: Node, t: Transform)
      reads nodes`path, nodes`parent, nodes`children, nodes`liveRoot, nodes`dead, nodes`transform
    {
      forall o: nat {:trigger Words.Opened(o)} :: Words.Opened(o) ==>
        c in PictureOf(nodes) && t == Rebased(PictureOf(nodes), p, c)
    }

    lemma NewTransform(p: Node, c: Node) returns (t: Transform)
      requires Caches(nodes) && p in nodes && c in nodes
      ensures p.path != [] && c.path != [] && RebasedTo(p, c, t)
      ensures t == c.transform.(pos := WithDepth(InverseTimes(World(p.path), Times(World(c.path), ORIGIN)), c.transform.pos))
    {
      assert CacheOk(nodes, p) && CacheOk(nodes, c);
      WorldPictured(nodes, p.path);
      WorldPictured(nodes, c.path);
      t := Rebased(PictureOf(nodes), p, c);
    }

    twostate lemma Attached(new p: Node, new c: Node, passes: set<Pass>)
      requires p in nodes && c in nodes && old(Settled(nodes, passes)) && c.Carried(nodes, p) && Tracked(nodes, c)
      requires Steady() && Paths(nodes)
      ensures Settled(nodes, passes + {Whole(c)})
      ensures (p.setupCalled && Live(nodes, p)) || Settled(nodes, passes)
    {
      forall m | m in nodes
        ensures SettledAt(nodes, passes + {Whole(c)}, m)
        ensures (p.setupCalled && Live(nodes, p)) || SettledAt(nodes, passes, m)
      {
        AttachedAt(p, c, passes, m);
      }
    }

    twostate predicate Steady()
      reads nodes`dead, nodes`liveRoot, nodes`setupCalled
    {
      forall n <- nodes :: n.dead == old(n.dead) && n.liveRoot == old(n.liveRoot) && n.setupCalled == old(n.setupCalled)
    }

    twostate lemma AttachedAt(new p: Node, new c: Node, passes: set<Pass>, new m: Node)
      requires p in nodes && c in nodes && old(Settled(nodes, passes)) && c.Carried(nodes, p) && Tracked(nodes, c)
      requires Steady() && m in nodes && Paths(nodes)
      ensures SettledAt(nodes, passes + {Whole(c)}, m)
      ensures (p.setupCalled && Live(nodes, p)) || SettledAt(nodes, passes, m)
    {
      assert old(SettledAt(nodes, passes, m));
      assert old(SettledAt(nodes, passes, p));
      assert old(AtDepth(m, c));
      if c in old(m.path) {
        assert m.path == old(p.path) + old(m.path)[|old(c.path)| - 1..];
        assert m.path[|p.path|] == c && Covers(Whole(c), m);
        if Live(nodes, m) && !m.setupCalled && !(p.setupCalled && Live(nodes, p)) {
          assert PathOk(nodes, p);
          LiveAbove(nodes, p, m);
          var f :| f in passes && old(Covers(f, p));
          CoversBelow(f, p, m);
        }
      }
    }

    /** A child that joins a set-up node in a live tree is set up now. */
    method SetupJoined(p: Node, c: Node, ghost passes: set<Pass>)
      requires p in nodes && c in nodes && c.parent == p && Valid() && Settled(nodes, passes + {Whole(c)})
      requires (p.setupCalled && Live(nodes, p)) || Settled(nodes, passes)
      modifies this`log, this`trace, this`ended, nodes
      ensures Valid() && Forward() && Settled(nodes, passes)
      ensures old(p.Joins()) ==> c.setupCalled && Still(c)
      ensures !old(p.Joins()) ==> Untouched() && trace == old(trace)
      ensures ActsAlone()
      decreases Unset(nodes), 2, 0, 0
    {
      Known();
      if !p.setupCalled {
        return;
      }
      var root := p.FindLiveRoot(nodes);
      if root != null {
        SetupTree(c, passes);
      }
    }

    method Remove(p: Node, c: Node, ghost author: Node?, ghost passes: set<Pass>)
      requires p in nodes && c in nodes && Valid() && Settled(nodes, passes) && (author != null ==> author in Running())
      modifies this`trace, p`children, c`parent, nodes`path, nodes`globalDirty
      ensures Valid() && Settled(nodes, passes)
      ensures c in old(p.children) ==> c.Carried(nodes, null)
      ensures trace == old(trace) + [Edit(author, Op.Remove(p, c))] && Acts(Edit(author, Op.Remove(p, c)))
    {
      Known();
      RemoveFrom(p, c, passes, Edit(author, Op.Remove(p, c)));
      Record(Edit(author, Op.Remove(p, c)));
    }

    method RemoveFrom(p: Node, c: Node, ghost passes: set<Pass>, ghost e: Event)
      requires p in nodes && c in nodes && Sane() && Traced() && e.Edit? && e.op == Op.Remove(p, c) && Settled(nodes, passes)
      modifies p`children, c`parent, nodes`path, nodes`globalDirty
      ensures Sane() && Settled(nodes, passes)
      ensures c in old(p.children) ==> c.Carried(nodes, null)
      ensures Due(e)
    {
      Depths(nodes, c);
      assert ChildrenOk(nodes, {}, p);
      p.RemoveChild(nodes, c);
      if c in old(p.children) {
        ChildFreed(p, c, e);
        forall m | m in nodes ensures m.path == old(m.path) || m.path == [] || !m.path[0].liveRoot {
          assert old(AtDepth(m, c));
        }
        CutOff(passes);
      } else {
        assert Words.Opened(0);
      }
    }

    twostate lemma ChildFreed(new p: Node, new c: Node, new e: Event)
      requires e.Edit? && e.op == Op.Remove(p, c) && old(Traced()) && trace == old(trace)
      requires p in nodes && c in nodes && c.Carried(nodes, null) && FlagsKept(nodes)
      requires c in old(p.children) && p.children == Except(old(p.children), {c})
      requires forall n <- nodes :: n.transform == old(n.transform) && (n != p ==> n.children == old(n.children))
      ensures Due(e)
    {
      assert Words.Opened(0);
      FreedPictured(nodes, p, c);
    }

    method Clear(p: Node, ghost author: Node?, ghost passes: set<Pass>)
      requires p in nodes && Valid() && Settled(nodes, passes) && (author != null ==> author in Running())
      modifies this`trace, p`children, nodes`parent, nodes`path, nodes`globalDirty
      ensures Valid() && Settled(nodes, passes)
      ensures trace == old(trace) + [Edit(author, Op.Clear(p))] && Acts(Edit(author, Op.Clear(p)))
    {
      Known();
      ClearList(p, passes, Edit(author, Op.Clear(p)));
      Record(Edit(author, Op.Clear(p)));
    }

    method ClearList(p: Node, ghost passes: set<Pass>, ghost e: Event)
      requires p in nodes && Sane() && Traced() && e.Edit? && e.op == Op.Clear(p) && Settled(nodes, passes)
      modifies p`children, nodes`parent, nodes`path, nodes`globalDirty
      ensures Sane() && Settled(nodes, passes) && Due(e)
    {
      assert ChildrenOk(nodes, {}, p);
      p.RemoveAllChildren(nodes);
      CutOff(passes);
      ChildrenCleared(p, e);
    }

    twostate lemma ChildrenCleared(new p: Node, new e: Event)
      requires e.Edit? && e.op == Op.Clear(p) && old(Traced()) && trace == old(trace)
      requires p in nodes && FlagsKept(nodes) && p.children == [] && p.Released(nodes, old(p.children))
      requires forall n <- nodes :: n.transform == old(n.transform) && (n != p ==> n.children == old(n.children))
      ensures Due(e)
    {
      assert Words.Opened(0);
      LoosedPictured(nodes, p, old(p.children));
    }

    twostate lemma ChildrenSwept(new p: Node)
      requires p in nodes && FlagsKept(nodes) && old(Traced()) && trace == old(trace)
      requires forall x <- old(p.children) :: x in nodes
      requires p.children == Except(old(p.children), old(Dead(p.children)))
      requires p.Released(nodes, Except(old(p.children), Members(p.children)))
      requires forall n <- nodes :: n.transform == old(n.transform) && (n != p ==> n.children == old(n.children))
      ensures Due(Swept(p))
    {
      assert Words.Opened(0);
      SweptPictured(nodes, p);
    }

    /** Before every update of a node: destroyed children leave. */
    method Sweep(p: Node, ghost passes: set<Pass>)
      requires p in nodes && Valid() && Settled(nodes, passes)
      modifies this`trace, p`children, nodes`parent, nodes`path, nodes`globalDirty
      ensures Valid() && Settled(nodes, passes)
      ensures forall c <- p.children :: !c.dead
      ensures trace == old(trace) + [Swept(p)]
    {
      Known();
      SweepList(p, passes);
      Record(Swept(p));
    }

    method SweepList(p: Node, ghost passes: set<Pass>)
      requires p in nodes && Sane() && Traced() && Settled(nodes, passes)
      modifies p`children, nodes`parent, nodes`path, nodes`globalDirty
      ensures Sane() && Settled(nodes, passes) && Due(Swept(p))
      ensures forall c <- p.children :: !c.dead
    {
      assert ChildrenOk(nodes, {}, p);
      p.SweepDeadChildren(nodes);
      CutOff(passes);
      ChildrenSwept(p);
    }

    method Destroy(n: Node, ghost author: Node?, ghost passes: set<Pass>)
      requires n in nodes && Valid() && Settled(nodes, passes) && (author != null ==> author in Running())
      modifies this`trace, n`dead
      ensures Valid() && n.dead && Settled(nodes, passes)
      ensures trace == old(trace) + [Edit(author, Op.Destroy(n))] && Acts(Edit(author, Op.Destroy(n)))
    {
      Known();
      Kill(n, passes, Edit(author, Op.Destroy(n)));
      Record(Edit(author, Op.Destroy(n)));
    }

    method Kill(n: Node, ghost passes: set<Pass>, ghost e: Event)
      requires n in nodes && Sane() && Traced() && e.Edit? && e.op == Op.Destroy(n) && Settled(nodes, passes)
      modifies n`dead
      ensures Sane() && n.dead && Settled(nodes, passes) && Due(e)
    {
      assert Words.Opened(0);
      n.dead := true;
      forall m | m in nodes ensures SettledAt(nodes, passes, m) {
        assert old(SettledAt(nodes, passes, m));
      }
      OnePictured(nodes, n);
    }

    /** Nodes that left the live trees leave nothing to set up there. */
    twostate lemma CutOff(passes: set<Pass>)
      requires old(Settled(nodes, passes)) && Steady()
      requires forall m <- nodes :: m.path == old(m.path) || m.path == [] || !m.path[0].liveRoot
      ensures Settled(nodes, passes)
    {
      forall m | m in nodes ensures SettledAt(nodes, passes, m) {
        assert old(SettledAt(nodes, passes, m));
      }
    }

    /** Makes a parentless node the root of a window's tree, at every frame; the first time it
      * sets the tree up. A node that was already set up elsewhere gets no new pass: then every
      * live node is set up exactly if everything below this one had been before the call. */
    method SetupNodeOnce(n: Node)
      requires n in nodes && n.parent == null && Valid() && Settled(nodes, {})
      modifies this`log, this`trace, this`ended, nodes
      ensures Valid() && n.setupCalled && n.liveRoot && old(log) <= log && Still(n)
      ensures forall m <- nodes :: (old(m.setupCalled) ==> m.setupCalled) && (m != n ==> m.liveRoot == old(m.liveRoot))
      ensures old(n.setupCalled) ==> Untouched()
      ensures Settled(nodes, {}) <==> !old(n.setupCalled) || old(DoneBelow(nodes, n))
      ensures old(n.setupCalled && n.liveRoot) ==> Settled(nodes, {})
      ensures Acts(Rooted(n))
    {
      RootUp(n);
      if !n.setupCalled {
        SetupTree(n, {});
      }
    }

    method RootUp(n: Node)
      requires n in nodes && n.parent == null && Valid() && Settled(nodes, {})
      modifies this`trace, n`liveRoot
      ensures Valid() && n.liveRoot && Settled(nodes, {} + {Whole(n)}) && trace == old(trace) + [Rooted(n)]
      ensures Settled(nodes, {}) <==> DoneBelow(nodes, n)
      ensures old(n.liveRoot) ==> Settled(nodes, {})
    {
      Known();
      Raise(n);
      Record(Rooted(n));
      DoneIsSettled(n);
    }

    /** Everything below the new root is owed to a pass over it. */
    method Raise(n: Node)
      requires n in nodes && n.parent == null && Sane() && Traced() && Settled(nodes, {})
      modifies n`liveRoot
      ensures Sane() && n.liveRoot && Settled(nodes, {Whole(n)}) && Settled(nodes, {} + {Whole(n)})
      ensures old(n.liveRoot) ==> Settled(nodes, {})
      ensures Due(Rooted(n))
    {
      assert Words.Opened(0);
      n.liveRoot := true;
      OnePictured(nodes, n);
      forall m | m in nodes
        ensures SettledAt(nodes, {Whole(n)}, m)
        ensures old(n.liveRoot) ==> SettledAt(nodes, {}, m)
      {
        assert old(SettledAt(nodes, {}, m));
        assert n in m.path ==> Covers(Whole(n), m);
      }
      assert {} + {Whole(n)} == {Whole(n)};
    }

    lemma DoneIsSettled(n: Node)
      requires n in nodes && Paths(nodes) && n.parent == null && n.liveRoot && Settled(nodes, {Whole(n)})
      ensures Settled(nodes, {}) <==> DoneBelow(nodes, n)
    {
      assert PathOk(nodes, n);
      forall m | m in nodes ensures SettledAt(nodes, {}, m) <==> DoneAt(nodes, n, m) {
        assert SettledAt(nodes, {Whole(n)}, m);
        if n in m.path {
          DepthOf(nodes, m, n);
        }
      }
      if DoneBelow(nodes, n) {
        assert forall m {:trigger SettledAt(nodes, {}, m)} :: m in nodes ==> DoneAt(nodes, n, m);
      }
    }
  }

  ghost predicate DoneAt(nodes: set<Node>, n: Node, m: Node)
    reads m`path, nodes`dead, m`setupCalled
  {
    n in m.path && (forall a <- m.path :: a in nodes && !a.dead) ==> m.setupCalled
  }

  /** Every node below `n` that no destroyed node hides was set up. */
  ghost predicate DoneBelow(nodes: set<Node>, n: Node)
    reads nodes`path, nodes`dead, nodes`setupCalled
  {
    forall m {:trigger DoneAt(nodes, n, m)} :: m in nodes ==> DoneAt(nodes, n, m)
  }

  /** A node set up elsewhere, taken out, given a child and made a window's root: the child is
    * live and not set up. */
  method LateChild(t: Transform) returns (s: Session, n: Node, late: Node)
    ensures s.Valid() && n in s.nodes && n.setupCalled && late in s.nodes && late.parent == n
    ensures Live(s.nodes, late) && !late.setupCalled && !Settled(s.nodes, {})
  {
    s, n, late := WithLate(t);
    s.SetupNodeOnce(n);
    s.Known();
    assert PathOk(s.nodes, late);
    assert !SettledAt(s.nodes, {}, late);
  }

  method WithLate(t: Transform) returns (s: Session, n: Node, late: Node)
    ensures fresh(s) && fresh(s.nodes) && s.Valid() && Settled(s.nodes, {}) && n in s.nodes && late in s.nodes
    ensures n.parent == null && n.path == [n] && n.setupCalled && late.parent == n && !late.setupCalled
    ensures !n.dead && !late.dead
  {
    s, n, late := TakenOut(t);
    s.AddChild(n, late, false, null, {});
    s.Known();
    assert PathOk(s.nodes, n);
  }

  method TakenOut(t: Transform) returns (s: Session, n: Node, late: Node)
    ensures fresh(s) && fresh(s.nodes) && s.Valid() && Settled(s.nodes, {}) && s.Quiet() && n in s.nodes && late in s.nodes
    ensures n.parent == null && n.path == [n] && n.setupCalled && late.path == [late] && !late.setupCalled && n != late
    ensures !n.dead && !late.dead && !n.liveRoot && !late.liveRoot
  {
    var root: Node;
    s, root, n, late := SetUpBelow(t);
    s.Remove(root, n, null, {});
    s.Known();
    assert PathOk(s.nodes, n);
  }

  method SetUpBelow(t: Transform) returns (s: Session, root: Node, n: Node, late: Node)
    ensures fresh(s) && fresh(s.nodes) && s.Valid() && Settled(s.nodes, {}) && s.Quiet()
    ensures root in s.nodes && n in s.nodes && late in s.nodes && n in root.children
    ensures n.path == [root, n] && n.setupCalled && late.path == [late] && !late.setupCalled && n != late && root != late
    ensures !n.dead && !late.dead && !n.liveRoot && !late.liveRoot
  {
    s, root, n, late := StartWith(t);
    s.AddChild(root, n, false, null, {});
    s.Known();
    LinksAgree(s.nodes, root, n);
  }

  method StartWith(t: Transform) returns (s: Session, root: Node, n: Node, late: Node)
    ensures fresh(s) && fresh(s.nodes) && s.Valid() && Settled(s.nodes, {}) && s.Quiet()
    ensures root in s.nodes && n in s.nodes && late in s.nodes && n != late && root != late && root != n
    ensures root.path == [root] && n.path == [n] && late.path == [late] && root.Joins() && !late.setupCalled
    ensures !n.dead && !late.dead && !n.liveRoot && !late.liveRoot
  {
    s, root, n, late := ThreeNodes(t);
    s.SetupNodeOnce(root);
  }

  method ThreeNodes(t: Transform) returns (s: Session, root: Node, n: Node, late: Node)
    ensures fresh(s) && fresh(s.nodes) && s.Valid() && Settled(s.nodes, {}) && s.Quiet()
    ensures root in s.nodes && n in s.nodes && late in s.nodes && n != late && root != late && root != n
    ensures forall m <- s.nodes :: m.Unlinked() && !m.dead
  {
    root := new Node(t);
    n := new Node(t);
    late := new Node(t);
    s := new Session({root, n, late}, m => []);
  }

  /** Between outermost calls the `setup()` body of every node that was set up has been run: once, in order,
    * to its end or to the first edit that the tree of that moment refused. */
  lemma EveryScriptRan(s: Session, n: Node)
    requires s.Valid() && s.Running() == {} && n in s.nodes
    ensures n.setupCalled <==> n in s.ended
    ensures n.setupCalled ==> ScriptRan(s.start, s.trace, s.setup(n), n, s.ended[n])
    ensures !n.setupCalled ==> Own(s.trace, n) == []
  {
    s.Known();
    assert Words.Opened(0);
    assert s.RanAt(n);
    assert n in s.Running() <==> n.setupCalled && n !in s.ended;
  }

  /** A root whose `setup()` adds a child. */
  method ScriptAdds(t: Transform) returns (s: Session, n: Node, c: Node)
    ensures s.Valid() && s.setup(n) == [Add(n, c, false)] && n in s.nodes && c in s.nodes
    ensures n.setupCalled && c.parent == n && n.children == [c] && c.setupCalled
  {
    s, n, c := TwoNodes(t);
    s.SetupNodeOnce(n);
    OneEdit(s, n, c);
    ChildThere(s, n, c);
  }

  method TwoNodes(t: Transform) returns (s: Session, n: Node, c: Node)
    ensures fresh(s) && fresh(s.nodes) && s.Valid() && s.nodes == {n, c} && Settled(s.nodes, {})
    ensures s.trace == [] && s.Running() == {} && TwoRoots(s.start, n, c)
    ensures s.setup(n) == [Add(n, c, false)] && s.setup(c) == [] && n.parent == null && !n.setupCalled
  {
    n := new Node(t);
    c := new Node(t);
    var script := (m: Node) => if m == n then [Add(n, c, false)] else [];
    s := new Session({n, c}, script);
    assert ShapeOf(n) == s.start[n] && ShapeOf(c) == s.start[c];
  }

  /** Before anything: two nodes, not linked. */
  ghost predicate TwoRoots(pic: Picture, n: Node, c: Node) {
    && n != c && n in pic && c in pic && pic.Keys == {n, c} && pic[n].path == [n] && pic[c].path == [c]
    && pic[n].children == [] && pic[c].children == [] && !pic[c].liveRoot && !pic[n].dead && !pic[c].dead
  }

  lemma OneEdit(s: Session, n: Node, c: Node)
    requires s.Valid() && s.Running() == {} && s.nodes == {n, c} && n.setupCalled && TwoRoots(s.start, n, c)
    requires s.setup(n) == [Add(n, c, false)] && s.setup(c) == []
    requires [Rooted(n)] <= s.trace && ByOnly(s.trace, 1, {n, c})
    ensures s.trace == [Rooted(n), Edit(n, Add(n, c, false))]
  {
    EveryScriptRan(s, n);
    EveryScriptRan(s, c);
    var own := Own(s.trace, n);
    forall i | 1 <= i < |s.trace| ensures s.trace[i].Edit? && s.trace[i].author in {n as Node?} {
      NoneBy(s.trace, c, i);
    }
    assert s.trace[..1] == [Rooted(n)];
    assert Own([Rooted(n)], n) == Own([], n) + [];
    AllBy(s.trace, 1, n);
    NotRefusedYet(s.start, s.trace, n, c, s.ended[n]);
    assert |own| == 1;
  }

  lemma NotRefusedYet(start: Picture, trace: seq<Event>, n: Node, c: Node, e: nat)
    requires TwoRoots(start, n, c) && [Rooted(n)] <= trace && e <= |trace|
    ensures e <= 1 ==> !Refused(Replay(start, trace[..e]), Add(n, c, false))
  {
    var one := [Rooted(n)];
    assert trace[..0] == [] && trace[..1] == one && [] + [Rooted(n)] == one;
    ReplaySnoc(start, [], Rooted(n));
    assert e <= 1 ==> e == 0 || e == 1;
  }

  lemma ChildThere(s: Session, n: Node, c: Node)
    requires s.Valid() && s.nodes == {n, c} && TwoRoots(s.start, n, c) && Settled(s.nodes, {})
    requires s.trace == [Rooted(n), Edit(n, Add(n, c, false))]
    ensures c.parent == n && n.children == [c] && c.setupCalled
  {
    s.Known();
    assert Words.Opened(0);
    var first := Apply(s.start, Rooted(n));
    ReplaySnoc(s.start, [], Rooted(n));
    ReplaySnoc(s.start, [Rooted(n)], Edit(n, Add(n, c, false)));
    assert [] + [Rooted(n)] == [Rooted(n)] && s.trace == [Rooted(n)] + [Edit(n, Add(n, c, false))];
    var pic := HungIn(first, n, 0, c, false);
    assert PictureOf(s.nodes) == pic;
    assert ShapeOf(c) == PictureOf(s.nodes)[c] == pic[c] && ShapeOf(n) == PictureOf(s.nodes)[n] == pic[n];
    assert c.path == [n, c];
    assert SettledAt(s.nodes, {}, c);
  }

  /** Between outermost calls no pass is under way: every live node was set up. */
  lemma AllLiveSetUp(nodes: set<Node>, m: Node)
    requires Settled(nodes, {}) && m in nodes
    ensures Live(nodes, m) ==> m.setupCalled
  {
    assert SettledAt(nodes, {}, m);
  }

  /** No node starts twice, and none before its parent at that moment. */
  lemma OnceAndInOrder(s: Session, i: nat, j: nat)
    requires s.LogOk() && i < |s.log| && j < |s.log|
    ensures s.log[i].node == s.log[j].node ==> i == j
    ensures s.log[i].parent == s.log[j].node ==> j < i
  {
    assert Words.Opened(0);
    assert EntryOk(s.log, i) && EntryOk(s.log, j);
    if s.log[i].parent == s.log[j].node {
      var h :| 0 <= h < i && s.log[..i][h].node == s.log[i].parent;
      assert s.log[h].node == s.log[j].node && EntryOk(s.log, h);
    }
  }
}
