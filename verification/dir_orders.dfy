/**
 * What the three traversal orders of `Dir.children` yield: DEPTH_FIRST is the
 * post-order of the tree, PARENT_FIRST its pre-order and BREADTH_FIRST its level
 * order; each yields every node of the tree exactly once.
 */
module DirOrders {
  import opened Dir

  // ---------------------------------------------------------------- reference enumerations of agendas

  /** What an agenda element contributes in post-order: a Dir only itself, a plain entry its subtree. */
  function FlatPost(a: seq<Entry>): seq<Tree> {
    if a == [] then []
    else (if a[0].isDir then [a[0].node] else PostOrder(a[0].node)) + FlatPost(a[1..])
  }

  function FlatPre(a: seq<Entry>): seq<Tree> {
    if a == [] then []
    else (if a[0].isDir then [a[0].node] else PreOrder(a[0].node)) + FlatPre(a[1..])
  }

  lemma {:induction false} NodesAppend(a: seq<Entry>, b: seq<Entry>)
    ensures Nodes(a + b) == Nodes(a) + Nodes(b)
    decreases |a|
  {
    if a == [] {
      assert a + b == b;
    } else {
      NodesAppend(a[1..], b);
      assert (a + b)[0] == a[0] && (a + b)[1..] == a[1..] + b;
      assert Nodes(a + b) == [a[0].node] + Nodes(a[1..] + b);
      assert Nodes(a) == [a[0].node] + Nodes(a[1..]);
    }
  }

  lemma {:induction false} PlainAppend(a: seq<Tree>, b: seq<Tree>)
    ensures Plain(a + b) == Plain(a) + Plain(b)
    decreases |a|
  {
    if a == [] {
      assert a + b == b;
    } else {
      PlainAppend(a[1..], b);
      assert (a + b)[0] == a[0] && (a + b)[1..] == a[1..] + b;
      assert Plain(a + b) == [Entry(a[0], false)] + Plain(a[1..] + b);
      assert Plain(a) == [Entry(a[0], false)] + Plain(a[1..]);
    }
  }

  lemma {:induction false} FlatPostAppend(a: seq<Entry>, b: seq<Entry>)
    ensures FlatPost(a + b) == FlatPost(a) + FlatPost(b)
    decreases |a|
  {
    if a == [] {
      assert a + b == b;
    } else {
      FlatPostAppend(a[1..], b);
      assert (a + b)[0] == a[0] && (a + b)[1..] == a[1..] + b;
    }
  }

  lemma {:induction false} FlatPreAppend(a: seq<Entry>, b: seq<Entry>)
    ensures FlatPre(a + b) == FlatPre(a) + FlatPre(b)
    decreases |a|
  {
    if a == [] {
      assert a + b == b;
    } else {
      FlatPreAppend(a[1..], b);
      assert (a + b)[0] == a[0] && (a + b)[1..] == a[1..] + b;
    }
  }

  lemma {:induction false} FlatPostPlain(ts: seq<Tree>)
    ensures FlatPost(Plain(ts)) == PostForest(ts)
    decreases |ts|
  {
    if ts != [] {
      FlatPostPlain(ts[1..]);
    }
  }

  lemma {:induction false} FlatPrePlain(ts: seq<Tree>)
    ensures FlatPre(Plain(ts)) == PreForest(ts)
    decreases |ts|
  {
    if ts != [] {
      FlatPrePlain(ts[1..]);
    }
  }

  // ---------------------------------------------------------------- DEPTH_FIRST

  /** With `expandAt` = 0 the iterator yields the post-order of its agenda. */
  lemma {:induction false} WalkDepthFirst(a: seq<Entry>)
    ensures Nodes(Walk(DepthFirst, a)) == FlatPost(a)
    decreases AgendaWeight(a)
  {
    if a == [] {
    } else if Yieldable(a[0]) {
      assert a == [a[0]] + a[1..];
      AgendaWeightAppend([a[0]], a[1..]);
      WalkDepthFirst(a[1..]);
      NodesAppend([a[0]], Walk(DepthFirst, a[1..]));
    } else {
      var d := a[0].node;
      var rest := a[1..];
      assert a == [Entry(d, false)] + rest;
      ScheduleWeight(DepthFirst, d, rest);
      var front := [Entry(d, true)] + rest;
      var b := Schedule(DepthFirst, d, rest);
      assert front[..0] == [] && front[0..] == front;
      assert b == Plain(d.listing) + front;
      WalkDepthFirst(b);
      FlatPostAppend(Plain(d.listing), front);
      FlatPostPlain(d.listing);
      assert front[1..] == rest;
    }
  }

  /** DEPTH_FIRST yields exactly the post-order of the tree: every subtree before its root, the root last. */
  lemma DepthFirstIsPostOrder(root: Tree)
    requires root.Directory?
    ensures Children(root, DepthFirst) == PostOrder(root)
  {
    var front := [Entry(root, true)];
    assert front[..0] == [] && front[0..] == front;
    assert Schedule(DepthFirst, root, []) == Plain(root.listing) + front;
    WalkDepthFirst(Plain(root.listing) + front);
    FlatPostAppend(Plain(root.listing), front);
    FlatPostPlain(root.listing);
  }

  // ---------------------------------------------------------------- PARENT_FIRST

  /** With `expandAt` = 1 the iterator yields the pre-order of its agenda. */
  lemma {:induction false} WalkParentFirst(a: seq<Entry>)
    ensures Nodes(Walk(ParentFirst, a)) == FlatPre(a)
    decreases AgendaWeight(a)
  {
    if a == [] {
    } else if Yieldable(a[0]) {
      assert a == [a[0]] + a[1..];
      AgendaWeightAppend([a[0]], a[1..]);
      WalkParentFirst(a[1..]);
      NodesAppend([a[0]], Walk(ParentFirst, a[1..]));
    } else {
      var d := a[0].node;
      var rest := a[1..];
      assert a == [Entry(d, false)] + rest;
      ScheduleWeight(ParentFirst, d, rest);
      var front := [Entry(d, true)] + rest;
      var b := Schedule(ParentFirst, d, rest);
      assert front[..1] == [Entry(d, true)] && front[1..] == rest;
      assert b == [Entry(d, true)] + (Plain(d.listing) + rest);
      WalkParentFirst(b);
      FlatPreAppend([Entry(d, true)], Plain(d.listing) + rest);
      FlatPreAppend(Plain(d.listing), rest);
      FlatPrePlain(d.listing);
    }
  }

  /** PARENT_FIRST yields exactly the pre-order of the tree: every directory before its subtree. */
  lemma ParentFirstIsPreOrder(root: Tree)
    requires root.Directory?
    ensures Children(root, ParentFirst) == PreOrder(root)
  {
    var front := [Entry(root, true)];
    assert front[..1] == front && front[1..] == [];
    assert Schedule(ParentFirst, root, []) == front + Plain(root.listing);
    WalkParentFirst(front + Plain(root.listing));
    FlatPreAppend(front, Plain(root.listing));
    FlatPrePlain(root.listing);
  }

  // ---------------------------------------------------------------- BREADTH_FIRST

  /** One step of the iterator on a head it can hand out. */
  lemma WalkYield(order: Order, a: seq<Entry>)
    requires a != [] && Yieldable(a[0])
    ensures Nodes(Walk(order, a)) == [a[0].node] + Nodes(Walk(order, a[1..]))
  {
    NodesAppend([a[0]], Walk(order, a[1..]));
  }

  /** One step of the iterator on a plain directory at the head: it is scheduled. */
  lemma WalkExpand(order: Order, a: seq<Entry>)
    requires a != [] && !Yieldable(a[0])
    ensures Walk(order, a) == Walk(order, Schedule(order, a[0].node, a[1..]))
  {
  }

  lemma ScheduleBreadthFirst(x: Tree, q: seq<Tree>)
    requires x.Directory?
    ensures Schedule(BreadthFirst, x, Plain(q)) == [Entry(x, true)] + Plain(q + Kids(x))
  {
    var front := [Entry(x, true)] + Plain(q);
    var k := ExpandAt(BreadthFirst, |front|);
    assert k == |front|;
    assert front[..k] == front && front[k..] == [];
    calc {
      Schedule(BreadthFirst, x, Plain(q));
      front[..k] + Plain(x.listing) + front[k..];
      front + Plain(x.listing);
      { PlainAppend(q, x.listing); }
      [Entry(x, true)] + Plain(q + x.listing);
    }
  }

  /** Shorthand for the breadth-first yield of a queue of plain entries. */
  function BfsYield(q: seq<Tree>): seq<Tree> {
    Nodes(Walk(BreadthFirst, Plain(q)))
  }

  lemma BfsFront(x: Tree, rest: seq<Tree>)
    ensures Plain([x] + rest) == [Entry(x, false)] + Plain(rest)
  {
    PlainAppend([x], rest);
  }

  lemma BfsHeadFile(x: Tree, rest: seq<Tree>)
    requires x.File?
    ensures BfsYield([x] + rest) == [x] + BfsYield(rest)
  {
    var a := [Entry(x, false)] + Plain(rest);
    BfsFront(x, rest);
    WalkYield(BreadthFirst, a);
    assert a[1..] == Plain(rest);
  }

  lemma BfsHeadDirectory(x: Tree, rest: seq<Tree>)
    requires x.Directory?
    ensures BfsYield([x] + rest) == [x] + BfsYield(rest + Kids(x))
  {
    var a := [Entry(x, false)] + Plain(rest);
    BfsFront(x, rest);
    WalkExpand(BreadthFirst, a);
    assert a[1..] == Plain(rest);
    ScheduleBreadthFirst(x, rest);
    var b := [Entry(x, true)] + Plain(rest + Kids(x));
    WalkYield(BreadthFirst, b);
    assert b[1..] == Plain(rest + Kids(x));
  }

  lemma BfsSplitFile(x: Tree, q': seq<Tree>, r: seq<Tree>)
    requires x.File?
    requires BfsYield(q' + r) == q' + BfsYield(r + KidsAll(q'))
    ensures BfsYield([x] + q' + r) == [x] + q' + BfsYield(r + KidsAll([x] + q'))
  {
    assert [x] + q' + r == [x] + (q' + r);
    BfsHeadFile(x, q' + r);
    FileKidsAll(x, q');
    ConsAssoc(x, q', BfsYield(r + KidsAll(q')), BfsYield([x] + q' + r), BfsYield(q' + r));
  }

  lemma FileKidsAll(x: Tree, q: seq<Tree>)
    requires x.File?
    ensures KidsAll([x] + q) == KidsAll(q)
  {
    KidsAllCons(x, q);
    assert Kids(x) == [];
  }

  lemma KidsAllCons(x: Tree, q: seq<Tree>)
    ensures KidsAll([x] + q) == Kids(x) + KidsAll(q)
  {
    assert ([x] + q)[0] == x && ([x] + q)[1..] == q;
  }

  lemma BfsDirectoryFront(x: Tree, q': seq<Tree>, r: seq<Tree>)
    requires x.Directory?
    ensures BfsYield([x] + q' + r) == [x] + BfsYield(q' + (r + Kids(x)))
  {
    assert [x] + q' + r == [x] + (q' + r);
    BfsHeadDirectory(x, q' + r);
    assert q' + r + Kids(x) == q' + (r + Kids(x));
  }

  lemma KidsAllDirectoryCons(x: Tree, q': seq<Tree>, r: seq<Tree>)
    ensures r + Kids(x) + KidsAll(q') == r + KidsAll([x] + q')
  {
    KidsAllCons(x, q');
  }

  lemma ConsAssoc(x: Tree, q: seq<Tree>, w: seq<Tree>, y1: seq<Tree>, y2: seq<Tree>)
    requires y1 == [x] + y2 && y2 == q + w
    ensures y1 == [x] + q + w
  {
  }

  lemma BfsSplitDirectory(x: Tree, q': seq<Tree>, r: seq<Tree>)
    requires x.Directory?
    requires BfsYield(q' + (r + Kids(x))) == q' + BfsYield(r + Kids(x) + KidsAll(q'))
    ensures BfsYield([x] + q' + r) == [x] + q' + BfsYield(r + KidsAll([x] + q'))
  {
    BfsDirectoryFront(x, q', r);
    KidsAllDirectoryCons(x, q', r);
    var w := BfsYield(r + KidsAll([x] + q'));
    ConsAssoc(x, q', w, BfsYield([x] + q' + r), BfsYield(q' + (r + Kids(x))));
  }

  /** With `expandAt` = size, the plain entries of `q` are yielded before anything scheduled after them. */
  lemma {:induction false} WalkBreadthFirstSplit(q: seq<Tree>, r: seq<Tree>)
    ensures BfsYield(q + r) == q + BfsYield(r + KidsAll(q))
    decreases |q|
  {
    if q == [] {
      assert q + r == r && r + [] == r;
    } else {
      var x, q' := q[0], q[1..];
      assert q == [x] + q';
      if x.File? {
        WalkBreadthFirstSplit(q', r);
        BfsSplitFile(x, q', r);
      } else {
        WalkBreadthFirstSplit(q', r + Kids(x));
        BfsSplitDirectory(x, q', r);
      }
    }
  }

  lemma {:induction false} WalkBreadthFirst(q: seq<Tree>)
    ensures Nodes(Walk(BreadthFirst, Plain(q))) == Levels(q)
    decreases SizeForest(q)
  {
    if q != [] {
      WalkBreadthFirstSplit(q, []);
      assert q + [] == q && [] + KidsAll(q) == KidsAll(q);
      SizeKidsAll(q);
      WalkBreadthFirst(KidsAll(q));
    }
  }

  /** BREADTH_FIRST yields exactly the level order of the tree. */
  lemma BreadthFirstIsLevels(root: Tree)
    requires root.Directory?
    ensures Children(root, BreadthFirst) == Levels([root])
  {
    var front := [Entry(root, true)];
    assert front[..1] == front && front[1..] == [];
    var a := Schedule(BreadthFirst, root, []);
    assert a == front + Plain(root.listing);
    assert a[1..] == Plain(root.listing);
    WalkBreadthFirst(root.listing);
    NodesAppend([a[0]], Walk(BreadthFirst, a[1..]));
    assert KidsAll([root]) == root.listing;
  }

  /**
   * Level order puts every node at depth < n before every node at depth >= n:
   * generations 0 .. n - 1 come first, in order, then the level order of generation n.
   */
  lemma {:induction false} LevelsByDepth(q: seq<Tree>, n: nat)
    ensures Levels(q) == UpTo(q, n) + Levels(Generation(q, n))
    decreases n
  {
    if n > 0 {
      LevelsByDepth(KidsAll(q), n - 1);
      if q == [] {
        assert KidsAll(q) == [];
      }
    }
  }

  // ---------------------------------------------------------------- every node exactly once

  lemma SizePreOrder(t: Tree)
    ensures |PreOrder(t)| == Size(t) && |PostOrder(t)| == Size(t)
  {
    match t
    case File(_) =>
    case Directory(_, cs) => SizePreForest(cs);
  }

  lemma SizePreForest(ts: seq<Tree>)
    ensures |PreForest(ts)| == SizeForest(ts) && |PostForest(ts)| == SizeForest(ts)
  {
    if ts != [] {
      SizePreOrder(ts[0]);
      SizePreForest(ts[1..]);
    }
  }

  /** Post-order is a permutation of pre-order. */
  lemma PostIsPermutationOfPre(t: Tree)
    ensures multiset(PostOrder(t)) == multiset(PreOrder(t))
  {
    match t
    case File(_) =>
    case Directory(_, cs) => PostForestIsPermutation(cs);
  }

  lemma PostForestIsPermutation(ts: seq<Tree>)
    ensures multiset(PostForest(ts)) == multiset(PreForest(ts))
  {
    if ts != [] {
      PostIsPermutationOfPre(ts[0]);
      PostForestIsPermutation(ts[1..]);
    }
  }

  lemma {:induction false} PreForestAppend(a: seq<Tree>, b: seq<Tree>)
    ensures PreForest(a + b) == PreForest(a) + PreForest(b)
    decreases |a|
  {
    if a == [] {
      assert a + b == b;
    } else {
      PreForestAppend(a[1..], b);
      assert (a + b)[0] == a[0] && (a + b)[1..] == a[1..] + b;
    }
  }

  lemma {:induction false} PreForestByGeneration(q: seq<Tree>)
    ensures multiset(PreForest(q)) == multiset(q) + multiset(PreForest(KidsAll(q)))
    decreases |q|
  {
    if q != [] {
      var x, q' := q[0], q[1..];
      PreForestByGeneration(q');
      PreForestCons(q);
      var a, b, c := PreForest(Kids(x)), PreForest(q'), PreForest(KidsAll(q'));
      assert multiset(PreForest(q)) == multiset([x]) + multiset(a) + multiset(b);
      assert multiset(b) == multiset(q') + multiset(c);
      assert multiset(q) == multiset([x]) + multiset(q');
      assert multiset(PreForest(KidsAll(q))) == multiset(a) + multiset(c);
    }
  }

  /** One step of pre-order and of the generation below a non-empty forest. */
  lemma PreForestCons(q: seq<Tree>)
    requires q != []
    ensures PreForest(q) == [q[0]] + PreForest(Kids(q[0])) + PreForest(q[1..])
    ensures PreForest(KidsAll(q)) == PreForest(Kids(q[0])) + PreForest(KidsAll(q[1..]))
    ensures q == [q[0]] + q[1..]
  {
    var x := q[0];
    PreForestAppend(Kids(x), KidsAll(q[1..]));
    PreOrderKids(x);
    assert PreForest(q) == PreOrder(x) + PreForest(q[1..]);
    assert KidsAll(q) == Kids(x) + KidsAll(q[1..]);
  }

  lemma PreOrderKids(t: Tree)
    ensures PreOrder(t) == [t] + PreForest(Kids(t))
  {
    if t.File? {
      assert PreForest(Kids(t)) == [];
    }
  }

  /** Level order is a permutation of pre-order. */
  lemma {:induction false} LevelsIsPermutationOfPre(q: seq<Tree>)
    ensures multiset(Levels(q)) == multiset(PreForest(q))
    decreases SizeForest(q)
  {
    if q != [] {
      SizeKidsAll(q);
      LevelsIsPermutationOfPre(KidsAll(q));
      PreForestByGeneration(q);
    }
  }

  /**
   * Every order yields each node of the tree, the root included, exactly as often
   * as the tree contains it, and nothing else.
   */
  lemma EveryNodeOnce(root: Tree, order: Order)
    requires root.Directory?
    ensures multiset(Children(root, order)) == multiset(PreOrder(root))
    ensures |Children(root, order)| == Size(root)
  {
    SizePreOrder(root);
    match order
    case DepthFirst =>
      DepthFirstIsPostOrder(root);
      PostIsPermutationOfPre(root);
    case ParentFirst =>
      ParentFirstIsPreOrder(root);
    case BreadthFirst =>
      BreadthFirstIsLevels(root);
      LevelsIsPermutationOfPre([root]);
      assert PreForest([root]) == PreOrder(root) + PreForest([]);
      assert PreForest([root]) == PreOrder(root);
  }

  // ---------------------------------------------------------------- subtree contiguity

  /** Every node is immediately preceded by the rest of its subtree. */
  ghost predicate SubtreesEndAt(p: seq<Tree>) {
    forall i :: 0 <= i < |p| ==> Size(p[i]) <= i + 1 && p[i + 1 - Size(p[i]) .. i + 1] == PostOrder(p[i])
  }

  /** Every node is immediately followed by the rest of its subtree. */
  ghost predicate SubtreesStartAt(p: seq<Tree>) {
    forall i :: 0 <= i < |p| ==> i + Size(p[i]) <= |p| && p[i .. i + Size(p[i])] == PreOrder(p[i])
  }

  lemma EndAtAppend(a: seq<Tree>, b: seq<Tree>)
    requires SubtreesEndAt(a) && SubtreesEndAt(b)
    ensures SubtreesEndAt(a + b)
  {
    var p := a + b;
    forall i | 0 <= i < |p|
      ensures Size(p[i]) <= i + 1 && p[i + 1 - Size(p[i]) .. i + 1] == PostOrder(p[i])
    {
      if i < |a| {
        EndAtLeft(a, b, i);
      } else {
        EndAtRight(a, b, i - |a|);
      }
    }
  }

  lemma EndAtLeft(a: seq<Tree>, b: seq<Tree>, i: nat)
    requires SubtreesEndAt(a) && i < |a|
    ensures (a + b)[i] == a[i] && Size(a[i]) <= i + 1
    ensures (a + b)[i + 1 - Size(a[i]) .. i + 1] == PostOrder(a[i])
  {
    assert (a + b)[i + 1 - Size(a[i]) .. i + 1] == a[i + 1 - Size(a[i]) .. i + 1];
  }

  lemma EndAtRight(a: seq<Tree>, b: seq<Tree>, j: nat)
    requires SubtreesEndAt(b) && j < |b|
    ensures (a + b)[|a| + j] == b[j] && Size(b[j]) <= |a| + j + 1
    ensures (a + b)[|a| + j + 1 - Size(b[j]) .. |a| + j + 1] == PostOrder(b[j])
  {
    assert (a + b)[|a| + j + 1 - Size(b[j]) .. |a| + j + 1] == b[j + 1 - Size(b[j]) .. j + 1];
  }

  lemma StartAtAppend(a: seq<Tree>, b: seq<Tree>)
    requires SubtreesStartAt(a) && SubtreesStartAt(b)
    ensures SubtreesStartAt(a + b)
  {
    var p := a + b;
    forall i | 0 <= i < |p|
      ensures i + Size(p[i]) <= |p| && p[i .. i + Size(p[i])] == PreOrder(p[i])
    {
      if i < |a| {
        StartAtLeft(a, b, i);
      } else {
        StartAtRight(a, b, i - |a|);
      }
    }
  }

  lemma StartAtLeft(a: seq<Tree>, b: seq<Tree>, i: nat)
    requires SubtreesStartAt(a) && i < |a|
    ensures (a + b)[i] == a[i] && i + Size(a[i]) <= |a + b|
    ensures (a + b)[i .. i + Size(a[i])] == PreOrder(a[i])
  {
    assert (a + b)[i .. i + Size(a[i])] == a[i .. i + Size(a[i])];
  }

  lemma StartAtRight(a: seq<Tree>, b: seq<Tree>, j: nat)
    requires SubtreesStartAt(b) && j < |b|
    ensures (a + b)[|a| + j] == b[j] && |a| + j + Size(b[j]) <= |a + b|
    ensures (a + b)[|a| + j .. |a| + j + Size(b[j])] == PreOrder(b[j])
  {
    assert (a + b)[|a| + j .. |a| + j + Size(b[j])] == b[j .. j + Size(b[j])];
  }

  /** In post-order every node's whole subtree comes immediately before it. */
  lemma PostOrderSubtrees(t: Tree)
    ensures SubtreesEndAt(PostOrder(t))
  {
    match t
    case File(_) =>
    case Directory(_, cs) =>
      PostForestSubtrees(cs);
      SizePreOrder(t);
      assert |PostForest(cs)| + 1 == Size(t);
      EndAtSnoc(PostForest(cs), t);
  }

  /** A post-order whose proper part has the property, with the node itself last. */
  lemma EndAtSnoc(f: seq<Tree>, t: Tree)
    requires SubtreesEndAt(f) && f + [t] == PostOrder(t) && |f| + 1 == Size(t)
    ensures SubtreesEndAt(f + [t])
  {
    var p := f + [t];
    forall i | 0 <= i < |p|
      ensures Size(p[i]) <= i + 1 && p[i + 1 - Size(p[i]) .. i + 1] == PostOrder(p[i])
    {
      if i < |f| {
        EndAtPrefix(f, t, i);
      } else {
        assert p[i] == t && i + 1 - Size(t) == 0;
        assert p[0 .. |p|] == p;
      }
    }
  }

  lemma EndAtPrefix(f: seq<Tree>, t: Tree, i: nat)
    requires SubtreesEndAt(f) && i < |f|
    ensures Size(f[i]) <= i + 1 && (f + [t])[i + 1 - Size(f[i]) .. i + 1] == PostOrder(f[i])
  {
    assert (f + [t])[i + 1 - Size(f[i]) .. i + 1] == f[i + 1 - Size(f[i]) .. i + 1];
  }

  lemma PostForestSubtrees(ts: seq<Tree>)
    ensures SubtreesEndAt(PostForest(ts))
  {
    if ts != [] {
      PostOrderSubtrees(ts[0]);
      PostForestSubtrees(ts[1..]);
      EndAtAppend(PostOrder(ts[0]), PostForest(ts[1..]));
    }
  }

  /** In pre-order every node's whole subtree comes immediately after it. */
  lemma PreOrderSubtrees(t: Tree)
    ensures SubtreesStartAt(PreOrder(t))
  {
    match t
    case File(_) =>
    case Directory(_, cs) =>
      PreForestSubtrees(cs);
      SizePreOrder(t);
      assert |PreForest(cs)| + 1 == Size(t);
      StartAtCons(t, PreForest(cs));
  }

  /** A pre-order whose proper part has the property, with the node itself first. */
  lemma StartAtCons(t: Tree, f: seq<Tree>)
    requires SubtreesStartAt(f) && [t] + f == PreOrder(t) && |f| + 1 == Size(t)
    ensures SubtreesStartAt([t] + f)
  {
    var p := [t] + f;
    forall i | 0 <= i < |p|
      ensures i + Size(p[i]) <= |p| && p[i .. i + Size(p[i])] == PreOrder(p[i])
    {
      if i == 0 {
        assert p[0] == t;
        assert p[0 .. |p|] == p;
      } else {
        StartAtRight([t], f, i - 1);
      }
    }
  }

  lemma PreForestSubtrees(ts: seq<Tree>)
    ensures SubtreesStartAt(PreForest(ts))
  {
    if ts != [] {
      PreOrderSubtrees(ts[0]);
      PreForestSubtrees(ts[1..]);
      StartAtAppend(PreOrder(ts[0]), PreForest(ts[1..]));
    }
  }

  lemma {:induction false} ListedInPostForest(ts: seq<Tree>, k: nat)
    requires k < |ts|
    ensures ts[k] in PostForest(ts)
    decreases k
  {
    if k == 0 {
      match ts[0]
      case File(_) =>
      case Directory(_, cs) =>
        assert PostOrder(ts[0])[|PostOrder(ts[0])| - 1] == ts[0];
    } else {
      ListedInPostForest(ts[1..], k - 1);
    }
  }

  lemma {:induction false} ListedInPreForest(ts: seq<Tree>, k: nat)
    requires k < |ts|
    ensures ts[k] in PreForest(ts)
    decreases k
  {
    if k == 0 {
      assert PreOrder(ts[0])[0] == ts[0];
    } else {
      ListedInPreForest(ts[1..], k - 1);
    }
  }

  lemma ListedBeforeInPostOrder(p: seq<Tree>, i: nat, k: nat)
    requires SubtreesEndAt(p)
    requires i < |p| && p[i].Directory? && k < |p[i].listing|
    ensures p[i].listing[k] in p[..i]
  {
    var d := p[i];
    var s := Size(d);
    SizePreOrder(d);
    ListedInPostForest(d.listing, k);
    var f := PostForest(d.listing);
    assert p[i + 1 - s .. i + 1] == f + [d];
    var m :| 0 <= m < |f| && f[m] == d.listing[k];
    assert p[i + 1 - s + m] == d.listing[k];
  }

  lemma ListedAfterInPreOrder(p: seq<Tree>, i: nat, k: nat)
    requires SubtreesStartAt(p)
    requires i < |p| && p[i].Directory? && k < |p[i].listing|
    ensures p[i].listing[k] in p[i + 1..]
  {
    var d := p[i];
    var s := Size(d);
    SizePreOrder(d);
    ListedInPreForest(d.listing, k);
    var f := PreForest(d.listing);
    assert p[i .. i + s] == [d] + f;
    var m :| 0 <= m < |f| && f[m] == d.listing[k];
    assert p[i + 1 + m] == d.listing[k];
  }

  /**
   * What deleteAll relies on: DEPTH_FIRST yields every entry of a directory's
   * listing before the directory itself, and the root last.
   */
  lemma DepthFirstEmptiesBeforeDelete(root: Tree)
    requires root.Directory?
    ensures var p := Children(root, DepthFirst);
      && |p| >= 1 && p[|p| - 1] == root
      && forall i, k :: 0 <= i < |p| && p[i].Directory? && 0 <= k < |p[i].listing| ==> p[i].listing[k] in p[..i]
  {
    DepthFirstIsPostOrder(root);
    var p := PostOrder(root);
    PostOrderSubtrees(root);
    forall i, k | 0 <= i < |p| && p[i].Directory? && 0 <= k < |p[i].listing|
      ensures p[i].listing[k] in p[..i]
    {
      ListedBeforeInPostOrder(p, i, k);
    }
  }

  /** PARENT_FIRST yields every directory before every entry of its listing, and the root first. */
  lemma ParentFirstListsAfterDirectory(root: Tree)
    requires root.Directory?
    ensures var p := Children(root, ParentFirst);
      && |p| >= 1 && p[0] == root
      && forall i, k :: 0 <= i < |p| && p[i].Directory? && 0 <= k < |p[i].listing| ==> p[i].listing[k] in p[i + 1..]
  {
    ParentFirstIsPreOrder(root);
    var p := PreOrder(root);
    PreOrderSubtrees(root);
    forall i, k | 0 <= i < |p| && p[i].Directory? && 0 <= k < |p[i].listing|
      ensures p[i].listing[k] in p[i + 1..]
    {
      ListedAfterInPreOrder(p, i, k);
    }
  }
}
