/**
 * mkr.Dir: the comma-list rewriting of `include` and the agenda iterator of
 * `children(order)`, over an abstract finite directory tree in which each
 * directory's listing is given as a sequence.
 */
module Dir {
  import opened Strings

  // ---------------------------------------------------------------- include

  /** Replaces every comma of `t` by a comma followed by `rep`. */
  function ReplaceComma(t: string, rep: string): string
    decreases |t|
  {
    if t == [] then []
    else (if t[0] == ',' then [','] + rep else [t[0]]) + ReplaceComma(t[1..], rep)
  }

  /** Without a comma there is nothing to replace. */
  lemma {:induction false} ReplaceCommaFree(t: string, rep: string)
    requires ',' !in t
    ensures ReplaceComma(t, rep) == t
    decreases |t|
  {
    if t != [] {
      assert ',' !in t[1..] by {
        forall i | 0 <= i < |t[1..]| ensures t[1..][i] != ',' {
          assert t[1..][i] == t[i + 1];
        }
      }
      ReplaceCommaFree(t[1..], rep);
      assert [t[0]] + t[1..] == t;
    }
  }

  /**
   * `include(t)` for a directory whose path is `path`, with `sep` the file
   * separator: the result always starts with the directory, and a single path
   * is just put under it.
   */
  function Include(path: string, sep: string, t: string): (r: string)
    ensures |r| >= |path + sep| && r[..|path + sep|] == path + sep
    ensures ',' !in t ==> r == path + sep + t
  {
    if ',' !in t then ReplaceCommaFree(t, path + sep); path + sep + t
    else path + sep + ReplaceComma(t, path + sep)
  }

  /** Every element of `xs` with `p` in front. */
  function PrefixAll(p: string, xs: seq<string>): (r: seq<string>)
    ensures |r| == |xs|
    ensures forall i :: 0 <= i < |xs| ==> r[i] == p + xs[i]
  {
    if xs == [] then [] else [p + xs[0]] + PrefixAll(p, xs[1..])
  }

  lemma {:induction false} SplitReplaced(u: string, p: string, t: string)
    requires ',' !in u && ',' !in p
    ensures SplitOn(u + ReplaceComma(t, p), ',') ==
      [u + SplitOn(t, ',')[0]] + PrefixAll(p, SplitOn(t, ',')[1..])
    decreases |t|
  {
    if t == [] {
      SplitOnFree(u, ',');
      assert u + ReplaceComma(t, p) == u;
    } else if t[0] == ',' {
      SplitReplaced(p, p, t[1..]);
      SplitReplacedComma(u, p, t);
    } else {
      SplitReplaced(u + [t[0]], p, t[1..]);
      SplitReplacedChar(u, p, t);
    }
  }

  /** The step of `SplitReplaced` for a leading comma, given the claim for the tail. */
  lemma SplitReplacedComma(u: string, p: string, t: string)
    requires ',' !in u && ',' !in p && t != [] && t[0] == ','
    requires SplitOn(p + ReplaceComma(t[1..], p), ',') ==
      [p + SplitOn(t[1..], ',')[0]] + PrefixAll(p, SplitOn(t[1..], ',')[1..])
    ensures SplitOn(u + ReplaceComma(t, p), ',') ==
      [u + SplitOn(t, ',')[0]] + PrefixAll(p, SplitOn(t, ',')[1..])
  {
    var tail := p + ReplaceComma(t[1..], p);
    var xs := SplitOn(t[1..], ',');
    ReplaceCommaComma(u, p, t);
    SplitOnAfterPiece(u, ',', tail);
    SplitOnLead(t, ',');
    HeadTail([], xs);
    PrefixAllCons(p, xs);
    assert u + [] == u;
  }

  /** The step of `SplitReplaced` for a leading non-comma, given the claim for the tail. */
  lemma SplitReplacedChar(u: string, p: string, t: string)
    requires ',' !in u && ',' !in p && t != [] && t[0] != ','
    requires SplitOn(u + [t[0]] + ReplaceComma(t[1..], p), ',') ==
      [u + [t[0]] + SplitOn(t[1..], ',')[0]] + PrefixAll(p, SplitOn(t[1..], ',')[1..])
    ensures SplitOn(u + ReplaceComma(t, p), ',') ==
      [u + SplitOn(t, ',')[0]] + PrefixAll(p, SplitOn(t, ',')[1..])
  {
    var xs := SplitOn(t[1..], ',');
    ReplaceCommaOther(u, p, t);
    SplitOnLead(t, ',');
    HeadTail([t[0]] + xs[0], xs[1..]);
    ConcatAssoc(u, [t[0]], xs[0]);
  }

  lemma ConcatAssoc(a: string, b: string, c: string)
    ensures a + b + c == a + (b + c)
  {
  }

  lemma ReplaceCommaComma(u: string, p: string, t: string)
    requires t != [] && t[0] == ','
    ensures u + ReplaceComma(t, p) == u + [','] + (p + ReplaceComma(t[1..], p))
  {
  }

  lemma ReplaceCommaOther(u: string, p: string, t: string)
    requires t != [] && t[0] != ','
    ensures u + ReplaceComma(t, p) == u + [t[0]] + ReplaceComma(t[1..], p)
  {
  }

  lemma SplitOnLead(t: string, c: char)
    requires t != []
    ensures SplitOn(t, c) == if t[0] == c then [[]] + SplitOn(t[1..], c)
      else [[t[0]] + SplitOn(t[1..], c)[0]] + SplitOn(t[1..], c)[1..]
  {
  }

  lemma HeadTail(a: string, b: seq<string>)
    ensures ([a] + b)[0] == a && ([a] + b)[1..] == b
  {
  }

  lemma PrefixAllCons(p: string, xs: seq<string>)
    requires xs != []
    ensures PrefixAll(p, xs) == [p + xs[0]] + PrefixAll(p, xs[1..])
  {
  }

  /**
   * Splitting the result of `include` on commas gives each comma-separated piece
   * of the argument with the directory path and separator in front of it.
   */
  lemma IncludeSplit(path: string, sep: string, t: string)
    requires ',' !in path + sep
    ensures SplitOn(Include(path, sep, t), ',') == PrefixAll(path + sep, SplitOn(t, ','))
  {
    var xs := SplitOn(t, ',');
    if ',' !in t {
      ReplaceCommaFree(t, path + sep);
    }
    assert Include(path, sep, t) == path + sep + ReplaceComma(t, path + sep);
    SplitReplaced(path + sep, path + sep, t);
    assert PrefixAll(path + sep, xs) == [path + sep + xs[0]] + PrefixAll(path + sep, xs[1..]);
  }

  // ---------------------------------------------------------------- trees

  /** A file-system node: a plain file, or a directory with its listing in `listFiles` order. */
  datatype Tree = File(name: string) | Directory(name: string, listing: seq<Tree>)

  function Size(t: Tree): nat {
    match t
    case File(_) => 1
    case Directory(_, cs) => 1 + SizeForest(cs)
  }

  function SizeForest(ts: seq<Tree>): nat {
    if ts == [] then 0 else Size(ts[0]) + SizeForest(ts[1..])
  }

  function Kids(t: Tree): seq<Tree> {
    if t.Directory? then t.listing else []
  }

  /** Children-before-parent enumeration: every node, its subtree immediately before it. */
  function PostOrder(t: Tree): seq<Tree> {
    match t
    case File(_) => [t]
    case Directory(_, cs) => PostForest(cs) + [t]
  }

  function PostForest(ts: seq<Tree>): seq<Tree> {
    if ts == [] then [] else PostOrder(ts[0]) + PostForest(ts[1..])
  }

  /** Parent-before-children enumeration: every node, its subtree immediately after it. */
  function PreOrder(t: Tree): seq<Tree> {
    match t
    case File(_) => [t]
    case Directory(_, cs) => [t] + PreForest(cs)
  }

  function PreForest(ts: seq<Tree>): seq<Tree> {
    if ts == [] then [] else PreOrder(ts[0]) + PreForest(ts[1..])
  }

  /** The listings of all nodes of `q`, in order: the generation below `q`. */
  function KidsAll(q: seq<Tree>): seq<Tree> {
    if q == [] then [] else Kids(q[0]) + KidsAll(q[1..])
  }

  /** Nodes at depth `n` below the forest `q` (depth 0 is `q` itself). */
  function Generation(q: seq<Tree>, n: nat): seq<Tree>
    decreases n
  {
    if n == 0 then q else Generation(KidsAll(q), n - 1)
  }

  /** Generations 0 .. n - 1 of `q`, one after the other. */
  function UpTo(q: seq<Tree>, n: nat): seq<Tree>
    decreases n
  {
    if n == 0 then [] else q + UpTo(KidsAll(q), n - 1)
  }

  lemma {:induction false} SizeKidsAll(q: seq<Tree>)
    ensures SizeForest(q) == |q| + SizeForest(KidsAll(q))
  {
    if q != [] {
      SizeKidsAll(q[1..]);
      SizeForestAppend(Kids(q[0]), KidsAll(q[1..]));
    }
  }

  /** Level-order enumeration: generation 0, then generation 1, and so on. */
  function Levels(q: seq<Tree>): seq<Tree>
    decreases SizeForest(q)
  {
    if q == [] then []
    else
      SizeKidsAll(q);
      q + Levels(KidsAll(q))
  }

  lemma {:induction false} SizeForestAppend(a: seq<Tree>, b: seq<Tree>)
    ensures SizeForest(a + b) == SizeForest(a) + SizeForest(b)
    decreases |a|
  {
    if a != [] {
      SizeForestAppend(a[1..], b);
      assert (a + b)[0] == a[0] && (a + b)[1..] == a[1..] + b;
    } else {
      assert a + b == b;
    }
  }

  lemma {:induction false} KidsAllAppend(a: seq<Tree>, b: seq<Tree>)
    ensures KidsAll(a + b) == KidsAll(a) + KidsAll(b)
    decreases |a|
  {
    if a != [] {
      KidsAllAppend(a[1..], b);
      assert (a + b)[0] == a[0] && (a + b)[1..] == a[1..] + b;
    } else {
      assert a + b == b;
    }
  }

  // ---------------------------------------------------------------- the agenda iterator

  /** The three TraversalOrder constants. */
  datatype Order = DepthFirst | ParentFirst | BreadthFirst

  /** `order.expandAt(end)`: where a directory's listing is inserted into an agenda of size `end`. */
  function ExpandAt(order: Order, end: nat): (k: nat)
    requires end >= 1
    ensures k <= end
  {
    match order
    case DepthFirst => 0
    case ParentFirst => 1
    case BreadthFirst => end
  }

  /**
   * An agenda element: `isDir` is true when the agenda holds a Dir object for the
   * node (it is yielded as it is), false for a plain File from a listing.
   */
  datatype Entry = Entry(node: Tree, isDir: bool)

  /** `Arrays.asList(dir.listFiles())`: plain File objects. */
  function Plain(ts: seq<Tree>): (r: seq<Entry>)
    ensures |r| == |ts|
  {
    if ts == [] then [] else [Entry(ts[0], false)] + Plain(ts[1..])
  }

  /**
   * `schedule(dir)`: the Dir goes to the front, its listing at `expandAt(size)`:
   * ahead of the Dir for DEPTH_FIRST, right behind it for PARENT_FIRST, and
   * behind the whole agenda for BREADTH_FIRST.
   */
  function Schedule(order: Order, dir: Tree, agenda: seq<Entry>): (r: seq<Entry>)
    requires dir.Directory?
    ensures order == DepthFirst ==> r == Plain(dir.listing) + [Entry(dir, true)] + agenda
    ensures order == ParentFirst ==> r == [Entry(dir, true)] + Plain(dir.listing) + agenda
    ensures order == BreadthFirst ==> r == [Entry(dir, true)] + agenda + Plain(dir.listing)
  {
    var a := [Entry(dir, true)] + agenda;
    var k := ExpandAt(order, |a|);
    a[..k] + Plain(dir.listing) + a[k..]
  }

  /** `head instanceof Dir || !head.isDirectory()`: what `hasNext` lets `next` hand out. */
  predicate Yieldable(e: Entry) {
    e.isDir || e.node.File?
  }

  function Weight(e: Entry): nat {
    if e.isDir then 1 else 2 * Size(e.node)
  }

  function AgendaWeight(a: seq<Entry>): nat {
    if a == [] then 0 else Weight(a[0]) + AgendaWeight(a[1..])
  }

  lemma {:induction false} AgendaWeightAppend(a: seq<Entry>, b: seq<Entry>)
    ensures AgendaWeight(a + b) == AgendaWeight(a) + AgendaWeight(b)
    decreases |a|
  {
    if a != [] {
      AgendaWeightAppend(a[1..], b);
      assert (a + b)[0] == a[0] && (a + b)[1..] == a[1..] + b;
    } else {
      assert a + b == b;
    }
  }

  lemma {:induction false} AgendaWeightPlain(ts: seq<Tree>)
    ensures AgendaWeight(Plain(ts)) == 2 * SizeForest(ts)
    decreases |ts|
  {
    if ts != [] {
      AgendaWeightPlain(ts[1..]);
    }
  }

  /** Expanding a plain directory at the head of the agenda makes the agenda lighter. */
  lemma ScheduleWeight(order: Order, dir: Tree, rest: seq<Entry>)
    requires dir.Directory?
    ensures AgendaWeight(Schedule(order, dir, rest)) < AgendaWeight([Entry(dir, false)] + rest)
  {
    var a := [Entry(dir, true)] + rest;
    var k := ExpandAt(order, |a|);
    assert a == a[..k] + a[k..];
    AgendaWeightAppend(a[..k], a[k..]);
    AgendaWeightAppend(a[..k] + Plain(dir.listing), a[k..]);
    AgendaWeightAppend(a[..k], Plain(dir.listing));
    AgendaWeightPlain(dir.listing);
    AgendaWeightAppend([Entry(dir, true)], rest);
    AgendaWeightAppend([Entry(dir, false)], rest);
  }

  /**
   * The files the iterator hands out, starting from `agenda`: `hasNext` expands
   * plain directories at the head; `next` removes and returns the head.
   */
  function Walk(order: Order, agenda: seq<Entry>): (r: seq<Entry>)
    ensures forall i :: 0 <= i < |r| ==> Yieldable(r[i])
    decreases AgendaWeight(agenda)
  {
    if agenda == [] then []
    else if Yieldable(agenda[0]) then
      assert agenda == [agenda[0]] + agenda[1..];
      AgendaWeightAppend([agenda[0]], agenda[1..]);
      [agenda[0]] + Walk(order, agenda[1..])
    else
      assert agenda == [Entry(agenda[0].node, false)] + agenda[1..];
      ScheduleWeight(order, agenda[0].node, agenda[1..]);
      Walk(order, Schedule(order, agenda[0].node, agenda[1..]))
  }

  function Nodes(es: seq<Entry>): (r: seq<Tree>)
    ensures |r| == |es|
  {
    if es == [] then [] else [es[0].node] + Nodes(es[1..])
  }

  /**
   * The elements `children(order)` iterates over for the directory `root`: the
   * iterator's constructor schedules `root` as a Dir.
   */
  function Children(root: Tree, order: Order): seq<Tree>
    requires root.Directory?
  {
    Nodes(Walk(order, Schedule(order, root, [])))
  }
}
