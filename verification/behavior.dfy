/**
 * The override chain of mkr.build.Behavior: a singly linked stack of handlers,
 * each implementing some of the controller interfaces, in which a lookup resolves
 * to the nearest handler that implements the requested interface.
 *
 * A chain is the sequence of handlers reachable from one handler along `next`:
 * `c[i + 1]` is `c[i].next` and the last handler's `next` is null. Every handler
 * also stores the identity of the head it searches from (`first`).
 */
module Behavior {

  /** The controller interfaces a handler may implement, identified by type. */
  datatype Capability =
    | Runner
    | RunnerCallback
    | BuildEvents
    | Parameterized
    | Loggers
    | TargetEvents
    | BuildController   // the class Build.Controller itself, asked for by Build.start

  datatype Handler = Handler(id: string, caps: set<Capability>, first: string)

  type Chain = seq<Handler>

  /** The result of `find`: the index of the handler found, or the ClassCastException. */
  datatype Lookup = Found(index: nat) | NotImplemented(cap: Capability)

  /** No handler occurs twice: the linked list has no cycle. */
  predicate DistinctIds(c: Chain) {
    forall i, j :: 0 <= i < j < |c| ==> c[i].id != c[j].id
  }

  /** A chain as it exists after construction: acyclic, and every node's `first` is the head. */
  predicate WellFormed(c: Chain) {
    && |c| > 0
    && DistinctIds(c)
    && forall i :: 0 <= i < |c| ==> c[i].first == c[0].id
  }

  /** A freshly constructed Behavior: `first == this`, `next == null`. */
  function Fresh(id: string, caps: set<Capability>): (c: Chain)
    ensures WellFormed(c) && |c| == 1
    ensures c[0].id == id && c[0].caps == caps
  {
    [Handler(id, caps, id)]
  }

  /** The loop of `overrides`: sets `first` of every node reachable from the parent. */
  function Repoint(below: Chain, head: string): (r: Chain)
    ensures |r| == |below|
    ensures forall i :: 0 <= i < |r| ==> r[i] == below[i].(first := head)
  {
    if below == [] then [] else [below[0].(first := head)] + Repoint(below[1..], head)
  }

  /**
   * `x.overrides(p)` where `below` is the chain reachable from `p` (empty for null).
   * The Java loop never ends when `x` is already reachable from `p` or when that
   * chain has a cycle, hence the requirements.
   */
  function Overrides(x: Handler, below: Chain): (c: Chain)
    requires DistinctIds(below)
    requires forall i :: 0 <= i < |below| ==> below[i].id != x.id
    ensures |c| == |below| + 1 && c[0] == x
    ensures forall i :: 0 <= i < |below| ==>
      c[i + 1].first == x.id && c[i + 1].id == below[i].id && c[i + 1].caps == below[i].caps
    ensures DistinctIds(c)
    ensures WellFormed(c) <==> x.first == x.id
  {
    var c := [x] + Repoint(below, x.id);
    OverridesShape(x, below, c);
    c
  }

  lemma OverridesShape(x: Handler, below: Chain, c: Chain)
    requires DistinctIds(below)
    requires forall i :: 0 <= i < |below| ==> below[i].id != x.id
    requires c == [x] + Repoint(below, x.id)
    ensures forall i :: 0 <= i < |below| ==> c[i + 1] == below[i].(first := x.id)
    ensures DistinctIds(c)
    ensures WellFormed(c) <==> x.first == x.id
  {
    OverridesTail(x, below, c);
    forall i, j | 0 <= i < j < |c|
      ensures c[i].id != c[j].id
    {
      assert c[j] == below[j - 1].(first := x.id);
      if i > 0 {
        assert c[i] == below[i - 1].(first := x.id);
      }
    }
    if x.first == x.id {
      forall i | 0 <= i < |c|
        ensures c[i].first == c[0].id
      {
        if i > 0 {
          assert c[i] == below[i - 1].(first := x.id);
        }
      }
    }
  }

  lemma OverridesTail(x: Handler, below: Chain, c: Chain)
    requires c == [x] + Repoint(below, x.id)
    ensures |c| == |below| + 1 && c[0] == x
    ensures forall i :: 0 <= i < |below| ==> c[i + 1] == below[i].(first := x.id)
  {
    var r := Repoint(below, x.id);
    forall i | 0 <= i < |below|
      ensures c[i + 1] == below[i].(first := x.id)
    {
      assert c[i + 1] == r[i];
    }
  }

  /** `find(type, c[start])`: the first handler at or after `start` implementing `cap`. */
  function Find(c: Chain, start: nat, cap: Capability): (r: Lookup)
    decreases |c| - start
    ensures r.Found? ==> start <= r.index < |c| && cap in c[r.index].caps
    ensures r.Found? ==> forall j :: start <= j < r.index ==> cap !in c[j].caps
    ensures r.NotImplemented? <==> forall j :: start <= j < |c| ==> cap !in c[j].caps
    ensures r.NotImplemented? ==> r.cap == cap
  {
    if start >= |c| then NotImplemented(cap)
    else if cap in c[start].caps then Found(start)
    else Find(c, start + 1, cap)
  }

  /** Position of the handler with the given identity, or `|c|` when there is none. */
  function IndexOf(c: Chain, id: string): (k: nat)
    ensures k <= |c|
    ensures k < |c| ==> c[k].id == id
    ensures forall j :: 0 <= j < k ==> c[j].id != id
  {
    if c == [] then 0 else if c[0].id == id then 0 else 1 + IndexOf(c[1..], id)
  }

  /** `c[i].as(cap)`: search from the handler `c[i].first` names. */
  function As(c: Chain, i: nat, cap: Capability): (r: Lookup)
    requires WellFormed(c) && i < |c|
    ensures r == Find(c, 0, cap)
  {
    Find(c, IndexOf(c, c[i].first), cap)
  }

  /** `c[i].parent(cap)`: search from `c[i].next`. */
  function Parent(c: Chain, i: nat, cap: Capability): (r: Lookup)
    requires i < |c|
    ensures r.Found? ==> i < r.index < |c| && cap in c[r.index].caps
    ensures r.Found? ==> forall j :: i < j < r.index ==> cap !in c[j].caps
    ensures r.NotImplemented? <==> forall j :: i < j < |c| ==> cap !in c[j].caps
  {
    Find(c, i + 1, cap)
  }

  function Shift(r: Lookup): Lookup {
    match r
    case Found(k) => Found(k + 1)
    case NotImplemented(cap) => r
  }

  /** Searching a chain with one handler in front equals searching the rest, one position later. */
  lemma {:induction false} FindBeneath(x: Handler, below: Chain, start: nat, cap: Capability)
    requires DistinctIds(below)
    requires forall i :: 0 <= i < |below| ==> below[i].id != x.id
    ensures Find(Overrides(x, below), start + 1, cap) == Shift(Find(below, start, cap))
    decreases |below| - start
  {
    var c := Overrides(x, below);
    if start < |below| && cap !in below[start].caps {
      FindBeneath(x, below, start + 1, cap);
    }
  }

  /**
   * After `x.overrides(p)` the most recently installed implementer wins, whichever
   * node performs the lookup: `x` if it implements the interface, otherwise what
   * the old chain resolved to.
   */
  lemma OverrideWins(x: Handler, below: Chain, i: nat, cap: Capability)
    requires DistinctIds(below)
    requires forall k :: 0 <= k < |below| ==> below[k].id != x.id
    requires x.first == x.id && i <= |below|
    ensures As(Overrides(x, below), i, cap) ==
      (if cap in x.caps then Found(0) else Shift(Find(below, 0, cap)))
  {
    FindBeneath(x, below, 0, cap);
  }

  /** The installed handler delegating with `parent` reaches what the chain beneath it resolves to. */
  lemma ParentReachesOverridden(x: Handler, below: Chain, cap: Capability)
    requires DistinctIds(below)
    requires forall k :: 0 <= k < |below| ==> below[k].id != x.id
    ensures Parent(Overrides(x, below), 0, cap) == Shift(Find(below, 0, cap))
  {
    FindBeneath(x, below, 0, cap);
  }
}
