/**
 * Properties of the dependency walk of mkr.TargetBuild: what a call of
 * `buildTarget` executes, in which order, how often, and when it fails.
 */
module TargetWalk {
  import opened Wrappers
  import opened Targets
  import opened Build
  import opened TargetBuild

  /** The target whose body ran, for an `Executed` event. */
  function ExecutedName(e: Event): seq<string> {
    if e.Executed? then [e.name] else []
  }

  /** The targets whose bodies ran, in order. */
  function ExecutedNames(evs: seq<Event>): (r: seq<string>)
    ensures |r| <= |evs|
    decreases |evs|
  {
    if evs == [] then [] else ExecutedName(evs[0]) + ExecutedNames(evs[1..])
  }

  predicate Distinct(xs: seq<string>) {
    forall i, j :: 0 <= i < j < |xs| ==> xs[i] != xs[j]
  }

  /** The events of one executed target: start, body, finish. */
  function Block(n: string): seq<Event> {
    [TargetStarting(n), Executed(n), TargetFinished(n)]
  }

  /** A trace made of whole blocks: every body runs right after its `targetStarting` and before its `targetFinished`. */
  predicate Blocks(evs: seq<Event>)
    decreases |evs|
  {
    evs == [] || (|evs| >= 3 && evs[1].Executed? && evs[..3] == Block(evs[1].name) && Blocks(evs[3..]))
  }

  /**
   * What a call of `buildTarget` (with `own` its target) or of the walk over a
   * dependency list (with `own` None) does to the trace and the called set: it
   * adds whole blocks; no body runs twice; every body that runs is of a target
   * the call newly marked called, or its own target; when the call succeeds
   * (`ok`), every newly called target has run and its own target ran last.
   */
  predicate TraceFacts(before: seq<Event>, after: seq<Event>, calledBefore: set<string>,
                       calledAfter: set<string>, own: Option<string>, ok: bool)
  {
    && before <= after
    && var added := after[|before|..];
    && Blocks(added)
    && Distinct(ExecutedNames(added))
    && (forall x :: x in ExecutedNames(added) ==> x in calledAfter && (x !in calledBefore || own == Some(x)))
    && (ok ==> forall x :: x in calledAfter - calledBefore ==> x in ExecutedNames(added))
    && (ok && own.Some? ==> |added| >= 3 && added[|added| - 3..] == Block(own.value))
  }

  // ---------------------------------------------------------------- trace algebra

  lemma {:induction false} ExecutedNamesAppend(a: seq<Event>, b: seq<Event>)
    ensures ExecutedNames(a + b) == ExecutedNames(a) + ExecutedNames(b)
    decreases |a|
  {
    if a == [] {
      assert a + b == b;
    } else {
      ExecutedNamesAppend(a[1..], b);
      assert (a + b)[0] == a[0];
      assert (a + b)[1..] == a[1..] + b;
      assert ExecutedNames(a + b) == ExecutedName(a[0]) + ExecutedNames(a[1..] + b);
      assert ExecutedNames(a) == ExecutedName(a[0]) + ExecutedNames(a[1..]);
      NamesAssoc(ExecutedName(a[0]), ExecutedNames(a[1..]), ExecutedNames(b));
    }
  }

  lemma NamesAssoc(x: seq<string>, y: seq<string>, z: seq<string>)
    ensures x + (y + z) == x + y + z
  {
  }

  lemma ExecutedNamesBlock(n: string)
    ensures ExecutedNames(Block(n)) == [n]
  {
    var b := Block(n);
    assert b[1..][1..][1..] == [];
    assert ExecutedNames(b[1..][1..]) == [];
    assert ExecutedNames(b[1..]) == [n];
  }

  lemma {:induction false} BlocksAppend(a: seq<Event>, b: seq<Event>)
    requires Blocks(a) && Blocks(b)
    ensures Blocks(a + b)
    decreases |a|
  {
    if a == [] {
      assert a + b == b;
    } else {
      BlocksAppend(a[3..], b);
      assert (a + b)[..3] == a[..3];
      assert (a + b)[1] == a[1];
      assert (a + b)[3..] == a[3..] + b;
    }
  }

  lemma BlocksBlock(n: string)
    ensures Blocks(Block(n))
  {
    assert Block(n)[3..] == [];
  }

  lemma DistinctAppend(a: seq<string>, b: seq<string>)
    requires Distinct(a) && Distinct(b)
    requires forall x :: x in a ==> x !in b
    ensures Distinct(a + b)
  {
    forall i, j | 0 <= i < j < |a + b|
      ensures (a + b)[i] != (a + b)[j]
    {
      if j < |a| {
      } else if i >= |a| {
        assert (a + b)[i] == b[i - |a|] && (a + b)[j] == b[j - |a|];
      } else {
        assert (a + b)[i] == a[i] && (a + b)[j] == b[j - |a|];
        assert a[i] in a && b[j - |a|] in b;
      }
    }
  }

  // ---------------------------------------------------------------- composing trace facts

  /** A call that changes neither the trace nor the called set, and fails if it has a target of its own. */
  lemma TraceNothing(e: seq<Event>, c: set<string>, own: Option<string>, ok: bool)
    requires ok ==> own.None?
    ensures TraceFacts(e, e, c, c, own, ok)
  {
    assert e[|e|..] == [];
  }

  /** A failed walk of `n`'s dependencies is a failed call of `buildTarget(n)`. */
  lemma TraceWalkFailed(e0: seq<Event>, e1: seq<Event>, c0: set<string>, c1: set<string>, n: string)
    requires TraceFacts(e0, e1, c0 + {n}, c1, None, false)
    ensures TraceFacts(e0, e1, c0, c1, Some(n), false)
  {
  }

  /** A successful walk of `n`'s dependencies followed by `n`'s own block. */
  lemma TraceWalkThenRun(e0: seq<Event>, e1: seq<Event>, c0: set<string>, c1: set<string>, n: string, ok: bool)
    requires TraceFacts(e0, e1, c0 + {n}, c1, None, true)
    requires n in c1
    ensures TraceFacts(e0, e1 + Block(n), c0, c1, Some(n), ok)
  {
    var walked := e1[|e0|..];
    assert (e1 + Block(n))[|e0|..] == walked + Block(n);
    ExecutedNamesAppend(walked, Block(n));
    ExecutedNamesBlock(n);
    BlocksBlock(n);
    BlocksAppend(walked, Block(n));
    DistinctAppend(ExecutedNames(walked), [n]);
  }

  /** `buildTarget(d)` for a dependency `d` not yet called, followed by the rest of the walk. */
  lemma TraceSequence(e0: seq<Event>, e1: seq<Event>, e2: seq<Event>, c0: set<string>, c1: set<string>,
                      c2: set<string>, d: string, ok: bool)
    requires d !in c0
    requires TraceFacts(e0, e1, c0, c1, Some(d), true)
    requires TraceFacts(e1, e2, c1, c2, None, ok)
    requires c0 <= c1 <= c2
    ensures TraceFacts(e0, e2, c0, c2, None, ok)
  {
    var a1 := e1[|e0|..];
    var a2 := e2[|e1|..];
    assert e2[|e0|..] == a1 + a2;
    ExecutedNamesAppend(a1, a2);
    BlocksAppend(a1, a2);
    DistinctAppend(ExecutedNames(a1), ExecutedNames(a2));
  }

  /** A failed `buildTarget(d)` for a dependency `d` not yet called ends the walk. */
  lemma TraceDepFailed(e0: seq<Event>, e1: seq<Event>, c0: set<string>, c1: set<string>, d: string)
    requires d !in c0
    requires TraceFacts(e0, e1, c0, c1, Some(d), false)
    ensures TraceFacts(e0, e1, c0, c1, None, false)
  {
  }

  // ---------------------------------------------------------------- what one walk executes

  /** Every call of `buildTarget` satisfies `TraceFacts` with its own target. */
  lemma {:induction false} BuildTargetTrace(s: Session, n: string)
    requires Consistent(s)
    ensures TraceFacts(s.events, BuildTarget(s, n).s.events, s.called, BuildTarget(s, n).s.called,
                       Some(n), BuildTarget(s, n).thrown.None?)
    decreases if s.cache.None? then 1 else 0, |Remaining(s)|, if n in s.called then 2 else 0, 0
  {
    var r := BuildTarget(s, n);
    var (s1, got) := Lookup(s, n);
    if got.Failure? {
      TraceNothing(s.events, s.called, Some(n), false);
    } else {
      var t := got.value;
      var s2 := s1.(called := s1.called + {n});
      RemainingShrinks(s1, s2, n);
      var w := WalkDeps(s2, t.deps, 0);
      WalkDepsTrace(s2, t.deps, 0);
      if w.thrown.None? {
        assert t.name == n;
        TraceWalkThenRun(s.events, w.s.events, s.called, w.s.called, n, r.thrown.None?);
      } else {
        TraceWalkFailed(s.events, w.s.events, s.called, w.s.called, n);
      }
    }
  }

  /** Every walk over a dependency list satisfies `TraceFacts` without a target of its own. */
  lemma {:induction false} WalkDepsTrace(s: Session, deps: seq<string>, i: nat)
    requires Consistent(s) && s.cache.Some? && i <= |deps|
    ensures TraceFacts(s.events, WalkDeps(s, deps, i).s.events, s.called, WalkDeps(s, deps, i).s.called,
                       None, WalkDeps(s, deps, i).thrown.None?)
    decreases 0, |Remaining(s)|, 1, |deps| - i
  {
    var r := WalkDeps(s, deps, i);
    if i == |deps| {
      TraceNothing(s.events, s.called, None, true);
    } else if deps[i] in s.called {
      WalkDepsTrace(s, deps, i + 1);
    } else {
      var b := BuildTarget(s, deps[i]);
      BuildTargetTrace(s, deps[i]);
      if b.thrown.None? {
        RemainingNoGrow(s, b.s);
        WalkDepsTrace(b.s, deps, i + 1);
        TraceSequence(s.events, b.s.events, r.s.events, s.called, b.s.called, r.s.called, deps[i], r.thrown.None?);
      } else {
        TraceDepFailed(s.events, b.s.events, s.called, b.s.called, deps[i]);
      }
    }
  }

  // ---------------------------------------------------------------- consequences for one call

  /**
   * `buildTarget(n)` for a name the map lacks throws MissingTargetException and
   * runs nothing, whether the map was cached before or this call loads it; the
   * loaded map stays cached.
   */
  lemma MissingTargetFails(s: Session, n: string)
    requires Consistent(s)
    requires var l := LoadTargets(LogVerbose(s, "Building target: " + n));
      l.1.Success? && n !in l.1.value.table
    ensures BuildTarget(s, n).thrown == Some(Exception(MissingTarget, "Target '" + n + "' not found"))
    ensures BuildTarget(s, n).s.events == s.events && BuildTarget(s, n).s.called == s.called
    ensures BuildTarget(s, n).s.cache == Some(LoadTargets(LogVerbose(s, "Building target: " + n)).1.value)
  {
  }

  /** With the map cached, every name it lacks is a missing target. */
  lemma MissingCachedTarget(s: Session, n: string)
    requires Consistent(s) && s.cache.Some? && n !in s.cache.value.table
    ensures BuildTarget(s, n).thrown == Some(Exception(MissingTarget, "Target '" + n + "' not found"))
    ensures BuildTarget(s, n).s.events == s.events && BuildTarget(s, n).s.called == s.called
  {
    MissingTargetFails(s, n);
  }

  /**
   * `buildTarget(n)` for a name in the map: `n` is marked called before the walk
   * over its declared dependencies starts, and when the walk succeeds `n` runs
   * last, with the outcome of its own body.
   */
  lemma BuildThroughWalk(s: Session, n: string)
    requires Consistent(s) && s.cache.Some? && n in s.cache.value.table
    ensures var t := s.cache.value.table[n];
      var s2 := LogVerbose(s, "Building target: " + n).(called := s.called + {n});
      var w := WalkDeps(s2, t.deps, 0);
      var r := BuildTarget(s, n);
      && (w.thrown.Some? ==> r == w)
      && (w.thrown.None? ==>
            && r.s.events == w.s.events + Block(n)
            && r.s.called == w.s.called
            && (r.thrown.None? <==> !(t.body.RunMethod? && t.body.failure.Some?)))
  {
    var t := s.cache.value.table[n];
    var s2 := LogVerbose(s, "Building target: " + n).(called := s.called + {n});
    assert Lookup(s, n) == (LogVerbose(s, "Building target: " + n), Success(t));
    assert t.name == n;
  }

  /**
   * A walk over dependencies that are all called already does nothing: a
   * dependency on a target whose build is still in progress, as in a cycle, is
   * treated as satisfied.
   */
  lemma {:induction false} WalkAllCalled(s: Session, deps: seq<string>, i: nat)
    requires Consistent(s) && s.cache.Some? && i <= |deps|
    requires forall j :: i <= j < |deps| ==> deps[j] in s.called
    ensures WalkDeps(s, deps, i) == Outcome(s, None)
    decreases |deps| - i
  {
    if i < |deps| {
      WalkAllCalled(s, deps, i + 1);
    }
  }

  /**
   * A target whose dependencies are all called already (or are the target
   * itself) runs exactly its own block. Nothing checks `n` itself against the
   * called set, so naming a target that already ran runs it again.
   */
  lemma RunsAlone(s: Session, n: string)
    requires Consistent(s) && s.cache.Some? && n in s.cache.value.table
    requires forall d :: d in s.cache.value.table[n].deps ==> d in s.called || d == n
    ensures BuildTarget(s, n).s.events == s.events + Block(n)
    ensures BuildTarget(s, n).s.called == s.called + {n}
    ensures BuildTarget(s, n).thrown.None? <==>
      !(s.cache.value.table[n].body.RunMethod? && s.cache.value.table[n].body.failure.Some?)
  {
    var t := s.cache.value.table[n];
    var s2 := LogVerbose(s, "Building target: " + n).(called := s.called + {n});
    WalkAllCalled(s2, t.deps, 0);
    BuildThroughWalk(s, n);
  }

  /**
   * On success every declared dependency of `n` that was not called before and
   * is not `n` itself ran in this call, before `n`'s own block.
   */
  lemma DependenciesRunFirst(s: Session, n: string)
    requires Consistent(s) && s.cache.Some? && n in s.cache.value.table
    ensures var r := BuildTarget(s, n);
      r.thrown.None? ==>
        && |s.events| + 3 <= |r.s.events|
        && forall d :: d in s.cache.value.table[n].deps && d !in s.called && d != n ==>
             d in ExecutedNames(r.s.events[|s.events|..|r.s.events| - 3])
  {
    var t := s.cache.value.table[n];
    var s2 := LogVerbose(s, "Building target: " + n).(called := s.called + {n});
    var w := WalkDeps(s2, t.deps, 0);
    BuildThroughWalk(s, n);
    if w.thrown.None? {
      WalkDepsTrace(s2, t.deps, 0);
      NewDepsExecuted(s.events, w.s.events, s.called, w.s.called, n, t.deps);
      DropBlock(w.s.events, n, |s.events|);
    }
  }

  lemma NewDepsExecuted(e0: seq<Event>, e1: seq<Event>, c0: set<string>, c1: set<string>, n: string, deps: seq<string>)
    requires TraceFacts(e0, e1, c0 + {n}, c1, None, true)
    requires forall j :: 0 <= j < |deps| ==> deps[j] in c1
    ensures forall d :: d in deps && d !in c0 && d != n ==> d in ExecutedNames(e1[|e0|..])
  {
    forall d | d in deps && d !in c0 && d != n
      ensures d in ExecutedNames(e1[|e0|..])
    {
      var j :| 0 <= j < |deps| && deps[j] == d;
      assert d in c1 - (c0 + {n});
    }
  }

  lemma DropBlock(x: seq<Event>, n: string, k: nat)
    requires k <= |x|
    ensures (x + Block(n))[k..|x + Block(n)| - 3] == x[k..]
  {
  }

  // ---------------------------------------------------------------- maps whose walks succeed

  /** Every declared dependency is a key and no target method throws. */
  predicate Sound(reg: Registry) {
    && Closed(reg)
    && forall k :: k in reg.table ==> !(reg.table[k].body.RunMethod? && reg.table[k].body.failure.Some?)
  }

  /** With a sound map every `buildTarget` of a key succeeds, whatever cycles the dependencies form. */
  lemma {:induction false} SoundBuildSucceeds(s: Session, n: string)
    requires Consistent(s) && s.cache.Some? && Sound(s.cache.value) && n in s.cache.value.table
    ensures BuildTarget(s, n).thrown.None?
    decreases |Remaining(s)|, if n in s.called then 2 else 0, 0
  {
    var t := s.cache.value.table[n];
    var s1 := LogVerbose(s, "Building target: " + n);
    var s2 := s1.(called := s.called + {n});
    RemainingShrinks(s1, s2, n);
    SoundWalkSucceeds(s2, t.deps, 0);
    BuildThroughWalk(s, n);
  }

  lemma {:induction false} SoundWalkSucceeds(s: Session, deps: seq<string>, i: nat)
    requires Consistent(s) && s.cache.Some? && Sound(s.cache.value) && i <= |deps|
    requires forall j :: i <= j < |deps| ==> deps[j] in s.cache.value.table
    ensures WalkDeps(s, deps, i).thrown.None?
    decreases |Remaining(s)|, 1, |deps| - i
  {
    if i < |deps| {
      if deps[i] in s.called {
        SoundWalkSucceeds(s, deps, i + 1);
      } else {
        SoundBuildSucceeds(s, deps[i]);
        var b := BuildTarget(s, deps[i]);
        RemainingNoGrow(s, b.s);
        SoundWalkSucceeds(b.s, deps, i + 1);
      }
    }
  }

  // ---------------------------------------------------------------- two small maps

  function RunTarget(n: string, deps: seq<string>): Target {
    Target(n, deps, RunMethod(None))
  }

  /** The map holds `{a: [b, c], b: [c], c: []}`, three distinct names of target methods that complete. */
  predicate IsDiamond(reg: Registry, a: string, b: string, c: string) {
    && a != b && b != c && a != c
    && a in reg.table && b in reg.table && c in reg.table
    && reg.table[a] == RunTarget(a, [b, c])
    && reg.table[b] == RunTarget(b, [c])
    && reg.table[c] == RunTarget(c, [])
  }

  /** Building `b` once `a` is in progress: `c`, then `b`. */
  lemma DiamondB(s: Session, a: string, b: string, c: string)
    requires Consistent(s) && s.cache.Some? && IsDiamond(s.cache.value, a, b, c)
    requires s.called == {a}
    ensures BuildTarget(s, b).thrown.None?
    ensures BuildTarget(s, b).s.events == s.events + Block(c) + Block(b)
    ensures BuildTarget(s, b).s.called == {a, b, c}
  {
    var sB := LogVerbose(s, "Building target: " + b).(called := s.called + {b});
    BuildThroughWalk(s, b);
    RunsAlone(sB, c);
    var bC := BuildTarget(sB, c);
    WalkOne(sB, [c], 0);
    WalkEnd(bC.s, [c]);
  }

  /** Building `a` runs `c`, then `b`, then `a`; `c` runs once although both `a` and `b` depend on it. */
  lemma DiamondOrder(s: Session, a: string, b: string, c: string)
    requires Consistent(s) && s.cache.Some? && IsDiamond(s.cache.value, a, b, c)
    requires s.called == {}
    ensures BuildTarget(s, a).thrown.None?
    ensures BuildTarget(s, a).s.events == s.events + Block(c) + Block(b) + Block(a)
    ensures ExecutedNames(BuildTarget(s, a).s.events[|s.events|..]) == [c, b, a]
  {
    var sA := LogVerbose(s, "Building target: " + a).(called := s.called + {a});
    BuildThroughWalk(s, a);
    DiamondB(sA, a, b, c);
    var bB := BuildTarget(sA, b);
    WalkOne(sA, [b, c], 0);
    WalkSkip(bB.s, [b, c], 1);
    WalkEnd(bB.s, [b, c]);
    TraceNames3(s.events, c, b, a);
  }

  /** The map holds `{a: [b, c], b: [], c: []}`, three distinct names of target methods that complete. */
  predicate IsFork(reg: Registry, a: string, b: string, c: string) {
    && a != b && b != c && a != c
    && a in reg.table && b in reg.table && c in reg.table
    && reg.table[a] == RunTarget(a, [b, c])
    && reg.table[b] == RunTarget(b, [])
    && reg.table[c] == RunTarget(c, [])
  }

  /**
   * Dependencies are walked in declared order: building `a` with `[b, c]` runs
   * `b`, then `c`, then `a`.
   */
  lemma ForkOrder(s: Session, a: string, b: string, c: string)
    requires Consistent(s) && s.cache.Some? && IsFork(s.cache.value, a, b, c)
    requires s.called == {}
    ensures BuildTarget(s, a).thrown.None?
    ensures BuildTarget(s, a).s.events == s.events + Block(b) + Block(c) + Block(a)
    ensures ExecutedNames(BuildTarget(s, a).s.events[|s.events|..]) == [b, c, a]
  {
    var sA := LogVerbose(s, "Building target: " + a).(called := s.called + {a});
    BuildThroughWalk(s, a);
    ForkWalk(sA, a, b, c);
    TraceNames3(s.events, b, c, a);
  }

  /** The walk over `[b, c]` once `a` is in progress: `b`, then `c`. */
  lemma ForkWalk(s: Session, a: string, b: string, c: string)
    requires Consistent(s) && s.cache.Some? && IsFork(s.cache.value, a, b, c)
    requires s.called == {a}
    ensures WalkDeps(s, [b, c], 0).thrown.None?
    ensures WalkDeps(s, [b, c], 0).s.events == s.events + Block(b) + Block(c)
  {
    RunsAlone(s, b);
    var bB := BuildTarget(s, b);
    WalkOne(s, [b, c], 0);
    RunsAlone(bB.s, c);
    var bC := BuildTarget(bB.s, c);
    WalkOne(bB.s, [b, c], 1);
    WalkEnd(bC.s, [b, c]);
  }

  /** The walk steps past a dependency it builds successfully. */
  lemma WalkOne(s: Session, deps: seq<string>, i: nat)
    requires Consistent(s) && s.cache.Some? && i < |deps| && deps[i] !in s.called
    requires BuildTarget(s, deps[i]).thrown.None?
    ensures WalkDeps(s, deps, i) == WalkDeps(BuildTarget(s, deps[i]).s, deps, i + 1)
  {
  }

  /** The walk steps past a dependency already called. */
  lemma WalkSkip(s: Session, deps: seq<string>, i: nat)
    requires Consistent(s) && s.cache.Some? && i < |deps| && deps[i] in s.called
    ensures WalkDeps(s, deps, i) == WalkDeps(s, deps, i + 1)
  {
  }

  lemma WalkEnd(s: Session, deps: seq<string>)
    requires Consistent(s) && s.cache.Some?
    ensures WalkDeps(s, deps, |deps|) == Outcome(s, None)
  {
  }

  /** The map holds `{a: [b], b: [a]}`, two distinct names of target methods that complete. */
  predicate IsCycle(reg: Registry, a: string, b: string) {
    && a != b && a in reg.table && b in reg.table
    && reg.table[a] == RunTarget(a, [b])
    && reg.table[b] == RunTarget(b, [a])
  }

  /** A cycle is silently satisfied: building `a` runs `b` (whose dependency `a` is in progress), then `a`. */
  lemma CycleOrder(s: Session, a: string, b: string)
    requires Consistent(s) && s.cache.Some? && IsCycle(s.cache.value, a, b)
    requires s.called == {}
    ensures BuildTarget(s, a).thrown.None?
    ensures BuildTarget(s, a).s.events == s.events + Block(b) + Block(a)
  {
    BuildThroughWalk(s, a);
    CycleInner(LogVerbose(s, "Building target: " + a).(called := s.called + {a}), a, b);
  }

  lemma CycleInner(s: Session, a: string, b: string)
    requires Consistent(s) && s.cache.Some? && IsCycle(s.cache.value, a, b)
    requires s.called == {a}
    ensures WalkDeps(s, [b], 0).thrown.None?
    ensures WalkDeps(s, [b], 0).s.events == s.events + Block(b)
  {
    RunsAlone(s, b);
    WalkOne(s, [b], 0);
    WalkEnd(BuildTarget(s, b).s, [b]);
  }

  /** The diamond and the cycle as concrete maps with the default target. */
  function Diamond(): (r: Registry)
    ensures Valid(r) && DefaultTarget in r.table && IsDiamond(r, "A", "B", "C")
  {
    Registry(["A", "B", "C", DefaultTarget],
      map["A" := RunTarget("A", ["B", "C"]), "B" := RunTarget("B", ["C"]), "C" := RunTarget("C", []),
          DefaultTarget := Target(DefaultTarget, [], ListTargets)])
  }

  function Cycle(): (r: Registry)
    ensures Valid(r) && DefaultTarget in r.table && IsCycle(r, "A", "B")
  {
    Registry(["A", "B", DefaultTarget],
      map["A" := RunTarget("A", ["B"]), "B" := RunTarget("B", ["A"]),
          DefaultTarget := Target(DefaultTarget, [], ListTargets)])
  }

  function Fork(): (r: Registry)
    ensures Valid(r) && DefaultTarget in r.table && IsFork(r, "A", "B", "C")
  {
    Registry(["A", "B", "C", DefaultTarget],
      map["A" := RunTarget("A", ["B", "C"]), "B" := RunTarget("B", []), "C" := RunTarget("C", []),
          DefaultTarget := Target(DefaultTarget, [], ListTargets)])
  }

  /** With the map `{A: [B, C], B: [], C: []}`, building A from scratch executes B, C, A. */
  lemma ForkExample(s: Session)
    requires Consistent(s) && s.cache == Some(Fork()) && s.called == {}
    ensures BuildTarget(s, "A").thrown.None?
    ensures ExecutedNames(BuildTarget(s, "A").s.events[|s.events|..]) == ["B", "C", "A"]
  {
    ForkOrder(s, "A", "B", "C");
  }

  /** With the map `{A: [B, C], B: [C], C: []}`, building A from scratch executes C, B, A. */
  lemma DiamondExample(s: Session)
    requires Consistent(s) && s.cache == Some(Diamond()) && s.called == {}
    ensures BuildTarget(s, "A").thrown.None?
    ensures ExecutedNames(BuildTarget(s, "A").s.events[|s.events|..]) == ["C", "B", "A"]
  {
    DiamondOrder(s, "A", "B", "C");
  }

  /** With the map `{A: [B], B: [A]}`, building A from scratch executes B, then A, and succeeds. */
  lemma CycleExample(s: Session)
    requires Consistent(s) && s.cache == Some(Cycle()) && s.called == {}
    ensures BuildTarget(s, "A").thrown.None?
    ensures BuildTarget(s, "A").s.events == s.events + Block("B") + Block("A")
  {
    CycleOrder(s, "A", "B");
  }

  lemma TraceNames3(e: seq<Event>, a: string, b: string, c: string)
    ensures (e + Block(a) + Block(b) + Block(c))[|e|..] == Block(a) + Block(b) + Block(c)
    ensures ExecutedNames(Block(a) + Block(b) + Block(c)) == [a, b, c]
  {
    ExecutedNamesBlock(a);
    ExecutedNamesBlock(b);
    ExecutedNamesBlock(c);
    ExecutedNamesAppend(Block(a), Block(b));
    ExecutedNamesAppend(Block(a) + Block(b), Block(c));
  }
}
