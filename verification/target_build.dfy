/**
 * mkr.TargetBuild together with the parts of mkr.Build that drive it: the
 * cached target map with its synthesized default target and dependency
 * validation, the recursive dependency walk, the target controller's handling
 * of parameters, and the argument loop and run wrapper of the base controller,
 * with `Runner` and `Parameterized` dispatched through the controller chain.
 *
 * A session is one build object (its cached map and `called` set) together with
 * the process-wide state it shares (the loggers and the controller chain). The
 * target map comes from `MethodTargetBuild.getTargets`, the only implementation
 * of `getTargets` in the framework.
 */
module TargetBuild {
  import opened Wrappers
  import opened Strings
  import opened Targets
  import opened Build
  import L = Logging
  import B = Behavior
  import MT = MethodTargets

  /**
   * The state one build works on. `className` is `getClass().getName()`, which
   * `Class.toString` shows; `canonicalName` is `getClass().getCanonicalName()`,
   * absent for a local or anonymous class. They differ for a nested class
   * (`p.Outer$B` against `p.Outer.B`).
   */
  datatype Session = Session(
    className: string,
    canonicalName: Option<string>,
    targetBuild: bool,
    classes: seq<seq<MT.Method>>,
    loggers: Loggers,
    main: Option<B.Chain>,
    cache: Option<Registry>,
    called: set<string>,
    events: seq<Event>)

  /**
   * The controller chain exists and is the one this build created, and a cached
   * map is well formed.
   */
  predicate Consistent(s: Session) {
    && s.main == Some(CreateController(s.targetBuild))
    && (s.cache.Some? ==> Valid(s.cache.value) && DefaultTarget in s.cache.value.table)
  }

  /** Nothing about the build object's identity or the controller chain changes. */
  predicate SameBuild(s: Session, s': Session) {
    && s'.className == s.className
    && s'.canonicalName == s.canonicalName
    && s'.targetBuild == s.targetBuild
    && s'.classes == s.classes
    && s'.main == s.main
  }

  /** The result of an operation that may throw. */
  datatype Outcome = Outcome(s: Session, thrown: Option<Exception>)

  function LogInfo(s: Session, msg: string): Session {
    s.(loggers := s.loggers.(info := L.Log(s.loggers.info, msg)))
  }

  function LogVerbose(s: Session, msg: string): Session {
    s.(loggers := s.loggers.(verbose := L.Log(s.loggers.verbose, msg)))
  }

  function Emit(s: Session, e: Event): Session {
    s.(events := s.events + [e])
  }

  // ---------------------------------------------------------------- the target map

  /** The target `targets()` synthesizes when none is named `<root>`: no dependencies, lists the targets. */
  function DefaultEntry(): Target {
    Target(DefaultTarget, [], ListTargets)
  }

  /** Adds the synthesized default target unless the map already has one. */
  function WithDefault(reg: Registry): (r: Registry)
    requires Valid(reg)
    ensures Valid(r) && DefaultTarget in r.table
    ensures DefaultTarget in reg.table ==> r == reg
    ensures DefaultTarget !in reg.table ==>
      r.table == reg.table[DefaultTarget := DefaultEntry()] && r.keys == reg.keys + [DefaultTarget]
  {
    if DefaultTarget in reg.table then reg else Put(reg, DefaultEntry()).0
  }

  /** The (target, dependency) pairs whose dependency is not a key, in iteration order. */
  function MissingPairs(table: map<string, Target>, keys: seq<string>): (r: seq<(string, string)>)
    requires forall k :: k in keys ==> k in table
    decreases |keys|
  {
    if keys == [] then []
    else MissingOf(keys[0], table[keys[0]].deps, table) + MissingPairs(table, keys[1..])
  }

  function MissingOf(name: string, deps: seq<string>, table: map<string, Target>): (r: seq<(string, string)>)
    decreases |deps|
  {
    if deps == [] then []
    else (if deps[0] in table then [] else [(name, deps[0])]) + MissingOf(name, deps[1..], table)
  }

  function MissingMessage(p: (string, string)): string {
    "Missing dependency (" + p.1 + ") for target: " + p.0
  }

  function MissingMessages(ps: seq<(string, string)>): (r: seq<string>)
    ensures |r| == |ps|
    decreases |ps|
  {
    if ps == [] then [] else [MissingMessage(ps[0])] + MissingMessages(ps[1..])
  }

  /**
   * `targets()`: the first call asks `getTargets` for the map, caches it (before
   * validation, so a map that fails validation stays cached), adds the default
   * target, logs one error per missing dependency and throws if the error logger
   * has been used. Later calls return the cached map.
   */
  function LoadTargets(s: Session): (r: (Session, Result<Registry, Exception>))
    requires Consistent(s)
    ensures Consistent(r.0) && SameBuild(s, r.0)
    ensures r.0.called == s.called && r.0.events == s.events
    ensures s.cache.Some? ==> r == (s, Success(s.cache.value))
    ensures r.1.Success? ==> r.0.cache == Some(r.1.value) && DefaultTarget in r.1.value.table
    ensures r.0.cache.None? ==> r.1.Failure?
  {
    if s.cache.Some? then (s, Success(s.cache.value))
    else
      var (got, ls) := MT.GetTargets(s.classes, s.loggers);
      if got.Failure? then (s.(loggers := ls), Failure(got.error))
      else
        var reg := WithDefault(got.value);
        var errors := L.LogAll(ls.error, MissingMessages(MissingPairs(reg.table, reg.keys)));
        var s' := s.(loggers := ls.(error := errors), cache := Some(reg));
        if L.Used(errors) then (s', Failure(Exception(RuntimeError, "Missing dependency errors")))
        else (s', Success(reg))
  }

  /** The lines `showTargets` prints after its heading, one per target in iteration order. */
  function TargetLines(vs: seq<Target>): (r: seq<string>)
    ensures |r| == |vs|
    ensures forall i :: 0 <= i < |vs| ==> r[i] == "  " + vs[i].name
  {
    if vs == [] then [] else ["  " + vs[0].name] + TargetLines(vs[1..])
  }

  /** `showTargets()`: a heading, then the name of every target, on the info logger. */
  function ShowTargets(s: Session): (r: Outcome)
    requires Consistent(s)
    ensures Consistent(r.s) && SameBuild(s, r.s)
    ensures r.s.called == s.called && r.s.events == s.events
    ensures s.cache.Some? ==> r.s.cache == s.cache && r.thrown.None?
    ensures r.s.cache.None? ==> r.thrown.Some?
  {
    var (s1, got) := LoadTargets(LogInfo(s, "Available targets:"));
    if got.Failure? then Outcome(s1, Some(got.error))
    else Outcome(s1.(loggers := s1.loggers.(info := L.LogAll(s1.loggers.info, TargetLines(Values(got.value))))), None)
  }

  // ---------------------------------------------------------------- the dependency walk

  /** The keys not yet called: what the walk can still visit. */
  function Remaining(s: Session): set<string> {
    if s.cache.Some? then s.cache.value.table.Keys - s.called else {}
  }

  /** `target.execute()`: the default target lists the targets, a method target runs its method. */
  function Execute(s: Session, t: Target): (r: Outcome)
    requires Consistent(s) && s.cache.Some?
    ensures Consistent(r.s) && SameBuild(s, r.s)
    ensures r.s.called == s.called && r.s.cache == s.cache
    ensures r.s.events == s.events + [Executed(t.name)]
    ensures t.body.ListTargets? ==> r.thrown.None?
    ensures t.body.RunMethod? ==> r.thrown == if t.body.failure.None? then None
      else Some(Exception(RuntimeError, t.body.failure.value))
  {
    var s1 := Emit(s, Executed(t.name));
    match t.body
    case ListTargets => ShowTargets(s1)
    case RunMethod(failure) =>
      Outcome(s1, if failure.None? then None else Some(Exception(RuntimeError, failure.value)))
  }

  /**
   * `buildTarget(n)`: looks `n` up (building the map on first use), marks it
   * called, walks its dependencies in declared order skipping those already
   * called, then executes it between `targetStarting` and `targetFinished`; the
   * latter fires even when the body throws.
   */
  function BuildTarget(s: Session, n: string): (r: Outcome)
    requires Consistent(s)
    ensures Consistent(r.s) && SameBuild(s, r.s)
    ensures s.cache.Some? ==> r.s.cache == s.cache
    ensures r.s.cache.None? ==> r.thrown.Some?
    ensures s.called <= r.s.called
    ensures s.events <= r.s.events
    ensures r.thrown.None? ==> r.s.cache.Some? && n in r.s.called
    decreases if s.cache.None? then 1 else 0, |Remaining(s)|, if n in s.called then 2 else 0, 0
  {
    var l := Lookup(s, n);
    if l.1.Failure? then Outcome(l.0, Some(l.1.error))
    else
      var s2 := l.0.(called := l.0.called + {n});
      RemainingShrinks(l.0, s2, n);
      var w := WalkDeps(s2, l.1.value.deps, 0);
      if w.thrown.Some? then w else Run(w.s, l.1.value)
  }

  /** The start of `buildTarget(n)`: log, fetch the map, look `n` up. */
  function Lookup(s: Session, n: string): (r: (Session, Result<Target, Exception>))
    requires Consistent(s)
    ensures Consistent(r.0) && SameBuild(s, r.0)
    ensures r.0.called == s.called && r.0.events == s.events
    ensures s.cache.Some? ==> r.0.cache == s.cache
    ensures r.0.cache.None? ==> r.1.Failure?
    ensures r.1.Success? ==>
      r.0.cache.Some? && n in r.0.cache.value.table && r.1.value == r.0.cache.value.table[n]
    ensures s.cache.Some? ==> (r.1.Success? <==> n in s.cache.value.table)
    ensures s.cache.Some? && n !in s.cache.value.table ==>
      r.1 == Failure(Exception(MissingTarget, "Target '" + n + "' not found"))
  {
    var (s1, got) := LoadTargets(LogVerbose(s, "Building target: " + n));
    if got.Failure? then (s1, Failure(got.error))
    else if n !in got.value.table then
      (s1, Failure(Exception(MissingTarget, "Target '" + n + "' not found")))
    else (s1, Success(got.value.table[n]))
  }

  /** `targetStarting`, `execute` and, whatever happened, `targetFinished`. */
  function Run(s: Session, t: Target): (r: Outcome)
    requires Consistent(s) && s.cache.Some?
    ensures Consistent(r.s) && SameBuild(s, r.s)
    ensures r.s.cache == s.cache && r.s.called == s.called
    ensures r.s.events == s.events + [TargetStarting(t.name), Executed(t.name), TargetFinished(t.name)]
    ensures r.thrown == Execute(s, t).thrown
  {
    var s1 := LogInfo(Emit(s, TargetStarting(t.name)), "Starting target: " + t.name);
    var x := Execute(s1, t);
    Outcome(Emit(x.s, TargetFinished(t.name)), x.thrown)
  }

  /** The loop of `buildTarget` over the dependencies from index `i` on. */
  function WalkDeps(s: Session, deps: seq<string>, i: nat): (r: Outcome)
    requires Consistent(s) && s.cache.Some? && i <= |deps|
    ensures Consistent(r.s) && SameBuild(s, r.s)
    ensures r.s.cache == s.cache
    ensures s.called <= r.s.called
    ensures s.events <= r.s.events
    ensures r.thrown.None? ==> forall j :: i <= j < |deps| ==> deps[j] in r.s.called
    decreases 0, |Remaining(s)|, 1, |deps| - i
  {
    if i == |deps| then Outcome(s, None)
    else if deps[i] in s.called then WalkDeps(s, deps, i + 1)
    else
      var b := BuildTarget(s, deps[i]);
      if b.thrown.Some? then b
      else
        RemainingNoGrow(s, b.s);
        WalkDeps(b.s, deps, i + 1)
  }

  // ---------------------------------------------------------------- the controllers

  /**
   * `parameters(build, params)` answered by the handler at position `k` of the
   * chain: the target controller lists the targets for `-targets`, builds a
   * target named by a token without a leading dash, and passes any other token
   * to the `Parameterized` handler beneath it; the base controller accepts only
   * `-verbose`. Both answer 0 whenever they return.
   */
  function Parameters(s: Session, k: nat, params: seq<string>): (r: Outcome)
    requires Consistent(s) && k < |s.main.value| && |params| >= 1
    ensures Consistent(r.s) && SameBuild(s, r.s)
    ensures s.cache.Some? ==> r.s.cache == s.cache
    ensures s.called <= r.s.called && s.events <= r.s.events
    decreases |s.main.value| - k
  {
    var c := s.main.value;
    if c[k].id == TargetControllerId then
      if params[0] == "-targets" then ShowTargets(s)
      else if !StartsWith(params[0], "-") then BuildTarget(s, params[0])
      else
        match B.Parent(c, k, B.Parameterized)
        case Found(j) => Parameters(s, j, params)
        case NotImplemented(cap) => Outcome(s, Some(NotImplementedError(cap)))
    else BaseAnswer(s, params)
  }

  /** `Build.Controller.parameters` on the session. */
  function BaseAnswer(s: Session, params: seq<string>): (r: Outcome)
    requires |params| >= 1
    ensures r.s == s || r.s == s.(loggers := r.s.loggers)
    ensures r.thrown.None? <==> BaseParameters(s.loggers, params).Success?
  {
    match BaseParameters(s.loggers, params)
    case Success(ls) => Outcome(s.(loggers := ls), None)
    case Failure(e) => Outcome(s, Some(e))
  }

  /** `as(Parameterized.class).parameters(build, params)`. */
  function Dispatch(s: Session, params: seq<string>): (r: Outcome)
    requires Consistent(s) && |params| >= 1
    ensures Consistent(r.s) && SameBuild(s, r.s)
    ensures s.cache.Some? ==> r.s.cache == s.cache
    ensures s.called <= r.s.called && s.events <= r.s.events
  {
    match B.As(s.main.value, 0, B.Parameterized)
    case Found(k) => Parameters(s, k, params)
    case NotImplemented(cap) => Outcome(s, Some(NotImplementedError(cap)))
  }

  /**
   * The loop of `Build.Controller.invoke` with handlers that always answer 0:
   * every turn hands over the first remaining token (`Take` and `Advance` at
   * `wanted == 1`, see `Build.SingleTokenTurns`), and `buildFinished` fires when
   * the list is used up.
   */
  function Loop(s: Session, params: seq<string>): (r: Outcome)
    requires Consistent(s)
    ensures Consistent(r.s) && SameBuild(s, r.s)
    ensures s.events <= r.s.events
    ensures r.thrown.None? ==> |r.s.events| > 0 && r.s.events[|r.s.events| - 1] == BuildFinished
    decreases |params|
  {
    if params == [] then
      Outcome(Emit(LogInfo(s, "Build complete"), BuildFinished), None)
    else
      var d := Dispatch(LogVerbose(s, "Processing parameters: " + ShowList([params[0]])), [params[0]]);
      if d.thrown.Some? then d else Loop(d.s, params[1..])
  }

  /**
   * `buildStarting(build)`: the event, and the canonical class name on the info
   * logger, where string concatenation turns an absent name into "null".
   */
  function Starting(s: Session): (r: Session)
    requires Consistent(s)
    ensures Consistent(r) && SameBuild(s, r)
    ensures r.cache == s.cache && r.called == s.called
    ensures r.events == s.events + [BuildStarting]
    ensures r.loggers.info.uses == s.loggers.info.uses + 1
    ensures s.loggers.info.enabled ==>
      r.loggers.info.output == s.loggers.info.output + [StartMessage(s.canonicalName)]
    ensures !s.loggers.info.enabled ==> r.loggers.info.output == s.loggers.info.output
    ensures r.loggers.error == s.loggers.error && r.loggers.warn == s.loggers.warn
    ensures r.loggers.verbose == s.loggers.verbose
  {
    Emit(LogInfo(s, StartMessage(s.canonicalName)), BuildStarting)
  }

  /** `Build.Controller.invoke`: `buildStarting`, then the loop. */
  function Invoke(s: Session, args: seq<string>): (r: Outcome)
    requires Consistent(s)
    ensures Consistent(r.s) && SameBuild(s, r.s)
    ensures s.events + [BuildStarting] <= r.s.events
  {
    Loop(Starting(s), args)
  }

  /**
   * `run(build, callback, args)` answered by the handler at position `k`: the
   * target controller replaces an empty argument list by the default target and
   * passes on to the `Runner` beneath it; the base controller invokes the build
   * and logs an exception instead of letting it escape.
   */
  function RunAt(s: Session, k: nat, args: seq<string>): (r: Outcome)
    requires Consistent(s) && k < |s.main.value|
    ensures Consistent(r.s) && SameBuild(s, r.s)
    ensures s.main.value[k].id != TargetControllerId ==> r.thrown.None?
    decreases |s.main.value| - k
  {
    var c := s.main.value;
    if c[k].id == TargetControllerId then
      match B.Parent(c, k, B.Runner)
      case Found(j) => RunAt(s, j, if args == [] then [DefaultTarget] else args)
      case NotImplemented(cap) => Outcome(s, Some(NotImplementedError(cap)))
    else
      var i := Invoke(s, args);
      Outcome(i.s.(loggers := Catch(i.s.loggers, s.className, i.thrown)), None)
  }

  /** A new build object of the given class, sharing the process-wide loggers and chain. */
  function NewBuild(className: string, canonicalName: Option<string>, targetBuild: bool, classes: seq<seq<MT.Method>>,
                    loggers: Loggers, main: Option<B.Chain>): Session
  {
    Session(className, canonicalName, targetBuild, classes, loggers, main, None, {}, [])
  }

  /**
   * `Build.start`: instantiate the build, create the chain if nobody has yet, and
   * hand the arguments to the `Runner` the chain resolves.
   */
  function Start(s: Session, args: seq<string>): (r: Outcome)
    requires s.main.None? || s.main == Some(CreateController(s.targetBuild))
    requires s.cache.None?
    ensures Consistent(r.s) && r.s.main == Some(CreateController(s.targetBuild))
  {
    var s1 := s.(main := Some(CreateController(s.targetBuild)));
    match B.As(s1.main.value, 0, B.Runner)
    case Found(k) => RunAt(s1, k, args)
    case NotImplemented(cap) => Outcome(s1, Some(NotImplementedError(cap)))
  }

  lemma RemainingShrinks(s1: Session, s2: Session, n: string)
    requires s1.cache.Some? && n in s1.cache.value.table
    requires s2 == s1.(called := s1.called + {n})
    ensures n !in s1.called ==> |Remaining(s2)| < |Remaining(s1)|
    ensures n in s1.called ==> Remaining(s2) == Remaining(s1)
  {
    if n !in s1.called {
      assert Remaining(s2) == Remaining(s1) - {n};
    }
  }

  lemma RemainingNoGrow(s1: Session, s2: Session)
    requires s1.cache.Some? && s2.cache == s1.cache && s1.called <= s2.called
    ensures |Remaining(s2)| <= |Remaining(s1)|
  {
    SubsetCard(Remaining(s2), Remaining(s1));
  }

  lemma {:induction false} SubsetCard(a: set<string>, b: set<string>)
    requires a <= b
    ensures |a| <= |b|
    decreases |b|
  {
    if a != {} {
      var x :| x in a;
      SubsetCard(a - {x}, b - {x});
    }
  }
}
