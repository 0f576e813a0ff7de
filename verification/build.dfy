/**
 * mkr.Build: the process-wide loggers, the base controller (argument loop,
 * `-verbose`, the catch-and-log run wrapper) and the lazily created controller
 * chain that `using` resolves interfaces from.
 *
 * The static fields of the Java class (`mainController` and the four loggers)
 * are explicit state here, threaded through the functions that use them.
 */
module Build {
  import opened Wrappers
  import opened Strings
  import opened Logging
  import B = Behavior

  // ---------------------------------------------------------------- loggers

  /** The four loggers the base controller hands out through the `Loggers` interface. */
  datatype Loggers = Loggers(error: Logger, warn: Logger, info: Logger, verbose: Logger)

  predicate ValidLoggers(ls: Loggers) {
    Valid(ls.error) && Valid(ls.warn) && Valid(ls.info) && Valid(ls.verbose)
  }

  /** The loggers as the class initialiser leaves them. */
  function InitialLoggers(): (ls: Loggers)
    ensures ls.error.enabled && ls.warn.enabled && ls.info.enabled
    ensures !ls.verbose.enabled
    ensures !Used(ls.error) && !Used(ls.warn) && !Used(ls.info) && !Used(ls.verbose)
    ensures ls.error.output == ls.warn.output == ls.info.output == ls.verbose.output == []
    ensures ValidLoggers(ls)
  {
    Loggers(New(), New(), New(), SetEnabled(New(), false))
  }

  // ---------------------------------------------------------------- exceptions and events

  datatype ExceptionKind = RuntimeError | MissingTarget | IllegalArgument | ClassCast

  /** A thrown exception, with what `getMessage()` would return. */
  datatype Exception = Exception(kind: ExceptionKind, message: string)

  /** The callbacks of `BuildEvents` and `TargetEvents`, plus the execution of a target body. */
  datatype Event =
    | BuildStarting
    | BuildFinished
    | TargetStarting(name: string)
    | Executed(name: string)
    | TargetFinished(name: string)

  // ---------------------------------------------------------------- the controller chain

  /** `type.getCanonicalName()` of each controller interface. */
  function CanonicalName(cap: B.Capability): string {
    match cap
    case Runner => "mkr.build.controller.Runner"
    case RunnerCallback => "mkr.build.controller.Runner.Callback"
    case BuildEvents => "mkr.build.controller.BuildEvents"
    case Parameterized => "mkr.build.controller.Parameterized"
    case Loggers => "mkr.build.controller.Loggers"
    case TargetEvents => "mkr.build.controller.TargetEvents"
    case BuildController => "mkr.Build.Controller"
  }

  /** The ClassCastException a lookup throws when no handler on its path implements `cap`. */
  function NotImplementedError(cap: B.Capability): Exception {
    Exception(ClassCast, "Behavior not implemented: " + CanonicalName(cap))
  }

  const BaseControllerId: string := "mkr.Build$Controller"
  const TargetControllerId: string := "mkr.TargetBuild$Controller"

  /** The interfaces `Build.Controller` implements, and the class itself. */
  const BaseCaps: set<B.Capability> :=
    {B.Runner, B.RunnerCallback, B.BuildEvents, B.Parameterized, B.Loggers, B.BuildController}

  /** The interfaces `TargetBuild.Controller` implements. */
  const TargetCaps: set<B.Capability> := {B.Runner, B.Parameterized, B.TargetEvents}

  /**
   * `createController()`: a fresh `Build.Controller` for a plain build; for a target
   * build a fresh `TargetBuild.Controller` installed over one.
   */
  function CreateController(targetBuild: bool): (c: B.Chain)
    ensures B.WellFormed(c)
    ensures c[|c| - 1].id == BaseControllerId && c[|c| - 1].caps == BaseCaps
    ensures targetBuild ==> |c| == 2 && c[0].id == TargetControllerId && c[0].caps == TargetCaps
    ensures !targetBuild ==> |c| == 1
  {
    var base := B.Fresh(BaseControllerId, BaseCaps);
    if targetBuild then B.Overrides(B.Fresh(TargetControllerId, TargetCaps)[0], base) else base
  }

  /**
   * Where an interface resolves in a created chain: a target build answers
   * `Runner`, `Parameterized` and `TargetEvents` from its own controller at the
   * head and the base controller's interfaces from the base controller beneath
   * it; a plain build answers only the base controller's interfaces, so that
   * asking it for `TargetEvents` is a ClassCastException.
   */
  function Resolved(targetBuild: bool, cap: B.Capability): B.Lookup {
    if targetBuild && cap in TargetCaps then B.Found(0)
    else if cap in BaseCaps then B.Found(if targetBuild then 1 else 0)
    else B.NotImplemented(cap)
  }

  /**
   * Every handler of a created chain resolves an interface to the same place, and
   * the target controller's `parent` reaches the base controller for every
   * interface the base controller implements.
   */
  lemma Resolution(targetBuild: bool, i: nat, cap: B.Capability)
    requires i < |CreateController(targetBuild)|
    ensures B.As(CreateController(targetBuild), i, cap) == Resolved(targetBuild, cap)
    ensures targetBuild ==>
      B.Parent(CreateController(targetBuild), 0, cap) ==
        (if cap in BaseCaps then B.Found(1) else B.NotImplemented(cap))
  {
    var base := B.Fresh(BaseControllerId, BaseCaps);
    assert B.Find(base, 1, cap) == B.NotImplemented(cap);
    assert B.Find(base, 0, cap) == if cap in BaseCaps then B.Found(0) else B.NotImplemented(cap);
    if targetBuild {
      var x := B.Fresh(TargetControllerId, TargetCaps)[0];
      B.OverrideWins(x, base, i, cap);
      B.ParentReachesOverridden(x, base, cap);
    }
  }

  /**
   * `using(type)`: creates the process-wide chain on first use, with the
   * `createController` of whichever build asks first, then resolves `type` from its head.
   */
  function Using(main: Option<B.Chain>, targetBuild: bool, cap: B.Capability): (r: (Option<B.Chain>, B.Lookup))
    requires main.Some? ==> B.WellFormed(main.value)
    ensures r.0.Some? && B.WellFormed(r.0.value)
    ensures main.Some? ==> r.0 == main
    ensures main.None? ==> r.0 == Some(CreateController(targetBuild))
    ensures r.1 == B.Find(r.0.value, 0, cap)
  {
    var c := if main.Some? then main.value else CreateController(targetBuild);
    (Some(c), B.As(c, 0, cap))
  }

  /** The controller is created at most once: a later request, from any build, sees the same chain. */
  lemma UsingCreatesOnce(main: Option<B.Chain>, tb1: bool, tb2: bool, c1: B.Capability, c2: B.Capability)
    requires main.Some? ==> B.WellFormed(main.value)
    ensures Using(Using(main, tb1, c1).0, tb2, c2).0 == Using(main, tb1, c1).0
    ensures Using(Using(main, tb1, c1).0, tb2, c2).1 == B.Find(Using(main, tb1, c1).0.value, 0, c2)
  {
  }

  // ---------------------------------------------------------------- the base controller

  /**
   * `Build.Controller.parameters`: `-verbose` switches the verbose logger on and
   * logs through it; any other first token is an unknown parameter.
   */
  function BaseParameters(ls: Loggers, params: seq<string>): (r: Result<Loggers, Exception>)
    requires |params| >= 1
    ensures r.Success? <==> params[0] == "-verbose"
    ensures r.Success? ==>
      && r.value.verbose.enabled
      && r.value.verbose.output == ls.verbose.output + ["Verbose enabled"]
      && r.value.verbose.uses == ls.verbose.uses + 1
      && r.value.error == ls.error && r.value.warn == ls.warn && r.value.info == ls.info
    ensures r.Failure? ==> r.error == Exception(IllegalArgument, "Unknown parameter: " + params[0])
  {
    if params[0] == "-verbose" then
      Success(ls.(verbose := Log(SetEnabled(ls.verbose, true), "Verbose enabled")))
    else
      Failure(Exception(IllegalArgument, "Unknown parameter: " + params[0]))
  }

  /** The message `buildStarting` logs: the canonical name, or "null" when the class has none. */
  function StartMessage(canonicalName: Option<string>): (m: string)
    ensures canonicalName.Some? ==> m == "Build class: " + canonicalName.value
    ensures canonicalName.None? ==> m == "Build class: null"
  {
    "Build class: " + (if canonicalName.Some? then canonicalName.value else "null")
  }

  /**
   * The message `Build.Controller.run` logs for an exception escaping the build:
   * `Class.toString` shows the binary name `className`.
   */
  function FailureMessage(className: string, e: Exception): string {
    "Build failed: class " + className + ": " + e.message
  }

  /**
   * The catch clause of `Build.Controller.run`: an exception is logged once on the
   * error logger and goes no further; a normal completion leaves the loggers alone.
   */
  function Catch(ls: Loggers, className: string, thrown: Option<Exception>): (r: Loggers)
    ensures thrown.None? ==> r == ls
    ensures thrown.Some? ==> r.error.uses == ls.error.uses + 1
    ensures thrown.Some? && ls.error.enabled ==>
      r.error.output == ls.error.output + [FailureMessage(className, thrown.value)]
    ensures r.warn == ls.warn && r.info == ls.info && r.verbose == ls.verbose
    ensures ValidLoggers(ls) ==> ValidLoggers(r)
  {
    if thrown.None? then ls else ls.(error := Log(ls.error, FailureMessage(className, thrown.value)))
  }

  // ---------------------------------------------------------------- the parameter loop

  /** The loop state of `Build.Controller.invoke`: the remaining tokens and the handler's last request. */
  datatype Cursor = Cursor(params: seq<string>, wanted: int)

  /**
   * One turn of the loop before the handler is called: the first `wanted` tokens,
   * or the exception when too few remain (or when a handler asked for a negative
   * count, which `subList` refuses).
   */
  function Take(c: Cursor): (r: Result<seq<string>, Exception>)
    requires c.params != [] && c.wanted != 0
    ensures r.Success? <==> 1 <= c.wanted <= |c.params|
    ensures r.Success? ==> |r.value| == c.wanted && c.params == r.value + c.params[c.wanted..]
    ensures c.wanted > |c.params| ==>
      r == Failure(Exception(IllegalArgument,
        "Option " + c.params[0] + " requires " + NatToString(c.wanted - 1) + " parameters"))
    ensures c.wanted < 0 ==> r.Failure? && r.error.kind == IllegalArgument
  {
    if |c.params| < c.wanted then
      Failure(Exception(IllegalArgument,
        "Option " + c.params[0] + " requires " + NatToString(c.wanted - 1) + " parameters"))
    else if c.wanted < 0 then
      Failure(Exception(IllegalArgument, "fromIndex(0) > toIndex(-" + NatToString(-c.wanted) + ")"))
    else
      Success(c.params[..c.wanted])
  }

  /**
   * One turn of the loop after the handler answered `reply`: 0 consumes the tokens
   * that were passed and asks for one token next; any other reply keeps the list
   * and asks for that many tokens.
   */
  function Advance(c: Cursor, reply: int): (r: Cursor)
    requires 1 <= c.wanted <= |c.params|
    ensures r.wanted != 0
    ensures reply == 0 ==> r.wanted == 1 && c.params == c.params[..c.wanted] + r.params
    ensures reply != 0 ==> r.params == c.params && r.wanted == reply
  {
    if reply == 0 then Cursor(c.params[c.wanted..], 1) else Cursor(c.params, reply)
  }

  /**
   * Only a reply of 0 makes progress; the loop as a whole runs `Take` then
   * `Advance`, and the tokens it hands the handler are exactly the ones it drops.
   */
  lemma AdvanceProgress(c: Cursor, reply: int)
    requires c.params != [] && c.wanted != 0 && Take(c).Success?
    ensures |Advance(c, reply).params| < |c.params| <==> reply == 0
    ensures reply == 0 ==> c.params == Take(c).value + Advance(c, reply).params
  {
  }

  /** With the one-token requests of handlers that always answer 0, every turn passes exactly one token. */
  lemma SingleTokenTurns(params: seq<string>)
    requires params != []
    ensures Take(Cursor(params, 1)) == Success([params[0]])
    ensures Advance(Cursor(params, 1), 0) == Cursor(params[1..], 1)
  {
    assert params[..1] == [params[0]];
  }
}
