/**
 * Properties of the controllers of mkr.Build and mkr.TargetBuild as they are
 * reached through the controller chain: how `parameters` routes a token, what
 * `run` does with an empty argument list, that no exception escapes `run`, and
 * when the build events fire.
 */
module Controllers {
  import opened Wrappers
  import opened Strings
  import opened Targets
  import opened Build
  import opened TargetBuild
  import B = Behavior
  import TW = TargetWalk

  // ---------------------------------------------------------------- parameters

  /**
   * `as(Parameterized.class).parameters(build, params)`: in a target build
   * `-targets` lists the targets, a token without a leading dash builds the
   * target of that name, and any other token reaches the base controller, which
   * accepts only `-verbose`; in a plain build every token reaches the base
   * controller.
   */
  lemma DispatchRoutes(s: Session, params: seq<string>)
    requires Consistent(s) && |params| >= 1
    ensures Dispatch(s, params) ==
      if s.targetBuild && params[0] == "-targets" then ShowTargets(s)
      else if s.targetBuild && !StartsWith(params[0], "-") then BuildTarget(s, params[0])
      else BaseAnswer(s, params)
  {
    Resolution(s.targetBuild, 0, B.Parameterized);
    assert BaseControllerId != TargetControllerId;
    if s.targetBuild {
      assert Parameters(s, 1, params) == BaseAnswer(s, params);
    } else {
      assert Parameters(s, 0, params) == BaseAnswer(s, params);
    }
  }

  // ---------------------------------------------------------------- run

  /** The arguments the base controller's `run` receives: a target build replaces none by `<root>`. */
  function RunArgs(targetBuild: bool, args: seq<string>): (r: seq<string>)
    ensures r != args <==> targetBuild && args == []
    ensures targetBuild ==> r != []
  {
    if targetBuild && args == [] then [DefaultTarget] else args
  }

  /**
   * `Build.start`: whichever controller answers `Runner`, the build is invoked
   * with `RunArgs` and an exception it throws is logged on the error logger
   * instead of escaping.
   */
  lemma StartInvokesAndCatches(s: Session, args: seq<string>)
    requires s.main.None? || s.main == Some(CreateController(s.targetBuild))
    requires s.cache.None?
    ensures var s1 := s.(main := Some(CreateController(s.targetBuild)));
      var i := Invoke(s1, RunArgs(s.targetBuild, args));
      Start(s, args) == Outcome(i.s.(loggers := Catch(i.s.loggers, s.className, i.thrown)), None)
  {
    var s1 := s.(main := Some(CreateController(s.targetBuild)));
    Resolution(s.targetBuild, 0, B.Runner);
    assert BaseControllerId != TargetControllerId;
    if s.targetBuild {
      assert RunAt(s1, 0, args) == RunAt(s1, 1, RunArgs(true, args));
    }
  }

  /**
   * No exception escapes `run`: a failed build is logged once, as "Build failed:
   * class ...", on the error logger, and the other loggers are as the build left them.
   */
  lemma RunNeverThrows(s: Session, args: seq<string>)
    requires s.main.None? || s.main == Some(CreateController(s.targetBuild))
    requires s.cache.None?
    ensures Start(s, args).thrown.None?
    ensures var i := Invoke(s.(main := Some(CreateController(s.targetBuild))), RunArgs(s.targetBuild, args));
      var r := Start(s, args);
      && (i.thrown.None? ==> r.s == i.s)
      && (i.thrown.Some? ==>
            && r.s.loggers.error.uses == i.s.loggers.error.uses + 1
            && (i.s.loggers.error.enabled ==>
                  r.s.loggers.error.output ==
                    i.s.loggers.error.output + [FailureMessage(s.className, i.thrown.value)])
            && r.s.events == i.s.events)
  {
    StartInvokesAndCatches(s, args);
  }

  /** A target build given no arguments builds `<root>`. */
  lemma EmptyArgsBuildRoot(s: Session)
    requires s.main.None? || s.main == Some(CreateController(s.targetBuild))
    requires s.cache.None? && s.targetBuild
    ensures Start(s, []) == Start(s, [DefaultTarget])
  {
    StartInvokesAndCatches(s, []);
    StartInvokesAndCatches(s, [DefaultTarget]);
  }

  /** A plain build given no arguments starts and finishes and logs no error. */
  lemma EmptyPlainBuild(s: Session)
    requires s.main.None? || s.main == Some(CreateController(s.targetBuild))
    requires s.cache.None? && !s.targetBuild
    ensures Start(s, []).s.events == s.events + [BuildStarting, BuildFinished]
    ensures Start(s, []).s.loggers.error == s.loggers.error
  {
    StartInvokesAndCatches(s, []);
  }

  // ---------------------------------------------------------------- build events

  /** No `buildFinished` among the events. */
  predicate NoFinish(evs: seq<Event>) {
    forall i :: 0 <= i < |evs| ==> !evs[i].BuildFinished?
  }

  lemma {:induction false} BlocksNoFinish(evs: seq<Event>)
    requires TW.Blocks(evs)
    ensures NoFinish(evs)
    decreases |evs|
  {
    if evs != [] {
      BlocksNoFinish(evs[3..]);
      assert evs == evs[..3] + evs[3..];
    }
  }

  /** Handling one token never fires `buildFinished`. */
  lemma DispatchNoFinish(s: Session, params: seq<string>)
    requires Consistent(s) && |params| >= 1
    ensures NoFinish(Dispatch(s, params).s.events[|s.events|..])
  {
    DispatchRoutes(s, params);
    if s.targetBuild && params[0] != "-targets" && !StartsWith(params[0], "-") {
      TW.BuildTargetTrace(s, params[0]);
      BlocksNoFinish(BuildTarget(s, params[0]).s.events[|s.events|..]);
    } else {
      assert Dispatch(s, params).s.events[|s.events|..] == [];
    }
  }

  /**
   * The argument loop fires `buildFinished` exactly when it completes: last,
   * after the final token, and never when a token's handling threw.
   */
  lemma {:induction false} LoopFinishes(s: Session, params: seq<string>)
    requires Consistent(s)
    ensures var r := Loop(s, params);
      && (r.thrown.None? ==> |r.s.events| > |s.events| && r.s.events[|r.s.events| - 1] == BuildFinished)
      && (r.thrown.Some? ==> NoFinish(r.s.events[|s.events|..]))
    decreases |params|
  {
    if params != [] {
      var s1 := LogVerbose(s, "Processing parameters: " + ShowList([params[0]]));
      var d := Dispatch(s1, [params[0]]);
      LoopStep(s, params);
      DispatchNoFinish(s1, [params[0]]);
      if d.thrown.None? {
        LoopFinishes(d.s, params[1..]);
        var r := Loop(d.s, params[1..]);
        if r.thrown.Some? {
          NoFinishAppend(s.events, d.s.events, r.s.events);
        }
      }
    }
  }

  /** One turn of the loop: the first token is dispatched, and the loop goes on unless that threw. */
  lemma LoopStep(s: Session, params: seq<string>)
    requires Consistent(s) && params != []
    ensures var s1 := LogVerbose(s, "Processing parameters: " + ShowList([params[0]]));
      var d := Dispatch(s1, [params[0]]);
      && s1.events == s.events && Consistent(s1)
      && Loop(s, params) == if d.thrown.Some? then d else Loop(d.s, params[1..])
  {
  }

  lemma NoFinishAppend(e0: seq<Event>, e1: seq<Event>, e2: seq<Event>)
    requires e0 <= e1 <= e2
    requires NoFinish(e1[|e0|..]) && NoFinish(e2[|e1|..])
    ensures NoFinish(e2[|e0|..])
  {
    forall i | 0 <= i < |e2| - |e0|
      ensures !e2[|e0|..][i].BuildFinished?
    {
      if |e0| + i < |e1| {
        assert e2[|e0|..][i] == e1[|e0|..][i];
      } else {
        assert e2[|e0|..][i] == e2[|e1|..][|e0| + i - |e1|];
      }
    }
  }

  /**
   * `invoke`: `buildStarting` fires before any token is handled, and
   * `buildFinished` fires, last, exactly when no exception was thrown.
   */
  lemma InvokeEvents(s: Session, args: seq<string>)
    requires Consistent(s)
    ensures var r := Invoke(s, args);
      && |r.s.events| > |s.events|
      && r.s.events[|s.events|] == BuildStarting
      && (r.thrown.None? ==> r.s.events[|r.s.events| - 1] == BuildFinished)
      && (r.thrown.Some? ==> NoFinish(r.s.events[|s.events| + 1..]))
  {
    LoopFinishes(Starting(s), args);
  }
}
