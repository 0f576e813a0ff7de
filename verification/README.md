# mkr build framework core, in Dafny

A model of the core of **mkr**, a Java build framework in which a build script
is a class whose `make…` methods are targets, with dependencies declared by a
`@Depends` annotation. The model covers:

- **The behavior override chain** (`mkr.build.Behavior`). Controller objects are
  stacked; `overrides` installs a new head, `as(T)` finds the nearest handler
  implementing `T` from the head, and `parent(T)` searches beneath the caller.
  A chain is a `seq<Handler>`, each handler carrying its set of interfaces and
  the identity of its `first`. Lookups are functions of the chain, so they
  cannot modify `first` or `next`.
- **Loggers** (`mkr.build.Logger`): the `enabled` flag, the `used` and
  `written` counters, with `write` as an append to an output list.
- **The base controller** (`mkr.Build`): the lazily created process-wide
  controller chain behind `using`, the four loggers and their initial states,
  `parameters` (`-verbose`), the token loop of `invoke`, and the
  catch-and-log wrapper of `run`.
- **The target build** (`mkr.TargetBuild`): the cached target map with its
  synthesized `<root>` target and its dependency validation, `buildTarget`'s
  recursive walk guarded by the `called` set, `showTargets`, and the target
  controller's `run` and `parameters`.
- **Method targets** (`mkr.MethodTargetBuild`): target names from method names,
  dependency lists from `@Depends`, and the scan of a class and its
  superclasses with last-put-wins registration and illegal-method errors, and
  what `method.invoke(this)` runs: Java's virtual dispatch, so an overridden
  superclass method runs the subclass body. A method is an abstract record.
- **Directory helpers** (`mkr.Dir`): `include`, and the `children(order)`
  iterator over an abstract file tree, with its three traversal orders.

The static state of `Build` (controller chain and loggers) and the state of a
build object (cached map, `called` set) are fields of a `Session` value threaded
through the functions. An exception is a value `Exception(kind, message)` in an
`Outcome`. A build class has two names: the binary name (`p.Outer$B`), which
`Class.toString` shows in "Build failed: class …", and the canonical name
(`p.Outer.B`), which "Build class: …" shows and which is absent, printed as
"null", for a local or anonymous class. The callbacks of `BuildEvents` and `TargetEvents`, and the execution
of a target body, are recorded in an event trace.

Modules: `Wrappers`, `Strings`, `Logging`, `Behavior`, `Build`, `Targets`,
`MethodTargets`, `TargetBuild` (the operations), `TargetWalk`, `TargetMap` and
`Controllers` (properties of the walk, the map and the controllers), `Dir` and
`DirOrders`.

## Model

| member | source | states |
|---|---|---|
| Behavior.Fresh | build/mkr/build/Behavior.java:30 | a new handler forms a well-formed one-handler chain whose `first` is itself and which has no `next` |
| Behavior.Overrides | build/mkr/build/Behavior.java:37-44 | `x.overrides(p)` puts `x` in front of `p`'s chain, keeps that chain's nodes in order, sets their `first` to `x`, introduces no cycle, and yields a well-formed chain exactly when `x.first` is `x` |
| Behavior.Find | build/mkr/build/Behavior.java:66-74 | the handler found implements the interface and none before it from the start point does; the ClassCastException comes exactly when no handler from the start point implements it |
| Behavior.As | build/mkr/build/Behavior.java:52-54 | `as(T)` gives the same answer whichever node of a well-formed chain asks: the search from the head |
| Behavior.Parent | build/mkr/build/Behavior.java:62-64 | `parent(T)` never returns the caller: it yields the nearest implementer strictly beneath it, or the exception when none is beneath |
| Behavior.FindBeneath | build/mkr/build/Behavior.java:66-72 | after `overrides`, searching below the new head is searching the old chain, one position later |
| Behavior.OverrideWins | build/mkr/build/Behavior.java:37-54 | after `x.overrides(p)` the most recently installed implementer wins for every node: `x` if it implements the interface, else what the old chain resolved to |
| Behavior.ParentReachesOverridden | build/mkr/build/Behavior.java:62-64 | the installed head's `parent(T)` resolves exactly as the overridden chain did |
| Logging.New | build/mkr/build/Logger.java:24-25 | a new logger is enabled, unused, and has written nothing |
| Logging.SetEnabled | build/mkr/build/Logger.java:29-32 | `enabled(b)` sets the flag and leaves both counters and the output unchanged |
| Logging.Log | build/mkr/build/Logger.java:42-49 | `log` always counts a use and makes `used()` true; it writes and counts a write only when enabled |
| Logging.LogAll | build/mkr/build/Logger.java:42-49 | logging several messages counts each one, and an enabled logger writes them all in order |
| Logging.ApplyCounts | build/mkr/build/Logger.java:42-48 | after any sequence of calls the use count is the number of `log` calls and `written` never exceeds it |
| Logging.UsedIffLogged | build/mkr/build/Logger.java:51-53 | a new logger is `used()` exactly when `log` was called at least once, enabled or not |
| Build.InitialLoggers | build/mkr/Build.java:68-90 | error, warn and info start enabled, verbose disabled, all unused and empty |
| Build.CreateController | build/mkr/TargetBuild.java:40-42 | a plain build's chain is a base controller alone (Build.java:44-46); a target build's is a target controller over a base controller; both are well formed |
| Build.Resolution | build/mkr/TargetBuild.java:122-138 | in a created chain every handler resolves each interface to the target controller for `Runner`, `Parameterized`, `TargetEvents` of a target build, to the base controller for its own interfaces, and to the ClassCastException otherwise; the target controller's `parent` reaches the base controller |
| Build.Using | build/mkr/Build.java:61-66 | `using` creates the chain only when none exists and answers from the head of the chain it keeps |
| Build.UsingCreatesOnce | build/mkr/Build.java:61-66 | a second `using`, from a build of either kind, sees the chain the first one created |
| Build.BaseParameters | build/mkr/Build.java:131-138 | the base `parameters` succeeds exactly on `-verbose`, which enables the verbose logger and logs "Verbose enabled" on it; any other token is an IllegalArgumentException "Unknown parameter: …" |
| Build.StartMessage | build/mkr/Build.java:127-129 | `buildStarting` logs "Build class: " and the canonical class name, or "null" when the class has none |
| Build.Catch | build/mkr/Build.java:94-102 | a thrown exception is logged once, as "Build failed: class " + binary class name + ": message", on the error logger, and the other loggers are untouched; a normal completion changes nothing |
| Build.Take | build/mkr/Build.java:110-115 | a turn hands over the first `wanted` tokens, and fails with "Option x requires wanted-1 parameters" when fewer remain |
| Build.Advance | build/mkr/Build.java:117-121 | a reply of 0 drops exactly the tokens handed over and asks for one token next; any other reply keeps the list and asks for that many tokens |
| Build.AdvanceProgress | build/mkr/Build.java:108-122 | the token list shrinks exactly when the handler replies 0, and the tokens dropped are the ones handed over |
| Build.SingleTokenTurns | build/mkr/Build.java:108-121 | with handlers replying 0, every turn hands over exactly the first remaining token |
| Targets.Put | build/mkr/MethodTargetBuild.java:104-105 | `put` stores the target under its name, reports whether the name was present, and appends a new name to the iteration order |
| MethodTargets.TargetName | build/mkr/MethodTargetBuild.java:64-69 | `make` names `<root>`; `make` + s names s with its first character lowercased and the rest unchanged |
| MethodTargets.TargetNameRoundTrip | build/mkr/MethodTargetBuild.java:64-69 | naming a method `make` + a capitalised target name gives the target back |
| MethodTargets.TargetNameExamples | build/mkr/MethodTargetBuild.java:64-68 | `make` is `<root>` and `makeDistDir` is `distDir` |
| MethodTargets.TargetNamesCollide | build/mkr/MethodTargetBuild.java:64-68 | `makeFoo` and `makefoo` both name the target `foo` |
| MethodTargets.Dependencies | build/mkr/MethodTargetBuild.java:71-74 | no `@Depends` gives no dependencies; a value without commas gives itself; no piece contains a comma |
| MethodTargets.DependenciesOfJoin | build/mkr/MethodTargetBuild.java:71-74 | splitting a comma-joined list of names (the last one non-empty) gives the list back |
| MethodTargets.DependenciesNotTrimmed | build/mkr/MethodTargetBuild.java:73 | `"a, b"` gives the names `a` and ` b`: blanks are not trimmed |
| MethodTargets.InvokedMostDerived | build/mkr/MethodTargetBuild.java:80 | invoking an overridable parameterless target method runs the first declaration in scan order, the most derived class, that has its name and is overridable: possibly the method itself, never a later one |
| MethodTargets.Invoked | build/mkr/MethodTargetBuild.java:80 | a private or static method runs its own body; an overridable one runs the first scanned declaration, of the build class itself, when that declaration overrides it |
| MethodTargets.OverrideExample | build/mkr/MethodTargetBuild.java:72-105 | a subclass `makeFoo` with `@Depends("compile")` overriding a failing superclass `makeFoo` gives target `foo` with no dependencies whose body completes |
| MethodTargets.Step | build/mkr/MethodTargetBuild.java:99-106 | a method not named `make…` is ignored; an illegal one logs "Illegal target method: …" and is not registered; a legal one is put into the map with a "Found" or "Overriding" notice on the verbose logger |
| MethodTargets.Scan | build/mkr/MethodTargetBuild.java:97-109 | the scan logs one error per illegal candidate and one verbose notice per registered method, and leaves warn and info alone |
| MethodTargets.ScanErrorOutput | build/mkr/MethodTargetBuild.java:99-101 | the error output gains exactly the illegal-method messages, in scan order |
| MethodTargets.GetTargets | build/mkr/MethodTargetBuild.java:93-112 | `getTargets` throws "Illegal target method errors" exactly when the error logger was used before or an illegal candidate exists |
| MethodTargets.GetTargetsFailsIffIllegal | build/mkr/MethodTargetBuild.java:99-110 | with an unused error logger, `getTargets` fails exactly when some method named `make…` returns a value or takes parameters |
| MethodTargets.LastPutWins | build/mkr/MethodTargetBuild.java:97-105 | the map holds a name exactly when it was there before or some legal method names it, and then the target of the last such method in scan order (its name and `@Depends`), with the body that invoking that method runs |
| MethodTargets.WinnerExists | build/mkr/MethodTargetBuild.java:99-105 | a name is registered exactly when it was a key before or some legal `make…` method names it |
| MethodTargets.AncestorWins | build/mkr/MethodTargetBuild.java:80-105 | when a class and its superclass both define a target, the superclass's method is the one put last, so its `@Depends` is kept; its body is the subclass's when the subclass method overrides it, its own otherwise |
| Strings.JavaSplit | build/mkr/MethodTargetBuild.java:73 | `split(",")` gives pieces without a comma; a string without a comma is its own only piece; trailing empty pieces are removed |
| Strings.JavaSplitJoin | build/mkr/MethodTargetBuild.java:73 | `String.split` undoes joining with the separator when no part contains it and the last part is non-empty |
| TargetBuild.WithDefault | build/mkr/TargetBuild.java:59-73 | the map gains a `<root>` target with no dependencies, added last in iteration order, only when it has none; a user `<root>` is kept |
| TargetBuild.LoadTargets | build/mkr/TargetBuild.java:56-85 | a cached map is returned unchanged; otherwise a successful call caches a map that holds `<root>`, and nothing is cached only when the call fails |
| TargetBuild.ShowTargets | build/mkr/TargetBuild.java:111-116 | listing the targets changes neither the trace nor the called set and cannot fail once the map is cached |
| TargetBuild.Execute | build/mkr/TargetBuild.java:65-67 | executing a target records it in the trace and leaves `called` and the map alone; the default target cannot throw; a method target throws exactly the exception of its method (MethodTargetBuild.java:76-89) |
| TargetBuild.Lookup | build/mkr/TargetBuild.java:94-96 | with the map cached, the lookup succeeds exactly for a key and otherwise throws MissingTargetException "Target 'n' not found" |
| TargetBuild.Run | build/mkr/TargetBuild.java:103-108 | `targetStarting` fires immediately before the body runs and `targetFinished` right after it, whether the body threw or not |
| TargetBuild.BuildTarget | build/mkr/TargetBuild.java:93-109 | the walk terminates, never shrinks `called` or the trace, and on success has marked `n` called |
| TargetBuild.WalkDeps | build/mkr/TargetBuild.java:99-101 | on success every dependency from the current index on is in `called` |
| TargetBuild.RemainingShrinks | build/mkr/TargetBuild.java:98 | marking a new key called shrinks the set of keys still to visit, the termination measure of the walk |
| TargetBuild.Parameters | build/mkr/TargetBuild.java:128-138 | answering a token keeps the session consistent and the build the same, keeps a cached map, and never shrinks the called set or the trace; the routing itself is stated by `Controllers.DispatchRoutes` |
| TargetBuild.Dispatch | build/mkr/Build.java:117 | handing a token to the `Parameterized` handler from the head of the chain keeps the same guarantees as `Parameters` |
| TargetBuild.BaseAnswer | build/mkr/Build.java:131-138 | the base `parameters` throws exactly when `BaseParameters` refuses the token, and otherwise changes only the loggers |
| TargetBuild.Loop | build/mkr/Build.java:108-124 | when the loop completes, the last event is `buildFinished`; the full statement, that it fires exactly when no token's handling threw, is `Controllers.LoopFinishes` |
| TargetBuild.Starting | build/mkr/Build.java:127-129 | `buildStarting`, called first by `invoke`, appends exactly the `buildStarting` event and writes the start message with the canonical name on an enabled info logger, touching nothing else |
| TargetBuild.Invoke | build/mkr/Build.java:105-125 | `buildStarting` fires before anything else `invoke` does; the full statement, with `buildFinished` fired exactly when nothing was thrown, is `Controllers.InvokeEvents` |
| TargetBuild.RunAt | build/mkr/Build.java:94-102 | the base controller's `run` never lets an exception escape |
| TargetBuild.Start | build/mkr/Build.java:196-199 | after `start` the chain exists, is the one the build created, and any cached map is valid |
| TargetWalk.BuildTargetTrace | build/mkr/TargetBuild.java:93-109 | `buildTarget(n)` adds whole start/body/finish blocks to the trace; no body runs twice; every body that runs is of a target newly marked called, or `n`; on success every newly called target ran and `n` ran last |
| TargetWalk.WalkDepsTrace | build/mkr/TargetBuild.java:99-101 | the same for the walk over a dependency list, which has no target of its own |
| TargetWalk.MissingTargetFails | build/mkr/TargetBuild.java:93-96 | `buildTarget` of a name not in the map throws MissingTargetException and runs nothing, whether the map was cached or this call loaded it; a loaded map stays cached |
| TargetWalk.BuildThroughWalk | build/mkr/TargetBuild.java:98-108 | `n` is marked called before its dependencies are walked; a failing walk is the outcome; otherwise `n`'s block follows the walk, with its body's outcome |
| TargetWalk.WalkAllCalled | build/mkr/TargetBuild.java:99-101 | a dependency already called is skipped, so a walk over called dependencies does nothing |
| TargetWalk.RunsAlone | build/mkr/TargetBuild.java:98-108 | a target whose dependencies are called already runs just its own block, even when it ran before: the requested name is not checked against `called` |
| TargetWalk.DependenciesRunFirst | build/mkr/TargetBuild.java:99-105 | on success every declared dependency not called before ran in this call before its dependent's block |
| TargetWalk.SoundBuildSucceeds | build/mkr/TargetBuild.java:93-109 | if every declared dependency is a key and no target method throws, `buildTarget` of any key succeeds, whatever cycles the dependencies form |
| TargetWalk.SoundWalkSucceeds | build/mkr/TargetBuild.java:99-101 | the same for a walk over keys |
| TargetWalk.ForkOrder | build/mkr/TargetBuild.java:99-101 | dependencies are walked in declared order: with `{a: [b, c], b: [], c: []}` building `a` runs `b`, then `c`, then `a` |
| TargetWalk.ForkExample | build/mkr/TargetBuild.java:99-105 | building A in the map `{A: [B, C], B: [], C: []}` executes B, C, A |
| TargetWalk.DiamondOrder | build/mkr/TargetBuild.java:98-108 | with `{a: [b, c], b: [c], c: []}` building `a` runs `c`, `b`, `a`, each once |
| TargetWalk.DiamondExample | build/mkr/TargetBuild.java:99-105 | building A in the map `{A: [B, C], B: [C], C: []}` executes C, B, A |
| TargetWalk.CycleOrder | build/mkr/TargetBuild.java:98-101 | with `{a: [b], b: [a]}` building `a` runs `b`, then `a`, and succeeds: the cycle is treated as satisfied |
| TargetWalk.CycleExample | build/mkr/TargetBuild.java:98-101 | building A in the map `{A: [B], B: [A]}` executes B, then A |
| TargetMap.MissingPairsSpec | build/mkr/TargetBuild.java:75-81 | validation reports a (target, dependency) pair exactly when the target is a key and its declared dependency is not |
| TargetMap.ClosedIffNoneMissing | build/mkr/TargetBuild.java:75-81 | no pair is reported exactly when every declared dependency is a key |
| TargetMap.Validation | build/mkr/TargetBuild.java:56-85 | the first `targets()` propagates a `getTargets` failure; otherwise it caches the map before validating it and throws "Missing dependency errors" exactly when some dependency is not a key |
| TargetMap.ValidationLogs | build/mkr/TargetBuild.java:74-82 | every target is checked before the throw: one error message per missing pair, in iteration order |
| TargetMap.DefaultTargetPresent | build/mkr/TargetBuild.java:59-73 | after `targets()` the map holds `<root>`: the user's own target if there is one, else a synthesized one with no dependencies that lists the targets |
| TargetMap.CachedAfterFirstCall | build/mkr/TargetBuild.java:56-58 | once a map is cached, `targets()` returns it and changes nothing, so `getTargets` runs at most once per build object |
| TargetMap.FailedValidationStaysCached | build/mkr/TargetBuild.java:57-84 | a map that failed validation stays cached, and a second `targets()` returns it without error |
| TargetMap.ShowTargetsLists | build/mkr/TargetBuild.java:111-116 | `showTargets` logs "Available targets:" first, even when loading the map then throws; with the map at hand, cached or loaded by this call, one line "  name" follows per target in iteration order and nothing is thrown |
| Controllers.DispatchRoutes | build/mkr/TargetBuild.java:128-138 | through the chain, a target build lists the targets for `-targets`, builds the target named by a token without a dash, and passes other tokens to the base controller; a plain build passes every token to the base controller |
| Controllers.RunArgs | build/mkr/TargetBuild.java:124-126 | the target controller changes the arguments exactly when there are none, and a target build never runs with no arguments |
| Controllers.StartInvokesAndCatches | build/mkr/Build.java:94-102 | `start` through either chain is `invoke` followed by the catch clause of the base `run` |
| Controllers.RunNeverThrows | build/mkr/Build.java:94-102 | no exception escapes `run`; a failed build logs exactly one "Build failed" message on the error logger |
| Controllers.EmptyArgsBuildRoot | build/mkr/TargetBuild.java:124-126 | a target build given no arguments behaves as one given `<root>` |
| Controllers.EmptyPlainBuild | build/mkr/Build.java:105-125 | a plain build given no arguments fires `buildStarting` and `buildFinished` and logs no error |
| Controllers.DispatchNoFinish | build/mkr/TargetBuild.java:128-138 | handling a token never fires `buildFinished` |
| Controllers.LoopFinishes | build/mkr/Build.java:110-124 | the loop fires `buildFinished` last when it completes, and never when a token's handling threw |
| Controllers.InvokeEvents | build/mkr/Build.java:105-125 | `buildStarting` fires first, and `buildFinished` fires exactly when no exception was thrown |
| Dir.Include | build/mkr/Dir.java:94-96 | `include(t)` starts with the directory path and separator, and a single path without a comma is just put under the directory |
| Dir.IncludeSplit | build/mkr/Dir.java:94-96 | splitting `include(t)` at commas gives each comma-separated piece of `t` with the directory path and separator in front, when the path has no comma |
| Dir.Schedule | build/mkr/Dir.java:157-160 | `schedule` puts the directory's listing ahead of the Dir for DEPTH_FIRST, right behind it for PARENT_FIRST, and behind the whole agenda for BREADTH_FIRST |
| Dir.ScheduleWeight | build/mkr/Dir.java:139-146 | expanding a plain directory at the head of the agenda makes progress, so `hasNext` terminates |
| Dir.Walk | build/mkr/Dir.java:139-151 | the iterator only hands out Dir objects and non-directories: a plain directory is expanded, never yielded |
| Dir.Children | build/mkr/Dir.java:129-164 | no contract; characterised by `DirOrders.DepthFirstIsPostOrder`, `DirOrders.ParentFirstIsPreOrder`, `DirOrders.BreadthFirstIsLevels` and `DirOrders.EveryNodeOnce` |
| DirOrders.DepthFirstIsPostOrder | build/mkr/Dir.java:102-107 | DEPTH_FIRST yields exactly the post-order of the tree: each subtree before its directory, the root last |
| DirOrders.ParentFirstIsPreOrder | build/mkr/Dir.java:109-114 | PARENT_FIRST yields exactly the pre-order of the tree: each directory before its subtree |
| DirOrders.BreadthFirstIsLevels | build/mkr/Dir.java:116-122 | BREADTH_FIRST yields exactly the level order of the tree |
| DirOrders.LevelsByDepth | build/mkr/Dir.java:116-122 | level order yields all nodes at depth below n before any node at depth n |
| DirOrders.EveryNodeOnce | build/mkr/Dir.java:129-164 | in every order the iterator yields every node of the tree exactly once, the root included |
| DirOrders.DepthFirstEmptiesBeforeDelete | build/mkr/Dir.java:166-171 | DEPTH_FIRST yields every entry of a directory's listing before the directory, and the root last, as `deleteAll` needs |
| DirOrders.ParentFirstListsAfterDirectory | build/mkr/Dir.java:109-114 | PARENT_FIRST yields the root first and every directory before every entry of its listing |

## Left out

- Reflection is not modelled: finding the main class, `newInstance`, `getDeclaredMethods`, `Method.invoke` and the unwrapping of its exceptions. A method is a record of its name, return kind, parameter count, `@Depends` value and the message of the exception its body would throw. A checked exception escaping a body is treated like any other exception.
- Virtual dispatch is modelled by name among the scanned declarations: a non-private, non-static parameterless method is overridden by a later-declared one of the same name. Package-private methods across packages, bridge and synthetic methods, and override combinations Java would not compile (a static method hiding an instance one) are not modelled.
- `Method.toString` in the illegal-method and notice messages is an abstract `signature` string.
- Console output of the loggers is an append to an output list. `printStackTrace` under verbose logging is not modelled.
- `System.getProperty` for the build directory is not modelled.
- The `HashMap` of targets is modelled with insertion order as its iteration order. Java leaves that order unspecified, so the order of the validation messages and of the `showTargets` lines is this model's choice.
- Handlers are identified by a string and a chain is a sequence. Two chains sharing nodes, and `overrides` on a chain that already contains the new head or has a cycle (where the Java loop never ends), are excluded by the requirements of `Behavior.Overrides`.
- Only the chains the two `createController` methods build are used by sessions. A chain created by a build of the other kind, through the shared static controller, is not modelled: `TargetBuild.Start` requires that any existing chain is the build's own.
- TargetBuild.Loop: the concrete handlers always reply 0, so the loop hands over one token per turn. Replies other than 0, and the negative reply that `subList` refuses, are covered only by `Build.Take` and `Build.Advance`.
- Controller extensions other than the base and target controllers, such as AntBuild's, are not modelled.
- TargetWalk.ForkOrder, TargetWalk.DiamondOrder, TargetWalk.CycleOrder, TargetWalk.RunsAlone and TargetWalk.DependenciesRunFirst are stated for a build whose map is already cached. A first call additionally loads the map, which `TargetWalk.BuildTargetTrace` and `TargetMap.Validation` cover.
- `Dir.include` is literal comma replacement. The regular-expression quirks of `replaceAll` when the path contains `\` or `$` are not modelled.
- File-system calls are not modelled: `isDirectory`, `listFiles` (including its null result on error), `delete`, and `File` path joining in `subDir`, `file` and `valueOf`. A directory is an abstract tree whose listing is given in `listFiles` order.
- The iterator's `remove()` always throws UnsupportedOperationException. It has no state to model.
- Case mapping is ASCII only, under a locale such as English. `String.toLowerCase()` uses the default locale, so under a Turkish locale `makeIndex` names the target `ındex` (dotless ı); that locale dependence, and a first character outside ASCII, are not modelled.
- Counters are unbounded: the `int` overflow of the logger counters after 2^31 calls is not modelled.
- AntBuild, Jdk, Launcher and the Make build script are not part of this model.
