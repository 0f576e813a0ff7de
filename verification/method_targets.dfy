/**
 * mkr.MethodTargetBuild: targets generated from the methods whose names start
 * with `make`, over abstract method records in place of reflection. The
 * declared methods of the build class and of each of its superclasses are given
 * as one sequence per class, the concrete class first.
 */
module MethodTargets {
  import opened Wrappers
  import opened Strings
  import opened Targets
  import L = Logging
  import Build

  /** `MethodTargetBuild.PREFIX` */
  const Prefix: string := "make"

  /**
   * A declared method: what `toString()` shows, its name, its signature as far as
   * the legality test looks at it, whether it is an instance method that is
   * neither private nor static (one that Java's virtual dispatch lets a
   * subclass override), the value of its `@Depends` annotation if any, and how
   * its own body ends (`None` for normal completion, or the message of the
   * exception it throws).
   */
  datatype Method = Method(
    signature: string,
    name: string,
    returnsVoid: bool,
    paramCount: nat,
    overridable: bool,
    depends: Option<string>,
    failure: Option<string>)

  /** Only methods named `make…` are looked at. */
  predicate Candidate(m: Method) {
    StartsWith(m.name, Prefix)
  }

  /** A target method must return void and take no parameters. */
  predicate Legal(m: Method) {
    m.returnsVoid && m.paramCount == 0
  }

  /**
   * The target `name()` of a method named `make` + rest: the default target for
   * an empty rest, otherwise rest with its first character in lower case.
   */
  function TargetName(methodName: string): (r: string)
    requires StartsWith(methodName, Prefix)
    ensures |methodName| == |Prefix| ==> r == DefaultTarget
    ensures |methodName| > |Prefix| ==>
      && |r| == |methodName| - |Prefix|
      && r[0] == ToLowerAscii(methodName[|Prefix|])
      && r[1..] == methodName[|Prefix| + 1..]
  {
    var rest := methodName[|Prefix|..];
    if |rest| == 0 then DefaultTarget else [ToLowerAscii(rest[0])] + rest[1..]
  }

  /** The method name a build author writes for a target: `make` + the name capitalised. */
  function MethodNameFor(target: string): (r: string)
    requires target != []
    ensures StartsWith(r, Prefix)
  {
    if target == DefaultTarget then Prefix else Prefix + [ToUpperAscii(target[0])] + target[1..]
  }

  /** Naming a method after a target gives that target back, unless the target starts with a capital. */
  lemma TargetNameRoundTrip(target: string)
    requires target != [] && !('A' <= target[0] <= 'Z')
    ensures TargetName(MethodNameFor(target)) == target
  {
    if target != DefaultTarget {
      var m := MethodNameFor(target);
      LowerOfUpper(target[0]);
      assert m[|Prefix|..] == [ToUpperAscii(target[0])] + target[1..];
      assert target == [target[0]] + target[1..];
    }
  }

  /** `make` alone is the default target; `makeDistDir` is `distDir`. */
  lemma TargetNameExamples()
    ensures TargetName("make") == DefaultTarget
    ensures TargetName("makeDistDir") == "distDir"
  {
  }

  /** Two methods differing in the case of one letter name the same target. */
  lemma TargetNamesCollide()
    ensures TargetName("makeFoo") == TargetName("makefoo") == "foo"
  {
  }

  /**
   * `dependencies()`: none without `@Depends`, otherwise its value split at every
   * comma with no trimming, trailing empty pieces dropped as `String.split` does.
   */
  function Dependencies(m: Method): (r: seq<string>)
    ensures m.depends.None? ==> r == []
    ensures forall i :: 0 <= i < |r| ==> ',' !in r[i]
    ensures m.depends.Some? && ',' !in m.depends.value ==> r == [m.depends.value]
  {
    if m.depends.None? then [] else JavaSplit(m.depends.value, ',')
  }

  /** Writing a list of names joined by commas into `@Depends` gives the list back. */
  lemma DependenciesOfJoin(m: Method, names: seq<string>)
    requires |names| >= 1
    requires forall i :: 0 <= i < |names| ==> ',' !in names[i]
    requires |names| == 1 || names[|names| - 1] != []
    requires m.depends == Some(Join(names, ','))
    ensures Dependencies(m) == names
  {
    JavaSplitJoin(names, ',');
  }

  /** Blanks after a comma stay part of the next name. */
  lemma DependenciesNotTrimmed(m: Method)
    requires m.depends == Some("a, b")
    ensures Dependencies(m) == ["a", " b"]
  {
    assert Join(["a", " b"], ',') == "a" + [','] + Join([" b"], ',');
    assert "a" + [','] + " b" == "a, b";
    DependenciesOfJoin(m, ["a", " b"]);
  }

  // ---------------------------------------------------------------- what `method.invoke(this)` runs

  /** `o` overrides (or is) the parameterless overridable method `m` of the same name. */
  predicate Dispatches(o: Method, m: Method) {
    o.overridable && o.name == m.name && o.paramCount == 0
  }

  /** Position of the first method of `all` that `m` dispatches to, or `|all|` when there is none. */
  function FirstDispatch(all: seq<Method>, m: Method): (k: nat)
    ensures k <= |all|
    ensures k < |all| ==> Dispatches(all[k], m)
    ensures forall j :: 0 <= j < k ==> !Dispatches(all[j], m)
  {
    if all == [] then 0 else if Dispatches(all[0], m) then 0 else 1 + FirstDispatch(all[1..], m)
  }

  /**
   * How the body of `method.invoke(build)` ends, where `all` lists the declared
   * methods of the build's class and its superclasses in scan order: a private
   * or static method runs itself; an overridable one runs the most derived
   * declaration of the same parameterless method, the first in scan order.
   */
  function Invoked(all: seq<Method>, m: Method): (r: Option<string>)
    ensures !m.overridable ==> r == m.failure
    ensures m.overridable && |all| > 0 && Dispatches(all[0], m) ==> r == all[0].failure
  {
    if !m.overridable then m.failure
    else
      var k := FirstDispatch(all, m);
      if k < |all| then all[k].failure else m.failure
  }

  /**
   * An overridable target method declared at position `i` runs the body of the
   * first declaration in scan order (the most derived class) that overrides it,
   * which may be the method itself.
   */
  lemma InvokedMostDerived(all: seq<Method>, i: nat)
    requires i < |all| && all[i].overridable && all[i].paramCount == 0
    ensures exists j ::
      && 0 <= j <= i && Dispatches(all[j], all[i])
      && (forall k :: 0 <= k < j ==> !Dispatches(all[k], all[i]))
      && Invoked(all, all[i]) == all[j].failure
  {
    var j := FirstDispatch(all, all[i]);
    assert Dispatches(all[i], all[i]);
    assert j <= i;
  }

  /**
   * The target a legal candidate method stands for: its name and dependencies
   * come from the method itself, its body from what invoking the method runs.
   */
  function TargetOf(all: seq<Method>, m: Method): (t: Target)
    requires Candidate(m)
    ensures t.name == TargetName(m.name) && t.deps == Dependencies(m)
    ensures t.body == RunMethod(Invoked(all, m))
  {
    Target(TargetName(m.name), Dependencies(m), RunMethod(Invoked(all, m)))
  }

  /** The methods of the class and its superclasses in scan order. */
  function Flatten(classes: seq<seq<Method>>): (ms: seq<Method>)
    ensures |classes| > 0 ==> ms == classes[0] + Flatten(classes[1..])
  {
    if classes == [] then [] else classes[0] + Flatten(classes[1..])
  }

  function IllegalMessage(m: Method): string {
    "Illegal target method: " + m.signature
  }

  /** What `getTargets` logs at verbose level for a method it registers. */
  function NoticeMessage(m: Method, overriding: bool): string {
    (if overriding then "Overriding" else "Found") + " target: " + m.signature
  }

  /** The error messages the scan of `ms` produces, one per illegal candidate, in order. */
  function IllegalMessages(ms: seq<Method>): (r: seq<string>)
    ensures |r| <= |ms|
    decreases |ms|
  {
    if ms == [] then []
    else ((if Candidate(ms[0]) && !Legal(ms[0]) then [IllegalMessage(ms[0])] else [])
      + IllegalMessages(ms[1..]))
  }

  /** The number of registered (legal candidate) methods. */
  function LegalCount(ms: seq<Method>): (n: nat)
    ensures n <= |ms|
    decreases |ms|
  {
    if ms == [] then 0
    else (if Candidate(ms[0]) && Legal(ms[0]) then 1 else 0) + LegalCount(ms[1..])
  }

  /** The body of the inner loop of `getTargets` for one declared method. */
  function Step(all: seq<Method>, reg: Registry, ls: Build.Loggers, m: Method): (r: (Registry, Build.Loggers))
    requires Valid(reg)
    ensures Valid(r.0)
    ensures !Candidate(m) ==> r == (reg, ls)
    ensures Candidate(m) && !Legal(m) ==>
      r.0 == reg && r.1 == ls.(error := L.Log(ls.error, IllegalMessage(m)))
    ensures Candidate(m) && Legal(m) ==>
      && r.0.table == reg.table[TargetName(m.name) := TargetOf(all, m)]
      && r.1 == ls.(verbose := L.Log(ls.verbose, NoticeMessage(m, TargetName(m.name) in reg.table)))
  {
    if !Candidate(m) then (reg, ls)
    else if !Legal(m) then (reg, ls.(error := L.Log(ls.error, IllegalMessage(m))))
    else
      var (reg', overriding) := Put(reg, TargetOf(all, m));
      (reg', ls.(verbose := L.Log(ls.verbose, NoticeMessage(m, overriding))))
  }

  /**
   * The loop of `getTargets` over methods in scan order: the error logger sees one
   * message per illegal candidate, the verbose logger one notice per registered
   * method, and the other loggers are untouched.
   */
  function Scan(all: seq<Method>, reg: Registry, ls: Build.Loggers, ms: seq<Method>): (r: (Registry, Build.Loggers))
    requires Valid(reg)
    ensures Valid(r.0)
    ensures r.1.error.uses == ls.error.uses + |IllegalMessages(ms)|
    ensures r.1.verbose.uses == ls.verbose.uses + LegalCount(ms)
    ensures r.1.warn == ls.warn && r.1.info == ls.info
    decreases |ms|
  {
    if ms == [] then (reg, ls)
    else
      var (reg', ls') := Step(all, reg, ls, ms[0]);
      Scan(all, reg', ls', ms[1..])
  }

  /** The scan never switches a logger on or off, and keeps the loggers' counters consistent. */
  lemma {:induction false} ScanKeepsLoggers(all: seq<Method>, reg: Registry, ls: Build.Loggers, ms: seq<Method>)
    requires Valid(reg)
    ensures Scan(all, reg, ls, ms).1.error.enabled == ls.error.enabled
    ensures Scan(all, reg, ls, ms).1.verbose.enabled == ls.verbose.enabled
    ensures Build.ValidLoggers(ls) ==> Build.ValidLoggers(Scan(all, reg, ls, ms).1)
    decreases |ms|
  {
    if ms != [] {
      var (reg', ls') := Step(all, reg, ls, ms[0]);
      ScanKeepsLoggers(all, reg', ls', ms[1..]);
    }
  }

  /** The error logger receives the illegal-method messages in scan order. */
  lemma {:induction false} ScanErrorOutput(all: seq<Method>, reg: Registry, ls: Build.Loggers, ms: seq<Method>)
    requires Valid(reg) && ls.error.enabled
    ensures Scan(all, reg, ls, ms).1.error.output == ls.error.output + IllegalMessages(ms)
    decreases |ms|
  {
    if ms == [] {
      assert ls.error.output + [] == ls.error.output;
    } else {
      var (reg', ls') := Step(all, reg, ls, ms[0]);
      var head := StepErrorOutput(all, reg, ls, ms[0]);
      ScanErrorOutput(all, reg', ls', ms[1..]);
      AppendAssoc(ls.error.output, head, IllegalMessages(ms[1..]));
    }
  }

  /** What one step appends to the error logger's output. */
  lemma StepErrorOutput(all: seq<Method>, reg: Registry, ls: Build.Loggers, m: Method) returns (head: seq<string>)
    requires Valid(reg) && ls.error.enabled
    ensures head == if Candidate(m) && !Legal(m) then [IllegalMessage(m)] else []
    ensures Step(all, reg, ls, m).1.error.output == ls.error.output + head
    ensures Step(all, reg, ls, m).1.error.enabled
  {
    head := if Candidate(m) && !Legal(m) then [IllegalMessage(m)] else [];
    if head == [] {
      assert ls.error.output + head == ls.error.output;
    }
  }

  lemma AppendAssoc(a: seq<string>, b: seq<string>, c: seq<string>)
    ensures a + b + c == a + (b + c)
  {
  }

  /**
   * `getTargets()`: scans every class from the concrete one upwards and fails
   * instead of returning the map when the error logger has been used.
   */
  function GetTargets(classes: seq<seq<Method>>, ls: Build.Loggers): (r: (Result<Registry, Build.Exception>, Build.Loggers))
    ensures r.0.Failure? <==> L.Used(ls.error) || IllegalMessages(Flatten(classes)) != []
    ensures r.0.Failure? ==> r.0.error == Build.Exception(Build.RuntimeError, "Illegal target method errors")
    ensures r.0.Success? ==> Valid(r.0.value)
    ensures r.1 == Scan(Flatten(classes), Empty(), ls, Flatten(classes)).1
  {
    var (reg, ls') := Scan(Flatten(classes), Empty(), ls, Flatten(classes));
    if L.Used(ls'.error) then (Failure(Build.Exception(Build.RuntimeError, "Illegal target method errors")), ls')
    else (Success(reg), ls')
  }

  // ---------------------------------------------------------------- last put wins

  /**
   * Reference definition of the entry kept under `k`: the target of the LAST
   * registered method named `k`, or what the map held before the scan.
   */
  function Winner(all: seq<Method>, table: map<string, Target>, ms: seq<Method>, k: string): Option<Target>
    decreases |ms|
  {
    if ms == [] then (if k in table then Some(table[k]) else None)
    else
      var m := ms[|ms| - 1];
      if Candidate(m) && Legal(m) && TargetName(m.name) == k then Some(TargetOf(all, m))
      else Winner(all, table, ms[..|ms| - 1], k)
  }

  /** Scanning one more method is one more step. */
  lemma {:induction false} ScanSnoc(all: seq<Method>, reg: Registry, ls: Build.Loggers, ms: seq<Method>, m: Method)
    requires Valid(reg)
    ensures Scan(all, reg, ls, ms + [m]) == Step(all, Scan(all, reg, ls, ms).0, Scan(all, reg, ls, ms).1, m)
    decreases |ms|
  {
    if ms == [] {
      assert ms + [m] == [m];
    } else {
      var (reg', ls') := Step(all, reg, ls, ms[0]);
      assert (ms + [m])[1..] == ms[1..] + [m];
      ScanSnoc(all, reg', ls', ms[1..], m);
    }
  }

  /** After the scan, each name maps to the target of the last registered method of that name. */
  lemma {:induction false} LastPutWins(all: seq<Method>, reg: Registry, ls: Build.Loggers, ms: seq<Method>, k: string)
    requires Valid(reg)
    ensures k in Scan(all, reg, ls, ms).0.table <==> Winner(all, reg.table, ms, k).Some?
    ensures k in Scan(all, reg, ls, ms).0.table ==>
      Scan(all, reg, ls, ms).0.table[k] == Winner(all, reg.table, ms, k).value
    decreases |ms|
  {
    if ms != [] {
      var init := ms[..|ms| - 1];
      var m := ms[|ms| - 1];
      assert ms == init + [m];
      ScanSnoc(all, reg, ls, init, m);
      LastPutWins(all, reg, ls, init, k);
    }
  }

  /** The registered names are exactly the earlier keys plus the names of the legal candidates. */
  lemma {:induction false} WinnerExists(all: seq<Method>, table: map<string, Target>, ms: seq<Method>, k: string)
    ensures Winner(all, table, ms, k).Some? <==>
      k in table || exists i :: 0 <= i < |ms| && Candidate(ms[i]) && Legal(ms[i]) && TargetName(ms[i].name) == k
    decreases |ms|
  {
    if ms != [] {
      var init := ms[..|ms| - 1];
      WinnerExists(all, table, init, k);
      assert forall i :: 0 <= i < |init| ==> init[i] == ms[i];
    }
  }

  /** `getTargets` fails exactly when some candidate is illegal, given the error logger was unused. */
  lemma GetTargetsFailsIffIllegal(classes: seq<seq<Method>>, ls: Build.Loggers)
    requires !L.Used(ls.error)
    ensures GetTargets(classes, ls).0.Failure? <==>
      exists i :: 0 <= i < |Flatten(classes)| && Candidate(Flatten(classes)[i]) && !Legal(Flatten(classes)[i])
  {
    IllegalMessagesNonEmpty(Flatten(classes));
  }

  lemma {:induction false} IllegalMessagesNonEmpty(ms: seq<Method>)
    ensures IllegalMessages(ms) != [] <==> exists i :: 0 <= i < |ms| && Candidate(ms[i]) && !Legal(ms[i])
    decreases |ms|
  {
    if ms != [] {
      IllegalMessagesNonEmpty(ms[1..]);
      assert forall i :: 1 <= i < |ms| ==> ms[i] == ms[1..][i - 1];
    }
  }

  /**
   * A target declared in the build class and again in its superclass is
   * registered from the superclass, which the scan meets last, so its
   * `@Depends` is the one that counts; when the subclass method overrides the
   * superclass one (same Java name, both overridable), invoking it runs the
   * subclass body.
   */
  lemma AncestorWins(mine: Method, theirs: Method, ls: Build.Loggers)
    requires Candidate(mine) && Legal(mine) && Candidate(theirs) && Legal(theirs)
    requires TargetName(mine.name) == TargetName(theirs.name)
    requires !L.Used(ls.error)
    ensures var n := TargetName(theirs.name);
      var body := if Dispatches(mine, theirs) && theirs.overridable then mine.failure else theirs.failure;
      GetTargets([[mine], [theirs]], ls).0 ==
        Success(Registry([n], map[n := Target(n, Dependencies(theirs), RunMethod(body))]))
  {
    var n := TargetName(theirs.name);
    var all := [mine, theirs];
    assert Flatten([[mine], [theirs]]) == all by {
      assert Flatten([[theirs]]) == [theirs] + Flatten([]);
    }
    var (r1, ls1) := Step(all, Empty(), ls, mine);
    assert r1 == Registry([n], map[n := TargetOf(all, mine)]);
    var (r2, ls2) := Step(all, r1, ls1, theirs);
    assert r2 == Registry([n], map[n := TargetOf(all, theirs)]);
    assert Scan(all, Empty(), ls, all) == Scan(all, r1, ls1, [theirs]);
    assert Scan(all, r1, ls1, [theirs]) == Scan(all, r2, ls2, []);
    assert !L.Used(ls2.error);
    if theirs.overridable && !Dispatches(mine, theirs) {
      assert FirstDispatch(all, theirs) == 1 by {
        assert all[1..] == [theirs];
      }
    }
  }

  /**
   * A subclass overriding a failing `makeFoo()` of its superclass with a method
   * annotated `@Depends("compile")` that completes: target `foo` keeps the
   * superclass's empty dependency list and runs the subclass body.
   */
  lemma OverrideExample(ls: Build.Loggers)
    requires !L.Used(ls.error)
    ensures var base := Method("public void Base.makeFoo()", "makeFoo", true, 0, true, None, Some("base"));
      var sub := Method("public void Sub.makeFoo()", "makeFoo", true, 0, true, Some("compile"), None);
      GetTargets([[sub], [base]], ls).0 ==
        Success(Registry(["foo"], map["foo" := Target("foo", [], RunMethod(None))]))
  {
    var base := Method("public void Base.makeFoo()", "makeFoo", true, 0, true, None, Some("base"));
    var sub := Method("public void Sub.makeFoo()", "makeFoo", true, 0, true, Some("compile"), None);
    assert StartsWith(sub.name, Prefix) && StartsWith(base.name, Prefix);
    assert TargetName(base.name) == "foo";
    AncestorWins(sub, base, ls);
  }
}
