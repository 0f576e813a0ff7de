/**
 * Properties of `TargetBuild.targets()`: the default target it synthesizes, the
 * validation that every declared dependency is a key, and the cache that makes
 * `getTargets` run at most once per build object.
 */
module TargetMap {
  import opened Wrappers
  import opened Targets
  import opened Build
  import opened TargetBuild
  import L = Logging
  import MT = MethodTargets

  // ---------------------------------------------------------------- the missing pairs

  /** `MissingOf` reports a pair exactly for a declared dependency that is not a key. */
  lemma {:induction false} MissingOfSpec(name: string, deps: seq<string>, table: map<string, Target>, p: (string, string))
    ensures p in MissingOf(name, deps, table) <==> p.0 == name && p.1 in deps && p.1 !in table
    decreases |deps|
  {
    if deps != [] {
      MissingOfSpec(name, deps[1..], table, p);
      assert deps == [deps[0]] + deps[1..];
    }
  }

  /**
   * Validation reports exactly the pairs (target, dependency) of a key and one of
   * its declared dependencies that is not a key.
   */
  lemma {:induction false} MissingPairsSpec(table: map<string, Target>, keys: seq<string>, p: (string, string))
    requires forall k :: k in keys ==> k in table
    ensures p in MissingPairs(table, keys) <==> p.0 in keys && p.1 in table[p.0].deps && p.1 !in table
    decreases |keys|
  {
    if keys != [] {
      MissingOfSpec(keys[0], table[keys[0]].deps, table, p);
      MissingPairsSpec(table, keys[1..], p);
      assert keys == [keys[0]] + keys[1..];
    }
  }

  /** A map has no missing pair exactly when every declared dependency is a key. */
  lemma ClosedIffNoneMissing(reg: Registry)
    requires Valid(reg)
    ensures Closed(reg) <==> MissingPairs(reg.table, reg.keys) == []
  {
    var ps := MissingPairs(reg.table, reg.keys);
    if Closed(reg) {
      if ps != [] {
        MissingPairsSpec(reg.table, reg.keys, ps[0]);
        assert false;
      }
    } else {
      var k, d :| k in reg.table && d in reg.table[k].deps && d !in reg.table;
      MissingPairsSpec(reg.table, reg.keys, (k, d));
    }
  }

  // ---------------------------------------------------------------- the first call of targets()

  /**
   * The first call of `targets()`: a failure of `getTargets` propagates and
   * nothing is cached; otherwise the map with the default target is cached
   * before validation, and the call fails exactly when some declared
   * dependency is not a key.
   */
  lemma Validation(s: Session)
    requires Consistent(s) && s.cache.None?
    ensures var got := MT.GetTargets(s.classes, s.loggers).0;
      var r := LoadTargets(s);
      && (got.Failure? ==> r.1 == Failure(got.error) && r.0.cache.None?)
      && (got.Success? ==>
            && r.0.cache == Some(WithDefault(got.value))
            && (r.1.Success? <==> Closed(WithDefault(got.value)))
            && (r.1.Failure? ==> r.1.error == Exception(RuntimeError, "Missing dependency errors")))
  {
    if MT.GetTargets(s.classes, s.loggers).0.Success? {
      ValidationVerdict(s);
    }
  }

  lemma ValidationVerdict(s: Session)
    requires Consistent(s) && s.cache.None?
    requires MT.GetTargets(s.classes, s.loggers).0.Success?
    ensures var reg := WithDefault(MT.GetTargets(s.classes, s.loggers).0.value);
      var r := LoadTargets(s);
      && r.0.cache == Some(reg)
      && (r.1.Success? <==> Closed(reg))
      && (r.1.Failure? ==> r.1.error == Exception(RuntimeError, "Missing dependency errors"))
  {
    GetTargetsQuiet(s.classes, s.loggers);
    ClosedIffNoneMissing(WithDefault(MT.GetTargets(s.classes, s.loggers).0.value));
  }

  /**
   * Validation logs one error per missing pair, in iteration order, and checks
   * every target before the call throws.
   */
  lemma ValidationLogs(s: Session)
    requires Consistent(s) && s.cache.None?
    requires MT.GetTargets(s.classes, s.loggers).0.Success?
    ensures var reg := WithDefault(MT.GetTargets(s.classes, s.loggers).0.value);
      var pairs := MissingPairs(reg.table, reg.keys);
      var r := LoadTargets(s);
      && r.0.loggers.error.uses == s.loggers.error.uses + |pairs|
      && (s.loggers.error.enabled ==>
            r.0.loggers.error.output == s.loggers.error.output + MissingMessages(pairs))
  {
    GetTargetsQuiet(s.classes, s.loggers);
  }

  /** A successful `getTargets` logged no error: the error logger is as it was, and unused. */
  lemma GetTargetsQuiet(classes: seq<seq<MT.Method>>, ls: Loggers)
    requires MT.GetTargets(classes, ls).0.Success?
    ensures var ls' := MT.GetTargets(classes, ls).1;
      && ls'.error.uses == ls.error.uses && !L.Used(ls'.error)
      && ls'.error.enabled == ls.error.enabled
      && (ls.error.enabled ==> ls'.error.output == ls.error.output)
  {
    assert MT.IllegalMessages(MT.Flatten(classes)) == [];
    MT.ScanKeepsLoggers(MT.Flatten(classes), Empty(), ls, MT.Flatten(classes));
    if ls.error.enabled {
      MT.ScanErrorOutput(MT.Flatten(classes), Empty(), ls, MT.Flatten(classes));
    }
  }

  /**
   * After `targets()` the map holds `<root>`: a user target of that name is kept
   * unchanged, and otherwise the synthesized one, with no dependencies, lists
   * the targets.
   */
  lemma DefaultTargetPresent(s: Session)
    requires Consistent(s) && s.cache.None?
    ensures var got := MT.GetTargets(s.classes, s.loggers).0;
      var r := LoadTargets(s);
      got.Success? ==>
        && r.0.cache.Some?
        && DefaultTarget in r.0.cache.value.table
        && r.0.cache.value.table[DefaultTarget] ==
             (if DefaultTarget in got.value.table then got.value.table[DefaultTarget] else DefaultEntry())
        && (DefaultTarget !in got.value.table ==>
              r.0.cache.value.table[DefaultTarget].deps == [] &&
              r.0.cache.value.table[DefaultTarget].body == ListTargets)
  {
  }

  /**
   * `getTargets` runs at most once per build object: once `targets()` has cached
   * a map (even one that failed validation), every later call returns it and
   * changes nothing.
   */
  lemma CachedAfterFirstCall(s: Session)
    requires Consistent(s)
    ensures var r := LoadTargets(s);
      r.0.cache.Some? ==> LoadTargets(r.0) == (r.0, Success(r.0.cache.value))
  {
  }

  /** A map that fails validation stays cached, so a second `targets()` call returns it without an error. */
  lemma FailedValidationStaysCached(s: Session)
    requires Consistent(s) && s.cache.None?
    requires MT.GetTargets(s.classes, s.loggers).0.Success?
    requires !Closed(WithDefault(MT.GetTargets(s.classes, s.loggers).0.value))
    ensures LoadTargets(s).1.Failure?
    ensures LoadTargets(LoadTargets(s).0).1 == Success(WithDefault(MT.GetTargets(s.classes, s.loggers).0.value))
  {
    Validation(s);
  }

  /**
   * `showTargets()`: the heading is logged before the map is fetched, so it is
   * there even when loading the map throws; when the map (cached or loaded by
   * this call) is at hand, one line per target follows in iteration order, and
   * nothing is thrown. A cached map is the one listed.
   */
  lemma ShowTargetsLists(s: Session)
    requires Consistent(s) && s.loggers.info.enabled
    ensures s.loggers.info.output + ["Available targets:"] <= ShowTargets(s).s.loggers.info.output
    ensures s.cache.Some? ==> LoadTargets(LogInfo(s, "Available targets:")).1 == Success(s.cache.value)
    ensures var got := LoadTargets(LogInfo(s, "Available targets:")).1;
      got.Success? ==>
        && ShowTargets(s).thrown.None?
        && ShowTargets(s).s.loggers.info.output ==
             s.loggers.info.output + ["Available targets:"] + TargetLines(Values(got.value))
        && (forall i :: 0 <= i < |got.value.keys| ==> TargetLines(Values(got.value))[i] == "  " + got.value.keys[i])
  {
    var s1 := LogInfo(s, "Available targets:");
    if s.cache.Some? {
      assert LoadTargets(s1) == (s1, Success(s.cache.value));
    }
  }
}
