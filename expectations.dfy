// The two-file view of the layout-test expectations (`TestExpectations` in
// webkit/tools/layout_tests/layout_package/test_expectations.py): the
// fixable and the ignored file are read, every test skipped in either is
// pruned from both, the two must not share a test and no ignored test may be
// expected to crash; the query methods are set algebra over the two stores.
module LayoutExpectations {
  import opened Common
  import opened ExpectationsParser
  import opened ExpectationsStore

  const FixableFile := "tests_fixable.txt"
  const IgnoredFile := "tests_ignored.txt"

  /** The two files once loaded. */
  datatype TestExpectations = TestExpectations(fixable: Store, ignored: Store)

  /** Why construction fails: a syntax error in either file, or one of the
      two assertions of `_ValidateLists`. */
  datatype LoadError =
    | BadSyntax(message: string)
    | Overlap(tests: set<string>)
    | IgnoredCrash(tests: set<string>)

  ghost predicate Valid(x: TestExpectations)
  {
    Consistent(x.fixable) && Consistent(x.ignored)
  }

  function Tests(s: Store): set<string>
  {
    s.expectations.Keys
  }

  /** What a successful load guarantees: both files are consistent, no test
      skipped in either has a record or a bucket entry in either, the files
      share no test, and no ignored test is expected to crash. */
  ghost predicate Loaded(x: TestExpectations)
  {
    && Valid(x)
    && (forall t :: t in x.fixable.skipped + x.ignored.skipped ==>
          && t !in x.fixable.expectations && t !in x.ignored.expectations
          && (forall e :: e in AllOutcomes ==> t !in x.fixable.tests[e] && t !in x.ignored.tests[e]))
    && Tests(x.fixable) * Tests(x.ignored) == {}
    && (forall t :: t in x.ignored.expectations ==> CRASH !in x.ignored.expectations[t])
  }

  // ---------------------------------------------------------------------------
  // Construction: _ReadFiles and _ValidateLists

  /** `_ReadFiles` followed by `_ValidateLists`, with the two files' lines given. */
  function LoadSpec(directory: string, fixableLines: seq<string>, ignoredLines: seq<string>,
                    universe: seq<string>, buildType: string, env: Env): Result<TestExpectations, LoadError>
  {
    match ReadFrom(EmptyStore(), fixableLines, 0, PathJoin(directory, FixableFile), buildType, env, universe)
    case Failure(m) => Failure(BadSyntax(m))
    case Success(f) =>
      match ReadFrom(EmptyStore(), ignoredLines, 0, PathJoin(directory, IgnoredFile), buildType, env, universe)
      case Failure(m) => Failure(BadSyntax(m))
      case Success(g) => Combine(f, g)
  }

  /** The rest of `_ReadFiles`, then `_ValidateLists`: a test skipped in
      either file is pruned from both. */
  function Combine(f: Store, g: Store): Result<TestExpectations, LoadError>
  {
    Validate(Prune(f, f.skipped + g.skipped), Prune(g, f.skipped + g.skipped))
  }

  /** `_ValidateLists`. */
  function Validate(f: Store, g: Store): Result<TestExpectations, LoadError>
  {
    var overlap := Tests(f) * Tests(g);
    if overlap != {} then Failure(Overlap(overlap))
    else if CRASH in g.tests && g.tests[CRASH] != {} then Failure(IgnoredCrash(g.tests[CRASH]))
    else Success(TestExpectations(f, g))
  }

  /** A successful load gives everything `Loaded` states. */
  lemma LoadGuarantees(directory: string, fixableLines: seq<string>, ignoredLines: seq<string>,
                       universe: seq<string>, buildType: string, env: Env)
    ensures var r := LoadSpec(directory, fixableLines, ignoredLines, universe, buildType, env);
      r.Success? ==> Loaded(r.value)
  {
    var fFile := PathJoin(directory, FixableFile);
    var gFile := PathJoin(directory, IgnoredFile);
    ReadFromConsistent(EmptyStore(), fixableLines, 0, fFile, buildType, env, universe);
    ReadFromConsistent(EmptyStore(), ignoredLines, 0, gFile, buildType, env, universe);
    var rf := ReadFrom(EmptyStore(), fixableLines, 0, fFile, buildType, env, universe);
    var rg := ReadFrom(EmptyStore(), ignoredLines, 0, gFile, buildType, env, universe);
    if rf.Success? && rg.Success? {
      CombineGuarantees(rf.value, rg.value);
    }
  }

  lemma CombineGuarantees(f: Store, g: Store)
    requires Consistent(f) && Consistent(g)
    ensures var r := Combine(f, g);
      r.Success? ==>
        var x := r.value;
        && Valid(x)
        && (forall t :: t in x.fixable.skipped + x.ignored.skipped ==>
              && t !in x.fixable.expectations && t !in x.ignored.expectations
              && (forall e :: e in AllOutcomes ==> t !in x.fixable.tests[e] && t !in x.ignored.tests[e]))
        && Tests(x.fixable) * Tests(x.ignored) == {}
        && (forall t :: t in x.ignored.expectations ==> CRASH !in x.ignored.expectations[t])
  {
    var skipped := f.skipped + g.skipped;
    PruneSpec(f, skipped);
    PruneSpec(g, skipped);
    var g' := Prune(g, skipped);
    forall t | t in g'.expectations && Combine(f, g).Success?
      ensures CRASH !in g'.expectations[t]
    {
      assert CRASH in g'.tests;
      assert g'.tests[CRASH] == {};
      assert g'.tests[CRASH] == Bucket(g'.expectations, CRASH);
      assert t !in Bucket(g'.expectations, CRASH);
    }
  }

  // ---------------------------------------------------------------------------
  // Queries

  function GetFixable(x: TestExpectations): set<string>
  {
    Tests(x.fixable) - x.fixable.nonSkippedDeferred - x.fixable.skippedDeferred
  }

  /** The tests the fixable file skips: they include the skipped deferred
      ones, and after a load none of them is fixable, deferred or ignored. */
  function GetFixableSkipped(x: TestExpectations): (r: set<string>)
    ensures Valid(x) ==> GetFixableSkippedDeferred(x) <= r
    ensures Loaded(x) ==> forall t :: t in r ==> !IsFixable(x, t) && !IsDeferred(x, t) && !IsIgnored(x, t)
  {
    x.fixable.skipped
  }

  function GetFixableSkippedDeferred(x: TestExpectations): set<string> { x.fixable.skippedDeferred }

  function GetFixableFailures(x: TestExpectations): set<string>
    requires Valid(x)
  {
    x.fixable.tests[FAIL] - x.fixable.tests[TIMEOUT] - x.fixable.tests[CRASH] - x.fixable.nonSkippedDeferred
  }

  function GetFixableTimeouts(x: TestExpectations): set<string>
    requires Valid(x)
  {
    x.fixable.tests[TIMEOUT] - x.fixable.tests[CRASH] - x.fixable.nonSkippedDeferred
  }

  function GetFixableCrashes(x: TestExpectations): set<string>
    requires Valid(x)
  {
    x.fixable.tests[CRASH]
  }

  function GetFixableDeferred(x: TestExpectations): set<string> { x.fixable.nonSkippedDeferred }

  function GetFixableDeferredFailures(x: TestExpectations): set<string>
    requires Valid(x)
  {
    x.fixable.nonSkippedDeferred * x.fixable.tests[FAIL]
  }

  function GetFixableDeferredTimeouts(x: TestExpectations): set<string>
    requires Valid(x)
  {
    x.fixable.nonSkippedDeferred * x.fixable.tests[TIMEOUT]
  }

  function GetIgnored(x: TestExpectations): set<string> { Tests(x.ignored) }

  /** The tests the ignored file skips: after a load none of them is fixable,
      deferred or ignored. */
  function GetIgnoredSkipped(x: TestExpectations): (r: set<string>)
    ensures Loaded(x) ==> forall t :: t in r ==> !IsFixable(x, t) && !IsDeferred(x, t) && !IsIgnored(x, t)
  {
    x.ignored.skipped
  }

  function GetIgnoredFailures(x: TestExpectations): set<string>
    requires Valid(x)
  {
    x.ignored.tests[FAIL] - x.ignored.tests[TIMEOUT]
  }

  function GetIgnoredTimeouts(x: TestExpectations): set<string>
    requires Valid(x)
  {
    x.ignored.tests[TIMEOUT]
  }

  /** The recorded outcomes, the fixable file first; a test in neither file
      is expected to pass and nothing else. */
  function GetExpectations(x: TestExpectations, test: string): set<Outcome>
  {
    if test in x.fixable.expectations then x.fixable.expectations[test]
    else if test in x.ignored.expectations then x.ignored.expectations[test]
    else {PASS}
  }

  /** A fixable test takes its expectations from the fixable file and is
      not deferred; after a load the fixable tests are exactly `GetFixable`. */
  function IsFixable(x: TestExpectations, test: string): (r: bool)
    ensures r ==> test in x.fixable.expectations && !IsDeferred(x, test)
    ensures r ==> GetExpectations(x, test) == x.fixable.expectations[test]
    ensures Loaded(x) ==> (r <==> test in GetFixable(x))
  {
    test in x.fixable.expectations && test !in x.fixable.nonSkippedDeferred
  }

  /** A deferred test takes its expectations from the fixable file but is
      counted neither in `GetFixable` nor among the fixable failures and
      timeouts; it is one of `GetFixableDeferred`. */
  function IsDeferred(x: TestExpectations, test: string): (r: bool)
    ensures r ==> test in x.fixable.expectations
    ensures r ==> GetExpectations(x, test) == x.fixable.expectations[test]
    ensures r ==> test in GetFixableDeferred(x) && test !in GetFixable(x)
    ensures r && Valid(x) ==> test !in GetFixableFailures(x) && test !in GetFixableTimeouts(x)
  {
    test in x.fixable.expectations && test in x.fixable.nonSkippedDeferred
  }

  /** After a load an ignored test is neither fixable nor deferred, takes its
      expectations from the ignored file and is never expected to crash. */
  function IsIgnored(x: TestExpectations, test: string): (r: bool)
    ensures Loaded(x) && r ==>
      && test !in x.fixable.expectations && test in x.ignored.expectations
      && GetExpectations(x, test) == x.ignored.expectations[test]
      && CRASH !in GetExpectations(x, test)
  {
    assert Loaded(x) && test in x.ignored.expectations ==> test !in x.fixable.expectations by {
      if Loaded(x) && test in x.ignored.expectations {
        assert test !in Tests(x.fixable) * Tests(x.ignored);
      }
    }
    test in x.ignored.expectations
  }

  /** A test listed in neither file is expected only to pass, and a listed test
      is never expected only to pass. */
  lemma ExpectationsDefault(x: TestExpectations, test: string)
    requires Valid(x)
    ensures GetExpectations(x, test) == {PASS} <==>
      test !in x.fixable.expectations && test !in x.ignored.expectations
  {
  }

  /** A test is never both fixable and deferred; a fixable-file test is one
      of the two. */
  lemma FixableOrDeferred(x: TestExpectations, test: string)
    ensures !(IsFixable(x, test) && IsDeferred(x, test))
    ensures test in x.fixable.expectations <==> IsFixable(x, test) || IsDeferred(x, test)
  {
  }

  /** What the fixable categories mean in terms of the recorded outcome sets:
      a crash wins over a timeout, which wins over a failure, and deferred
      tests are counted in none of the last two. */
  lemma FixableCategories(x: TestExpectations, t: string)
    requires Valid(x)
    ensures t in GetFixableCrashes(x) <==>
      t in x.fixable.expectations && CRASH in x.fixable.expectations[t]
    ensures t in GetFixableTimeouts(x) <==>
      && t in x.fixable.expectations && t !in x.fixable.nonSkippedDeferred
      && TIMEOUT in x.fixable.expectations[t] && CRASH !in x.fixable.expectations[t]
    ensures t in GetFixableFailures(x) <==>
      && t in x.fixable.expectations && t !in x.fixable.nonSkippedDeferred
      && FAIL in x.fixable.expectations[t] && TIMEOUT !in x.fixable.expectations[t]
      && CRASH !in x.fixable.expectations[t]
    ensures t in GetFixableDeferredFailures(x) <==>
      IsDeferred(x, t) && FAIL in x.fixable.expectations[t]
    ensures t in GetFixableDeferredTimeouts(x) <==>
      IsDeferred(x, t) && TIMEOUT in x.fixable.expectations[t]
  {
    assert x.fixable.tests[CRASH] == Bucket(x.fixable.expectations, CRASH);
    assert x.fixable.tests[TIMEOUT] == Bucket(x.fixable.expectations, TIMEOUT);
    assert x.fixable.tests[FAIL] == Bucket(x.fixable.expectations, FAIL);
  }

  /** The crash, timeout and failure categories of the fixable file never
      share a test. */
  lemma FixableCategoriesDisjoint(x: TestExpectations)
    requires Valid(x)
    ensures GetFixableCrashes(x) * GetFixableTimeouts(x) == {}
    ensures GetFixableCrashes(x) * GetFixableFailures(x) == {}
    ensures GetFixableTimeouts(x) * GetFixableFailures(x) == {}
  {
  }

  /** What the ignored categories mean in terms of the recorded outcome sets. */
  lemma IgnoredCategories(x: TestExpectations, t: string)
    requires Valid(x)
    ensures t in GetIgnoredTimeouts(x) <==>
      t in x.ignored.expectations && TIMEOUT in x.ignored.expectations[t]
    ensures t in GetIgnoredFailures(x) <==>
      t in x.ignored.expectations && FAIL in x.ignored.expectations[t]
      && TIMEOUT !in x.ignored.expectations[t]
  {
    assert x.ignored.tests[TIMEOUT] == Bucket(x.ignored.expectations, TIMEOUT);
    assert x.ignored.tests[FAIL] == Bucket(x.ignored.expectations, FAIL);
  }

  // ---------------------------------------------------------------------------
  // The constructor

  /** `TestExpectations.__init__`: read both files into fresh file objects,
      prune the skipped tests from both, then validate. */
  method Load(directory: string, fixableLines: seq<string>, ignoredLines: seq<string>,
              universe: seq<string>, buildType: string, env: Env)
    returns (r: Result<TestExpectations, LoadError>)
    ensures r == LoadSpec(directory, fixableLines, ignoredLines, universe, buildType, env)
  {
    var fixable := new TestExpectationsFile(universe);
    var err := fixable.Read(fixableLines, PathJoin(directory, FixableFile), buildType, env);
    if err.Some? {
      return Failure(BadSyntax(err.value));
    }
    var ignored := new TestExpectationsFile(universe);
    err := ignored.Read(ignoredLines, PathJoin(directory, IgnoredFile), buildType, env);
    if err.Some? {
      return Failure(BadSyntax(err.value));
    }
    var skipped := fixable.skipped + ignored.skipped;
    fixable.PruneSkipped(skipped);
    ignored.PruneSkipped(skipped);
    var overlap := fixable.GetTests() * ignored.GetTests();
    if overlap != {} {
      return Failure(Overlap(overlap));
    }
    if ignored.tests[CRASH] != {} {
      return Failure(IgnoredCrash(ignored.tests[CRASH]));
    }
    return Success(TestExpectations(fixable.State(), ignored.State()));
  }
}
