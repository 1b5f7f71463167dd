// One layout-test expectation file (`TestExpectationsFile` in
// webkit/tools/layout_tests/layout_package/test_expectations.py): its state
// as a value, the specification of every operation that changes it, the
// invariant those operations keep, and the class whose methods update the
// fields in place as the Python object does.
module ExpectationsStore {
  import opened Common
  import opened ExpectationsParser

  /** The fields of a `TestExpectationsFile`. */
  datatype Store = Store(
    expectations: map<string, set<Outcome>>,   // _expectations
    testListPaths: map<string, string>,        // _test_list_paths
    skipped: set<string>,                      // _skipped
    skippedDeferred: set<string>,              // _skipped_deferred
    nonSkippedDeferred: set<string>,           // _non_skipped_deferred
    tests: map<Outcome, set<string>>)          // _tests, the inverse index

  /** A freshly constructed file: nothing recorded, one empty bucket per outcome. */
  function EmptyStore(): (s: Store)
    ensures Consistent(s)
    ensures s.tests.Keys == AllOutcomes && forall e :: e in s.tests ==> s.tests[e] == {}
  {
    Store(map[], map[], {}, {}, {}, map e | e in AllOutcomes :: {})
  }

  /** The tests whose recorded outcome set contains `e`. */
  function Bucket(expectations: map<string, set<Outcome>>, e: Outcome): set<string>
  {
    set t | t in expectations && e in expectations[t]
  }

  /** What `TestExpectationsFile` keeps true between operations: the inverse
      index agrees with the outcome map, no record is exactly {PASS}, every
      record and every deferred test has a source path, and skipped-deferred
      tests are skipped. */
  ghost predicate Consistent(s: Store)
  {
    && s.tests.Keys == AllOutcomes
    && (forall e :: e in s.tests ==> s.tests[e] == Bucket(s.expectations, e))
    && (forall t :: t in s.expectations ==> s.expectations[t] != {PASS})
    && s.expectations.Keys <= s.testListPaths.Keys
    && s.nonSkippedDeferred <= s.testListPaths.Keys
    && s.skippedDeferred <= s.skipped
  }

  function SetOf(names: seq<string>): set<string>
  {
    set i | 0 <= i < |names| :: names[i]
  }

  // ---------------------------------------------------------------------------
  // _AddTests

  /** One iteration of the loop in `_AddTests`: a test already recorded under
      the same (normalised) path is an error naming the test; a test whose
      recorded path starts with the raw new path keeps its record; otherwise
      the old record is dropped from the deferred set and every bucket, and
      the new one is stored. */
  function RecordTest(s: Store, test: string, outcomes: set<Outcome>, path: string,
                   normPath: string, isDeferred: bool): Result<Store, string>
  {
    if test in s.testListPaths && s.testListPaths[test] == normPath then Failure(test)
    else if test in s.testListPaths && StartsWith(s.testListPaths[test], path) then Success(s)
    else
      var seen := test in s.testListPaths;
      var deferred := if seen then s.nonSkippedDeferred - {test} else s.nonSkippedDeferred;
      Success(s.(
        expectations := s.expectations[test := outcomes],
        testListPaths := s.testListPaths[test := normPath],
        nonSkippedDeferred := if isDeferred then deferred + {test} else deferred,
        tests := map e | e in s.tests ::
                   (if seen then s.tests[e] - {test} else s.tests[e])
                   + (if e in outcomes then {test} else {})))
  }

  /** The loop of `_AddTests` from position `i` of `names` on. */
  function RecordEach(s: Store, names: seq<string>, i: nat, outcomes: set<Outcome>,
                   path: string, normPath: string, isDeferred: bool): Result<Store, string>
    requires i <= |names|
    decreases |names| - i
  {
    if i == |names| then Success(s)
    else match RecordTest(s, names[i], outcomes, path, normPath, isDeferred)
      case Failure(t) => Failure(t)
      case Success(s') => RecordEach(s', names, i + 1, outcomes, path, normPath, isDeferred)
  }

  /** `_AddTests`: a directive expecting only PASS records nothing. */
  function RecordTests(s: Store, names: seq<string>, outcomes: set<Outcome>,
                    path: string, normPath: string, isDeferred: bool): Result<Store, string>
  {
    if outcomes == {PASS} then Success(s)
    else RecordEach(s, names, 0, outcomes, path, normPath, isDeferred)
  }

  /** A replacement keeps the store consistent. */
  lemma AddTestKeepsConsistent(s: Store, test: string, outcomes: set<Outcome>, path: string,
                               normPath: string, isDeferred: bool)
    requires Consistent(s) && outcomes != {PASS}
    requires !(test in s.testListPaths && s.testListPaths[test] == normPath)
    requires !(test in s.testListPaths && StartsWith(s.testListPaths[test], path))
    ensures RecordTest(s, test, outcomes, path, normPath, isDeferred).Success?
    ensures Consistent(RecordTest(s, test, outcomes, path, normPath, isDeferred).value)
  {
    var s' := RecordTest(s, test, outcomes, path, normPath, isDeferred).value;
    forall e | e in s'.tests
      ensures s'.tests[e] == Bucket(s'.expectations, e)
    {
      assert test in s.tests[e] ==> test in s.testListPaths;
    }
  }

  /** A successful replacement keeps the store consistent and leaves the test
      in exactly the buckets of its new outcomes, deferred iff the directive
      is, and with the new normalised path. */
  lemma AddTestReplaces(s: Store, test: string, outcomes: set<Outcome>, path: string,
                        normPath: string, isDeferred: bool)
    requires Consistent(s) && outcomes != {PASS}
    requires !(test in s.testListPaths && s.testListPaths[test] == normPath)
    requires !(test in s.testListPaths && StartsWith(s.testListPaths[test], path))
    ensures RecordTest(s, test, outcomes, path, normPath, isDeferred).Success?
    ensures var s' := RecordTest(s, test, outcomes, path, normPath, isDeferred).value;
      && Consistent(s')
      && s'.expectations[test] == outcomes
      && s'.testListPaths[test] == normPath
      && (test in s'.nonSkippedDeferred <==> isDeferred)
      && (forall e :: e in s'.tests ==> (test in s'.tests[e] <==> e in outcomes))
      && (forall t :: t != test ==>
            && (t in s'.expectations <==> t in s.expectations)
            && (t in s.expectations ==> s'.expectations[t] == s.expectations[t])
            && (t in s'.nonSkippedDeferred <==> t in s.nonSkippedDeferred))
      && s'.skipped == s.skipped && s'.skippedDeferred == s.skippedDeferred
  {
    AddTestKeepsConsistent(s, test, outcomes, path, normPath, isDeferred);
  }

  /** Every outcome of `_AddTests` on a consistent store is consistent, and
      only the listed tests' records can change. */
  lemma {:induction false} AddEachConsistent(s: Store, names: seq<string>, i: nat,
                                             outcomes: set<Outcome>, path: string,
                                             normPath: string, isDeferred: bool)
    requires i <= |names|
    requires Consistent(s) && outcomes != {PASS}
    ensures var r := RecordEach(s, names, i, outcomes, path, normPath, isDeferred);
      r.Success? ==>
        && Consistent(r.value)
        && r.value.skipped == s.skipped && r.value.skippedDeferred == s.skippedDeferred
        && (forall t :: t !in names[i..] ==>
              && (t in r.value.expectations <==> t in s.expectations)
              && (t in s.expectations ==> r.value.expectations[t] == s.expectations[t])
              && (t in r.value.nonSkippedDeferred <==> t in s.nonSkippedDeferred))
    decreases |names| - i
  {
    if i < |names| {
      var test := names[i];
      var step := RecordTest(s, test, outcomes, path, normPath, isDeferred);
      if step.Success? {
        if !(test in s.testListPaths && StartsWith(s.testListPaths[test], path)) {
          AddTestReplaces(s, test, outcomes, path, normPath, isDeferred);
        }
        AddEachConsistent(step.value, names, i + 1, outcomes, path, normPath, isDeferred);
        assert names[i..] == [test] + names[i + 1..];
      }
    }
  }

  lemma AddTestsConsistent(s: Store, names: seq<string>, outcomes: set<Outcome>,
                           path: string, normPath: string, isDeferred: bool)
    requires Consistent(s)
    ensures var r := RecordTests(s, names, outcomes, path, normPath, isDeferred);
      r.Success? ==> Consistent(r.value)
  {
    if outcomes != {PASS} {
      AddEachConsistent(s, names, 0, outcomes, path, normPath, isDeferred);
    }
  }

  /** Precedence among directives: listing a test twice under the same path is
      rejected naming that test, and a test already recorded under a path that
      starts with the new one keeps its earlier, more specific record. */
  lemma AddTestPrecedence(s: Store, test: string, outcomes: set<Outcome>, path: string,
                          normPath: string, isDeferred: bool)
    requires test in s.testListPaths
    ensures s.testListPaths[test] == normPath ==>
      RecordTest(s, test, outcomes, path, normPath, isDeferred) == Failure(test)
    ensures s.testListPaths[test] != normPath && StartsWith(s.testListPaths[test], path) ==>
      RecordTest(s, test, outcomes, path, normPath, isDeferred) == Success(s)
  {
  }

  /** A PASS-only directive leaves the store exactly as it was. */
  lemma PassOnlyRecordsNothing(s: Store, names: seq<string>, path: string, normPath: string,
                               isDeferred: bool)
    ensures RecordTests(s, names, {PASS}, path, normPath, isDeferred) == Success(s)
  {
  }

  // ---------------------------------------------------------------------------
  // _AddSkippedTests and PruneSkipped

  /** `_AddSkippedTests`: the tests join `_skipped`, and `_skipped_deferred`
      too when the directive defers them; nothing else changes. */
  function AddSkipped(s: Store, names: seq<string>, isDeferred: bool): (r: Store)
    ensures Consistent(s) ==> Consistent(r)
  {
    s.(skipped := s.skipped + SetOf(names),
       skippedDeferred := if isDeferred then s.skippedDeferred + SetOf(names) else s.skippedDeferred)
  }

  /** `PruneSkipped`: every skipped test with a record loses it and leaves its
      buckets; `_test_list_paths` and the skip/defer sets are untouched. */
  function Prune(s: Store, skipped: set<string>): Store
  {
    s.(expectations := map t | t in s.expectations && t !in skipped :: s.expectations[t],
       tests := map e | e in s.tests :: s.tests[e] - skipped)
  }

  /** Pruning keeps the store consistent, removes every skipped test from the
      records and the buckets, keeps the other records, and changes nothing
      but `_expectations` and `_tests`. */
  lemma PruneSpec(s: Store, skipped: set<string>)
    requires Consistent(s)
    ensures var r := Prune(s, skipped);
      && Consistent(r)
      && (forall t :: t in r.expectations <==> t in s.expectations && t !in skipped)
      && (forall t :: t in r.expectations ==> r.expectations[t] == s.expectations[t])
      && (forall e, t :: e in r.tests && t in skipped ==> t !in r.tests[e])
      && r.testListPaths == s.testListPaths && r.skipped == s.skipped
      && r.skippedDeferred == s.skippedDeferred && r.nonSkippedDeferred == s.nonSkippedDeferred
  {
    var r := Prune(s, skipped);
    forall e | e in r.tests
      ensures r.tests[e] == Bucket(r.expectations, e)
    {
      assert s.tests[e] == Bucket(s.expectations, e);
    }
  }

  // ---------------------------------------------------------------------------
  // _ExpandTests

  /** The environment `_ExpandTests` consults: `path_utils.LayoutDataDir()`,
      `os.path.normpath` and `os.path.isdir`. */
  datatype Env = Env(layoutDataDir: string, normpath: string -> string, isDir: string -> bool)

  /** POSIX `os.path.join(a, b)`. */
  function PathJoin(a: string, b: string): (r: string)
    ensures StartsWith(b, "/") ==> r == b
    ensures !StartsWith(b, "/") ==> EndsWith(r, b)
  {
    if StartsWith(b, "/") then b
    else if a == "" || EndsWith(a, "/") then a + b
    else a + "/" + b
  }

  /** The prefix a test-list path selects: the normalised absolute path, with
      a trailing separator when it names a directory. */
  function ExpandPrefix(env: Env, path: string): (r: string)
    ensures var p := env.normpath(PathJoin(env.layoutDataDir, path));
      env.isDir(p) && p != "" ==> EndsWith(r, "/")
  {
    var p := env.normpath(PathJoin(env.layoutDataDir, path));
    if env.isDir(p) then PathJoin(p, "") else p
  }

  /** The tests of `universe` from index `i` on that start with `prefix`, in order. */
  function Filter(universe: seq<string>, prefix: string, i: nat): (r: seq<string>)
    requires i <= |universe|
    decreases |universe| - i
  {
    if i == |universe| then []
    else if StartsWith(universe[i], prefix) then [universe[i]] + Filter(universe, prefix, i + 1)
    else Filter(universe, prefix, i + 1)
  }

  /** The filter keeps exactly the tests that start with the prefix. */
  lemma {:induction false} FilterMembers(universe: seq<string>, prefix: string, i: nat)
    requires i <= |universe|
    ensures forall t :: t in Filter(universe, prefix, i) <==> t in universe[i..] && StartsWith(t, prefix)
    decreases |universe| - i
  {
    if i < |universe| {
      FilterMembers(universe, prefix, i + 1);
      assert universe[i..] == [universe[i]] + universe[i + 1..];
    }
  }

  /** Universe positions listed in strictly increasing order, each at least `lo`. */
  ghost predicate Ascending(idx: seq<nat>, lo: nat, bound: nat)
  {
    && (forall k :: 0 <= k < |idx| ==> lo <= idx[k] < bound)
    && (forall k, l :: 0 <= k < l < |idx| ==> idx[k] < idx[l])
  }

  /** The filter keeps universe order: its k-th test is the universe's test at
      the k-th of a strictly increasing list of positions. */
  lemma {:induction false} FilterOrder(universe: seq<string>, prefix: string, i: nat)
      returns (idx: seq<nat>)
    requires i <= |universe|
    ensures |idx| == |Filter(universe, prefix, i)| && Ascending(idx, i, |universe|)
    ensures forall k :: 0 <= k < |idx| ==> Filter(universe, prefix, i)[k] == universe[idx[k]]
    decreases |universe| - i
  {
    if i == |universe| {
      idx := [];
    } else {
      var rest := FilterOrder(universe, prefix, i + 1);
      if StartsWith(universe[i], prefix) {
        idx := [i] + rest;
        assert forall k :: 0 < k < |idx| ==> idx[k] == rest[k - 1];
      } else {
        idx := rest;
      }
    }
  }

  /** `_ExpandTests` over a directory never selects a sibling whose name only
      shares a prefix with it: with `dir` a normalised directory path without
      a trailing separator, a test continuing `dir` with another character is
      not selected. */
  lemma SiblingNotExpanded(env: Env, universe: seq<string>, path: string, test: string)
    requires env.isDir(env.normpath(PathJoin(env.layoutDataDir, path)))
    requires var dir := env.normpath(PathJoin(env.layoutDataDir, path));
      dir != "" && !EndsWith(dir, "/") && |dir| < |test| && test[..|dir|] == dir && test[|dir|] != '/'
    ensures test !in Filter(universe, ExpandPrefix(env, path), 0)
  {
    FilterMembers(universe, ExpandPrefix(env, path), 0);
    var dir := env.normpath(PathJoin(env.layoutDataDir, path));
    assert ExpandPrefix(env, path) == dir + "/";
  }

  // ---------------------------------------------------------------------------
  // _Read

  /** `_ReportSyntaxError`'s message: `path:lineno: message`. */
  function SyntaxError(path: string, lineno: nat, message: string): string
  {
    path + ":" + NatToString(lineno) + ": " + message
  }

  const AlreadySeen := "Already seen expectations for path "

  /** What `_Read` does with the parse of one non-blank line: errors are
      tagged with the file and line number, a line of another build type
      changes nothing, and a directive skips or records the tests its path
      selects. */
  function ApplyParsed(s: Store, parsed: Result<Option<Directive>, LineError>, lineno: nat,
                       file: string, env: Env, universe: seq<string>): Result<Store, string>
  {
    match parsed
    case Failure(e) => Failure(SyntaxError(file, lineno, ErrorMessage(e)))
    case Success(None) => Success(s)
    case Success(Some(Skip(path, isDeferred))) =>
      Success(AddSkipped(s, Filter(universe, ExpandPrefix(env, path), 0), isDeferred))
    case Success(Some(Expect(path, isDeferred, outcomes))) =>
      match RecordTests(s, Filter(universe, ExpandPrefix(env, path), 0), outcomes, path,
                        env.normpath(path), isDeferred)
      case Failure(test) => Failure(SyntaxError(file, lineno, AlreadySeen + test))
      case Success(s') => Success(s')
  }

  /** One line of `_Read`: blank and comment-only lines change nothing. */
  function ApplyLine(s: Store, line: string, lineno: nat, file: string, buildType: string,
                     env: Env, universe: seq<string>): Result<Store, string>
  {
    match StripComments(line)
    case None => Success(s)
    case Some(text) => ApplyParsed(s, ParseLine(text, buildType), lineno, file, env, universe)
  }

  /** `_Read` from line index `i` on (line numbers count from 1). */
  function ReadFrom(s: Store, lines: seq<string>, i: nat, file: string, buildType: string,
                    env: Env, universe: seq<string>): Result<Store, string>
    requires i <= |lines|
    decreases |lines| - i
  {
    if i == |lines| then Success(s)
    else match ApplyLine(s, lines[i], i + 1, file, buildType, env, universe)
      case Failure(m) => Failure(m)
      case Success(s') => ReadFrom(s', lines, i + 1, file, buildType, env, universe)
  }

  lemma ApplyParsedConsistent(s: Store, parsed: Result<Option<Directive>, LineError>, lineno: nat,
                              file: string, env: Env, universe: seq<string>)
    requires Consistent(s)
    ensures var r := ApplyParsed(s, parsed, lineno, file, env, universe);
      r.Success? ==> Consistent(r.value)
  {
    if parsed.Success? && parsed.value.Some? && parsed.value.value.Expect? {
      var Expect(path, isDeferred, outcomes) := parsed.value.value;
      AddTestsConsistent(s, Filter(universe, ExpandPrefix(env, path), 0), outcomes, path,
                         env.normpath(path), isDeferred);
    }
  }

  lemma ApplyLineConsistent(s: Store, line: string, lineno: nat, file: string, buildType: string,
                            env: Env, universe: seq<string>)
    requires Consistent(s)
    ensures var r := ApplyLine(s, line, lineno, file, buildType, env, universe);
      r.Success? ==> Consistent(r.value)
  {
    match StripComments(line)
    case None =>
    case Some(text) =>
      ApplyParsedConsistent(s, ParseLine(text, buildType), lineno, file, env, universe);
  }

  /** Reading a file from a consistent store (in particular the empty one)
      yields a consistent store. */
  lemma {:induction false} ReadFromConsistent(s: Store, lines: seq<string>, i: nat, file: string,
                                              buildType: string, env: Env, universe: seq<string>)
    requires i <= |lines|
    requires Consistent(s)
    ensures var r := ReadFrom(s, lines, i, file, buildType, env, universe);
      r.Success? ==> Consistent(r.value)
    decreases |lines| - i
  {
    if i < |lines| {
      ApplyLineConsistent(s, lines[i], i + 1, file, buildType, env, universe);
      var step := ApplyLine(s, lines[i], i + 1, file, buildType, env, universe);
      if step.Success? {
        ReadFromConsistent(step.value, lines, i + 1, file, buildType, env, universe);
      }
    }
  }

  /** A skip directive only adds the selected tests to the skipped set (and to
      the skipped-deferred set when deferred), and never fails. */
  lemma SkipOnlySkips(s: Store, lineno: nat, file: string, env: Env, universe: seq<string>,
                      path: string, isDeferred: bool)
    ensures var r := ApplyParsed(s, Success(Some(Skip(path, isDeferred))), lineno, file, env, universe);
      var selected := SetOf(Filter(universe, ExpandPrefix(env, path), 0));
      && r.Success?
      && r.value.skipped == s.skipped + selected
      && r.value.skippedDeferred == (if isDeferred then s.skippedDeferred + selected else s.skippedDeferred)
      && r.value.expectations == s.expectations && r.value.testListPaths == s.testListPaths
      && r.value.nonSkippedDeferred == s.nonSkippedDeferred && r.value.tests == s.tests
  {
  }

  /** A line of another build type changes nothing at all. */
  lemma OtherBuildTypeChangesNothing(s: Store, line: string, lineno: nat, file: string,
                                     buildType: string, env: Env, universe: seq<string>)
    requires StripComments(line).Some?
    requires Count(StripComments(line).value, '#') == 1
    requires buildType !in OptionsList(Split(StripComments(line).value, '#')[0])
    ensures ApplyLine(s, line, lineno, file, buildType, env, universe) == Success(s)
  {
  }

  /** Every error `_Read` reports starts with the file name and the line number. */
  lemma ErrorsAreTagged(s: Store, parsed: Result<Option<Directive>, LineError>, lineno: nat,
                        file: string, env: Env, universe: seq<string>)
    ensures var r := ApplyParsed(s, parsed, lineno, file, env, universe);
      r.Failure? ==> StartsWith(r.error, file + ":" + NatToString(lineno) + ": ")
  {
  }

  // ---------------------------------------------------------------------------
  // The object

  class TestExpectationsFile {
    var fullTestList: seq<string>
    var expectations: map<string, set<Outcome>>
    var testListPaths: map<string, string>
    var skipped: set<string>
    var skippedDeferred: set<string>
    var nonSkippedDeferred: set<string>
    var tests: map<Outcome, set<string>>

    function State(): Store
      reads this
    {
      Store(expectations, testListPaths, skipped, skippedDeferred, nonSkippedDeferred, tests)
    }

    ghost predicate Valid()
      reads this
    {
      Consistent(State())
    }

    /** The fields `__init__` sets before reading. */
    constructor (fullTestList: seq<string>)
      ensures Valid()
      ensures State() == EmptyStore() && this.fullTestList == fullTestList
    {
      this.fullTestList := fullTestList;
      expectations := map[];
      testListPaths := map[];
      skipped := {};
      skippedDeferred := {};
      nonSkippedDeferred := {};
      tests := map e | e in AllOutcomes :: {};
    }

    function GetTests(): set<string>
      reads this
    {
      expectations.Keys
    }

    function Contains(test: string): bool
      reads this
    {
      test in expectations
    }

    /** `_ExpandTests`: the tests of the full list under the path, in list order. */
    method ExpandTests(env: Env, path: string) returns (result: seq<string>)
      ensures result == Filter(fullTestList, ExpandPrefix(env, path), 0)
      ensures forall t :: t in result <==> t in fullTestList && StartsWith(t, ExpandPrefix(env, path))
    {
      var prefix := ExpandPrefix(env, path);
      result := [];
      var i := 0;
      while i < |fullTestList|
        invariant 0 <= i <= |fullTestList|
        invariant result + Filter(fullTestList, prefix, i) == Filter(fullTestList, prefix, 0)
      {
        if StartsWith(fullTestList[i], prefix) {
          result := result + [fullTestList[i]];
        }
        i := i + 1;
      }
      FilterMembers(fullTestList, prefix, 0);
    }

    /** `_AddTests`; an error names the test listed twice under one path. */
    method AddTests(names: seq<string>, outcomes: set<Outcome>, path: string, normPath: string,
                    isDeferred: bool) returns (err: Option<string>)
      requires Valid()
      modifies this
      ensures Valid() && fullTestList == old(fullTestList)
      ensures var r := RecordTests(old(State()), names, outcomes, path, normPath, isDeferred);
        (r.Success? ==> err.None? && State() == r.value) && (r.Failure? ==> err == Some(r.error))
    {
      if outcomes == {PASS} {
        return None;
      }
      ghost var start := State();
      assert RecordTests(start, names, outcomes, path, normPath, isDeferred)
          == RecordEach(start, names, 0, outcomes, path, normPath, isDeferred);
      for i := 0 to |names|
        invariant Valid() && fullTestList == old(fullTestList)
        invariant RecordEach(start, names, 0, outcomes, path, normPath, isDeferred)
               == RecordEach(State(), names, i, outcomes, path, normPath, isDeferred)
      {
        var test := names[i];
        if test in testListPaths {
          var prev := testListPaths[test];
          if prev == normPath {
            assert RecordTest(State(), test, outcomes, path, normPath, isDeferred) == Failure(test);
            assert RecordEach(State(), names, i, outcomes, path, normPath, isDeferred) == Failure(test);
            return Some(test);
          }
          if StartsWith(prev, path) {
            continue;
          }
        }
        Replace(test, outcomes, path, normPath, isDeferred);
      }
      err := None;
    }

    /** The replacing branch of `_AddTests`'s loop body. */
    method Replace(test: string, outcomes: set<Outcome>, path: string, normPath: string,
                   isDeferred: bool)
      requires Valid() && outcomes != {PASS}
      requires !(test in testListPaths && testListPaths[test] == normPath)
      requires !(test in testListPaths && StartsWith(testListPaths[test], path))
      modifies this
      ensures Valid() && fullTestList == old(fullTestList)
      ensures State() == RecordTest(old(State()), test, outcomes, path, normPath, isDeferred).value
    {
      ghost var target := RecordTest(State(), test, outcomes, path, normPath, isDeferred).value;
      AddTestKeepsConsistent(State(), test, outcomes, path, normPath, isDeferred);
      // Drop the old record from the deferred set and every bucket, then add
      // the test to the buckets of its new outcomes.
      var seen := test in testListPaths;
      if seen {
        nonSkippedDeferred := nonSkippedDeferred - {test};
      }
      tests := map e | e in tests ::
                 (if seen then tests[e] - {test} else tests[e]) + (if e in outcomes then {test} else {});
      expectations := expectations[test := outcomes];
      testListPaths := testListPaths[test := normPath];
      if isDeferred {
        nonSkippedDeferred := nonSkippedDeferred + {test};
      }
      assert State() == target;
    }

    /** `_AddSkippedTests`. */
    method AddSkippedTests(names: seq<string>, isDeferred: bool)
      requires Valid()
      modifies this
      ensures Valid() && fullTestList == old(fullTestList)
      ensures State() == AddSkipped(old(State()), names, isDeferred)
    {
      for i := 0 to |names|
        invariant skipped == old(skipped) + SetOf(names[..i])
        invariant skippedDeferred == if isDeferred then old(skippedDeferred) + SetOf(names[..i])
                                     else old(skippedDeferred)
        invariant expectations == old(expectations) && testListPaths == old(testListPaths)
        invariant nonSkippedDeferred == old(nonSkippedDeferred) && tests == old(tests)
        invariant fullTestList == old(fullTestList)
      {
        assert SetOf(names[..i + 1]) == SetOf(names[..i]) + {names[i]} by {
          assert forall j :: 0 <= j < i ==> names[..i + 1][j] == names[..i][j];
        }
        skipped := skipped + {names[i]};
        if isDeferred {
          skippedDeferred := skippedDeferred + {names[i]};
        }
      }
      assert names[..|names|] == names;
    }

    /** `PruneSkipped`: drop every skipped test's record and bucket entries. */
    method PruneSkipped(toPrune: set<string>)
      requires Valid()
      modifies this
      ensures Valid() && fullTestList == old(fullTestList)
      ensures State() == Prune(old(State()), toPrune)
    {
      ghost var start := State();
      PruneSpec(start, toPrune);
      PruneNothing(start);
      var remaining := toPrune;
      assert toPrune - remaining == {};
      while remaining != {}
        invariant remaining <= toPrune
        invariant State() == Prune(start, toPrune - remaining)
        invariant fullTestList == old(fullTestList)
        decreases remaining
      {
        var test :| test in remaining;
        ghost var done := toPrune - remaining;
        PruneStep(start, done, test);
        if test in expectations {
          tests := map e | e in tests :: if e in expectations[test] then tests[e] - {test} else tests[e];
          expectations := map t | t in expectations && t != test :: expectations[t];
        }
        assert State() == Prune(start, done + {test});
        remaining := remaining - {test};
        assert toPrune - remaining == done + {test};
      }
      assert toPrune - remaining == toPrune;
    }

    /** The body of `_Read`'s loop once a line has been parsed. */
    method ApplyDirective(parsed: Result<Option<Directive>, LineError>, lineno: nat, file: string,
                          env: Env) returns (err: Option<string>)
      requires Valid()
      modifies this
      ensures Valid() && fullTestList == old(fullTestList)
      ensures var r := ApplyParsed(old(State()), parsed, lineno, file, env, fullTestList);
        (r.Success? ==> err.None? && State() == r.value) && (r.Failure? ==> err == Some(r.error))
    {
      match parsed
      case Failure(e) =>
        return Some(SyntaxError(file, lineno, ErrorMessage(e)));
      case Success(None) =>
        return None;
      case Success(Some(Skip(path, isDeferred))) =>
        var names := ExpandTests(env, path);
        AddSkippedTests(names, isDeferred);
        return None;
      case Success(Some(Expect(path, isDeferred, outcomes))) =>
        var names := ExpandTests(env, path);
        var e := AddTests(names, outcomes, path, env.normpath(path), isDeferred);
        if e.Some? {
          return Some(SyntaxError(file, lineno, AlreadySeen + e.value));
        }
        return None;
    }

    /** `_Read` over the lines of `file`; an error is the tagged message. */
    method Read(lines: seq<string>, file: string, buildType: string, env: Env)
      returns (err: Option<string>)
      requires Valid()
      modifies this
      ensures Valid() && fullTestList == old(fullTestList)
      ensures var r := ReadFrom(old(State()), lines, 0, file, buildType, env, fullTestList);
        (r.Success? ==> err.None? && State() == r.value) && (r.Failure? ==> err == Some(r.error))
    {
      for i := 0 to |lines|
        invariant Valid() && fullTestList == old(fullTestList)
        invariant ReadFrom(old(State()), lines, 0, file, buildType, env, fullTestList)
               == ReadFrom(State(), lines, i, file, buildType, env, fullTestList)
      {
        var stripped := StripComments(lines[i]);
        if stripped.None? {
          continue;
        }
        var e := ApplyDirective(ParseLine(stripped.value, buildType), i + 1, file, env);
        if e.Some? {
          return e;
        }
      }
      err := None;
    }
  }

  lemma PruneNothing(s: Store)
    requires Consistent(s)
    ensures Prune(s, {}) == s
  {
    var p := Prune(s, {});
    assert p.expectations == s.expectations;
    assert p.tests.Keys == s.tests.Keys;
    forall e | e in s.tests
      ensures p.tests[e] == s.tests[e]
    {
    }
  }

  /** One step of `PruneSkipped`'s loop. */
  lemma PruneStep(s: Store, done: set<string>, test: string)
    requires Consistent(s)
    ensures var p := Prune(s, done);
      Prune(s, done + {test}) ==
        if test in p.expectations then
          p.(tests := map e | e in p.tests :: if e in p.expectations[test] then p.tests[e] - {test} else p.tests[e],
             expectations := map t | t in p.expectations && t != test :: p.expectations[t])
        else p
  {
    var p := Prune(s, done);
    var q := Prune(s, done + {test});
    if test in p.expectations {
      forall e | e in s.tests
        ensures q.tests[e] == (if e in p.expectations[test] then p.tests[e] - {test} else p.tests[e])
      {
        assert s.tests[e] == Bucket(s.expectations, e);
      }
    } else {
      forall e | e in s.tests
        ensures q.tests[e] == p.tests[e]
      {
        assert s.tests[e] == Bucket(s.expectations, e);
      }
      assert q.expectations == p.expectations;
    }
  }
}
