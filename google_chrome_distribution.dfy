// The Google Update "ap" value rewriter of the Google Chrome installer
// distribution: after an install, the installer marks (or clears) a failed
// incremental update by a trailing "-full" on the "ap" registry value, so
// that Google Update serves the full installer next time.
module GoogleChromeDistribution {
  import opened Common

  /** The numeric value of an install status that is not one of the four
      success statuses; the first enumerator (first-install success) is the
      only one whose value is 0. */
  type FailureCode = c: int | c != 0 witness 1

  /** The installer's outcome. */
  datatype InstallStatus =
    | FirstInstallSuccess
    | InstallRepaired
    | NewVersionUpdated
    | HigherVersionExists
    | OtherStatus(code: FailureCode)

  predicate IsSuccess(status: InstallStatus)
  {
    !status.OtherStatus?
  }

  /** The process exit code reported to Google Update: 0 for the four
      success statuses, the status itself otherwise. */
  function GetInstallReturnCode(status: InstallStatus): (r: int)
    ensures r == 0 <==> IsSuccess(status)
    ensures !IsSuccess(status) ==> r == status.code
  {
    match status
    case FirstInstallSuccess => 0
    case InstallRepaired => 0
    case NewVersionUpdated => 0
    case HigherVersionExists => 0
    case OtherStatus(code) => code
  }

  const MagicSuffix: string := "-full"

  /** The last index at or before `i` at which `p` occurs in `s`. */
  function RFindFrom<T(==)>(s: seq<T>, p: seq<T>, i: int): (r: Option<nat>)
    ensures r.Some? ==> r.value <= i && OccursAt(s, p, r.value)
    ensures r.Some? ==> forall j :: r.value < j <= i ==> !OccursAt(s, p, j)
    ensures r.None? ==> forall j :: j <= i ==> !OccursAt(s, p, j)
    decreases i + 1
  {
    if i < 0 then None
    else if OccursAt(s, p, i) then Some(i)
    else RFindFrom(s, p, i - 1)
  }

  /** `std::wstring::rfind`: the last index at which `p` occurs in `s`. */
  function RFind<T(==)>(s: seq<T>, p: seq<T>): (r: Option<nat>)
    ensures r.Some? ==> OccursAt(s, p, r.value)
    ensures r.Some? ==> forall j :: r.value < j ==> !OccursAt(s, p, j)
    ensures r.None? ==> forall j :: !OccursAt(s, p, j)
  {
    RFindFrom(s, p, |s| - |p|)
  }

  /** The "already set" test, written as the source writes it (a length check
      and the last occurrence of the suffix), is exactly a suffix test. */
  function HasMagicString(value: string): (r: bool)
    ensures r <==> EndsWith(value, MagicSuffix)
  {
    |value| >= |MagicSuffix| && RFind(value, MagicSuffix) == Some(|value| - |MagicSuffix|)
  }

  /** The new "ap" value after an install of the given kind and outcome: it
      differs from the old one by at most one "-full", which is there after
      a failed incremental install and gone after any other install. */
  function GetNewGoogleUpdateApKey(diffInstall: bool, status: InstallStatus, value: string): (r: string)
    ensures r == value || r + MagicSuffix == value || r == value + MagicSuffix
    ensures diffInstall && !IsSuccess(status) ==> EndsWith(r, MagicSuffix)
    ensures (!diffInstall || IsSuccess(status)) && r != value ==> r + MagicSuffix == value
  {
    var failed := GetInstallReturnCode(status) != 0;
    var hasMagic := HasMagicString(value);
    if (!diffInstall || !failed) && hasMagic then
      var r := value[..|value| - |MagicSuffix|];
      assert value == r + value[|value| - |MagicSuffix|..];
      r
    else if diffInstall && failed && !hasMagic then
      var r := value + MagicSuffix;
      assert r[|r| - |MagicSuffix|..] == MagicSuffix;
      r
    else
      value
  }

  /** A failed incremental install leaves the value ending in "-full",
      appending the suffix only when it is not already there. */
  lemma FailedIncrementalMarks(status: InstallStatus, value: string)
    requires !IsSuccess(status)
    ensures EndsWith(GetNewGoogleUpdateApKey(true, status, value), MagicSuffix)
    ensures EndsWith(value, MagicSuffix) ==> GetNewGoogleUpdateApKey(true, status, value) == value
    ensures !EndsWith(value, MagicSuffix) ==> GetNewGoogleUpdateApKey(true, status, value) == value + MagicSuffix
  {
    var r := GetNewGoogleUpdateApKey(true, status, value);
    if !EndsWith(value, MagicSuffix) {
      assert r == value + MagicSuffix;
      assert r[|r| - |MagicSuffix|..] == MagicSuffix;
    }
  }

  /** A full install, or an incremental one that succeeded, removes exactly
      one trailing "-full" and otherwise keeps the value. */
  lemma FullOrSuccessClears(diffInstall: bool, status: InstallStatus, value: string)
    requires !diffInstall || IsSuccess(status)
    ensures EndsWith(value, MagicSuffix) ==> GetNewGoogleUpdateApKey(diffInstall, status, value) + MagicSuffix == value
    ensures !EndsWith(value, MagicSuffix) ==> GetNewGoogleUpdateApKey(diffInstall, status, value) == value
  {
    if EndsWith(value, MagicSuffix) {
      var r := GetNewGoogleUpdateApKey(diffInstall, status, value);
      assert r == value[..|value| - |MagicSuffix|];
      assert value == value[..|value| - |MagicSuffix|] + value[|value| - |MagicSuffix|..];
    }
  }

  /** Marking a failed incremental install twice is the same as once. */
  lemma FailedIncrementalIdempotent(status: InstallStatus, value: string)
    requires !IsSuccess(status)
    ensures var once := GetNewGoogleUpdateApKey(true, status, value);
      GetNewGoogleUpdateApKey(true, status, once) == once
  {
    FailedIncrementalMarks(status, value);
    FailedIncrementalMarks(status, GetNewGoogleUpdateApKey(true, status, value));
  }

  /** A later successful install undoes the mark a failed incremental
      install set on an unmarked value. */
  lemma SuccessUndoesFailure(failure: InstallStatus, success: InstallStatus, diffInstall: bool, value: string)
    requires !IsSuccess(failure) && IsSuccess(success)
    requires !EndsWith(value, MagicSuffix)
    ensures GetNewGoogleUpdateApKey(diffInstall, success, GetNewGoogleUpdateApKey(true, failure, value)) == value
  {
    FailedIncrementalMarks(failure, value);
    var marked := value + MagicSuffix;
    FullOrSuccessClears(diffInstall, success, marked);
    var r := GetNewGoogleUpdateApKey(diffInstall, success, marked);
    assert r + MagicSuffix == value + MagicSuffix;
    assert r == (r + MagicSuffix)[..|r|];
  }

  /** Only one suffix is removed, and a full install clears the mark even
      when it failed. */
  lemma ApKeyExamples()
    ensures GetNewGoogleUpdateApKey(true, FirstInstallSuccess, "1.1-dev-full") == "1.1-dev"
    ensures GetNewGoogleUpdateApKey(false, OtherStatus(12), "-full") == ""
    ensures GetNewGoogleUpdateApKey(true, OtherStatus(12), "1.1-dev") == "1.1-dev-full"
    ensures GetNewGoogleUpdateApKey(false, NewVersionUpdated, "1.1-full-full") == "1.1-full"
  {
    assert GetNewGoogleUpdateApKey(true, FirstInstallSuccess, "1.1-dev-full") == "1.1-dev" by {
      assert EndsWith("1.1-dev-full", MagicSuffix);
      FullOrSuccessClears(true, FirstInstallSuccess, "1.1-dev-full");
    }
    assert GetNewGoogleUpdateApKey(false, OtherStatus(12), "-full") == "" by {
      assert EndsWith("-full", MagicSuffix);
      FullOrSuccessClears(false, OtherStatus(12), "-full");
    }
    assert GetNewGoogleUpdateApKey(true, OtherStatus(12), "1.1-dev") == "1.1-dev-full" by {
      assert !EndsWith("1.1-dev", MagicSuffix);
      FailedIncrementalMarks(OtherStatus(12), "1.1-dev");
    }
    assert GetNewGoogleUpdateApKey(false, NewVersionUpdated, "1.1-full-full") == "1.1-full" by {
      assert EndsWith("1.1-full-full", MagicSuffix);
      FullOrSuccessClears(false, NewVersionUpdated, "1.1-full-full");
    }
  }
}
