# Chromium core components, modelled and verified in Dafny

This project models nine small components of an early Chromium tree and
proves what they promise. Each component is one Dafny module:

- `ExpectationsParser`, `ExpectationsStore` and `LayoutExpectations` model
  the layout-test expectation lists. They cover the line syntax
  (`BUILD # [SKIP|DEFER :] path = OUTCOMES`), the `TestExpectationsFile` object
  with its outcome buckets, and `TestExpectations`, which loads the fixable
  and the ignored list, prunes skipped tests and validates the two lists.
- `ParsedCookies`, `CookieTime` and `CookieStore` model the cookie monster.
  They cover the `Set-Cookie` line parser (`ParsedCookie`), the cookie
  expiry-date parser, the path rules, the `Cookie:` header order, and the
  store's deletion and garbage collection.
- `QueryParser` models the history full-text query parser. It covers the
  word/phrase tree, the SQLite query it writes, and the matching of a query
  against the words of a page.
- `Multipart` models `MultipartResponseDelegate`, which splits a
  `multipart/x-mixed-replace` stream into responses and data.
- `GoogleChromeDistribution` models the installer's rewrite of the Google
  Update "ap" value (the "-full" suffix) and its exit codes.
- `GKURL` models the googleurl-backed `KURL` helpers. These are
  `protocolIs`, the MIME type of a `data:` URL, the escape passes,
  `equalIgnoringRef`, `componentString`, and the cached `URLString` with its
  ASCII flag.
- `TaskManager` models the task manager's table model. It covers grouping
  rows by process, adding and removing resources, group ranges, network
  usage and the refresh of the usage maps.
- `PluginTest` models the NPAPI test plugin's argument lookup, `URLEncode`
  and the completion URL it requests.
- `PlatformUtilsMac` models the layout-test runner's mapping from a test file
  to the URL it is loaded from (file, http or https, and the port).

`Common` holds `Option`/`Result` and string helpers shared by the modules.

State that the source changes in place is modelled by classes:
`TestExpectationsFile`, `ParsedCookie`, `CookieMonster`,
`MultipartResponseDelegate`, `URLString`, `TaskManagerTableModel` and
`PluginTestObject`. Each method of these classes is proved against a
function on values, and the lemmas about that function state what the source
promises. Pure code is modelled as functions and lemmas.

## Model

| member | source | states |
|---|---|---|
| ExpectationsParser.TrimLeft | webkit/tools/layout_tests/layout_package/test_expectations.py:159 | the result is a suffix of the input, everything dropped is whitespace, and the result does not start with whitespace |
| ExpectationsParser.TrimRight | webkit/tools/layout_tests/layout_package/test_expectations.py:159 | the result is a prefix of the input, everything dropped is whitespace, and the result does not end with whitespace |
| ExpectationsParser.Strip | webkit/tools/layout_tests/layout_package/test_expectations.py:159 | `str.strip()`: the result neither starts nor ends with whitespace |
| ExpectationsParser.StripFacts | webkit/tools/layout_tests/layout_package/test_expectations.py:159 | stripping keeps every non-whitespace character in order and creates no `//` |
| ExpectationsParser.CollapseNonSpace | webkit/tools/layout_tests/layout_package/test_expectations.py:159 | `re.sub(r'\s+', ' ', ...)` keeps every non-whitespace character in order |
| ExpectationsParser.CollapseCollapsed | webkit/tools/layout_tests/layout_package/test_expectations.py:159 | after collapsing, the only whitespace left is isolated single spaces |
| ExpectationsParser.CollapseNoDoubleSlash | webkit/tools/layout_tests/layout_package/test_expectations.py:159 | collapsing whitespace never creates a `//` |
| ExpectationsParser.CollapseShape | webkit/tools/layout_tests/layout_package/test_expectations.py:159 | collapsing maps empty to empty and keeps the first and the last non-whitespace character in place |
| ExpectationsParser.BeforeComment | webkit/tools/layout_tests/layout_package/test_expectations.py:155-158 | the text before the first `//` is a prefix of the line and contains no `//` |
| ExpectationsParser.WordsShape | webkit/tools/layout_tests/layout_package/test_expectations.py:159 | the whitespace-separated words (`str.split()`) are non-empty and hold no whitespace, and there are none exactly when the text is all whitespace |
| ExpectationsParser.CollapseIsJoinedWords | webkit/tools/layout_tests/layout_package/test_expectations.py:159 | collapsing a text with non-whitespace at both ends gives its words joined by single spaces |
| ExpectationsParser.StripWords | webkit/tools/layout_tests/layout_package/test_expectations.py:159 | `strip()` does not change the whitespace-separated words |
| ExpectationsParser.StripComments | webkit/tools/layout_tests/layout_package/test_expectations.py:150-161 | None exactly when only whitespace precedes the first `//`; otherwise the result is non-empty, has no leading or trailing whitespace, no whitespace runs and no `//`, and keeps the non-whitespace characters before the comment in order |
| ExpectationsParser.StripCommentsJoinsWords | webkit/tools/layout_tests/layout_package/test_expectations.py:150-161 | the result, stated without the collapsing: the words before the first `//` joined by single spaces, and None exactly when there are none |
| ExpectationsParser.SplitJoin | webkit/tools/layout_tests/layout_package/test_expectations.py:263 | `str.split` with one separator: joining the pieces gives the string back, and there is one piece more than there are separators |
| ExpectationsParser.SplitSingle | webkit/tools/layout_tests/layout_package/test_expectations.py:262-268 | a string without the separator splits into itself alone |
| ExpectationsParser.OptionsList | webkit/tools/layout_tests/layout_package/test_expectations.py:298-299 | `_GetOptionsList`: one entry per `\|`-separated piece, each stripped and lower-cased |
| ExpectationsParser.OutcomeNameRoundTrip | webkit/tools/layout_tests/layout_package/test_expectations.py:193-196 | every outcome has an entry under its own name in the EXPECTATIONS table |
| ExpectationsParser.ParseTokens | webkit/tools/layout_tests/layout_package/test_expectations.py:301-308 | the only error of `_ParseExpectations` is an unsupported expectation |
| ExpectationsParser.ParseTokensSpec | webkit/tools/layout_tests/layout_package/test_expectations.py:301-308 | the tokens parse iff each names an outcome; the result is then exactly the set of named outcomes, and otherwise the error names the first unknown token |
| ExpectationsParser.ParseBody | webkit/tools/layout_tests/layout_package/test_expectations.py:270-289 | the body after `#` never fails with the build-types error |
| ExpectationsParser.ParseLine | webkit/tools/layout_tests/layout_package/test_expectations.py:262-266 | a line is rejected with "Test must have build types" iff it does not contain exactly one `#`, and dropped without error iff its build-type list does not name the active build type, whatever its body says |
| ExpectationsParser.ExpectationsRequired | webkit/tools/layout_tests/layout_package/test_expectations.py:280-282 | a body is rejected with "Test is missing expectations" iff its text does not contain exactly one `=` |
| ExpectationsParser.SkipIgnoresOutcomes | webkit/tools/layout_tests/layout_package/test_expectations.py:284-288 | a SKIP directive yields a Skip of the stripped path, and the outcome tokens are never parsed |
| ExpectationsParser.ExpectRequiresKnownOutcomes | webkit/tools/layout_tests/layout_package/test_expectations.py:290-296 | an expectation directive succeeds iff every outcome token is known; it then carries exactly the named outcomes, and otherwise the error names the first unknown token |
| ExpectationsStore.EmptyStore | webkit/tools/layout_tests/layout_package/test_expectations.py:202-221 | a new file has no records and one empty bucket per outcome, and satisfies the object's invariant |
| ExpectationsStore.AddTestKeepsConsistent | webkit/tools/layout_tests/layout_package/test_expectations.py:325-359 | replacing a test's record keeps the invariant: the buckets stay the inverse of the outcome map |
| ExpectationsStore.AddTestReplaces | webkit/tools/layout_tests/layout_package/test_expectations.py:336-359 | after a replacement the test has its new outcomes and normalised path, is deferred iff the directive is, and sits in exactly the buckets of its outcomes; every other test's record and deferral are unchanged, and so are the skip sets |
| ExpectationsStore.AddTestPrecedence | webkit/tools/layout_tests/layout_package/test_expectations.py:332-338 | a test listed twice under the same path fails, naming the test; a test already recorded under a path that starts with the new one keeps its record |
| ExpectationsStore.PassOnlyRecordsNothing | webkit/tools/layout_tests/layout_package/test_expectations.py:330 | a directive expecting only PASS leaves the file unchanged |
| ExpectationsStore.AddEachConsistent | webkit/tools/layout_tests/layout_package/test_expectations.py:332-359 | the whole loop of `_AddTests` keeps the invariant and the skip sets, and leaves every unlisted test's record and deferral unchanged |
| ExpectationsStore.AddTestsConsistent | webkit/tools/layout_tests/layout_package/test_expectations.py:325-359 | `_AddTests` on a consistent file gives a consistent file |
| ExpectationsStore.AddSkipped | webkit/tools/layout_tests/layout_package/test_expectations.py:361-365 | `_AddSkippedTests` keeps the invariant |
| ExpectationsStore.PruneSpec | webkit/tools/layout_tests/layout_package/test_expectations.py:244-249 | pruning keeps the invariant, drops exactly the skipped tests from the records and from every bucket, keeps the other records, and changes nothing else |
| ExpectationsStore.PruneNothing | webkit/tools/layout_tests/layout_package/test_expectations.py:244-249 | pruning an empty set changes nothing |
| ExpectationsStore.PruneStep | webkit/tools/layout_tests/layout_package/test_expectations.py:245-249 | one iteration of the `PruneSkipped` loop is pruning one more test |
| ExpectationsStore.PathJoin | webkit/tools/layout_tests/layout_package/test_expectations.py:313 | `os.path.join`: an absolute second part replaces the first, and otherwise the result ends with the second part |
| ExpectationsStore.ExpandPrefix | webkit/tools/layout_tests/layout_package/test_expectations.py:313-315 | the prefix of a directory ends with the separator |
| ExpectationsStore.FilterMembers | webkit/tools/layout_tests/layout_package/test_expectations.py:320-322 | `_ExpandTests` keeps exactly the listed tests that start with the prefix |
| ExpectationsStore.FilterOrder | webkit/tools/layout_tests/layout_package/test_expectations.py:320-322 | `_ExpandTests` keeps the order of the full test list |
| ExpectationsStore.SiblingNotExpanded | webkit/tools/layout_tests/layout_package/test_expectations.py:311-315 | a directory never selects a sibling whose name merely continues the directory's name |
| ExpectationsStore.ApplyParsedConsistent | webkit/tools/layout_tests/layout_package/test_expectations.py:266-296 | applying one parsed line keeps the invariant |
| ExpectationsStore.ApplyLineConsistent | webkit/tools/layout_tests/layout_package/test_expectations.py:256-296 | one line of `_Read` keeps the invariant |
| ExpectationsStore.ReadFromConsistent | webkit/tools/layout_tests/layout_package/test_expectations.py:251-296 | reading a whole file from a consistent (for example empty) file gives a consistent file |
| ExpectationsStore.SkipOnlySkips | webkit/tools/layout_tests/layout_package/test_expectations.py:284-288 | a SKIP line never fails; it adds the selected tests to the skipped set (and to the skipped-deferred set when deferred) and changes nothing else |
| ExpectationsStore.OtherBuildTypeChangesNothing | webkit/tools/layout_tests/layout_package/test_expectations.py:266 | a line of another build type leaves the file unchanged |
| ExpectationsStore.ErrorsAreTagged | webkit/tools/layout_tests/layout_package/test_expectations.py:367-368 | every error `_Read` reports starts with `path:lineno: ` |
| ExpectationsStore.TestExpectationsFile.constructor | webkit/tools/layout_tests/layout_package/test_expectations.py:202-221 | the fields start as the empty file, and the invariant holds |
| ExpectationsStore.TestExpectationsFile.ExpandTests | webkit/tools/layout_tests/layout_package/test_expectations.py:310-323 | the loop returns exactly `Filter` of the full list: the tests under the prefix, in list order |
| ExpectationsStore.TestExpectationsFile.AddTests | webkit/tools/layout_tests/layout_package/test_expectations.py:325-359 | the loop updates the fields to `RecordTests` of the old state or returns its error, and keeps the invariant |
| ExpectationsStore.TestExpectationsFile.Replace | webkit/tools/layout_tests/layout_package/test_expectations.py:340-359 | removes the old record from the deferred set and the buckets, then stores the new one, giving `RecordTest`'s state |
| ExpectationsStore.TestExpectationsFile.AddSkippedTests | webkit/tools/layout_tests/layout_package/test_expectations.py:361-365 | the loop gives `AddSkipped` of the old state |
| ExpectationsStore.TestExpectationsFile.PruneSkipped | webkit/tools/layout_tests/layout_package/test_expectations.py:244-249 | the loop over the skipped tests gives `Prune` of the old state and keeps the invariant |
| ExpectationsStore.TestExpectationsFile.ApplyDirective | webkit/tools/layout_tests/layout_package/test_expectations.py:266-296 | one parsed line updates the fields to `ApplyParsed` of the old state or returns its error |
| ExpectationsStore.TestExpectationsFile.Read | webkit/tools/layout_tests/layout_package/test_expectations.py:251-296 | the loop over the lines updates the fields to `ReadFrom` of the old state or returns the first error |
| LayoutExpectations.LoadGuarantees | webkit/tools/layout_tests/layout_package/test_expectations.py:125-148 | after a successful load both files are consistent, no skipped test has a record or a bucket entry in either file, the files share no test, and no ignored test is expected to crash |
| LayoutExpectations.CombineGuarantees | webkit/tools/layout_tests/layout_package/test_expectations.py:125-148 | pruning with the skip sets of both files and then validating gives those guarantees |
| LayoutExpectations.ExpectationsDefault | webkit/tools/layout_tests/layout_package/test_expectations.py:107-112 | a test gets {PASS} iff it is in neither file |
| LayoutExpectations.FixableOrDeferred | webkit/tools/layout_tests/layout_package/test_expectations.py:114-120 | no test is both fixable and deferred, and a test of the fixable file is one of the two |
| LayoutExpectations.GetFixableSkipped | webkit/tools/layout_tests/layout_package/test_expectations.py:63-64 | the fixable file's skip set holds its skipped deferred tests, and after a load none of its tests is fixable, deferred or ignored |
| LayoutExpectations.GetIgnoredSkipped | webkit/tools/layout_tests/layout_package/test_expectations.py:97-98 | after a load no test the ignored file skips is fixable, deferred or ignored |
| LayoutExpectations.IsFixable | webkit/tools/layout_tests/layout_package/test_expectations.py:114-116 | a fixable test is in the fixable file, is not deferred and takes that file's expectations; after a load the fixable tests are exactly `GetFixable` |
| LayoutExpectations.IsDeferred | webkit/tools/layout_tests/layout_package/test_expectations.py:118-120 | a deferred test takes the fixable file's expectations, is one of `GetFixableDeferred`, and is counted neither in `GetFixable` nor among the fixable failures and timeouts |
| LayoutExpectations.IsIgnored | webkit/tools/layout_tests/layout_package/test_expectations.py:122-123 | after a load an ignored test is not in the fixable file, takes the ignored file's expectations and is never expected to crash |
| LayoutExpectations.FixableCategories | webkit/tools/layout_tests/layout_package/test_expectations.py:69-92 | each fixable category in terms of the recorded outcomes: a crash wins over a timeout, which wins over a failure, and deferred tests are in none of the last two |
| LayoutExpectations.FixableCategoriesDisjoint | webkit/tools/layout_tests/layout_package/test_expectations.py:69-81 | the crash, timeout and failure categories share no test |
| LayoutExpectations.IgnoredCategories | webkit/tools/layout_tests/layout_package/test_expectations.py:100-105 | the ignored timeouts and failures in terms of the recorded outcomes |
| LayoutExpectations.Load | webkit/tools/layout_tests/layout_package/test_expectations.py:50-56 | `__init__` gives exactly `LoadSpec`: both files read, pruned with the union of their skip sets, then validated |
| ParsedCookies.TermPos | net/base/cookie_monster.cc:834-841 | the cut-off is the first newline, carriage return or NUL, or the line's length, and no terminator precedes it |
| ParsedCookies.SeekToSpec | net/base/cookie_monster.cc:795-801 | the position reached is the first one holding a character of the set, or the end, and every character skipped lies outside the set |
| ParsedCookies.SkipWhitespace | net/base/cookie_monster.cc:803-808 | the position reached is the first non-blank one, or the end, and only spaces and tabs are skipped |
| ParsedCookies.BackPast | net/base/cookie_monster.cc:809-814 | seeking backwards stops at the last non-blank character or at the lower bound, and only blanks are skipped |
| ParsedCookies.TrimBack | net/base/cookie_monster.cc:859-869 | trailing blanks before a separator are dropped from a name: everything between the result and the separator is blank, the character before the result is not |
| ParsedCookies.QuoteEnd | net/base/cookie_monster.cc:907-916 | the quoted-string scan stops at a closing double quote or at the end, never past the end |
| ParsedCookies.ScanName | net/base/cookie_monster.cc:853-895 | value parsing resumes between the token start and the end of the line |
| ParsedCookies.ScanValue | net/base/cookie_monster.cc:897-935 | the iterator is left inside the pair: at a ';', at the end, or at the blank that ends an unquoted value, with only blanks from there to the next ';' |
| ParsedCookies.ParsePair | net/base/cookie_monster.cc:843-947 | each pair consumes at least one character, and names after the first are lower case; the next pair is looked for one past where the value left the iterator |
| ParsedCookies.NextPair | net/base/cookie_monster.cc:846-851 | a pair is found exactly when some non-blank character is left before the end |
| ParsedCookies.ParseFrom | net/base/cookie_monster.cc:843-948 | every name of a pair other than the first is lower case |
| ParsedCookies.PairCountBounded | net/base/cookie_monster.cc:843 | the loop reads at most kMaxPairs pairs, counting from the pair it starts at |
| ParsedCookies.ParseFromNonEmpty | net/base/cookie_monster.cc:843-851 | the loop yields a pair iff the pair budget is not spent and a non-blank character remains |
| ParsedCookies.NonBlankIffPairs | net/base/cookie_monster.cc:781-785 | a line gives pairs, and so a valid cookie, iff something other than blanks comes before its first terminator |
| ParsedCookies.PairsBounded | net/base/cookie_monster.cc:843 | no line gives more than kMaxPairs pairs |
| ParsedCookies.LaterNamesLowercase | net/base/cookie_monster.cc:940-941 | every attribute name after the first pair is lower case, since attribute names are case-insensitive |
| ParsedCookies.FirstPairNameless | net/base/cookie_monster.cc:874-890 | a first pair without '=' before its ';' has the empty name and its whole text as value |
| ParsedCookies.NamedPair | net/base/cookie_monster.cc:891-895 | a pair written NAME=VALUE keeps its name without the surrounding blanks, and the name contains no ';' and no '=' |
| ParsedCookies.BlankBeforeSeparatorExample | net/base/cookie_monster.cc:925-947 | "a=b ;secure" gives the pairs ("a", "b"), ("", "") and ("secure", ""): the blank before the ';' is read as a further, empty pair |
| ParsedCookies.ParseFromSame | net/base/cookie_monster.cc:834-949 | the pairs depend only on the characters before the end position |
| ParsedCookies.TerminatorCuts | net/base/cookie_monster.cc:834-841 | everything from the first newline, carriage return or NUL on is ignored |
| ParsedCookies.AttributeOfName | net/base/cookie_monster.cc:961-975 | a name is classified as an attribute exactly when it equals that attribute's name |
| ParsedCookies.AttributeIndex | net/base/cookie_monster.cc:960-976 | the index is 0 or the last pair after the first naming that attribute: no later pair names it |
| ParsedCookies.ParsedCookie.constructor | net/base/cookie_monster.cc:767-786 | a line longer than kMaxCookieSize is not parsed; a cookie is valid iff its line gives at least one pair, and then each attribute index is that of its last occurrence |
| ParsedCookies.ParsedCookie.SetupAttributes | net/base/cookie_monster.cc:951-978 | every attribute index becomes its last occurrence after the first pair, or 0 |
| ParsedCookies.ParsedCookie.ParseTokenValuePairs | net/base/cookie_monster.cc:817-949 | the pair list becomes exactly the pairs the line specifies |
| ParsedCookies.ReadPairs | net/base/cookie_monster.cc:843-948 | the loop collects exactly the pairs the line specifies |
| ParsedCookies.ReadPair | net/base/cookie_monster.cc:844-948 | one iteration finds the next pair exactly as specified, or reports that only blanks remain |
| ParsedCookies.SeekPast | net/base/cookie_monster.cc:803-808 | the seek stops where the specification says and reports whether it hit the end |
| ParsedCookies.SeekTo | net/base/cookie_monster.cc:795-801 | the seek stops where the specification says and reports whether it hit the end |
| ParsedCookies.SeekBackPast | net/base/cookie_monster.cc:809-814 | the backward seek stops where the specification says |
| ParsedCookies.ReadName | net/base/cookie_monster.cc:847-895 | the name and the resume position are those specified |
| ParsedCookies.ReadValue | net/base/cookie_monster.cc:897-935 | the value and where the iterator is left are those specified: the ';' or end after a quoted value, the trimmed end of an unquoted one |
| ParsedCookies.SkipQuoted | net/base/cookie_monster.cc:907-916 | the loop over a quoted value stops where the specification says |
| ParsedCookies.SetupAttributesOf | net/base/cookie_monster.cc:959-977 | the loop over the pairs gives every attribute the index of its last occurrence after the first pair, or 0 |
| CookieTime.DelimitersAsListed | net/base/cookie_monster.cc:131 | the delimiter ranges hold exactly the characters of the kDelimiters string |
| CookieTime.Tokens | net/base/cookie_monster.cc:131-143 | the tokens are non-empty and contain no delimiter character |
| CookieTime.RunEnd | net/base/cookie_monster.cc:135-143 | a token runs up to the next delimiter or the end of the string, and is never empty |
| CookieTime.MonthIndex | net/base/cookie_monster.cc:150-157 | a month is found iff the token's first three letters, ignoring case, are a month abbreviation, and then the first such month is taken |
| CookieTime.MonthFrom | net/base/cookie_monster.cc:150-157 | the loop over the twelve abbreviations finds the first one that prefixes the token, or none |
| CookieTime.DigitRun | net/base/cookie_monster.cc:188 | the leading digits of a token run up to its first non-digit |
| CookieTime.DecimalValue | net/base/cookie_monster.cc:188 | the value of n digits is below 10 to the n |
| CookieTime.ScanUnsigned2 | net/base/cookie_monster.cc:175 | one two-digit conversion yields a value of at most 99 and consumes at least one character |
| CookieTime.ScanTime | net/base/cookie_monster.cc:168-177 | a time token scans to three values, each at most 99, or to nothing |
| CookieTime.CookieTime | net/base/cookie_monster.cc:120-228 | a parsed time always has its fields in range |
| CookieTime.Finish | net/base/cookie_monster.cc:202-227 | the time is null unless all four fields were found and, with the year widened, every field is in range |
| CookieTime.FirstMonth | net/base/cookie_monster.cc:148-157 | the month taken is a month number from 1 to 12 |
| CookieTime.DayIndex | net/base/cookie_monster.cc:187-189 | the day is the first digit token without a colon of at most two characters |
| CookieTime.MonthIsFirstMonthName | net/base/cookie_monster.cc:148-157 | once the month is found later month names are ignored: the month is that of the first token naming one |
| CookieTime.TimeIsFirstTime | net/base/cookie_monster.cc:168-183 | the time is that of the first token that scans as hh:mm:ss; later ones are ignored |
| CookieTime.DayIsFirstShortNumber | net/base/cookie_monster.cc:185-189 | the day is the first plain number of at most two characters |
| CookieTime.YearIsFirstOtherNumber | net/base/cookie_monster.cc:185-193 | the year is the first plain number of at most five characters other than the day |
| CookieTime.ParsedTimeFields | net/base/cookie_monster.cc:142-220 | a successful parse found all four fields, and the month, time, day and year are exactly the ones the first-match rules pick |
| CookieTime.TypicalExpiry | net/base/cookie_monster.cc:118-119 | the tokens of the usual expiry "Sat, 15-Apr-17 21:01:22 GMT" give 2017-04-15 21:01:22 |
| CookieTime.TypicalExpiryString | net/base/cookie_monster.cc:118-143 | the usual expiry string itself parses to 2017-04-15 21:01:22 |
| CookieTime.ExpiryTokens | net/base/cookie_monster.cc:131-143 | the usual expiry tokenizes to "Sat", "15", "Apr", "17", "21:01:22" and "GMT" |
| CookieTime.TypicalFields | net/base/cookie_monster.cc:142-200 | the token loop collects day 15, April, 21:01:22 and year 17 from the usual expiry |
| CookieTime.TypicalSteps | net/base/cookie_monster.cc:142-200 | each of the six loop iterations on the usual expiry, the weekday and zone names being skipped |
| CookieTime.TypicalTokens | net/base/cookie_monster.cc:150-188 | "Sat" names no month, "Apr" is April, "15" and "17" are their values, "21:01:22" scans to 21, 1, 22 |
| CookieTime.NormalizeYearSpec | net/base/cookie_monster.cc:209-213 | two-digit years are widened into 1969-2068 keeping their last two digits; longer years are kept |
| CookieTime.ParseCookieTime | net/base/cookie_monster.cc:120-228 | the method's loop with its four found flags computes exactly CookieTime |
| CookieTime.Conclude | net/base/cookie_monster.cc:202-227 | the checks after the loop compute exactly Finish on the flags and values found |
| CookieTime.ConsumeToken | net/base/cookie_monster.cc:143-199 | one loop iteration updates the flags and values exactly as Consume does |
| CookieTime.FindMonth | net/base/cookie_monster.cc:150-157 | the month loop finds a month iff MonthIndex does, and the same one |
| CookieStore.LastIndexOf | net/base/cookie_monster.cc:301 | the index is the last one holding the character, or there is none in the string |
| CookieStore.CanonPath | net/base/cookie_monster.cc:282-310 | a present, non-empty, absolute path attribute is used as is; otherwise the path is the URL path up to its last '/', and "/" when that '/' is the first character or there is none |
| CookieStore.DefaultPathMatchesUrl | net/base/cookie_monster.cc:293-309 | a cookie whose path was defaulted from an absolute URL path is sent back to that URL path |
| CookieStore.IsOnPath | net/base/cookie_monster.cc:992-1026 | a cookie path matches a URL path iff it is non-empty, a prefix of the URL path, and equal to it, ending in '/' or followed by '/' in it |
| CookieStore.IsOnPathExamples | net/base/cookie_monster_unittest.cc:450-455 | "/wee" matches "/wee", "/wee/", "/wee/war" and "/wee/war/more/more" but not "/weehee" or "/" |
| CookieStore.SchemeIndexFrom | net/base/cookie_monster.cc:340-349 | the scan of the scheme table finds the first entry naming the scheme, or none |
| CookieStore.HasCookieableScheme | net/base/cookie_monster.cc:334-354 | http and https always take cookies, file exactly when file cookies are enabled, and no other scheme ever |
| CookieStore.SortCookies | net/base/cookie_monster.cc:656 | sorting keeps exactly the cookies found, each as often as found |
| CookieStore.Insert | net/base/cookie_monster.cc:656 | inserting adds exactly the one cookie |
| CookieStore.InsertSorted | net/base/cookie_monster.cc:623-628 | inserting into a list in header order keeps it in header order |
| CookieStore.SortCookiesSorted | net/base/cookie_monster.cc:623-628 | the sorted list is in header order |
| CookieStore.GetCookiesWithOptions | net/base/cookie_monster.cc:646-674 | the header is empty for a scheme that takes no cookies, and otherwise the found cookies joined in header order |
| CookieStore.HeaderOrder | net/base/cookie_monster.cc:620-628 | the header lists longer paths first and, among equal lengths, older cookies first, and holds each found cookie exactly as often as found |
| CookieStore.HeaderExample | net/base/cookie_monster_unittest.cc:456-460 | after "A=B; path=/wee" and "A=C; path=", the URL /wee gets "A=B; A=C" |
| CookieStore.NamelessHeader | net/base/cookie_monster.cc:663-668 | a nameless cookie is sent as its bare value, without '=' |
| CookieStore.CountInScope | net/base/cookie_monster.cc:496 | a collection of the whole map walks every entry |
| CookieStore.CountInScopeAppend | net/base/cookie_monster.cc:496 | the entries in scope of two runs add up |
| CookieStore.CountInScopePositive | net/base/cookie_monster.cc:509-517 | there is an entry in scope iff the count in scope is positive |
| CookieStore.RemoveAt | net/base/cookie_monster.cc:502 | deleting one entry leaves one fewer, all of them entries before |
| CookieStore.RemoveAtCount | net/base/cookie_monster.cc:502 | deleting an entry lowers the count in scope by one exactly when it is in scope |
| CookieStore.RemoveAtOutside | net/base/cookie_monster.cc:502 | deleting an entry in scope leaves the entries outside it unchanged |
| CookieStore.DropExpired | net/base/cookie_monster.cc:496-507 | the first pass never adds entries |
| CookieStore.DropExpiredMembers | net/base/cookie_monster.cc:496-507 | an entry survives the first pass iff it is not an expired entry in scope |
| CookieStore.DropExpiredOutside | net/base/cookie_monster.cc:496-507 | the first pass leaves the entries out of scope untouched |
| CookieStore.DropExpiredCount | net/base/cookie_monster.cc:496-507 | the first pass adds no entry under any key |
| CookieStore.OldestBefore | net/base/cookie_monster.cc:482-486 | the entry chosen is in scope and no newer than any other in scope among the first n |
| CookieStore.Oldest | net/base/cookie_monster.cc:482-486 | when something is in scope, the entry chosen is in scope and no newer than any other in scope |
| CookieStore.Purge | net/base/cookie_monster.cc:513-520 | deleting k oldest entries leaves k fewer entries and k fewer in scope |
| CookieStore.Purged | net/base/cookie_monster.cc:513-520 | exactly k entries are deleted |
| CookieStore.PurgeSubset | net/base/cookie_monster.cc:513-520 | every kept entry was there before |
| CookieStore.PurgeUnfold | net/base/cookie_monster.cc:513-520 | the oldest entry in scope is deleted first |
| CookieStore.CollectRangeTrims | net/base/cookie_monster.cc:488-524 | collecting a range is the second pass applied to the survivors of the first |
| CookieStore.TrimToLimitCases | net/base/cookie_monster.cc:509-521 | over the limit the excess plus num_purge oldest survivors are deleted; at or under it nothing more is |
| CookieStore.CollectRangeOver | net/base/cookie_monster.cc:509-521 | past the limit collecting a range deletes the computed number of oldest survivors |
| CookieStore.OldestNoNewerThanKept | net/base/cookie_monster.cc:513-514 | the first entry deleted is no newer than any kept entry in scope |
| CookieStore.PurgeTakesOldest | net/base/cookie_monster.cc:513-514 | every deleted entry is at least as old as every kept entry in scope |
| CookieStore.PurgePartition | net/base/cookie_monster.cc:513-520 | the kept and the deleted entries together are exactly the entries before |
| CookieStore.PurgeOutside | net/base/cookie_monster.cc:513-520 | deleting the oldest in scope leaves the entries out of scope unchanged |
| CookieStore.PurgeCount | net/base/cookie_monster.cc:513-520 | the second pass adds no entry under any key |
| CookieStore.CollectRangeOutside | net/base/cookie_monster.cc:488-524 | collecting a range leaves the entries out of scope untouched |
| CookieStore.CollectRangeLive | net/base/cookie_monster.cc:496-507 | no expired entry in scope survives |
| CookieStore.CollectRangeUnderLimit | net/base/cookie_monster.cc:509 | with at most num_max survivors in scope, exactly the expired entries in scope go |
| CookieStore.CollectRangeOverLimit | net/base/cookie_monster.cc:509-521 | with more than num_max survivors in scope, exactly num_max - num_purge of them remain |
| CookieStore.CollectRangeKeepsNewest | net/base/cookie_monster.cc:509-521 | each survivor the second pass deletes is no newer than any entry kept in scope |
| CookieStore.CollectRangeBound | net/base/cookie_monster.cc:488-524 | after collecting a range at most num_max entries are left in scope |
| CookieStore.TrimToLimitCount | net/base/cookie_monster.cc:509-521 | the second pass adds no entry under any key |
| CookieStore.CollectRangeCount | net/base/cookie_monster.cc:488-524 | collecting one range adds no entry under any key |
| CookieStore.CollectGarbageBounds | net/base/cookie_monster.cc:527-559 | after a collection the key holds at most kNumCookiesPerHost cookies and the map at most kNumCookiesTotal |
| CookieStore.CountBetweenAppend | net/base/cookie_monster.cc:583-593 | the counts of cookies created in the window add up over two runs |
| CookieStore.DeleteBetweenSpec | net/base/cookie_monster.cc:576-596 | a cookie is kept iff it was not created in the window (a null end meaning no upper bound), the kept ones keep their order, and as many go as were created in the window |
| CookieStore.CookieMonster.constructor | net/base/cookie_monster.cc:76-79 | a new store is empty and has seen no time |
| CookieStore.CookieMonster.CurrentTime | net/base/cookie_monster.cc:107-110 | the time handed out is not before the clock and after the last one seen: the clock, or one past the last time seen |
| CookieStore.CookieMonster.DeleteAll | net/base/cookie_monster.cc:561-574 | the map becomes empty and the count is the number of entries it held |
| CookieStore.CookieMonster.DeleteAllCreatedBetween | net/base/cookie_monster.cc:576-596 | the map keeps exactly the entries not created in the window, and the count is the number created in it |
| CookieStore.CookieMonster.GarbageCollectRange | net/base/cookie_monster.cc:488-524 | the map becomes CollectRange of the old map, and the count is the number of entries deleted |
| CookieStore.CookieMonster.GarbageCollect | net/base/cookie_monster.cc:527-559 | the map becomes CollectGarbage of the old map, and the count is the number of entries deleted |
| CookieStore.PurgeOldest | net/base/cookie_monster.cc:513-520 | the loop deletes exactly the purge oldest entries in scope |
| CookieStore.DeleteExpired | net/base/cookie_monster.cc:493-507 | the loop keeps exactly the first pass's survivors and counts those in scope |
| CookieStore.FindOldest | net/base/cookie_monster.cc:482-486 | the index found is that of the oldest entry in scope |
| QueryParser.LongEnoughSpec | chrome/browser/history/query_parser.cc:46-56 | a word allows prefix search iff it has at least three characters, or two starting with a Hangul syllable |
| QueryParser.MatchesSpec | chrome/browser/history/query_parser.cc:91-96 | a word long enough for prefix search matches, outside exact mode, exactly the words it is a prefix of; otherwise only itself |
| QueryParser.ExactMatchIsPrefixMatch | chrome/browser/history/query_parser.cc:91-96 | an exact match is also a prefix match |
| QueryParser.WordHasMatchInSpec | chrome/browser/history/query_parser.cc:83-89 | a word node has a match iff some word of the text matches it in prefix mode |
| QueryParser.MatchesEachSpec | chrome/browser/history/query_parser.cc:182-191 | each child matches, in exact mode, the word at the same position |
| QueryParser.Texts | chrome/browser/history/query_parser.cc:178-194 | a phrase of words has one text per child, in order |
| QueryParser.WindowFromSpec | chrome/browser/history/query_parser.cc:180-193 | the window search succeeds iff some window at or after its start matches |
| QueryParser.WindowMatchesWords | chrome/browser/history/query_parser.cc:182-191 | for a phrase of words a window matches exactly when it holds the phrase's words |
| QueryParser.PhraseHasMatchInSpec | chrome/browser/history/query_parser.cc:178-194 | a phrase of words matches iff its words occur as a contiguous run of the text's words, in order; a text shorter than the phrase never matches |
| QueryParser.TextWordsSpec | chrome/browser/history/query_parser.cc:285-302 | the words extracted are exactly the non-empty word spans |
| QueryParser.ExtractWords | chrome/browser/history/query_parser.cc:292-301 | the loop collects exactly the non-empty word spans, in order |
| QueryParser.DoesQueryMatch | chrome/browser/history/query_parser.cc:224-240 | the text matches iff there is a node and a word and every node has a match among the words |
| QueryParser.LeavesAppend | chrome/browser/history/query_parser.cc:148-157 | the words of two node lists follow each other |
| QueryParser.RemoveEmptyNoEmptyLists | chrome/browser/history/query_parser.cc:304-317 | after removing empty subnodes no list at any depth is empty |
| QueryParser.RemoveEmptyKeepsLeaves | chrome/browser/history/query_parser.cc:304-317 | removing empty subnodes keeps the words and their relative order |
| QueryParser.RemoveEmptyFixes | chrome/browser/history/query_parser.cc:304-317 | a tree without empty lists is left as it is |
| QueryParser.RemoveEmptyIdempotent | chrome/browser/history/query_parser.cc:304-317 | removing empty subnodes twice is the same as once |
| QueryParser.RemoveEmptySubnodes | chrome/browser/history/query_parser.cc:304-317 | the in-place loop, which erases a list emptied by the recursive call and keeps the index where it is, computes exactly RemoveEmpty |
| QueryParser.SerializeWord | chrome/browser/history/query_parser.cc:98-105 | a word is written as itself, followed by '*' exactly when it is not literal and long enough for prefix search |
| QueryParser.SerializeListLength | chrome/browser/history/query_parser.cc:148-157 | literal words are joined by single spaces: one space fewer than words |
| QueryParser.AppendToSQLiteQuery | chrome/browser/history/query_parser.cc:98-105 | appends the node's serialisation and reports how many words it holds: one for a word, those of its children for a phrase |
| QueryParser.AppendChildrenToString | chrome/browser/history/query_parser.cc:148-157 | appends the children separated by spaces and reports the total number of words |
| QueryParser.ParseQueryImpl | chrome/browser/history/query_parser.cc:242-283 | the loop over the spans with its stack of open lists computes exactly Parse |
| QueryParser.ParseQueryToSQLite | chrome/browser/history/query_parser.cc:209-215 | the query written is the serialised root list, and the count is the number of words in it |
| QueryParser.ParseFoldShape | chrome/browser/history/query_parser.cc:255-279 | the loop keeps top-level words non-literal and the open phrase's words literal |
| QueryParser.ParseStepLeaves | chrome/browser/history/query_parser.cc:259-278 | one iteration adds a word span's text to the words and leaves them alone otherwise |
| QueryParser.ParseFoldLeaves | chrome/browser/history/query_parser.cc:255-279 | after the loop the words of the tree are exactly the word spans, in order |
| QueryParser.RemoveEmptyShape | chrome/browser/history/query_parser.cc:304-317 | removing empty subnodes keeps that shape |
| QueryParser.ParseSpec | chrome/browser/history/query_parser.cc:242-283 | after parsing, the query's words are exactly the word spans in order, top-level words are not literal, each phrase is a non-empty run of literal words, and no list is empty |
| QueryParser.ParseFoldWords | chrome/browser/history/query_parser.cc:255-279 | without quote characters the loop only appends non-literal words |
| QueryParser.ParseWithoutQuotes | chrome/browser/history/query_parser.cc:242-283 | a query without quote characters parses to its words in order, none literal |
| Multipart.PushOverLine | webkit/glue/multipart_response_delegate.cc:150-158 | at most two characters are skipped: none unless a '\r' or '\n' is at the position, and two when a '\n' follows it |
| Multipart.PushOverLineSkipsLineBreak | webkit/glue/multipart_response_delegate.cc:150-158 | what is skipped is empty or one of "\r", "\n", "\r\n" and "\n\n" |
| Multipart.FindChar | webkit/glue/multipart_response_delegate.cc:165 | the index is the first at or after the start holding the character, or there is none |
| Multipart.HeaderEndFrom | webkit/glue/multipart_response_delegate.cc:164-182 | the end of the header block, when found, lies past its start |
| Multipart.HeaderEndIsBlankLine | webkit/glue/multipart_response_delegate.cc:166-182 | the header block found ends with a blank line ("\n" or "\r\n") that begins a line |
| Multipart.BlankLineIsFound | webkit/glue/multipart_response_delegate.cc:166-182 | whenever a blank line begins a line of the block, the scan stops at or before it |
| Multipart.SplitHeaders | webkit/glue/multipart_response_delegate.cc:183-190 | consuming a header block always shortens the buffer |
| Multipart.SearchBoundaryBounds | webkit/glue/multipart_response_delegate.cc:239-253 | the boundary afterwards is the old one, possibly with "--" in front, and fits in the buffer at the position returned |
| Multipart.SearchBoundarySpec | webkit/glue/multipart_response_delegate.cc:239-253 | a position is returned iff the boundary occurs; the possibly extended boundary occurs there, and the bytes before it contain no boundary |
| Multipart.ScanStep | webkit/glue/multipart_response_delegate.cc:112-135 | an iteration that does not end the loop shortens the buffer |
| Multipart.AfterBoundary | webkit/glue/multipart_response_delegate.cc:118-134 | past the boundary the buffer shrinks below what followed the position |
| Multipart.AfterBoundaryStops | webkit/glue/multipart_response_delegate.cc:119-124 | a '-' right after the boundary stops sending and clears the buffer |
| Multipart.AfterBoundaryContinues | webkit/glue/multipart_response_delegate.cc:126-134 | otherwise the boundary and one line break are dropped and the next header block is parsed |
| Multipart.NextPart | webkit/glue/multipart_response_delegate.cc:131-134 | parsing the next header block, when it completes, shortens the buffer |
| Multipart.ScanStepSpec | webkit/glue/multipart_response_delegate.cc:112-135 | one iteration keeps the invariant, only appends client callbacks and only prefixes the boundary with dashes |
| Multipart.AfterBoundaryValid | webkit/glue/multipart_response_delegate.cc:118-134 | the rest of an iteration keeps the invariant and the boundary |
| Multipart.ScanPartsSpec | webkit/glue/multipart_response_delegate.cc:112-135 | across the boundary loop the invariant holds, callbacks are only appended and the boundary only gains leading dashes |
| Multipart.ReceiveSpec | webkit/glue/multipart_response_delegate.cc:62-136 | receiving data keeps the invariant, only appends callbacks and only lengthens the boundary by leading dashes |
| Multipart.AfterFirstDataSpec | webkit/glue/multipart_response_delegate.cc:98-135 | finishing a pending header block and splitting off the parts keeps the invariant, only appends callbacks and only extends the boundary |
| Multipart.ReceiveAfterStop | webkit/glue/multipart_response_delegate.cc:63-67 | once the close delimiter has been seen, data is thrown away: nothing changes |
| Multipart.FirstData | webkit/glue/multipart_response_delegate.cc:75-95 | on the first data a leading line break is dropped; with too few bytes for a boundary the delegate waits without handing anything on, otherwise the buffer goes on starting with the boundary, prepended when missing |
| Multipart.ScanStepForwards | webkit/glue/multipart_response_delegate.cc:113-128 | bytes before a boundary are handed on verbatim as one chunk that holds no boundary |
| Multipart.MultipartResponseDelegate.constructor | webkit/glue/multipart_response_delegate.cc:47-60 | the boundary is stored with "--" in front, the delegate waits for its first data and the invariant holds |
| Multipart.MultipartResponseDelegate.ParseHeaders | webkit/glue/multipart_response_delegate.cc:160-235 | a complete header block is consumed and one response built from it is handed on; otherwise nothing changes |
| Multipart.MultipartResponseDelegate.FindBoundary | webkit/glue/multipart_response_delegate.cc:239-253 | the position and the new boundary are those SearchBoundary specifies |
| Multipart.MultipartResponseDelegate.OnReceivedData | webkit/glue/multipart_response_delegate.cc:62-136 | the new state is Receive of the old one and the chunk, and the invariant is kept |
| Multipart.MultipartResponseDelegate.ProcessBuffer | webkit/glue/multipart_response_delegate.cc:98-135 | the state becomes AfterFirstData of the old state |
| Multipart.MultipartResponseDelegate.TakeFirstData | webkit/glue/multipart_response_delegate.cc:75-95 | the buffer loses a leading line break; the delegate waits with too few bytes, and otherwise the buffer starts with the boundary |
| Multipart.MultipartResponseDelegate.ScanLoop | webkit/glue/multipart_response_delegate.cc:110-135 | the loop computes exactly ScanParts |
| Multipart.MultipartResponseDelegate.ScanOnce | webkit/glue/multipart_response_delegate.cc:112-135 | one iteration computes exactly ScanStep |
| Multipart.MultipartResponseDelegate.FinishPart | webkit/glue/multipart_response_delegate.cc:118-134 | the rest of an iteration computes exactly AfterBoundary |
| Multipart.MultipartResponseDelegate.SkipPastBoundary | webkit/glue/multipart_response_delegate.cc:126-134 | dropping the boundary and a line break and parsing the next block computes exactly AfterBoundary |
| Multipart.MultipartResponseDelegate.ReadNextHeaders | webkit/glue/multipart_response_delegate.cc:131-134 | parsing the next block or waiting computes exactly NextPart |
| Multipart.MultipartResponseDelegate.OnCompletedRequest | webkit/glue/multipart_response_delegate.cc:138-148 | whatever is buffered is handed on as one chunk, unless inside a header block or the buffer is empty |
| GoogleChromeDistribution.GetInstallReturnCode | chrome/installer/util/google_chrome_distribution.cc:115-126 | the exit code is 0 exactly for the four success statuses, and the status itself otherwise |
| GoogleChromeDistribution.RFindFrom | chrome/installer/util/google_chrome_distribution.cc:90-91 | the index is the last occurrence at or before the start, or there is none |
| GoogleChromeDistribution.RFind | chrome/installer/util/google_chrome_distribution.cc:90-91 | the index is the last occurrence of the pattern, or there is none |
| GoogleChromeDistribution.HasMagicString | chrome/installer/util/google_chrome_distribution.cc:89-94 | the length check and last-occurrence test is exactly "the value ends with -full" |
| GoogleChromeDistribution.FailedIncrementalMarks | chrome/installer/util/google_chrome_distribution.cc:100-104 | after a failed incremental install the value ends in "-full", appended only when it was not already there |
| GoogleChromeDistribution.FullOrSuccessClears | chrome/installer/util/google_chrome_distribution.cc:97-99 | a full install, or a successful incremental one, removes exactly one trailing "-full" and otherwise keeps the value |
| GoogleChromeDistribution.GetNewGoogleUpdateApKey | chrome/installer/util/google_chrome_distribution.cc:84-107 | the value only gains or loses one "-full", or stays the same; after a failed incremental install it ends in "-full", and any other install can only remove one |
| GoogleChromeDistribution.FailedIncrementalIdempotent | chrome/installer/util/google_chrome_distribution.cc:100-104 | marking a failed incremental install twice is the same as once |
| GoogleChromeDistribution.SuccessUndoesFailure | chrome/installer/util/google_chrome_distribution.cc:84-107 | a later successful install undoes the mark a failed incremental install set on an unmarked value |
| GoogleChromeDistribution.ApKeyExamples | chrome/installer/util/google_chrome_distribution.cc:84-107 | only one suffix is removed, and a full install clears the mark even when it failed |
| GKURL.ProtocolIs | webkit/port/platform/GKURL.cpp:860-873 | the character loop answers true iff the URL begins with the protocol, ignoring ASCII case, followed by a colon |
| GKURL.HasProtocolIgnoresCase | webkit/port/platform/GKURL.cpp:868-871 | the scheme test ignores the case of the URL |
| GKURL.MimeTypeFromDataURL | webkit/port/platform/GKURL.cpp:592-608 | the MIME type is the text between "data:" and the first ';' (or, without one, the first ','), "text/plain" when that text is empty, and "" when there is neither separator |
| GKURL.MimeTypeBeforeUnique | webkit/port/platform/GKURL.cpp:598-605 | the MIME type is determined by the separator that ends it |
| GKURL.MimeTypeWithParameters | webkit/port/platform/GKURL.cpp:598-604 | "data:text/html;base64,PGI+" gives "text/html" |
| GKURL.MimeTypeDefault | webkit/port/platform/GKURL.cpp:605 | "data:,hello" gives "text/plain" |
| GKURL.MimeTypeMissing | webkit/port/platform/GKURL.cpp:607 | "data:image/png" gives "" |
| GKURL.HexDigit | webkit/port/platform/GKURL.cpp:657 | the digit written for a value is a hex digit that reads back as that value |
| GKURL.DecodeEscaped | webkit/port/platform/GKURL.cpp:657 | an escape decodes only when two hex digits follow the '%', to their value |
| GKURL.NulEscapeIsLiteral | webkit/port/platform/GKURL.cpp:658-662 | the only escape decoding to NUL is "%00" |
| GKURL.UnescapeAt | webkit/port/platform/GKURL.cpp:654-674 | each input byte is copied, a valid escape is replaced by its byte (NUL staying "%00"), and an invalid one keeps its '%' |
| GKURL.UnescapePass | webkit/port/platform/GKURL.cpp:649-674 | the loop computes exactly Unescape of the UTF-8 bytes |
| GKURL.UnescapeOne | webkit/port/platform/GKURL.cpp:655-673 | one iteration consumes one or three bytes and pushes what Unescape gives for them |
| GKURL.UnescapeNoNul | webkit/port/platform/GKURL.cpp:658-662 | NUL is never unescaped: input without NUL gives output without NUL |
| GKURL.UnescapeWithoutPercent | webkit/port/platform/GKURL.cpp:670-673 | text without '%' is left alone |
| GKURL.UnescapeShrinks | webkit/port/platform/GKURL.cpp:654-674 | unescaping never lengthens the input |
| GKURL.EncodeWithURLEscapeSequences | webkit/port/platform/GKURL.cpp:753-773 | the loop computes exactly EncodeNul of the UTF-8 bytes |
| GKURL.EncodeNulSpec | webkit/port/platform/GKURL.cpp:765-770 | the output holds no NUL, grows by two bytes per NUL, and equals the input when there was none |
| GKURL.EscapeAll | webkit/port/platform/GKURL.cpp:657 | escaping every byte triples the length |
| GKURL.UnescapeEscapeAll | webkit/port/platform/GKURL.cpp:654-674 | unescaping a fully escaped string gives back what encodeWithURLEscapeSequences produces from the original |
| GKURL.UnescapeEscapeAllNoNul | webkit/port/platform/GKURL.cpp:654-674 | for NUL-free input unescaping undoes escaping |
| GKURL.Kurl.LengthWithoutRef | webkit/port/platform/GKURL.cpp:803-812 | the length before the reference lies between 0 and the spec's length |
| GKURL.StrNCmpPrefixes | webkit/port/platform/GKURL.cpp:814 | for NUL-free buffers at least n long, strncmp compares the first n bytes |
| GKURL.EqualIgnoringRefSpec | webkit/port/platform/GKURL.cpp:800-815 | two URLs are equal ignoring the reference iff their specs agree up to the '#' |
| GKURL.EqualIgnoringRefEquivalence | webkit/port/platform/GKURL.cpp:800-815 | equality ignoring the reference is reflexive, symmetric and transitive |
| GKURL.Substring | webkit/port/platform/GKURL.cpp:243 | WebCore `substring(pos, len)`: empty from a position past the end, and otherwise the min(len, length − pos) bytes found at `pos` |
| GKURL.ComponentString | webkit/port/platform/GKURL.cpp:226-244 | the null URL gives the null string, an invalid URL or absent component the empty one, and otherwise the component's bytes as found in the spec, clipped to its length (the `substring(begin, len)` of the spec) |
| GKURL.URLString.constructor | webkit/port/platform/GKURL.cpp:99-103 | a new URL string is null, flagged ASCII and has no valid UTF-16 copy |
| GKURL.URLString.SetUtf8 | webkit/port/platform/GKURL.cpp:108-124 | the data is stored, flagged ASCII exactly when no byte is 0x80 or above, and the cached copy invalidated |
| GKURL.URLString.SetAscii | webkit/port/platform/GKURL.cpp:126-130 | the data is stored and flagged ASCII without looking; the flag is correct when the caller is right |
| TaskManager.DistinctRemoveAt | chrome/browser/task_manager.cc:386 | erasing one entry from a list without repeats keeps it without repeats and removes exactly that entry |
| TaskManager.DistinctInsert | chrome/browser/task_manager.cc:342 | inserting a new entry keeps the list without repeats |
| TaskManager.FindIndex | chrome/browser/task_manager.cc:336-341 | std::find returns the first index holding the entry |
| TaskManager.FlattenSplitAt | chrome/browser/task_manager.cc:335-342 | the rows are the groups before a position, the group at it and the groups after it |
| TaskManager.LastIndexOfProcess | chrome/browser/task_manager.cc:336-341 | the index found is the last row of the process, or the process has no row |
| TaskManager.InsertInGroup | chrome/browser/task_manager.cc:317-343 | adding a resource adds exactly one row |
| TaskManager.AddedRow | chrome/browser/task_manager.cc:322-342 | the row computed holds the new resource |
| TaskManager.NotifiedRowAsWrittenIsOffByOne | chrome/browser/task_manager.cc:336-350 | when the process already has rows, the observer is told of a row one above where the resource was put, and that row does not hold it |
| TaskManager.NotifiedRowAsWrittenExample | chrome/browser/task_manager.cc:336-350 | a second tab of one renderer lands in row 1 while the observer is told row 0 |
| TaskManager.AddNewGroup | chrome/browser/task_manager.cc:323-330 | a resource of a new process starts a new group at the end of the rows |
| TaskManager.GroupSplit | chrome/browser/task_manager.cc:335-342 | the rows split around a group, and only the middle part holds resources of its process |
| TaskManager.LastIndexOfGroup | chrome/browser/task_manager.cc:336-341 | the last row of a process is the last row of its group |
| TaskManager.ReplaceGroupValid | chrome/browser/task_manager.cc:362-366 | a non-empty group of the same process may replace a group when the rows stay without repeats |
| TaskManager.AppendToGroupValid | chrome/browser/task_manager.cc:331-343 | appending to a group inserts the resource into the rows just after the group's last row, keeping the state valid |
| TaskManager.AddToGroup | chrome/browser/task_manager.cc:331-343 | for a process with rows, the resource goes right after the group's last row, which is where InsertInGroup puts it |
| TaskManager.RemoveKeepsGroup | chrome/browser/task_manager.cc:361-386 | removing one of several resources of a group keeps the state valid |
| TaskManager.DropGroupValid | chrome/browser/task_manager.cc:369-372 | dropping a group from the order and the map lays out the groups before and after it |
| TaskManager.RemoveLastOfGroup | chrome/browser/task_manager.cc:369-386 | removing the last resource of a process drops its group and keeps the state valid |
| TaskManager.RowInItsGroup | chrome/browser/task_manager.cc:230-233 | every row belongs to the group of its process, which has a place in the group order |
| TaskManager.GroupBlock | chrome/browser/task_manager.cc:225-245 | every row's group occupies a contiguous block of rows containing it |
| TaskManager.UsagePerSecond | chrome/browser/task_manager.cc:435-440 | when the refresh period divides a second, the usage is the byte count scaled to one second exactly |
| TaskManager.DisplayedUsage | chrome/browser/task_manager.cc:429-445 | with the one-second refresh period the displayed usage is the byte count |
| TaskManager.FirstProviderResourceSpec | chrome/browser/task_manager.cc:478-485 | a resource is found iff some provider knows the key, and then it is the first such provider's |
| TaskManager.ProviderLookupAsWrittenSpec | chrome/browser/task_manager.cc:477-486 | with no provider the search reads an uninitialised pointer; with providers it agrees with the corrected search |
| TaskManager.LookupResource | chrome/browser/task_manager.cc:477-486 | the provider loop, starting from null, finds exactly the first provider's resource for the key |
| TaskManager.InsertIntoLayout | chrome/browser/task_manager.cc:317-346 | the resource joins the end of its group or starts a new group, the rows become InsertInGroup and the state stays valid |
| TaskManager.RemoveFromLayout | chrome/browser/task_manager.cc:353-386 | the resource leaves its group and the rows, a group left empty leaves the map, and the state stays valid |
| TaskManager.TaskManagerTableModel.constructor | chrome/browser/task_manager.cc:96-115 | a new model has no rows, groups, metrics or counters, is not updating, and has the browser, web-contents and plugin providers registered in that order |
| TaskManager.TaskManagerTableModel.AddResourceProvider | chrome/browser/task_manager.cc:293-297 | the provider is appended |
| TaskManager.TaskManagerTableModel.RemoveResourceProvider | chrome/browser/task_manager.cc:299-307 | the first occurrence of the provider is erased |
| TaskManager.TaskManagerTableModel.StartUpdating | chrome/browser/task_manager.cc:252-271 | the model becomes updating |
| TaskManager.TaskManagerTableModel.StopUpdating | chrome/browser/task_manager.cc:273-291 | the model stops updating |
| TaskManager.TaskManagerTableModel.AddResource | chrome/browser/task_manager.cc:317-351 | the rows become InsertInGroup, the group map gains the resource, the metrics follow the groups, and the row reported holds the resource |
| TaskManager.TaskManagerTableModel.RemoveResource | chrome/browser/task_manager.cc:353-399 | the row is erased, the resource leaves its group (the group and its metrics going when emptied) and both byte maps, and the row reported is where it was |
| TaskManager.TaskManagerTableModel.GetGroupRangeForItem | chrome/browser/task_manager.cc:225-245 | the range is the block of rows of the item's group, containing the item, and the item itself for a group of one |
| TaskManager.TaskManagerTableModel.Clear | chrome/browser/task_manager.cc:401-426 | a model with rows is emptied, maps included; one without rows is left as it is |
| TaskManager.TaskManagerTableModel.Refresh | chrome/browser/task_manager.cc:429-448 | every counted resource's displayed usage becomes its count per second and its count restarts at 0 |
| TaskManager.TaskManagerTableModel.GetNetworkUsageForResource | chrome/browser/task_manager.cc:455-461 | the displayed usage, or 0 for a resource without one |
| TaskManager.TaskManagerTableModel.BytesRead | chrome/browser/task_manager.cc:463-504 | when updating, with bytes read and a provider knowing the request, that provider's resource is marked as supporting network usage and its count grows by the bytes; otherwise nothing changes |
| PluginTest.ToHex | webkit/glue/plugins/test/plugin_test.cc:60-62 | values 0-9 become the digits '0'-'9' and 10-15 the letters 'A'-'F' |
| PluginTest.ToHexRoundTrip | webkit/glue/plugins/test/plugin_test.cc:60-62 | a hex digit made by toHex reads back as the value it was made from |
| PluginTest.Escape | webkit/glue/plugins/test/plugin_test.cc:75-77 | an escaped byte is '%' and two upper-case hex digits whose value is the byte |
| PluginTest.EscapeAsWrittenOnAscii | webkit/glue/plugins/test/plugin_test.cc:75-77 | the escape as written agrees with the intended one on 7-bit characters |
| PluginTest.EscapeAsWrittenHighBytes | webkit/glue/plugins/test/plugin_test.cc:76 | on a byte of 0x80 or more the first digit as written is one of "/0123456", never the intended 8-F |
| PluginTest.EscapeAsWrittenFF | webkit/glue/plugins/test/plugin_test.cc:76-77 | the byte 0xFF comes out as "%66" instead of "%FF" |
| PluginTest.EncodeChar | webkit/glue/plugins/test/plugin_test.cc:70-78 | each character becomes one output character or three |
| PluginTest.URLEncode | webkit/glue/plugins/test/plugin_test.cc:64-82 | the loop computes exactly URLEncodeSpec |
| PluginTest.EncodeOne | webkit/glue/plugins/test/plugin_test.cc:69-78 | one iteration appends exactly what EncodeChar gives |
| PluginTest.URLEncodeShape | webkit/glue/plugins/test/plugin_test.cc:64-82 | one output character per kept or '+' character and three per escaped one, and no whitespace in the output |
| PluginTest.URLEncodeRoundTrip | webkit/glue/plugins/test/plugin_test.cc:64-82 | form decoding ('+' as space, %XX as the byte) undoes the encoding for text whose only whitespace is space, LF and CR |
| PluginTest.FirstArgSpec | webkit/glue/plugins/test/plugin_test.cc:113-119 | the value found is that of the first of the first argc arguments whose name equals the name ignoring case, or none when no such argument exists |
| PluginTest.FirstArgIgnoresCase | webkit/glue/plugins/test/plugin_test.cc:116 | the lookup ignores the case of the name it is given |
| PluginTest.GetArgValue | webkit/glue/plugins/test/plugin_test.cc:113-119 | the loop finds exactly FirstArg |
| PluginTest.CompletionUrlDecodes | webkit/glue/plugins/test/plugin_test.cc:84-111 | the completion URL is a javascript: URL whose form-decoded body is the script, when the name, id and status use only plain spacing |
| PluginTest.ComposeScript | webkit/glue/plugins/test/plugin_test.cc:90-106 | the script is onSuccess(name, id) with no recorded error, and onFailure(name, id, status) otherwise |
| PluginTest.PluginTestObject.constructor | webkit/glue/plugins/test/plugin_test.cc:35-39 | a new test has no name, id or status and has requested no URL |
| PluginTest.PluginTestObject.New | webkit/glue/plugins/test/plugin_test.cc:41-46 | the name and id become the values of the first "name" and "id" arguments |
| PluginTest.PluginTestObject.SetError | webkit/glue/plugins/test/plugin_test.cc:121-123 | the message is appended to the status, and a non-empty one makes the test fail |
| PluginTest.PluginTestObject.SignalTestCompleted | webkit/glue/plugins/test/plugin_test.cc:84-111 | the browser is asked to load exactly the completion URL for the recorded name, id and status |
| PlatformUtilsMac.ReplaceBackslashes | webkit/tools/layout_tests/layout_package/platform_utils_mac.py:60 | each backslash becomes '/', every other character is kept, and the length is the same |
| PlatformUtilsMac.ReplaceBackslashesKeepsSlashPaths | webkit/tools/layout_tests/layout_package/platform_utils_mac.py:60 | a path without backslashes is unchanged |
| PlatformUtilsMac.ParseDecimalOfNatToString | webkit/tools/layout_tests/layout_package/platform_utils_mac.py:61 | the port written in decimal reads back as the port |
| PlatformUtilsMac.ServerPartRoundTrip | webkit/tools/layout_tests/layout_package/platform_utils_mac.py:61 | the port and path after the host read back as written |
| PlatformUtilsMac.HttpUriRoundTrip | webkit/tools/layout_tests/layout_package/platform_utils_mac.py:56-61 | an http URI reads back as its scheme, port and the path with backslashes turned into slashes |
| PlatformUtilsMac.FileUriRoundTrip | webkit/tools/layout_tests/layout_package/platform_utils_mac.py:62 | a file URI reads back as the absolute path |
| PlatformUtilsMac.FilenameToUriWithRoundTrip | webkit/tools/layout_tests/layout_package/platform_utils_mac.py:44-62 | the scheme, port and path read back from the URI built; only the backslashes are lost |
| PlatformUtilsMac.FilenameToUri | webkit/tools/layout_tests/layout_package/platform_utils_mac.py:64-95 | layout and pending http tests are served below their directory, other http tests with their whole path, ssl/ tests 443 ports higher over https, and every other test from its absolute path |
| PlatformUtilsMac.ServedPorts | webkit/tools/layout_tests/layout_package/platform_utils_mac.py:69-91 | the server ports are 8000/8443, 9000/9443 and 8081/8524, https exactly on the ssl ports, and a test is served over http iff it lies under one of the http directories |
| PlatformUtilsMac.LayoutHttpExample | webkit/tools/layout_tests/layout_package/platform_utils_mac.py:69-72 | a layout http test is served on 8000 below its directory, although its path also contains "/http/" |
| PlatformUtilsMac.LayoutSslExample | webkit/tools/layout_tests/layout_package/platform_utils_mac.py:83-86 | an ssl test among the layout http tests goes to 8443 over https |
| PlatformUtilsMac.OtherHttpExample | webkit/tools/layout_tests/layout_package/platform_utils_mac.py:77-80 | another test under an http directory keeps its whole relative path and goes to 8081 |
| PlatformUtilsMac.FileExample | webkit/tools/layout_tests/layout_package/platform_utils_mac.py:93-95 | any other test is loaded from its absolute path |

## Left out

- Reading the expectation files, `os.path.isdir` and the layout data directory: the file lines and the directory listing are parameters (`Env`).
- `RelativeTestFilename` and `os.path.abspath`: the relative and the absolute path are parameters of `FilenameToUri`.
- The debug `print`, `LigHTTPdExecutablePath`, `LigHTTPdModulePath`, `LigHTTPdPHPPath` and `ShutDownHTTPServer`: they only name files or stop a process.
- Where the documented expectation syntax and the code differ, the model follows the code:
  - an unknown SKIP/DEFER flag or an unknown build type is not an error;
  - the ':' split must give exactly two parts for the flags to be read.
- ExpectationsStore.PathJoin: POSIX only. The separator is '/', not the host's `os.sep`, so the Windows form of `os.path.join` (drive letters, backslashes) is not modelled.
- ExpectationsStore.TestExpectationsFile.AddTests: the outcome buckets are rewritten in one map comprehension. The code instead removes the test from every bucket in one loop and adds it in another; the resulting state is the same.
- The `AutoLock` of the cookie store: cookie operations are taken to be sequential.
- `PersistentCookieStore` and the `sync_to_store` flag: nothing is written to disk.
- `SetCookie`, `SetCookieWithCreationTime`, `DeleteEquivalentCookies`, `DeleteCookie`, `GetAllCookies` and `FindCookiesForHostAndDomain`: they depend on `GetCookieDomainKey`, which needs host canonicalisation and the registry-controlled domain list.
- `GetCookiesWithOptions` therefore takes the cookies it finds as a parameter. `CanonExpiration` (Max-Age via `sscanf`) is left out with them.
- `Time::Now` and `Time::FromUTCExploded`:
  - the clock reading is a parameter of `CurrentTime`;
  - `ParseCookieTime` returns the exploded fields it checked instead of a `Time`;
  - a time is an integer.
- `DeleteAllCreatedAfter` is `DeleteAllCreatedBetween` with a null end. The null end is covered by `CreatedBetween`, so it has no member of its own.
- net/base/cookie_monster.h is not part of this model. `kMaxCookieSize` (4096), `kMaxPairs` (16) and `CanonicalCookie::IsExpired` are taken from the published header.
- ParsedCookies.ParsedCookie: `DebugString` and the attribute value getters other than `Path` are left out (debug output and trivial reads).
- CookieStore.CookieMonster.GarbageCollectRange: the second pass runs on the entry list as a value (`PurgeOldest`), not on the multimap's iterators. `partial_sort` is modelled as repeated removal of the oldest entry in scope, the first of equals first. Among entries of equal creation time the source's choice is unspecified, so the model fixes one.
- CookieStore.CookieMonster.GarbageCollect: `numDeleted` is stated as the size difference rather than counted per deletion.
- ICU `WordIterator` and `l10n_util::ToLower` in the query parser: the text arrives already lower-cased and split into spans.
- The cookie line is a `std::string` of bytes: in ParsedCookies and CookieTime a char stands for one byte, so `kMaxCookieSize` and the token-length tests of `ParseCookieTime` count chars as bytes. Multi-byte characters are not modelled.
- The UTF-8 to UTF-16 pass of `decodeURLEscapeSequences`: only the byte-level unescape is modelled, and characters are bytes.
- googleurl's canonicaliser, `ReplaceComponents`, `ReadUTFChar` and the `KURL` constructors: a `Kurl` is its canonical spec and the position of its reference. `DecodeEscaped` is written out as "% and two hex digits".
- GKURL.URLString: the lazily built UTF-16 copy (`string()`) is left out, and only the flag that marks it stale is kept.
- `net::GetSpecificHeader` and WebCore's `ResourceResponse` in the multipart delegate: a response event carries the header block it was built from, and client callbacks are recorded as events.
- `ProcessMetrics`, the update timer, the IO-thread job notifications and the table observer in the task manager:
  - a process-metrics entry is a set member;
  - resource providers are maps from the request key to the resource;
  - the observer's row index is the method's result.
- TaskManager.TaskManagerTableModel.Clear: with no rows nothing changes, and the byte maps are kept as the code keeps them.
- TaskManager.InsertIntoLayout and TaskManager.RemoveFromLayout work on the row list and group map as values, and the class methods assign the results. Aliasing between the group lists and the row list is not modelled.
- `TaskManagerContents`, `GetText`, `GetIcon`, `GetProcessAt` and the window code: they are UI.
- The InstallStatus values are not known here: chrome/installer/util/util_constants.h is not part of this model. A failing status is any non-zero code.
- `UpdateDiffInstallStatus`: registry access around `GetNewGoogleUpdateApKey`.
- `host_functions_->geturl`: the requested URLs are recorded in `requestedUrls`.
- webkit/glue/plugins/test/plugin_test.h is not part of this model. `Succeeded()` is taken to mean an empty status.
- `isalnum` and `isspace` are those of the "C" locale on the character's value. A byte of 0x80 or more, which is negative as a `char`, counts as neither.
- PluginTest.PluginTestObject.New requires both the "name" and the "id" argument: a missing one would assign a null pointer to a `std::string`.
- The NPAPI stream and event callbacks of the test plugin return constants and are left out.

## Findings

| source | as written | input that shows it | evidently intended | confidence | as-written member | corrected member |
|---|---|---|---|---|---|---|
| chrome/browser/task_manager.cc:336-350 | `AddResource` reports the index of the group's previous last row to the observer, one above the row where the resource is inserted | a second resource of a process whose only row is row 0: it lands in row 1 while the observer is told row 0 | report the row the resource was inserted at | not executed; high | TaskManager.NotifiedRowAsWrittenIsOffByOne | TaskManager.TaskManagerTableModel.AddResource |
| chrome/browser/task_manager.cc:477-486 | `BytesRead` declares `resource` without initialising it, and the provider loop is the only place it is assigned | once `RemoveResourceProvider` has removed all three providers the constructor registers, a `BytesRead` with a non-zero byte count while updating: the null test reads an uninitialised pointer | start the search from a null resource | not executed; high | TaskManager.ProviderLookupAsWrittenSpec | TaskManager.LookupResource |
| webkit/glue/plugins/test/plugin_test.cc:76-77 | the hex digits of an escaped character are computed from the signed `char`: `ch>>4` and `ch%16` are negative for bytes of 0x80 and above | the byte 0xFF is written as "%66" | "%FF": the byte's two upper-case hex digits | not executed; high | PluginTest.EscapeAsWrittenFF | PluginTest.URLEncodeRoundTrip |
