// `CookieMonster::ParseCookieTime` (net/base/cookie_monster.cc): the lenient
// parser of a cookie's `expires` attribute. The string tokenizer, `atoi` and
// `sscanf` are library code and appear here as the functions they compute;
// `Time::FromUTCExploded` is left to the caller, so a successful parse yields
// the exploded fields and a failed one yields None (the null `Time()`).
module CookieTime {
  import opened Common

  /** Every character that separates tokens: all ASCII punctuation except `:`,
      plus space and tab. */
  const Delimiters: string := "\t !\"#$%&'()*+,-./;<=>?@[\\]^_`{|}~"

  const Months: seq<string> :=
    ["jan", "feb", "mar", "apr", "may", "jun", "jul", "aug", "sep", "oct", "nov", "dec"]

  /** Membership in `Delimiters`, by character ranges: tab, and the four
      ASCII punctuation blocks around the digits and the letters. */
  predicate IsDelimiter(c: char)
  {
    c == '\t' || ' ' <= c <= '/' || ';' <= c <= '@' || '[' <= c <= '`' || 'z' < c <= '~'
  }

  /** The ranges are exactly the characters of the delimiter string. */
  lemma DelimitersAsListed(c: char)
    ensures IsDelimiter(c) <==> c in Delimiters
  {
  }

  predicate IsDigit(c: char) { '0' <= c <= '9' }

  /** `isspace` in the C locale, which `%u` skips. */
  predicate IsCSpace(c: char)
  {
    c == ' ' || c == '\t' || c == '\n' || c == '\U{b}' || c == '\U{c}' || c == '\r'
  }

  // ---------------------------------------------------------------------------
  // The tokenizer

  /** The maximal runs of non-delimiter characters, in order. */
  function Tokens(s: string): (r: seq<string>)
    ensures forall i :: 0 <= i < |r| ==> |r[i]| > 0
    ensures forall i, k :: 0 <= i < |r| && 0 <= k < |r[i]| ==> !IsDelimiter(r[i][k])
  {
    TokensFrom(s, 0)
  }

  function TokensFrom(s: string, i: nat): (r: seq<string>)
    requires i <= |s|
    ensures forall j :: 0 <= j < |r| ==> |r[j]| > 0
    ensures forall j, k :: 0 <= j < |r| && 0 <= k < |r[j]| ==> !IsDelimiter(r[j][k])
    decreases |s| - i
  {
    if i == |s| then []
    else if IsDelimiter(s[i]) then TokensFrom(s, i + 1)
    else
      var j := RunEnd(s, i);
      [s[i..j]] + TokensFrom(s, j)
  }

  function RunEnd(s: string, i: nat): (j: nat)
    requires i <= |s|
    ensures i <= j <= |s|
    ensures forall k :: i <= k < j ==> !IsDelimiter(s[k])
    ensures j < |s| ==> IsDelimiter(s[j])
    ensures i < |s| && !IsDelimiter(s[i]) ==> j > i
    decreases |s| - i
  {
    if i == |s| || IsDelimiter(s[i]) then i else RunEnd(s, i + 1)
  }

  // ---------------------------------------------------------------------------
  // Field recognisers

  /** The month whose three-letter abbreviation the token starts with, ignoring
      case (`strncasecmp(token, month, 3) == 0`): its index into `Months`. */
  function MonthIndex(token: string): (r: Option<nat>)
    ensures r.Some? ==> r.value < 12 && |token| >= 3 && ToLowerAscii(token[..3]) == Months[r.value]
    ensures r.None? ==> forall m :: 0 <= m < 12 ==> !MonthMatches(token, m)
  {
    MonthFrom(token, 0)
  }

  predicate MonthMatches(token: string, m: nat)
    requires m < 12
  {
    |token| >= 3 && ToLowerAscii(token[..3]) == Months[m]
  }

  function MonthFrom(token: string, m: nat): (r: Option<nat>)
    requires m <= 12
    ensures r.Some? ==> m <= r.value < 12 && MonthMatches(token, r.value)
    ensures r.None? ==> forall k :: m <= k < 12 ==> !MonthMatches(token, k)
    decreases 12 - m
  {
    if m == 12 then None
    else if MonthMatches(token, m) then Some(m)
    else MonthFrom(token, m + 1)
  }

  function DigitValue(c: char): nat
    requires IsDigit(c)
  {
    c as int - '0' as int
  }

  /** The number of leading digits of `t` from `i`. */
  function DigitRun(t: string, i: nat): (j: nat)
    requires i <= |t|
    ensures i <= j <= |t|
    ensures forall k :: i <= k < j ==> IsDigit(t[k])
    ensures j < |t| ==> !IsDigit(t[j])
    decreases |t| - i
  {
    if i == |t| || !IsDigit(t[i]) then i else DigitRun(t, i + 1)
  }

  /** The decimal value of a string of digits. */
  function DecimalValue(ds: string): (r: nat)
    requires forall k :: 0 <= k < |ds| ==> IsDigit(ds[k])
    ensures r < Power10(|ds|)
  {
    if ds == [] then 0
    else DecimalValue(ds[..|ds| - 1]) * 10 + DigitValue(ds[|ds| - 1])
  }

  function Power10(n: nat): (r: nat)
    ensures r >= 1
  {
    if n == 0 then 1 else 10 * Power10(n - 1)
  }

  /** `atoi` of a token that starts with a digit: the value of its leading digits. */
  function Atoi(t: string): nat
  {
    DecimalValue(t[..DigitRun(t, 0)])
  }

  /** One `%2u` conversion starting at `i`: C whitespace is skipped, then one
      or two digits are read. Yields the value and the position after it. */
  function ScanUnsigned2(t: string, i: nat): (r: Option<(nat, nat)>)
    requires i <= |t|
    ensures r.Some? ==> r.value.0 <= 99 && i < r.value.1 <= |t|
    decreases |t| - i
  {
    if i < |t| && IsCSpace(t[i]) then ScanUnsigned2(t, i + 1)
    else if i < |t| && IsDigit(t[i]) then
      if i + 1 < |t| && IsDigit(t[i + 1]) then Some((DigitValue(t[i]) * 10 + DigitValue(t[i + 1]), i + 2))
      else Some((DigitValue(t[i]), i + 1))
    else None
  }

  /** `sscanf(token, "%2u:%2u:%2u", ...) == 3`: the three values, or None. */
  function ScanTime(t: string): (r: Option<(nat, nat, nat)>)
    ensures r.Some? ==> r.value.0 <= 99 && r.value.1 <= 99 && r.value.2 <= 99
  {
    match ScanUnsigned2(t, 0)
    case None => None
    case Some((h, i)) =>
      if i < |t| && t[i] == ':' then
        match ScanUnsigned2(t, i + 1)
        case None => None
        case Some((m, j)) =>
          if j < |t| && t[j] == ':' then
            match ScanUnsigned2(t, j + 1)
            case None => None
            case Some((s, _)) => Some((h, m, s))
          else None
      else None
  }

  // ---------------------------------------------------------------------------
  // The token loop as a fold

  /** The fields found so far; None is a `found_*` flag that is still false. */
  datatype Fields = Fields(day: Option<nat>, month: Option<nat>, time: Option<(nat, nat, nat)>, year: Option<nat>)

  const NoFields := Fields(None, None, None, None)

  predicate IsNumeric(token: string) { |token| > 0 && IsDigit(token[0]) }

  /** A numeric token without a colon: a day (at most 2 characters) or a year
      (at most 5) candidate. */
  predicate IsPlainNumber(token: string) { IsNumeric(token) && ':' !in token }

  /** One iteration of the token loop. */
  function Consume(f: Fields, token: string): Fields
  {
    if !IsNumeric(token) then
      if f.month.None? && MonthIndex(token).Some? then f.(month := Some(MonthIndex(token).value + 1)) else f
    else if ':' in token then
      if f.time.None? && ScanTime(token).Some? then f.(time := ScanTime(token)) else f
    else if f.day.None? && |token| <= 2 then f.(day := Some(Atoi(token)))
    else if f.year.None? && |token| <= 5 then f.(year := Some(Atoi(token)))
    else f
  }

  function FieldsFrom(tokens: seq<string>, i: nat, f: Fields): Fields
    requires i <= |tokens|
    decreases |tokens| - i
  {
    if i == |tokens| then f else FieldsFrom(tokens, i + 1, Consume(f, tokens[i]))
  }

  /** `Time::Exploded`, the fields the parser fills. */
  datatype Exploded = Exploded(year: int, month: int, dayOfMonth: int, hour: int, minute: int, second: int)

  /** Two-digit years: 69-99 are 1969-1999, 0-68 are 2000-2068. */
  function NormalizeYear(y: int): int
  {
    var y1 := if 69 <= y <= 99 then y + 1900 else y;
    if 0 <= y1 <= 68 then y1 + 2000 else y1
  }

  predicate InRange(e: Exploded)
  {
    && 1 <= e.dayOfMonth <= 31 && 1 <= e.month <= 12
    && 1601 <= e.year <= 30827
    && e.hour <= 23 && e.minute <= 59 && e.second <= 59
  }

  /** What `ParseCookieTime` computes: the exploded time, or None for the null time. */
  function CookieTime(s: string): (r: Option<Exploded>)
    ensures r.Some? ==> InRange(r.value)
  {
    Finish(FieldsFrom(Tokens(s), 0, NoFields))
  }

  /** The checks after the token loop: all four fields found, the year
      widened, every field in range. */
  function Finish(f: Fields): (r: Option<Exploded>)
    ensures r.Some? ==> InRange(r.value)
  {
    if f.day.None? || f.month.None? || f.time.None? || f.year.None? then None
    else
      var e := Exploded(NormalizeYear(f.year.value), f.month.value, f.day.value,
                        f.time.value.0, f.time.value.1, f.time.value.2);
      if InRange(e) then Some(e) else None
  }

  // ---------------------------------------------------------------------------
  // Independent descriptions of each field

  /** The month of the first non-numeric token naming a month, from `i` on. */
  function FirstMonth(tokens: seq<string>, i: nat): (r: Option<nat>)
    requires i <= |tokens|
    ensures r.Some? ==> 1 <= r.value <= 12
    decreases |tokens| - i
  {
    if i == |tokens| then None
    else if !IsNumeric(tokens[i]) && MonthIndex(tokens[i]).Some? then Some(MonthIndex(tokens[i]).value + 1)
    else FirstMonth(tokens, i + 1)
  }

  /** The time of the first numeric token with a colon that scans as hh:mm:ss. */
  function FirstTime(tokens: seq<string>, i: nat): Option<(nat, nat, nat)>
    requires i <= |tokens|
    decreases |tokens| - i
  {
    if i == |tokens| then None
    else if IsNumeric(tokens[i]) && ':' in tokens[i] && ScanTime(tokens[i]).Some? then ScanTime(tokens[i])
    else FirstTime(tokens, i + 1)
  }

  /** The index of the first plain number of at most two characters: the day. */
  function DayIndex(tokens: seq<string>, i: nat): (r: Option<nat>)
    requires i <= |tokens|
    ensures r.Some? ==> i <= r.value < |tokens| && IsPlainNumber(tokens[r.value]) && |tokens[r.value]| <= 2
    ensures r.Some? ==> forall j :: i <= j < r.value ==> !(IsPlainNumber(tokens[j]) && |tokens[j]| <= 2)
    ensures r.None? ==> forall j :: i <= j < |tokens| ==> !(IsPlainNumber(tokens[j]) && |tokens[j]| <= 2)
    decreases |tokens| - i
  {
    if i == |tokens| then None
    else if IsPlainNumber(tokens[i]) && |tokens[i]| <= 2 then Some(i)
    else DayIndex(tokens, i + 1)
  }

  /** The value of the first plain number of at most five characters, from
      `i` on, other than the one at index `skip`. */
  function FirstYear(tokens: seq<string>, i: nat, skip: int): Option<nat>
    requires i <= |tokens|
    decreases |tokens| - i
  {
    if i == |tokens| then None
    else if IsPlainNumber(tokens[i]) && |tokens[i]| <= 5 && i != skip then Some(Atoi(tokens[i]))
    else FirstYear(tokens, i + 1, skip)
  }

  /** The month is that of the first month-named token. */
  lemma {:induction false} MonthIsFirstMonthName(tokens: seq<string>, i: nat, f: Fields)
    requires i <= |tokens|
    ensures FieldsFrom(tokens, i, f).month == if f.month.Some? then f.month else FirstMonth(tokens, i)
    decreases |tokens| - i
  {
    if i < |tokens| {
      MonthIsFirstMonthName(tokens, i + 1, Consume(f, tokens[i]));
    }
  }

  /** The time is that of the first token that scans as a time; later ones are ignored. */
  lemma {:induction false} TimeIsFirstTime(tokens: seq<string>, i: nat, f: Fields)
    requires i <= |tokens|
    ensures FieldsFrom(tokens, i, f).time == if f.time.Some? then f.time else FirstTime(tokens, i)
    decreases |tokens| - i
  {
    if i < |tokens| {
      TimeIsFirstTime(tokens, i + 1, Consume(f, tokens[i]));
    }
  }

  /** The day is the first plain number of at most two characters. */
  lemma {:induction false} DayIsFirstShortNumber(tokens: seq<string>, i: nat, f: Fields)
    requires i <= |tokens|
    ensures FieldsFrom(tokens, i, f).day ==
      if f.day.Some? then f.day
      else if DayIndex(tokens, i).Some? then Some(Atoi(tokens[DayIndex(tokens, i).value]))
      else None
    decreases |tokens| - i
  {
    if i < |tokens| {
      DayIsFirstShortNumber(tokens, i + 1, Consume(f, tokens[i]));
    }
  }

  lemma {:induction false} FirstYearSkipBefore(tokens: seq<string>, i: nat, skip: int)
    requires i <= |tokens| && skip < i
    ensures FirstYear(tokens, i, skip) == FirstYear(tokens, i, -1)
    decreases |tokens| - i
  {
    if i < |tokens| {
      FirstYearSkipBefore(tokens, i + 1, skip);
    }
  }

  /** The year is the first plain number of at most five characters that is
      not the day. */
  lemma {:induction false} YearIsFirstOtherNumber(tokens: seq<string>, i: nat, f: Fields)
    requires i <= |tokens|
    ensures FieldsFrom(tokens, i, f).year ==
      if f.year.Some? then f.year
      else FirstYear(tokens, i, if f.day.None? && DayIndex(tokens, i).Some? then DayIndex(tokens, i).value else -1)
    decreases |tokens| - i
  {
    if i < |tokens| {
      var t := tokens[i];
      YearIsFirstOtherNumber(tokens, i + 1, Consume(f, t));
      if f.year.None? && f.day.None? && IsPlainNumber(t) && |t| <= 2 {
        FirstYearSkipBefore(tokens, i + 1, i);
      }
    }
  }

  /** A parse succeeds only when all four fields were found, and then the
      month, day, time and year are the ones the first-match rules pick. */
  lemma ParsedTimeFields(s: string)
    requires CookieTime(s).Some?
    ensures var tokens := Tokens(s);
      var e := CookieTime(s).value;
      && FirstMonth(tokens, 0) == Some(e.month)
      && FirstTime(tokens, 0) == Some((e.hour, e.minute, e.second))
      && DayIndex(tokens, 0).Some?
      && e.dayOfMonth == Atoi(tokens[DayIndex(tokens, 0).value])
      && FirstYear(tokens, 0, DayIndex(tokens, 0).value).Some?
      && e.year == NormalizeYear(FirstYear(tokens, 0, DayIndex(tokens, 0).value).value)
  {
    var tokens := Tokens(s);
    MonthIsFirstMonthName(tokens, 0, NoFields);
    TimeIsFirstTime(tokens, 0, NoFields);
    DayIsFirstShortNumber(tokens, 0, NoFields);
    YearIsFirstOtherNumber(tokens, 0, NoFields);
  }

  /** The usual expiry "Sat, 15-Apr-17 21:01:22 GMT", once tokenized: the
      weekday and zone names are skipped and "17" is widened to 2017. */
  lemma TypicalExpiry()
    ensures Finish(FieldsFrom(["Sat", "15", "Apr", "17", "21:01:22", "GMT"], 0, NoFields))
      == Some(Exploded(2017, 4, 15, 21, 1, 22))
  {
    TypicalFields();
    assert NormalizeYear(17) == 2017;
  }

  /** The usual expiry as the header carries it: tokenizing it gives the
      list `TypicalExpiry` starts from, so it parses to 2017-04-15 21:01:22. */
  lemma TypicalExpiryString()
    ensures CookieTime("Sat, 15-Apr-17 21:01:22 GMT") == Some(Exploded(2017, 4, 15, 21, 1, 22))
  {
    ExpiryTokens("Sat, 15-Apr-17 21:01:22 GMT");
    TypicalExpiry();
  }

  /** The usual expiry splits into six tokens at ", ", the two dashes and
      the two single spaces. */
  lemma ExpiryTokens(s: string)
    requires s == "Sat, 15-Apr-17 21:01:22 GMT"
    ensures Tokens(s) == ["Sat", "15", "Apr", "17", "21:01:22", "GMT"]
  {
    ExpirySpelling(s);
    ExpiryPieces();
    SixTokens(s, "Sat", ", ", "15", "-", "Apr", "-", "17", " ", "21:01:22", " ", "GMT");
  }

  /** The usual expiry as its tokens and delimiter runs written one after the other. */
  lemma ExpirySpelling(s: string)
    requires s == "Sat, 15-Apr-17 21:01:22 GMT"
    ensures s == "Sat" + ", " + ("15" + "-" + ("Apr" + "-" + ("17" + " " + ("21:01:22" + " " + "GMT"))))
  {
  }

  /** Its tokens hold no delimiter, and its delimiter runs nothing else. */
  lemma ExpiryPieces()
    ensures NoDelimiter("Sat") && NoDelimiter("15") && NoDelimiter("Apr") && NoDelimiter("17")
    ensures NoDelimiter("21:01:22") && NoDelimiter("GMT")
    ensures AllDelimiters(", ") && AllDelimiters("-") && AllDelimiters(" ")
  {
  }

  /** Six tokens separated by runs of delimiters. */
  lemma SixTokens(s: string, t0: string, d0: string, t1: string, d1: string, t2: string, d2: string,
                  t3: string, d3: string, t4: string, d4: string, t5: string)
    requires |t0| > 0 && NoDelimiter(t0) && |d0| > 0 && AllDelimiters(d0)
    requires |t1| > 0 && NoDelimiter(t1) && |d1| > 0 && AllDelimiters(d1)
    requires |t2| > 0 && NoDelimiter(t2) && |d2| > 0 && AllDelimiters(d2)
    requires |t3| > 0 && NoDelimiter(t3) && |d3| > 0 && AllDelimiters(d3)
    requires |t4| > 0 && NoDelimiter(t4) && |d4| > 0 && AllDelimiters(d4)
    requires |t5| > 0 && NoDelimiter(t5)
    requires s == t0 + d0 + (t1 + d1 + (t2 + d2 + (t3 + d3 + (t4 + d4 + t5))))
    ensures Tokens(s) == [t0, t1, t2, t3, t4, t5]
  {
    var r4 := t4 + d4 + t5;
    var r3 := t3 + d3 + r4;
    var r2 := t2 + d2 + r3;
    var r1 := t1 + d1 + r2;
    LastToken(t5);
    TokenThen(t4, d4, t5);
    TokenThen(t3, d3, r4);
    TokenThen(t2, d2, r3);
    TokenThen(t1, d1, r2);
    TokenThen(t0, d0, r1);
    assert [t0] + ([t1] + ([t2] + ([t3] + ([t4] + [t5])))) == [t0, t1, t2, t3, t4, t5];
  }

  predicate NoDelimiter(t: string)
  {
    forall k :: 0 <= k < |t| ==> !IsDelimiter(t[k])
  }

  predicate AllDelimiters(d: string)
  {
    forall k :: 0 <= k < |d| ==> IsDelimiter(d[k])
  }

  /** A string without delimiters is one token. */
  lemma LastToken(t: string)
    requires |t| > 0 && NoDelimiter(t)
    ensures Tokens(t) == [t]
  {
    RunEndAt(t, 0, |t|);
    assert !IsDelimiter(t[0]);
    assert TokensFrom(t, |t|) == [];
    assert TokensFrom(t, 0) == [t[0..|t|]] + TokensFrom(t, |t|);
    assert t[0..|t|] == t;
  }

  /** A token followed by delimiters comes first, and the rest is tokenized
      on its own. */
  lemma TokenThen(t: string, d: string, r: string)
    requires |t| > 0 && NoDelimiter(t) && |d| > 0 && AllDelimiters(d)
    ensures Tokens(t + d + r) == [t] + Tokens(r)
  {
    var w := t + d + r;
    assert w[|t|] == d[0];
    NextToken(w, 0, |t|, |t| + |d|);
    assert w[0..|t|] == t;
    TokensShift(t + d, r, 0);
  }

  /** Tokenizing past a prefix is tokenizing what follows it. */
  lemma {:induction false} TokensShift(x: string, r: string, i: nat)
    requires i <= |r|
    ensures TokensFrom(x + r, |x| + i) == TokensFrom(r, i)
    decreases |r| - i
  {
    var w := x + r;
    if i < |r| {
      assert w[|x| + i] == r[i];
      if IsDelimiter(r[i]) {
        TokensShift(x, r, i + 1);
      } else {
        var j := RunEnd(r, i);
        RunEndShift(x, r, i);
        TokensShift(x, r, j);
        assert w[|x| + i..|x| + j] == r[i..j];
      }
    }
  }

  lemma {:induction false} RunEndShift(x: string, r: string, i: nat)
    requires i <= |r|
    ensures RunEnd(x + r, |x| + i) == |x| + RunEnd(r, i)
    decreases |r| - i
  {
    if i < |r| {
      assert (x + r)[|x| + i] == r[i];
      if !IsDelimiter(r[i]) {
        RunEndShift(x, r, i + 1);
      }
    }
  }

  /** A run of non-delimiters from `i` to `j`, then delimiters up to `n`:
      the run is the next token and reading resumes at `n`. */
  lemma NextToken(s: string, i: nat, j: nat, n: nat)
    requires i < j <= n <= |s|
    requires forall k :: i <= k < j ==> !IsDelimiter(s[k])
    requires forall k :: j <= k < n ==> IsDelimiter(s[k])
    requires j == |s| || IsDelimiter(s[j])
    ensures TokensFrom(s, i) == [s[i..j]] + TokensFrom(s, n)
  {
    TokenAt(s, i, j);
    SkipDelimiters(s, j, n);
  }

  /** A maximal run of non-delimiters from `i` to `j` is the next token. */
  lemma TokenAt(s: string, i: nat, j: nat)
    requires i < j <= |s|
    requires forall k :: i <= k < j ==> !IsDelimiter(s[k])
    requires j == |s| || IsDelimiter(s[j])
    ensures TokensFrom(s, i) == [s[i..j]] + TokensFrom(s, j)
  {
    RunEndAt(s, i, j);
  }

  lemma {:induction false} RunEndAt(s: string, i: nat, j: nat)
    requires i <= j <= |s|
    requires forall k :: i <= k < j ==> !IsDelimiter(s[k])
    requires j == |s| || IsDelimiter(s[j])
    ensures RunEnd(s, i) == j
    decreases j - i
  {
    if i < j {
      RunEndAt(s, i + 1, j);
    }
  }

  /** Delimiters between tokens are skipped. */
  lemma {:induction false} SkipDelimiters(s: string, i: nat, j: nat)
    requires i <= j <= |s|
    requires forall k :: i <= k < j ==> IsDelimiter(s[k])
    ensures TokensFrom(s, i) == TokensFrom(s, j)
    decreases j - i
  {
    if i < j {
      SkipDelimiters(s, i + 1, j);
    }
  }

  /** The fields the token loop collects from the usual expiry. */
  lemma TypicalFields()
    ensures FieldsFrom(["Sat", "15", "Apr", "17", "21:01:22", "GMT"], 0, NoFields)
      == Fields(Some(15), Some(4), Some((21, 1, 22)), Some(17))
  {
    var tokens := ["Sat", "15", "Apr", "17", "21:01:22", "GMT"];
    var f2 := Fields(Some(15), None, None, None);
    var f3 := Fields(Some(15), Some(4), None, None);
    var f4 := Fields(Some(15), Some(4), None, Some(17));
    var f5 := Fields(Some(15), Some(4), Some((21, 1, 22)), Some(17));
    TypicalSteps();
    FieldsFromStep(tokens, 0, NoFields);
    FieldsFromStep(tokens, 1, NoFields);
    FieldsFromStep(tokens, 2, f2);
    FieldsFromStep(tokens, 3, f3);
    FieldsFromStep(tokens, 4, f4);
    FieldsFromStep(tokens, 5, f5);
  }

  /** The six iterations of the token loop on the usual expiry. */
  lemma TypicalSteps()
    ensures Consume(NoFields, "Sat") == NoFields
    ensures Consume(NoFields, "15") == Fields(Some(15), None, None, None)
    ensures Consume(Fields(Some(15), None, None, None), "Apr") == Fields(Some(15), Some(4), None, None)
    ensures Consume(Fields(Some(15), Some(4), None, None), "17") == Fields(Some(15), Some(4), None, Some(17))
    ensures Consume(Fields(Some(15), Some(4), None, Some(17)), "21:01:22")
      == Fields(Some(15), Some(4), Some((21, 1, 22)), Some(17))
    ensures var f := Fields(Some(15), Some(4), Some((21, 1, 22)), Some(17)); Consume(f, "GMT") == f
  {
    ConsumeSat();
    ConsumeDayAndYear();
    ConsumeApr();
    ConsumeTime();
  }

  lemma ConsumeSat()
    ensures Consume(NoFields, "Sat") == NoFields
  {
    SatIsNoMonth();
  }

  lemma ConsumeDayAndYear()
    ensures Consume(NoFields, "15") == Fields(Some(15), None, None, None)
    ensures Consume(Fields(Some(15), Some(4), None, None), "17") == Fields(Some(15), Some(4), None, Some(17))
  {
    AtoiExamples();
  }

  lemma ConsumeApr()
    ensures Consume(Fields(Some(15), None, None, None), "Apr") == Fields(Some(15), Some(4), None, None)
  {
    AprIsApril();
  }

  lemma ConsumeTime()
    ensures Consume(Fields(Some(15), Some(4), None, Some(17)), "21:01:22")
      == Fields(Some(15), Some(4), Some((21, 1, 22)), Some(17))
  {
    ScanTimeExample();
  }

  lemma FieldsFromStep(tokens: seq<string>, i: nat, f: Fields)
    requires i < |tokens|
    ensures FieldsFrom(tokens, i, f) == FieldsFrom(tokens, i + 1, Consume(f, tokens[i]))
  {
  }

  lemma TypicalTokens()
    ensures MonthIndex("Sat") == None && MonthIndex("Apr") == Some(3)
    ensures Atoi("15") == 15 && Atoi("17") == 17
    ensures ScanTime("21:01:22") == Some((21, 1, 22))
  {
    SatIsNoMonth();
    AprIsApril();
    AtoiExamples();
    ScanTimeExample();
  }

  lemma AtoiExamples()
    ensures Atoi("15") == 15 && Atoi("17") == 17
  {
    assert DigitRun("15", 0) == 2 by {
      assert DigitRun("15", 2) == 2;
    }
    assert DigitRun("17", 0) == 2 by {
      assert DigitRun("17", 2) == 2;
    }
    assert "15"[..2] == "15" && "17"[..2] == "17";
    assert DecimalValue("1") == 1 by {
      assert "1"[..0] == "";
    }
    assert "15"[..1] == "1" && "17"[..1] == "1";
  }

  lemma ScanTimeExample()
    ensures ScanTime("21:01:22") == Some((21, 1, 22))
  {
    var t := "21:01:22";
    assert ScanUnsigned2(t, 0) == Some((21, 2));
    assert ScanUnsigned2(t, 3) == Some((1, 5));
    assert ScanUnsigned2(t, 6) == Some((22, 8));
  }

  lemma SatIsNoMonth()
    ensures MonthIndex("Sat") == None
  {
    assert ToLowerAscii("Sat"[..3]) == "sat";
    assert MonthFrom("Sat", 11) == None;
    assert MonthFrom("Sat", 10) == None;
    assert MonthFrom("Sat", 9) == None;
    assert MonthFrom("Sat", 8) == None;
    assert MonthFrom("Sat", 7) == None;
    assert MonthFrom("Sat", 6) == None;
    assert MonthFrom("Sat", 5) == None;
    assert MonthFrom("Sat", 4) == None;
    assert MonthFrom("Sat", 3) == None;
    assert MonthFrom("Sat", 2) == None;
    assert MonthFrom("Sat", 1) == None;
    assert MonthFrom("Sat", 0) == None;
  }

  lemma AprIsApril()
    ensures MonthIndex("Apr") == Some(3)
  {
    assert ToLowerAscii("Apr"[..3]) == "apr";
    assert MonthFrom("Apr", 3) == Some(3);
    assert MonthFrom("Apr", 0) == Some(3);
  }

  /** Two-digit years are widened into 1969-2068; longer years are kept. */
  lemma NormalizeYearSpec(y: nat)
    ensures y <= 99 ==> 1969 <= NormalizeYear(y) <= 2068 && NormalizeYear(y) % 100 == y
    ensures y >= 100 ==> NormalizeYear(y) == y
  {
  }

  // ---------------------------------------------------------------------------
  // The parser

  /** The loop state as the fields found so far. */
  function Found(foundDay: bool, day: nat, foundMonth: bool, month: nat, foundTime: bool,
                 hour: nat, minute: nat, second: nat, foundYear: bool, year: nat): Fields
  {
    Fields(if foundDay then Some(day) else None,
           if foundMonth then Some(month) else None,
           if foundTime then Some((hour, minute, second)) else None,
           if foundYear then Some(year) else None)
  }

  /** `ParseCookieTime`: walks the tokens with the four `found_*` flags. */
  method ParseCookieTime(timeString: string) returns (r: Option<Exploded>)
    ensures r == CookieTime(timeString)
  {
    var tokens := Tokens(timeString);
    var day, month, hour, minute, second, year := 0, 0, 0, 0, 0, 0;
    var foundDay, foundMonth, foundTime, foundYear := false, false, false, false;
    for i := 0 to |tokens|
      invariant FieldsFrom(tokens, i, Found(foundDay, day, foundMonth, month, foundTime,
                                            hour, minute, second, foundYear, year))
        == FieldsFrom(tokens, 0, NoFields)
    {
      foundDay, day, foundMonth, month, foundTime, hour, minute, second, foundYear, year :=
        ConsumeToken(tokens[i], foundDay, day, foundMonth, month, foundTime,
                     hour, minute, second, foundYear, year);
    }
    r := Conclude(foundDay, day, foundMonth, month, foundTime, hour, minute, second, foundYear, year);
  }

  /** The checks after the token loop. */
  method Conclude(foundDay: bool, day: nat, foundMonth: bool, month: nat, foundTime: bool,
                  hour: nat, minute: nat, second: nat, foundYear: bool, year: nat) returns (r: Option<Exploded>)
    ensures r == Finish(Found(foundDay, day, foundMonth, month, foundTime, hour, minute, second, foundYear, year))
  {
    if !foundDay || !foundMonth || !foundTime || !foundYear {
      return None;
    }
    var y: int := year;
    if y >= 69 && y <= 99 {
      y := y + 1900;
    }
    if y >= 0 && y <= 68 {
      y := y + 2000;
    }
    assert y == NormalizeYear(year);
    var e := Exploded(y, month, day, hour, minute, second);
    if day >= 1 && day <= 31 && month >= 1 && month <= 12 && y >= 1601 && y <= 30827
      && hour <= 23 && minute <= 59 && second <= 59
    {
      return Some(e);
    }
    return None;
  }

  /** The body of the token loop. */
  method ConsumeToken(token: string, foundDay: bool, day: nat, foundMonth: bool, month: nat,
                      foundTime: bool, hour: nat, minute: nat, second: nat, foundYear: bool, year: nat)
      returns (foundDay': bool, day': nat, foundMonth': bool, month': nat, foundTime': bool,
               hour': nat, minute': nat, second': nat, foundYear': bool, year': nat)
    requires |token| > 0
    ensures Found(foundDay', day', foundMonth', month', foundTime', hour', minute', second', foundYear', year')
      == Consume(Found(foundDay, day, foundMonth, month, foundTime, hour, minute, second, foundYear, year), token)
  {
    foundDay', day', foundMonth', month', foundTime' := foundDay, day, foundMonth, month, foundTime;
    hour', minute', second', foundYear', year' := hour, minute, second, foundYear, year;
    var numerical := IsDigit(token[0]);
    if !numerical {
      if !foundMonth {
        var found, m := FindMonth(token);
        if found {
          month' := m + 1;
          foundMonth' := true;
        }
      }
    } else if ':' in token {
      var scanned := ScanTime(token);
      if !foundTime && scanned.Some? {
        hour', minute', second' := scanned.value.0, scanned.value.1, scanned.value.2;
        foundTime' := true;
      }
    } else {
      if !foundDay && |token| <= 2 {
        day' := Atoi(token);
        foundDay' := true;
      } else if !foundYear && |token| <= 5 {
        year' := Atoi(token);
        foundYear' := true;
      }
    }
  }

  /** The month-name loop: the first of the twelve abbreviations that prefixes the token. */
  method FindMonth(token: string) returns (found: bool, m: nat)
    ensures found <==> MonthIndex(token).Some?
    ensures found ==> m == MonthIndex(token).value
  {
    m := 0;
    while m < 12
      invariant m <= 12
      invariant MonthFrom(token, m) == MonthIndex(token)
    {
      if |token| >= 3 && ToLowerAscii(token[..3]) == Months[m] {
        return true, m;
      }
      m := m + 1;
    }
    return false, m;
  }
}
