// `CookieMonster::ParsedCookie` (net/base/cookie_monster.cc): the Set-Cookie
// line tokenizer and the attribute lookup built on it. Positions play the part
// of the C++ string iterators; `end` is the position of the first terminator.
module ParsedCookies {
  import opened Common

  /** Limits declared in cookie_monster.h (that header is not part of this
      model; these are the values it publishes). */
  const MaxCookieSize: nat := 4096
  const MaxPairs: nat := 16

  type Pair = (string, string)

  predicate IsTerminator(c: char) { c == '\n' || c == '\r' || c == '\0' }

  predicate IsWhitespace(c: char) { c == ' ' || c == '\t' }

  predicate IsLowerAscii(s: string)
  {
    forall i :: 0 <= i < |s| ==> !IsAsciiUpper(s[i])
  }

  // ---------------------------------------------------------------------------
  // Specifications of the iterator helpers

  /** `find_first_of("\n\r\0")`, or the length when there is none. */
  function TermPos(line: string): (r: nat)
    ensures r <= |line|
    ensures forall i :: 0 <= i < r ==> !IsTerminator(line[i])
    ensures r < |line| ==> IsTerminator(line[r])
  {
    TermFrom(line, 0)
  }

  function TermFrom(line: string, i: nat): (r: nat)
    requires i <= |line|
    requires forall k :: 0 <= k < i ==> !IsTerminator(line[k])
    ensures i <= r <= |line|
    ensures forall k :: 0 <= k < r ==> !IsTerminator(line[k])
    ensures r < |line| ==> IsTerminator(line[r])
    decreases |line| - i
  {
    if i == |line| || IsTerminator(line[i]) then i else TermFrom(line, i + 1)
  }

  /** `SeekTo`: the first position at or after `i` holding one of `chars`, or `end`. */
  function SeekToSpec(line: string, i: nat, end: nat, chars: seq<char>): (r: nat)
    requires i <= end <= |line|
    ensures i <= r <= end
    ensures forall k :: i <= k < r ==> line[k] !in chars
    ensures r < end ==> line[r] in chars
    decreases end - i
  {
    if i == end || line[i] in chars then i else SeekToSpec(line, i + 1, end, chars)
  }

  /** `SeekPast` over whitespace: the first non-whitespace position at or after `i`, or `end`. */
  function SkipWhitespace(line: string, i: nat, end: nat): (r: nat)
    requires i <= end <= |line|
    ensures i <= r <= end
    ensures forall k :: i <= k < r ==> IsWhitespace(line[k])
    ensures r < end ==> !IsWhitespace(line[r])
    decreases end - i
  {
    if i == end || !IsWhitespace(line[i]) then i else SkipWhitespace(line, i + 1, end)
  }

  /** `SeekBackPast` over whitespace from `j` down to `start`. */
  function BackPast(line: string, start: nat, j: nat): (r: nat)
    requires start <= j < |line|
    ensures start <= r <= j
    ensures forall k :: r < k <= j ==> IsWhitespace(line[k])
    ensures r > start ==> !IsWhitespace(line[r])
    decreases j
  {
    if j == start || !IsWhitespace(line[j]) then j else BackPast(line, start, j - 1)
  }

  /** The "ignore whitespace before the separator" step: step back, seek back
      past whitespace (never below `start`), step forward. */
  function TrimBack(line: string, start: nat, i: nat): (r: nat)
    requires start <= i <= |line|
    ensures start <= r <= i && (i > start ==> r > start)
    ensures forall k :: r <= k < i ==> IsWhitespace(line[k])
    ensures r > start + 1 ==> !IsWhitespace(line[r - 1])
  {
    if i == start then i else BackPast(line, start, i - 1) + 1
  }

  /** The quoted-string scan: the closing quote at or after `i` (a backslash
      escapes the next character), or `end`. */
  function QuoteEnd(line: string, i: nat, end: nat): (r: nat)
    requires i <= end <= |line|
    ensures i <= r <= end
    ensures r < end ==> line[r] == '"'
    decreases end - i
  {
    if i == end then end
    else if line[i] == '"' then i
    else if line[i] == '\\' then (if i + 1 == end then end else QuoteEnd(line, i + 2, end))
    else QuoteEnd(line, i + 1, end)
  }

  // ---------------------------------------------------------------------------
  // ParseTokenValuePairs

  /** Where the name of a pair starting at `tokenStart` ends, and where
      value parsing resumes. */
  datatype NameScan = NameScan(name: string, valueFrom: nat)

  function ScanName(line: string, tokenStart: nat, end: nat, pairNum: nat): (r: NameScan)
    requires tokenStart <= end <= |line|
    ensures tokenStart <= r.valueFrom <= end
  {
    var realEnd := SeekToSpec(line, tokenStart, end, ";=");
    var tokenEnd := TrimBack(line, tokenStart, realEnd);
    if realEnd == end || line[realEnd] != '=' then
      if pairNum == 0 then NameScan("", tokenStart)
      else NameScan(line[tokenStart..tokenEnd], realEnd)
    else NameScan(line[tokenStart..tokenEnd], realEnd + 1)
  }

  /** The value starting at `from`, and where the iterator is left: a quoted
      value runs from its opening quote to the next `;` after the closing
      quote, and the iterator stops at that `;`; an unquoted one runs to the
      next `;` with trailing whitespace dropped, and the iterator stops at the
      end of the trimmed value, so that whitespace before the `;` is still
      ahead of it. */
  datatype ValueScan = ValueScan(value: string, resume: nat)

  function ScanValue(line: string, from: nat, end: nat): (r: ValueScan)
    requires from <= end <= |line|
    ensures from <= r.resume <= end
    ensures forall k :: r.resume <= k < SeekToSpec(line, r.resume, end, ";") ==> IsWhitespace(line[k])
    ensures r.resume < end ==> line[r.resume] == ';' || IsWhitespace(line[r.resume])
  {
    var valueStart := SkipWhitespace(line, from, end);
    if valueStart != end && line[valueStart] == '"' then
      var close := QuoteEnd(line, valueStart + 1, end);
      var stop := SeekToSpec(line, close, end, ";");
      ValueScan(line[valueStart..stop], stop)
    else
      var stop := SeekToSpec(line, valueStart, end, ";");
      var valueEnd := TrimBack(line, valueStart, stop);
      SeekToSkips(line, valueStart, valueEnd, end, ";");
      ValueScan(line[valueStart..valueEnd], valueEnd)
  }

  /** Starting a seek from a position it would pass anyway does not change
      where it stops. */
  lemma SeekToSkips(line: string, i: nat, j: nat, end: nat, chars: seq<char>)
    requires i <= end <= |line| && i <= j <= SeekToSpec(line, i, end, chars)
    ensures SeekToSpec(line, j, end, chars) == SeekToSpec(line, i, end, chars)
    decreases j - i
  {
    if i < j {
      SeekToSkips(line, i + 1, j, end, chars);
    }
  }

  /** One pair and the position the next pair is read from. */
  datatype Step = Step(pair: Pair, next: nat)

  /** The pair whose name starts at `tokenStart`, and the position one past
      where its value left the iterator (or the end). */
  function ParsePair(line: string, tokenStart: nat, end: nat, pairNum: nat): (r: Step)
    requires tokenStart < end <= |line|
    ensures tokenStart < r.next <= end
    ensures pairNum != 0 ==> IsLowerAscii(r.pair.0)
  {
    var n := ScanName(line, tokenStart, end, pairNum);
    var v := ScanValue(line, n.valueFrom, end);
    var name := if pairNum != 0 then ToLowerAscii(n.name) else n.name;
    Step((name, v.value), if v.resume != end then v.resume + 1 else v.resume)
  }

  /** The next pair read from position `it`, or None when only whitespace is left. */
  function NextPair(line: string, end: nat, it: nat, pairNum: nat): (r: Option<Step>)
    requires it <= end <= |line|
    ensures r.Some? ==> it < r.value.next <= end
    ensures r.None? <==> forall k :: it <= k < end ==> IsWhitespace(line[k])
    ensures r.Some? && pairNum != 0 ==> IsLowerAscii(r.value.pair.0)
  {
    var tokenStart := SkipWhitespace(line, it, end);
    if tokenStart == end then None else Some(ParsePair(line, tokenStart, end, pairNum))
  }

  /** The pairs read from position `it` on, the next one being number `pairNum`. */
  function ParseFrom(line: string, end: nat, it: nat, pairNum: nat): (r: seq<Pair>)
    requires it <= end <= |line|
    ensures forall i :: 0 <= i < |r| && pairNum + i != 0 ==> IsLowerAscii(r[i].0)
    decreases end - it
  {
    var step := NextPair(line, end, it, pairNum);
    if pairNum >= MaxPairs || step.None? then []
    else [step.value.pair] + ParseFrom(line, end, step.value.next, pairNum + 1)
  }

  function ParsePairs(line: string): seq<Pair>
  {
    ParseFrom(line, TermPos(line), 0, 0)
  }

  // ---------------------------------------------------------------------------
  // Properties of the tokenizer

  /** At most `kMaxPairs` pairs are read. */
  lemma {:induction false} PairCountBounded(line: string, end: nat, it: nat, pairNum: nat)
    requires it <= end <= |line| && pairNum <= MaxPairs
    ensures |ParseFrom(line, end, it, pairNum)| <= MaxPairs - pairNum
    decreases end - it
  {
    var step := NextPair(line, end, it, pairNum);
    if pairNum < MaxPairs && step.Some? {
      var next := step.value.next;
      PairCountBounded(line, end, next, pairNum + 1);
      assert ParseFrom(line, end, it, pairNum) == [step.value.pair] + ParseFrom(line, end, next, pairNum + 1);
    }
  }

  /** Some pair is read iff a non-whitespace character precedes the end
      (and the pair budget is not spent). */
  lemma ParseFromNonEmpty(line: string, end: nat, it: nat, pairNum: nat)
    requires it <= end <= |line|
    ensures ParseFrom(line, end, it, pairNum) != [] <==>
      pairNum < MaxPairs && exists k :: it <= k < end && !IsWhitespace(line[k])
  {
  }

  /** A line yields pairs iff some character before the first terminator
      is not whitespace: empty and blank lines are invalid cookies. */
  lemma NonBlankIffPairs(line: string)
    ensures ParsePairs(line) != [] <==> exists k :: 0 <= k < TermPos(line) && !IsWhitespace(line[k])
  {
    ParseFromNonEmpty(line, TermPos(line), 0, 0);
  }

  /** No line yields more than `kMaxPairs` pairs. */
  lemma PairsBounded(line: string)
    ensures |ParsePairs(line)| <= MaxPairs
  {
    PairCountBounded(line, TermPos(line), 0, 0);
  }

  /** Every name after the first is lower-cased (names are case-insensitive
      per section 4.1 of RFC 2109). */
  lemma LaterNamesLowercase(line: string)
    ensures var ps := ParsePairs(line);
      forall i :: 1 <= i < |ps| ==> IsLowerAscii(ps[i].0)
  {
  }

  /** A first pair whose text reaches `;` or the end before any `=` has an
      empty name, and its whole text is the value. */
  lemma FirstPairNameless(line: string)
    requires var end := TermPos(line);
      var start := SkipWhitespace(line, 0, end);
      && start < end
      && (SeekToSpec(line, start, end, ";=") == end || line[SeekToSpec(line, start, end, ";=")] == ';')
    ensures ParsePairs(line) != []
    ensures ParsePairs(line)[0].0 == ""
    ensures var end := TermPos(line);
      ParsePairs(line)[0].1 == ScanValue(line, SkipWhitespace(line, 0, end), end).value
  {
  }

  /** A pair with `=` after its name keeps the name with surrounding
      whitespace removed. */
  lemma NamedPair(line: string, tokenStart: nat, end: nat, pairNum: nat)
    requires tokenStart < end <= |line| && !IsWhitespace(line[tokenStart])
    requires SeekToSpec(line, tokenStart, end, ";=") < end
    requires line[SeekToSpec(line, tokenStart, end, ";=")] == '='
    ensures var name := ScanName(line, tokenStart, end, pairNum).name;
      var realEnd := SeekToSpec(line, tokenStart, end, ";=");
      && name == line[tokenStart..TrimBack(line, tokenStart, realEnd)]
      && (name == [] || (!IsWhitespace(name[0]) && !IsWhitespace(name[|name| - 1])))
      && ';' !in name && '=' !in name
  {
  }

  /** Whitespace between an unquoted value and its `;` is read as one more
      pair, with an empty name and an empty value: the iterator resumes just
      past the trimmed value, reaches the `;` as the next token, and an
      attribute after the first pair without `=` is a name with an empty
      value. */
  lemma BlankBeforeSeparatorExample()
    ensures ParsePairs("a=b ;secure") == [("a", "b"), ("", ""), ("secure", "")]
  {
    var line := "a=b ;secure";
    BlankExampleEnd(line);
    BlankExampleFirst(line);
    BlankExampleSecond(line);
    BlankExampleThird(line);
    ThreePairs(line, 4, 5, 11, ("a", "b"), ("", ""), ("secure", ""));
  }

  /** Three pairs read one after the other up to the end of the line. */
  lemma ThreePairs(line: string, i1: nat, i2: nat, end: nat, p0: Pair, p1: Pair, p2: Pair)
    requires end == TermPos(line) && i1 <= end && i2 <= end
    requires NextPair(line, end, 0, 0) == Some(Step(p0, i1))
    requires NextPair(line, end, i1, 1) == Some(Step(p1, i2))
    requires NextPair(line, end, i2, 2) == Some(Step(p2, end))
    ensures ParsePairs(line) == [p0, p1, p2]
  {
    ParseFromDone(line, end, end, 3);
    ParseFromCons(line, end, i2, 2, p2, end);
    ParseFromCons(line, end, i1, 1, p1, i2);
    ParseFromCons(line, end, 0, 0, p0, i1);
    ConsThree(p0, p1, p2);
  }

  lemma ConsThree<T>(a: T, b: T, c: T)
    ensures [a] + ([b] + ([c] + [])) == [a, b, c]
  {
  }

  lemma ParseFromCons(line: string, end: nat, it: nat, pairNum: nat, p: Pair, next: nat)
    requires it <= end <= |line| && next <= end && pairNum < MaxPairs
    requires NextPair(line, end, it, pairNum) == Some(Step(p, next))
    ensures ParseFrom(line, end, it, pairNum) == [p] + ParseFrom(line, end, next, pairNum + 1)
  {
  }

  lemma BlankExampleEnd(line: string)
    requires line == "a=b ;secure"
    ensures TermPos(line) == 11
  {
    assert forall k :: 0 <= k < 11 ==> !IsTerminator(line[k]);
  }

  lemma BlankExampleFirst(line: string)
    requires line == "a=b ;secure"
    ensures NextPair(line, 11, 0, 0) == Some(Step(("a", "b"), 4))
  {
    assert SkipWhitespace(line, 0, 11) == 0;
    assert SeekToSpec(line, 0, 11, ";=") == 1;
    assert ScanName(line, 0, 11, 0) == NameScan("a", 2);
    assert SkipWhitespace(line, 2, 11) == 2;
    assert SeekToSpec(line, 2, 11, ";") == 4 by {
      assert SeekToSpec(line, 3, 11, ";") == 4;
    }
    assert TrimBack(line, 2, 4) == 3 by {
      assert BackPast(line, 2, 3) == 2;
    }
    assert line[2..3] == "b";
    assert ScanValue(line, 2, 11) == ValueScan("b", 3);
    assert ParsePair(line, 0, 11, 0) == Step(("a", "b"), 4);
  }

  lemma BlankExampleSecond(line: string)
    requires line == "a=b ;secure"
    ensures NextPair(line, 11, 4, 1) == Some(Step(("", ""), 5))
  {
    assert SkipWhitespace(line, 4, 11) == 4;
    assert SeekToSpec(line, 4, 11, ";=") == 4;
    assert ScanName(line, 4, 11, 1) == NameScan("", 4);
    assert ScanValue(line, 4, 11) == ValueScan("", 4);
    assert ToLowerAscii("") == "";
  }

  lemma BlankExampleThird(line: string)
    requires line == "a=b ;secure"
    ensures NextPair(line, 11, 5, 2) == Some(Step(("secure", ""), 11))
  {
    assert SkipWhitespace(line, 5, 11) == 5;
    assert SeekToSpec(line, 5, 11, ";=") == 11 by {
      assert forall k :: 5 <= k < 11 ==> line[k] !in ";=";
      SeekToNone(line, 5, 11, ";=");
    }
    assert TrimBack(line, 5, 11) == 11;
    assert line[5..11] == "secure";
    assert ScanName(line, 5, 11, 2) == NameScan("secure", 11);
    assert ScanValue(line, 11, 11) == ValueScan("", 11);
    assert ToLowerAscii("secure") == "secure";
  }

  /** A seek that meets none of its characters runs to the end. */
  lemma {:induction false} SeekToNone(line: string, i: nat, end: nat, chars: seq<char>)
    requires i <= end <= |line|
    requires forall k :: i <= k < end ==> line[k] !in chars
    ensures SeekToSpec(line, i, end, chars) == end
    decreases end - i
  {
    if i < end {
      SeekToNone(line, i + 1, end, chars);
    }
  }

  // ---------------------------------------------------------------------------
  // The cut at the first terminator

  /** `a` and `b` agree on their first `end` characters. */
  predicate Agree(a: string, b: string, end: nat)
  {
    end <= |a| && end <= |b| && forall k :: 0 <= k < end ==> a[k] == b[k]
  }

  lemma {:induction false} SeekToSame(a: string, b: string, i: nat, end: nat, chars: seq<char>)
    requires i <= end && Agree(a, b, end)
    ensures SeekToSpec(a, i, end, chars) == SeekToSpec(b, i, end, chars)
    decreases end - i
  {
    if i < end {
      assert a[i] == b[i];
      SeekToSame(a, b, i + 1, end, chars);
    }
  }

  lemma {:induction false} SkipWhitespaceSame(a: string, b: string, i: nat, end: nat)
    requires i <= end && Agree(a, b, end)
    ensures SkipWhitespace(a, i, end) == SkipWhitespace(b, i, end)
    decreases end - i
  {
    if i < end {
      assert a[i] == b[i];
      SkipWhitespaceSame(a, b, i + 1, end);
    }
  }

  lemma {:induction false} BackPastSame(a: string, b: string, start: nat, j: nat, end: nat)
    requires start <= j < end && Agree(a, b, end)
    ensures BackPast(a, start, j) == BackPast(b, start, j)
    decreases j
  {
    assert a[j] == b[j];
    if j > start {
      BackPastSame(a, b, start, j - 1, end);
    }
  }

  lemma {:induction false} QuoteEndSame(a: string, b: string, i: nat, end: nat)
    requires i <= end && Agree(a, b, end)
    ensures QuoteEnd(a, i, end) == QuoteEnd(b, i, end)
    decreases end - i
  {
    if i < end {
      assert a[i] == b[i];
      if a[i] == '\\' && i + 1 < end {
        QuoteEndSame(a, b, i + 2, end);
      } else if a[i] != '"' && a[i] != '\\' {
        QuoteEndSame(a, b, i + 1, end);
      }
    }
  }

  lemma SliceSame(a: string, b: string, lo: nat, hi: nat, end: nat)
    requires lo <= hi <= end && Agree(a, b, end)
    ensures a[lo..hi] == b[lo..hi]
  {
  }

  lemma TrimBackSame(a: string, b: string, start: nat, i: nat, end: nat)
    requires start <= i <= end && Agree(a, b, end)
    ensures TrimBack(a, start, i) == TrimBack(b, start, i)
  {
    if i > start {
      BackPastSame(a, b, start, i - 1, end);
    }
  }

  lemma ScanNameSame(a: string, b: string, tokenStart: nat, end: nat, pairNum: nat)
    requires tokenStart <= end && Agree(a, b, end)
    ensures ScanName(a, tokenStart, end, pairNum) == ScanName(b, tokenStart, end, pairNum)
  {
    var realEnd := SeekToSpec(a, tokenStart, end, ";=");
    SeekToSame(a, b, tokenStart, end, ";=");
    TrimBackSame(a, b, tokenStart, realEnd, end);
    SliceSame(a, b, tokenStart, TrimBack(a, tokenStart, realEnd), end);
    if realEnd < end {
      assert a[realEnd] == b[realEnd];
    }
  }

  lemma ScanValueSame(a: string, b: string, from: nat, end: nat)
    requires from <= end && Agree(a, b, end)
    ensures ScanValue(a, from, end) == ScanValue(b, from, end)
  {
    var valueStart := SkipWhitespace(a, from, end);
    SkipWhitespaceSame(a, b, from, end);
    if valueStart != end {
      assert a[valueStart] == b[valueStart];
    }
    if valueStart != end && a[valueStart] == '"' {
      QuoteEndSame(a, b, valueStart + 1, end);
      var close := QuoteEnd(a, valueStart + 1, end);
      SeekToSame(a, b, close, end, ";");
      SliceSame(a, b, valueStart, SeekToSpec(a, close, end, ";"), end);
    } else {
      SeekToSame(a, b, valueStart, end, ";");
      var stop := SeekToSpec(a, valueStart, end, ";");
      TrimBackSame(a, b, valueStart, stop, end);
      SliceSame(a, b, valueStart, TrimBack(a, valueStart, stop), end);
    }
  }

  lemma NextPairSame(a: string, b: string, end: nat, it: nat, pairNum: nat)
    requires it <= end && Agree(a, b, end)
    ensures NextPair(a, end, it, pairNum) == NextPair(b, end, it, pairNum)
  {
    SkipWhitespaceSame(a, b, it, end);
    var tokenStart := SkipWhitespace(a, it, end);
    if tokenStart != end {
      ScanNameSame(a, b, tokenStart, end, pairNum);
      ScanValueSame(a, b, ScanName(a, tokenStart, end, pairNum).valueFrom, end);
    }
  }

  lemma {:induction false} ParseFromSame(a: string, b: string, end: nat, it: nat, pairNum: nat)
    requires it <= end && Agree(a, b, end)
    ensures ParseFrom(a, end, it, pairNum) == ParseFrom(b, end, it, pairNum)
    decreases end - it
  {
    NextPairSame(a, b, end, it, pairNum);
    var step := NextPair(a, end, it, pairNum);
    if pairNum >= MaxPairs || step.None? {
      assert ParseFrom(a, end, it, pairNum) == [];
      assert ParseFrom(b, end, it, pairNum) == [];
    } else {
      var next := step.value.next;
      ParseFromSame(a, b, end, next, pairNum + 1);
      assert ParseFrom(a, end, it, pairNum) == [step.value.pair] + ParseFrom(a, end, next, pairNum + 1);
      assert ParseFrom(b, end, it, pairNum) == [step.value.pair] + ParseFrom(b, end, next, pairNum + 1);
    }
  }

  /** Everything from the first `\n`, `\r` or NUL on is ignored. */
  lemma TerminatorCuts(line: string)
    ensures ParsePairs(line) == ParsePairs(line[..TermPos(line)])
  {
    var end := TermPos(line);
    var cut := line[..end];
    assert TermPos(cut) == end;
    ParseFromSame(line, cut, end, 0, 0);
  }

  // ---------------------------------------------------------------------------
  // SetupAttributes

  /** The attributes `SetupAttributes` looks for. */
  datatype Attribute = PathAttr | DomainAttr | ExpiresAttr | MaxAgeAttr | SecureAttr | HttpOnlyAttr

  function AttributeName(a: Attribute): string
  {
    match a
    case PathAttr => "path"
    case DomainAttr => "domain"
    case ExpiresAttr => "expires"
    case MaxAgeAttr => "max-age"
    case SecureAttr => "secure"
    case HttpOnlyAttr => "httponly"
  }

  /** The comparison chain of `SetupAttributes`: which attribute a (lower-cased) name is. */
  function AttributeOf(name: string): Option<Attribute>
  {
    if name == "path" then Some(PathAttr)
    else if name == "domain" then Some(DomainAttr)
    else if name == "expires" then Some(ExpiresAttr)
    else if name == "max-age" then Some(MaxAgeAttr)
    else if name == "secure" then Some(SecureAttr)
    else if name == "httponly" then Some(HttpOnlyAttr)
    else None
  }

  /** A name is classified as an attribute exactly when it is that attribute's name. */
  lemma AttributeOfName(name: string, a: Attribute)
    ensures AttributeOf(name) == Some(a) <==> name == AttributeName(a)
  {
  }

  /** The index of the last pair after the first that names `a`, or 0. */
  function AttributeIndex(pairs: seq<Pair>, a: Attribute): (r: nat)
    ensures r < |pairs| || r == 0
    ensures r > 0 ==> AttributeOf(pairs[r].0) == Some(a)
    ensures forall i :: r < i < |pairs| && i >= 1 ==> AttributeOf(pairs[i].0) != Some(a)
  {
    LastIndexBefore(pairs, a, |pairs|)
  }

  function LastIndexBefore(pairs: seq<Pair>, a: Attribute, n: nat): (r: nat)
    requires n <= |pairs|
    ensures r < n || r == 0
    ensures r > 0 ==> AttributeOf(pairs[r].0) == Some(a)
    ensures forall i :: r < i < n && i >= 1 ==> AttributeOf(pairs[i].0) != Some(a)
    decreases n
  {
    if n <= 1 then 0
    else if AttributeOf(pairs[n - 1].0) == Some(a) then n - 1
    else LastIndexBefore(pairs, a, n - 1)
  }

  class ParsedCookie {
    var pairs: seq<Pair>
    var isValid: bool
    var pathIndex: nat
    var domainIndex: nat
    var expiresIndex: nat
    var maxAgeIndex: nat
    var secureIndex: nat
    var httpOnlyIndex: nat

    /** A line over the size limit is not parsed; a line is valid iff it
        yields at least one pair; the attribute indices are then set. */
    constructor (cookieLine: string)
      ensures pairs == (if |cookieLine| > MaxCookieSize then [] else ParsePairs(cookieLine))
      ensures isValid <==> pairs != []
      ensures pathIndex == (if isValid then AttributeIndex(pairs, PathAttr) else 0)
      ensures domainIndex == (if isValid then AttributeIndex(pairs, DomainAttr) else 0)
      ensures expiresIndex == (if isValid then AttributeIndex(pairs, ExpiresAttr) else 0)
      ensures maxAgeIndex == (if isValid then AttributeIndex(pairs, MaxAgeAttr) else 0)
      ensures secureIndex == (if isValid then AttributeIndex(pairs, SecureAttr) else 0)
      ensures httpOnlyIndex == (if isValid then AttributeIndex(pairs, HttpOnlyAttr) else 0)
    {
      pairs := [];
      isValid := false;
      pathIndex, domainIndex, expiresIndex := 0, 0, 0;
      maxAgeIndex, secureIndex, httpOnlyIndex := 0, 0, 0;
      new;
      if |cookieLine| > MaxCookieSize {
        return;
      }
      ParseTokenValuePairs(cookieLine);
      if |pairs| > 0 {
        isValid := true;
        SetupAttributes();
      }
    }

    /** Records the attribute indices of the parsed pairs. */
    method SetupAttributes()
      modifies this`pathIndex, this`domainIndex, this`expiresIndex
      modifies this`maxAgeIndex, this`secureIndex, this`httpOnlyIndex
      ensures pathIndex == AttributeIndex(pairs, PathAttr)
      ensures domainIndex == AttributeIndex(pairs, DomainAttr)
      ensures expiresIndex == AttributeIndex(pairs, ExpiresAttr)
      ensures maxAgeIndex == AttributeIndex(pairs, MaxAgeAttr)
      ensures secureIndex == AttributeIndex(pairs, SecureAttr)
      ensures httpOnlyIndex == AttributeIndex(pairs, HttpOnlyAttr)
    {
      pathIndex, domainIndex, expiresIndex, maxAgeIndex, secureIndex, httpOnlyIndex :=
        SetupAttributesOf(pairs);
    }

    function Name(): string
      reads this
      requires |pairs| > 0
    {
      pairs[0].0
    }

    function Value(): string
      reads this
      requires |pairs| > 0
    {
      pairs[0].1
    }

    predicate HasPath() reads this { pathIndex != 0 }
    predicate IsSecure() reads this { secureIndex != 0 }
    predicate IsHttpOnly() reads this { httpOnlyIndex != 0 }

    function Path(): string
      reads this
      requires pathIndex < |pairs|
    {
      pairs[pathIndex].1
    }

    /** Fills `pairs` from the line, walking a position as the C++ walks its iterator. */
    method ParseTokenValuePairs(cookieLine: string)
      modifies this`pairs
      ensures pairs == ParsePairs(cookieLine)
    {
      pairs := ReadPairs(cookieLine);
    }
  }

  /** The loop of `ParseTokenValuePairs`, collecting the pairs it appends. */
  method ReadPairs(cookieLine: string) returns (ps: seq<Pair>)
    ensures ps == ParsePairs(cookieLine)
  {
    ps := [];
    var end := TermPos(cookieLine);
    var it := 0;
    var pairNum := 0;
    while pairNum < MaxPairs && it != end
      invariant it <= end <= |cookieLine|
      invariant ps + ParseFrom(cookieLine, end, it, pairNum) == ParsePairs(cookieLine)
      decreases end - it
    {
      var found, pair, next := ReadPair(cookieLine, end, it, pairNum);
      if !found {
        assert ParseFrom(cookieLine, end, it, pairNum) == [] by {
          ParseFromDone(cookieLine, end, it, pairNum);
        }
        break;
      }
      assert (ps + [pair]) + ParseFrom(cookieLine, end, next, pairNum + 1) == ParsePairs(cookieLine) by {
        ParseFromStep(cookieLine, end, it, pairNum);
        AppendAssoc(ps, [pair], ParseFrom(cookieLine, end, next, pairNum + 1));
      }
      ps := ps + [pair];
      it := next;
      pairNum := pairNum + 1;
    }
    assert ParseFrom(cookieLine, end, it, pairNum) == [] by {
      if pairNum >= MaxPairs || it == end {
        ParseFromDone(cookieLine, end, it, pairNum);
      }
    }
    assert ps + [] == ps;
  }

  lemma ParseFromDone(line: string, end: nat, it: nat, pairNum: nat)
    requires it <= end <= |line|
    requires pairNum >= MaxPairs || it == end || NextPair(line, end, it, pairNum).None?
    ensures ParseFrom(line, end, it, pairNum) == []
  {
  }

  lemma ParseFromStep(line: string, end: nat, it: nat, pairNum: nat)
    requires it <= end <= |line| && pairNum < MaxPairs
    requires NextPair(line, end, it, pairNum).Some?
    ensures var step := NextPair(line, end, it, pairNum).value;
      ParseFrom(line, end, it, pairNum) == [step.pair] + ParseFrom(line, end, step.next, pairNum + 1)
  {
  }

  lemma AppendAssoc<T>(a: seq<T>, b: seq<T>, c: seq<T>)
    ensures (a + b) + c == a + (b + c)
  {
  }

  /** One iteration of the loop of `ParseTokenValuePairs`: whether a pair was
      found before the end, the pair, and the position after its `;`. */
  method ReadPair(line: string, end: nat, from: nat, pairNum: nat)
      returns (found: bool, pair: Pair, next: nat)
    requires from <= end <= |line|
    ensures NextPair(line, end, from, pairNum) == (if found then Some(Step(pair, next)) else None)
  {
    var it, atEnd := SeekPast(line, from, end);
    if atEnd {
      return false, ("", ""), it;
    }
    var tokenStart := it;
    var name;
    name, it := ReadName(line, tokenStart, end, pairNum);
    var value;
    it, value := ReadValue(line, it, end);
    if pairNum != 0 {
      name := ToLowerAscii(name);
    }
    if it != end {
      it := it + 1;
    }
    return true, (name, value), it;
  }

  /** `SeekPast(it, end, " \t")`: the new position, and whether it hit the end. */
  method SeekPast(line: string, i: nat, end: nat) returns (it: nat, atEnd: bool)
    requires i <= end <= |line|
    ensures it == SkipWhitespace(line, i, end) && atEnd == (it == end)
  {
    it := i;
    while it != end && IsWhitespace(line[it])
      invariant i <= it <= end
      invariant SkipWhitespace(line, it, end) == SkipWhitespace(line, i, end)
    {
      it := it + 1;
    }
    atEnd := it == end;
  }

  /** `SeekTo(it, end, chars)`: the new position, and whether it hit the end. */
  method SeekTo(line: string, i: nat, end: nat, chars: seq<char>) returns (it: nat, atEnd: bool)
    requires i <= end <= |line|
    ensures it == SeekToSpec(line, i, end, chars) && atEnd == (it == end)
  {
    it := i;
    while it != end && line[it] !in chars
      invariant i <= it <= end
      invariant SeekToSpec(line, it, end, chars) == SeekToSpec(line, i, end, chars)
    {
      it := it + 1;
    }
    atEnd := it == end;
  }

  /** `SeekBackPast(it, start, " \t")`. */
  method SeekBackPast(line: string, j: nat, start: nat) returns (it: nat)
    requires start <= j < |line|
    ensures it == BackPast(line, start, j)
  {
    it := j;
    while it != start && IsWhitespace(line[it])
      invariant start <= it <= j
      invariant BackPast(line, start, it) == BackPast(line, start, j)
    {
      it := it - 1;
    }
  }

  /** The name half of the loop body of `ParseTokenValuePairs`: the name
      and the position value parsing starts from. */
  method ReadName(line: string, tokenStart: nat, end: nat, pairNum: nat) returns (name: string, it: nat)
    requires tokenStart <= end <= |line|
    ensures NameScan(name, it) == ScanName(line, tokenStart, end, pairNum)
  {
    var atEnd;
    it, atEnd := SeekTo(line, tokenStart, end, ";=");
    var tokenRealEnd := it;
    if it != tokenStart {
      it := it - 1;
      it := SeekBackPast(line, it, tokenStart);
      it := it + 1;
    }
    var tokenEnd := it;
    it := tokenRealEnd;
    if it == end || line[it] != '=' {
      if pairNum == 0 {
        name := "";
        it := tokenStart;
      } else {
        name := line[tokenStart..tokenEnd];
      }
    } else {
      name := line[tokenStart..tokenEnd];
      it := it + 1;
    }
  }

  /** The value half of the loop body of `ParseTokenValuePairs`. */
  method ReadValue(line: string, from: nat, end: nat) returns (it: nat, value: string)
    requires from <= end <= |line|
    ensures ValueScan(value, it) == ScanValue(line, from, end)
  {
    var atEnd;
    it, atEnd := SeekPast(line, from, end);
    var valueStart := it;
    if it != end && line[it] == '"' {
      it := SkipQuoted(line, it + 1, end);
      it, atEnd := SeekTo(line, it, end, ";");
      value := line[valueStart..it];
    } else {
      it, atEnd := SeekTo(line, it, end, ";");
      ghost var stop := it;
      if it != valueStart {
        it := SeekBackPast(line, it - 1, valueStart);
        it := it + 1;
      }
      assert it == TrimBack(line, valueStart, stop);
      value := line[valueStart..it];
    }
  }

  /** The loop over a quoted value: stops at the closing quote, stepping
      over each backslash and the character it escapes. */
  method SkipQuoted(line: string, from: nat, end: nat) returns (it: nat)
    requires from <= end <= |line|
    ensures it == QuoteEnd(line, from, end)
  {
    it := from;
    while it != end && line[it] != '"'
      invariant from <= it <= end
      invariant QuoteEnd(line, it, end) == QuoteEnd(line, from, end)
      decreases end - it
    {
      if line[it] == '\\' {
        it := it + 1;
        if it == end {
          break;
        }
      }
      it := it + 1;
    }
  }

  /** `SetupAttributes`: for each attribute the index of its last occurrence
      after the first pair, or 0. */
  method SetupAttributesOf(pairs: seq<Pair>)
      returns (path: nat, domain: nat, expires: nat, maxAge: nat, secure: nat, httpOnly: nat)
    ensures path == AttributeIndex(pairs, PathAttr) && domain == AttributeIndex(pairs, DomainAttr)
    ensures expires == AttributeIndex(pairs, ExpiresAttr) && maxAge == AttributeIndex(pairs, MaxAgeAttr)
    ensures secure == AttributeIndex(pairs, SecureAttr) && httpOnly == AttributeIndex(pairs, HttpOnlyAttr)
  {
    path, domain, expires, maxAge, secure, httpOnly := 0, 0, 0, 0, 0, 0;
    if |pairs| == 0 {
      return;
    }
    for i := 1 to |pairs|
      invariant path == LastIndexBefore(pairs, PathAttr, i)
      invariant domain == LastIndexBefore(pairs, DomainAttr, i)
      invariant expires == LastIndexBefore(pairs, ExpiresAttr, i)
      invariant maxAge == LastIndexBefore(pairs, MaxAgeAttr, i)
      invariant secure == LastIndexBefore(pairs, SecureAttr, i)
      invariant httpOnly == LastIndexBefore(pairs, HttpOnlyAttr, i)
    {
      match AttributeOf(pairs[i].0)
      case Some(PathAttr) => path := i;
      case Some(DomainAttr) => domain := i;
      case Some(ExpiresAttr) => expires := i;
      case Some(MaxAgeAttr) => maxAge := i;
      case Some(SecureAttr) => secure := i;
      case Some(HttpOnlyAttr) => httpOnly := i;
      case None =>
    }
  }
}
