// The directive grammar of the layout-test expectation files
// (webkit/tools/layout_tests/layout_package/test_expectations.py):
//
//   <variant>[|<variant>...] # [<flag>[|<flag>...] :] <path> = <outcome>[|<outcome>...]
//
// with `//` starting a comment. This module holds the pure part: Python's
// `strip`, `split` and whitespace collapsing, `StripComments`,
// `_GetOptionsList`, `_ParseExpectations` and the per-line decisions of `_Read`.
module ExpectationsParser {
  import opened Common

  datatype Outcome = PASS | FAIL | TIMEOUT | CRASH

  const AllOutcomes: set<Outcome> := {PASS, FAIL, TIMEOUT, CRASH}

  /** Python 2's whitespace for `str.strip()` and for `\s` in `re`. */
  predicate IsSpace(c: char)
  {
    c == ' ' || c == '\t' || c == '\n' || c == '\r' || c == '\U{b}' || c == '\U{c}'
  }

  predicate AllSpace(s: string)
  {
    forall i :: 0 <= i < |s| ==> IsSpace(s[i])
  }

  /** The characters of `s` that are not whitespace, in order. */
  function NonSpace(s: string): string
  {
    if s == [] then []
    else if IsSpace(s[0]) then NonSpace(s[1..])
    else [s[0]] + NonSpace(s[1..])
  }

  // ---------------------------------------------------------------------------
  // str.strip()

  function TrimLeft(s: string): (r: string)
    ensures |r| <= |s| && r == s[|s| - |r|..]
    ensures AllSpace(s[..|s| - |r|])
    ensures r == [] || !IsSpace(r[0])
  {
    if s != [] && IsSpace(s[0]) then
      var t := s[1..];
      var r := TrimLeft(t);
      assert s[..|s| - |r|] == [s[0]] + t[..|t| - |r|];
      assert t[|t| - |r|..] == s[|s| - |r|..];
      r
    else s
  }

  function TrimRight(s: string): (r: string)
    ensures |r| <= |s| && r == s[..|r|]
    ensures AllSpace(s[|r|..])
    ensures r == [] || !IsSpace(r[|r| - 1])
  {
    if s != [] && IsSpace(s[|s| - 1]) then
      var t := s[..|s| - 1];
      var r := TrimRight(t);
      assert s[|r|..] == t[|r|..] + [s[|s| - 1]];
      assert t[..|r|] == s[..|r|];
      r
    else s
  }

  /** Python `s.strip()`: the text between the leading and trailing whitespace. */
  function Strip(s: string): (r: string)
    ensures r == [] || (!IsSpace(r[0]) && !IsSpace(r[|r| - 1]))
  {
    TrimRight(TrimLeft(s))
  }

  lemma {:induction false} TrimLeftNonSpace(s: string)
    ensures NonSpace(TrimLeft(s)) == NonSpace(s)
    decreases |s|
  {
    if s != [] && IsSpace(s[0]) { TrimLeftNonSpace(s[1..]); }
  }

  lemma {:induction false} TrimRightNonSpace(s: string)
    ensures NonSpace(TrimRight(s)) == NonSpace(s)
    decreases |s|
  {
    if s != [] && IsSpace(s[|s| - 1]) {
      var t := s[..|s| - 1];
      TrimRightNonSpace(t);
      assert s == t + [s[|s| - 1]];
      NonSpaceAppend(t, [s[|s| - 1]]);
      assert NonSpace([s[|s| - 1]]) == [] by {
        assert NonSpace([s[|s| - 1]]) == NonSpace([s[|s| - 1]][1..]);
      }
    }
  }

  /** A slice of a text without `//` has none either. */
  lemma SliceNoDoubleSlash(s: string, lo: nat, hi: nat)
    requires lo <= hi <= |s|
    requires !HasDoubleSlash(s)
    ensures !HasDoubleSlash(s[lo..hi])
  {
  }

  /** Stripping keeps the non-whitespace characters and adds no `//`. */
  lemma StripFacts(s: string)
    ensures NonSpace(Strip(s)) == NonSpace(s)
    ensures !HasDoubleSlash(s) ==> !HasDoubleSlash(Strip(s))
  {
    var l := TrimLeft(s);
    TrimLeftNonSpace(s);
    TrimRightNonSpace(l);
    if !HasDoubleSlash(s) {
      StripNoDoubleSlash(s);
    }
  }

  lemma StripNoDoubleSlash(s: string)
    requires !HasDoubleSlash(s)
    ensures !HasDoubleSlash(Strip(s))
  {
    var l := TrimLeft(s);
    SliceNoDoubleSlash(s, |s| - |l|, |s|);
    SliceNoDoubleSlash(l, 0, |TrimRight(l)|);
  }

  // ---------------------------------------------------------------------------
  // re.sub(r'\s+', ' ', s)

  function DropSpaces(s: string): (r: string)
    ensures |r| <= |s|
    ensures r == [] || !IsSpace(r[0])
    ensures NonSpace(r) == NonSpace(s)
  {
    if s != [] && IsSpace(s[0]) then DropSpaces(s[1..]) else s
  }

  /** Every maximal run of whitespace in `s` replaced by one space. */
  function Collapse(s: string): (r: string)
    decreases |s|
  {
    if s == [] then []
    else if IsSpace(s[0]) then " " + Collapse(DropSpaces(s[1..]))
    else [s[0]] + Collapse(s[1..])
  }

  predicate HasDoubleSlash(s: string)
  {
    exists i :: 0 <= i < |s| - 1 && s[i] == '/' && s[i + 1] == '/'
  }

  /** The only whitespace left by `Collapse` is single spaces. */
  predicate Collapsed(s: string)
  {
    (forall i :: 0 <= i < |s| && IsSpace(s[i]) ==> s[i] == ' ')
    && (forall i :: 0 <= i < |s| - 1 ==> !(IsSpace(s[i]) && IsSpace(s[i + 1])))
  }

  lemma {:induction false} CollapseShape(s: string)
    ensures s == [] <==> Collapse(s) == []
    ensures s != [] && IsSpace(s[0]) ==> Collapse(s)[0] == ' '
    ensures s != [] && !IsSpace(s[0]) ==> Collapse(s)[0] == s[0]
    ensures s != [] && !IsSpace(s[|s| - 1]) ==> !IsSpace(Collapse(s)[|Collapse(s)| - 1])
    decreases |s|
  {
    if s != [] {
      var t := if IsSpace(s[0]) then DropSpaces(s[1..]) else s[1..];
      CollapseShape(t);
      if IsSpace(s[0]) && t != [] {
        DropSpacesSuffix(s[1..]);
        assert t[|t| - 1] == s[|s| - 1];
      } else if IsSpace(s[0]) {
        DropSpacesAllSpace(s[1..]);
        assert IsSpace(s[|s| - 1]) by {
          if |s| > 1 { assert s[|s| - 1] == s[1..][|s| - 2]; }
        }
      }
    }
  }

  /** Collapsing keeps the non-whitespace characters. */
  lemma {:induction false} CollapseNonSpace(s: string)
    ensures NonSpace(Collapse(s)) == NonSpace(s)
    decreases |s|
  {
    if s != [] {
      var t := if IsSpace(s[0]) then DropSpaces(s[1..]) else s[1..];
      CollapseNonSpace(t);
      assert NonSpace(" ") == [] by { assert NonSpace(" ") == NonSpace(" "[1..]); }
      NonSpaceAppend(if IsSpace(s[0]) then " " else [s[0]], Collapse(t));
    }
  }

  /** After collapsing, the only whitespace is isolated single spaces. */
  lemma {:induction false} CollapseCollapsed(s: string)
    ensures Collapsed(Collapse(s))
    decreases |s|
  {
    if s != [] {
      if IsSpace(s[0]) {
        var t := DropSpaces(s[1..]);
        CollapseCollapsed(t);
        CollapseShape(t);
      } else {
        CollapseCollapsed(s[1..]);
      }
    }
  }

  /** Collapsing never creates a `//`. */
  lemma {:induction false} CollapseNoDoubleSlash(s: string)
    requires !HasDoubleSlash(s)
    ensures !HasDoubleSlash(Collapse(s))
    decreases |s|
  {
    if s != [] {
      if IsSpace(s[0]) {
        var t := DropSpaces(s[1..]);
        DropSpacesSuffix(s[1..]);
        SliceNoDoubleSlash(s, |s| - |t|, |s|);
        CollapseNoDoubleSlash(t);
      } else {
        SliceNoDoubleSlash(s, 1, |s|);
        CollapseNoDoubleSlash(s[1..]);
        CollapseShape(s[1..]);
        if s[0] == '/' && |s| > 1 {
          assert s[1] != '/';
        }
      }
    }
  }

  lemma {:induction false} DropSpacesAllSpace(s: string)
    requires DropSpaces(s) == []
    ensures AllSpace(s)
    decreases |s|
  {
    if s != [] && IsSpace(s[0]) { DropSpacesAllSpace(s[1..]); }
  }

  lemma {:induction false} DropSpacesSuffix(s: string)
    ensures DropSpaces(s) == s[|s| - |DropSpaces(s)|..]
    decreases |s|
  {
    if s != [] && IsSpace(s[0]) {
      DropSpacesSuffix(s[1..]);
      assert s[1..][|s| - 1 - |DropSpaces(s)|..] == s[|s| - |DropSpaces(s)|..];
    }
  }

  lemma {:induction false} AllSpaceNonSpace(s: string)
    ensures AllSpace(s) <==> NonSpace(s) == []
    decreases |s|
  {
    if s != [] {
      AllSpaceNonSpace(s[1..]);
      assert AllSpace(s) <==> IsSpace(s[0]) && AllSpace(s[1..]);
    }
  }

  // ---------------------------------------------------------------------------
  // The whitespace-separated words of a text

  /** The length of the leading run of non-whitespace characters. */
  function WordLen(s: string): (r: nat)
    ensures r <= |s|
    ensures forall i :: 0 <= i < r ==> !IsSpace(s[i])
    ensures r < |s| ==> IsSpace(s[r])
  {
    if s == [] || IsSpace(s[0]) then 0 else 1 + WordLen(s[1..])
  }

  /** Python `s.split()`: the maximal runs of non-whitespace characters, in
      order. */
  function Words(s: string): seq<string>
    decreases |s|
  {
    var t := DropSpaces(s);
    if t == [] then []
    else
      var n := WordLen(t);
      [t[..n]] + Words(t[n..])
  }

  /** Every word is non-empty and free of whitespace. */
  predicate ProperWords(words: seq<string>)
  {
    forall k :: 0 <= k < |words| ==> words[k] != [] && (forall i :: 0 <= i < |words[k]| ==> !IsSpace(words[k][i]))
  }

  lemma ProperWordsCons(w: string, words: seq<string>)
    requires w != [] && (forall i :: 0 <= i < |w| ==> !IsSpace(w[i]))
    requires ProperWords(words)
    ensures ProperWords([w] + words)
  {
    var ws := [w] + words;
    forall k | 1 <= k < |ws| ensures ws[k] == words[k - 1] { }
  }

  /** No word is empty or holds whitespace, and there are none exactly when
      the text is all whitespace. */
  lemma WordsShape(s: string)
    ensures ProperWords(Words(s))
    ensures Words(s) == [] <==> AllSpace(s)
  {
    WordsProper(s);
    WordsNoneIffAllSpace(s);
  }

  lemma WordsNoneIffAllSpace(s: string)
    ensures Words(s) == [] <==> AllSpace(s)
  {
    var t := DropSpaces(s);
    DropSpacesSuffix(s);
    if t == [] {
      DropSpacesAllSpace(s);
    } else {
      assert t[0] == s[|s| - |t|];
    }
  }

  lemma {:induction false} WordsProper(s: string)
    ensures ProperWords(Words(s))
    decreases |s|
  {
    var t := DropSpaces(s);
    if t != [] {
      var n := WordLen(t);
      WordsProper(t[n..]);
      ProperWordsCons(t[..n], Words(t[n..]));
    }
  }

  /** Python `' '.join(words)`. */
  function JoinSpace(words: seq<string>): string
  {
    if words == [] then []
    else if |words| == 1 then words[0]
    else words[0] + " " + JoinSpace(words[1..])
  }

  /** `DropSpaces` and `TrimLeft` both drop the leading whitespace. */
  lemma {:induction false} DropSpacesIsTrimLeft(s: string)
    ensures DropSpaces(s) == TrimLeft(s)
    decreases |s|
  {
    if s != [] && IsSpace(s[0]) { DropSpacesIsTrimLeft(s[1..]); }
  }

  /** Collapsing a leading word keeps it as it is. */
  lemma {:induction false} CollapseWord(s: string, n: nat)
    requires n <= |s|
    requires forall i :: 0 <= i < n ==> !IsSpace(s[i])
    ensures Collapse(s) == s[..n] + Collapse(s[n..])
    decreases n
  {
    if n > 0 {
      CollapseWord(s[1..], n - 1);
      assert s[1..][n - 1..] == s[n..];
      assert s[..n] == [s[0]] + s[1..][..n - 1];
    }
  }

  /** The words of a text that starts with a non-whitespace character:
      its leading word, then the words of the rest. */
  lemma WordsCons(s: string)
    requires s != [] && !IsSpace(s[0])
    ensures Words(s) == [s[..WordLen(s)]] + Words(s[WordLen(s)..])
  {
    assert DropSpaces(s) == s;
  }

  /** Leading whitespace does not change the words. */
  lemma WordsDropSpaces(s: string)
    ensures Words(DropSpaces(s)) == Words(s)
  {
    var t := DropSpaces(s);
    if t != [] {
      assert DropSpaces(t) == t;
    }
  }

  lemma JoinSpaceCons(w: string, words: seq<string>)
    requires words != []
    ensures JoinSpace([w] + words) == w + " " + JoinSpace(words)
  {
    assert ([w] + words)[1..] == words;
  }

  /** Past a word that ends before a whitespace character, the rest drops
      its leading whitespace to a non-empty text starting and ending with
      non-whitespace when the whole text ends with non-whitespace. */
  lemma AfterWord(s: string, n: nat)
    requires n + 1 < |s| && IsSpace(s[n]) && !IsSpace(s[|s| - 1])
    ensures var u := DropSpaces(s[n + 1..]);
      && u != [] && !IsSpace(u[0]) && !IsSpace(u[|u| - 1]) && |u| < |s|
      && DropSpaces(s[n..]) == u
  {
    var u := DropSpaces(s[n + 1..]);
    assert s[n..][1..] == s[n + 1..];
    DropSpacesSuffix(s[n + 1..]);
    if u == [] {
      DropSpacesAllSpace(s[n + 1..]);
      assert false;
    }
    assert u[|u| - 1] == s[|s| - 1];
  }

  /** A text that starts and ends with a non-whitespace character collapses
      to its words joined by single spaces. */
  lemma {:induction false} CollapseIsJoinedWords(s: string)
    requires s == [] || (!IsSpace(s[0]) && !IsSpace(s[|s| - 1]))
    ensures Collapse(s) == JoinSpace(Words(s))
    decreases |s|
  {
    if s != [] {
      var n := WordLen(s);
      WordsCons(s);
      CollapseWord(s, n);
      if n == |s| {
        assert s[n..] == [] && s[..n] == s;
      } else {
        assert n + 1 < |s|;
        AfterWord(s, n);
        var u := DropSpaces(s[n + 1..]);
        WordsDropSpaces(s[n..]);
        CollapseIsJoinedWords(u);
        assert Collapse(s[n..]) == " " + Collapse(u) by {
          assert s[n..][1..] == s[n + 1..];
        }
        JoinSpaceCons(s[..n], Words(u));
      }
    }
  }

  /** The leading whitespace does not change the words. */
  lemma TrimLeftWords(s: string)
    ensures Words(TrimLeft(s)) == Words(s)
  {
    DropSpacesIsTrimLeft(s);
    DropSpacesIsTrimLeft(TrimLeft(s));
  }

  /** `WordLen` of a concatenation. */
  lemma {:induction false} WordLenAppend(a: string, b: string)
    ensures WordLen(a + b) == if WordLen(a) < |a| then WordLen(a) else |a| + WordLen(b)
    decreases |a|
  {
    if a != [] {
      assert (a + b)[1..] == a[1..] + b;
      WordLenAppend(a[1..], b);
    } else {
      assert a + b == b;
    }
  }

  /** Leading whitespace is dropped from a concatenation whose first part
      is not all whitespace. */
  lemma {:induction false} DropSpacesAppend(a: string, b: string)
    requires !AllSpace(a)
    ensures DropSpaces(a + b) == DropSpaces(a) + b
    decreases |a|
  {
    assert (a + b)[0] == a[0];
    if IsSpace(a[0]) {
      assert (a + b)[1..] == a[1..] + b;
      assert !AllSpace(a[1..]) by {
        var i :| 0 <= i < |a| && !IsSpace(a[i]);
        assert a[1..][i - 1] == a[i];
      }
      DropSpacesAppend(a[1..], b);
    }
  }

  /** The words of a word followed by more text, then trailing whitespace. */
  lemma WordsMidWord(t: string, sp: string)
    requires t != [] && !IsSpace(t[0]) && WordLen(t) < |t|
    ensures Words(t + sp) == [t[..WordLen(t)]] + Words(t[WordLen(t)..] + sp)
    ensures Words(t) == [t[..WordLen(t)]] + Words(t[WordLen(t)..])
  {
    var n := WordLen(t);
    WordLenAppend(t, sp);
    assert (t + sp)[0] == t[0];
    assert DropSpaces(t + sp) == t + sp;
    assert (t + sp)[..n] == t[..n];
    assert (t + sp)[n..] == t[n..] + sp;
    WordsCons(t);
  }

  /** The words of a single word followed by trailing whitespace. */
  lemma WordsLastWord(t: string, sp: string)
    requires t != [] && !IsSpace(t[0]) && WordLen(t) == |t| && AllSpace(sp)
    ensures Words(t + sp) == Words(t)
  {
    WordLenAppend(t, sp);
    if sp != [] { assert IsSpace(sp[0]); }
    assert WordLen(sp) == 0;
    WordsShape(sp);
    assert (t + sp)[0] == t[0];
    assert DropSpaces(t + sp) == t + sp;
    assert (t + sp)[..|t|] == t;
    assert (t + sp)[|t|..] == sp;
    assert Words(t + sp) == [t] + Words(sp);
    WordsCons(t);
    assert t[|t|..] == [] && t[..|t|] == t && Words([]) == [];
  }

  /** Trailing whitespace does not change the words. */
  lemma {:induction false} TrailingSpaceWords(s: string, sp: string)
    requires AllSpace(sp)
    ensures Words(s + sp) == Words(s)
    decreases |s|
  {
    WordsShape(s);
    if AllSpace(s) {
      assert AllSpace(s + sp);
      WordsShape(s + sp);
    } else {
      var t := DropSpaces(s);
      DropSpacesAppend(s, sp);
      WordsDropSpaces(s);
      WordsDropSpaces(s + sp);
      if t == [] {
        DropSpacesAllSpace(s);
        assert false;
      }
      var n := WordLen(t);
      if n < |t| {
        WordsMidWord(t, sp);
        TrailingSpaceWords(t[n..], sp);
      } else {
        WordsLastWord(t, sp);
      }
    }
  }

  /** Stripping does not change the words. */
  lemma StripWords(s: string)
    ensures Words(Strip(s)) == Words(s)
  {
    var l := TrimLeft(s);
    var r := TrimRight(l);
    assert l == r + l[|r|..];
    TrailingSpaceWords(r, l[|r|..]);
    TrimLeftWords(s);
  }

  // ---------------------------------------------------------------------------
  // StripComments

  /** The text before the first `//` (all of `line` if there is none). */
  function BeforeComment(line: string): (r: string)
    ensures StartsWith(line, r) && !HasDoubleSlash(r)
  {
    match Find(line, "//")
    case None =>
      assert !HasDoubleSlash(line) by {
        if HasDoubleSlash(line) {
          var i :| 0 <= i < |line| - 1 && line[i] == '/' && line[i + 1] == '/';
          assert OccursAt(line, "//", i);
        }
      }
      line
    case Some(i) =>
      var r := line[..i];
      assert !HasDoubleSlash(r) by {
        if HasDoubleSlash(r) {
          var j :| 0 <= j < |r| - 1 && r[j] == '/' && r[j + 1] == '/';
          assert OccursAt(line, "//", j);
        }
      }
      r
  }

  /** `StripComments`: None exactly when only whitespace precedes the first
      `//`; otherwise the text before it, trimmed, with whitespace runs
      collapsed to single spaces: the same non-whitespace characters in
      order, and never a `//`. */
  function StripComments(line: string): (r: Option<string>)
    ensures r.None? <==> AllSpace(BeforeComment(line))
    ensures r.Some? ==>
      && r.value != []
      && !IsSpace(r.value[0]) && !IsSpace(r.value[|r.value| - 1])
      && Collapsed(r.value)
      && !HasDoubleSlash(r.value)
      && NonSpace(r.value) == NonSpace(BeforeComment(line))
  {
    var b := BeforeComment(line);
    CleanedText(b);
    var c := Collapse(Strip(b));
    if c == "" then None else Some(c)
  }

  /** What `StripComments` returns, stated without the collapsing: the
      words before the first `//` joined by single spaces, or None when
      there are none. */
  lemma StripCommentsJoinsWords(line: string)
    ensures var words := Words(BeforeComment(line));
      StripComments(line) == if words == [] then None else Some(JoinSpace(words))
  {
    var b := BeforeComment(line);
    CleanedText(b);
    WordsShape(b);
  }

  /** Stripping and collapsing a text without `//` gives its words joined
      by single spaces. That is nothing exactly when the text is all
      whitespace, and otherwise a trimmed, collapsed text without `//`
      holding the same non-whitespace characters. */
  lemma CleanedText(b: string)
    requires !HasDoubleSlash(b)
    ensures var c := Collapse(Strip(b));
      && (c == [] <==> AllSpace(b))
      && c == JoinSpace(Words(b))
      && (c != [] ==>
            && !IsSpace(c[0]) && !IsSpace(c[|c| - 1])
            && Collapsed(c)
            && !HasDoubleSlash(c)
            && NonSpace(c) == NonSpace(b))
  {
    var s := Strip(b);
    StripFacts(b);
    CollapseShape(s);
    CollapseNonSpace(s);
    CollapseCollapsed(s);
    CollapseNoDoubleSlash(s);
    CollapseIsJoinedWords(s);
    StripWords(b);
    AllSpaceNonSpace(b);
    if s != [] {
      assert NonSpace(s) == [s[0]] + NonSpace(s[1..]);
    }
  }

  lemma {:induction false} NonSpaceAppend(a: string, b: string)
    ensures NonSpace(a + b) == NonSpace(a) + NonSpace(b)
    decreases |a|
  {
    if a != [] {
      assert (a + b)[0] == a[0];
      assert (a + b)[1..] == a[1..] + b;
      NonSpaceAppend(a[1..], b);
    } else {
      assert a + b == b;
    }
  }

  // ---------------------------------------------------------------------------
  // str.split(sep)

  /** Python `s.split(sep)` for a one-character separator. */
  function Split(s: string, sep: char): (r: seq<string>)
    ensures |r| >= 1
    decreases |s|
  {
    match IndexOf(s, sep)
    case None => [s]
    case Some(i) => [s[..i]] + Split(s[i + 1..], sep)
  }

  function Join(parts: seq<string>, sep: char): string
  {
    if |parts| <= 1 then (if parts == [] then "" else parts[0])
    else parts[0] + [sep] + Join(parts[1..], sep)
  }

  function Count(s: string, c: char): nat
  {
    if s == [] then 0 else (if s[0] == c then 1 else 0) + Count(s[1..], c)
  }

  /** Joining the pieces of a split with the separator gives back the string,
      and a split yields one piece more than there are separators. */
  lemma {:induction false} SplitJoin(s: string, sep: char)
    ensures Join(Split(s, sep), sep) == s
    ensures |Split(s, sep)| == Count(s, sep) + 1
    decreases |s|
  {
    match IndexOf(s, sep)
    case None =>
      CountAbsent(s, sep);
    case Some(i) =>
      var rest := s[i + 1..];
      SplitJoin(rest, sep);
      var parts := Split(s, sep);
      assert parts == [s[..i]] + Split(rest, sep);
      assert Join(parts, sep) == s[..i] + [sep] + Join(Split(rest, sep), sep) by {
        assert |parts| >= 2 && parts[1..] == Split(rest, sep);
      }
      assert s == s[..i] + [sep] + rest;
      assert Count(s, sep) == Count(rest, sep) + 1 by {
        CountAt(s, i, sep);
      }
  }

  /** The separators of `s` are the one at `i`, when it is the first, and
      those after it. */
  lemma CountAt(s: string, i: nat, sep: char)
    requires i < |s| && s[i] == sep && sep !in s[..i]
    ensures Count(s, sep) == Count(s[i + 1..], sep) + 1
  {
    assert s == s[..i] + [sep] + s[i + 1..];
    CountAppend(s[..i] + [sep], s[i + 1..], sep);
    CountAppend(s[..i], [sep], sep);
    CountAbsent(s[..i], sep);
  }

  lemma {:induction false} CountAbsent(s: string, c: char)
    requires c !in s
    ensures Count(s, c) == 0
    decreases |s|
  {
    if s != [] { CountAbsent(s[1..], c); }
  }

  lemma {:induction false} CountAppend(a: string, b: string, c: char)
    ensures Count(a + b, c) == Count(a, c) + Count(b, c)
    decreases |a|
  {
    if a != [] {
      assert (a + b)[0] == a[0];
      assert (a + b)[1..] == a[1..] + b;
      CountAppend(a[1..], b, c);
    } else {
      assert a + b == b;
    }
  }

  lemma SplitSingle(s: string, sep: char)
    requires sep !in s
    ensures Split(s, sep) == [s]
  {
  }

  // ---------------------------------------------------------------------------
  // _GetOptionsList and _ParseExpectations

  /** `[part.strip().lower() for part in s.split('|')]` */
  function OptionsList(s: string): (r: seq<string>)
    ensures |r| == |Split(s, '|')|
    ensures forall i :: 0 <= i < |r| ==> r[i] == ToLowerAscii(Strip(Split(s, '|')[i]))
  {
    var parts := Split(s, '|');
    seq(|parts|, i requires 0 <= i < |parts| => ToLowerAscii(Strip(parts[i])))
  }

  /** The EXPECTATIONS table. */
  function OutcomeNamed(token: string): Option<Outcome>
  {
    if token == "pass" then Some(PASS)
    else if token == "fail" then Some(FAIL)
    else if token == "timeout" then Some(TIMEOUT)
    else if token == "crash" then Some(CRASH)
    else None
  }

  function OutcomeName(e: Outcome): string
  {
    match e
    case PASS => "pass"
    case FAIL => "fail"
    case TIMEOUT => "timeout"
    case CRASH => "crash"
  }

  /** Every outcome has a table entry under its own name. */
  lemma OutcomeNameRoundTrip(e: Outcome)
    ensures OutcomeNamed(OutcomeName(e)) == Some(e)
  {
  }

  /** The three syntax errors `_Read` reports. */
  datatype LineError =
    | MustHaveBuildTypes
    | MissingExpectations
    | UnsupportedExpectation(token: string)

  function ErrorMessage(e: LineError): string
  {
    match e
    case MustHaveBuildTypes => "Test must have build types"
    case MissingExpectations => "Test is missing expectations"
    case UnsupportedExpectation(token) => "Unsupported expectation: " + token
  }

  /** `_ParseExpectations`: the outcome of each option, or the first unknown token. */
  function ParseOutcomes(s: string): Result<set<Outcome>, LineError>
  {
    ParseTokens(OptionsList(s))
  }

  function ParseTokens(tokens: seq<string>): (r: Result<set<Outcome>, LineError>)
    ensures r.Failure? ==> r.error.UnsupportedExpectation?
  {
    if tokens == [] then Success({})
    else match OutcomeNamed(tokens[0])
      case None => Failure(UnsupportedExpectation(tokens[0]))
      case Some(e) =>
        match ParseTokens(tokens[1..])
        case Failure(msg) => Failure(msg)
        case Success(rest) => Success({e} + rest)
  }

  /** The tokens parse iff each names an outcome; the result is then the set of
      the named outcomes, otherwise the error names the first unknown token. */
  lemma {:induction false} ParseTokensSpec(tokens: seq<string>)
    ensures ParseTokens(tokens).Success? <==>
      forall i :: 0 <= i < |tokens| ==> OutcomeNamed(tokens[i]).Some?
    ensures ParseTokens(tokens).Success? ==>
      forall e :: e in ParseTokens(tokens).value <==>
        exists i :: 0 <= i < |tokens| && OutcomeNamed(tokens[i]) == Some(e)
    ensures ParseTokens(tokens).Failure? ==>
      exists i :: 0 <= i < |tokens| && OutcomeNamed(tokens[i]).None?
        && (forall j :: 0 <= j < i ==> OutcomeNamed(tokens[j]).Some?)
        && ParseTokens(tokens).error == UnsupportedExpectation(tokens[i])
    decreases |tokens|
  {
    if tokens != [] {
      ParseTokensSpec(tokens[1..]);
      if OutcomeNamed(tokens[0]).Some? && ParseTokens(tokens[1..]).Failure? {
        var i :| 0 <= i < |tokens| - 1 && OutcomeNamed(tokens[1..][i]).None?
          && (forall j :: 0 <= j < i ==> OutcomeNamed(tokens[1..][j]).Some?)
          && ParseTokens(tokens[1..]).error == UnsupportedExpectation(tokens[1..][i]);
        assert OutcomeNamed(tokens[i + 1]).None?;
      }
      if ParseTokens(tokens).Success? {
        forall e | e in ParseTokens(tokens).value
          ensures exists i :: 0 <= i < |tokens| && OutcomeNamed(tokens[i]) == Some(e)
        {
          if e != OutcomeNamed(tokens[0]).value {
            var i :| 0 <= i < |tokens| - 1 && OutcomeNamed(tokens[1..][i]) == Some(e);
            assert OutcomeNamed(tokens[i + 1]) == Some(e);
          }
        }
        forall e, i | 0 <= i < |tokens| && OutcomeNamed(tokens[i]) == Some(e)
          ensures e in ParseTokens(tokens).value
        {
          if i > 0 { assert OutcomeNamed(tokens[1..][i - 1]) == Some(e); }
        }
      }
    }
  }

  // ---------------------------------------------------------------------------
  // One line of `_Read`

  /** What one non-blank line asks the store to do. */
  datatype Directive =
    | Skip(path: string, isDeferred: bool)
    | Expect(path: string, isDeferred: bool, outcomes: set<Outcome>)

  /** The part of a line after the `#`: its flags and its `path = outcomes`
      text. A flags segment exists only when the body splits on `:` into
      exactly two parts; otherwise the whole first part is the text. */
  datatype Body = Body(isSkipped: bool, isDeferred: bool, text: string)

  function SplitFlags(body: string): Body
  {
    var parts := Split(body, ':');
    if |parts| == 2 then
      var options := OptionsList(parts[0]);
      Body("skip" in options, "defer" in options, parts[1])
    else Body(false, false, parts[0])
  }

  /** The directive a body describes. */
  function ParseBody(b: Body): (r: Result<Directive, LineError>)
    ensures r.Failure? ==> r.error != MustHaveBuildTypes
  {
    var sides := Split(b.text, '=');
    if |sides| != 2 then Failure(MissingExpectations)
    else
      var path := Strip(sides[0]);
      if b.isSkipped then Success(Skip(path, b.isDeferred))
      else match ParseOutcomes(sides[1])
        case Failure(e) => Failure(e)
        case Success(outcomes) => Success(Expect(path, b.isDeferred, outcomes))
  }

  /** The decision `_Read` takes for one comment-stripped, non-empty line:
      an error, None for a line of another build type, or a directive. A
      line that does not contain exactly one `#` is rejected with the
      build-types error whatever else it says, and no other line is; a line
      whose build-type list does not name the active build type is dropped
      without error whatever its body holds, and no other line is. */
  function ParseLine(line: string, buildType: string): (r: Result<Option<Directive>, LineError>)
    ensures r == Failure(MustHaveBuildTypes) <==> Count(line, '#') != 1
    ensures r == Success(None) <==>
      Count(line, '#') == 1 && buildType !in OptionsList(Split(line, '#')[0])
  {
    var parts := Split(line, '#');
    SplitCount(line, '#');
    if |parts| != 2 then Failure(MustHaveBuildTypes)
    else if buildType !in OptionsList(parts[0]) then Success(None)
    else
      var body := ParseBody(SplitFlags(parts[1]));
      if body.Failure? then Failure(body.error) else Success(Some(body.value))
  }

  lemma SplitCount(s: string, sep: char)
    ensures |Split(s, sep)| == Count(s, sep) + 1
  {
    SplitJoin(s, sep);
  }

  /** The `=` must split the path from the outcomes exactly once. */
  lemma ExpectationsRequired(b: Body)
    ensures ParseBody(b) == Failure(MissingExpectations) <==> Count(b.text, '=') != 1
  {
    SplitJoin(b.text, '=');
  }

  /** A skip directive never has its right-hand side parsed as outcomes: a
      body with the skip flag and one `=` yields a Skip directive for the
      stripped path, whatever tokens follow the `=`. */
  lemma SkipIgnoresOutcomes(b: Body)
    requires b.isSkipped
    requires Count(b.text, '=') == 1
    ensures ParseBody(b) == Success(Skip(Strip(Split(b.text, '=')[0]), b.isDeferred))
  {
    SplitJoin(b.text, '=');
  }

  /** In an expectation directive every token after `=` must name an outcome:
      the body then yields exactly the named outcomes, otherwise it is
      rejected with the first unknown token. */
  lemma ExpectRequiresKnownOutcomes(b: Body)
    requires !b.isSkipped
    requires |Split(b.text, '=')| == 2
    ensures var tokens := OptionsList(Split(b.text, '=')[1]);
      var r := ParseBody(b);
      && (r.Success? <==> forall i :: 0 <= i < |tokens| ==> OutcomeNamed(tokens[i]).Some?)
      && (r.Success? ==>
            && r.value.Expect?
            && forall e :: e in r.value.outcomes <==>
                 exists i :: 0 <= i < |tokens| && OutcomeNamed(tokens[i]) == Some(e))
      && (r.Failure? ==>
            exists i :: 0 <= i < |tokens| && OutcomeNamed(tokens[i]).None?
              && (forall j :: 0 <= j < i ==> OutcomeNamed(tokens[j]).Some?)
              && r.error == UnsupportedExpectation(tokens[i]))
  {
    ParseTokensSpec(OptionsList(Split(b.text, '=')[1]));
  }
}
