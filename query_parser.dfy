// The history full-text query parser: a query is split into words and
// quoted phrases, serialised for SQLite's full-text search, and matched
// against the words of a page's text.
module QueryParser {
  import opened Common

  /** A node of the query tree: a single word, or a quoted phrase holding
      the words between a pair of quote characters.  The root of a query is
      a plain list of nodes, `seq<QueryNode>`. */
  datatype QueryNode = Word(word: string, literal: bool) | Phrase(children: seq<QueryNode>)

  /** A span reported by the word iterator: a word, or a run of punctuation
      or white space. */
  datatype Span = Span(text: string, isWord: bool)

  // ---------------------------------------------------------------- words

  predicate IsHangulSyllable(c: char)
  {
    '\U{AC00}' <= c <= '\U{D7A3}'
  }

  /** Korean Hangul syllables allow prefix search from two characters on,
      every other word from three. An empty word reads its terminating NUL
      as its first character. */
  predicate IsWordLongEnoughForPrefixSearch(word: string)
  {
    |word| >= (if |word| > 0 && IsHangulSyllable(word[0]) then 2 else 3)
  }

  lemma LongEnoughSpec(word: string)
    ensures IsWordLongEnoughForPrefixSearch(word) <==>
      (|word| >= 3 || (|word| == 2 && IsHangulSyllable(word[0])))
  {
  }

  /** `QueryNodeWord::Matches`; a phrase is never asked (`NOTREACHED`) and
      answers false. */
  predicate Matches(node: QueryNode, word: string, exact: bool)
  {
    match node
    case Word(w, _) =>
      if exact || !IsWordLongEnoughForPrefixSearch(w) then word == w
      else |word| >= |w| && word[..|w|] == w
    case Phrase(_) => false
  }

  /** A word long enough for prefix search matches, outside exact mode,
      exactly the words it is a prefix of; otherwise only itself. */
  lemma MatchesSpec(w: string, literal: bool, word: string, exact: bool)
    ensures !exact && IsWordLongEnoughForPrefixSearch(w) ==>
      (Matches(Word(w, literal), word, exact) <==> exists rest :: word == w + rest)
    ensures exact || !IsWordLongEnoughForPrefixSearch(w) ==>
      (Matches(Word(w, literal), word, exact) <==> word == w)
  {
    if !exact && IsWordLongEnoughForPrefixSearch(w) && Matches(Word(w, literal), word, exact) {
      assert word == w + word[|w|..];
    }
  }

  /** An exact match is also a prefix match. */
  lemma ExactMatchIsPrefixMatch(node: QueryNode, word: string)
    requires Matches(node, word, true)
    ensures Matches(node, word, false)
  {
    var w := node.word;
    assert word[..|w|] == w;
  }

  /** `QueryNodeWord::HasMatchIn`: some word of the text matches in prefix mode. */
  predicate WordHasMatchIn(node: QueryNode, words: seq<string>)
  {
    |words| > 0 && (Matches(node, words[0], false) || WordHasMatchIn(node, words[1..]))
  }

  lemma {:induction false} WordHasMatchInSpec(node: QueryNode, words: seq<string>)
    ensures WordHasMatchIn(node, words) <==> exists i :: 0 <= i < |words| && Matches(node, words[i], false)
    decreases |words|
  {
    if |words| > 0 {
      WordHasMatchInSpec(node, words[1..]);
      if exists i :: 0 <= i < |words| && Matches(node, words[i], false) {
        var i :| 0 <= i < |words| && Matches(node, words[i], false);
        if i > 0 {
          assert words[1..][i - 1] == words[i];
        }
      }
      if WordHasMatchIn(node, words[1..]) {
        var i :| 0 <= i < |words[1..]| && Matches(node, words[1..][i], false);
        assert words[i + 1] == words[1..][i];
      }
    }
  }

  /** Each child matches, in exact mode, the word at the same position. */
  predicate MatchesEach(children: seq<QueryNode>, words: seq<string>)
    requires |children| == |words|
  {
    children == [] || (Matches(children[0], words[0], true) && MatchesEach(children[1..], words[1..]))
  }

  lemma {:induction false} MatchesEachSpec(children: seq<QueryNode>, words: seq<string>)
    requires |children| == |words|
    ensures MatchesEach(children, words) <==> forall j :: 0 <= j < |children| ==> Matches(children[j], words[j], true)
    decreases |children|
  {
    if children != [] {
      MatchesEachSpec(children[1..], words[1..]);
      if MatchesEach(children, words) {
        forall j | 0 <= j < |children| ensures Matches(children[j], words[j], true) {
          if j > 0 {
            assert children[1..][j - 1] == children[j] && words[1..][j - 1] == words[j];
          }
        }
      }
      if forall j :: 0 <= j < |children| ==> Matches(children[j], words[j], true) {
        forall j | 0 <= j < |children[1..]| ensures Matches(children[1..][j], words[1..][j], true) {
          assert children[1..][j] == children[j + 1] && words[1..][j] == words[j + 1];
        }
      }
    }
  }

  /** The window of the text's words starting at `s` matches the children. */
  predicate WindowMatches(children: seq<QueryNode>, words: seq<string>, s: nat)
  {
    s + |children| <= |words| && MatchesEach(children, words[s..s + |children|])
  }

  /** Some window starting at or after `i` matches the children. */
  predicate WindowFrom(children: seq<QueryNode>, words: seq<string>, i: nat)
    decreases |words| - i
  {
    i + |children| <= |words| && (WindowMatches(children, words, i) || WindowFrom(children, words, i + 1))
  }

  /** `QueryNodePhrase::HasMatchIn`. */
  predicate PhraseHasMatchIn(children: seq<QueryNode>, words: seq<string>)
  {
    |words| >= |children| && WindowFrom(children, words, 0)
  }

  /** The words of a phrase node, in order, when all its children are words. */
  function Texts(children: seq<QueryNode>): (r: seq<string>)
    requires forall j :: 0 <= j < |children| ==> children[j].Word?
    ensures |r| == |children|
    ensures forall j :: 0 <= j < |children| ==> r[j] == children[j].word
  {
    if children == [] then [] else Texts(children[..|children| - 1]) + [children[|children| - 1].word]
  }

  lemma {:induction false} WindowFromSpec(children: seq<QueryNode>, words: seq<string>, i: nat)
    ensures WindowFrom(children, words, i) <==> exists s :: i <= s && WindowMatches(children, words, s)
    decreases |words| - i
  {
    if i + |children| <= |words| {
      WindowFromSpec(children, words, i + 1);
      if exists s :: i <= s && WindowMatches(children, words, s) {
        var s :| i <= s && WindowMatches(children, words, s);
        if s > i {
          assert i + 1 <= s;
        }
      }
    }
  }

  /** For a phrase of words, a window matches exactly when it holds the
      phrase's words. */
  lemma WindowMatchesWords(children: seq<QueryNode>, words: seq<string>, s: nat)
    requires forall j :: 0 <= j < |children| ==> children[j].Word?
    ensures WindowMatches(children, words, s) <==> OccursAt(words, Texts(children), s)
  {
    if s + |children| <= |words| {
      var ws := words[s..s + |children|];
      var t := Texts(children);
      assert OccursAt(words, t, s) <==> ws == t;
      assert WindowMatches(children, words, s) == MatchesEach(children, ws);
      MatchesEachSpec(children, ws);
      assert (forall j :: 0 <= j < |children| ==> Matches(children[j], ws[j], true)) <==> ws == t by {
        if forall j :: 0 <= j < |children| ==> Matches(children[j], ws[j], true) {
          assert forall j :: 0 <= j < |children| ==> ws[j] == t[j];
        }
      }
    }
  }

  /** A phrase whose children are all words matches iff its words occur as a
      contiguous run of the text's words, in order; with fewer words in the
      text than in the phrase it never matches. */
  lemma PhraseHasMatchInSpec(children: seq<QueryNode>, words: seq<string>)
    requires forall j :: 0 <= j < |children| ==> children[j].Word?
    ensures |words| < |children| ==> !PhraseHasMatchIn(children, words)
    ensures PhraseHasMatchIn(children, words) <==> exists s :: OccursAt(words, Texts(children), s)
  {
    var t := Texts(children);
    WindowFromSpec(children, words, 0);
    if exists s :: OccursAt(words, t, s) {
      var s :| OccursAt(words, t, s);
      WindowMatchesWords(children, words, s);
    }
    if PhraseHasMatchIn(children, words) {
      var s :| 0 <= s && WindowMatches(children, words, s);
      WindowMatchesWords(children, words, s);
    }
  }

  /** `QueryNode::HasMatchIn` for either kind of node. */
  predicate HasMatchIn(node: QueryNode, words: seq<string>)
  {
    match node
    case Word(_, _) => WordHasMatchIn(node, words)
    case Phrase(children) => PhraseHasMatchIn(children, words)
  }

  // ------------------------------------------------------------- matching

  /** The non-empty words among the spans of a text (`ExtractWords`). */
  function TextWords(spans: seq<Span>): seq<string>
  {
    if spans == [] then []
    else
      var s := spans[|spans| - 1];
      TextWords(spans[..|spans| - 1]) + (if s.isWord && s.text != "" then [s.text] else [])
  }

  lemma {:induction false} TextWordsSpec(spans: seq<Span>)
    ensures forall w :: w in TextWords(spans) <==> exists s :: s in spans && s.isWord && s.text == w && w != ""
    decreases |spans|
  {
    if spans != [] {
      TextWordsSpec(spans[..|spans| - 1]);
      assert spans == spans[..|spans| - 1] + [spans[|spans| - 1]];
    }
  }

  /** `ExtractWords`: collects the non-empty word spans. */
  method ExtractWords(spans: seq<Span>) returns (words: seq<string>)
    ensures words == TextWords(spans)
  {
    words := [];
    for i := 0 to |spans|
      invariant words == TextWords(spans[..i])
    {
      assert spans[..i + 1][..i] == spans[..i];
      if spans[i].isWord && spans[i].text != "" {
        words := words + [spans[i].text];
      }
    }
    assert spans[..|spans|] == spans;
  }

  /** The text matches the query: there is at least one node and at least one
      word, and every node has a match among the words. */
  predicate QueryMatches(spans: seq<Span>, nodes: seq<QueryNode>)
  {
    nodes != [] && TextWords(spans) != [] &&
    forall i :: 0 <= i < |nodes| ==> HasMatchIn(nodes[i], TextWords(spans))
  }

  /** `QueryParser::DoesQueryMatch`, on text already lower-cased and split. */
  method DoesQueryMatch(spans: seq<Span>, nodes: seq<QueryNode>) returns (r: bool)
    ensures r == QueryMatches(spans, nodes)
  {
    if nodes == [] {
      return false;
    }
    var words := ExtractWords(spans);
    if words == [] {
      return false;
    }
    for i := 0 to |nodes|
      invariant forall k :: 0 <= k < i ==> HasMatchIn(nodes[k], words)
    {
      if !HasMatchIn(nodes[i], words) {
        return false;
      }
    }
    return true;
  }

  // -------------------------------------------------------------- the tree

  /** The words of a list of nodes, in order, phrases flattened. */
  function Leaves(cs: seq<QueryNode>): seq<string>
    decreases cs
  {
    if cs == [] then []
    else
      var last := cs[|cs| - 1];
      Leaves(cs[..|cs| - 1]) + (match last case Word(w, _) => [w] case Phrase(c) => Leaves(c))
  }

  function NodeLeaves(n: QueryNode): seq<string>
  {
    Leaves([n])
  }

  lemma {:induction false} LeavesAppend(a: seq<QueryNode>, b: seq<QueryNode>)
    ensures Leaves(a + b) == Leaves(a) + Leaves(b)
    decreases |b|
  {
    if b == [] {
      assert a + b == a;
    } else {
      assert (a + b)[..|a + b| - 1] == a + b[..|b| - 1];
      LeavesAppend(a, b[..|b| - 1]);
    }
  }

  lemma LeavesCons(n: QueryNode, cs: seq<QueryNode>)
    ensures Leaves([n] + cs) == NodeLeaves(n) + Leaves(cs)
  {
    LeavesAppend([n], cs);
  }

  /** No list node, at any depth, has an empty child list. */
  predicate NoEmptyLists(cs: seq<QueryNode>)
    decreases cs
  {
    forall i :: 0 <= i < |cs| ==> match cs[i] case Word(_, _) => true case Phrase(c) => c != [] && NoEmptyLists(c)
  }

  /** `QueryNodeList::RemoveEmptySubnodes`: every list child that is empty once
      its own empty subnodes are gone is erased. */
  function RemoveEmpty(cs: seq<QueryNode>): seq<QueryNode>
    decreases cs
  {
    if cs == [] then []
    else
      (match cs[0]
       case Word(_, _) => [cs[0]]
       case Phrase(c) => var k := RemoveEmpty(c); if k == [] then [] else [Phrase(k)])
      + RemoveEmpty(cs[1..])
  }

  /** After `RemoveEmptySubnodes` no list at any depth is empty. */
  lemma {:induction false} RemoveEmptyNoEmptyLists(cs: seq<QueryNode>)
    ensures NoEmptyLists(RemoveEmpty(cs))
    decreases cs
  {
    if cs != [] {
      RemoveEmptyNoEmptyLists(cs[1..]);
      match cs[0]
      case Word(_, _) =>
      case Phrase(c) => RemoveEmptyNoEmptyLists(c);
    }
  }

  /** The words of a phrase node are the words of its children. */
  lemma PhraseLeaves(c: seq<QueryNode>)
    ensures NodeLeaves(Phrase(c)) == Leaves(c)
  {
    assert [Phrase(c)][..0] == [];
  }

  lemma WordLeaves(w: string, literal: bool)
    ensures NodeLeaves(Word(w, literal)) == [w]
  {
    var cs := [Word(w, literal)];
    assert cs[..0] == [];
    assert Leaves(cs) == Leaves(cs[..0]) + [w];
  }

  /** What `RemoveEmpty` keeps of the first child. */
  function CleanHead(n: QueryNode): seq<QueryNode>
  {
    match n
    case Word(_, _) => [n]
    case Phrase(c) => var k := RemoveEmpty(c); if k == [] then [] else [Phrase(k)]
  }

  lemma RemoveEmptyCons(cs: seq<QueryNode>)
    requires cs != []
    ensures RemoveEmpty(cs) == CleanHead(cs[0]) + RemoveEmpty(cs[1..])
  {
  }

  /** `RemoveEmptySubnodes` keeps the words and their relative order. */
  lemma {:induction false} RemoveEmptyKeepsLeaves(cs: seq<QueryNode>)
    ensures Leaves(RemoveEmpty(cs)) == Leaves(cs)
    decreases cs
  {
    if cs != [] {
      RemoveEmptyKeepsLeaves(cs[1..]);
      assert cs == [cs[0]] + cs[1..];
      LeavesCons(cs[0], cs[1..]);
      RemoveEmptyCons(cs);
      LeavesAppend(CleanHead(cs[0]), RemoveEmpty(cs[1..]));
      CleanHeadLeaves(cs[0]);
    }
  }

  lemma CleanHeadLeaves(n: QueryNode)
    ensures Leaves(CleanHead(n)) == NodeLeaves(n)
    decreases n, 0
  {
    match n
    case Word(_, _) =>
    case Phrase(c) =>
      RemoveEmptyKeepsLeaves(c);
      PhraseLeaves(c);
      var k := RemoveEmpty(c);
      if k != [] {
        PhraseLeaves(k);
      }
  }

  /** A tree that has no empty lists is left as it is. */
  lemma {:induction false} RemoveEmptyFixes(cs: seq<QueryNode>)
    requires NoEmptyLists(cs)
    ensures RemoveEmpty(cs) == cs
    decreases cs
  {
    if cs != [] {
      assert NoEmptyLists(cs[1..]) by {
        forall i | 0 <= i < |cs[1..]| ensures cs[1..][i] == cs[i + 1] { }
      }
      RemoveEmptyFixes(cs[1..]);
      match cs[0]
      case Word(_, _) =>
      case Phrase(c) =>
        RemoveEmptyFixes(c);
    }
  }

  /** Removing empty subnodes twice is the same as once. */
  lemma RemoveEmptyIdempotent(cs: seq<QueryNode>)
    ensures RemoveEmpty(RemoveEmpty(cs)) == RemoveEmpty(cs)
  {
    RemoveEmptyNoEmptyLists(cs);
    RemoveEmptyFixes(RemoveEmpty(cs));
  }

  /** `RemoveEmptySubnodes` in place: a list child emptied by the recursive
      call is erased and the index stays where it is. */
  method RemoveEmptySubnodes(children: seq<QueryNode>) returns (r: seq<QueryNode>)
    ensures r == RemoveEmpty(children)
    decreases children
  {
    r := children;
    var i := 0;
    ghost var k := 0;
    while i < |r|
      invariant CleanedUpTo(children, r, i, k)
      decreases |r| - i
    {
      var head: seq<QueryNode>;
      if r[i].Phrase? {
        assert r[i] == children[k] by { CleanedUpToHead(children, r, i, k); }
        var cleaned := RemoveEmptySubnodes(r[i].children);
        if cleaned == [] {
          head := [];
        } else {
          head := [Phrase(cleaned)];
        }
      } else {
        head := [r[i]];
      }
      CleanedUpToStep(children, r, i, k, head);
      r := r[..i] + head + r[i + 1..];
      i := i + |head|;
      k := k + 1;
    }
    CleanedUpToEnd(children, r, i, k);
  }

  /** The loop invariant of `RemoveEmptySubnodes`: the first `k` children
      have been cleaned into `r[..i]`, and the rest are untouched. */
  ghost predicate CleanedUpTo(children: seq<QueryNode>, r: seq<QueryNode>, i: int, k: int)
  {
    && 0 <= i <= |r| && 0 <= k <= |children|
    && r[i..] == children[k..]
    && RemoveEmpty(children) == r[..i] + RemoveEmpty(children[k..])
  }

  lemma CleanedUpToHead(children: seq<QueryNode>, r: seq<QueryNode>, i: nat, k: nat)
    requires CleanedUpTo(children, r, i, k) && i < |r|
    ensures k < |children| && r[i] == children[k]
  {
    assert r[i..][0] == children[k..][0];
  }

  lemma CleanedUpToStep(children: seq<QueryNode>, r: seq<QueryNode>, i: nat, k: nat, head: seq<QueryNode>)
    requires CleanedUpTo(children, r, i, k) && i < |r|
    requires k < |children| && head == CleanHead(children[k])
    ensures CleanedUpTo(children, r[..i] + head + r[i + 1..], i + |head|, k + 1)
  {
    CleanedUpToHead(children, r, i, k);
    var r' := r[..i] + head + r[i + 1..];
    assert r'[i + |head|..] == r[i + 1..];
    assert r[i + 1..] == r[i..][1..] && children[k + 1..] == children[k..][1..];
    assert RemoveEmpty(children[k..]) == head + RemoveEmpty(children[k + 1..]) by {
      RemoveEmptyCons(children[k..]);
    }
    assert r'[..i + |head|] == r[..i] + head;
  }

  lemma CleanedUpToEnd(children: seq<QueryNode>, r: seq<QueryNode>, i: nat, k: nat)
    requires CleanedUpTo(children, r, i, k) && i >= |r|
    ensures r == RemoveEmpty(children)
  {
    assert children[k..] == [];
    assert r[..i] == r;
  }

  // -------------------------------------------------------- serialisation

  /** What `AppendToSQLiteQuery` writes for a node. */
  function Serialize(n: QueryNode): string
    decreases n
  {
    match n
    case Word(w, literal) => w + (if !literal && IsWordLongEnoughForPrefixSearch(w) then "*" else "")
    case Phrase(c) => "\"" + SerializeList(c) + "\""
  }

  /** What `AppendChildrenToString` writes: the children separated by spaces. */
  function SerializeList(cs: seq<QueryNode>): string
    decreases cs
  {
    if cs == [] then ""
    else SerializeList(cs[..|cs| - 1]) + (if |cs| > 1 then " " else "") + Serialize(cs[|cs| - 1])
  }

  /** A word is written as itself, followed by `*` exactly when it is not
      literal and long enough for prefix search. */
  lemma SerializeWord(w: string, literal: bool)
    ensures Serialize(Word(w, literal)) == w || Serialize(Word(w, literal)) == w + "*"
    ensures Serialize(Word(w, literal)) == w + "*" <==> !literal && IsWordLongEnoughForPrefixSearch(w)
  {
    if Serialize(Word(w, literal)) == w + "*" {
      assert |Serialize(Word(w, literal))| == |w| + 1;
    }
  }

  /** A list of words without prefix search is written as the words joined by
      single spaces: as many spaces as words less one. */
  lemma {:induction false} SerializeListLength(cs: seq<QueryNode>)
    requires forall j :: 0 <= j < |cs| ==> cs[j].Word? && cs[j].literal
    ensures cs != [] ==> |SerializeList(cs)| == |Texts(cs)| - 1 + SumLengths(Texts(cs))
    decreases |cs|
  {
    if |cs| > 1 {
      SerializeListLength(cs[..|cs| - 1]);
      assert Texts(cs) == Texts(cs[..|cs| - 1]) + [cs[|cs| - 1].word];
      SumLengthsAppend(Texts(cs[..|cs| - 1]), cs[|cs| - 1].word);
    } else if |cs| == 1 {
      assert Texts(cs) == [cs[0].word];
      assert SumLengths([cs[0].word]) == SumLengths([]) + |cs[0].word|;
    }
  }

  function SumLengths(ws: seq<string>): nat
  {
    if ws == [] then 0 else SumLengths(ws[..|ws| - 1]) + |ws[|ws| - 1]|
  }

  lemma SumLengthsAppend(ws: seq<string>, w: string)
    ensures SumLengths(ws + [w]) == SumLengths(ws) + |w|
  {
    assert (ws + [w])[..|ws|] == ws;
  }

  /** `AppendToSQLiteQuery`: appends the node and reports how many words it holds. */
  method AppendToSQLiteQuery(n: QueryNode, query: string) returns (q: string, numWords: nat)
    ensures q == query + Serialize(n)
    ensures numWords == |NodeLeaves(n)|
    decreases n, 1
  {
    match n
    case Word(w, literal) =>
      WordLeaves(w, literal);
      q := query + w;
      if !literal && IsWordLongEnoughForPrefixSearch(w) {
        q := q + "*";
      }
      numWords := 1;
    case Phrase(c) =>
      PhraseLeaves(c);
      q := query + "\"";
      q, numWords := AppendChildrenToString(c, q);
      q := q + "\"";
  }

  /** `AppendChildrenToString`: appends the children separated by spaces and
      reports the total number of words. */
  method AppendChildrenToString(cs: seq<QueryNode>, query: string) returns (q: string, numWords: nat)
    ensures q == query + SerializeList(cs)
    ensures numWords == |Leaves(cs)|
    decreases cs, 0
  {
    q := query;
    numWords := 0;
    for i := 0 to |cs|
      invariant q == query + SerializeList(cs[..i])
      invariant numWords == |Leaves(cs[..i])|
    {
      assert cs[..i + 1][..i] == cs[..i];
      if i > 0 {
        q := q + " ";
      }
      var added;
      q, added := AppendToSQLiteQuery(cs[i], q);
      LeavesAppend(cs[..i], [cs[i]]);
      assert cs[..i + 1] == cs[..i] + [cs[i]];
      numWords := numWords + added;
    }
    assert cs[..|cs|] == cs;
  }

  // -------------------------------------------------------------- parsing

  /** The six quote characters: `"`, the two double angle quotation marks and
      the left, right and low-9 double quotation marks. */
  predicate IsQueryQuote(c: char)
  {
    c == '"' || c == '\U{ab}' || c == '\U{bb}' || c == '\U{201c}' || c == '\U{201d}' || c == '\U{201e}'
  }

  predicate IsQuoteSpan(s: Span)
  {
    !s.isWord && |s.text| > 0 && IsQueryQuote(s.text[0])
  }

  /** The parser's stack: the root's children before the open phrase, and the
      words of the open phrase when the parser is inside quotes. */
  datatype ParseState = ParseState(closed: seq<QueryNode>, open: Option<seq<QueryNode>>)

  /** The root's children: the open phrase is already the root's last child. */
  function Tree(st: ParseState): seq<QueryNode>
  {
    st.closed + (if st.open.Some? then [Phrase(st.open.value)] else [])
  }

  /** One iteration of the parse loop. */
  function ParseStep(st: ParseState, s: Span): ParseState
  {
    if s.isWord then
      if st.open.Some? then ParseState(st.closed, Some(st.open.value + [Word(s.text, true)]))
      else ParseState(st.closed + [Word(s.text, false)], None)
    else if IsQuoteSpan(s) then
      if st.open.None? then ParseState(st.closed, Some([]))
      else ParseState(st.closed + [Phrase(st.open.value)], None)
    else st
  }

  function ParseFold(spans: seq<Span>): ParseState
  {
    if spans == [] then ParseState([], None)
    else ParseStep(ParseFold(spans[..|spans| - 1]), spans[|spans| - 1])
  }

  /** The root's children after parsing a query. */
  function Parse(spans: seq<Span>): seq<QueryNode>
  {
    RemoveEmpty(Tree(ParseFold(spans)))
  }

  /** `ParseQueryImpl` on the spans of the word iterator. */
  method ParseQueryImpl(spans: seq<Span>) returns (nodes: seq<QueryNode>)
    ensures nodes == Parse(spans)
  {
    var closed: seq<QueryNode> := [];
    var phrase: seq<QueryNode> := [];
    var inQuotes := false;
    for i := 0 to |spans|
      invariant ParseFold(spans[..i]) == ParseState(closed, if inQuotes then Some(phrase) else None)
    {
      assert spans[..i + 1][..i] == spans[..i];
      var s := spans[i];
      if s.isWord {
        if inQuotes {
          phrase := phrase + [Word(s.text, true)];
        } else {
          closed := closed + [Word(s.text, false)];
        }
      } else if |s.text| > 0 && IsQueryQuote(s.text[0]) {
        if !inQuotes {
          phrase := [];
          inQuotes := true;
        } else {
          closed := closed + [Phrase(phrase)];
          inQuotes := false;
        }
      }
    }
    assert spans[..|spans|] == spans;
    var root := closed + (if inQuotes then [Phrase(phrase)] else []);
    nodes := RemoveEmptySubnodes(root);
  }

  /** `ParseQuery` to SQLite: the serialised root list and its word count. */
  method ParseQueryToSQLite(spans: seq<Span>, query: string) returns (q: string, numWords: nat)
    ensures q == query + SerializeList(Parse(spans))
    ensures numWords == |Leaves(Parse(spans))|
  {
    var nodes := ParseQueryImpl(spans);
    q, numWords := AppendChildrenToString(nodes, query);
  }

  /** The words of the word spans, empty ones included. */
  function WordSpans(spans: seq<Span>): seq<string>
  {
    if spans == [] then []
    else
      var s := spans[|spans| - 1];
      WordSpans(spans[..|spans| - 1]) + (if s.isWord then [s.text] else [])
  }

  /** Words at top level are not literal; a phrase holds only literal words. */
  predicate TopLevel(n: QueryNode)
  {
    match n
    case Word(_, literal) => !literal
    case Phrase(c) => forall j :: 0 <= j < |c| ==> c[j].Word? && c[j].literal
  }

  predicate ParsedShape(cs: seq<QueryNode>)
  {
    forall i :: 0 <= i < |cs| ==> TopLevel(cs[i])
  }

  /** The parser's stack keeps the shape: top-level words are not literal
      and the open phrase holds literal words only. */
  predicate StateShape(st: ParseState)
  {
    ParsedShape(st.closed) && (st.open.Some? ==> TopLevel(Phrase(st.open.value)))
  }

  lemma {:induction false} ParseFoldShape(spans: seq<Span>)
    ensures StateShape(ParseFold(spans))
    ensures ParsedShape(Tree(ParseFold(spans)))
    decreases |spans|
  {
    if spans != [] {
      ParseFoldShape(spans[..|spans| - 1]);
    }
  }

  /** One parse step adds the span's text to the leaves when it is a word,
      and leaves them alone otherwise. */
  lemma ParseStepLeaves(st: ParseState, s: Span)
    ensures Leaves(Tree(ParseStep(st, s))) == Leaves(Tree(st)) + (if s.isWord then [s.text] else [])
  {
    var c := st.closed;
    if st.open.Some? {
      var o := st.open.value;
      LeavesAppend(c, [Phrase(o)]);
      PhraseLeaves(o);
      if s.isWord {
        var o' := o + [Word(s.text, true)];
        LeavesAppend(c, [Phrase(o')]);
        PhraseLeaves(o');
        LeavesAppend(o, [Word(s.text, true)]);
        WordLeaves(s.text, true);
        assert Tree(ParseStep(st, s)) == c + [Phrase(o')];
      } else if IsQuoteSpan(s) {
        assert Tree(ParseStep(st, s)) == c + [Phrase(o)];
      }
    } else {
      assert c + [] == c;
      if s.isWord {
        var w := Word(s.text, false);
        LeavesAppend(c, [w]);
        WordLeaves(s.text, false);
        assert Tree(ParseStep(st, s)) == c + [w];
      } else if IsQuoteSpan(s) {
        LeavesAppend(c, [Phrase([])]);
        PhraseLeaves([]);
      }
    }
  }

  lemma {:induction false} ParseFoldLeaves(spans: seq<Span>)
    ensures Leaves(Tree(ParseFold(spans))) == WordSpans(spans)
    decreases |spans|
  {
    if spans != [] {
      var prev := spans[..|spans| - 1];
      ParseFoldLeaves(prev);
      ParseStepLeaves(ParseFold(prev), spans[|spans| - 1]);
    }
  }

  lemma {:induction false} RemoveEmptyShape(cs: seq<QueryNode>)
    requires ParsedShape(cs)
    ensures ParsedShape(RemoveEmpty(cs))
    decreases |cs|
  {
    if cs != [] {
      assert ParsedShape(cs[1..]) by {
        forall i | 0 <= i < |cs[1..]| ensures cs[1..][i] == cs[i + 1] { }
      }
      RemoveEmptyShape(cs[1..]);
      match cs[0]
      case Word(_, _) =>
      case Phrase(c) =>
        assert NoEmptyLists(c);
        RemoveEmptyFixes(c);
    }
  }

  /** After parsing, the query's words are exactly the word spans, in order;
      top-level words are not literal, each phrase is a non-empty run of
      literal words, and no list is empty. */
  lemma ParseSpec(spans: seq<Span>)
    ensures Leaves(Parse(spans)) == WordSpans(spans)
    ensures ParsedShape(Parse(spans))
    ensures NoEmptyLists(Parse(spans))
  {
    ParseFoldShape(spans);
    ParseFoldLeaves(spans);
    RemoveEmptyKeepsLeaves(Tree(ParseFold(spans)));
    RemoveEmptyShape(Tree(ParseFold(spans)));
    RemoveEmptyNoEmptyLists(Tree(ParseFold(spans)));
  }

  lemma {:induction false} ParseFoldWords(spans: seq<Span>)
    requires forall i :: 0 <= i < |spans| ==> !IsQuoteSpan(spans[i])
    ensures ParseFold(spans).open.None?
    ensures |ParseFold(spans).closed| == |WordSpans(spans)|
    ensures forall i :: 0 <= i < |WordSpans(spans)| ==> ParseFold(spans).closed[i] == Word(WordSpans(spans)[i], false)
    decreases |spans|
  {
    if spans != [] {
      ParseFoldWords(spans[..|spans| - 1]);
    }
  }

  /** A query without quote characters parses to its words, in order, none
      literal. */
  lemma ParseWithoutQuotes(spans: seq<Span>)
    requires forall i :: 0 <= i < |spans| ==> !IsQuoteSpan(spans[i])
    ensures |Parse(spans)| == |WordSpans(spans)|
    ensures forall i :: 0 <= i < |Parse(spans)| ==> Parse(spans)[i] == Word(WordSpans(spans)[i], false)
  {
    ParseFoldWords(spans);
    var c := ParseFold(spans).closed;
    assert Tree(ParseFold(spans)) == c;
    RemoveEmptyFixes(c);
  }
}
