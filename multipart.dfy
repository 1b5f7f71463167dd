// The multipart/x-mixed-replace response delegate: splits a response body
// into parts at a boundary token, parses each part's header block and hands
// the parts' bytes on to the client.
module Multipart {
  import opened Common

  /** What the delegate hands to its client: a chunk of part data
      (`didReceiveData`), or a response built from a part's header block
      (`didReceiveResponse`). */
  datatype Event = Data(bytes: string) | Response(headers: string)

  /** The delegate's fields, as one value. */
  datatype DelegateState = DelegateState(
    data: string,
    boundary: string,
    firstReceivedData: bool,
    processingHeaders: bool,
    stopSending: bool,
    events: seq<Event>)

  // ----------------------------------------------------------- line breaks

  /** `PushOverLine`: the length of the line break at `pos`: none, one
      character for `\r` or `\n`, two when the next character is `\n`. */
  function PushOverLine(d: string, pos: nat): (r: nat)
    ensures r <= 2
    ensures r > 0 ==> pos + r <= |d|
    ensures r == 0 <==> pos >= |d| || (d[pos] != '\r' && d[pos] != '\n')
    ensures r == 2 <==> pos + 1 < |d| && (d[pos] == '\r' || d[pos] == '\n') && d[pos + 1] == '\n'
  {
    if pos < |d| && (d[pos] == '\r' || d[pos] == '\n') then
      if pos + 1 < |d| && d[pos + 1] == '\n' then 2 else 1
    else 0
  }

  /** What `PushOverLine` skips is a line break: `\r`, `\n`, `\r\n` or `\n\n`. */
  lemma PushOverLineSkipsLineBreak(d: string, pos: nat)
    requires pos <= |d|
    ensures d[pos..pos + PushOverLine(d, pos)] in {"", "\r", "\n", "\r\n", "\n\n"}
  {
    var r := PushOverLine(d, pos);
    if r == 1 {
      assert d[pos..pos + 1] == [d[pos]];
    } else if r == 2 {
      assert d[pos..pos + 2] == [d[pos], d[pos + 1]];
    } else {
      assert d[pos..pos] == "";
    }
  }

  // --------------------------------------------------------------- headers

  /** `std::string::find(c, from)`: the first index at or after `from`
      holding `c`, or None. */
  function FindChar(d: string, c: char, from: nat): (r: Option<nat>)
    ensures r.Some? ==> from <= r.value < |d| && d[r.value] == c
    ensures r.Some? ==> forall j :: from <= j < r.value ==> d[j] != c
    ensures r.None? ==> forall j :: from <= j < |d| ==> d[j] != c
    decreases |d| - from
  {
    if from >= |d| then None
    else if d[from] == c then Some(from)
    else FindChar(d, c, from + 1)
  }

  /** The line-scanning loop of `ParseHeaders` from `start`: the index just
      past the first blank line (`\n` or `\r\n`), or None when the buffer
      ends inside the header block. */
  function HeaderEndFrom(d: string, start: nat): (r: Option<nat>)
    ensures r.Some? ==> start < r.value <= |d|
    decreases |d| - start
  {
    match FindChar(d, '\n', start)
    case None => None
    case Some(lineEnd) =>
      var end := if lineEnd > start && d[lineEnd - 1] == '\r' then lineEnd - 1 else lineEnd;
      if start == end then Some(lineEnd + 1)
      else HeaderEndFrom(d, lineEnd + 1)
  }

  /** `i` begins a line of the header block that begins at `start`. */
  predicate LineStart(d: string, start: nat, i: nat)
  {
    i == start || (start < i <= |d| && d[i - 1] == '\n')
  }

  /** A blank line, `\n` or `\r\n`, begins at `i`. */
  predicate BlankLineAt(d: string, i: nat)
  {
    i < |d| && (d[i] == '\n' || (d[i] == '\r' && i + 1 < |d| && d[i + 1] == '\n'))
  }

  /** The header block found ends with a blank line that begins a line. */
  lemma {:induction false} HeaderEndIsBlankLine(d: string, start: nat)
    requires HeaderEndFrom(d, start).Some?
    ensures var e := HeaderEndFrom(d, start).value;
      (LineStart(d, start, e - 1) && d[e - 1] == '\n' && BlankLineAt(d, e - 1)) ||
      (e >= 2 && LineStart(d, start, e - 2) && BlankLineAt(d, e - 2))
    decreases |d| - start
  {
    var lineEnd := FindChar(d, '\n', start).value;
    var end := if lineEnd > start && d[lineEnd - 1] == '\r' then lineEnd - 1 else lineEnd;
    if start != end {
      HeaderEndIsBlankLine(d, lineEnd + 1);
    }
  }

  /** Whenever a blank line begins a line of the block, the scan stops at or
      before it. */
  lemma {:induction false} BlankLineIsFound(d: string, start: nat, i: nat)
    requires start <= i && LineStart(d, start, i) && BlankLineAt(d, i)
    ensures HeaderEndFrom(d, start).Some? && HeaderEndFrom(d, start).value <= i + 2
    decreases |d| - start
  {
    var f := FindChar(d, '\n', start);
    if i > start {
      assert f.Some? && f.value <= i - 1;
      var lineEnd := f.value;
      var end := if lineEnd > start && d[lineEnd - 1] == '\r' then lineEnd - 1 else lineEnd;
      if start != end {
        BlankLineIsFound(d, lineEnd + 1, i);
      }
    } else if d[i] != '\n' {
      assert f == Some(i + 1);
    }
  }

  /** A header block and the rest of the buffer. */
  datatype HeaderBlock = HeaderBlock(block: string, rest: string)

  /** What `ParseHeaders` consumes: the header block, handed on with a leading
      `\n`, and what follows the blank line. */
  function SplitHeaders(d: string): (r: Option<HeaderBlock>)
    ensures r.Some? ==> |r.value.rest| < |d|
  {
    match HeaderEndFrom(d, 0)
    case None => None
    case Some(e) => Some(HeaderBlock("\n" + d[..e], d[e..]))
  }

  // -------------------------------------------------------------- boundary

  /** The result of `FindBoundary`: where the boundary was found and the
      boundary afterwards. */
  datatype BoundaryFound = BoundaryFound(pos: Option<nat>, boundary: string)

  /** `FindBoundary`: the first occurrence of the boundary; when two dashes
      precede it, the position moves back over them and the boundary is
      prefixed with `--` from then on. */
  function SearchBoundary(d: string, boundary: string): BoundaryFound
  {
    match Find(d, boundary)
    case None => BoundaryFound(None, boundary)
    case Some(p) =>
      if p >= 2 && d[p - 1] == '-' && d[p - 2] == '-' then BoundaryFound(Some(p - 2), "--" + boundary)
      else BoundaryFound(Some(p), boundary)
  }

  /** The boundary afterwards is the old one, possibly with `--` in front,
      and it fits in the buffer at the position returned. */
  lemma SearchBoundaryBounds(d: string, boundary: string)
    ensures var r := SearchBoundary(d, boundary);
      && (r.boundary == boundary || r.boundary == "--" + boundary)
      && (r.pos.Some? ==> r.pos.value + |r.boundary| <= |d|)
  {
  }

  /** The position returned is where the (possibly extended) boundary occurs;
      no position is returned exactly when the boundary does not occur; and
      the bytes before the position contain no occurrence of the boundary. */
  lemma SearchBoundarySpec(d: string, boundary: string)
    requires |boundary| > 0
    ensures var r := SearchBoundary(d, boundary);
      && (r.pos.None? <==> forall j :: !OccursAt(d, boundary, j))
      && (r.boundary == boundary || r.boundary == "--" + boundary)
      && (r.pos.Some? ==> OccursAt(d, r.boundary, r.pos.value))
      && (r.pos.Some? ==> forall j :: !OccursAt(d[..r.pos.value], boundary, j))
  {
    var r := SearchBoundary(d, boundary);
    var f := Find(d, boundary);
    if f.Some? {
      var p := f.value;
      if p >= 2 && d[p - 1] == '-' && d[p - 2] == '-' {
        assert d[p - 2..p - 2 + |r.boundary|] == d[p - 2..p] + d[p..p + |boundary|];
        assert d[p - 2..p] == "--";
      }
      var q := r.pos.value;
      forall j | OccursAt(d[..q], boundary, j) ensures false {
        assert d[..q][j..j + |boundary|] == d[j..j + |boundary|];
        assert OccursAt(d, boundary, j);
      }
    } else {
      forall j ensures !OccursAt(d, boundary, j) {
        if j < 0 {
        }
      }
    }
  }

  // ----------------------------------------------------------- the stream

  /** One iteration of the boundary loop of `OnReceivedData`, and whether
      the loop ends after it. */
  datatype Scan = Scan(st: DelegateState, done: bool)

  function ScanStep(st: DelegateState): (r: Scan)
    requires |st.boundary| > 0
    ensures !r.done ==> |r.st.data| < |st.data|
  {
    var f := SearchBoundary(st.data, st.boundary);
    SearchBoundaryBounds(st.data, st.boundary);
    match f.pos
    case None => Scan(st.(boundary := f.boundary), true)
    case Some(p) =>
      var events := st.events + (if p > 0 then [Data(st.data[..p])] else []);
      AfterBoundary(st.(boundary := f.boundary, events := events), p)
  }

  /** The rest of the iteration once a boundary was found at `p`: stop at
      the close delimiter, or skip the boundary and one line break and parse
      the next header block. */
  function AfterBoundary(st: DelegateState, p: nat): (r: Scan)
    requires 0 < |st.boundary| && p + |st.boundary| <= |st.data|
    ensures !r.done ==> |r.st.data| < |st.data| - p
  {
    var end := p + |st.boundary|;
    if end < |st.data| && st.data[end] == '-' then
      Scan(st.(stopSending := true, data := ""), true)
    else
      NextPart(st.(data := st.data[end + PushOverLine(st.data, end)..]))
  }

  lemma AfterBoundaryStops(st: DelegateState, p: nat)
    requires 0 < |st.boundary| && p + |st.boundary| <= |st.data|
    requires var end := p + |st.boundary|; end < |st.data| && st.data[end] == '-'
    ensures AfterBoundary(st, p) == Scan(st.(stopSending := true, data := ""), true)
  {
  }

  lemma AfterBoundaryContinues(st: DelegateState, p: nat)
    requires 0 < |st.boundary| && p + |st.boundary| <= |st.data|
    requires var end := p + |st.boundary|; !(end < |st.data| && st.data[end] == '-')
    ensures var end := p + |st.boundary|;
      AfterBoundary(st, p) == NextPart(st.(data := st.data[end + PushOverLine(st.data, end)..]))
  {
  }

  /** The header block of the next part, if it is complete. */
  function NextPart(st: DelegateState): (r: Scan)
    ensures !r.done ==> |r.st.data| < |st.data|
  {
    match SplitHeaders(st.data)
    case None => Scan(st.(processingHeaders := true), true)
    case Some(h) => Scan(st.(events := st.events + [Response(h.block)], data := h.rest), false)
  }

  /** The boundary loop of `OnReceivedData`, run to its end. */
  function ScanParts(st: DelegateState): DelegateState
    requires |st.boundary| > 0
    decreases |st.data|
  {
    var s := ScanStep(st);
    if s.done then s.st
    else
      SearchBoundaryBounds(st.data, st.boundary);
      ScanParts(s.st)
  }

  /** `OnReceivedData` after the first-data handling: finish a pending header
      block, then split off the parts. */
  function AfterFirstData(st: DelegateState): DelegateState
    requires |st.boundary| > 0
  {
    if st.processingHeaders then
      match SplitHeaders(st.data)
      case None => st
      case Some(h) => ScanParts(st.(data := h.rest, events := st.events + [Response(h.block)], processingHeaders := false))
    else ScanParts(st)
  }

  /** The buffer with a leading line break dropped, on the first data. */
  function FirstDataBuffer(st: DelegateState, chunk: string): string
  {
    var d := st.data + chunk;
    d[PushOverLine(d, 0)..]
  }

  /** `OnReceivedData(chunk)`. */
  function Receive(st: DelegateState, chunk: string): DelegateState
    requires |st.boundary| > 0
  {
    if st.stopSending then st
    else if st.firstReceivedData then
      var d := FirstDataBuffer(st, chunk);
      if |d| < |st.boundary| + 2 then st.(data := d)
      else
        var d' := if d[..|st.boundary|] != st.boundary then st.boundary + "\n" + d else d;
        AfterFirstData(st.(data := d', firstReceivedData := false))
    else AfterFirstData(st.(data := st.data + chunk))
  }

  /** The state's standing invariant: the boundary is never empty, and once
      the close delimiter is seen the buffer stays empty. */
  predicate Valid(st: DelegateState)
  {
    |st.boundary| >= 2 && (st.stopSending ==> st.data == "")
  }

  predicate IsPrefix<T(==)>(a: seq<T>, b: seq<T>)
  {
    |a| <= |b| && b[..|a|] == a
  }

  /** One iteration keeps the invariant, only appends events and only
      prefixes the boundary with dashes. */
  lemma ScanStepSpec(st: DelegateState)
    requires Valid(st)
    ensures Valid(ScanStep(st).st)
    ensures IsPrefix(st.events, ScanStep(st).st.events)
    ensures EndsWith(ScanStep(st).st.boundary, st.boundary)
  {
    var f := SearchBoundary(st.data, st.boundary);
    SearchBoundaryBounds(st.data, st.boundary);
    var b := f.boundary;
    assert b[|b| - |st.boundary|..] == st.boundary;
    assert Valid(ScanStep(st).st) && ScanStep(st).st.boundary == b by {
      match f.pos
      case None =>
      case Some(p) =>
        var events := st.events + (if p > 0 then [Data(st.data[..p])] else []);
        var st1 := st.(boundary := b, events := events);
        assert ScanStep(st) == AfterBoundary(st1, p);
        AfterBoundaryValid(st1, p);
    }
    EventsGrow(st);
  }

  /** The rest of an iteration keeps the invariant and the boundary. */
  lemma AfterBoundaryValid(st: DelegateState, p: nat)
    requires |st.boundary| >= 2 && p + |st.boundary| <= |st.data| && !st.stopSending
    ensures Valid(AfterBoundary(st, p).st) && AfterBoundary(st, p).st.boundary == st.boundary
  {
    var end := p + |st.boundary|;
    if !(end < |st.data| && st.data[end] == '-') {
      AfterBoundaryContinues(st, p);
    }
  }

  lemma EventsGrow(st: DelegateState)
    requires |st.boundary| > 0
    ensures IsPrefix(st.events, ScanStep(st).st.events)
  {
    var s := ScanStep(st);
    assert s.st.events[..|st.events|] == st.events;
  }

  lemma PrefixTrans<T>(a: seq<T>, b: seq<T>, c: seq<T>)
    requires IsPrefix(a, b) && IsPrefix(b, c)
    ensures IsPrefix(a, c)
  {
    assert c[..|a|] == c[..|b|][..|a|];
  }

  lemma SuffixTrans<T>(a: seq<T>, b: seq<T>, c: seq<T>)
    requires EndsWith(b, a) && EndsWith(c, b)
    ensures EndsWith(c, a)
  {
    assert c[|c| - |a|..] == c[|c| - |b|..][|b| - |a|..];
  }

  /** Across the boundary loop the invariant holds, events are only appended
      and the boundary only gains leading dashes. */
  lemma {:induction false} ScanPartsSpec(st: DelegateState)
    requires Valid(st)
    ensures Valid(ScanParts(st))
    ensures IsPrefix(st.events, ScanParts(st).events)
    ensures EndsWith(ScanParts(st).boundary, st.boundary)
    decreases |st.data|
  {
    var s := ScanStep(st);
    ScanStepSpec(st);
    if !s.done {
      ScanPartsSpec(s.st);
      PrefixTrans(st.events, s.st.events, ScanParts(s.st).events);
      SuffixTrans(st.boundary, s.st.boundary, ScanParts(s.st).boundary);
    }
  }

  /** `OnReceivedData` keeps the invariant, only appends events and only
      lengthens the boundary by leading dashes. */
  lemma ReceiveSpec(st: DelegateState, chunk: string)
    requires Valid(st)
    ensures Valid(Receive(st, chunk))
    ensures IsPrefix(st.events, Receive(st, chunk).events)
    ensures EndsWith(Receive(st, chunk).boundary, st.boundary)
  {
    assert st.events[..|st.events|] == st.events;
    assert st.boundary[|st.boundary| - |st.boundary|..] == st.boundary;
    if !st.stopSending {
      if st.firstReceivedData {
        var d := FirstDataBuffer(st, chunk);
        if |d| >= |st.boundary| + 2 {
          var d' := if d[..|st.boundary|] != st.boundary then st.boundary + "\n" + d else d;
          AfterFirstDataSpec(st.(data := d', firstReceivedData := false));
        }
      } else {
        AfterFirstDataSpec(st.(data := st.data + chunk));
      }
    }
  }

  /** Finishing a pending header block and splitting off the parts keeps
      the invariant, only appends events and only extends the boundary. */
  lemma AfterFirstDataSpec(st: DelegateState)
    requires Valid(st)
    ensures Valid(AfterFirstData(st))
    ensures IsPrefix(st.events, AfterFirstData(st).events)
    ensures EndsWith(AfterFirstData(st).boundary, st.boundary)
  {
    assert st.events[..|st.events|] == st.events;
    assert st.boundary[|st.boundary| - |st.boundary|..] == st.boundary;
    if st.processingHeaders && SplitHeaders(st.data).Some? {
      var h := SplitHeaders(st.data).value;
      var st2 := st.(data := h.rest, events := st.events + [Response(h.block)], processingHeaders := false);
      ScanPartsSpec(st2);
      assert ScanParts(st2).events[..|st.events|] == ScanParts(st2).events[..|st2.events|][..|st.events|];
    } else if !st.processingHeaders {
      ScanPartsSpec(st);
    }
  }

  /** Once the close delimiter has been seen, data is thrown away: nothing
      changes and nothing is handed on. */
  lemma ReceiveAfterStop(st: DelegateState, chunk: string)
    requires |st.boundary| > 0 && st.stopSending
    ensures Receive(st, chunk) == st
  {
  }

  /** On the first data, with too few bytes for a boundary the delegate waits
      in first-data mode without handing anything on; otherwise the buffer it
      goes on with starts with the boundary, prepended when missing. */
  lemma FirstData(st: DelegateState, chunk: string)
    requires |st.boundary| > 0 && !st.stopSending && st.firstReceivedData
    ensures var d := FirstDataBuffer(st, chunk);
      |d| < |st.boundary| + 2 ==>
        Receive(st, chunk) == st.(data := d) && Receive(st, chunk).firstReceivedData
    ensures var d := FirstDataBuffer(st, chunk);
      |d| >= |st.boundary| + 2 ==>
        var d' := if d[..|st.boundary|] != st.boundary then st.boundary + "\n" + d else d;
        StartsWith(d', st.boundary) &&
        (StartsWith(d, st.boundary) ==> d' == d) &&
        Receive(st, chunk) == AfterFirstData(st.(data := d', firstReceivedData := false))
  {
  }

  /** Bytes before a boundary are handed on verbatim as one chunk, which holds
      no boundary; the buffer then continues past the boundary and one line
      break. */
  lemma ScanStepForwards(st: DelegateState)
    requires |st.boundary| > 0
    requires SearchBoundary(st.data, st.boundary).pos.Some?
    ensures var f := SearchBoundary(st.data, st.boundary);
      var p := f.pos.value;
      var s := ScanStep(st);
      && (p > 0 ==> s.st.events[..|st.events| + 1] == st.events + [Data(st.data[..p])])
      && (p > 0 ==> forall j :: !OccursAt(st.data[..p], st.boundary, j))
      && (p == 0 ==> IsPrefix(st.events, s.st.events))
  {
    SearchBoundarySpec(st.data, st.boundary);
    var s := ScanStep(st);
    var p := SearchBoundary(st.data, st.boundary).pos.value;
    if p > 0 {
      var ev := st.events + [Data(st.data[..p])];
      assert s.st.events[..|ev|] == ev;
    } else {
      assert s.st.events[..|st.events|] == st.events;
    }
  }

  // ------------------------------------------------------------- the class

  /** `MultipartResponseDelegate`: the client callbacks it makes are recorded
      in `events`. */
  class MultipartResponseDelegate {
    var data: string
    var boundary: string
    var firstReceivedData: bool
    var processingHeaders: bool
    var stopSending: bool
    var events: seq<Event>

    function State(): DelegateState
      reads this
    {
      DelegateState(data, boundary, firstReceivedData, processingHeaders, stopSending, events)
    }

    /** The boundary handed in is stored with `--` in front. */
    constructor (b: string)
      ensures State() == DelegateState("", "--" + b, true, false, false, [])
      ensures Valid(State())
    {
      data := "";
      boundary := "--" + b;
      firstReceivedData := true;
      processingHeaders := false;
      stopSending := false;
      events := [];
    }

    /** `ParseHeaders`: consumes a complete header block and hands on one
        response built from it; leaves everything as it was otherwise. */
    method ParseHeaders() returns (ok: bool)
      modifies this`data, this`events
      ensures ok <==> SplitHeaders(old(data)).Some?
      ensures !ok ==> data == old(data) && events == old(events)
      ensures ok ==> data == SplitHeaders(old(data)).value.rest
      ensures ok ==> events == old(events) + [Response(SplitHeaders(old(data)).value.block)]
    {
      var lineStart := 0;
      var lineEnd := FindChar(data, '\n', lineStart);
      var headerEnd: Option<nat> := None;
      while lineEnd.Some?
        invariant lineEnd == FindChar(data, '\n', lineStart)
        invariant HeaderEndFrom(data, lineStart) == HeaderEndFrom(data, 0)
        invariant headerEnd.None?
        decreases |data| - lineStart
      {
        var le := lineEnd.value;
        var increment := 1;
        if le > lineStart && data[le - 1] == '\r' {
          increment := 2;
          le := le - 1;
        }
        if lineStart == le {
          headerEnd := Some(le + increment);
          break;
        }
        lineStart := le + increment;
        lineEnd := FindChar(data, '\n', lineStart);
      }
      assert headerEnd == HeaderEndFrom(data, 0);
      if headerEnd.None? {
        return false;
      }
      var e := headerEnd.value;
      var headers := "\n" + data[..e];
      data := data[e..];
      events := events + [Response(headers)];
      return true;
    }

    /** `FindBoundary`. */
    method FindBoundary() returns (pos: Option<nat>)
      modifies this`boundary
      ensures BoundaryFound(pos, boundary) == SearchBoundary(data, old(boundary))
    {
      pos := Find(data, boundary);
      if pos.Some? {
        var p := pos.value;
        if p >= 2 && data[p - 1] == '-' && data[p - 2] == '-' {
          pos := Some(p - 2);
          boundary := "--" + boundary;
        }
      }
    }

    /** `OnReceivedData(chunk)`. */
    method OnReceivedData(chunk: string)
      requires Valid(State())
      modifies this
      ensures State() == Receive(old(State()), chunk)
      ensures Valid(State())
    {
      assert Valid(Receive(State(), chunk)) by {
        ReceiveSpec(State(), chunk);
      }
      if stopSending {
        return;
      }
      ghost var st0 := State();
      data := data + chunk;
      if firstReceivedData {
        var waiting := TakeFirstData();
        if waiting {
          return;
        }
      }
      assert Receive(st0, chunk) == AfterFirstData(State());
      ProcessBuffer();
    }

    /** The rest of `OnReceivedData`: finish a pending header block, then
        split off the parts. */
    method ProcessBuffer()
      requires |boundary| > 0
      modifies this
      ensures State() == AfterFirstData(old(State()))
    {
      if processingHeaders {
        var ok := ParseHeaders();
        if ok {
          processingHeaders := false;
        } else {
          return;
        }
      }
      ScanLoop();
    }

    /** The first-data handling of `OnReceivedData`, on the buffer with the
        new data already appended. */
    method TakeFirstData() returns (waiting: bool)
      requires firstReceivedData
      modifies this`data, this`firstReceivedData
      ensures var d := old(data)[PushOverLine(old(data), 0)..];
        && waiting == (|d| < |boundary| + 2)
        && (waiting ==> data == d && firstReceivedData)
        && (!waiting ==> !firstReceivedData)
        && (!waiting ==> data == (if d[..|boundary|] != boundary then boundary + "\n" + d else d))
    {
      firstReceivedData := false;
      var pos := PushOverLine(data, 0);
      if pos > 0 {
        data := data[pos..];
      }
      if |data| < |boundary| + 2 {
        firstReceivedData := true;
        return true;
      }
      if data[..|boundary|] != boundary {
        data := boundary + "\n" + data;
      }
      return false;
    }

    /** The boundary loop of `OnReceivedData`. */
    method ScanLoop()
      requires |boundary| > 0
      modifies this
      ensures State() == ScanParts(old(State()))
    {
      ghost var target := ScanParts(State());
      while true
        invariant |boundary| > 0
        invariant ScanParts(State()) == target
        decreases |data|
      {
        ghost var st := State();
        var done := ScanOnce();
        if done {
          return;
        }
      }
    }

    /** One iteration of the boundary loop; `done` when the loop ends. */
    method ScanOnce() returns (done: bool)
      requires |boundary| > 0
      modifies this
      ensures State() == ScanStep(old(State())).st && done == ScanStep(old(State())).done
      ensures |boundary| > 0
    {
      ghost var st := State();
      SearchBoundaryBounds(st.data, st.boundary);
      var boundaryPos := FindBoundary();
      if boundaryPos.None? {
        assert State() == ScanStep(st).st;
        return true;
      }
      var p := boundaryPos.value;
      if p > 0 {
        events := events + [Data(data[..p])];
      }
      ghost var st1 := State();
      ghost var f := SearchBoundary(st.data, st.boundary);
      assert f.pos == Some(p) && f.boundary == boundary;
      assert st1 == st.(boundary := f.boundary, events := st.events + (if p > 0 then [Data(st.data[..p])] else []));
      assert ScanStep(st) == AfterBoundary(st1, p);
      done := FinishPart(p);
    }

    /** The rest of one iteration once a boundary was found at `p`. */
    method FinishPart(p: nat) returns (done: bool)
      requires 0 < |boundary| && p + |boundary| <= |data|
      modifies this`data, this`events, this`processingHeaders, this`stopSending
      ensures State() == AfterBoundary(old(State()), p).st && done == AfterBoundary(old(State()), p).done
      ensures |boundary| > 0
    {
      ghost var st1 := State();
      var end := p + |boundary|;
      if end < |data| && data[end] == '-' {
        AfterBoundaryStops(st1, p);
        stopSending := true;
        data := "";
        assert State() == st1.(stopSending := true, data := "");
        return true;
      }
      done := SkipPastBoundary(p);
    }

    /** Skips the boundary and one line break after it, then parses the next
        header block. */
    method SkipPastBoundary(p: nat) returns (done: bool)
      requires 0 < |boundary| && p + |boundary| <= |data|
      requires var end := p + |boundary|; !(end < |data| && data[end] == '-')
      modifies this`data, this`events, this`processingHeaders
      ensures State() == AfterBoundary(old(State()), p).st && done == AfterBoundary(old(State()), p).done
    {
      ghost var st1 := State();
      AfterBoundaryContinues(st1, p);
      var end := p + |boundary|;
      var offset := PushOverLine(data, end);
      data := data[end + offset..];
      assert State() == st1.(data := st1.data[end + offset..]);
      done := ReadNextHeaders();
    }

    /** Parses the next part's header block, or waits for more data. */
    method ReadNextHeaders() returns (done: bool)
      modifies this`data, this`events, this`processingHeaders
      ensures State() == NextPart(old(State())).st && done == NextPart(old(State())).done
    {
      var ok := ParseHeaders();
      if !ok {
        processingHeaders := true;
        return true;
      }
      return false;
    }

    /** `OnCompletedRequest`: whatever is buffered is handed on, unless the
        delegate is inside a header block or the buffer is empty. */
    method OnCompletedRequest()
      modifies this`events
      ensures events == old(events) + (if !processingHeaders && data != "" then [Data(data)] else [])
    {
      if !processingHeaders && data != "" {
        events := events + [Data(data)];
      }
    }
  }
}
