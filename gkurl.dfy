// The standalone helpers of the googleurl-backed KURL port: the scheme test
// on a raw string, the MIME type of a `data:` URL, the escape passes over
// UTF-8 bytes, `equalIgnoringRef`, `componentString`, and the cached URL
// string holder with its ASCII flag.
module GKURL {
  import opened Common

  type Byte = b: int | 0 <= b < 256

  const Percent: Byte := 0x25
  const DigitZero: Byte := 0x30

  // ------------------------------------------------------------ protocolIs

  /** A protocol name as the debug assertion accepts it: printable ASCII
      other than space and with no upper-case letter. */
  predicate IsGoodProtocol(protocol: string)
  {
    forall i :: 0 <= i < |protocol| ==> ' ' < protocol[i] < '\U{7F}' && !IsAsciiUpper(protocol[i])
  }

  /** WebCore `String::operator[]`: the character at `i`, or NUL past the end. */
  function CharAt(s: string, i: nat): char
  {
    if i < |s| then s[i] else '\0'
  }

  /** What `protocolIs(url, protocol)` decides: the URL begins with the
      protocol, ignoring ASCII case, followed by a colon. */
  predicate HasProtocol(url: string, protocol: string)
  {
    |protocol| < |url| && ToLowerAscii(url[..|protocol|]) == protocol && url[|protocol|] == ':'
  }

  /** The character loop of the static `protocolIs`. */
  method ProtocolIs(url: string, protocol: string) returns (r: bool)
    requires IsGoodProtocol(protocol)
    ensures r <==> HasProtocol(url, protocol)
  {
    var i := 0;
    while i < |protocol|
      invariant i <= |protocol| && i <= |url|
      invariant ToLowerAscii(url[..i]) == protocol[..i]
    {
      if ToLowerChar(CharAt(url, i)) != protocol[i] {
        if |protocol| < |url| {
          assert ToLowerAscii(url[..|protocol|])[i] == ToLowerChar(url[i]);
        }
        return false;
      }
      assert ToLowerAscii(url[..i + 1]) == ToLowerAscii(url[..i]) + [ToLowerChar(url[i])];
      i := i + 1;
    }
    r := CharAt(url, i) == ':';
  }

  /** The scheme test ignores the case of the URL. */
  lemma HasProtocolIgnoresCase(url: string, protocol: string)
    ensures HasProtocol(url, protocol) <==> HasProtocol(ToLowerAscii(url), protocol)
  {
    if |protocol| < |url| {
      assert ToLowerAscii(url)[..|protocol|] == ToLowerAscii(url[..|protocol|]);
      assert ToLowerAscii(ToLowerAscii(url)[..|protocol|]) == ToLowerAscii(url[..|protocol|]);
    }
  }

  // --------------------------------------------------- mimeTypeFromDataURL

  /** `r` is the MIME type a data URL gives when `sep` is the separator that
      ends it: the non-empty text from index 5 up to the first `sep`, or
      "text/plain" when `sep` sits at index 5. */
  predicate MimeTypeBefore(url: string, sep: char, r: string)
  {
    (0 < |r| && 5 + |r| < |url| && url[5..5 + |r|] == r && url[5 + |r|] == sep && sep !in r)
    || (r == "text/plain" && 5 < |url| && url[5] == sep)
  }

  function MimeTypeFromDataURL(url: string): (r: string)
    requires HasProtocol(url, "data")
    ensures ';' in url ==> MimeTypeBefore(url, ';', r)
    ensures ';' !in url && ',' in url ==> MimeTypeBefore(url, ',', r)
    ensures ';' !in url && ',' !in url ==> r == ""
  {
    var index := match IndexOf(url, ';') case Some(i) => Some(i) case None => IndexOf(url, ',');
    match index
    case Some(i) =>
      assert url[..5][4] == ':';
      if i > 5 then url[5..i] else "text/plain"
    case None => ""
  }

  /** The MIME type a data URL gives is determined by its separator. */
  lemma MimeTypeBeforeUnique(url: string, sep: char, r1: string, r2: string)
    requires MimeTypeBefore(url, sep, r1) && MimeTypeBefore(url, sep, r2)
    ensures r1 == r2
  {
    assert 0 < |r1| && 5 + |r1| < |url| && url[5..5 + |r1|] == r1 ==> r1[0] == url[5];
    assert 0 < |r2| && 5 + |r2| < |url| && url[5..5 + |r2|] == r2 ==> r2[0] == url[5];
  }

  /** A MIME type followed by parameters. */
  lemma MimeTypeWithParameters()
    ensures MimeTypeFromDataURL("data:text/html;base64,PGI+") == "text/html"
  {
    var u := "data:text/html;base64,PGI+";
    assert HasProtocol(u, "data") by { assert ToLowerAscii(u[..4]) == "data"; }
    assert ';' in u by { assert u[14] == ';'; }
    assert MimeTypeBefore(u, ';', "text/html") by {
      assert u[5..14] == "text/html";
      assert ';' !in "text/html";
    }
    MimeTypeBeforeUnique(u, ';', MimeTypeFromDataURL(u), "text/html");
  }

  /** A data URL with no MIME type is plain text. */
  lemma MimeTypeDefault()
    ensures MimeTypeFromDataURL("data:,hello") == "text/plain"
  {
    var u := "data:,hello";
    assert HasProtocol(u, "data") by { assert ToLowerAscii(u[..4]) == "data"; }
    assert ',' in u by { assert u[5] == ','; }
    assert MimeTypeBefore(u, ',', "text/plain");
    MimeTypeBeforeUnique(u, ',', MimeTypeFromDataURL(u), "text/plain");
  }

  /** A data URL with neither separator has no MIME type. */
  lemma MimeTypeMissing()
    ensures MimeTypeFromDataURL("data:image/png") == ""
  {
    var u := "data:image/png";
    assert HasProtocol(u, "data") by { assert ToLowerAscii(u[..4]) == "data"; }
  }

  // ------------------------------------------------------- escape decoding

  predicate IsHexChar(b: Byte)
  {
    0x30 <= b <= 0x39 || 0x41 <= b <= 0x46 || 0x61 <= b <= 0x66
  }

  function HexCharToValue(b: Byte): (r: int)
    requires IsHexChar(b)
    ensures 0 <= r < 16
  {
    if b <= 0x39 then b - 0x30 else if b <= 0x46 then b - 0x41 + 10 else b - 0x61 + 10
  }

  /** The upper-case hex digit of `n`. */
  function HexDigit(n: int): (r: Byte)
    requires 0 <= n < 16
    ensures IsHexChar(r) && HexCharToValue(r) == n
  {
    if n < 10 then 0x30 + n else 0x41 + n - 10
  }

  /** googleurl's `DecodeEscaped` for the `%` at `i`: the value of the two
      hex digits after it, or None when they are missing or not hex. */
  function DecodeEscaped(s: seq<Byte>, i: nat): (r: Option<Byte>)
    ensures r.Some? ==> i + 3 <= |s| && IsHexChar(s[i + 1]) && IsHexChar(s[i + 2])
    ensures r.Some? ==> r.value == 16 * HexCharToValue(s[i + 1]) + HexCharToValue(s[i + 2])
  {
    if i + 3 > |s| || !IsHexChar(s[i + 1]) || !IsHexChar(s[i + 2]) then None
    else Some(16 * HexCharToValue(s[i + 1]) + HexCharToValue(s[i + 2]))
  }

  /** The only escape that decodes to NUL is the three bytes "%00". */
  lemma NulEscapeIsLiteral(s: seq<Byte>, i: nat)
    requires i < |s| && s[i] == Percent && DecodeEscaped(s, i) == Some(0)
    ensures s[i..i + 3] == [Percent, DigitZero, DigitZero]
  {
  }

  /** The first pass of `decodeURLEscapeSequences`, over UTF-8 bytes. */
  function Unescape(s: seq<Byte>): seq<Byte>
    decreases |s|
  {
    if |s| == 0 then []
    else if s[0] != Percent then [s[0]] + Unescape(s[1..])
    else match DecodeEscaped(s, 0)
      case None => [Percent] + Unescape(s[1..])
      case Some(ch) =>
        (if ch == 0 then [Percent, DigitZero, DigitZero] else [ch]) + Unescape(s[3..])
  }

  /** One step of `Unescape` at index `i` of the whole input. */
  lemma UnescapeAt(s: seq<Byte>, i: nat)
    requires i < |s|
    ensures s[i] != Percent ==> Unescape(s[i..]) == [s[i]] + Unescape(s[i + 1..])
    ensures s[i] == Percent && DecodeEscaped(s, i).None? ==>
      Unescape(s[i..]) == [Percent] + Unescape(s[i + 1..])
    ensures s[i] == Percent && DecodeEscaped(s, i) == Some(0) ==>
      Unescape(s[i..]) == [Percent, DigitZero, DigitZero] + Unescape(s[i + 3..])
    ensures s[i] == Percent && DecodeEscaped(s, i).Some? && DecodeEscaped(s, i).value != 0 ==>
      Unescape(s[i..]) == [DecodeEscaped(s, i).value] + Unescape(s[i + 3..])
  {
    var t := s[i..];
    assert t[0] == s[i];
    assert DecodeEscaped(t, 0) == DecodeEscaped(s, i);
    assert t[1..] == s[i + 1..];
    if DecodeEscaped(s, i).Some? {
      assert t[3..] == s[i + 3..];
    }
  }

  method UnescapePass(input: seq<Byte>) returns (out: seq<Byte>)
    ensures out == Unescape(input)
  {
    out := [];
    var i := 0;
    while i < |input|
      invariant i <= |input|
      invariant Unescape(input) == out + Unescape(input[i..])
    {
      var piece, next := UnescapeOne(input, i);
      assert Unescape(input) == (out + piece) + Unescape(input[next..]);
      out := out + piece;
      i := next;
    }
    assert input[i..] == [];
  }

  /** The body of the unescape loop: the bytes pushed for index `i` and the
      index after them. */
  method UnescapeOne(input: seq<Byte>, i: nat) returns (piece: seq<Byte>, next: nat)
    requires i < |input|
    ensures i < next <= |input|
    ensures Unescape(input[i..]) == piece + Unescape(input[next..])
  {
    UnescapeAt(input, i);
    if input[i] == Percent {
      var ch := DecodeEscaped(input, i);
      if ch.Some? {
        if ch.value == 0 {
          piece := [Percent, DigitZero, DigitZero];
        } else {
          piece := [ch.value];
        }
        next := i + 3;
      } else {
        piece := [Percent];
        next := i + 1;
      }
    } else {
      piece := [input[i]];
      next := i + 1;
    }
  }

  /** Never unescaping NUL: input without NUL yields output without NUL. */
  lemma {:induction false} UnescapeNoNul(s: seq<Byte>)
    requires 0 !in s
    ensures 0 !in Unescape(s)
    decreases |s|
  {
    if |s| > 0 {
      if s[0] != Percent {
        UnescapeNoNul(s[1..]);
      } else {
        match DecodeEscaped(s, 0)
        case None => UnescapeNoNul(s[1..]);
        case Some(ch) => UnescapeNoNul(s[3..]);
      }
    }
  }

  /** Text without a percent sign is left alone. */
  lemma {:induction false} UnescapeWithoutPercent(s: seq<Byte>)
    requires Percent !in s
    ensures Unescape(s) == s
    decreases |s|
  {
    if |s| > 0 {
      UnescapeWithoutPercent(s[1..]);
      assert s == [s[0]] + s[1..];
    }
  }

  /** Unescaping never lengthens the input. */
  lemma {:induction false} UnescapeShrinks(s: seq<Byte>)
    ensures |Unescape(s)| <= |s|
    decreases |s|
  {
    if |s| > 0 {
      if s[0] != Percent {
        UnescapeShrinks(s[1..]);
      } else {
        match DecodeEscaped(s, 0)
        case None => UnescapeShrinks(s[1..]);
        case Some(ch) => UnescapeShrinks(s[3..]);
      }
    }
  }

  // ------------------------------------------------------- escape encoding

  /** `encodeWithURLEscapeSequences` over UTF-8 bytes: NUL becomes "%00". */
  function EncodeNul(s: seq<Byte>): seq<Byte>
    decreases |s|
  {
    if |s| == 0 then []
    else (if s[0] == 0 then [Percent, DigitZero, DigitZero] else [s[0]]) + EncodeNul(s[1..])
  }

  method EncodeWithURLEscapeSequences(input: seq<Byte>) returns (out: seq<Byte>)
    ensures out == EncodeNul(input)
  {
    out := [];
    for i := 0 to |input|
      invariant EncodeNul(input) == out + EncodeNul(input[i..])
    {
      assert input[i..][1..] == input[i + 1..];
      if input[i] == 0 {
        out := out + [Percent, DigitZero, DigitZero];
      } else {
        out := out + [input[i]];
      }
    }
    assert input[|input|..] == [];
  }

  function NulCount(s: seq<Byte>): nat
    decreases |s|
  {
    if |s| == 0 then 0 else (if s[0] == 0 then 1 else 0) + NulCount(s[1..])
  }

  /** The output holds no NUL, grows by two bytes per NUL, and equals the
      input when there was no NUL. */
  lemma {:induction false} EncodeNulSpec(s: seq<Byte>)
    ensures 0 !in EncodeNul(s)
    ensures |EncodeNul(s)| == |s| + 2 * NulCount(s)
    ensures 0 !in s ==> EncodeNul(s) == s
    decreases |s|
  {
    if |s| > 0 {
      EncodeNulSpec(s[1..]);
      assert s == [s[0]] + s[1..];
    }
  }

  /** Escaping every byte as "%XX" (upper-case hex digits). */
  function EscapeAll(s: seq<Byte>): (r: seq<Byte>)
    ensures |r| == 3 * |s|
    decreases |s|
  {
    if |s| == 0 then []
    else [Percent, HexDigit(s[0] / 16), HexDigit(s[0] % 16)] + EscapeAll(s[1..])
  }

  /** Unescaping a fully escaped string gives back every byte except NUL,
      which stays "%00": exactly what `encodeWithURLEscapeSequences`
      produces from the original. */
  lemma {:induction false} UnescapeEscapeAll(s: seq<Byte>)
    ensures Unescape(EscapeAll(s)) == EncodeNul(s)
    decreases |s|
  {
    if |s| > 0 {
      var e := EscapeAll(s);
      assert e[0] == Percent;
      assert DecodeEscaped(e, 0) == Some(s[0]);
      assert e[3..] == EscapeAll(s[1..]);
      UnescapeEscapeAll(s[1..]);
    }
  }

  /** So for NUL-free input, unescaping undoes escaping. */
  lemma UnescapeEscapeAllNoNul(s: seq<Byte>)
    requires 0 !in s
    ensures Unescape(EscapeAll(s)) == s
  {
    UnescapeEscapeAll(s);
    EncodeNulSpec(s);
  }

  // ------------------------------------------------------------------ KURL

  /** A component of the parsed spec; a negative length means absent. */
  datatype Component = Component(begin: int, len: int)

  /** A KURL: its UTF-8 spec (None for the null string), whether it is
      valid, and the position of its reference fragment. */
  datatype Kurl = Kurl(spec: Option<seq<Byte>>, isValid: bool, ref: Component)
  {
    predicate IsNull() { spec.None? }

    function Bytes(): seq<Byte> { if spec.Some? then spec.value else [] }

    /** As the canonicalizer leaves it: a null spec is invalid, the spec
        holds no NUL (NUL is always escaped), and a reference begins just
        after a `#` and runs to the end. */
    predicate WellFormed()
    {
      (spec.None? ==> !isValid)
      && 0 !in Bytes()
      && (ref.len >= 0 ==>
            1 <= ref.begin && ref.begin + ref.len == |Bytes()| && Bytes()[ref.begin - 1] == 0x23)
    }

    /** The length of the spec without its reference fragment. */
    function LengthWithoutRef(): (n: int)
      requires WellFormed()
      ensures 0 <= n <= |Bytes()|
    {
      if ref.len >= 0 then ref.begin - 1 else |Bytes()|
    }
  }

  /** C `strncmp(x, y, n) == 0` over NUL-terminated buffers. */
  predicate StrNCmpEqual(x: seq<Byte>, y: seq<Byte>, n: nat)
    decreases n
  {
    n == 0 ||
    (var cx := if |x| > 0 then x[0] else 0;
     var cy := if |y| > 0 then y[0] else 0;
     cx == cy && (cx == 0 || StrNCmpEqual(if |x| > 0 then x[1..] else [], if |y| > 0 then y[1..] else [], n - 1)))
  }

  /** For NUL-free buffers at least `n` long, `strncmp` compares prefixes. */
  lemma {:induction false} StrNCmpPrefixes(x: seq<Byte>, y: seq<Byte>, n: nat)
    requires n <= |x| && n <= |y| && 0 !in x && 0 !in y
    ensures StrNCmpEqual(x, y, n) <==> x[..n] == y[..n]
    decreases n
  {
    if n > 0 {
      StrNCmpPrefixes(x[1..], y[1..], n - 1);
      assert x[..n] == [x[0]] + x[1..][..n - 1];
      assert y[..n] == [y[0]] + y[1..][..n - 1];
    }
  }

  function EqualIgnoringRef(a: Kurl, b: Kurl): bool
    requires a.WellFormed() && b.WellFormed()
  {
    var aLen := a.LengthWithoutRef();
    var bLen := b.LengthWithoutRef();
    aLen == bLen && StrNCmpEqual(a.Bytes(), b.Bytes(), aLen)
  }

  /** The spec of a URL up to (excluding) its `#`. */
  function WithoutRef(u: Kurl): seq<Byte>
    requires u.WellFormed()
  {
    u.Bytes()[..u.LengthWithoutRef()]
  }

  /** Two URLs are equal ignoring the reference iff they agree before `#`. */
  lemma EqualIgnoringRefSpec(a: Kurl, b: Kurl)
    requires a.WellFormed() && b.WellFormed()
    ensures EqualIgnoringRef(a, b) <==> WithoutRef(a) == WithoutRef(b)
  {
    var n := a.LengthWithoutRef();
    if n == b.LengthWithoutRef() {
      StrNCmpPrefixes(a.Bytes(), b.Bytes(), n);
    }
  }

  /** Hence it is an equivalence relation. */
  lemma EqualIgnoringRefEquivalence(a: Kurl, b: Kurl, c: Kurl)
    requires a.WellFormed() && b.WellFormed() && c.WellFormed()
    ensures EqualIgnoringRef(a, a)
    ensures EqualIgnoringRef(a, b) ==> EqualIgnoringRef(b, a)
    ensures EqualIgnoringRef(a, b) && EqualIgnoringRef(b, c) ==> EqualIgnoringRef(a, c)
  {
    EqualIgnoringRefSpec(a, a);
    EqualIgnoringRefSpec(a, b);
    EqualIgnoringRefSpec(b, a);
    EqualIgnoringRefSpec(b, c);
    EqualIgnoringRefSpec(a, c);
  }

  /** WebCore `String::substring(pos, len)`: empty past the end, and the
      length clipped to what is left. */
  function Substring(s: seq<Byte>, pos: nat, len: nat): (r: seq<Byte>)
    ensures pos >= |s| ==> r == []
    ensures pos < |s| ==> |r| == (if len < |s| - pos then len else |s| - pos) && OccursAt(s, r, pos)
  {
    if pos >= |s| then [] else s[pos..if len > |s| - pos then |s| else pos + len]
  }

  /** `componentString`: None is WebCore's null string. */
  function ComponentString(u: Kurl, comp: Component): (r: Option<seq<Byte>>)
    requires u.WellFormed()
    requires comp.len > 0 ==> comp.begin >= 0
    ensures r.None? <==> u.IsNull()
    ensures (!u.isValid || comp.len <= 0) && !u.IsNull() ==> r == Some([])
    ensures r.Some? ==> |r.value| <= if comp.len > 0 then comp.len else 0
    ensures r.Some? && r.value != [] ==> OccursAt(u.Bytes(), r.value, comp.begin)
    ensures u.isValid && comp.len > 0 ==> r == Some(Substring(u.Bytes(), comp.begin, comp.len))
  {
    if !u.isValid || comp.len <= 0 then
      if u.IsNull() then None else Some([])
    else
      Some(Substring(u.Bytes(), comp.begin, comp.len))
  }

  // ------------------------------------------------------------- URLString

  predicate IsAscii(data: seq<Byte>)
  {
    forall i :: 0 <= i < |data| ==> data[i] < 0x80
  }

  /** The UTF-8 spec of a KURL with its ASCII flag and a cached UTF-16 copy
      whose validity is `stringIsValid`. */
  class URLString {
    var utf8: Option<seq<Byte>>
    var utf8IsASCII: bool
    var stringIsValid: bool

    /** The flag is never wrong when it claims ASCII. */
    predicate Valid()
      reads this
    {
      utf8IsASCII && utf8.Some? ==> IsAscii(utf8.value)
    }

    constructor()
      ensures utf8 == None && utf8IsASCII && !stringIsValid
      ensures Valid()
    {
      utf8 := None;
      utf8IsASCII := true;
      stringIsValid := false;
    }

    method SetUtf8(data: seq<Byte>)
      modifies this
      ensures utf8 == Some(data)
      ensures utf8IsASCII <==> IsAscii(data)
      ensures !stringIsValid
      ensures Valid()
    {
      utf8IsASCII := true;
      var i := 0;
      while i < |data|
        invariant i <= |data|
        invariant forall j :: 0 <= j < i ==> data[j] < 0x80
      {
        if data[i] >= 0x80 {
          utf8IsASCII := false;
          break;
        }
        i := i + 1;
      }
      utf8 := Some(data);
      stringIsValid := false;
    }

    /** For callers that know the data is ASCII; the flag is set without
        looking, so it stays correct only when they are right. */
    method SetAscii(data: seq<Byte>)
      modifies this
      ensures utf8 == Some(data) && utf8IsASCII && !stringIsValid
      ensures IsAscii(data) ==> Valid()
    {
      utf8 := Some(data);
      utf8IsASCII := true;
      stringIsValid := false;
    }
  }
}
