// The helpers of the NPAPI test plugin: the hex digit and form-style URL
// encoder it uses to build its completion script, the case-insensitive
// argument lookup, and the test object's name, id and status.
module PluginTest {
  import opened Common

  /** A character of a `std::string`: one byte. */
  type Octet = c: char | c as int < 256

  /** `isalnum` in the "C" locale. */
  predicate IsAlnum(c: char)
  {
    'a' <= c <= 'z' || 'A' <= c <= 'Z' || '0' <= c <= '9'
  }

  /** `isspace` in the "C" locale: space, tab, LF, VT, FF and CR. */
  predicate IsSpace(c: char)
  {
    c == ' ' || '\t' <= c <= '\r'
  }

  /** `toHex` on a `BYTE`, whose result is again a `BYTE`. */
  function ToHex(x: int): (r: Octet)
    requires 0 <= x < 256
    ensures 0 <= x < 10 ==> r as int == '0' as int + x
    ensures 10 <= x < 16 ==> r as int == 'A' as int + x - 10
  {
    ((if x > 9 then x + 55 else x + 48) % 256) as char
  }

  predicate IsUpperHexDigit(c: char)
  {
    '0' <= c <= '9' || 'A' <= c <= 'F'
  }

  function HexValue(c: char): (v: nat)
    requires IsUpperHexDigit(c)
    ensures v < 16
  {
    if c <= '9' then c as int - '0' as int else c as int - 'A' as int + 10
  }

  /** A hex digit of `toHex` reads back as the value it was made from. */
  lemma ToHexRoundTrip(x: int)
    requires 0 <= x < 16
    ensures IsUpperHexDigit(ToHex(x)) && HexValue(ToHex(x)) == x
  {
  }

  // ------------------------------------------------------------- escaping

  /** A byte escaped as `%` and its two upper-case hex digits. */
  function Escape(c: Octet): (r: string)
    ensures |r| == 3 && r[0] == '%' && IsUpperHexDigit(r[1]) && IsUpperHexDigit(r[2])
    ensures 16 * HexValue(r[1]) + HexValue(r[2]) == c as int
  {
    ToHexRoundTrip(c as int / 16);
    ToHexRoundTrip(c as int % 16);
    ['%', ToHex(c as int / 16), ToHex(c as int % 16)]
  }

  /** The value of a `char`, which is signed. */
  function SignedChar(c: Octet): int
  {
    if c as int >= 128 then c as int - 256 else c as int
  }

  /** C `%`, which truncates toward zero. */
  function TruncMod(a: int, b: int): int
    requires b > 0
  {
    if a >= 0 then a % b else -((-a) % b)
  }

  /** The escape as written: `ch >> 4` and `ch % 16` on the signed `char`,
      each converted to the `BYTE` that `toHex` takes. */
  function EscapeAsWritten(c: Octet): string
  {
    var v := SignedChar(c);
    ['%', ToHex((v / 16) % 256), ToHex(TruncMod(v, 16) % 256)]
  }

  /** The two agree on 7-bit characters. */
  lemma EscapeAsWrittenOnAscii(c: Octet)
    requires c as int < 128
    ensures EscapeAsWritten(c) == Escape(c)
  {
  }

  /** On a byte of 0x80 or more the first digit as written is one of
      `/0123456` where a hex digit 8-F belongs. */
  lemma EscapeAsWrittenHighBytes(c: Octet)
    requires c as int >= 128
    ensures EscapeAsWritten(c)[1] != Escape(c)[1]
    ensures '/' <= EscapeAsWritten(c)[1] <= '6'
  {
    var v := SignedChar(c);
    var x := (v / 16) % 256;
    assert 248 <= x <= 255 by {
      assert -8 <= v / 16 <= -1;
    }
    assert EscapeAsWritten(c)[1] as int == x - 201;
    assert 8 <= c as int / 16;
    assert Escape(c)[1] as int == 'A' as int + c as int / 16 - 10 || Escape(c)[1] == '8' || Escape(c)[1] == '9';
  }

  /** 0xFF comes out as "%66" instead of "%FF". */
  lemma EscapeAsWrittenFF()
    ensures EscapeAsWritten('\U{FF}') == "%66" && Escape('\U{FF}') == "%FF"
  {
    assert SignedChar('\U{FF}') == -1;
  }

  // ------------------------------------------------------------ URLEncode

  /** What `URLEncode` appends for one character. */
  function EncodeChar(c: Octet): (r: string)
    ensures |r| == 1 || |r| == 3
  {
    if IsAlnum(c) then [c]
    else if IsSpace(c) && c != '\n' && c != '\r' then ['+']
    else Escape(c)
  }

  predicate IsEscaped(c: Octet)
  {
    !IsAlnum(c) && !(IsSpace(c) && c != '\n' && c != '\r')
  }

  function URLEncodeSpec(s: seq<Octet>): string
    decreases |s|
  {
    if |s| == 0 then [] else EncodeChar(s[0]) + URLEncodeSpec(s[1..])
  }

  method URLEncode(sIn: seq<Octet>) returns (sOut: string)
    ensures sOut == URLEncodeSpec(sIn)
  {
    sOut := [];
    var idx := 0;
    while idx < |sIn|
      invariant idx <= |sIn|
      invariant URLEncodeSpec(sIn) == sOut + URLEncodeSpec(sIn[idx..])
    {
      assert sIn[idx..][1..] == sIn[idx + 1..];
      var piece := EncodeOne(sIn[idx]);
      sOut := sOut + piece;
      idx := idx + 1;
    }
    assert sIn[idx..] == [];
  }

  /** The body of the `URLEncode` loop for one character. */
  method EncodeOne(ch: Octet) returns (piece: string)
    ensures piece == EncodeChar(ch)
  {
    if IsAlnum(ch) {
      piece := [ch];
    } else if IsSpace(ch) && ch != '\n' && ch != '\r' {
      piece := ['+'];
    } else {
      piece := ['%'];
      piece := piece + [ToHex(ch as int / 16)];
      piece := piece + [ToHex(ch as int % 16)];
    }
  }

  function EscapedCount(s: seq<Octet>): nat
    decreases |s|
  {
    if |s| == 0 then 0 else (if IsEscaped(s[0]) then 1 else 0) + EscapedCount(s[1..])
  }

  /** One output character per kept or `+` character and three per escaped
      one; and the output holds no whitespace. */
  lemma {:induction false} URLEncodeShape(s: seq<Octet>)
    ensures |URLEncodeSpec(s)| == |s| + 2 * EscapedCount(s)
    ensures forall i :: 0 <= i < |URLEncodeSpec(s)| ==> !IsSpace(URLEncodeSpec(s)[i])
    decreases |s|
  {
    if |s| > 0 {
      URLEncodeShape(s[1..]);
      var e := EncodeChar(s[0]);
      var rest := URLEncodeSpec(s[1..]);
      forall i | 0 <= i < |e + rest|
        ensures !IsSpace((e + rest)[i])
      {
        if i >= |e| {
          assert (e + rest)[i] == rest[i - |e|];
        }
      }
    }
  }

  /** Form decoding: `+` is a space and `%XX` is the byte XX. */
  function FormDecode(s: string): string
    decreases |s|
  {
    if |s| == 0 then []
    else if s[0] == '+' then [' '] + FormDecode(s[1..])
    else if s[0] == '%' && |s| >= 3 && IsUpperHexDigit(s[1]) && IsUpperHexDigit(s[2]) then
      [(16 * HexValue(s[1]) + HexValue(s[2])) as char] + FormDecode(s[3..])
    else [s[0]] + FormDecode(s[1..])
  }

  /** The only whitespace the text holds is space, LF and CR. */
  predicate PlainSpacing(s: seq<Octet>)
  {
    forall i :: 0 <= i < |s| && IsSpace(s[i]) ==> s[i] == ' ' || s[i] == '\n' || s[i] == '\r'
  }

  /** Decoding undoes `URLEncode` for text whose only whitespace is space,
      LF and CR (other whitespace comes back as a space). */
  lemma {:induction false} URLEncodeRoundTrip(s: seq<Octet>)
    requires PlainSpacing(s)
    ensures FormDecode(URLEncodeSpec(s)) == s
    decreases |s|
  {
    if |s| > 0 {
      var c := s[0];
      var e := EncodeChar(c);
      var rest := URLEncodeSpec(s[1..]);
      assert PlainSpacing(s[1..]) by {
        forall i | 0 <= i < |s[1..]| && IsSpace(s[1..][i])
          ensures s[1..][i] == ' ' || s[1..][i] == '\n' || s[1..][i] == '\r'
        {
          assert s[1..][i] == s[i + 1];
        }
      }
      URLEncodeRoundTrip(s[1..]);
      var x := e + rest;
      if IsAlnum(c) {
        assert x[0] == c && x[1..] == rest;
      } else if IsSpace(c) && c != '\n' && c != '\r' {
        assert x[0] == '+' && x[1..] == rest;
      } else {
        assert x[0] == '%' && x[1] == e[1] && x[2] == e[2] && x[3..] == rest;
      }
      assert s == [c] + s[1..];
    }
  }

  // ---------------------------------------------------------- GetArgValue

  /** The value of the first of the first `argc` arguments whose name
      equals `name` without regard to ASCII case. */
  function FirstArg<V>(name: string, argc: int, argn: seq<string>, argv: seq<V>, from: nat): (r: Option<V>)
    requires argc <= |argn| && argc <= |argv|
    decreases argc - from
  {
    if from >= argc then None
    else if EqualIgnoringCase(argn[from], name) then Some(argv[from])
    else FirstArg(name, argc, argn, argv, from + 1)
  }

  lemma {:induction false} FirstArgSpec<V>(name: string, argc: int, argn: seq<string>, argv: seq<V>, from: nat)
    requires argc <= |argn| && argc <= |argv|
    ensures FirstArg(name, argc, argn, argv, from).None? <==>
      forall i :: from <= i < argc ==> !EqualIgnoringCase(argn[i], name)
    ensures FirstArg(name, argc, argn, argv, from).Some? ==>
      exists i :: from <= i < argc && EqualIgnoringCase(argn[i], name)
        && FirstArg(name, argc, argn, argv, from).value == argv[i]
        && forall j :: from <= j < i ==> !EqualIgnoringCase(argn[j], name)
    decreases argc - from
  {
    if from < argc && !EqualIgnoringCase(argn[from], name) {
      FirstArgSpec(name, argc, argn, argv, from + 1);
    }
  }

  /** The lookup ignores the case of the name it is given. */
  lemma FirstArgIgnoresCase<V>(name: string, argc: int, argn: seq<string>, argv: seq<V>)
    requires argc <= |argn| && argc <= |argv|
    ensures FirstArg(name, argc, argn, argv, 0) == FirstArg(ToLowerAscii(name), argc, argn, argv, 0)
  {
    var lower := ToLowerAscii(name);
    assert ToLowerAscii(lower) == ToLowerAscii(name);
    forall i | 0 <= i < argc
      ensures EqualIgnoringCase(argn[i], name) == EqualIgnoringCase(argn[i], lower)
    {
    }
    FirstArgSame(name, lower, argc, argn, argv, 0);
  }

  lemma {:induction false} FirstArgSame<V>(a: string, b: string, argc: int, argn: seq<string>, argv: seq<V>, from: nat)
    requires argc <= |argn| && argc <= |argv|
    requires forall i :: 0 <= i < argc ==> EqualIgnoringCase(argn[i], a) == EqualIgnoringCase(argn[i], b)
    ensures FirstArg(a, argc, argn, argv, from) == FirstArg(b, argc, argn, argv, from)
    decreases argc - from
  {
    if from < argc {
      FirstArgSame(a, b, argc, argn, argv, from + 1);
    }
  }

  /** `GetArgValue`; None is the null pointer. */
  method GetArgValue<V>(name: string, argc: int, argn: seq<string>, argv: seq<V>) returns (r: Option<V>)
    requires argc <= |argn| && argc <= |argv|
    ensures r == FirstArg(name, argc, argn, argv, 0)
  {
    var idx := 0;
    while idx < argc
      invariant 0 <= idx && (argc >= 0 ==> idx <= argc)
      invariant FirstArg(name, argc, argn, argv, 0) == FirstArg(name, argc, argn, argv, idx)
      decreases argc - idx
    {
      if EqualIgnoringCase(argn[idx], name) {
        return Some(argv[idx]);
      }
      idx := idx + 1;
    }
    return None;
  }

  // -------------------------------------------------------- the test object

  /** The script the completion URL runs. */
  function CompletionScript(name: seq<Octet>, id: seq<Octet>, status: seq<Octet>): seq<Octet>
  {
    if |status| == 0 then "onSuccess(\"" + name + "\",\"" + id + "\");"
    else "onFailure(\"" + name + "\",\"" + id + "\",\"" + status + "\");"
  }

  /** The URL `SignalTestCompleted` asks the browser to load. */
  function CompletionUrl(name: seq<Octet>, id: seq<Octet>, status: seq<Octet>): string
  {
    "javascript:" + URLEncodeSpec(CompletionScript(name, id, status))
  }

  /** The completion URL is a `javascript:` URL whose form-decoded body is
      the script, when the name, id and status use only plain spacing. */
  lemma CompletionUrlDecodes(name: seq<Octet>, id: seq<Octet>, status: seq<Octet>)
    requires PlainSpacing(name) && PlainSpacing(id) && PlainSpacing(status)
    ensures StartsWith(CompletionUrl(name, id, status), "javascript:")
    ensures FormDecode(CompletionUrl(name, id, status)[11..]) == CompletionScript(name, id, status)
  {
    var script := CompletionScript(name, id, status);
    assert PlainSpacing(script) by {
      forall i | 0 <= i < |script| && IsSpace(script[i])
        ensures script[i] == ' ' || script[i] == '\n' || script[i] == '\r'
      {
        PlainSpacingPart(script, name, id, status, i);
      }
    }
    URLEncodeRoundTrip(script);
    assert CompletionUrl(name, id, status)[11..] == URLEncodeSpec(script);
  }

  lemma PlainSpacingPart(script: seq<Octet>, name: seq<Octet>, id: seq<Octet>, status: seq<Octet>, i: nat)
    requires script == CompletionScript(name, id, status)
    requires PlainSpacing(name) && PlainSpacing(id) && PlainSpacing(status)
    requires i < |script|
    ensures IsSpace(script[i]) ==> script[i] == ' ' || script[i] == '\n' || script[i] == '\r'
  {
    var open: seq<Octet> := if |status| == 0 then "onSuccess(\"" else "onFailure(\"";
    var sep: seq<Octet> := "\",\"";
    var close: seq<Octet> := "\");";
    var parts: seq<Octet> := if |status| == 0 then open + name + sep + id + close
      else open + name + sep + id + sep + status + close;
    assert script == parts;
    var a := |open|;
    var b := a + |name|;
    var c := b + |sep|;
    var d := c + |id|;
    if i < a {
      assert script[i] == open[i];
    } else if i < b {
      assert script[i] == name[i - a];
    } else if i < c {
      assert script[i] == sep[i - b];
    } else if i < d {
      assert script[i] == id[i - c];
    } else if |status| == 0 {
      assert script[i] == close[i - d];
    } else if i < d + |sep| {
      assert script[i] == sep[i - d];
    } else if i < d + |sep| + |status| {
      assert script[i] == status[i - d - |sep|];
    } else {
      assert script[i] == close[i - d - |sep| - |status|];
    }
  }

  /** The script `SignalTestCompleted` builds: `onSuccess` when no error
      was recorded, else `onFailure` with the recorded status. */
  method ComposeScript(name: seq<Octet>, id: seq<Octet>, status: seq<Octet>) returns (scriptUrl: seq<Octet>)
    ensures scriptUrl == CompletionScript(name, id, status)
  {
    scriptUrl := [];
    if |status| == 0 {
      scriptUrl := scriptUrl + "onSuccess(\"";
      scriptUrl := scriptUrl + name;
      scriptUrl := scriptUrl + "\",\"";
      scriptUrl := scriptUrl + id;
      scriptUrl := scriptUrl + "\");";
      assert scriptUrl == "onSuccess(\"" + name + "\",\"" + id + "\");";
    } else {
      scriptUrl := scriptUrl + "onFailure(\"";
      scriptUrl := scriptUrl + name;
      scriptUrl := scriptUrl + "\",\"";
      scriptUrl := scriptUrl + id;
      scriptUrl := scriptUrl + "\",\"";
      scriptUrl := scriptUrl + status;
      scriptUrl := scriptUrl + "\");";
      assert scriptUrl == "onFailure(\"" + name + "\",\"" + id + "\",\"" + status + "\");";
    }
  }

  /** A test plugin instance: its name and id from the `<embed>` arguments,
      its accumulated error text, and the URLs it asked the browser to load. */
  class PluginTestObject {
    var testName: seq<Octet>
    var testId: seq<Octet>
    var testStatus: seq<Octet>
    var requestedUrls: seq<string>

    constructor()
      ensures testName == [] && testId == [] && testStatus == [] && requestedUrls == []
    {
      testName := [];
      testId := [];
      testStatus := [];
      requestedUrls := [];
    }

    /** Records the `name` and `id` arguments; both must be present, since a
        null pointer cannot be assigned to a `std::string`. */
    method New(argc: int, argn: seq<string>, argv: seq<seq<Octet>>)
      requires argc <= |argn| && argc <= |argv|
      requires FirstArg("name", argc, argn, argv, 0).Some?
      requires FirstArg("id", argc, argn, argv, 0).Some?
      modifies this`testName, this`testId
      ensures testName == FirstArg("name", argc, argn, argv, 0).value
      ensures testId == FirstArg("id", argc, argn, argv, 0).value
    {
      var name := GetArgValue("name", argc, argn, argv);
      var id := GetArgValue("id", argc, argn, argv);
      testName := name.value;
      testId := id.value;
    }

    predicate Succeeded()
      reads this
    {
      |testStatus| == 0
    }

    method SetError(msg: seq<Octet>)
      modifies this`testStatus
      ensures testStatus == old(testStatus) + msg
      ensures |msg| > 0 ==> !Succeeded()
    {
      testStatus := testStatus + msg;
    }

    /** Asks the browser to run `onSuccess` or `onFailure` in the page. */
    method SignalTestCompleted()
      modifies this`requestedUrls
      ensures requestedUrls == old(requestedUrls) + [CompletionUrl(testName, testId, testStatus)]
    {
      var scriptUrl := ComposeScript(testName, testId, testStatus);
      var encoded := URLEncode(scriptUrl);
      var scriptResult := "javascript:" + encoded;
      requestedUrls := requestedUrls + [scriptResult];
    }
  }
}
