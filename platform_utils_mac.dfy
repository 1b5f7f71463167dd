// The layout-test runner's mapping from a test file to the URI the test
// shell loads: tests under the http test directories are served by the
// local web server on a port chosen by the directory (and over https when
// they sit under ssl/); every other test is loaded as a file URI.
module PlatformUtilsMac {
  import opened Common

  const LayoutTestHttpDir: string := "LayoutTests/http/tests/"
  const PendingHttpDir: string := "pending/http/tests/"
  const HttpPrefix: string := "http://127.0.0.1:"
  const HttpsPrefix: string := "https://127.0.0.1:"
  const FilePrefix: string := "file:///"

  /** `path.replace("\\", "/")`. */
  function ReplaceBackslashes(path: string): (r: string)
    ensures |r| == |path|
    ensures forall i :: 0 <= i < |r| ==> r[i] == (if path[i] == '\\' then '/' else path[i])
    decreases |path|
  {
    if |path| == 0 then [] else [if path[0] == '\\' then '/' else path[0]] + ReplaceBackslashes(path[1..])
  }

  /** A path without backslashes is passed on unchanged. */
  lemma ReplaceBackslashesKeepsSlashPaths(path: string)
    requires '\\' !in path
    ensures ReplaceBackslashes(path) == path
  {
  }

  /** `_FilenameToUri`; `absPath` is what `os.path.abspath` makes of `path`,
      which depends on the working directory. */
  function FilenameToUriWith(path: string, useHttp: bool, useSsl: bool, port: nat, absPath: string): string
  {
    if useHttp then
      (if useSsl then HttpsPrefix else HttpPrefix) + NatToString(port) + "/" + ReplaceBackslashes(path)
    else
      FilePrefix + absPath
  }

  /** The directory rule: the path the server is given and the base port,
      or None when the test is loaded from a file. */
  function HttpRule(relativePath: string): Option<(string, nat)>
  {
    if StartsWith(relativePath, LayoutTestHttpDir) then
      Some((relativePath[|LayoutTestHttpDir|..], 8000))
    else if StartsWith(relativePath, PendingHttpDir) then
      Some((relativePath[|PendingHttpDir|..], 9000))
    else if Find(relativePath, "/http/").Some? then
      Some((relativePath, 8081))
    else
      None
  }

  /** `FilenameToUri`; `relativePath` is the test's path relative to the
      layout test root and `absPath` the absolute form of `fullPath`. A test
      under one of the http directories is served over http, or https when
      its served path starts with "ssl/", on the directory's port (443 up for
      ssl) with the path the directory rule gives; any other test is loaded
      from its absolute path. */
  function FilenameToUri(fullPath: string, relativePath: string, absPath: string): (r: string)
    ensures HttpRule(relativePath).Some? ==>
      var path := HttpRule(relativePath).value.0;
      var port := HttpRule(relativePath).value.1;
      ParseUri(r) == HttpUri(StartsWith(path, "ssl/"),
                             if StartsWith(path, "ssl/") then port + 443 else port,
                             ReplaceBackslashes(path))
    ensures HttpRule(relativePath).None? ==> ParseUri(r) == FileUri(absPath)
  {
    match HttpRule(relativePath)
    case Some((path, port)) =>
      var useSsl := StartsWith(path, "ssl/");
      FilenameToUriWithRoundTrip(path, true, useSsl, if useSsl then port + 443 else port, absPath);
      FilenameToUriWith(path, true, useSsl, if useSsl then port + 443 else port, absPath)
    case None =>
      FilenameToUriWithRoundTrip(fullPath, false, false, 0, absPath);
      FilenameToUriWith(fullPath, false, false, 0, absPath)
  }

  // ------------------------------------------------------------ reading back

  datatype UriParts = HttpUri(ssl: bool, port: nat, path: string) | FileUri(path: string) | Unknown

  /** The value of a string of decimal digits. */
  function ParseDecimal(s: string): nat
    requires forall i :: 0 <= i < |s| ==> '0' <= s[i] <= '9'
    decreases |s|
  {
    if |s| == 0 then 0 else ParseDecimal(s[..|s| - 1]) * 10 + (s[|s| - 1] as int - '0' as int)
  }

  lemma {:induction false} ParseDecimalOfNatToString(n: nat)
    ensures ParseDecimal(NatToString(n)) == n
    decreases n
  {
    if n >= 10 {
      ParseDecimalOfNatToString(n / 10);
      var s := NatToString(n);
      assert s[..|s| - 1] == NatToString(n / 10);
    }
  }

  function ParseServerPart(ssl: bool, rest: string): UriParts
  {
    match IndexOf(rest, '/')
    case Some(k) =>
      if 0 < k && forall i :: 0 <= i < k ==> '0' <= rest[i] <= '9' then
        HttpUri(ssl, ParseDecimal(rest[..k]), rest[k + 1..])
      else Unknown
    case None => Unknown
  }

  /** Splits a URI of one of the three forms back into its parts. */
  function ParseUri(uri: string): UriParts
  {
    if StartsWith(uri, HttpPrefix) then ParseServerPart(false, uri[|HttpPrefix|..])
    else if StartsWith(uri, HttpsPrefix) then ParseServerPart(true, uri[|HttpsPrefix|..])
    else if StartsWith(uri, FilePrefix) then FileUri(uri[|FilePrefix|..])
    else Unknown
  }

  /** The server part of an http URI reads back as its port and path. */
  lemma ServerPartRoundTrip(ssl: bool, port: nat, path: string)
    ensures ParseServerPart(ssl, NatToString(port) + "/" + path) == HttpUri(ssl, port, path)
  {
    var digits := NatToString(port);
    DigitsThenPath(digits, path);
    ParseDecimalOfNatToString(port);
  }

  /** A run of digits, a '/' and a path split at that '/'. */
  lemma DigitsThenPath(digits: string, path: string)
    requires |digits| > 0 && forall i :: 0 <= i < |digits| ==> '0' <= digits[i] <= '9'
    ensures var rest := digits + "/" + path;
      IndexOf(rest, '/') == Some(|digits|) && rest[..|digits|] == digits && rest[|digits| + 1..] == path
  {
    var rest := digits + "/" + path;
    var k := |digits|;
    assert rest[..k] == digits;
    assert rest[k] == '/';
    assert rest[k + 1..] == path;
  }

  /** An http URI reads back as its scheme, port and the path with its
      backslashes turned into slashes. */
  lemma HttpUriRoundTrip(path: string, useSsl: bool, port: nat)
    ensures ParseUri(FilenameToUriWith(path, true, useSsl, port, "")) == HttpUri(useSsl, port, ReplaceBackslashes(path))
  {
    var uri := FilenameToUriWith(path, true, useSsl, port, "");
    var prefix := if useSsl then HttpsPrefix else HttpPrefix;
    var rest := NatToString(port) + "/" + ReplaceBackslashes(path);
    assert ParseUri(uri) == ParseServerPart(useSsl, rest) by {
      assert uri == prefix + rest;
      assert StartsWith(uri, prefix) && uri[|prefix|..] == rest;
      assert useSsl ==> !StartsWith(uri, HttpPrefix) by {
        assert uri[4] == (if useSsl then 's' else ':');
      }
    }
    ServerPartRoundTrip(useSsl, port, ReplaceBackslashes(path));
  }

  /** A file URI reads back as the absolute path. */
  lemma FileUriRoundTrip(path: string, absPath: string)
    ensures ParseUri(FilenameToUriWith(path, false, false, 0, absPath)) == FileUri(absPath)
  {
    var uri := FilenameToUriWith(path, false, false, 0, absPath);
    assert StartsWith(uri, FilePrefix) && uri[|FilePrefix|..] == absPath;
    assert !StartsWith(uri, HttpPrefix) && !StartsWith(uri, HttpsPrefix) by {
      assert uri[0] == 'f';
    }
  }

  /** `_FilenameToUri` loses nothing but the backslashes: the scheme, port
      and path read back from the URI it builds. */
  lemma FilenameToUriWithRoundTrip(path: string, useHttp: bool, useSsl: bool, port: nat, absPath: string)
    ensures ParseUri(FilenameToUriWith(path, useHttp, useSsl, port, absPath)) ==
      if useHttp then HttpUri(useSsl, port, ReplaceBackslashes(path)) else FileUri(absPath)
  {
    if useHttp {
      HttpUriRoundTrip(path, useSsl, port);
      assert FilenameToUriWith(path, true, useSsl, port, absPath) == FilenameToUriWith(path, true, useSsl, port, "");
    } else {
      FileUriRoundTrip(path, absPath);
    }
  }

  /** The server ports: 8000 and 8443 for the layout tests, 9000 and 9443
      for the pending tests, 8081 and 8524 for other http tests; https is
      used exactly on the ssl ports. */
  lemma ServedPorts(fullPath: string, relativePath: string, absPath: string)
    ensures var parts := ParseUri(FilenameToUri(fullPath, relativePath, absPath));
      parts.HttpUri? ==>
        (parts.port in {8000, 8443, 9000, 9443, 8081, 8524}) &&
        (parts.ssl <==> parts.port in {8443, 9443, 8524})
    ensures ParseUri(FilenameToUri(fullPath, relativePath, absPath)).HttpUri? <==>
      StartsWith(relativePath, LayoutTestHttpDir) || StartsWith(relativePath, PendingHttpDir)
        || Find(relativePath, "/http/").Some?
  {
  }

  /** A layout http test is served on 8000 below its directory, although its
      path also contains "/http/", whatever its absolute path. */
  lemma LayoutHttpExample(fullPath: string, absPath: string)
    ensures ParseUri(FilenameToUri(fullPath, "LayoutTests/http/tests/a.html", absPath))
      == HttpUri(false, 8000, "a.html")
  {
    var rel := "LayoutTests/http/tests/a.html";
    assert HttpRule(rel) == Some(("a.html", 8000)) by {
      assert StartsWith(rel, LayoutTestHttpDir);
      assert rel[|LayoutTestHttpDir|..] == "a.html";
    }
    assert !StartsWith("a.html", "ssl/") by { assert "a.html"[0] != 's'; }
    ReplaceBackslashesKeepsSlashPaths("a.html");
  }

  /** An ssl test among the layout http tests goes to 8443 over https. */
  lemma LayoutSslExample(fullPath: string, absPath: string)
    ensures ParseUri(FilenameToUri(fullPath, "LayoutTests/http/tests/ssl/a.html", absPath))
      == HttpUri(true, 8443, "ssl/a.html")
  {
    var rel := "LayoutTests/http/tests/ssl/a.html";
    assert HttpRule(rel) == Some(("ssl/a.html", 8000)) by {
      assert StartsWith(rel, LayoutTestHttpDir);
      assert rel[|LayoutTestHttpDir|..] == "ssl/a.html";
    }
    assert StartsWith("ssl/a.html", "ssl/");
    ReplaceBackslashesKeepsSlashPaths("ssl/a.html");
  }

  /** Another test under an http directory keeps its whole relative path
      and goes to 8081. */
  lemma OtherHttpExample(fullPath: string, absPath: string)
    ensures ParseUri(FilenameToUri(fullPath, "chrome/http/x.html", absPath))
      == HttpUri(false, 8081, "chrome/http/x.html")
  {
    var rel := "chrome/http/x.html";
    assert HttpRule(rel) == Some((rel, 8081)) by {
      assert !StartsWith(rel, LayoutTestHttpDir) by { assert rel[0] != LayoutTestHttpDir[0]; }
      assert !StartsWith(rel, PendingHttpDir) by { assert rel[0] != PendingHttpDir[0]; }
      assert OccursAt(rel, "/http/", 6);
    }
    assert !StartsWith(rel, "ssl/") by { assert rel[0] != 's'; }
    ReplaceBackslashesKeepsSlashPaths(rel);
  }

  /** Any other test is loaded from its absolute path. */
  lemma FileExample(fullPath: string, absPath: string)
    ensures ParseUri(FilenameToUri(fullPath, "a.html", absPath)) == FileUri(absPath)
  {
    var rel := "a.html";
    assert HttpRule(rel).None? by {
      assert !StartsWith(rel, LayoutTestHttpDir) by { assert rel[0] != LayoutTestHttpDir[0]; }
      assert !StartsWith(rel, PendingHttpDir) by { assert rel[0] != PendingHttpDir[0]; }
      assert !OccursAt(rel, "/http/", 0) by { assert rel[0] == 'a'; }
      assert Find(rel, "/http/").None?;
    }
  }
}
