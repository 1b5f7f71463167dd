// The cookie store of `CookieMonster` (net/base/cookie_monster.cc): path
// canonicalisation and matching, the Cookie header, deletion, garbage
// collection and the monotonic clock. Times are the internal integer value
// of `base::Time`; 0 is the null time.
module CookieStore {
  import opened Common

  type Time = int

  const NullTime: Time := 0

  /** `CanonicalCookie`. */
  datatype Cookie = Cookie(name: string, value: string, path: string, secure: bool, httpOnly: bool,
                           creation: Time, hasExpires: bool, expiry: Time)

  /** `IsExpired(current)`, declared in cookie_monster.h (not part of this
      model): a cookie with an expiry has expired once that time is reached. */
  predicate IsExpired(c: Cookie, current: Time)
  {
    c.hasExpires && current >= c.expiry
  }

  // ---------------------------------------------------------------------------
  // Paths

  /** `find_last_of(c)`: the last index holding `c`, or None. */
  function LastIndexOf(s: string, c: char): (r: Option<nat>)
    ensures r.Some? ==> r.value < |s| && s[r.value] == c && c !in s[r.value + 1..]
    ensures r.None? ==> c !in s
  {
    LastIndexBefore(s, c, |s|)
  }

  function LastIndexBefore(s: string, c: char, n: nat): (r: Option<nat>)
    requires n <= |s|
    ensures r.Some? ==> r.value < n && s[r.value] == c && c !in s[r.value + 1..n]
    ensures r.None? ==> c !in s[..n]
    decreases n
  {
    if n == 0 then None
    else if s[n - 1] == c then Some(n - 1)
    else
      var r := LastIndexBefore(s, c, n - 1);
      assert s[..n] == s[..n - 1] + [s[n - 1]];
      r
  }

  /** `CanonPath`: the path attribute is used exactly when it is present,
      non-empty and absolute; otherwise the path is the directory of the URL
      path (the URL path up to its last `/`), and "/" when that `/` is the
      first character or there is none, so a default never ends in `/`
      unless it is "/". */
  function CanonPath(urlPath: string, hasPath: bool, pathAttr: string): (r: string)
    ensures hasPath && pathAttr != "" && pathAttr[0] == '/' ==> r == pathAttr
    ensures !(hasPath && pathAttr != "" && pathAttr[0] == '/') ==>
      && r != ""
      && ((exists i :: 0 < i < |urlPath| && urlPath[i] == '/') ==>
            StartsWith(urlPath, r) && |r| < |urlPath| && urlPath[|r|] == '/'
            && '/' !in urlPath[|r| + 1..])
      && ((forall i :: 0 < i < |urlPath| ==> urlPath[i] != '/') ==> r == "/")
  {
    if hasPath && pathAttr != "" && pathAttr[0] == '/' then pathAttr
    else
      match LastIndexOf(urlPath, '/')
      case None => "/"
      case Some(idx) =>
        if idx == 0 then "/"
        else
          assert urlPath[|urlPath[..idx]|] == '/';
          urlPath[..idx]
  }

  /** `CanonicalCookie::IsOnPath`: a cookie path matches a URL path iff it
      is a non-empty prefix of it ending at a path segment boundary (the end
      of the URL path, a trailing `/` of its own, or a `/` after it). */
  function IsOnPath(cookiePath: string, urlPath: string): (r: bool)
    ensures r <==>
      && cookiePath != ""
      && StartsWith(urlPath, cookiePath)
      && (|urlPath| == |cookiePath| || EndsWith(cookiePath, "/") || urlPath[|cookiePath|] == '/')
  {
    if cookiePath == "" then false
    else if !StartsWith(urlPath, cookiePath) then false
    else
      assert EndsWith(cookiePath, "/") <==> cookiePath[|cookiePath| - 1] == '/' by {
        assert cookiePath[|cookiePath| - 1..] == [cookiePath[|cookiePath| - 1]];
      }
      if |cookiePath| != |urlPath| && cookiePath[|cookiePath| - 1] != '/' && urlPath[|cookiePath|] != '/' then false
      else true
  }

  /** A cookie whose path was defaulted from an absolute URL path is sent
      back to that URL path. */
  lemma DefaultPathMatchesUrl(urlPath: string, hasPath: bool, pathAttr: string)
    requires !(hasPath && pathAttr != "" && pathAttr[0] == '/')
    requires urlPath != "" && urlPath[0] == '/'
    ensures IsOnPath(CanonPath(urlPath, hasPath, pathAttr), urlPath)
  {
    var r := CanonPath(urlPath, hasPath, pathAttr);
    if r == "/" {
      assert StartsWith(urlPath, r);
    }
  }

  /** The path examples of the unit tests for a cookie set with `path=/wee`. */
  lemma IsOnPathExamples()
    ensures IsOnPath("/wee", "/wee") && IsOnPath("/wee", "/wee/") && IsOnPath("/wee", "/wee/war")
    ensures IsOnPath("/wee", "/wee/war/more/more")
    ensures !IsOnPath("/wee", "/weehee") && !IsOnPath("/wee", "/")
  {
    assert "/wee/war"[..4] == "/wee";
    assert "/wee/war/more/more"[..4] == "/wee";
    assert "/weehee"[..4] == "/wee";
  }

  // ---------------------------------------------------------------------------
  // The Cookie header

  /** The schemes cookies are kept for, and the index of the one that is
      only honoured when file cookies are enabled. */
  const CookieableSchemes: seq<string> := ["http", "https", "file"]
  const FileSchemeIndex: nat := 2

  /** The first index at or after `i` whose scheme is `scheme`. */
  function SchemeIndexFrom(scheme: string, i: nat): (r: Option<nat>)
    requires i <= |CookieableSchemes|
    ensures r.Some? ==> i <= r.value < |CookieableSchemes| && CookieableSchemes[r.value] == scheme
    ensures r.None? ==> forall k :: i <= k < |CookieableSchemes| ==> CookieableSchemes[k] != scheme
    decreases |CookieableSchemes| - i
  {
    if i == |CookieableSchemes| then None
    else if CookieableSchemes[i] == scheme then Some(i)
    else SchemeIndexFrom(scheme, i + 1)
  }

  /** `HasCookieableScheme`: the scan of the scheme table; the file scheme
      answers with the file-scheme switch. http and https are always
      cookieable, file exactly when enabled, and nothing else ever. */
  function HasCookieableScheme(scheme: string, enableFileScheme: bool): (r: bool)
    ensures r <==> scheme == "http" || scheme == "https" || (scheme == "file" && enableFileScheme)
  {
    match SchemeIndexFrom(scheme, 0)
    case None => false
    case Some(i) => if i == FileSchemeIndex then enableFileScheme else true
  }

  /** `CookieSorter` read as "may come first": longer paths first, then
      older creation first. */
  predicate Precedes(a: Cookie, b: Cookie)
  {
    |a.path| > |b.path| || (|a.path| == |b.path| && a.creation <= b.creation)
  }

  predicate Sorted(cs: seq<Cookie>)
  {
    forall i, j :: 0 <= i < j < |cs| ==> Precedes(cs[i], cs[j])
  }

  /** The order the header lists cookies in (`std::sort` with `CookieSorter`). */
  function SortCookies(cs: seq<Cookie>): (r: seq<Cookie>)
    ensures multiset(r) == multiset(cs) && |r| == |cs|
  {
    if cs == [] then []
    else
      assert cs == [cs[0]] + cs[1..];
      Insert(cs[0], SortCookies(cs[1..]))
  }

  /** `s` with `c` placed before the first element it may precede. */
  function Insert(c: Cookie, s: seq<Cookie>): (r: seq<Cookie>)
    ensures multiset(r) == multiset(s) + multiset{c} && |r| == |s| + 1
  {
    if s == [] then [c]
    else if Precedes(c, s[0]) then [c] + s
    else
      assert s == [s[0]] + s[1..];
      [s[0]] + Insert(c, s[1..])
  }

  lemma {:induction false} InsertSorted(c: Cookie, s: seq<Cookie>)
    requires Sorted(s)
    ensures Sorted(Insert(c, s))
    decreases |s|
  {
    if s != [] && !Precedes(c, s[0]) {
      var rest := Insert(c, s[1..]);
      InsertSorted(c, s[1..]);
      var r := [s[0]] + rest;
      forall j | 1 <= j < |r| ensures Precedes(r[0], r[j]) {
        assert r[j] in multiset(rest);
        assert r[j] == c || r[j] in s[1..];
      }
    }
  }

  lemma {:induction false} SortCookiesSorted(cs: seq<Cookie>)
    ensures Sorted(SortCookies(cs))
    decreases |cs|
  {
    if cs != [] {
      SortCookiesSorted(cs[1..]);
      InsertSorted(cs[0], SortCookies(cs[1..]));
    }
  }

  /** What the header says for one cookie: `name=value`, or only the value
      for a nameless cookie. */
  function HeaderEntry(c: Cookie): string
  {
    (if c.name != "" then c.name + "=" else "") + c.value
  }

  /** The entries joined with "; ". */
  function CookieLineOf(cs: seq<Cookie>): string
  {
    if cs == [] then ""
    else if |cs| == 1 then HeaderEntry(cs[0])
    else CookieLineOf(cs[..|cs| - 1]) + "; " + HeaderEntry(cs[|cs| - 1])
  }

  /** The string `GetCookiesWithOptions` builds from the cookies found for the
      URL; finding them is not part of this model, so they are a parameter. */
  method GetCookiesWithOptions(scheme: string, enableFileScheme: bool, found: seq<Cookie>)
      returns (line: string)
    ensures line == if HasCookieableScheme(scheme, enableFileScheme) then CookieLineOf(SortCookies(found)) else ""
  {
    if !HasCookieableScheme(scheme, enableFileScheme) {
      return "";
    }
    var cookies := SortCookies(found);
    line := "";
    for i := 0 to |cookies|
      invariant line == CookieLineOf(cookies[..i])
    {
      assert cookies[..i + 1][..i] == cookies[..i];
      if i != 0 {
        line := line + "; ";
      }
      if cookies[i].name != "" {
        line := line + cookies[i].name + "=";
      }
      line := line + cookies[i].value;
    }
    assert cookies[..|cookies|] == cookies;
  }

  /** The header lists longer paths first and, among equal lengths, older
      cookies first, and holds each found cookie exactly as often as found. */
  lemma HeaderOrder(found: seq<Cookie>)
    ensures var cs := SortCookies(found);
      && multiset(cs) == multiset(found)
      && forall i, j :: 0 <= i < j < |cs| ==>
           |cs[i].path| > |cs[j].path| || (|cs[i].path| == |cs[j].path| && cs[i].creation <= cs[j].creation)
  {
    SortCookiesSorted(found);
  }

  /** The unit test's header: after `A=B; path=/wee` and `A=C; path=` (which
      defaults to "/"), the URL /wee gets "A=B; A=C". */
  lemma HeaderExample()
    ensures var b := Cookie("A", "B", "/wee", false, false, 2, false, NullTime);
      var c := Cookie("A", "C", "/", false, false, 3, false, NullTime);
      CookieLineOf(SortCookies([c, b])) == "A=B; A=C"
  {
    var b := Cookie("A", "B", "/wee", false, false, 2, false, NullTime);
    var c := Cookie("A", "C", "/", false, false, 3, false, NullTime);
    assert SortCookies([b]) == [b];
    assert SortCookies([c, b]) == [b, c];
  }

  /** A nameless cookie is sent as its bare value. */
  lemma NamelessHeader(c: Cookie)
    requires c.name == ""
    ensures CookieLineOf([c]) == c.value
  {
  }

  // ---------------------------------------------------------------------------
  // The store

  /** One entry of the `cookies_` multimap: the domain key and the cookie. */
  datatype KeyedCookie = KeyedCookie(key: string, cookie: Cookie)

  /** The entries a garbage collection walks: those under `key`, or all of them. */
  predicate InScope(e: KeyedCookie, key: Option<string>)
  {
    key.None? || e.key == key.value
  }

  function CountInScope(cs: seq<KeyedCookie>, key: Option<string>): (r: nat)
    ensures r <= |cs|
    ensures key.None? ==> r == |cs|
  {
    if cs == [] then 0
    else CountInScope(cs[..|cs| - 1], key) + (if InScope(cs[|cs| - 1], key) then 1 else 0)
  }

  lemma {:induction false} CountInScopeAppend(a: seq<KeyedCookie>, b: seq<KeyedCookie>, key: Option<string>)
    ensures CountInScope(a + b, key) == CountInScope(a, key) + CountInScope(b, key)
    decreases |b|
  {
    if b != [] {
      assert (a + b)[..|a + b| - 1] == a + b[..|b| - 1];
      CountInScopeAppend(a, b[..|b| - 1], key);
    } else {
      assert a + b == a;
    }
  }

  /** Some entry is in scope iff the count in scope is positive. */
  lemma {:induction false} CountInScopePositive(cs: seq<KeyedCookie>, key: Option<string>)
    ensures CountInScope(cs, key) > 0 <==> exists j :: 0 <= j < |cs| && InScope(cs[j], key)
    decreases |cs|
  {
    if cs != [] {
      CountInScopePositive(cs[..|cs| - 1], key);
      if CountInScope(cs[..|cs| - 1], key) > 0 {
        var j :| 0 <= j < |cs| - 1 && InScope(cs[..|cs| - 1][j], key);
        assert InScope(cs[j], key);
      }
    }
  }

  /** `cs` without its entry at `i`: an `InternalDeleteCookie`. */
  function RemoveAt(cs: seq<KeyedCookie>, i: nat): (r: seq<KeyedCookie>)
    requires i < |cs|
    ensures |r| == |cs| - 1
    ensures forall e :: e in r ==> e in cs
  {
    cs[..i] + cs[i + 1..]
  }

  lemma RemoveAtCount(cs: seq<KeyedCookie>, i: nat, key: Option<string>)
    requires i < |cs|
    ensures CountInScope(RemoveAt(cs, i), key) == CountInScope(cs, key) - (if InScope(cs[i], key) then 1 else 0)
  {
    assert cs == cs[..i] + [cs[i]] + cs[i + 1..];
    CountInScopeAppend(cs[..i] + [cs[i]], cs[i + 1..], key);
    CountInScopeAppend(cs[..i], [cs[i]], key);
    CountInScopeAppend(cs[..i], cs[i + 1..], key);
  }

  /** The entries that are not in scope, in order. */
  function Outside(cs: seq<KeyedCookie>, key: Option<string>): seq<KeyedCookie>
  {
    if cs == [] then []
    else Outside(cs[..|cs| - 1], key) + (if InScope(cs[|cs| - 1], key) then [] else [cs[|cs| - 1]])
  }

  lemma {:induction false} OutsideAppend(a: seq<KeyedCookie>, b: seq<KeyedCookie>, key: Option<string>)
    ensures Outside(a + b, key) == Outside(a, key) + Outside(b, key)
    decreases |b|
  {
    if b != [] {
      assert (a + b)[..|a + b| - 1] == a + b[..|b| - 1];
      OutsideAppend(a, b[..|b| - 1], key);
    } else {
      assert a + b == a;
    }
  }

  lemma RemoveAtOutside(cs: seq<KeyedCookie>, i: nat, key: Option<string>)
    requires i < |cs| && InScope(cs[i], key)
    ensures Outside(RemoveAt(cs, i), key) == Outside(cs, key)
  {
    assert cs == cs[..i] + [cs[i]] + cs[i + 1..];
    OutsideAppend(cs[..i] + [cs[i]], cs[i + 1..], key);
    OutsideAppend(cs[..i], [cs[i]], key);
    OutsideAppend(cs[..i], cs[i + 1..], key);
    assert Outside([cs[i]], key) == [] by {
      assert [cs[i]][..0] == [];
    }
  }

  /** The first pass of `GarbageCollectRange`: the expired entries in scope deleted. */
  function DropExpired(cs: seq<KeyedCookie>, current: Time, key: Option<string>): (r: seq<KeyedCookie>)
    ensures |r| <= |cs|
  {
    if cs == [] then []
    else
      var e := cs[|cs| - 1];
      DropExpired(cs[..|cs| - 1], current, key) + (if InScope(e, key) && IsExpired(e.cookie, current) then [] else [e])
  }

  /** An entry survives the first pass iff it is not an expired entry in scope. */
  lemma {:induction false} DropExpiredMembers(cs: seq<KeyedCookie>, current: Time, key: Option<string>)
    ensures forall e :: e in DropExpired(cs, current, key) <==>
      e in cs && !(InScope(e, key) && IsExpired(e.cookie, current))
    decreases |cs|
  {
    if cs != [] {
      var e := cs[|cs| - 1];
      DropExpiredMembers(cs[..|cs| - 1], current, key);
      assert cs == cs[..|cs| - 1] + [e];
    }
  }

  lemma {:induction false} DropExpiredOutside(cs: seq<KeyedCookie>, current: Time, key: Option<string>)
    ensures Outside(DropExpired(cs, current, key), key) == Outside(cs, key)
    decreases |cs|
  {
    if cs != [] {
      var e := cs[|cs| - 1];
      var prefix := DropExpired(cs[..|cs| - 1], current, key);
      DropExpiredOutside(cs[..|cs| - 1], current, key);
      if !(InScope(e, key) && IsExpired(e.cookie, current)) {
        OutsideAppend(prefix, [e], key);
        assert [e][..0] == [];
      } else {
        assert DropExpired(cs, current, key) == prefix + [];
        assert prefix + [] == prefix;
      }
    }
  }

  lemma {:induction false} DropExpiredCount(cs: seq<KeyedCookie>, current: Time, key: Option<string>, other: Option<string>)
    ensures CountInScope(DropExpired(cs, current, key), other) <= CountInScope(cs, other)
    decreases |cs|
  {
    if cs != [] {
      var e := cs[|cs| - 1];
      var prefix := DropExpired(cs[..|cs| - 1], current, key);
      DropExpiredCount(cs[..|cs| - 1], current, key, other);
      if !(InScope(e, key) && IsExpired(e.cookie, current)) {
        CountInScopeAppend(prefix, [e], other);
        assert [e][..0] == [];
      } else {
        assert DropExpired(cs, current, key) == prefix + [];
        assert prefix + [] == prefix;
      }
    }
  }

  /** The oldest entry in scope among the first `n`; the first of equals. */
  function OldestBefore(cs: seq<KeyedCookie>, key: Option<string>, n: nat): (r: Option<nat>)
    requires n <= |cs|
    ensures r.Some? ==> r.value < n && InScope(cs[r.value], key)
    ensures r.Some? ==> forall j :: 0 <= j < n && InScope(cs[j], key) ==>
      cs[r.value].cookie.creation <= cs[j].cookie.creation
    ensures r.None? ==> forall j :: 0 <= j < n ==> !InScope(cs[j], key)
    decreases n
  {
    if n == 0 then None
    else
      var m := OldestBefore(cs, key, n - 1);
      if !InScope(cs[n - 1], key) then m
      else if m.None? || cs[n - 1].cookie.creation < cs[m.value].cookie.creation then Some(n - 1)
      else m
  }

  /** The oldest entry in scope; there is one when the count in scope is positive. */
  function Oldest(cs: seq<KeyedCookie>, key: Option<string>): (r: nat)
    requires CountInScope(cs, key) > 0
    ensures r < |cs| && InScope(cs[r], key)
    ensures forall j :: 0 <= j < |cs| && InScope(cs[j], key) ==> cs[r].cookie.creation <= cs[j].cookie.creation
  {
    CountInScopePositive(cs, key);
    OldestBefore(cs, key, |cs|).value
  }

  /** `partial_sort` with `OldestCookieSorter` followed by deletion, read as
      `k` deletions of the oldest entry in scope. */
  function Purge(cs: seq<KeyedCookie>, key: Option<string>, k: nat): (r: seq<KeyedCookie>)
    requires k <= CountInScope(cs, key)
    ensures |r| == |cs| - k
    ensures CountInScope(r, key) == CountInScope(cs, key) - k
    decreases k
  {
    if k == 0 then cs
    else
      var idx := Oldest(cs, key);
      RemoveAtCount(cs, idx, key);
      Purge(RemoveAt(cs, idx), key, k - 1)
  }

  /** The entries `Purge` deletes, oldest first. */
  function Purged(cs: seq<KeyedCookie>, key: Option<string>, k: nat): (r: seq<KeyedCookie>)
    requires k <= CountInScope(cs, key)
    ensures |r| == k
    decreases k
  {
    if k == 0 then []
    else
      var idx := Oldest(cs, key);
      RemoveAtCount(cs, idx, key);
      [cs[idx]] + Purged(RemoveAt(cs, idx), key, k - 1)
  }

  lemma {:induction false} PurgeSubset(cs: seq<KeyedCookie>, key: Option<string>, k: nat)
    requires k <= CountInScope(cs, key)
    ensures forall e :: e in Purge(cs, key, k) ==> e in cs
    decreases k
  {
    if k > 0 {
      var idx := Oldest(cs, key);
      RemoveAtCount(cs, idx, key);
      PurgeSubset(RemoveAt(cs, idx), key, k - 1);
    }
  }

  lemma PurgeMember(cs: seq<KeyedCookie>, key: Option<string>, k: nat, e: KeyedCookie)
    requires k <= CountInScope(cs, key) && e in Purge(cs, key, k)
    ensures e in cs
  {
    PurgeSubset(cs, key, k);
  }

  /** The second pass of `GarbageCollectRange` on the live entries: when more
      than `numMax` are in scope, the oldest are deleted until
      `numMax - numPurge` are left. */
  function TrimToLimit(live: seq<KeyedCookie>, key: Option<string>, numMax: nat, numPurge: nat): seq<KeyedCookie>
    requires numPurge <= numMax
  {
    var n := CountInScope(live, key);
    if n > numMax then Purge(live, key, numPurge + n - numMax) else live
  }

  /** What `GarbageCollectRange` leaves in the map. */
  function CollectRange(cs: seq<KeyedCookie>, current: Time, key: Option<string>, numMax: nat, numPurge: nat)
      : seq<KeyedCookie>
    requires numPurge <= numMax
  {
    TrimToLimit(DropExpired(cs, current, key), key, numMax, numPurge)
  }

  /** One step of `Purge` and `Purged`: the oldest entry in scope goes first. */
  lemma PurgeUnfold(cs: seq<KeyedCookie>, key: Option<string>, k: nat)
    requires 0 < k <= CountInScope(cs, key)
    ensures var idx := Oldest(cs, key);
      var rest := RemoveAt(cs, idx);
      k - 1 <= CountInScope(rest, key)
      && Purge(cs, key, k) == Purge(rest, key, k - 1)
      && Purged(cs, key, k) == [cs[idx]] + Purged(rest, key, k - 1)
  {
    RemoveAtCount(cs, Oldest(cs, key), key);
  }

  /** Where an entry kept or deleted by `Purge` is after its first step. */
  lemma PurgeStepMembers(cs: seq<KeyedCookie>, key: Option<string>, k: nat, d: KeyedCookie, e: KeyedCookie)
    requires 0 < k <= CountInScope(cs, key)
    ensures var idx := Oldest(cs, key);
      var rest := RemoveAt(cs, idx);
      k - 1 <= CountInScope(rest, key)
      && (e in Purge(cs, key, k) ==> e in Purge(rest, key, k - 1))
      && (d in Purged(cs, key, k) ==> d == cs[idx] || d in Purged(rest, key, k - 1))
  {
    PurgeUnfold(cs, key, k);
  }

  /** `CollectRange` is the second pass applied to the first. */
  lemma CollectRangeTrims(cs: seq<KeyedCookie>, current: Time, key: Option<string>, numMax: nat, numPurge: nat)
    requires numPurge <= numMax
    ensures CollectRange(cs, current, key, numMax, numPurge)
      == TrimToLimit(DropExpired(cs, current, key), key, numMax, numPurge)
  {
  }

  /** The two cases of the second pass. */
  lemma TrimToLimitCases(live: seq<KeyedCookie>, key: Option<string>, numMax: nat, numPurge: nat)
    requires numPurge <= numMax
    ensures var n := CountInScope(live, key);
      && (n > numMax ==> TrimToLimit(live, key, numMax, numPurge) == Purge(live, key, numPurge + n - numMax))
      && (n <= numMax ==> TrimToLimit(live, key, numMax, numPurge) == live)
  {
  }

  /** Past the limit, `CollectRange` purges the excess and `numPurge` more. */
  lemma CollectRangeOver(cs: seq<KeyedCookie>, current: Time, key: Option<string>, numMax: nat, numPurge: nat,
                         kept: seq<KeyedCookie>, purge: nat)
    requires numPurge <= numMax && kept == DropExpired(cs, current, key)
    requires CountInScope(kept, key) > numMax && purge == numPurge + CountInScope(kept, key) - numMax
    ensures CollectRange(cs, current, key, numMax, numPurge) == Purge(kept, key, purge)
  {
    CollectRangeTrims(cs, current, key, numMax, numPurge);
    TrimToLimitCases(DropExpired(cs, current, key), key, numMax, numPurge);
  }

  lemma OldestNoNewer(cs: seq<KeyedCookie>, key: Option<string>, e: KeyedCookie)
    requires CountInScope(cs, key) > 0
    requires e in cs && InScope(e, key)
    ensures cs[Oldest(cs, key)].cookie.creation <= e.cookie.creation
  {
    var j :| 0 <= j < |cs| && cs[j] == e;
    assert InScope(cs[j], key);
  }

  /** The first entry `Purge` deletes is no newer than any kept entry in scope. */
  lemma OldestNoNewerThanKept(cs: seq<KeyedCookie>, key: Option<string>, k: nat, e: KeyedCookie)
    requires 0 < k <= CountInScope(cs, key)
    requires e in Purge(cs, key, k) && InScope(e, key)
    ensures cs[Oldest(cs, key)].cookie.creation <= e.cookie.creation
  {
    var rest := RemoveAt(cs, Oldest(cs, key));
    PurgeStepMembers(cs, key, k, e, e);
    PurgeMember(rest, key, k - 1, e);
    OldestNoNewer(cs, key, e);
  }

  /** Every deleted entry is at least as old as every kept entry in scope. */
  lemma {:induction false} PurgeTakesOldest(cs: seq<KeyedCookie>, key: Option<string>, k: nat,
                                            d: KeyedCookie, e: KeyedCookie)
    requires k <= CountInScope(cs, key)
    requires d in Purged(cs, key, k) && e in Purge(cs, key, k) && InScope(e, key)
    ensures d.cookie.creation <= e.cookie.creation
    decreases k
  {
    var idx := Oldest(cs, key);
    var rest := RemoveAt(cs, idx);
    PurgeStepMembers(cs, key, k, d, e);
    if d == cs[idx] {
      OldestNoNewerThanKept(cs, key, k, e);
    } else {
      PurgeTakesOldest(rest, key, k - 1, d, e);
    }
  }

  lemma RemoveAtMultiset(cs: seq<KeyedCookie>, i: nat)
    requires i < |cs|
    ensures multiset(RemoveAt(cs, i)) + multiset{cs[i]} == multiset(cs)
  {
    assert cs == cs[..i] + [cs[i]] + cs[i + 1..];
  }

  /** The kept and the deleted entries together are the entries before. */
  lemma {:induction false} PurgePartition(cs: seq<KeyedCookie>, key: Option<string>, k: nat)
    requires k <= CountInScope(cs, key)
    ensures multiset(Purge(cs, key, k)) + multiset(Purged(cs, key, k)) == multiset(cs)
    decreases k
  {
    if k > 0 {
      var idx := Oldest(cs, key);
      var rest := RemoveAt(cs, idx);
      PurgeUnfold(cs, key, k);
      PurgePartition(rest, key, k - 1);
      RemoveAtMultiset(cs, idx);
      assert multiset(Purged(cs, key, k)) == multiset{cs[idx]} + multiset(Purged(rest, key, k - 1));
    }
  }

  lemma {:induction false} PurgeOutside(cs: seq<KeyedCookie>, key: Option<string>, k: nat)
    requires k <= CountInScope(cs, key)
    ensures Outside(Purge(cs, key, k), key) == Outside(cs, key)
    decreases k
  {
    if k > 0 {
      var idx := Oldest(cs, key);
      RemoveAtCount(cs, idx, key);
      RemoveAtOutside(cs, idx, key);
      PurgeOutside(RemoveAt(cs, idx), key, k - 1);
    }
  }

  lemma {:induction false} PurgeCount(cs: seq<KeyedCookie>, key: Option<string>, k: nat, other: Option<string>)
    requires k <= CountInScope(cs, key)
    ensures CountInScope(Purge(cs, key, k), other) <= CountInScope(cs, other)
    decreases k
  {
    if k > 0 {
      var idx := Oldest(cs, key);
      RemoveAtCount(cs, idx, key);
      RemoveAtCount(cs, idx, other);
      PurgeCount(RemoveAt(cs, idx), key, k - 1, other);
    }
  }

  /** Garbage collection of a range leaves the entries out of scope untouched. */
  lemma CollectRangeOutside(cs: seq<KeyedCookie>, current: Time, key: Option<string>, numMax: nat, numPurge: nat)
    requires numPurge <= numMax
    ensures Outside(CollectRange(cs, current, key, numMax, numPurge), key) == Outside(cs, key)
  {
    var live := DropExpired(cs, current, key);
    var n := CountInScope(live, key);
    DropExpiredOutside(cs, current, key);
    if n > numMax {
      PurgeOutside(live, key, numPurge + n - numMax);
    }
  }

  /** No expired entry in scope survives a collection of the range. */
  lemma CollectRangeLive(cs: seq<KeyedCookie>, current: Time, key: Option<string>, numMax: nat, numPurge: nat)
    requires numPurge <= numMax
    ensures forall e :: e in CollectRange(cs, current, key, numMax, numPurge) && InScope(e, key) ==>
      e in cs && !IsExpired(e.cookie, current)
  {
    var live := DropExpired(cs, current, key);
    var n := CountInScope(live, key);
    var r := CollectRange(cs, current, key, numMax, numPurge);
    assert forall e :: e in r ==> e in live by {
      if n > numMax {
        PurgeSubset(live, key, numPurge + n - numMax);
      }
    }
    DropExpiredMembers(cs, current, key);
  }

  /** With at most `numMax` live entries in scope, only the expired ones go. */
  lemma CollectRangeUnderLimit(cs: seq<KeyedCookie>, current: Time, key: Option<string>, numMax: nat, numPurge: nat)
    requires numPurge <= numMax
    requires CountInScope(DropExpired(cs, current, key), key) <= numMax
    ensures forall e :: e in CollectRange(cs, current, key, numMax, numPurge) <==>
      e in cs && !(InScope(e, key) && IsExpired(e.cookie, current))
  {
    DropExpiredMembers(cs, current, key);
  }

  /** With more than `numMax` live entries in scope, exactly
      `numMax - numPurge` of them are kept. */
  lemma CollectRangeOverLimit(cs: seq<KeyedCookie>, current: Time, key: Option<string>, numMax: nat, numPurge: nat)
    requires numPurge <= numMax
    requires CountInScope(DropExpired(cs, current, key), key) > numMax
    ensures CountInScope(CollectRange(cs, current, key, numMax, numPurge), key) == numMax - numPurge
  {
    var live := DropExpired(cs, current, key);
    assert CollectRange(cs, current, key, numMax, numPurge) == TrimToLimit(live, key, numMax, numPurge);
  }

  /** Each live entry in scope that the second pass deletes is no newer than
      any entry in scope that is kept. */
  lemma CollectRangeKeepsNewest(cs: seq<KeyedCookie>, current: Time, key: Option<string>, numMax: nat, numPurge: nat,
                                d: KeyedCookie, e: KeyedCookie)
    requires numPurge <= numMax
    requires CountInScope(DropExpired(cs, current, key), key) > numMax
    requires d in Purged(DropExpired(cs, current, key), key,
                         numPurge + CountInScope(DropExpired(cs, current, key), key) - numMax)
    requires e in CollectRange(cs, current, key, numMax, numPurge) && InScope(e, key)
    ensures d.cookie.creation <= e.cookie.creation
  {
    var live := DropExpired(cs, current, key);
    var k := numPurge + CountInScope(live, key) - numMax;
    CollectRangeOver(cs, current, key, numMax, numPurge, live, k);
    PurgeTakesOldest(live, key, k, d, e);
  }

  /** After collecting a range at most `numMax` entries are left in scope. */
  lemma CollectRangeBound(cs: seq<KeyedCookie>, current: Time, key: Option<string>, numMax: nat, numPurge: nat)
    requires numPurge <= numMax
    ensures CountInScope(CollectRange(cs, current, key, numMax, numPurge), key) <= numMax
  {
    if CountInScope(DropExpired(cs, current, key), key) > numMax {
      CollectRangeOverLimit(cs, current, key, numMax, numPurge);
    }
  }

  lemma TrimToLimitCount(live: seq<KeyedCookie>, key: Option<string>, numMax: nat, numPurge: nat, other: Option<string>)
    requires numPurge <= numMax
    ensures CountInScope(TrimToLimit(live, key, numMax, numPurge), other) <= CountInScope(live, other)
  {
    var n := CountInScope(live, key);
    TrimToLimitCases(live, key, numMax, numPurge);
    if n > numMax {
      PurgeCount(live, key, numPurge + n - numMax, other);
    }
  }

  /** Collecting one range never adds entries under any key. */
  lemma CollectRangeCount(cs: seq<KeyedCookie>, current: Time, key: Option<string>, numMax: nat, numPurge: nat,
                          other: Option<string>)
    requires numPurge <= numMax
    ensures CountInScope(CollectRange(cs, current, key, numMax, numPurge), other) <= CountInScope(cs, other)
  {
    DropExpiredCount(cs, current, key, other);
    TrimToLimitCount(DropExpired(cs, current, key), key, numMax, numPurge, other);
  }

  /** Limits of `GarbageCollect`, after Mozilla's. */
  const NumCookiesPerHost: nat := 70
  const NumCookiesPerHostPurge: nat := 20
  const NumCookiesTotal: nat := 1100
  const NumCookiesTotalPurge: nat := 100

  /** What `GarbageCollect` leaves in the map. */
  function CollectGarbage(cs: seq<KeyedCookie>, current: Time, key: string): seq<KeyedCookie>
  {
    var afterHost :=
      if CountInScope(cs, Some(key)) > NumCookiesPerHost
      then CollectRange(cs, current, Some(key), NumCookiesPerHost, NumCookiesPerHostPurge)
      else cs;
    if |afterHost| > NumCookiesTotal
    then CollectRange(afterHost, current, None, NumCookiesTotal, NumCookiesTotalPurge)
    else afterHost
  }

  /** After `GarbageCollect` the key holds at most `kNumCookiesPerHost`
      cookies and the map at most `kNumCookiesTotal`. */
  lemma CollectGarbageBounds(cs: seq<KeyedCookie>, current: Time, key: string)
    ensures CountInScope(CollectGarbage(cs, current, key), Some(key)) <= NumCookiesPerHost
    ensures |CollectGarbage(cs, current, key)| <= NumCookiesTotal
  {
    var afterHost :=
      if CountInScope(cs, Some(key)) > NumCookiesPerHost
      then CollectRange(cs, current, Some(key), NumCookiesPerHost, NumCookiesPerHostPurge)
      else cs;
    if CountInScope(cs, Some(key)) > NumCookiesPerHost {
      CollectRangeBound(cs, current, Some(key), NumCookiesPerHost, NumCookiesPerHostPurge);
    }
    assert CountInScope(afterHost, Some(key)) <= NumCookiesPerHost;
    if |afterHost| > NumCookiesTotal {
      CollectRangeCount(afterHost, current, None, NumCookiesTotal, NumCookiesTotalPurge, Some(key));
      CollectRangeBound(afterHost, current, None, NumCookiesTotal, NumCookiesTotalPurge);
    }
  }

  /** A cookie `DeleteAllCreatedBetween(begin, end)` deletes: created at or
      after `begin` and before `end`, a null `end` meaning no upper bound. */
  predicate CreatedBetween(c: Cookie, deleteBegin: Time, deleteEnd: Time)
  {
    c.creation >= deleteBegin && (deleteEnd == NullTime || c.creation < deleteEnd)
  }

  /** The entries `DeleteAllCreatedBetween` keeps, in order. */
  function KeepOutsideBetween(cs: seq<KeyedCookie>, deleteBegin: Time, deleteEnd: Time): seq<KeyedCookie>
  {
    if cs == [] then []
    else
      var e := cs[|cs| - 1];
      KeepOutsideBetween(cs[..|cs| - 1], deleteBegin, deleteEnd)
        + (if CreatedBetween(e.cookie, deleteBegin, deleteEnd) then [] else [e])
  }

  /** The number of entries created in the window. */
  function CountBetween(cs: seq<KeyedCookie>, deleteBegin: Time, deleteEnd: Time): nat
  {
    if cs == [] then 0
    else
      (if CreatedBetween(cs[0].cookie, deleteBegin, deleteEnd) then 1 else 0)
      + CountBetween(cs[1..], deleteBegin, deleteEnd)
  }

  lemma {:induction false} CountBetweenAppend(a: seq<KeyedCookie>, b: seq<KeyedCookie>, deleteBegin: Time, deleteEnd: Time)
    ensures CountBetween(a + b, deleteBegin, deleteEnd) == CountBetween(a, deleteBegin, deleteEnd) + CountBetween(b, deleteBegin, deleteEnd)
    decreases |a|
  {
    if a == [] {
      assert a + b == b;
    } else {
      assert (a + b)[1..] == a[1..] + b;
      CountBetweenAppend(a[1..], b, deleteBegin, deleteEnd);
    }
  }

  /** An entry is kept iff it was not created in the window, the order of
      the kept entries is preserved, and as many entries go as were created
      in the window. */
  lemma {:induction false} DeleteBetweenSpec(cs: seq<KeyedCookie>, deleteBegin: Time, deleteEnd: Time)
    ensures var r := KeepOutsideBetween(cs, deleteBegin, deleteEnd);
      && (forall e :: e in r <==> e in cs && !CreatedBetween(e.cookie, deleteBegin, deleteEnd))
      && |cs| - |r| == CountBetween(cs, deleteBegin, deleteEnd)
    decreases |cs|
  {
    if cs != [] {
      var e := cs[|cs| - 1];
      var init := cs[..|cs| - 1];
      DeleteBetweenSpec(init, deleteBegin, deleteEnd);
      assert cs == init + [e];
      CountBetweenAppend(init, [e], deleteBegin, deleteEnd);
      assert CountBetween([e], deleteBegin, deleteEnd) == if CreatedBetween(e.cookie, deleteBegin, deleteEnd) then 1 else 0;
    }
  }

  /** The map of `CookieMonster`: its entries in iteration order and the last
      creation time handed out. */
  class CookieMonster {
    var cookies: seq<KeyedCookie>
    var lastTimeSeen: Time

    constructor ()
      ensures cookies == [] && lastTimeSeen == NullTime
    {
      cookies := [];
      lastTimeSeen := NullTime;
    }

    /** `CurrentTime`, with the clock reading `now` as a parameter: the
        least time that is not before `now` and after the last one seen. */
    method CurrentTime(now: Time) returns (t: Time)
      ensures t >= now && t > lastTimeSeen
      ensures t == now || t == lastTimeSeen + 1
    {
      t := if now >= lastTimeSeen + 1 then now else lastTimeSeen + 1;
    }

    /** `DeleteAll`: empties the map and returns how many entries it held. */
    method DeleteAll() returns (numDeleted: nat)
      modifies this`cookies
      ensures cookies == [] && numDeleted == |old(cookies)|
    {
      numDeleted := 0;
      while cookies != []
        invariant numDeleted + |cookies| == |old(cookies)|
        decreases |cookies|
      {
        cookies := cookies[1..];
        numDeleted := numDeleted + 1;
      }
    }

    /** `DeleteAllCreatedBetween`: deletes the entries created in the window
        and returns how many it deleted. */
    method DeleteAllCreatedBetween(deleteBegin: Time, deleteEnd: Time) returns (numDeleted: nat)
      modifies this`cookies
      ensures cookies == KeepOutsideBetween(old(cookies), deleteBegin, deleteEnd)
      ensures numDeleted == CountBetween(old(cookies), deleteBegin, deleteEnd)
    {
      var kept: seq<KeyedCookie> := [];
      numDeleted := 0;
      for i := 0 to |cookies|
        invariant kept == KeepOutsideBetween(cookies[..i], deleteBegin, deleteEnd)
        invariant numDeleted == i - |kept|
      {
        assert cookies[..i + 1][..i] == cookies[..i];
        if CreatedBetween(cookies[i].cookie, deleteBegin, deleteEnd) {
          numDeleted := numDeleted + 1;
        } else {
          kept := kept + [cookies[i]];
        }
      }
      assert cookies[..|cookies|] == cookies;
      DeleteBetweenSpec(cookies, deleteBegin, deleteEnd);
      cookies := kept;
    }

    /** `GarbageCollectRange`: deletes the expired entries in scope, then,
        when more than `numMax` live entries remain in scope, the
        `numPurge` plus excess oldest of them. Returns how many it deleted. */
    method GarbageCollectRange(current: Time, key: Option<string>, numMax: nat, numPurge: nat)
        returns (numDeleted: nat)
      requires numPurge <= numMax
      modifies this`cookies
      ensures cookies == CollectRange(old(cookies), current, key, numMax, numPurge)
      ensures numDeleted == |old(cookies)| - |cookies|
    {
      var kept, survivors := DeleteExpired(cookies, current, key);
      var result := kept;
      if survivors > numMax {
        var purge := numPurge + survivors - numMax;
        result := PurgeOldest(kept, key, purge);
        assert result == CollectRange(cookies, current, key, numMax, numPurge) by {
          CollectRangeOver(cookies, current, key, numMax, numPurge, kept, purge);
        }
      } else {
        assert result == CollectRange(cookies, current, key, numMax, numPurge) by {
          CollectRangeTrims(cookies, current, key, numMax, numPurge);
        }
      }
      numDeleted := |cookies| - |result|;
      cookies := result;
    }

    /** `GarbageCollect(current, key)`: collects the key's range when it
        holds more than `kNumCookiesPerHost` entries, then the whole map
        when it holds more than `kNumCookiesTotal`. */
    method GarbageCollect(current: Time, key: string) returns (numDeleted: nat)
      modifies this`cookies
      ensures cookies == CollectGarbage(old(cookies), current, key)
      ensures numDeleted == |old(cookies)| - |cookies|
    {
      numDeleted := 0;
      if CountInScope(cookies, Some(key)) > NumCookiesPerHost {
        numDeleted := GarbageCollectRange(current, Some(key), NumCookiesPerHost, NumCookiesPerHostPurge);
      }
      if |cookies| > NumCookiesTotal {
        var more := GarbageCollectRange(current, None, NumCookiesTotal, NumCookiesTotalPurge);
        numDeleted := numDeleted + more;
      }
    }
  }

  /** The second pass of `GarbageCollectRange`: deletes the `purge` oldest
      entries in scope, one `InternalDeleteCookie` at a time. */
  method PurgeOldest(cs: seq<KeyedCookie>, key: Option<string>, purge: nat) returns (r: seq<KeyedCookie>)
    requires purge <= CountInScope(cs, key)
    ensures r == Purge(cs, key, purge)
  {
    r := cs;
    for j := 0 to purge
      invariant CountInScope(r, key) == CountInScope(cs, key) - j
      invariant Purge(r, key, purge - j) == Purge(cs, key, purge)
    {
      var idx := FindOldest(r, key);
      RemoveAtCount(r, idx, key);
      r := RemoveAt(r, idx);
    }
  }

  /** The first pass of `GarbageCollectRange`: the entries kept and how many
      of them are in scope (`cookie_its.size()`). */
  method DeleteExpired(cs: seq<KeyedCookie>, current: Time, key: Option<string>)
      returns (kept: seq<KeyedCookie>, survivors: nat)
    ensures kept == DropExpired(cs, current, key)
    ensures survivors == CountInScope(kept, key)
  {
    kept := [];
    survivors := 0;
    for i := 0 to |cs|
      invariant kept == DropExpired(cs[..i], current, key)
      invariant survivors == CountInScope(kept, key)
    {
      assert cs[..i + 1][..i] == cs[..i];
      var e := cs[i];
      if !(InScope(e, key) && IsExpired(e.cookie, current)) {
        kept := kept + [e];
        if InScope(e, key) {
          survivors := survivors + 1;
        }
      }
    }
    assert cs[..|cs|] == cs;
  }

  /** The index of the oldest entry in scope (the first of equals). */
  method FindOldest(cs: seq<KeyedCookie>, key: Option<string>) returns (idx: nat)
    requires CountInScope(cs, key) > 0
    ensures idx == Oldest(cs, key)
  {
    CountInScopePositive(cs, key);
    var best: Option<nat> := None;
    for n := 0 to |cs|
      invariant best == OldestBefore(cs, key, n)
    {
      if InScope(cs[n], key) && (best.None? || cs[n].cookie.creation < cs[best.value].cookie.creation) {
        best := Some(n);
      }
    }
    idx := best.value;
  }
}
