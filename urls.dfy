/** The URL handling the crawler borrows from Python's `urllib.parse`:
    `urlparse` (ParseUrl), `geturl`/`urlunparse` (UnparseUrl) and `urljoin`
    (JoinUrl), plus the crawler's own normalisation of a page address
    (main.py line 39: clear the query and the fragment, keep the rest). */
module Urls {
  import opened Strings

  /** The six components `urlparse` returns. */
  datatype Url = Url(scheme: string, netloc: string, path: string,
                     params: string, query: string, fragment: string)

  /** Schemes for which `urljoin` resolves relative references. */
  const UsesRelative: set<string> :=
    {"", "ftp", "http", "gopher", "nntp", "imap", "wais", "file", "https", "shttp",
     "mms", "prospero", "rtsp", "rtsps", "rtspu", "sftp", "svn", "svn+ssh", "ws", "wss"}

  /** Schemes that carry an authority (`//netloc`). */
  const UsesNetloc: set<string> :=
    {"", "ftp", "http", "gopher", "nntp", "telnet", "imap", "wais", "file", "mms",
     "https", "shttp", "snews", "prospero", "rtsp", "rtsps", "rtspu", "rsync", "svn",
     "svn+ssh", "sftp", "nfs", "git", "git+ssh", "ws", "wss", "itms-services"}

  /** Schemes whose last path segment may carry `;params`. */
  const UsesParams: set<string> :=
    {"", "ftp", "hdl", "prospero", "http", "imap", "https", "shttp", "rtsp", "rtsps", "rtspu",
     "sip", "sips", "mms", "sftp", "tel"}

  /** Characters that end the authority part. */
  const AuthorityEnd: set<char> := {'/', '?', '#'}

  predicate IsAsciiLetter(c: char)
  {
    'a' <= c <= 'z' || 'A' <= c <= 'Z'
  }

  predicate IsSchemeChar(c: char)
  {
    IsAsciiLetter(c) || '0' <= c <= '9' || c == '+' || c == '-' || c == '.'
  }

  /** A non-empty run of scheme characters that starts with a letter. */
  predicate IsSchemeName(s: string)
  {
    |s| > 0 && IsAsciiLetter(s[0]) && forall k :: 0 <= k < |s| ==> IsSchemeChar(s[k])
  }

  /** A scheme as `urlparse` returns it: a scheme name in lower case. */
  predicate IsLowerScheme(s: string)
  {
    IsSchemeName(s) && forall k :: 0 <= k < |s| ==> !('A' <= s[k] <= 'Z')
  }

  function LowerChar(c: char): char
  {
    if 'A' <= c <= 'Z' then (c as int + 32) as char else c
  }

  /** `str.lower` on a scheme name: lower-casing turns a scheme name into a
      scheme as `urlparse` returns it, and leaves such a scheme as it is. */
  function ToLower(s: string): (r: string)
    ensures |r| == |s|
    ensures IsSchemeName(s) ==> IsLowerScheme(r)
    ensures IsLowerScheme(s) ==> r == s
  {
    seq(|s|, k requires 0 <= k < |s| => LowerChar(s[k]))
  }

  // ---------------------------------------------------------------------
  // urlsplit's clean-up of its input (CPython 3.12.13).
  // ---------------------------------------------------------------------

  /** Tab, carriage return and line feed: `urlsplit` deletes them wherever
      they occur. */
  const Unsafe: set<char> := {'\t', '\r', '\n'}

  /** The C0 control characters and the space (code points 0 to 32). */
  predicate IsC0OrSpace(c: char)
  {
    c <= ' '
  }

  /** `s.lstrip(...)` with the C0 controls and the space: what is left does
      not start with one of them. */
  function LStrip(s: string): (r: string)
    ensures r == [] || !IsC0OrSpace(r[0])
    decreases |s|
  {
    if s != [] && IsC0OrSpace(s[0]) then LStrip(s[1..]) else s
  }

  /** `s.rstrip(...)` with the C0 controls and the space: what is left does
      not end with one of them. */
  function RStrip(s: string): (r: string)
    ensures r == [] || !IsC0OrSpace(r[|r| - 1])
    decreases |s|
  {
    if s != [] && IsC0OrSpace(s[|s| - 1]) then RStrip(s[..|s| - 1]) else s
  }

  /** `s.replace("\t", "").replace("\r", "").replace("\n", "")`: the result
      holds none of those three. */
  function RemoveUnsafe(s: string): (r: string)
    ensures NoneOf(r, Unsafe)
    decreases |s|
  {
    if s == [] then []
    else if s[0] in Unsafe then RemoveUnsafe(s[1..])
    else [s[0]] + RemoveUnsafe(s[1..])
  }

  /** Deleting characters adds none: what the text avoids, the result
      avoids. */
  lemma {:induction false} RemoveUnsafeNoneOf(s: string, cs: set<char>)
    requires NoneOf(s, cs)
    ensures NoneOf(RemoveUnsafe(s), cs)
    decreases |s|
  {
    if s != [] {
      assert NoneOf(s[1..], cs);
      RemoveUnsafeNoneOf(s[1..], cs);
    }
  }

  /** A text without tabs and line breaks is left as it is. */
  lemma {:induction false} RemoveUnsafeKeeps(s: string)
    requires NoneOf(s, Unsafe)
    ensures RemoveUnsafe(s) == s
    decreases |s|
  {
    if s != [] {
      assert NoneOf(s[1..], Unsafe);
      RemoveUnsafeKeeps(s[1..]);
      assert s == [s[0]] + s[1..];
    }
  }

  /** Deleting the unsafe characters works piece by piece. */
  lemma {:induction false} RemoveUnsafeAppend(a: string, b: string)
    ensures RemoveUnsafe(a + b) == RemoveUnsafe(a) + RemoveUnsafe(b)
    decreases |a|
  {
    if a == [] {
      assert a + b == b;
    } else {
      assert (a + b)[1..] == a[1..] + b;
      RemoveUnsafeAppend(a[1..], b);
    }
  }

  /** `urlsplit`'s clean-up of the address: strip C0 controls and spaces
      from the left only, then delete tabs, carriage returns and line
      feeds. */
  function CleanUrl(s: string): string
  {
    RemoveUnsafe(LStrip(s))
  }

  /** The cleaned address holds no tab or line break and does not start with
      a control character or a space. */
  lemma {:induction false} CleanUrlClean(s: string)
    ensures NoneOf(CleanUrl(s), Unsafe)
    ensures CleanUrl(s) == [] || !IsC0OrSpace(CleanUrl(s)[0])
  {
    var t := LStrip(s);
    if t != [] {
      assert !IsC0OrSpace(t[0]);
      assert t[0] !in Unsafe;
      var r := RemoveUnsafe(t);
      assert r == [t[0]] + RemoveUnsafe(t[1..]);
      assert r[0] == t[0];
    }
  }

  /** The clean-up leaves a text unchanged exactly when it holds no tab or
      line break and does not start with a control character or a space. */
  lemma {:induction false} CleanUrlKeeps(s: string)
    ensures CleanUrl(s) == s <==> NoneOf(s, Unsafe) && (s == [] || !IsC0OrSpace(s[0]))
  {
    if NoneOf(s, Unsafe) && (s == [] || !IsC0OrSpace(s[0])) {
      assert LStrip(s) == s;
      RemoveUnsafeKeeps(s);
    }
  }

  /** After a scheme and its ':', the clean-up only deletes tabs and line
      breaks. */
  lemma {:induction false} CleanUrlAfterScheme(scheme: string, rest: string)
    requires IsSchemeName(scheme)
    ensures CleanUrl(scheme + ":" + rest) == scheme + ":" + RemoveUnsafe(rest)
  {
    var s := scheme + ":" + rest;
    assert s[0] == scheme[0];
    assert LStrip(s) == s;
    RemoveUnsafeAppend(scheme + ":", rest);
    assert NoneOf(scheme + ":", Unsafe);
    RemoveUnsafeKeeps(scheme + ":");
  }

  /** The default scheme as `urlsplit` cleans it: stripped on both sides,
      then tabs and line breaks deleted. */
  function CleanScheme(s: string): string
  {
    RemoveUnsafe(RStrip(LStrip(s)))
  }

  /** The default schemes urljoin passes, "" or a parsed scheme, are
      already clean. */
  lemma {:induction false} CleanSchemeKeeps(s: string)
    requires s == "" || IsLowerScheme(s)
    ensures CleanScheme(s) == s
  {
    if s != "" {
      assert LStrip(s) == s;
      assert RStrip(s) == s;
      assert NoneOf(s, Unsafe);
      RemoveUnsafeKeeps(s);
    }
  }

  /** The text before the first ':' is a scheme name (urlsplit's test). */
  predicate HasScheme(s: string)
  {
    var i := FirstOf(s, {':'});
    0 < i < |s| && IsSchemeName(s[..i])
  }

  /** urlsplit's first step after the clean-up: the lower-cased scheme and the text after its
      ':', or the default scheme and the whole text. */
  function SplitScheme(s: string, defaultScheme: string): (string, string)
  {
    var i := FirstOf(s, {':'});
    if 0 < i < |s| && IsSchemeName(s[..i]) then (ToLower(s[..i]), s[i + 1..])
    else (defaultScheme, s)
  }

  /** urlsplit's second step: after a leading "//", the authority runs up to
      the first '/', '?' or '#'. */
  function SplitNetloc(s: string): (string, string)
  {
    if StartsWith(s, "//") then
      var j := FirstOf(s[2..], AuthorityEnd);
      (s[2..2 + j], s[2 + j..])
    else ("", s)
  }

  /** The authority holds none of the characters that end it, and what
      follows it is empty or starts with one of them. */
  lemma {:induction false} SplitNetlocParts(s: string)
    ensures NoneOf(SplitNetloc(s).0, AuthorityEnd)
    ensures StartsWith(s, "//") ==> SplitNetloc(s).1 == "" || SplitNetloc(s).1[0] in AuthorityEnd
    ensures !StartsWith(s, "//") ==> SplitNetloc(s) == ("", s)
  {
    if StartsWith(s, "//") {
      var j := FirstOf(s[2..], AuthorityEnd);
      FirstOfSkips(s[2..], AuthorityEnd);
      assert s[2..][..j] == s[2..2 + j];
      assert s[2..][j..] == s[2 + j..];
    }
  }

  /** `s.split(c, 1)` when `c` occurs in `s`, and `(s, "")` otherwise. */
  function SplitOnce(s: string, c: char): (string, string)
  {
    var i := FirstOf(s, {c});
    if i < |s| then (s[..i], s[i + 1..]) else (s, "")
  }

  /** The part before the separator is a prefix without it; when the
      separator occurs, the text is the two parts joined by it. */
  lemma {:induction false} SplitOnceParts(s: string, c: char)
    ensures c !in SplitOnce(s, c).0 && IsPrefix(SplitOnce(s, c).0, s)
    ensures c in s ==> s == SplitOnce(s, c).0 + [c] + SplitOnce(s, c).1
    ensures c !in s ==> SplitOnce(s, c) == (s, "")
  {
    var i := FirstOf(s, {c});
    FirstOfSkips(s, {c});
    if i < |s| {
      assert s == s[..i] + [c] + s[i + 1..];
    } else {
      assert s[..i] == s;
    }
  }

  /** Start of the last path segment: just after the last '/', or 0. */
  function LastSegmentStart(p: string): (k: nat)
    ensures k <= |p|
    ensures k > 0 ==> p[k - 1] == '/'
  {
    if p == [] then 0
    else if p[|p| - 1] == '/' then |p|
    else LastSegmentStart(p[..|p| - 1])
  }

  /** The last segment holds no '/'. */
  lemma {:induction false} LastSegmentHasNoSlash(p: string)
    ensures '/' !in p[LastSegmentStart(p)..]
    decreases |p|
  {
    if p != [] && p[|p| - 1] != '/' {
      var q := p[..|p| - 1];
      LastSegmentHasNoSlash(q);
      assert p[LastSegmentStart(p)..] == q[LastSegmentStart(q)..] + [p[|p| - 1]];
    }
  }

  /** `_splitparams`: the `;params` start at the first ';' of the last path
      segment. */
  function SplitParams(p: string): (string, string)
  {
    var k := LastSegmentStart(p);
    var (segment, params) := SplitOnce(p[k..], ';');
    (p[..k] + segment, params)
  }

  /** The path SplitParams returns is a prefix of its input, and putting
      `;params` back gives the input. */
  lemma {:induction false} SplitParamsRejoin(p: string)
    ensures IsPrefix(SplitParams(p).0, p)
    ensures SplitParams(p).1 != "" ==> p == SplitParams(p).0 + ";" + SplitParams(p).1
  {
    var k := LastSegmentStart(p);
    var tail := p[k..];
    var (segment, params) := SplitOnce(tail, ';');
    SplitOnceParts(tail, ';');
    TakeDrop(p, k);
    assert IsPrefix(p[..k] + segment, p[..k] + tail);
    if params != "" {
      assert tail == segment + [';'] + params;
      AppendAssoc(p[..k], segment + ";", params);
      AppendAssoc(p[..k], segment, ";");
    }
  }

  /** `urlparse(s, defaultScheme)`: clean both up, then split. */
  function ParseUrl(s: string, defaultScheme: string): Url
  {
    var (scheme, rest) := SplitScheme(CleanUrl(s), CleanScheme(defaultScheme));
    ParseRest(scheme, rest)
  }

  /** urlsplit and urlparse after the scheme: the authority, then the rest. */
  function ParseRest(scheme: string, rest: string): Url
  {
    var (netloc, afterNetloc) := SplitNetloc(rest);
    ParsePath(scheme, netloc, afterNetloc)
  }

  /** urlsplit and urlparse after the authority: fragment, query, then
      `;params`. */
  function ParsePath(scheme: string, netloc: string, s: string): Url
  {
    var (beforeFragment, fragment) := SplitOnce(s, '#');
    var (beforeQuery, query) := SplitOnce(beforeFragment, '?');
    var (path, params) := if scheme in UsesParams then SplitParams(beforeQuery) else (beforeQuery, "");
    Url(scheme, netloc, path, params, query, fragment)
  }

  /** The path with its `;params` put back. */
  function PathWithParams(u: Url): string
  {
    if u.params != "" then u.path + ";" + u.params else u.path
  }

  /** `urlunsplit` writes a "//" authority marker: there is an authority,
      or the path itself starts with "//", or the scheme is one that carries
      an authority and the path is empty or rooted. */
  predicate WritesAuthority(u: Url)
  {
    var p := PathWithParams(u);
    u.netloc != "" || StartsWith(p, "//")
    || (u.scheme != "" && u.scheme in UsesNetloc && (p == "" || p[0] == '/'))
  }

  /** The path as written after an authority: rooted with '/' when needed. */
  function RootedPath(u: Url): string
  {
    var p := PathWithParams(u);
    if u.netloc != "" && p != "" && p[0] != '/' then "/" + p else p
  }

  /** The hierarchical part `urlunsplit` writes between the scheme and the
      query. */
  function HierPart(u: Url): string
  {
    if WritesAuthority(u) then "//" + u.netloc + RootedPath(u) else PathWithParams(u)
  }

  /** The query as `urlunsplit` appends it. */
  function QueryPart(query: string): string
  {
    if query != "" then "?" + query else ""
  }

  /** The fragment as `urlunsplit` appends it. */
  function FragmentPart(fragment: string): string
  {
    if fragment != "" then "#" + fragment else ""
  }

  function QueryFragment(u: Url): string
  {
    QueryPart(u.query) + FragmentPart(u.fragment)
  }

  /** `geturl()` / `urlunparse(u)`. */
  function UnparseUrl(u: Url): string
  {
    (if u.scheme != "" then u.scheme + ":" else "") + (HierPart(u) + QueryFragment(u))
  }

  /** The last path segment, where `;params` are looked for. */
  function LastSegment(p: string): string
  {
    p[LastSegmentStart(p)..]
  }

  /** No component but the scheme holds a tab or a line break. */
  predicate Safe(u: Url)
  {
    && NoneOf(u.netloc, Unsafe) && NoneOf(u.path, Unsafe) && NoneOf(u.params, Unsafe)
    && NoneOf(u.query, Unsafe) && NoneOf(u.fragment, Unsafe)
  }

  /** The records `urlparse(s, "")` can return. */
  predicate WellFormed(u: Url)
  {
    var p := PathWithParams(u);
    && (u.scheme == "" || IsLowerScheme(u.scheme))
    && Safe(u)
    && (u.scheme == "" ==> p == "" || !IsC0OrSpace(p[0]))
    && NoneOf(u.netloc, AuthorityEnd)
    && '?' !in p && '#' !in p && '#' !in u.query
    && (if u.scheme in UsesParams then '/' !in u.params && ';' !in LastSegment(u.path)
        else u.params == "")
    && (u.netloc != "" ==> p == "" || p[0] == '/')
    && (u.scheme == "" ==> !HasScheme(p))
  }

  // ---------------------------------------------------------------------
  // Everything urlparse returns is well formed.
  // ---------------------------------------------------------------------

  lemma {:induction false} LastSegmentStartAppend(a: string, b: string)
    requires '/' !in b
    ensures LastSegmentStart(a + b) == LastSegmentStart(a)
    decreases |b|
  {
    if b != [] {
      var c := a + b;
      assert c[..|c| - 1] == a + b[..|b| - 1];
      LastSegmentStartAppend(a, b[..|b| - 1]);
    } else {
      assert a + b == a;
    }
  }

  /** What SplitParams returns satisfies the `;params` clause of WellFormed. */
  lemma {:induction false} SplitParamsWellFormed(p: string)
    ensures '/' !in SplitParams(p).1
    ensures ';' !in LastSegment(SplitParams(p).0)
  {
    var k := LastSegmentStart(p);
    var tail := p[k..];
    var (segment, params) := SplitOnce(tail, ';');
    SplitOnceParts(tail, ';');
    LastSegmentHasNoSlash(p);
    PrefixNotIn(segment, tail, '/');
    assert '/' !in params by {
      if ';' in tail {
        assert tail == segment + [';'] + params;
      }
    }
    LastSegmentStartAppend(p[..k], segment);
    assert LastSegmentStart(p[..k]) == k by {
      if k > 0 {
        assert p[..k][k - 1] == '/';
      }
    }
    assert (p[..k] + segment)[k..] == segment;
  }

  /** A text that is empty or starts with '/' has no scheme. */
  lemma {:induction false} RootedNoScheme(p: string)
    requires p == "" || p[0] == '/'
    ensures !HasScheme(p)
  {
    var i := FirstOf(p, {':'});
    if 0 < i < |p| {
      assert p[..i][0] == '/';
    }
  }

  /** A prefix of a text without a scheme has no scheme either. */
  lemma {:induction false} NoSchemePrefix(p: string, s: string)
    requires IsPrefix(p, s) && !HasScheme(s)
    ensures !HasScheme(p)
  {
    var i := FirstOf(p, {':'});
    if i < |p| {
      TakeDrop(s, |p|);
      FirstOfWithin(p, s[|p|..], {':'});
      assert s[..i] == p[..i];
    }
  }

  /** Both parts of a split at a character avoid what the text avoids. */
  lemma {:induction false} SplitOnceNoneOf(s: string, c: char, cs: set<char>)
    requires NoneOf(s, cs)
    ensures NoneOf(SplitOnce(s, c).0, cs) && NoneOf(SplitOnce(s, c).1, cs)
  {
    var i := FirstOf(s, {c});
    if i < |s| {
      NoneOfSlice(s, 0, i, cs);
      NoneOfSlice(s, i + 1, |s|, cs);
      assert s[0..i] == s[..i] && s[i + 1..|s|] == s[i + 1..];
    }
  }

  /** Path and params avoid what the text avoids. */
  lemma {:induction false} SplitParamsNoneOf(p: string, cs: set<char>)
    requires NoneOf(p, cs)
    ensures NoneOf(SplitParams(p).0, cs) && NoneOf(SplitParams(p).1, cs)
  {
    var k := LastSegmentStart(p);
    NoneOfSlice(p, 0, k, cs);
    NoneOfSlice(p, k, |p|, cs);
    assert p[0..k] == p[..k] && p[k..|p|] == p[k..];
    SplitOnceNoneOf(p[k..], ';', cs);
    NoneOfAppend(p[..k], SplitOnce(p[k..], ';').0, cs);
  }

  /** Components cut from a text without tabs and line breaks have none. */
  lemma {:induction false} ParsePathSafe(scheme: string, netloc: string, s: string)
    requires NoneOf(netloc, Unsafe) && NoneOf(s, Unsafe)
    ensures Safe(ParsePath(scheme, netloc, s))
  {
    SplitOnceNoneOf(s, '#', Unsafe);
    var beforeFragment := SplitOnce(s, '#').0;
    SplitOnceNoneOf(beforeFragment, '?', Unsafe);
    SplitParamsNoneOf(SplitOnce(beforeFragment, '?').0, Unsafe);
  }

  /** What follows the authority parses into a path-with-params that is a
      prefix of the text and holds neither '?' nor '#', and into params
      that meet the `;params` clause of WellFormed. */
  lemma {:induction false} ParsePathFacts(scheme: string, netloc: string, s: string)
    ensures var u := ParsePath(scheme, netloc, s);
            var p := PathWithParams(u);
            && u.scheme == scheme && u.netloc == netloc
            && IsPrefix(p, s) && '?' !in p && '#' !in p && '#' !in u.query
            && (if scheme in UsesParams then '/' !in u.params && ';' !in LastSegment(u.path)
                else u.params == "")
  {
    var (beforeFragment, fragment) := SplitOnce(s, '#');
    SplitOnceParts(s, '#');
    var (beforeQuery, query) := SplitOnce(beforeFragment, '?');
    SplitOnceParts(beforeFragment, '?');
    var u := ParsePath(scheme, netloc, s);
    var p := PathWithParams(u);
    assert '#' !in query by {
      if '?' in beforeFragment {
        assert beforeFragment == beforeQuery + ['?'] + query;
      }
    }
    assert IsPrefix(p, beforeQuery) by {
      assert beforeQuery[..|beforeQuery|] == beforeQuery;
      if scheme in UsesParams {
        SplitParamsRejoin(beforeQuery);
      }
    }
    PrefixTrans(p, beforeQuery, beforeFragment);
    PrefixTrans(p, beforeFragment, s);
    PrefixNotIn(p, beforeQuery, '?');
    PrefixNotIn(beforeQuery, beforeFragment, '#');
    PrefixNotIn(p, beforeQuery, '#');
    if scheme in UsesParams {
      SplitParamsWellFormed(beforeQuery);
    }
  }

  /** What is left after the scheme parses into a well-formed record. */
  lemma {:induction false} ParseRestWellFormed(scheme: string, rest: string)
    requires scheme == "" || IsLowerScheme(scheme)
    requires NoneOf(rest, Unsafe)
    requires scheme == "" ==> !HasScheme(rest) && (rest == "" || !IsC0OrSpace(rest[0]))
    ensures WellFormed(ParseRest(scheme, rest))
  {
    var (netloc, afterNetloc) := SplitNetloc(rest);
    SplitNetlocParts(rest);
    ParsePathFacts(scheme, netloc, afterNetloc);
    if StartsWith(rest, "//") {
      var j := FirstOf(rest[2..], AuthorityEnd);
      NoneOfSlice(rest, 2, 2 + j, Unsafe);
      NoneOfSlice(rest, 2 + j, |rest|, Unsafe);
      assert rest[2 + j..|rest|] == afterNetloc;
    }
    ParsePathSafe(scheme, netloc, afterNetloc);
    var u := ParseRest(scheme, rest);
    var p := PathWithParams(u);
    if StartsWith(rest, "//") {
      assert p == "" || p[0] == '/' by {
        if p != "" {
          assert p[0] == afterNetloc[0];
          assert p[0] in p;
        }
      }
      RootedNoScheme(p);
    } else if scheme == "" {
      NoSchemePrefix(p, rest);
      assert p != "" ==> p[0] == rest[0];
    }
  }

  /** What SplitScheme returns meets the scheme clauses of WellFormed, and
      the rest avoids what the text avoids. */
  lemma {:induction false} SplitSchemeWellFormed(s: string)
    ensures var (scheme, rest) := SplitScheme(s, "");
            && (scheme == "" || IsLowerScheme(scheme)) && (scheme == "" ==> rest == s && !HasScheme(s))
            && (NoneOf(s, Unsafe) ==> NoneOf(rest, Unsafe))
  {
    var i := FirstOf(s, {':'});
    if NoneOf(s, Unsafe) && 0 < i < |s| {
      NoneOfSlice(s, i + 1, |s|, Unsafe);
      assert s[i + 1..|s|] == s[i + 1..];
    }
  }

  lemma {:induction false} ParseUrlWellFormed(s: string)
    ensures WellFormed(ParseUrl(s, ""))
  {
    var c := CleanUrl(s);
    CleanUrlClean(s);
    CleanSchemeKeeps("");
    SplitSchemeWellFormed(c);
    var (scheme, rest) := SplitScheme(c, "");
    ParseRestWellFormed(scheme, rest);
  }

  // ---------------------------------------------------------------------
  // urlparse undoes urlunparse on well-formed records.
  // ---------------------------------------------------------------------

  lemma {:induction false} SplitSchemeOf(scheme: string, rest: string, defaultScheme: string)
    requires IsLowerScheme(scheme)
    ensures SplitScheme(scheme + ":" + rest, defaultScheme) == (scheme, rest)
  {
    var s := scheme + ":" + rest;
    AppendAssoc(scheme, ":", rest);
    assert NoneOf(scheme, {':'});
    FirstOfAfter(scheme, ":" + rest, {':'});
    SliceOfAppend(scheme, ":" + rest, |scheme|);
    assert scheme[..|scheme|] == scheme;
    assert s[|scheme| + 1..] == rest;
  }

  lemma {:induction false} SplitNetlocOf(netloc: string, rest: string)
    requires NoneOf(netloc, AuthorityEnd)
    requires rest == "" || rest[0] in AuthorityEnd
    ensures SplitNetloc("//" + netloc + rest) == (netloc, rest)
  {
    var s := "//" + netloc + rest;
    assert s[2..] == netloc + rest;
    FirstOfAfter(netloc, rest, AuthorityEnd);
    assert s[2..2 + |netloc|] == netloc;
    assert s[2 + |netloc|..] == rest;
  }

  lemma {:induction false} SplitOnceAt(a: string, c: char, b: string)
    requires c !in a
    ensures SplitOnce(a + [c] + b, c) == (a, b)
  {
    var s := a + [c] + b;
    AppendAssoc(a, [c], b);
    FirstOfAfter(a, [c] + b, {c});
    SliceOfAppend(a, [c] + b, |a|);
    assert a[..|a|] == a;
    assert s[|a| + 1..] == b;
  }

  lemma {:induction false} SplitOnceAbsent(a: string, c: char)
    requires c !in a
    ensures SplitOnce(a, c) == (a, "")
  {
    FirstOfNone(a, {c});
  }

  lemma {:induction false} SplitParamsOf(path: string, params: string)
    requires ';' !in LastSegment(path) && '/' !in params
    ensures SplitParams(path) == (path, "")
    ensures params != "" ==> SplitParams(path + ";" + params) == (path, params)
  {
    var k := LastSegmentStart(path);
    SplitOnceAbsent(path[k..], ';');
    TakeDrop(path, k);
    if params != "" {
      SplitParamsAt(path, params);
    }
  }

  lemma {:induction false} SplitParamsAt(path: string, params: string)
    requires ';' !in LastSegment(path) && '/' !in params
    ensures SplitParams(path + ";" + params) == (path, params)
  {
    var k := LastSegmentStart(path);
    var tail := ";" + params;
    AppendAssoc(path, ";", params);
    LastSegmentStartAppend(path, tail);
    SliceOfAppend(path, tail, k);
    AppendAssoc(path[k..], ";", params);
    SplitOnceAt(path[k..], ';', params);
    TakeDrop(path, k);
  }

  /** The first character of a non-empty query-and-fragment is '?' or '#'. */
  lemma {:induction false} QueryFragmentStart(u: Url)
    ensures QueryFragment(u) == "" || QueryFragment(u)[0] in {'?', '#'}
  {
  }

  /** Appending a query or fragment does not make a text look as if it had
      a scheme. */
  lemma {:induction false} NoSchemeAppend(p: string, t: string)
    requires !HasScheme(p)
    requires t == "" || t[0] in {'?', '#'}
    ensures !HasScheme(p + t)
  {
    var s := p + t;
    var i := FirstOf(p, {':'});
    if i < |p| {
      FirstOfWithin(p, t, {':'});
      assert s[..i] == p[..i];
    } else {
      assert NoneOf(p, {':'}) by {
        FirstOfSkips(p, {':'});
        assert p[..i] == p;
      }
      FirstOfAfter(p, t, {':'});
      var j := FirstOf(s, {':'});
      if 0 < j < |s| {
        assert s[..j][|p|] == t[0];
      }
    }
  }

  /** Appending a query or fragment does not create a leading "//". */
  lemma {:induction false} NoAuthorityAppend(p: string, t: string)
    requires !StartsWith(p, "//")
    requires t == "" || t[0] in {'?', '#'}
    ensures !StartsWith(p + t, "//")
  {
    if |p| >= 2 {
      assert (p + t)[..2] == p[..2];
    } else if |p + t| >= 2 {
      assert (p + t)[1] == if |p| == 1 then t[0] else t[1];
      if |p| == 0 {
        assert (p + t)[0] == t[0];
      }
    }
  }

  /** After an authority marker the path is empty or rooted. */
  lemma {:induction false} RootedPathStart(u: Url)
    requires WritesAuthority(u)
    ensures RootedPath(u) == "" || RootedPath(u)[0] == '/'
  {
  }

  /** Step one: the scheme comes back. */
  lemma {:induction false} SchemeRoundTrip(u: Url)
    requires u.scheme == "" || IsLowerScheme(u.scheme)
    requires u.scheme == "" ==> !HasScheme(PathWithParams(u))
    ensures SplitScheme(UnparseUrl(u), "") == (u.scheme, HierPart(u) + QueryFragment(u))
  {
    var rest := HierPart(u) + QueryFragment(u);
    if u.scheme != "" {
      SplitSchemeOf(u.scheme, rest, "");
    } else {
      assert UnparseUrl(u) == rest;
      QueryFragmentStart(u);
      if WritesAuthority(u) {
        RootedNoScheme(rest);
      } else {
        NoSchemeAppend(PathWithParams(u), QueryFragment(u));
      }
    }
  }

  /** Step two: the authority comes back. */
  lemma {:induction false} NetlocRoundTrip(u: Url)
    requires NoneOf(u.netloc, AuthorityEnd)
    requires u.netloc != "" ==> PathWithParams(u) == "" || PathWithParams(u)[0] == '/'
    ensures SplitNetloc(HierPart(u) + QueryFragment(u)) == (u.netloc, PathWithParams(u) + QueryFragment(u))
  {
    var p := PathWithParams(u);
    var qf := QueryFragment(u);
    QueryFragmentStart(u);
    if WritesAuthority(u) {
      assert RootedPath(u) == p;
      AppendAssoc("//" + u.netloc, p, qf);
      SplitNetlocOf(u.netloc, p + qf);
    } else {
      NoAuthorityAppend(p, qf);
    }
  }

  /** Step three: the fragment comes back. */
  lemma {:induction false} FragmentRoundTrip(p: string, query: string, fragment: string)
    requires '#' !in p && '#' !in query
    ensures SplitOnce(p + (QueryPart(query) + FragmentPart(fragment)), '#') == (p + QueryPart(query), fragment)
  {
    var q := QueryPart(query);
    AppendAssoc(p, q, FragmentPart(fragment));
    assert '#' !in p + q;
    if fragment != "" {
      AppendAssoc(p + q, "#", fragment);
      SplitOnceAt(p + q, '#', fragment);
    } else {
      assert p + q + "" == p + q;
      SplitOnceAbsent(p + q, '#');
    }
  }

  /** Step four: the query comes back. */
  lemma {:induction false} QueryRoundTrip(p: string, query: string)
    requires '?' !in p
    ensures SplitOnce(p + QueryPart(query), '?') == (p, query)
  {
    if query != "" {
      AppendAssoc(p, "?", query);
      SplitOnceAt(p, '?', query);
    } else {
      assert p + "" == p;
      SplitOnceAbsent(p, '?');
    }
  }

  /** Steps three to five: fragment, query, path and params come back. */
  lemma {:induction false} ParsePathOf(u: Url)
    requires '?' !in PathWithParams(u) && '#' !in PathWithParams(u) && '#' !in u.query
    requires if u.scheme in UsesParams then '/' !in u.params && ';' !in LastSegment(u.path)
             else u.params == ""
    ensures ParsePath(u.scheme, u.netloc, PathWithParams(u) + QueryFragment(u)) == u
  {
    var p := PathWithParams(u);
    FragmentRoundTrip(p, u.query, u.fragment);
    QueryRoundTrip(p, u.query);
    if u.scheme in UsesParams {
      SplitParamsOf(u.path, u.params);
    }
  }

  /** The written address holds no tab or line break when no component
      does. */
  lemma {:induction false} UnparseSafe(u: Url)
    requires (u.scheme == "" || IsLowerScheme(u.scheme)) && Safe(u)
    ensures NoneOf(UnparseUrl(u), Unsafe)
  {
    assert NoneOf(u.scheme, Unsafe);
    if u.params != "" {
      NoneOfAppend(u.path, ";", Unsafe);
      NoneOfAppend(u.path + ";", u.params, Unsafe);
    }
    NoneOfAppend("/", PathWithParams(u), Unsafe);
    NoneOfAppend("//", u.netloc, Unsafe);
    NoneOfAppend("//" + u.netloc, RootedPath(u), Unsafe);
    NoneOfAppend("?", u.query, Unsafe);
    NoneOfAppend("#", u.fragment, Unsafe);
    NoneOfAppend(QueryPart(u.query), FragmentPart(u.fragment), Unsafe);
    NoneOfAppend(HierPart(u), QueryFragment(u), Unsafe);
    NoneOfAppend(u.scheme, ":", Unsafe);
    NoneOfAppend(u.scheme + ":", HierPart(u) + QueryFragment(u), Unsafe);
  }

  /** A well-formed record is written without a leading control character
      or space. */
  lemma {:induction false} UnparseStart(u: Url)
    requires WellFormed(u)
    ensures UnparseUrl(u) == [] || !IsC0OrSpace(UnparseUrl(u)[0])
  {
    var t := UnparseUrl(u);
    var p := PathWithParams(u);
    if u.scheme != "" {
      assert t[0] == u.scheme[0];
    } else if WritesAuthority(u) {
      assert t[0] == '/';
    } else if p != "" {
      assert t == p + QueryFragment(u);
      assert t[0] == p[0];
    } else {
      QueryFragmentStart(u);
      assert t == QueryFragment(u);
    }
  }

  /** urlsplit's clean-up leaves a written well-formed record unchanged. */
  lemma {:induction false} CleanUnparse(u: Url)
    requires WellFormed(u)
    ensures CleanUrl(UnparseUrl(u)) == UnparseUrl(u)
  {
    UnparseSafe(u);
    UnparseStart(u);
    CleanUrlKeeps(UnparseUrl(u));
  }

  /** Writing a well-formed record and parsing it again gives the record
      back: `urlparse(urlunparse(u)) == u`. */
  lemma {:induction false} ParseUnparse(u: Url)
    requires WellFormed(u)
    ensures ParseUrl(UnparseUrl(u), "") == u
  {
    CleanUnparse(u);
    CleanSchemeKeeps("");
    SchemeRoundTrip(u);
    NetlocRoundTrip(u);
    ParsePathOf(u);
  }

  /** Writing a record with a proper scheme and authority and parsing the
      text again gives back that scheme and authority, whatever the path. */
  lemma {:induction false} AuthorityRoundTrip(u: Url, defaultScheme: string)
    requires IsLowerScheme(u.scheme) && NoneOf(u.netloc, AuthorityEnd) && Safe(u)
    ensures ParseUrl(UnparseUrl(u), defaultScheme).scheme == u.scheme
    ensures ParseUrl(UnparseUrl(u), defaultScheme).netloc == u.netloc
  {
    var qf := QueryFragment(u);
    var t := UnparseUrl(u);
    UnparseSafe(u);
    assert t[0] == u.scheme[0];
    CleanUrlKeeps(t);
    SplitSchemeOf(u.scheme, HierPart(u) + qf, CleanScheme(defaultScheme));
    QueryFragmentStart(u);
    if WritesAuthority(u) {
      RootedPathStart(u);
      AppendAssoc("//" + u.netloc, RootedPath(u), qf);
      SplitNetlocOf(u.netloc, RootedPath(u) + qf);
    } else {
      NoAuthorityAppend(PathWithParams(u), qf);
    }
  }

  // ---------------------------------------------------------------------
  // Reference resolution: urljoin(base, url).
  // ---------------------------------------------------------------------

  /** `segments[1:-1] = filter(None, segments[1:-1])`: drop the empty inner
      segments, keep the first and the last. */
  function DropEmptyInner(segments: seq<string>): (r: seq<string>)
    requires |segments| >= 1
    ensures |r| >= 1 && r[0] == segments[0] && r[|r| - 1] == segments[|segments| - 1]
  {
    if |segments| <= 2 then segments
    else [segments[0]] + NonEmpty(segments[1..|segments| - 1]) + [segments[|segments| - 1]]
  }

  function NonEmpty(segments: seq<string>): (r: seq<string>)
    ensures forall k :: 0 <= k < |r| ==> r[k] != ""
  {
    if segments == [] then []
    else if segments[0] == "" then NonEmpty(segments[1..])
    else [segments[0]] + NonEmpty(segments[1..])
  }

  /** The segment loop of urljoin: ".." pops the last resolved segment
      (and is ignored when there is none), "." is skipped, anything else is
      pushed. */
  function ResolveDots(segments: seq<string>, resolved: seq<string>): seq<string>
    decreases |segments|
  {
    if segments == [] then resolved
    else if segments[0] == ".." then
      ResolveDots(segments[1..], if resolved == [] then [] else resolved[..|resolved| - 1])
    else if segments[0] == "." then ResolveDots(segments[1..], resolved)
    else ResolveDots(segments[1..], resolved + [segments[0]])
  }

  predicate IsDotSegment(seg: string)
  {
    seg == "." || seg == ".."
  }

  /** The segments urljoin resolves: those of an absolute path, or the base
      directory's followed by the reference's, with empty inner ones dropped. */
  function MergeSegments(basePath: string, path: string): (segments: seq<string>)
    ensures |segments| >= 1
  {
    var baseParts := Split(basePath, '/');
    var baseDir := if baseParts[|baseParts| - 1] != "" then baseParts[..|baseParts| - 1] else baseParts;
    if StartsWith(path, "/") then Split(path, '/')
    else DropEmptyInner(baseDir + Split(path, '/'))
  }

  /** The path urljoin computes for a relative reference with a path. */
  function MergePath(basePath: string, path: string): string
  {
    var joined := JoinWith(ResolvedSegments(MergeSegments(basePath, path)), "/");
    if joined == "" then "/" else joined
  }

  /** The segment loop's result, with an empty last segment added when the
      reference ended in "." or ".." so that the path keeps its trailing
      slash. */
  function ResolvedSegments(segments: seq<string>): seq<string>
    requires |segments| >= 1
  {
    var resolved := ResolveDots(segments, []);
    if IsDotSegment(segments[|segments| - 1]) then resolved + [""] else resolved
  }

  /** `urljoin(base, url)`. */
  function JoinUrl(base: string, url: string): string
  {
    if base == "" then url
    else if url == "" then base
    else
      var b := ParseUrl(base, "");
      var r := ParseUrl(url, b.scheme);
      if r.scheme != b.scheme || r.scheme !in UsesRelative then url
      else UnparseUrl(Resolve(b, r))
  }

  /** The record urljoin writes for the parsed reference `r` against the
      parsed base `b`, once the schemes agree. */
  function Resolve(b: Url, r: Url): Url
  {
    if r.scheme in UsesNetloc && r.netloc != "" then r
    else
      var netloc := if r.scheme in UsesNetloc then b.netloc else r.netloc;
      if r.path == "" && r.params == "" then
        Url(r.scheme, netloc, b.path, b.params, if r.query == "" then b.query else r.query, r.fragment)
      else
        Url(r.scheme, netloc, MergePath(b.path, r.path), r.params, r.query, r.fragment)
  }

  /** A reference without a scheme or a "//" authority once cleaned up
      parses with the default scheme, no authority and clean components. */
  lemma {:induction false} ParseRelative(url: string, defaultScheme: string)
    requires defaultScheme == "" || IsLowerScheme(defaultScheme)
    requires !HasScheme(CleanUrl(url)) && !StartsWith(CleanUrl(url), "//")
    ensures var r := ParseUrl(url, defaultScheme);
            r.scheme == defaultScheme && r.netloc == "" && Safe(r)
  {
    var c := CleanUrl(url);
    CleanUrlClean(url);
    CleanSchemeKeeps(defaultScheme);
    assert SplitScheme(c, defaultScheme) == (defaultScheme, c);
    SplitNetlocParts(c);
    ParsePathFacts(defaultScheme, "", c);
    ParsePathSafe(defaultScheme, "", c);
  }

  /** A reference without a scheme and without a "//" authority (once
      cleaned up), resolved against a base that has a scheme carrying an
      authority, keeps the base's scheme and authority. */
  lemma {:induction false} JoinRelativeKeepsAuthority(base: string, url: string)
    requires ParseUrl(base, "").scheme != ""
    requires ParseUrl(base, "").scheme in UsesRelative && ParseUrl(base, "").scheme in UsesNetloc
    requires !HasScheme(CleanUrl(url)) && !StartsWith(CleanUrl(url), "//")
    ensures ParseUrl(JoinUrl(base, url), "").scheme == ParseUrl(base, "").scheme
    ensures ParseUrl(JoinUrl(base, url), "").netloc == ParseUrl(base, "").netloc
  {
    var b := ParseUrl(base, "");
    ParseUrlWellFormed(base);
    if url != "" {
      ParseRelative(url, b.scheme);
      var r := ParseUrl(url, b.scheme);
      ResolveKeepsAuthority(b, r);
      AuthorityRoundTrip(Resolve(b, r), "");
    }
  }

  /** Resolving a reference without an authority against a well-formed base
      keeps the base's scheme and authority and adds no tab or line break. */
  lemma {:induction false} ResolveKeepsAuthority(b: Url, r: Url)
    requires WellFormed(b) && Safe(r)
    requires r.scheme == b.scheme && r.scheme in UsesNetloc && r.netloc == ""
    ensures Resolve(b, r).scheme == b.scheme && Resolve(b, r).netloc == b.netloc
    ensures Safe(Resolve(b, r))
  {
    if r.path != "" || r.params != "" {
      MergePathSafe(b.path, r.path);
    }
  }

  /** A reference with a scheme of its own (once cleaned up) that differs
      from the base's, or that urljoin does not resolve, is returned
      unchanged. */
  lemma {:induction false} JoinForeignScheme(base: string, url: string)
    requires base != "" && HasScheme(CleanUrl(url))
    requires ParseUrl(url, "").scheme != ParseUrl(base, "").scheme || ParseUrl(url, "").scheme !in UsesRelative
    ensures JoinUrl(base, url) == url
  {
    assert url != "";
  }

  /** No segment of `ss` holds `c`. */
  predicate Avoids(ss: seq<string>, c: char)
  {
    forall k :: 0 <= k < |ss| ==> c !in ss[k]
  }

  /** No segment of `ss` is "." or "..". */
  predicate DotFree(ss: seq<string>)
  {
    forall k :: 0 <= k < |ss| ==> !IsDotSegment(ss[k])
  }

  lemma {:induction false} NonEmptyAvoids(ss: seq<string>, c: char)
    requires Avoids(ss, c)
    ensures Avoids(NonEmpty(ss), c)
    decreases |ss|
  {
    if ss != [] {
      assert Avoids(ss[1..], c);
      NonEmptyAvoids(ss[1..], c);
    }
  }

  lemma {:induction false} DropEmptyInnerAvoids(ss: seq<string>, c: char)
    requires |ss| >= 1 && Avoids(ss, c)
    ensures Avoids(DropEmptyInner(ss), c)
  {
    if |ss| > 2 {
      NonEmptyAvoids(ss[1..|ss| - 1], c);
    }
  }

  /** The segment loop leaves no "." or ".." behind and invents no segment
      with a character that no input segment holds. */
  lemma {:induction false} ResolveDotsClean(segments: seq<string>, resolved: seq<string>, c: char)
    requires Avoids(segments, c) && Avoids(resolved, c) && DotFree(resolved)
    ensures Avoids(ResolveDots(segments, resolved), c) && DotFree(ResolveDots(segments, resolved))
    decreases |segments|
  {
    if segments != [] {
      assert Avoids(segments[1..], c);
      if segments[0] != ".." && segments[0] != "." {
        assert Avoids(resolved + [segments[0]], c);
      }
      var next := if segments[0] == ".." then (if resolved == [] then [] else resolved[..|resolved| - 1])
                  else if segments[0] == "." then resolved
                  else resolved + [segments[0]];
      ResolveDotsClean(segments[1..], next, c);
    }
  }

  /** No merged segment holds a slash, or a character neither path holds. */
  lemma {:induction false} MergeSegmentsAvoids(basePath: string, path: string, c: char)
    requires c == '/' || (c !in basePath && c !in path)
    ensures Avoids(MergeSegments(basePath, path), c)
  {
    if c != '/' {
      SplitAvoids(basePath, '/', c);
      SplitAvoids(path, '/', c);
    }
    var baseParts := Split(basePath, '/');
    var baseDir := if baseParts[|baseParts| - 1] != "" then baseParts[..|baseParts| - 1] else baseParts;
    assert Avoids(baseDir, c);
    assert Avoids(Split(path, '/'), c);
    if !StartsWith(path, "/") {
      assert Avoids(baseDir + Split(path, '/'), c);
      DropEmptyInnerAvoids(baseDir + Split(path, '/'), c);
    }
  }

  lemma {:induction false} ResolvedSegmentsClean(segments: seq<string>, c: char)
    requires |segments| >= 1 && Avoids(segments, c)
    ensures Avoids(ResolvedSegments(segments), c) && DotFree(ResolvedSegments(segments))
  {
    ResolveDotsClean(segments, [], c);
  }

  /** The segments of the path urljoin merges are free of "." and "..",
      as reference resolution promises (section 5.2.4 of RFC 3986). */
  lemma {:induction false} MergePathDotFree(basePath: string, path: string)
    ensures DotFree(Split(MergePath(basePath, path), '/'))
  {
    var segments := MergeSegments(basePath, path);
    MergeSegmentsAvoids(basePath, path, '/');
    var resolved := ResolvedSegments(segments);
    ResolvedSegmentsClean(segments, '/');
    if JoinWith(resolved, "/") == "" {
      assert Split("/", '/') == ["", ""];
    } else {
      assert |resolved| >= 1;
      SplitJoin(resolved, '/');
    }
  }

  /** A character other than '/' that neither path holds is not in the
      merged path. */
  lemma {:induction false} MergePathAvoids(basePath: string, path: string, c: char)
    requires c != '/' && c !in basePath && c !in path
    ensures c !in MergePath(basePath, path)
  {
    var segments := MergeSegments(basePath, path);
    MergeSegmentsAvoids(basePath, path, c);
    ResolvedSegmentsClean(segments, c);
    JoinWithAvoids(ResolvedSegments(segments), "/", c);
  }

  /** Merging paths without tabs and line breaks creates none. */
  lemma {:induction false} MergePathSafe(basePath: string, path: string)
    requires NoneOf(basePath, Unsafe) && NoneOf(path, Unsafe)
    ensures NoneOf(MergePath(basePath, path), Unsafe)
  {
    MergePathAvoids(basePath, path, '\t');
    MergePathAvoids(basePath, path, '\r');
    MergePathAvoids(basePath, path, '\n');
  }

  // ---------------------------------------------------------------------
  // Normalisation of a page address (main.py line 39).
  // ---------------------------------------------------------------------

  /** Clear the query and the fragment. */
  function Normalize(u: Url): Url
  {
    u.(query := "", fragment := "")
  }

  /** `urlparse(url)._replace(query="", fragment="").geturl()`. */
  function NormalizeUrl(s: string): string
  {
    UnparseUrl(Normalize(ParseUrl(s, "")))
  }

  /** Two parsed addresses name the same page when everything but the query
      and the fragment agrees. */
  predicate SamePage(u: Url, v: Url)
  {
    u.scheme == v.scheme && u.netloc == v.netloc && u.path == v.path && u.params == v.params
  }

  /** Parsing the normalised text gives the parsed address with query and
      fragment cleared and every other component unchanged. */
  lemma {:induction false} NormalizeUrlParses(s: string)
    ensures ParseUrl(NormalizeUrl(s), "") == Normalize(ParseUrl(s, ""))
  {
    ParseUrlWellFormed(s);
    ParseUnparse(Normalize(ParseUrl(s, "")));
  }

  /** Normalising twice is normalising once. */
  lemma {:induction false} NormalizeUrlIdempotent(s: string)
    ensures NormalizeUrl(NormalizeUrl(s)) == NormalizeUrl(s)
  {
    NormalizeUrlParses(s);
  }

  /** Two addresses normalise to the same text exactly when they name the
      same page, i.e. differ at most in query and fragment. */
  lemma {:induction false} NormalizeUrlSamePage(s1: string, s2: string)
    ensures NormalizeUrl(s1) == NormalizeUrl(s2) <==> SamePage(ParseUrl(s1, ""), ParseUrl(s2, ""))
  {
    NormalizeUrlParses(s1);
    NormalizeUrlParses(s2);
  }
}
