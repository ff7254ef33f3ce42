/** The chain of tests `SiteCrawler.parse` applies to every anchor of a page
    (main.py lines 48-74): each href is either dropped, for the first test
    it fails, or resolved against the page address and followed. */
module LinkFilter {
  import opened Strings
  import opened Urls

  /** Raw hrefs with these prefixes are not web links. */
  const SkippedPrefixes: seq<string> := ["mailto:", "tel:", "javascript:"]

  /** Paths with these endings point to documents or images. The test is
      case-sensitive, so ".PDF" is not blocked. */
  const BlockedExtensions: seq<string> :=
    [".pdf", ".jpg", ".jpeg", ".png", ".gif", ".doc", ".docx", ".xls", ".xlsx",
     ".ppt", ".pptx", ".zip", ".rar"]

  /** Substrings of a resolved address that suggest pagination or a
      generated listing; "next" matches anywhere, the host included. */
  const TrapMarkers: seq<string> := ["page=", "next", "sort=", "filter="]

  /** The schemes a followed link may have. */
  const WebSchemes: set<string> := {"http", "https"}

  /** The test an href failed. */
  datatype Reason = NonWebPrefix | HasQuery | NonWebScheme | BlockedExtension | OffDomain | TrapMarker

  datatype Decision = Follow(url: string) | Skip(reason: Reason)

  /** The href is dropped before it is resolved. */
  predicate EarlyReject(href: string)
  {
    StartsWithAny(href, SkippedPrefixes) || '?' in href
  }

  /** A resolved address the crawler follows: a web scheme, a path that does
      not end in a blocked extension, an authority that contains the crawl
      domain, and none of the trap markers anywhere. */
  predicate Admissible(url: string, domain: string)
  {
    var u := ParseUrl(url, "");
    && u.scheme in WebSchemes
    && !EndsWithAny(u.path, BlockedExtensions)
    && Contains(u.netloc, domain)
    && !ContainsAny(url, TrapMarkers)
  }

  /** One pass of the loop body of `parse` over one href, against the page
      at `pageUrl` of a crawl of `domain`. */
  function Classify(href: string, pageUrl: string, domain: string): Decision
  {
    if StartsWithAny(href, SkippedPrefixes) then Skip(NonWebPrefix)
    else if '?' in href then Skip(HasQuery)
    else CheckResolved(JoinUrl(pageUrl, href), domain)
  }

  /** The tests of the loop body after `urljoin`, on the resolved address. */
  function CheckResolved(absolute: string, domain: string): Decision
  {
    var parsed := ParseUrl(absolute, "");
    if parsed.scheme !in WebSchemes then Skip(NonWebScheme)
    else if EndsWithAny(parsed.path, BlockedExtensions) then Skip(BlockedExtension)
    else if !Contains(parsed.netloc, domain) then Skip(OffDomain)
    else if ContainsAny(absolute, TrapMarkers) then Skip(TrapMarker)
    else Follow(absolute)
  }

  /** An href is followed exactly when it survives the early tests and its
      resolved address is admissible; what is followed is that address. */
  lemma {:induction false} ClassifyFollows(href: string, pageUrl: string, domain: string)
    ensures Classify(href, pageUrl, domain).Follow? <==>
              !EarlyReject(href) && Admissible(JoinUrl(pageUrl, href), domain)
    ensures Classify(href, pageUrl, domain).Follow? ==>
              Classify(href, pageUrl, domain).url == JoinUrl(pageUrl, href)
  {
  }

  /** An href with a skipped prefix or a '?' is dropped whatever the page and
      the domain. */
  lemma {:induction false} EarlyRejectSkips(href: string, pageUrl: string, domain: string)
    requires EarlyReject(href)
    ensures Classify(href, pageUrl, domain) == Skip(if StartsWithAny(href, SkippedPrefixes) then NonWebPrefix else HasQuery)
  {
  }

  /** A relative href (no scheme of its own and no "//" authority once
      urlsplit has cleaned it up) on a web page
      whose authority contains the domain is never dropped for its scheme or
      for leaving the site. */
  lemma {:induction false} RelativeLinkStaysOnSite(href: string, pageUrl: string, domain: string)
    requires ParseUrl(pageUrl, "").scheme in WebSchemes
    requires Contains(ParseUrl(pageUrl, "").netloc, domain)
    requires !HasScheme(CleanUrl(href)) && !StartsWith(CleanUrl(href), "//")
    ensures Classify(href, pageUrl, domain) != Skip(NonWebScheme)
    ensures Classify(href, pageUrl, domain) != Skip(OffDomain)
  {
    if !EarlyReject(href) {
      var absolute := JoinUrl(pageUrl, href);
      WebSchemeResolves(ParseUrl(pageUrl, "").scheme);
      JoinRelativeKeepsAuthority(pageUrl, href);
      CheckResolvedOnSite(absolute, domain);
      assert Classify(href, pageUrl, domain) == CheckResolved(absolute, domain);
    } else {
      EarlyRejectSkips(href, pageUrl, domain);
    }
  }

  /** A resolved address with a web scheme and an authority that contains
      the domain passes the scheme and the domain tests. */
  lemma CheckResolvedOnSite(absolute: string, domain: string)
    requires ParseUrl(absolute, "").scheme in WebSchemes
    requires Contains(ParseUrl(absolute, "").netloc, domain)
    ensures CheckResolved(absolute, domain) != Skip(NonWebScheme)
    ensures CheckResolved(absolute, domain) != Skip(OffDomain)
  {
  }

  /** urljoin resolves references against a web page relatively and with an
      authority. */
  lemma WebSchemeResolves(scheme: string)
    requires scheme in WebSchemes
    ensures scheme != "" && scheme in UsesRelative && scheme in UsesNetloc
  {
  }

  /** An href with a scheme of its own other than http or https, leading
      spaces and control characters aside, is dropped, at the latest by the
      scheme test, when the page is a web page. */
  lemma {:induction false} ForeignSchemeSkipped(href: string, pageUrl: string, domain: string)
    requires ParseUrl(pageUrl, "").scheme in WebSchemes
    requires HasScheme(CleanUrl(href)) && ParseUrl(href, "").scheme !in WebSchemes
    ensures Classify(href, pageUrl, domain).Skip?
    ensures !EarlyReject(href) ==> Classify(href, pageUrl, domain) == Skip(NonWebScheme)
  {
    assert pageUrl != "";
    JoinForeignScheme(pageUrl, href);
  }

  /** The test chain for the page at `pageUrl` of a crawl of `domain`. */
  function Decide(pageUrl: string, domain: string): string -> Decision
  {
    href => Classify(href, pageUrl, domain)
  }

  /** The decision for every href, in href order: one decision per href,
      and the one at position k is that of the k-th href. */
  function Decisions(hrefs: seq<string>, decide: string -> Decision): (ds: seq<Decision>)
    ensures |ds| == |hrefs|
    ensures forall k :: 0 <= k < |hrefs| ==> ds[k] == decide(hrefs[k])
    decreases |hrefs|
  {
    if hrefs == [] then []
    else [decide(hrefs[0])] + Decisions(hrefs[1..], decide)
  }

  lemma {:induction false} DecisionsAppend(a: seq<string>, b: seq<string>, decide: string -> Decision)
    ensures Decisions(a + b, decide) == Decisions(a, decide) + Decisions(b, decide)
  {
    assert forall k :: 0 <= k < |a| ==> (a + b)[k] == a[k];
    assert forall k :: |a| <= k < |a + b| ==> (a + b)[k] == b[k - |a|];
  }

  /** The addresses of the Follow decisions, in order. */
  function Followed(ds: seq<Decision>): seq<string>
    decreases |ds|
  {
    if ds == [] then []
    else
      var n := |ds| - 1;
      Followed(ds[..n]) + (if ds[n].Follow? then [ds[n].url] else [])
  }

  /** The positions of the Follow decisions, in order. */
  function FollowedIndices(ds: seq<Decision>): seq<nat>
    decreases |ds|
  {
    if ds == [] then []
    else
      var n := |ds| - 1;
      FollowedIndices(ds[..n]) + (if ds[n].Follow? then [n] else [])
  }

  /** The addresses `parse` yields for the hrefs of one page. */
  function FollowedLinks(hrefs: seq<string>, pageUrl: string, domain: string): seq<string>
  {
    Followed(Decisions(hrefs, Decide(pageUrl, domain)))
  }

  /** Followed keeps one address per Follow decision and nothing else, in
      order: the k-th address belongs to the k-th Follow decision, and every
      position not listed is a Skip. */
  lemma {:induction false} FollowedOrder(ds: seq<Decision>)
    ensures var links := Followed(ds);
            var idx := FollowedIndices(ds);
            && |links| == |idx| <= |ds|
            && (forall k :: 0 <= k < |idx| ==> idx[k] < |ds|)
            && (forall k, l :: 0 <= k < l < |idx| ==> idx[k] < idx[l])
            && (forall k :: 0 <= k < |idx| ==> ds[idx[k]] == Follow(links[k]))
            && (forall j :: 0 <= j < |ds| && j !in idx ==> ds[j].Skip?)
  {
    FollowedIndicesShape(ds);
    FollowedMatches(ds);
    FollowedSkips(ds);
  }

  lemma {:induction false} FollowedIndicesShape(ds: seq<Decision>)
    ensures |Followed(ds)| == |FollowedIndices(ds)| <= |ds|
    ensures forall k :: 0 <= k < |FollowedIndices(ds)| ==> FollowedIndices(ds)[k] < |ds|
    ensures forall k, l :: 0 <= k < l < |FollowedIndices(ds)| ==> FollowedIndices(ds)[k] < FollowedIndices(ds)[l]
    decreases |ds|
  {
    if ds != [] {
      FollowedIndicesShape(ds[..|ds| - 1]);
    }
  }

  lemma {:induction false} FollowedMatches(ds: seq<Decision>)
    ensures |Followed(ds)| == |FollowedIndices(ds)|
    ensures forall k :: 0 <= k < |FollowedIndices(ds)| ==>
              FollowedIndices(ds)[k] < |ds| && ds[FollowedIndices(ds)[k]] == Follow(Followed(ds)[k])
    decreases |ds|
  {
    if ds != [] {
      var n := |ds| - 1;
      var front := ds[..n];
      FollowedMatches(front);
      var idx := FollowedIndices(ds);
      var links := Followed(ds);
      forall k | 0 <= k < |idx|
        ensures idx[k] < |ds| && ds[idx[k]] == Follow(links[k])
      {
        if k < |FollowedIndices(front)| {
          assert idx[k] == FollowedIndices(front)[k];
          assert links[k] == Followed(front)[k];
          assert ds[idx[k]] == front[idx[k]];
        }
      }
    }
  }

  lemma {:induction false} FollowedSkips(ds: seq<Decision>)
    ensures forall j :: 0 <= j < |ds| && j !in FollowedIndices(ds) ==> ds[j].Skip?
    decreases |ds|
  {
    if ds != [] {
      var n := |ds| - 1;
      var front := ds[..n];
      FollowedSkips(front);
      forall j | 0 <= j < |ds| && j !in FollowedIndices(ds)
        ensures ds[j].Skip?
      {
        if j < n {
          assert j !in FollowedIndices(front);
          assert ds[j] == front[j];
        }
      }
    }
  }

  lemma {:induction false} FollowedAppend(ds1: seq<Decision>, ds2: seq<Decision>)
    ensures Followed(ds1 + ds2) == Followed(ds1) + Followed(ds2)
    decreases |ds2|
  {
    if ds2 != [] {
      var n := |ds2| - 1;
      assert (ds1 + ds2)[..|ds1 + ds2| - 1] == ds1 + ds2[..n];
      FollowedAppend(ds1, ds2[..n]);
    } else {
      assert ds1 + ds2 == ds1;
    }
  }

  lemma {:induction false} FollowedNone(ds: seq<Decision>)
    requires forall k :: 0 <= k < |ds| ==> ds[k].Skip?
    ensures Followed(ds) == []
    decreases |ds|
  {
    if ds != [] {
      FollowedNone(ds[..|ds| - 1]);
    }
  }

  /** Every yielded address passes every test. */
  lemma {:induction false} FollowedLinksAdmissible(hrefs: seq<string>, pageUrl: string, domain: string)
    ensures forall k :: 0 <= k < |FollowedLinks(hrefs, pageUrl, domain)| ==>
              Admissible(FollowedLinks(hrefs, pageUrl, domain)[k], domain)
  {
    var ds := Decisions(hrefs, Decide(pageUrl, domain));
    var links := Followed(ds);
    var idx := FollowedIndices(ds);
    FollowedOrder(ds);
    forall k | 0 <= k < |links|
      ensures Admissible(links[k], domain)
    {
      ClassifyFollows(hrefs[idx[k]], pageUrl, domain);
    }
  }

  /** The output holds one address per followed href, in the order of the
      hrefs: the k-th address is the resolution of the k-th followed href,
      each indexed href is followed and every other href was dropped. */
  lemma {:induction false} FollowedLinksOrder(hrefs: seq<string>, pageUrl: string, domain: string)
    ensures var links := FollowedLinks(hrefs, pageUrl, domain);
            var idx := FollowedIndices(Decisions(hrefs, Decide(pageUrl, domain)));
            && |links| == |idx| <= |hrefs|
            && (forall k :: 0 <= k < |idx| ==> idx[k] < |hrefs|)
            && (forall k, l :: 0 <= k < l < |idx| ==> idx[k] < idx[l])
            && (forall k :: 0 <= k < |idx| ==> Classify(hrefs[idx[k]], pageUrl, domain).Follow?)
            && (forall k :: 0 <= k < |idx| ==> links[k] == JoinUrl(pageUrl, hrefs[idx[k]]))
            && (forall j :: 0 <= j < |hrefs| && j !in idx ==> Classify(hrefs[j], pageUrl, domain).Skip?)
  {
    var ds := Decisions(hrefs, Decide(pageUrl, domain));
    var links := Followed(ds);
    var idx := FollowedIndices(ds);
    FollowedOrder(ds);
    forall k | 0 <= k < |idx|
      ensures Classify(hrefs[idx[k]], pageUrl, domain).Follow?
      ensures links[k] == JoinUrl(pageUrl, hrefs[idx[k]])
    {
      ClassifyFollows(hrefs[idx[k]], pageUrl, domain);
    }
  }

  /** The hrefs of a page can be processed in pieces: the output for a
      concatenation is the concatenation of the outputs. */
  lemma {:induction false} FollowedLinksAppend(a: seq<string>, b: seq<string>, pageUrl: string, domain: string)
    ensures FollowedLinks(a + b, pageUrl, domain) == FollowedLinks(a, pageUrl, domain) + FollowedLinks(b, pageUrl, domain)
  {
    var decide := Decide(pageUrl, domain);
    DecisionsAppend(a, b, decide);
    FollowedAppend(Decisions(a, decide), Decisions(b, decide));
  }

  /** One href yields its resolved address when it is followed and nothing
      when it is dropped. */
  lemma {:induction false} FollowedLinksSingle(href: string, pageUrl: string, domain: string)
    ensures Classify(href, pageUrl, domain).Follow? ==>
              FollowedLinks([href], pageUrl, domain) == [Classify(href, pageUrl, domain).url]
    ensures Classify(href, pageUrl, domain).Skip? ==> FollowedLinks([href], pageUrl, domain) == []
  {
    var ds := Decisions([href], Decide(pageUrl, domain));
    assert ds[0] == Classify(href, pageUrl, domain);
    assert ds[..0] == [];
    assert Followed(ds) == Followed(ds[..0]) + (if ds[0].Follow? then [ds[0].url] else []);
  }

  /** A page whose every href fails an early test yields nothing. */
  lemma {:induction false} EarlyRejectsYieldNothing(hrefs: seq<string>, pageUrl: string, domain: string)
    requires forall k :: 0 <= k < |hrefs| ==> EarlyReject(hrefs[k])
    ensures FollowedLinks(hrefs, pageUrl, domain) == []
  {
    var ds := Decisions(hrefs, Decide(pageUrl, domain));
    forall k | 0 <= k < |ds|
      ensures ds[k].Skip?
    {
      EarlyRejectSkips(hrefs[k], pageUrl, domain);
    }
    FollowedNone(ds);
  }
}
