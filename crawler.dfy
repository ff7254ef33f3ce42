/** The state `SiteCrawler` keeps across a crawl (main.py lines 15-182): the
    start address and the domain it derives from it, the set of visited
    pages with its counter, and the summary record assembled at the end. */
module Crawler {
  import opened Wrappers
  import opened Strings
  import opened Urls
  import opened LinkFilter

  /** Responses with these statuses are ignored by `parse`. */
  const IgnoredStatuses: set<int> := {400, 404, 410}

  /** The prefixes that mark a start address as already having a scheme. */
  const WebPrefixes: seq<string> := ["http://", "https://"]

  /** The start address as `__init__` fixes it: "https://" is put in front
      unless it already starts with "http://" or "https://". */
  function WithScheme(url: string): string
  {
    if StartsWithAny(url, WebPrefixes) then url else "https://" + url
  }

  /** `dict.get(key, default)`. */
  function MapGet(m: map<string, string>, key: string, default: string): string
  {
    if key in m then m[key] else default
  }

  /** The subdomain line of the summary. */
  function SubdomainLine(subdomains: seq<string>): string
  {
    if |subdomains| > 0 then "Subdomains Found: " + JoinWith(subdomains, ", ")
    else "Subdomains Found: None"
  }

  /** The whois lines of the summary: a heading and three entries with "N/A"
      for a missing key, or a single line when nothing was stored. */
  function WhoisLines(whoisInfo: map<string, string>): seq<string>
  {
    if |whoisInfo| > 0 then
      ["Whois Information:",
       "  Registrar: " + MapGet(whoisInfo, "registrar", "N/A"),
       "  Name Servers: " + MapGet(whoisInfo, "name_servers", "N/A"),
       "  Creation Date: " + MapGet(whoisInfo, "creation_date", "N/A")]
    else ["Whois Information: None"]
  }

  /** The CMS line of the summary. */
  function CmsLine(cmsInfo: Option<string>): string
  {
    match cmsInfo
    case Some(cms) => "CMS Information: " + cms
    case None => "CMS Information: Not available"
  }

  /** The lines `print_final_summary` assembles, in order. The elapsed time
      is the already formatted number of seconds. */
  function SummaryLines(pageCount: nat, elapsed: string, subdomains: seq<string>,
                        whoisInfo: map<string, string>, cmsInfo: Option<string>): seq<string>
  {
    ["Total Pages Crawled: " + NatToString(pageCount),
     "Time Taken for Crawling: " + elapsed + " seconds",
     SubdomainLine(subdomains)]
    + WhoisLines(whoisInfo)
    + [CmsLine(cmsInfo)]
  }

  /** The fixed start address starts with "http://" or "https://", so fixing
      it again changes nothing. */
  lemma {:induction false} WithSchemePrefix(url: string)
    ensures StartsWith(WithScheme(url), "http://") || StartsWith(WithScheme(url), "https://")
    ensures StartsWith(WithScheme(url), "http:") || StartsWith(WithScheme(url), "https:")
    ensures WithScheme(WithScheme(url)) == WithScheme(url)
  {
    var s := WithScheme(url);
    if !StartsWithAny(url, WebPrefixes) {
      assert s[..8] == "https://";
      assert StartsWith(s, WebPrefixes[1]);
    }
    if StartsWith(s, "http://") {
      assert s[..5] == s[..7][..5];
    } else {
      assert s[..6] == s[..8][..6];
    }
  }

  lemma WebSchemesLower()
    ensures IsLowerScheme("http") && IsLowerScheme("https")
  {
  }

  /** The start address has a web scheme. */
  lemma {:induction false} StartUrlScheme(url: string)
    ensures ParseUrl(WithScheme(url), "").scheme in WebSchemes
  {
    var s := WithScheme(url);
    WithSchemePrefix(url);
    WebSchemesLower();
    if StartsWith(s, "http:") {
      SchemeOfPrefix("http", s);
    } else {
      SchemeOfPrefix("https", s);
    }
  }

  /** The domain taken from the start address holds no '/', '?' or '#'. */
  lemma {:induction false} StartDomainClean(url: string)
    ensures NoneOf(ParseUrl(WithScheme(url), "").netloc, AuthorityEnd)
  {
    ParseUrlWellFormed(WithScheme(url));
  }

  /** A text that starts with a lower-case scheme and ':' parses with that
      scheme. */
  lemma {:induction false} SchemeOfPrefix(scheme: string, s: string)
    requires IsLowerScheme(scheme) && StartsWith(s, scheme + ":")
    ensures ParseUrl(s, "").scheme == scheme
  {
    var n := |scheme|;
    assert s == scheme + ":" + s[n + 1..] by {
      assert s[..n + 1] == scheme + ":";
    }
    var rest := RemoveUnsafe(s[n + 1..]);
    CleanUrlAfterScheme(scheme, s[n + 1..]);
    CleanSchemeKeeps("");
    SplitSchemeOf(scheme, rest, "");
    var (netloc, afterNetloc) := SplitNetloc(rest);
    ParsePathFacts(scheme, netloc, afterNetloc);
  }

  /** For a start address without a scheme, the domain is its host: the text
      up to the first '/', '?' or '#', with any tab or line break deleted. */
  lemma {:induction false} StartUrlDomain(host: string, rest: string)
    requires !StartsWithAny(host + rest, WebPrefixes)
    requires NoneOf(host, AuthorityEnd) && (rest == "" || rest[0] in AuthorityEnd)
    ensures ParseUrl(WithScheme(host + rest), "").netloc == RemoveUnsafe(host)
    ensures NoneOf(host, Unsafe) ==> ParseUrl(WithScheme(host + rest), "").netloc == host
  {
    var s := WithScheme(host + rest);
    WebSchemesLower();
    var h := RemoveUnsafe(host);
    var t := RemoveUnsafe(rest);
    assert s == "https" + ":" + ("//" + host + rest);
    CleanUrlAfterScheme("https", "//" + host + rest);
    RemoveUnsafeAppend("//" + host, rest);
    RemoveUnsafeAppend("//", host);
    RemoveUnsafeKeeps("//");
    CleanSchemeKeeps("");
    SplitSchemeOf("https", "//" + h + t, "");
    RemoveUnsafeNoneOf(host, AuthorityEnd);
    assert t == "" || t[0] in AuthorityEnd by {
      if rest != [] {
        assert t == [rest[0]] + RemoveUnsafe(rest[1..]);
      }
    }
    SplitNetlocOf(h, t);
    ParsePathFacts("https", h, t);
    if NoneOf(host, Unsafe) {
      RemoveUnsafeKeeps(host);
    }
  }

  /** The summary has five lines, or eight when whois information was
      stored; the whois fallback line appears exactly when nothing was
      stored, and the other fallbacks when their data is missing. */
  lemma {:induction false} SummaryShape(pageCount: nat, elapsed: string, subdomains: seq<string>,
                                        whoisInfo: map<string, string>, cmsInfo: Option<string>)
    ensures var lines := SummaryLines(pageCount, elapsed, subdomains, whoisInfo, cmsInfo);
            && |lines| == (if |whoisInfo| > 0 then 8 else 5)
            && (subdomains == [] ==> lines[2] == "Subdomains Found: None")
            && (lines[3] == "Whois Information: None" <==> |whoisInfo| == 0)
            && (cmsInfo == None ==> lines[|lines| - 1] == "CMS Information: Not available")
            && (|whoisInfo| > 0 ==> lines[4] == "  Registrar: " + (if "registrar" in whoisInfo then whoisInfo["registrar"] else "N/A"))
  {
    if |whoisInfo| > 0 {
      assert "Whois Information:" != "Whois Information: None";
    }
  }

  /** The page count can be read back from the first summary line. */
  lemma {:induction false} SummaryPageCount(pageCount: nat, elapsed: string, subdomains: seq<string>,
                                            whoisInfo: map<string, string>, cmsInfo: Option<string>)
    ensures var line := SummaryLines(pageCount, elapsed, subdomains, whoisInfo, cmsInfo)[0];
            var prefix := "Total Pages Crawled: ";
            && StartsWith(line, prefix)
            && (forall k :: |prefix| <= k < |line| ==> '0' <= line[k] <= '9')
            && DecimalValue(line[|prefix|..]) == pageCount
  {
    var digits := NatToString(pageCount);
    var line := "Total Pages Crawled: " + digits;
    assert line[|"Total Pages Crawled: "|..] == digits;
  }

  // The fixed texts of the summary hold no line break; one lemma per group
  // keeps each check small.

  lemma HeadLabelsAvoidNewline()
    ensures '\n' !in "Total Pages Crawled: " && '\n' !in "Time Taken for Crawling: "
    ensures '\n' !in " seconds"
  {
  }

  lemma SubdomainLabelsAvoidNewline()
    ensures '\n' !in "Subdomains Found: " && '\n' !in "Subdomains Found: None" && '\n' !in ", "
  {
  }

  lemma WhoisLabelsAvoidNewline()
    ensures '\n' !in "N/A" && '\n' !in "Whois Information:" && '\n' !in "Whois Information: None"
  {
  }

  lemma WhoisFieldLabelsAvoidNewline()
    ensures '\n' !in "  Registrar: " && '\n' !in "  Name Servers: " && '\n' !in "  Creation Date: "
  {
  }

  lemma CmsLabelsAvoidNewline()
    ensures '\n' !in "CMS Information: " && '\n' !in "CMS Information: Not available"
  {
  }

  lemma {:induction false} SubdomainLineAvoidsNewline(subdomains: seq<string>)
    requires forall k :: 0 <= k < |subdomains| ==> '\n' !in subdomains[k]
    ensures '\n' !in SubdomainLine(subdomains)
  {
    SubdomainLabelsAvoidNewline();
    JoinWithAvoids(subdomains, ", ", '\n');
  }

  lemma {:induction false} WhoisLinesAvoidNewline(whoisInfo: map<string, string>)
    requires forall key | key in whoisInfo :: '\n' !in whoisInfo[key]
    ensures forall k :: 0 <= k < |WhoisLines(whoisInfo)| ==> '\n' !in WhoisLines(whoisInfo)[k]
  {
    WhoisLabelsAvoidNewline();
    WhoisFieldLabelsAvoidNewline();
    assert '\n' !in MapGet(whoisInfo, "registrar", "N/A");
    assert '\n' !in MapGet(whoisInfo, "name_servers", "N/A");
    assert '\n' !in MapGet(whoisInfo, "creation_date", "N/A");
  }

  /** No summary line holds a line break when none of the stored texts
      does. */
  lemma {:induction false} SummaryLinesAvoidNewline(pageCount: nat, elapsed: string, subdomains: seq<string>,
                                                    whoisInfo: map<string, string>, cmsInfo: Option<string>)
    requires '\n' !in elapsed
    requires forall k :: 0 <= k < |subdomains| ==> '\n' !in subdomains[k]
    requires forall key | key in whoisInfo :: '\n' !in whoisInfo[key]
    requires cmsInfo.Some? ==> '\n' !in cmsInfo.value
    ensures var lines := SummaryLines(pageCount, elapsed, subdomains, whoisInfo, cmsInfo);
            forall k :: 0 <= k < |lines| ==> '\n' !in lines[k]
  {
    var head := ["Total Pages Crawled: " + NatToString(pageCount),
                 "Time Taken for Crawling: " + elapsed + " seconds",
                 SubdomainLine(subdomains)];
    HeadLabelsAvoidNewline();
    CmsLabelsAvoidNewline();
    SubdomainLineAvoidsNewline(subdomains);
    WhoisLinesAvoidNewline(whoisInfo);
    assert '\n' !in CmsLine(cmsInfo);
    assert forall k :: 0 <= k < |head| ==> '\n' !in head[k];
    var lines := SummaryLines(pageCount, elapsed, subdomains, whoisInfo, cmsInfo);
    forall k | 0 <= k < |lines|
      ensures '\n' !in lines[k]
    {
      if k < 3 {
        assert lines[k] == head[k];
      } else if k < 3 + |WhoisLines(whoisInfo)| {
        assert lines[k] == WhoisLines(whoisInfo)[k - 3];
      }
    }
  }

  /** When none of the stored texts holds a line break, splitting the summary
      text at line breaks gives back the summary lines. */
  lemma {:induction false} SummaryTextSplits(pageCount: nat, elapsed: string, subdomains: seq<string>,
                                             whoisInfo: map<string, string>, cmsInfo: Option<string>)
    requires '\n' !in elapsed
    requires forall k :: 0 <= k < |subdomains| ==> '\n' !in subdomains[k]
    requires forall key | key in whoisInfo :: '\n' !in whoisInfo[key]
    requires cmsInfo.Some? ==> '\n' !in cmsInfo.value
    ensures var lines := SummaryLines(pageCount, elapsed, subdomains, whoisInfo, cmsInfo);
            Split(JoinWith(lines, "\n"), '\n') == lines
  {
    SummaryLinesAvoidNewline(pageCount, elapsed, subdomains, whoisInfo, cmsInfo);
    SplitJoin(SummaryLines(pageCount, elapsed, subdomains, whoisInfo, cmsInfo), '\n');
  }

  class SiteCrawler {
    /** `start_urls[0]`. */
    const startUrl: string
    /** The authority of the start address; links must contain it. */
    const domain: string
    /** `visited_pages`: the normalised addresses of the pages parsed. */
    var visited: set<string>
    /** `page_count`. */
    var pageCount: nat
    /** What the subdomain lookup found. */
    var subdomains: seq<string>
    /** What the whois lookup stored, by key. */
    var whoisInfo: map<string, string>
    /** `cms_info`, absent until the CMS lookup sets it. */
    var cmsInfo: Option<string>
    /** `summary_data`: the start address and the summary text. */
    var summaryData: seq<string>

    /** The counter counts the visited pages. */
    ghost predicate Valid()
      reads this
    {
      pageCount == |visited|
    }

    constructor(url: string)
      ensures startUrl == WithScheme(url) && domain == ParseUrl(startUrl, "").netloc
      ensures visited == {} && pageCount == 0
      ensures subdomains == [] && whoisInfo == map[] && cmsInfo == None && summaryData == []
      ensures Valid()
    {
      var start := url;
      if !StartsWithAny(start, WebPrefixes) {
        start := "https://" + start;
      }
      startUrl := start;
      domain := ParseUrl(start, "").netloc;
      visited := {};
      pageCount := 0;
      subdomains := [];
      whoisInfo := map[];
      cmsInfo := None;
      summaryData := [];
    }

    /** Lines 38-45 of `parse`: record the normalised address of the page
        and count it if it is new. */
    method Visit(url: string)
      requires Valid()
      modifies `visited, `pageCount
      ensures Valid()
      ensures visited == old(visited) + {NormalizeUrl(url)}
      ensures pageCount == old(pageCount) + (if NormalizeUrl(url) in old(visited) then 0 else 1)
    {
      var normalized := NormalizeUrl(url);
      if normalized !in visited {
        visited := visited + {normalized};
        pageCount := pageCount + 1;
      }
    }

    /** `parse(response)` for a response from `url` with the given status
        and anchors: count the page if its normalised address is new, then
        return the links to follow. */
    method Parse(url: string, status: int, hrefs: seq<string>) returns (links: seq<string>)
      requires Valid()
      modifies `visited, `pageCount
      ensures Valid()
      ensures status in IgnoredStatuses ==>
                visited == old(visited) && pageCount == old(pageCount) && links == []
      ensures status !in IgnoredStatuses ==>
                && visited == old(visited) + {NormalizeUrl(url)}
                && pageCount == old(pageCount) + (if NormalizeUrl(url) in old(visited) then 0 else 1)
                && links == FollowedLinks(hrefs, url, domain)
    {
      if status in IgnoredStatuses {
        return [];
      }
      Visit(url);
      links := [];
      for i := 0 to |hrefs|
        modifies {}
        invariant links == FollowedLinks(hrefs[..i], url, domain)
      {
        FollowedLinksAppend(hrefs[..i], [hrefs[i]], url, domain);
        FollowedLinksSingle(hrefs[i], url, domain);
        TakeOneMore(hrefs, i);
        match Classify(hrefs[i], url, domain)
        case Follow(absolute) =>
          links := links + [absolute];
        case Skip(_) =>
      }
      assert hrefs[..|hrefs|] == hrefs;
    }

    /** `print_final_summary()`, with the elapsed time given as text. */
    method PrintFinalSummary(elapsed: string)
      modifies `summaryData
      ensures summaryData == [startUrl, JoinWith(SummaryLines(pageCount, elapsed, subdomains, whoisInfo, cmsInfo), "\n")]
    {
      var summary := ["Total Pages Crawled: " + NatToString(pageCount)];
      summary := summary + ["Time Taken for Crawling: " + elapsed + " seconds"];
      if |subdomains| > 0 {
        summary := summary + ["Subdomains Found: " + JoinWith(subdomains, ", ")];
      } else {
        summary := summary + ["Subdomains Found: None"];
      }
      assert summary == ["Total Pages Crawled: " + NatToString(pageCount),
                         "Time Taken for Crawling: " + elapsed + " seconds",
                         SubdomainLine(subdomains)];
      if |whoisInfo| > 0 {
        summary := summary + ["Whois Information:"];
        summary := summary + ["  Registrar: " + MapGet(whoisInfo, "registrar", "N/A")];
        summary := summary + ["  Name Servers: " + MapGet(whoisInfo, "name_servers", "N/A")];
        summary := summary + ["  Creation Date: " + MapGet(whoisInfo, "creation_date", "N/A")];
      } else {
        summary := summary + ["Whois Information: None"];
      }
      assert summary == ["Total Pages Crawled: " + NatToString(pageCount),
                         "Time Taken for Crawling: " + elapsed + " seconds",
                         SubdomainLine(subdomains)] + WhoisLines(whoisInfo);
      if cmsInfo.Some? {
        summary := summary + ["CMS Information: " + cmsInfo.value];
      } else {
        summary := summary + ["CMS Information: Not available"];
      }
      assert summary == SummaryLines(pageCount, elapsed, subdomains, whoisInfo, cmsInfo);
      summaryData := [startUrl, JoinWith(summary, "\n")];
    }
  }
}
