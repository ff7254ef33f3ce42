# Advanced Web Crawler — a Dafny model of `SiteCrawler`

The crawler is a Scrapy spider, `SiteCrawler` in `main.py`, that crawls one site.
This project models the part of it that decides things:

- The constructor fixes the start address and the crawl domain. An address without
  `http://` or `https://` gets `https://` in front. The domain is the authority
  (`netloc`) of the address.
- `parse` handles one fetched page:
  - It ignores the statuses 400, 404 and 410.
  - It normalises the page address by clearing the query and the fragment.
  - It records the normalised address in the visited set, and counts it when it is new.
  - It runs every `href` of the page through a chain of six tests, in this order:
    1. the raw href starts with `mailto:`, `tel:` or `javascript:`;
    2. the raw href holds a `?`;
    3. after resolution against the page address, the scheme is not `http`/`https`;
    4. the path ends in one of 13 document or image extensions;
    5. the crawl domain is not a substring of the authority;
    6. the resolved address holds `page=`, `next`, `sort=` or `filter=`.
  - It yields the resolved address of each href that passes all six, in href order.
- `print_final_summary` assembles the summary lines and stores them, joined by
  newlines, next to the start address.

The project has five modules:

- `Wrappers` (`wrappers.dfy`): `Option`.
- `Strings` (`strings.dfy`): the Python string operations the code uses. These are
  `str.find`, `startswith`/`endswith` with tuples, the `in` substring test, `split`,
  `join` and `str(int)`.
- `Urls` (`urls.dfy`): a model of `urllib.parse` as `main.py` uses it. The model
  follows `urllib.parse` of CPython 3.12.13. Older 3.12 releases write `//` in
  `urlunsplit` under a different rule, and `ParseUnparse` does not hold for them.
  - `urlparse` is `ParseUrl`, and `geturl` is `UnparseUrl`.
  - `ParseUrl` first cleans the address up as `urlsplit` does (`CleanUrl`). It strips
    C0 control characters and spaces from the left only. Then it deletes every tab,
    carriage return and line feed. The default scheme is stripped on both sides
    and cleaned the same way (`CleanScheme`).
  - `urljoin` is `JoinUrl`, with its scheme lists, its `//` authority rule and its
    dot-segment loop.
  - The normalisation of line 39 is `NormalizeUrl`.
- `LinkFilter` (`linkfilter.dfy`): the filter chain of one href (`Classify`) and of a
  page's hrefs (`FollowedLinks`).
- `Crawler` (`crawler.dfy`):
  - the start address (`WithScheme`);
  - the summary lines (`SummaryLines`);
  - `class SiteCrawler`. Its fields are the visited set, the page counter and the
    summary inputs. Its methods are the constructor, `Visit`, `Parse` and
    `PrintFinalSummary`.

`SiteCrawler.Valid` is the class invariant: the page counter equals the size of the
visited set.

`Parse` returns the followed links as a sequence. Its loop is specified by
`FollowedLinks`. That function takes no visited set, so the links a page yields never
depend on which pages were already seen.

Three behaviours of `main.py` are easy to miss:

- A response with status 400, 404 or 410 is not counted and yields no links
  (`main.py:34-36`). `Parse` leaves the state unchanged for those statuses.
- A page is marked visited when its response is parsed (`main.py:42-44`). `Parse`
  does that.
- `urlparse` and `urljoin` raise `ValueError` on a bracketed authority they reject, and
  `parse` does not catch it. The exception ends the page's generator, so the later hrefs
  of that page yield nothing, although the page was already counted. That path is left
  out below.

## Model

| member | source | states |
|---|---|---|
| Crawler.WithSchemePrefix | main.py:21-22 | the fixed start address starts with `http://` or `https://`, and fixing it again changes nothing |
| Crawler.StartUrlScheme | main.py:21-24 | the scheme `urlparse` reads from the fixed start address is `http` or `https` |
| Crawler.StartDomainClean | main.py:24 | the crawl domain taken from the start address holds no `/`, `?` or `#` |
| Crawler.StartUrlDomain | main.py:21-24 | for a bare host followed by a path, query or fragment, the crawl domain is that host with any tab or line break deleted, and exactly the host when it has none |
| Crawler.SchemeOfPrefix | main.py:21-24 | text that starts with a lower-case scheme and `:` parses with that scheme |
| Crawler.SiteCrawler.constructor | main.py:18-30 | start address fixed, domain is its authority, visited set empty, counter 0, summary inputs empty; the invariant holds |
| Crawler.SiteCrawler.Visit | main.py:38-44 | the normalised address is added to the visited set; the counter grows by one exactly when it was not there; the invariant is kept |
| Crawler.SiteCrawler.Parse | main.py:32-74 | status 400/404/410: nothing changes and nothing is yielded; otherwise the page is visited as in `Visit` and the links are exactly `FollowedLinks(hrefs, url, domain)`, which does not depend on the visited set |
| Crawler.SiteCrawler.PrintFinalSummary | main.py:152-182 | the stored summary is the start address and the summary lines joined by newlines; nothing else changes |
| Crawler.SummaryShape | main.py:156-174 | the summary has 8 lines when whois data is stored and 5 otherwise; the whois fallback line appears exactly when nothing is stored; the subdomain and CMS fallbacks appear when that data is missing; the registrar line reads `N/A` for a missing key |
| Crawler.SummaryPageCount | main.py:157 | the first line is the label followed by decimal digits whose value is the page count |
| Crawler.SubdomainLineAvoidsNewline | main.py:160-163 | the subdomain line holds no newline when no subdomain does |
| Crawler.WhoisLinesAvoidNewline | main.py:164-170 | no whois line holds a newline when no stored value does |
| Crawler.SummaryLinesAvoidNewline | main.py:156-174 | no summary line holds a newline when none of the inputs does |
| Crawler.SummaryTextSplits | main.py:182 | splitting the stored text on newlines gives back the summary lines, so the lines can be recovered from the stored text |
| LinkFilter.ClassifyFollows | main.py:48-74 | an href is followed if and only if it passes the two raw tests and its resolved address is admissible (web scheme, no blocked extension, domain inside the authority, no trap marker); what is followed is `urljoin(page, href)` |
| LinkFilter.EarlyRejectSkips | main.py:50-55 | an href with a `mailto:`/`tel:`/`javascript:` prefix or a `?` is skipped before it is resolved, and the reason is the first test it fails |
| LinkFilter.RelativeLinkStaysOnSite | main.py:58-70 | a relative href, one without a scheme or `//` once `urlsplit` has cleaned it up, on a page of the crawled domain, is never dropped for its scheme or for being off the domain |
| LinkFilter.ForeignSchemeSkipped | main.py:58-63 | on a web page, an href with a scheme other than http/https is always skipped, also behind leading spaces or control characters, and for the scheme test when it passes the raw tests |
| LinkFilter.Decisions | main.py:48-74 | there is one decision per href, and the one at position k is the decision for the k-th href |
| LinkFilter.DecisionsAppend | main.py:48 | classifying a concatenation of href lists is concatenating their classifications |
| LinkFilter.FollowedOrder | main.py:48-74 | the yielded links are the `Follow` decisions at strictly increasing positions, and every other position is a `Skip` |
| LinkFilter.FollowedIndicesShape | main.py:48-74 | at most one link per href; the positions of yielded links are in range and strictly increasing |
| LinkFilter.FollowedMatches | main.py:74 | the k-th yielded link is the address of the k-th `Follow` decision |
| LinkFilter.FollowedSkips | main.py:50-73 | every position that yields no link holds a `Skip` |
| LinkFilter.FollowedAppend | main.py:48-74 | yielding over concatenated decisions is concatenating the yields |
| LinkFilter.FollowedNone | main.py:48-73 | a page whose hrefs are all skipped yields nothing |
| LinkFilter.FollowedLinksAdmissible | main.py:58-74 | every yielded link is admissible: web scheme, no blocked extension, the domain inside its authority, no trap marker |
| LinkFilter.FollowedLinksOrder | main.py:48-74 | the k-th link is `urljoin(page, hrefs[i_k])` with strictly increasing `i_k`, the href at each `i_k` is classified `Follow`, and every href that yields nothing is classified `Skip` |
| LinkFilter.FollowedLinksAppend | main.py:48-74 | the links of a concatenation of href lists are the concatenation of their links |
| LinkFilter.FollowedLinksSingle | main.py:48-74 | one href yields its resolved address when followed and nothing when skipped |
| LinkFilter.EarlyRejectsYieldNothing | main.py:50-55 | a page whose hrefs all fail the raw tests yields no link |
| Urls.NormalizeUrlParses | main.py:39 | parsing the normalised address gives the parsed address with query and fragment cleared and every other part unchanged |
| Urls.NormalizeUrlIdempotent | main.py:39 | normalising twice is normalising once |
| Urls.NormalizeUrlSamePage | main.py:39-42 | two addresses normalise to the same text if and only if they agree in scheme, authority, path and params |
| Urls.ParseUnparse | main.py:39 | for a well-formed record, `urlparse(urlunparse(u)) == u` |
| Urls.ParseUrlWellFormed | main.py:39 | every result of `urlparse` is well formed, so the round trip applies to it |
| Urls.AuthorityRoundTrip | main.py:58-59 | writing a record with a lower-case scheme, a clean authority and no tab or line break, then parsing it again, keeps scheme and authority, whatever the path |
| Urls.JoinRelativeKeepsAuthority | main.py:58-59 | resolving a reference without a scheme or `//` once cleaned up, against a base whose scheme carries an authority, keeps the base's scheme and authority |
| Urls.ParseRelative | main.py:58 | a reference without a scheme or `//` once cleaned up parses with the default scheme, no authority and no tab or line break |
| Urls.ResolveKeepsAuthority | main.py:58 | resolving a reference without an authority against a well-formed base keeps the base's scheme and authority and brings in no tab or line break |
| Urls.JoinForeignScheme | main.py:58 | a reference whose scheme, read after the clean-up, differs from the base's or is not resolved relatively comes back unchanged, uncleaned |
| Urls.MergePathDotFree | main.py:58 | no segment of a merged path is `.` or `..` (dot-segment removal, section 5.2.4 of RFC 3986) |
| Urls.ResolveDotsClean | main.py:58 | the segment loop leaves no `.`/`..` and creates no segment with a character (such as `/`) that no input segment holds |
| Urls.MergePathAvoids | main.py:58 | a character other than `/` that neither path holds is not in the merged path |
| Urls.MergePathSafe | main.py:58 | merging paths without tabs or line breaks creates none |
| Urls.SplitParamsRejoin | main.py:59 | the path and params `urlparse` splits off are a prefix of the text and rejoin to it |
| Urls.SplitOnceParts | main.py:39 | splitting at the first `#` or `?` gives a head free of it and, when it occurs, the text back as head, separator, tail |
| Urls.SplitNetlocParts | main.py:24 | the authority ends at the first `/`, `?` or `#` and holds none of them |
| Urls.ToLower | main.py:62 | lower-casing keeps the length, turns a scheme name into a scheme as `urlparse` reports it, and leaves an already lower-case scheme unchanged, so `parsed_href.scheme` compares against lower-case names |
| Urls.CleanUrlClean | main.py:58-59 | the cleaned address holds no tab, carriage return or line feed and does not start with a control character or a space |
| Urls.CleanUrlKeeps | main.py:58-59 | the clean-up leaves an address unchanged if and only if it holds no tab or line break and does not start with a control character or a space |
| Urls.CleanUrlAfterScheme | main.py:21-24 | after a scheme and its `:`, the clean-up only deletes tabs and line breaks |
| Urls.CleanSchemeKeeps | main.py:58 | the default schemes `urljoin` passes, empty or a parsed scheme, survive their clean-up unchanged |
| Urls.RemoveUnsafeKeeps | main.py:58-59 | deleting tabs and line breaks leaves a text without them unchanged |
| Urls.RemoveUnsafeAppend | main.py:21-24 | deleting tabs and line breaks works piece by piece over a concatenation |
| Urls.RemoveUnsafeNoneOf | main.py:21-24 | deleting tabs and line breaks introduces no character the text did not hold |
| Urls.CleanUnparse | main.py:39 | the clean-up leaves the written form of a well-formed record unchanged |
| Urls.UnparseSafe | main.py:39 | a record without tabs or line breaks is written without them |
| Strings.ContainsIff | main.py:70-72 | Python's `in` on strings, scanned from the left, holds exactly when the needle occurs at some position |
| Strings.SplitJoin | main.py:182 | splitting a joined text on a separator that no piece holds gives the pieces back |
| Strings.JoinSplit | main.py:182 | joining the pieces of a split with the separator gives the text back |
| Strings.JoinWithAvoids | main.py:161 | a character in neither the pieces nor the separator is not in the joined text |
| Strings.NatToString | main.py:157 | `str(n)` is a non-empty run of decimal digits, without a leading zero, whose value is `n` |
| Strings.FirstOfSkips | main.py:24 | nothing before the position `find` reports belongs to the searched set |
| Strings.FirstOfUnique | main.py:24 | the position `find` reports is the only one with no earlier match and a match (or the end) at it |

## Left out

- Scrapy itself is left out: the scheduler, request dispatch, the download, `response.follow`,
  callbacks, depth settings and concurrency. `Parse` takes the status, the address and the
  hrefs of an already fetched page and returns the links instead of yielding requests.
- The extraction of the hrefs with the CSS selector `a::attr(href)` is left out. The hrefs
  are a parameter.
- Logging and `print` are left out, and so is `closed`, which only calls the other
  operations in turn.
- The lookups are left out: `get_subdomains` (Sublist3r), `get_cms_info` (BuiltWith) and
  `get_whois_info` (python-whois). They are network calls. Their results are the
  `subdomains`, `cmsInfo` and `whoisInfo` fields, which a caller may set.
- `write_summary_to_csv` is file I/O and is left out.
- The clock is left out. The elapsed time reaches `PrintFinalSummary` as the already
  formatted text of `{elapsed_time:.2f}`. Floating point formatting is not modelled.
- `start_urls` is modelled as the one address `startUrl`, which is all the constructor
  ever stores.
- Crawler.SiteCrawler.Valid: states only that the counter equals the size of the visited
  set, not that every entry is a normalised address. That second fact does follow from
  `Visit`'s postcondition, since only normalised addresses are ever added.
- Urls.ParseUrl: does not model any `ValueError` that `urlsplit` raises. It raises one on a
  bracketed authority: an unbalanced `[` or `]`, text before the `[`, text between the `]`
  and the `:` of a port, or a bracketed host that is not an IPv6 address or a valid
  IPvFuture literal (an IPv4 address included). It also raises one from the NFKC check on
  non-ASCII authorities. Checking an IP address needs `ipaddress`, and the NFKC check
  needs Unicode tables. `ParseUrl` returns a record for these inputs instead.
- LinkFilter.FollowedLinks: classifies every href of a page. When `urljoin` or `urlparse`
  raises on one href (`main.py:58-59`), the crawler yields nothing for the rest of that
  page. For example, with the hrefs `["//[zz]/", "/b"]` on `https://example.com/a`, the
  crawler yields no link, but `FollowedLinks` yields `https://example.com/b`. The visit
  and the count of the page (`main.py:42-44`) happen before the loop and are unaffected.
- `Crawler.SiteCrawler.Parse` returns the complete list of links. Python's generator
  produces them lazily, which changes nothing about which links come out or their order.
