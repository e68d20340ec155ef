# Source acquisition of the K-water report summariser, in Dafny

The application in `app.py` finds a research report to summarise. It looks
for the report on the ALIO public-disclosure portal and falls back to a web
search. This project models that acquisition pipeline and proves its
properties:

- **Text normalisation** (`clean_text`): every run of whitespace collapses
  to one space and the ends are trimmed. Python's `str.split()` whitespace
  is modelled character by character.
- **The acceptance gate** of `fetch_url_text`: a page counts only if its
  cleaned text has at least 500 characters.
- **Link extraction** (`extract_alio_report_links`, `extract_pdf_links`):
  anchors are scanned in document order and matching hrefs are resolved
  against the page's `scheme://netloc`. Collection stops once the cap is
  reached, and only then are repeated links dropped.
- **The listing test** (`looks_like_alio_listing`) and the result loop of
  **`search_kwater_reports`**.
- **The fallback chain of `get_source_text`**: report links of a listing
  page, then the primary URL, then the search hits. The first readable page
  wins. The model also returns the trace of requests issued, so the order of
  the chain can be stated and proved.

The network is a parameter (`Web.Net`):

- `get` maps a URL to `Unreachable` (any `requests.RequestException`) or to
  a `Page`. A page is abstracted as its visible text and the hrefs of its
  `a[href]` anchors.
- `search` maps a query to `SearchFailed` or to the hrefs of the
  result anchors.
- `urlparse`/`urljoin` are the two functions of `Links.UrlOps`. Reference
  resolution (section 5.2 of RFC 3986) is not re-implemented.

Files: `wrappers.dfy` (Option), `strings.dfy` (Python `in`, `startswith`,
`lower`), `text.dfy`, `links.dfy`, `web.dfy`, `resolver.dfy`.

Two details of the code the model follows exactly:

- The cap test runs after every anchor, matching or not, and counts
  candidates before deduplication. With `max_links <= 0` the loop therefore
  stops after the first anchor, which may still add one candidate.
- The second call site (app.py:338) re-runs the whole of `get_source_text`
  on a URL chosen from a listing, listing detection included, so it needs
  no model of its own.

## Model

| member | source | states |
|---|---|---|
| `Strings.Contains` | app.py:86 | defines Python's `sub in s`, used by the report test (app.py:86), the document test (app.py:106) and the listing test (app.py:120) |
| `Strings.ContainsIff` | app.py:119-120 | Python's `sub in s` holds exactly when `sub` occurs at some position of `s` |
| `Strings.ContainsLonger` | app.py:86 | a string containing `a + b` contains `a` |
| `Strings.StartsWith` | app.py:131 | defines `str.startswith`: the prefix test of the search-result filter |
| `Strings.Lower` | app.py:105 | defines `str.lower()` on ASCII letters, applied to an href before the document test |
| `Strings.LowerProperties` | app.py:105 | lower-casing keeps the length, leaves no upper-case ASCII letter and is idempotent |
| `Text.IsWhitespace` | app.py:31-32 | defines the whitespace of `str.split()` and `str.strip()`: exactly the characters for which Python's `str.isspace()` holds |
| `Text.TakeWord` | app.py:31 | the first word is a whitespace-free prefix ended by whitespace or by the end of the text |
| `Text.Words` | app.py:31 | `str.split()` yields only non-empty, whitespace-free words |
| `Text.WordsSkipsWhitespace` | app.py:31 | a whitespace character before the text contributes nothing to its split, so any run of whitespace is skipped |
| `Text.WordsAfterFirstWord` | app.py:31 | text starting with a non-whitespace character splits into its longest whitespace-free prefix followed by the words after the whitespace that ends it |
| `Text.Join` | app.py:31 | defines `" ".join`: the words separated by single spaces |
| `Text.Strip` | app.py:32 | defines `str.strip()`: the text without leading and trailing whitespace |
| `Text.CleanText` | app.py:30-32 | defines `clean_text` as split, join with single spaces, then strip |
| `Text.AcceptText` | app.py:48-51 | the gate returns None exactly when the cleaned text is shorter than 500 characters, otherwise the cleaned text unchanged |
| `Text.JoinNormalized` | app.py:31 | joining words with single spaces yields normalised text |
| `Text.WordsOfJoin` | app.py:31 | splitting the join of words gives back exactly those words (round trip) |
| `Text.CleanTextNormalized` | app.py:30-32 | `clean_text` output has no whitespace at either end and no whitespace except single spaces between words; the final `strip` changes nothing |
| `Text.CleanTextKeepsWords` | app.py:31 | `clean_text` keeps the input's words exactly, in order |
| `Text.CleanTextIdempotent` | app.py:30-32 | applying `clean_text` twice equals applying it once |
| `Text.JoinWordsOfNormalized` | app.py:30-32 | normalised text is the join of its own words |
| `Text.CleanTextFixpoints` | app.py:30-32 | `clean_text` leaves a string unchanged if and only if it is already normalised |
| `Text.AcceptedTextProperties` | app.py:48-51 | accepted text is normalised and passes the gate again unchanged |
| `Links.IsReportHref` | app.py:86 | defines the report-link test: the href contains "itemDetail.do", "itemDetail" or "itemDetailInfo" |
| `Links.IsDocumentHref` | app.py:105-106 | defines the document-link test: the lower-cased href contains ".pdf", "filedown" or "download" |
| `Links.ResolveHref` | app.py:82-87 | defines resolution of an href against the `scheme://netloc` of the page URL |
| `Links.ReportHrefIsItemDetail` | app.py:86 | the three report tokens reduce to one case-sensitive test for "itemDetail" |
| `Links.DocumentHrefIgnoresCase` | app.py:105-106 | the document-link test gives the same answer on an href and on its lower-cased form |
| `Links.DownloadLinkIsDocument` | app.py:105-106 | the relative href "/files/download?id=5" is a document link |
| `Links.Collected` | app.py:84-87 | every collected link is the resolution of a matching href of the page, and there are no more links than anchors |
| `Links.CollectedComplete` | app.py:84-87 | conversely, the resolution of every matching href is collected |
| `Links.ScanFrom` | app.py:84-89 | from a given anchor on, the loop examines anchors up to and including the first one that brings the count to the cap, or all of them |
| `Links.ScanLength` | app.py:84-89 | the loop examines at least one anchor of a non-empty page, stops right after the first anchor that brings the count to the cap, and otherwise examines every anchor |
| `Links.Candidates` | app.py:83-89 | defines the `candidates` list: the resolved matches among the anchors the stopping rule examines, duplicates kept |
| `Links.CollectCandidates` | app.py:83-89 | the collection loop yields exactly the resolved matches among the anchors the stopping rule lets it examine |
| `Links.FirstIndex` | app.py:92-95 | the first position at which a link occurs |
| `Links.Dedup` | app.py:90-95 | defines deduplication: each link kept at its first occurrence only |
| `Links.DedupElements` | app.py:90-95 | deduplication keeps exactly the same set of links, leaves no repeat and never lengthens the list |
| `Links.FirstIndexSnoc` | app.py:92-95 | appending a link does not move the first occurrence of a link already present |
| `Links.DedupOrder` | app.py:90-95 | deduplicated links follow the order of their first occurrence |
| `Links.Deduplicate` | app.py:90-95 | the `seen`/`deduped` loop computes the first-occurrence deduplication |
| `Links.ExtractedLinks` | app.py:83-96 | defines an extractor's result: the capped candidate list, deduplicated |
| `Links.ExtractAlioReportLinks` | app.py:80-96 | the report-link extractor is capped collection with the "itemDetail" test, then deduplication |
| `Links.ExtractPdfLinks` | app.py:99-116 | the document-link extractor is capped collection with the ".pdf"/"filedown"/"download" test on the lower-cased href, then deduplication |
| `Links.CollectedStep` | app.py:86-87 | one more anchor adds at most one candidate |
| `Links.CandidatesBound` | app.py:87-89 | at most `max_links` candidates, duplicates included, when `max_links >= 1`; at most one when `max_links <= 0` |
| `Links.LaterAnchorsIgnored` | app.py:88-89 | anchors after the one that fills the cap are never examined: appending anchors changes nothing |
| `Links.DuplicatesCountTowardCap` | app.py:83-95 | with cap 2 the page ["a", "a", "b"] yields only ["a"]: duplicates use up the cap |
| `Links.ExtractedLinksProperties` | app.py:83-96 | an extractor's result has no repeats; each link resolves a matching href; every matching href among the examined anchors is resolved into it; it holds the same links as the capped candidates, in first-occurrence order; and it is bounded by the cap |
| `Web.FetchUrlText` | app.py:35-51 | a fetch fails exactly when the request raises and is too short exactly when the gate rejects; readable text is the normalised, cleaned page text of at least 500 characters |
| `Web.IsHttpHref` | app.py:131 | defines the result-link test: the href starts with "http" |
| `Web.SearchHits` | app.py:128-135 | defines the kept results: the http-prefixed hrefs among the result anchors the stopping rule examines |
| `Web.SearchKwaterReports` | app.py:123-135 | a failed search yields None; otherwise the result is the http-prefixed hrefs in document order, collected under the same stopping rule |
| `Web.SearchHitsProperties` | app.py:128-135 | every kept result starts with "http" and is an href of the result page; there are at most `max_results` when `max_results >= 1` |
| `Resolver.LooksLikeAlioListing` | app.py:119-120 | defines the listing test: the URL contains "searchTotal.do" or "itemOrganList.do" |
| `Resolver.ShippedListingsRecognised` | app.py:16-20 | both portal URLs the application ships with look like listings |
| `Resolver.FirstReadable` | app.py:145-151 | the index of the first candidate whose page passes the gate: every earlier one fails |
| `Resolver.Attempt` | app.py:145-151 | defines a candidate loop's outcome: the first readable candidate, after requesting every candidate up to it, or nothing after requesting all |
| `Resolver.ListingCandidates` | app.py:140-144 | defines the listing candidates: the report links of the listing page, none when it cannot be fetched |
| `Resolver.ListingStage` | app.py:139-151 | defines the listing stage: nothing unless the URL looks like a listing, else the listing fetch followed by the candidate loop |
| `Resolver.SearchStage` | app.py:160-172 | defines the search stage: the search, then nothing if it failed, else the candidate loop over its hits marked as fallback |
| `Resolver.Resolve` | app.py:138-172 | defines `get_source_text` with its request trace: listing stage, direct fetch, search stage, stopping at the first success |
| `Resolver.TryCandidates` | app.py:165-171 | a candidate loop fetches candidates in order, skips failures and short pages, and returns the first readable one |
| `Resolver.AttemptProperties` | app.py:165-171 | a candidate loop requests only its candidates; it finds nothing exactly when no candidate is readable; what it returns is readable and was its last request |
| `Resolver.ListingStageProperties` | app.py:139-151 | listing candidates are tried only for a listing URL, after fetching the listing page; a listing result is one of its report links |
| `Resolver.SearchStageProperties` | app.py:160-172 | the search stage issues the search first and then only fetches; a failed search yields nothing; a result is a readable search hit marked as fallback |
| `Resolver.TryListing` | app.py:139-151 | the listing stage of `get_source_text` |
| `Resolver.TrySearch` | app.py:160-172 | the search stage of `get_source_text` |
| `Resolver.GetSourceText` | app.py:138-172 | `get_source_text` returns, and requests, exactly what the listing, direct and search stages prescribe |
| `Resolver.ResolvedSourceIsReadable` | app.py:150-171 | any returned result carries the cleaned text of its own URL, at least 500 characters and normalised, and that URL was the last request |
| `Resolver.FallbackIffSearched` | app.py:151-171 | `is_fallback` holds exactly when the search was issued; a fallback URL is a search hit; any other result is the primary URL or a report link of its listing |
| `Resolver.ListingOnlyForListings` | app.py:139-161 | the first request is always the primary URL; for a non-listing URL the only possible next request is the search |
| `Resolver.ListingHitWins` | app.py:145-151 | the first readable report link of a listing is returned, with neither the direct fetch nor the search issued |
| `Resolver.ListingExhaustedThenDirect` | app.py:139-156 | when no report link is readable, the listing URL itself is fetched right after all of them were tried |
| `Resolver.SearchOnlyAfterDirectFailure` | app.py:153-163 | the search is issued at most once, right after a direct fetch that failed or was too short, and only when the listing stage found nothing |
| `Resolver.DirectSuccessSkipsSearch` | app.py:153-156 | a readable primary URL yields a non-fallback result and no search |
| `Resolver.DirectFailureFallsBackToSearch` | app.py:153-172 | when the listing stage finds nothing and the direct fetch fails or is too short, the search is issued; a failed search yields nothing, otherwise the result is the first readable search hit in order, marked as fallback, or nothing |
| `Resolver.SearchFailureIsTerminal` | app.py:160-163 | a failed search ends the resolution with nothing found, the search being the last request |

## Left out

- HTTP itself is not modelled: request headers (the fixed user agent), timeouts and status codes. The model sees only success or failure.
- HTML parsing is not modelled: BeautifulSoup, removal of script/style/noscript elements and `get_text(" ")`. A page is its extracted raw text and its anchor hrefs.
- Exceptions other than `requests.RequestException` (parser errors, for example) propagate out of `get_source_text` in the code; they are not modelled.
- The network is a function of the URL. Within one resolution, the same URL yields the same response. In particular, the listing fetch (app.py:141) and the direct fetch (app.py:154) of the primary URL see the same page.
- `urlparse` and `urljoin` are uninterpreted parameters. So is the construction of the search URL with `quote`: the search response is a function of the query.
- `Strings.Lower`: only ASCII letters are lower-cased, unlike Python's full Unicode `str.lower()`. The three document tokens are ASCII. The only non-ASCII characters that lower-case to ASCII letters are U+212A (to "k", a letter in no token) and U+0130 (to "i" plus a combining mark, which breaks any match). So the test gives the same answers.
- `fetch_binary` and its `st.cache_data` memoisation (app.py:66-77) are not modelled: they are binary I/O plus a framework cache.
- `set_source_state` (app.py:175-183) is left out: it is session-state glue around `extract_pdf_links`, which is modelled.
- The Streamlit UI, the OpenAI client, the prompt builders and the logo encoding (app.py:186-428) are left out: UI and foreign API glue.
- `Web.SearchHitsProperties` does not restate document order as a separate property. Order follows from the definition of `Links.Collected`, which keeps hrefs in scan order.
