/**
 The network boundary of app.py: `fetch_url_text` (app.py:35-51),
 `fetch_html` (app.py:54-63) and `search_kwater_reports` (app.py:123-135).

 The network is a parameter.  `Net.get` gives what a GET of a URL yields:
 either a failure (any `requests.RequestException`: a connection error, a
 timeout or a 4xx or 5xx status raised by `raise_for_status`) or a page,
 abstracted as its visible text (BeautifulSoup's `get_text(" ")` after
 script, style and noscript elements are removed) and the hrefs of its
 `a[href]` anchors in document order.  `Net.search` gives what the search
 engine's result page yields for a query: a failure, or the hrefs of its
 `a.result__a` anchors in document order (a missing href is the empty
 string, which fails the same test).
 */
module Web {
  import opened Wrappers
  import opened Strings
  import opened Text
  import opened Links

  datatype Response = Unreachable | Page(text: string, hrefs: seq<string>)

  datatype SearchResponse = SearchFailed | Results(hrefs: seq<string>)

  datatype Net = Net(get: string -> Response, search: string -> SearchResponse, urls: UrlOps)

  /** The three outcomes of `fetch_url_text` for its caller: the request
      raised, the page text failed the length gate (`None`), or the
      cleaned text. */
  datatype Fetched = FetchFailed | TooShort | Readable(text: string)

  /** `fetch_url_text` (app.py:35-51). */
  function FetchUrlText(net: Net, url: string): (r: Fetched)
    ensures r.FetchFailed? <==> net.get(url).Unreachable?
    ensures r.TooShort? <==> net.get(url).Page? && AcceptText(net.get(url).text).None?
    ensures r.Readable? ==> |r.text| >= MinTextLength && Normalized(r.text)
    ensures r.Readable? ==> r.text == CleanText(net.get(url).text)
  {
    match net.get(url)
    case Unreachable => FetchFailed
    case Page(raw, _) =>
      CleanTextNormalized(raw);
      match AcceptText(raw)
      case None => TooShort
      case Some(cleaned) => Readable(cleaned)
  }

  /** The result-link test of app.py:131. */
  predicate IsHttpHref(href: string)
  {
    StartsWith(href, "http")
  }

  /** Result hrefs are kept as they are, not resolved. */
  const AsIs: string -> string := href => href

  /** The URLs that the result loop of app.py:128-135 keeps. */
  function SearchHits(hrefs: seq<string>, maxResults: int): seq<string>
  {
    Candidates(IsHttpHref, AsIs, hrefs, maxResults)
  }

  /** `search_kwater_reports` (app.py:123-135): `None` models the
      `RequestException` it lets propagate. */
  method SearchKwaterReports(net: Net, query: string, maxResults: int) returns (results: Option<seq<string>>)
    ensures results.None? <==> net.search(query).SearchFailed?
    ensures results.Some? ==> results.value == SearchHits(net.search(query).hrefs, maxResults)
  {
    match net.search(query)
    case SearchFailed =>
      results := None;
    case Results(hrefs) =>
      var hits := CollectCandidates(IsHttpHref, AsIs, hrefs, maxResults);
      results := Some(hits);
  }

  /** Every kept result is an absolute http(s) href of the result page, and
      there are at most `maxResults` of them when `maxResults >= 1`. */
  lemma SearchHitsProperties(hrefs: seq<string>, maxResults: int)
    ensures forall x :: x in SearchHits(hrefs, maxResults) ==> StartsWith(x, "http") && x in hrefs
    ensures maxResults >= 1 ==> |SearchHits(hrefs, maxResults)| <= maxResults
  {
    CandidatesBound(IsHttpHref, AsIs, hrefs, maxResults);
    var k := ScanLength(IsHttpHref, AsIs, hrefs, maxResults);
    forall x | x in SearchHits(hrefs, maxResults) ensures StartsWith(x, "http") && x in hrefs {
      var h :| h in hrefs[..k] && IsHttpHref(h) && x == AsIs(h);
    }
  }
}
