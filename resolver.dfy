/**
 The source resolver `get_source_text` (app.py:138-172): try the report
 links of a listing page, then the primary URL itself, then the results of
 a web search, and return the first page whose cleaned text passes the
 length gate.

 Besides the result, the model returns the trace of requests issued, in
 order, so that the ordering of the fallback chain can be stated.  The
 second call site (app.py:338) runs the same function on a URL chosen from
 a listing and needs no separate model.
 */
module Resolver {
  import opened Wrappers
  import opened Strings
  import opened Text
  import opened Links
  import opened Web

  /** One network request: a GET of a URL, or a search for a query. */
  datatype Request = Fetch(url: string) | Search(query: string)

  /** `SourceResult` (app.py:23-27). */
  datatype SourceResult = SourceResult(url: string, text: string, isFallback: bool)

  /** A resolution: its result (`None` when nothing was found) and the
      requests it issued. */
  datatype Outcome = Outcome(source: Option<SourceResult>, trace: seq<Request>)

  /** The default `max_links` of `extract_alio_report_links`, used at app.py:142. */
  const ListingLinkCap: int := 8

  /** The default `max_results` of `search_kwater_reports`, used at app.py:161. */
  const SearchResultCap: int := 5

  /** `looks_like_alio_listing` (app.py:119-120). */
  predicate LooksLikeAlioListing(url: string)
  {
    Contains(url, "searchTotal.do") || Contains(url, "itemOrganList.do")
  }

  /** `ALIO_SEARCH_URL` (app.py:16-19), written around its listing marker. */
  const AlioSearchUrl: string :=
    "https://www.alio.go.kr/search/" + "searchTotal.do"
    + "?word=%ED%95%9C%EA%B5%AD%EC%88%98%EC%9E%90%EC%9B%90%EA%B3%B5%EC%82%AC+%EC%97%B0%EA%B5%AC%EB%B3%B4%EA%B3%A0%EC%84%9C&apbaNm=&targetList=jeonggi%2Csusi%2CinfoCenter%2Cemployment%2Cbid%2Cnotice&attachFileYn=Y&sortType=LATEST"

  /** `ALIO_ORGAN_LIST_URL` (app.py:20), written around its listing marker. */
  const AlioOrganListUrl: string :=
    "https://alio.go.kr/item/" + "itemOrganList.do" + "?apbaId=C0221&reportFormRootNo=B1040"

  /** The two listing URLs the application ships with are recognised as
      listings. */
  lemma ShippedListingsRecognised()
    ensures LooksLikeAlioListing(AlioSearchUrl)
    ensures LooksLikeAlioListing(AlioOrganListUrl)
  {
    ContainsInfix("https://www.alio.go.kr/search/", "searchTotal.do",
      "?word=%ED%95%9C%EA%B5%AD%EC%88%98%EC%9E%90%EC%9B%90%EA%B3%B5%EC%82%AC+%EC%97%B0%EA%B5%AC%EB%B3%B4%EA%B3%A0%EC%84%9C&apbaNm=&targetList=jeonggi%2Csusi%2CinfoCenter%2Cemployment%2Cbid%2Cnotice&attachFileYn=Y&sortType=LATEST");
    ContainsInfix("https://alio.go.kr/item/", "itemOrganList.do", "?apbaId=C0221&reportFormRootNo=B1040");
  }

  /** One `Fetch` request per URL, in order. */
  function Fetches(urls: seq<string>): seq<Request>
  {
    seq(|urls|, i requires 0 <= i < |urls| => Fetch(urls[i]))
  }

  /** The index of the first candidate whose page passes the gate, or
      `|cands|` when none does. */
  function FirstReadable(net: Net, cands: seq<string>): (k: nat)
    ensures k <= |cands|
    ensures forall j :: 0 <= j < k ==> !FetchUrlText(net, cands[j]).Readable?
    ensures k < |cands| ==> FetchUrlText(net, cands[k]).Readable?
  {
    if cands == [] then 0
    else if FetchUrlText(net, cands[0]).Readable? then 0
    else 1 + FirstReadable(net, cands[1..])
  }

  /** The outcome of a candidate loop (app.py:145-151 and 165-171): the first
      readable candidate, after fetching every candidate up to it. */
  function Attempt(net: Net, cands: seq<string>, isFallback: bool): Outcome
  {
    var k := FirstReadable(net, cands);
    if k < |cands| then
      Outcome(Some(SourceResult(cands[k], FetchUrlText(net, cands[k]).text, isFallback)), Fetches(cands[..k + 1]))
    else
      Outcome(None, Fetches(cands))
  }

  /** The report links of the listing page at `url` (app.py:140-144): none
      when the listing itself cannot be fetched. */
  function ListingCandidates(net: Net, url: string): seq<string>
  {
    match net.get(url)
    case Unreachable => []
    case Page(_, hrefs) => ExtractedLinks(IsReportHref, ResolveHref(net.urls, url), hrefs, ListingLinkCap)
  }

  /** The listing stage (app.py:139-151): nothing at all unless the
      primary URL looks like a listing; otherwise the listing page is
      fetched and its report links are tried in order. */
  function ListingStage(net: Net, primaryUrl: string): Outcome
  {
    if LooksLikeAlioListing(primaryUrl) then
      var o := Attempt(net, ListingCandidates(net, primaryUrl), false);
      Outcome(o.source, [Fetch(primaryUrl)] + o.trace)
    else
      Outcome(None, [])
  }

  /** The search stage (app.py:160-172): a failed search ends the
      resolution; otherwise the hits are tried in order. */
  function SearchStage(net: Net, fallbackQuery: string): Outcome
  {
    match net.search(fallbackQuery)
    case SearchFailed => Outcome(None, [Search(fallbackQuery)])
    case Results(hrefs) =>
      var o := Attempt(net, SearchHits(hrefs, SearchResultCap), true);
      Outcome(o.source, [Search(fallbackQuery)] + o.trace)
  }

  /** What `get_source_text(primaryUrl, fallbackQuery)` returns, and the
      requests it makes: listing stage, then the direct fetch of the
      primary URL, then the search stage, stopping at the first success. */
  function Resolve(net: Net, primaryUrl: string, fallbackQuery: string): Outcome
  {
    var listing := ListingStage(net, primaryUrl);
    if listing.source.Some? then listing
    else
      var direct := listing.trace + [Fetch(primaryUrl)];
      match FetchUrlText(net, primaryUrl)
      case Readable(text) => Outcome(Some(SourceResult(primaryUrl, text, false)), direct)
      case _ =>
        var search := SearchStage(net, fallbackQuery);
        Outcome(search.source, direct + search.trace)
  }

  /** A candidate loop: fetch each candidate in turn, skip failures and
      pages that fail the gate, and stop at the first readable page. */
  method TryCandidates(net: Net, cands: seq<string>, isFallback: bool)
    returns (source: Option<SourceResult>, trace: seq<Request>)
    ensures Outcome(source, trace) == Attempt(net, cands, isFallback)
  {
    trace := [];
    var i := 0;
    while i < |cands|
      invariant 0 <= i <= |cands|
      invariant forall j :: 0 <= j < i ==> !FetchUrlText(net, cands[j]).Readable?
      invariant trace == Fetches(cands[..i])
    {
      var candidate := cands[i];
      trace := trace + [Fetch(candidate)];
      var fetched := FetchUrlText(net, candidate);
      if fetched.Readable? {
        return Some(SourceResult(candidate, fetched.text, isFallback)), trace;
      }
      i := i + 1;
    }
    assert cands[..i] == cands;
    source := None;
  }

  /** The listing stage of `get_source_text` (app.py:139-151). */
  method TryListing(net: Net, primaryUrl: string) returns (source: Option<SourceResult>, trace: seq<Request>)
    ensures Outcome(source, trace) == ListingStage(net, primaryUrl)
  {
    source, trace := None, [];
    if LooksLikeAlioListing(primaryUrl) {
      var candidates: seq<string>;
      match net.get(primaryUrl) {
        case Unreachable =>
          candidates := [];
        case Page(_, hrefs) =>
          candidates := ExtractAlioReportLinks(net.urls, primaryUrl, hrefs, ListingLinkCap);
      }
      var tried;
      source, tried := TryCandidates(net, candidates, false);
      trace := [Fetch(primaryUrl)] + tried;
    }
  }

  /** The search stage of `get_source_text` (app.py:160-172). */
  method TrySearch(net: Net, fallbackQuery: string) returns (source: Option<SourceResult>, trace: seq<Request>)
    ensures Outcome(source, trace) == SearchStage(net, fallbackQuery)
  {
    var results := SearchKwaterReports(net, fallbackQuery, SearchResultCap);
    if results.None? {
      return None, [Search(fallbackQuery)];
    }
    var tried;
    source, tried := TryCandidates(net, results.value, true);
    trace := [Search(fallbackQuery)] + tried;
  }

  /** `get_source_text` (app.py:138-172). */
  method GetSourceText(net: Net, primaryUrl: string, fallbackQuery: string)
    returns (source: Option<SourceResult>, trace: seq<Request>)
    ensures Outcome(source, trace) == Resolve(net, primaryUrl, fallbackQuery)
  {
    source, trace := TryListing(net, primaryUrl);
    if source.Some? {
      return;
    }
    trace := trace + [Fetch(primaryUrl)];
    var fetched := FetchUrlText(net, primaryUrl);
    if fetched.Readable? {
      return Some(SourceResult(primaryUrl, fetched.text, false)), trace;
    }
    var found, searched := TrySearch(net, fallbackQuery);
    source, trace := found, trace + searched;
  }

  // ---------------------------------------------------------------------
  // Properties of the fallback chain

  /** A candidate loop requests only its candidates, in order, up to and
      including the first readable one; it returns that one, or nothing
      when no candidate is readable. */
  lemma AttemptProperties(net: Net, cands: seq<string>, isFallback: bool)
    ensures forall r :: r in Attempt(net, cands, isFallback).trace ==> r.Fetch? && r.url in cands
    ensures Attempt(net, cands, isFallback).source.None? <==>
      forall c :: c in cands ==> !FetchUrlText(net, c).Readable?
    ensures Attempt(net, cands, isFallback).source.Some? ==>
      var s := Attempt(net, cands, isFallback).source.value;
      var trace := Attempt(net, cands, isFallback).trace;
      && s.url in cands && s.isFallback == isFallback
      && FetchUrlText(net, s.url) == Readable(s.text)
      && trace != [] && trace[|trace| - 1] == Fetch(s.url)
  {
    var k := FirstReadable(net, cands);
    forall c | c in cands && FetchUrlText(net, c).Readable? ensures k < |cands| {
      var j :| 0 <= j < |cands| && cands[j] == c;
    }
  }

  /** The listing stage requests only URLs, starting with the listing
      page, and whatever it returns is readable and was its last request. */
  lemma ListingStageProperties(net: Net, primaryUrl: string)
    ensures forall r :: r in ListingStage(net, primaryUrl).trace ==> r.Fetch?
    ensures LooksLikeAlioListing(primaryUrl) <==> ListingStage(net, primaryUrl).trace != []
    ensures LooksLikeAlioListing(primaryUrl) ==> ListingStage(net, primaryUrl).trace[0] == Fetch(primaryUrl)
    ensures ListingStage(net, primaryUrl).source.Some? ==>
      var s := ListingStage(net, primaryUrl).source.value;
      var trace := ListingStage(net, primaryUrl).trace;
      && LooksLikeAlioListing(primaryUrl) && !s.isFallback
      && s.url in ListingCandidates(net, primaryUrl)
      && FetchUrlText(net, s.url) == Readable(s.text)
      && trace != [] && trace[|trace| - 1] == Fetch(s.url)
  {
    if LooksLikeAlioListing(primaryUrl) {
      var o := Attempt(net, ListingCandidates(net, primaryUrl), false);
      AttemptProperties(net, ListingCandidates(net, primaryUrl), false);
      assert ListingStage(net, primaryUrl).trace == [Fetch(primaryUrl)] + o.trace;
    }
  }

  /** The search stage starts with the search and then requests only URLs;
      whatever it returns is a readable search hit and was its last
      request. */
  lemma SearchStageProperties(net: Net, fallbackQuery: string)
    ensures SearchStage(net, fallbackQuery).trace != []
    ensures SearchStage(net, fallbackQuery).trace[0] == Search(fallbackQuery)
    ensures forall i :: 1 <= i < |SearchStage(net, fallbackQuery).trace| ==> SearchStage(net, fallbackQuery).trace[i].Fetch?
    ensures net.search(fallbackQuery).SearchFailed? ==> SearchStage(net, fallbackQuery) == Outcome(None, [Search(fallbackQuery)])
    ensures SearchStage(net, fallbackQuery).source.Some? ==>
      var s := SearchStage(net, fallbackQuery).source.value;
      var trace := SearchStage(net, fallbackQuery).trace;
      && s.isFallback && net.search(fallbackQuery).Results?
      && s.url in SearchHits(net.search(fallbackQuery).hrefs, SearchResultCap)
      && FetchUrlText(net, s.url) == Readable(s.text)
      && trace[|trace| - 1] == Fetch(s.url)
  {
    if net.search(fallbackQuery).Results? {
      var hits := SearchHits(net.search(fallbackQuery).hrefs, SearchResultCap);
      var o := Attempt(net, hits, true);
      AttemptProperties(net, hits, true);
      assert SearchStage(net, fallbackQuery).trace == [Search(fallbackQuery)] + o.trace;
      forall i | 1 <= i < |SearchStage(net, fallbackQuery).trace|
        ensures SearchStage(net, fallbackQuery).trace[i].Fetch?
      {
        assert SearchStage(net, fallbackQuery).trace[i] == o.trace[i - 1];
        assert o.trace[i - 1] in o.trace;
      }
    }
  }

  /** Whatever is returned is the cleaned text of the page at the returned
      URL, at least `MinTextLength` characters long, normalised, and that
      page was the last one requested. */
  lemma ResolvedSourceIsReadable(net: Net, primaryUrl: string, fallbackQuery: string)
    ensures Resolve(net, primaryUrl, fallbackQuery).source.Some? ==>
      var s := Resolve(net, primaryUrl, fallbackQuery).source.value;
      var trace := Resolve(net, primaryUrl, fallbackQuery).trace;
      && FetchUrlText(net, s.url) == Readable(s.text)
      && |s.text| >= MinTextLength && Normalized(s.text)
      && trace != [] && trace[|trace| - 1] == Fetch(s.url)
  {
    ListingStageProperties(net, primaryUrl);
    SearchStageProperties(net, fallbackQuery);
  }

  /** `isFallback` holds exactly when the search was issued; a fallback
      result is one of the search hits, any other result is the primary
      URL or one of the report links of its listing page. */
  lemma FallbackIffSearched(net: Net, primaryUrl: string, fallbackQuery: string)
    ensures Resolve(net, primaryUrl, fallbackQuery).source.Some? ==>
      var s := Resolve(net, primaryUrl, fallbackQuery).source.value;
      var trace := Resolve(net, primaryUrl, fallbackQuery).trace;
      && (s.isFallback <==> Search(fallbackQuery) in trace)
      && (s.isFallback ==>
            net.search(fallbackQuery).Results?
            && s.url in SearchHits(net.search(fallbackQuery).hrefs, SearchResultCap))
      && (!s.isFallback ==>
            s.url == primaryUrl
            || (LooksLikeAlioListing(primaryUrl) && s.url in ListingCandidates(net, primaryUrl)))
  {
    ListingStageProperties(net, primaryUrl);
    SearchStageProperties(net, fallbackQuery);
    var listing := ListingStage(net, primaryUrl);
    if listing.source.None? && !FetchUrlText(net, primaryUrl).Readable? {
      var trace := Resolve(net, primaryUrl, fallbackQuery).trace;
      assert trace[|listing.trace| + 1] == Search(fallbackQuery);
    }
  }

  /** Every resolution starts by requesting the primary URL.  When it does
      not look like a listing, that request is the direct fetch, and the
      only request that can follow it is the search. */
  lemma ListingOnlyForListings(net: Net, primaryUrl: string, fallbackQuery: string)
    ensures Resolve(net, primaryUrl, fallbackQuery).trace != []
    ensures Resolve(net, primaryUrl, fallbackQuery).trace[0] == Fetch(primaryUrl)
    ensures !LooksLikeAlioListing(primaryUrl) ==>
      var trace := Resolve(net, primaryUrl, fallbackQuery).trace;
      |trace| == 1 || trace[1] == Search(fallbackQuery)
  {
  }

  /** When a listing yields a readable report link, the first such link is
      returned, after the listing page and the links before it, and neither
      the direct fetch nor the search happens. */
  lemma ListingHitWins(net: Net, primaryUrl: string, fallbackQuery: string)
    requires LooksLikeAlioListing(primaryUrl)
    requires FirstReadable(net, ListingCandidates(net, primaryUrl)) < |ListingCandidates(net, primaryUrl)|
    ensures
      var cands := ListingCandidates(net, primaryUrl);
      var k := FirstReadable(net, cands);
      Resolve(net, primaryUrl, fallbackQuery) ==
        Outcome(Some(SourceResult(cands[k], FetchUrlText(net, cands[k]).text, false)),
                [Fetch(primaryUrl)] + Fetches(cands[..k + 1]))
  {
  }

  /** A listing none of whose report links is readable still leads to the
      direct fetch of the listing URL itself, right after every link was
      tried. */
  lemma ListingExhaustedThenDirect(net: Net, primaryUrl: string, fallbackQuery: string)
    requires LooksLikeAlioListing(primaryUrl)
    requires FirstReadable(net, ListingCandidates(net, primaryUrl)) == |ListingCandidates(net, primaryUrl)|
    ensures
      var cands := ListingCandidates(net, primaryUrl);
      var trace := Resolve(net, primaryUrl, fallbackQuery).trace;
      |trace| >= |cands| + 2 && trace[..|cands| + 2] == [Fetch(primaryUrl)] + Fetches(cands) + [Fetch(primaryUrl)]
  {
    var cands := ListingCandidates(net, primaryUrl);
    var trace := Resolve(net, primaryUrl, fallbackQuery).trace;
    var prefix := [Fetch(primaryUrl)] + Fetches(cands) + [Fetch(primaryUrl)];
    assert trace[..|prefix|] == prefix;
  }

  /** The search is issued at most once, only right after a direct fetch of
      the primary URL that failed or was too short, and only when the
      listing stage found nothing. */
  lemma SearchOnlyAfterDirectFailure(net: Net, primaryUrl: string, fallbackQuery: string)
    ensures
      var trace := Resolve(net, primaryUrl, fallbackQuery).trace;
      forall i :: 0 <= i < |trace| && trace[i].Search? ==>
        && trace[i] == Search(fallbackQuery)
        && 1 <= i && trace[i - 1] == Fetch(primaryUrl)
        && !FetchUrlText(net, primaryUrl).Readable?
        && ListingStage(net, primaryUrl).source.None?
        && forall j :: 0 <= j < |trace| && j != i ==> trace[j].Fetch?
  {
    ListingStageProperties(net, primaryUrl);
    SearchStageProperties(net, fallbackQuery);
    var listing := ListingStage(net, primaryUrl);
    var trace := Resolve(net, primaryUrl, fallbackQuery).trace;
    if listing.source.None? && !FetchUrlText(net, primaryUrl).Readable? {
      var search := SearchStage(net, fallbackQuery);
      var n := |listing.trace| + 1;
      assert trace == listing.trace + [Fetch(primaryUrl)] + search.trace;
      forall j | 0 <= j < |trace| && j != n ensures trace[j].Fetch? {
        if j < |listing.trace| {
          assert trace[j] == listing.trace[j];
          assert listing.trace[j] in listing.trace;
        } else if j > n {
          assert trace[j] == search.trace[j - n];
        }
      }
    } else {
      forall j | 0 <= j < |trace| ensures trace[j].Fetch? {
        if j < |listing.trace| {
          assert trace[j] == listing.trace[j];
          assert listing.trace[j] in listing.trace;
        }
      }
    }
  }

  /** When the direct fetch of the primary URL is readable, something is
      returned without the search ever being issued. */
  lemma DirectSuccessSkipsSearch(net: Net, primaryUrl: string, fallbackQuery: string)
    requires FetchUrlText(net, primaryUrl).Readable?
    ensures Resolve(net, primaryUrl, fallbackQuery).source.Some?
    ensures !Resolve(net, primaryUrl, fallbackQuery).source.value.isFallback
    ensures forall r :: r in Resolve(net, primaryUrl, fallbackQuery).trace ==> r.Fetch?
  {
    ListingStageProperties(net, primaryUrl);
  }

  /** Conversely, when the listing stage finds nothing and the direct fetch
      fails or is too short, the search is issued; a failed search yields
      nothing, and otherwise the result is the first readable search hit in
      order, marked as fallback, or nothing when no hit is readable. */
  lemma DirectFailureFallsBackToSearch(net: Net, primaryUrl: string, fallbackQuery: string)
    requires ListingStage(net, primaryUrl).source.None?
    requires !FetchUrlText(net, primaryUrl).Readable?
    ensures Search(fallbackQuery) in Resolve(net, primaryUrl, fallbackQuery).trace
    ensures net.search(fallbackQuery).SearchFailed? ==> Resolve(net, primaryUrl, fallbackQuery).source.None?
    ensures net.search(fallbackQuery).Results? ==>
      var hits := SearchHits(net.search(fallbackQuery).hrefs, SearchResultCap);
      var k := FirstReadable(net, hits);
      Resolve(net, primaryUrl, fallbackQuery).source ==
        (if k < |hits| then Some(SourceResult(hits[k], FetchUrlText(net, hits[k]).text, true)) else None)
  {
    var listing := ListingStage(net, primaryUrl);
    var search := SearchStage(net, fallbackQuery);
    var trace := Resolve(net, primaryUrl, fallbackQuery).trace;
    assert trace == listing.trace + [Fetch(primaryUrl)] + search.trace;
    SearchStageProperties(net, fallbackQuery);
    assert trace[|listing.trace| + 1] == Search(fallbackQuery);
  }

  /** A failed search ends the resolution with nothing found; the search
      is the last request. */
  lemma SearchFailureIsTerminal(net: Net, primaryUrl: string, fallbackQuery: string)
    requires net.search(fallbackQuery).SearchFailed?
    requires Search(fallbackQuery) in Resolve(net, primaryUrl, fallbackQuery).trace
    ensures Resolve(net, primaryUrl, fallbackQuery).source.None?
    ensures
      var trace := Resolve(net, primaryUrl, fallbackQuery).trace;
      trace[|trace| - 1] == Search(fallbackQuery)
  {
    ListingStageProperties(net, primaryUrl);
    SearchStageProperties(net, fallbackQuery);
  }
}
