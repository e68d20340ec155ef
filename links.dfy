/**
 Link extraction from a fetched page: `extract_alio_report_links`
 (app.py:80-96) and `extract_pdf_links` (app.py:99-116), which share one
 algorithm and differ only in the href predicate and the default cap.

 A page is given by the `href` values of its `a[href]` anchors, in document
 order.  URL parsing and reference resolution (`urlparse`, `urljoin`) are
 parameters: `UrlOps.origin` yields the `scheme://netloc` base of a page URL
 and `UrlOps.join` resolves an href against it.
 */
module Links {
  import opened Strings

  /** `urlparse`-based base extraction and `urljoin`, left uninterpreted. */
  datatype UrlOps = UrlOps(origin: string -> string, join: (string, string) -> string)

  /** Resolution of an href against the `scheme://netloc` of `pageUrl`
      (app.py:82, 87 and 101, 107). */
  function ResolveHref(u: UrlOps, pageUrl: string): string -> string
  {
    href => u.join(u.origin(pageUrl), href)
  }

  // ---------------------------------------------------------------------
  // Href predicates

  /** The report-detail test of app.py:86. */
  predicate IsReportHref(href: string)
  {
    Contains(href, "itemDetail.do") || Contains(href, "itemDetail") || Contains(href, "itemDetailInfo")
  }

  /** The document-link test of app.py:105-106, on the lower-cased href. */
  predicate IsDocumentHref(href: string)
  {
    var lower := Lower(href);
    Contains(lower, ".pdf") || Contains(lower, "filedown") || Contains(lower, "download")
  }

  /** The three report tokens collapse to one case-sensitive test, since
      "itemDetail.do" and "itemDetailInfo" both contain "itemDetail". */
  lemma ReportHrefIsItemDetail(href: string)
    ensures IsReportHref(href) <==> Contains(href, "itemDetail")
  {
    assert "itemDetail.do" == "itemDetail" + ".do";
    assert "itemDetailInfo" == "itemDetail" + "Info";
    if Contains(href, "itemDetail.do") {
      ContainsLonger(href, "itemDetail", ".do");
    }
    if Contains(href, "itemDetailInfo") {
      ContainsLonger(href, "itemDetail", "Info");
    }
  }

  /** The document test ignores the case of ASCII letters. */
  lemma DocumentHrefIgnoresCase(href: string)
    ensures IsDocumentHref(href) <==> IsDocumentHref(Lower(href))
  {
    LowerProperties(href);
  }

  /** A relative download link is a document link. */
  lemma DownloadLinkIsDocument()
    ensures IsDocumentHref("/files/download?id=5")
  {
    var href := "/files/download?id=5";
    assert Lower(href) == href;
    assert OccursAt(href, "download", 7);
    ContainsIff(href, "download");
  }

  // ---------------------------------------------------------------------
  // First loop: collect candidates until the cap is reached

  /** The resolved matching hrefs of `hs`, in order, duplicates kept. */
  function Collected(keep: string -> bool, resolve: string -> string, hs: seq<string>): (r: seq<string>)
    ensures |r| <= |hs|
    ensures forall x :: x in r ==> exists h :: h in hs && keep(h) && x == resolve(h)
    decreases |hs|
  {
    if hs == [] then []
    else
      var last := hs[|hs| - 1];
      Collected(keep, resolve, hs[..|hs| - 1]) + (if keep(last) then [resolve(last)] else [])
  }

  /** Conversely, every matching href of `hs` is collected. */
  lemma {:induction false} CollectedComplete(keep: string -> bool, resolve: string -> string, hs: seq<string>)
    ensures forall h :: h in hs && keep(h) ==> resolve(h) in Collected(keep, resolve, hs)
    decreases |hs|
  {
    if hs != [] {
      var p := hs[..|hs| - 1];
      assert hs == p + [hs[|hs| - 1]];
      CollectedComplete(keep, resolve, p);
    }
  }

  /** The number of anchors, from index `i` on, that the collection loop
      examines before it stops. */
  function ScanFrom(keep: string -> bool, resolve: string -> string, hs: seq<string>, maxLinks: int, i: nat): (k: nat)
    requires i <= |hs|
    ensures i <= k <= |hs| && (i < |hs| ==> i < k)
    ensures forall j :: i < j < k ==> |Collected(keep, resolve, hs[..j])| < maxLinks
    ensures k < |hs| ==> |Collected(keep, resolve, hs[..k])| >= maxLinks
    decreases |hs| - i
  {
    if i == |hs| then |hs|
    else if |Collected(keep, resolve, hs[..i + 1])| >= maxLinks then i + 1
    else ScanFrom(keep, resolve, hs, maxLinks, i + 1)
  }

  /** The number of anchors examined: the loop stops right after the first
      anchor that brings the candidate count to `maxLinks`, or runs off the
      end of the page. */
  function ScanLength(keep: string -> bool, resolve: string -> string, hs: seq<string>, maxLinks: int): (k: nat)
    ensures k <= |hs| && (hs != [] ==> 1 <= k)
    ensures forall j :: 1 <= j < k ==> |Collected(keep, resolve, hs[..j])| < maxLinks
    ensures k < |hs| ==> |Collected(keep, resolve, hs[..k])| >= maxLinks
  {
    ScanFrom(keep, resolve, hs, maxLinks, 0)
  }

  /** The `candidates` list of app.py:83-89 (and 102-109). */
  function Candidates(keep: string -> bool, resolve: string -> string, hs: seq<string>, maxLinks: int): seq<string>
  {
    Collected(keep, resolve, hs[..ScanLength(keep, resolve, hs, maxLinks)])
  }

  /** The collection loop of app.py:84-89 (and 103-109): scan anchors in
      order, append the resolved href of each match, and stop as soon as the
      list holds `maxLinks` entries; the check runs after every anchor. */
  method CollectCandidates(keep: string -> bool, resolve: string -> string, hrefs: seq<string>, maxLinks: int)
    returns (candidates: seq<string>)
    ensures candidates == Candidates(keep, resolve, hrefs, maxLinks)
  {
    candidates := [];
    var i := 0;
    while i < |hrefs|
      invariant 0 <= i <= |hrefs|
      invariant candidates == Collected(keep, resolve, hrefs[..i])
      invariant forall j :: 1 <= j <= i ==> |Collected(keep, resolve, hrefs[..j])| < maxLinks
    {
      var href := hrefs[i];
      assert hrefs[..i + 1][..i] == hrefs[..i];
      if keep(href) {
        candidates := candidates + [resolve(href)];
      }
      if |candidates| >= maxLinks {
        assert ScanLength(keep, resolve, hrefs, maxLinks) == i + 1;
        return;
      }
      i := i + 1;
    }
    assert hrefs[..i] == hrefs;
  }

  // ---------------------------------------------------------------------
  // Second loop: drop repeated links, keeping first occurrences

  predicate NoDuplicates(s: seq<string>)
  {
    forall i, j :: 0 <= i < j < |s| ==> s[i] != s[j]
  }

  /** The position of the first occurrence of `x` in `s`. */
  function FirstIndex(s: seq<string>, x: string): (k: nat)
    requires x in s
    ensures k < |s| && s[k] == x
    ensures forall j :: 0 <= j < k ==> s[j] != x
  {
    if s[0] == x then 0 else 1 + FirstIndex(s[1..], x)
  }

  /** `s` with every repeated element dropped (the `seen`/`deduped` loop). */
  function Dedup(s: seq<string>): seq<string>
  {
    if s == [] then []
    else
      var d := Dedup(s[..|s| - 1]);
      var last := s[|s| - 1];
      if last in d then d else d + [last]
  }

  /** Dropping repeats keeps exactly the same set of links and leaves no
      repeat. */
  lemma {:induction false} DedupElements(s: seq<string>)
    ensures |Dedup(s)| <= |s|
    ensures forall x :: x in Dedup(s) <==> x in s
    ensures NoDuplicates(Dedup(s))
  {
    if s != [] {
      var p := s[..|s| - 1];
      assert s == p + [s[|s| - 1]];
      DedupElements(p);
    }
  }

  /** Appending an element does not move the first occurrence of an
      element already present. */
  lemma FirstIndexSnoc(p: seq<string>, last: string, x: string)
    requires x in p
    ensures FirstIndex(p + [last], x) == FirstIndex(p, x)
  {
    var k, k' := FirstIndex(p + [last], x), FirstIndex(p, x);
    assert (p + [last])[k'] == x;
  }

  /** Dropping repeats lists the links in the order of their first
      occurrence. */
  lemma {:induction false} DedupOrder(s: seq<string>)
    ensures forall x :: x in Dedup(s) ==> x in s
    ensures forall i, j :: 0 <= i < j < |Dedup(s)| ==> FirstIndex(s, Dedup(s)[i]) < FirstIndex(s, Dedup(s)[j])
  {
    DedupElements(s);
    if s != [] {
      var p, last := s[..|s| - 1], s[|s| - 1];
      assert s == p + [last];
      DedupOrder(p);
      var d := Dedup(p);
      forall i | 0 <= i < |d| ensures FirstIndex(s, d[i]) == FirstIndex(p, d[i]) {
        FirstIndexSnoc(p, last, d[i]);
      }
      if last !in d {
        DedupElements(p);
        assert FirstIndex(s, last) == |p|;
      }
    }
  }

  /** The deduplication loop of app.py:90-95 (and 110-115). */
  method Deduplicate(candidates: seq<string>) returns (deduped: seq<string>)
    ensures deduped == Dedup(candidates)
  {
    var seen: set<string> := {};
    deduped := [];
    for i := 0 to |candidates|
      invariant deduped == Dedup(candidates[..i])
      invariant forall x :: x in seen <==> x in deduped
    {
      var link := candidates[i];
      assert candidates[..i + 1][..i] == candidates[..i];
      if link !in seen {
        seen := seen + {link};
        deduped := deduped + [link];
      }
    }
    assert candidates[..|candidates|] == candidates;
  }

  // ---------------------------------------------------------------------
  // The two extractors

  /** The link list of either extractor: capped candidates, deduplicated. */
  function ExtractedLinks(keep: string -> bool, resolve: string -> string, hrefs: seq<string>, maxLinks: int): seq<string>
  {
    Dedup(Candidates(keep, resolve, hrefs, maxLinks))
  }

  /** `extract_alio_report_links` (app.py:80-96); the default cap is 8. */
  method ExtractAlioReportLinks(u: UrlOps, pageUrl: string, hrefs: seq<string>, maxLinks: int)
    returns (links: seq<string>)
    ensures links == ExtractedLinks(IsReportHref, ResolveHref(u, pageUrl), hrefs, maxLinks)
  {
    var candidates := CollectCandidates(IsReportHref, ResolveHref(u, pageUrl), hrefs, maxLinks);
    links := Deduplicate(candidates);
  }

  /** `extract_pdf_links` (app.py:99-116); the default cap is 6. */
  method ExtractPdfLinks(u: UrlOps, pageUrl: string, hrefs: seq<string>, maxLinks: int)
    returns (links: seq<string>)
    ensures links == ExtractedLinks(IsDocumentHref, ResolveHref(u, pageUrl), hrefs, maxLinks)
  {
    var candidates := CollectCandidates(IsDocumentHref, ResolveHref(u, pageUrl), hrefs, maxLinks);
    links := Deduplicate(candidates);
  }

  // ---------------------------------------------------------------------
  // Properties of the cap-then-dedup rule

  /** Adding one anchor adds at most one candidate. */
  lemma CollectedStep(keep: string -> bool, resolve: string -> string, hs: seq<string>, j: nat)
    requires j < |hs|
    ensures |Collected(keep, resolve, hs[..j + 1])| <= |Collected(keep, resolve, hs[..j])| + 1
  {
    assert hs[..j + 1][..j] == hs[..j];
  }

  /** The cap bounds the candidate list, duplicates included: at most
      `maxLinks` entries when `maxLinks >= 1`, and at most one (the first
      anchor, if it matches) when `maxLinks <= 0`, because the check follows
      the append. */
  lemma CandidatesBound(keep: string -> bool, resolve: string -> string, hs: seq<string>, maxLinks: int)
    ensures maxLinks >= 1 ==> |Candidates(keep, resolve, hs, maxLinks)| <= maxLinks
    ensures maxLinks <= 0 ==> |Candidates(keep, resolve, hs, maxLinks)| <= 1
  {
    var k := ScanLength(keep, resolve, hs, maxLinks);
    if k >= 1 {
      CollectedStep(keep, resolve, hs, k - 1);
      assert hs[..0] == [];
    }
  }

  /** Anchors after the one that fills the cap are never examined: appending
      more anchors to a page whose matches already reach the cap changes
      nothing. */
  lemma LaterAnchorsIgnored(keep: string -> bool, resolve: string -> string, hs: seq<string>, more: seq<string>, maxLinks: int)
    requires hs != [] && |Collected(keep, resolve, hs)| >= maxLinks
    ensures Candidates(keep, resolve, hs + more, maxLinks) == Candidates(keep, resolve, hs, maxLinks)
  {
    var all := hs + more;
    var k1 := ScanLength(keep, resolve, hs, maxLinks);
    var k2 := ScanLength(keep, resolve, all, maxLinks);
    forall j | 0 <= j <= |hs| ensures all[..j] == hs[..j] { }
    assert hs[..|hs|] == hs;
  }

  /** Duplicates count toward the cap: with a cap of 2, the page
      ["a", "a", "b"] yields only ["a"], and the qualifying "b" is never
      examined. */
  lemma DuplicatesCountTowardCap()
    ensures Candidates(_ => true, h => h, ["a", "a", "b"], 2) == ["a", "a"]
    ensures ExtractedLinks(_ => true, h => h, ["a", "a", "b"], 2) == ["a"]
  {
    var keep: string -> bool, resolve: string -> string := _ => true, h => h;
    var hs: seq<string> := ["a", "a", "b"];
    assert hs[..1] == ["a"] && hs[..2] == ["a", "a"];
    assert [hs[0]][..0] == [] && hs[..2][..1] == ["a"];
    assert Collected(keep, resolve, hs[..1]) == ["a"];
    assert Collected(keep, resolve, hs[..2]) == ["a", "a"];
    assert ScanLength(keep, resolve, hs, 2) == 2;
    assert Dedup(["a"]) == ["a"] by { assert ["a"][..0] == []; }
    assert ["a", "a"][..1] == ["a"];
  }

  /** What either extractor returns: no repeated link; every link is the
      resolution of a matching href of the page, and every matching href
      among the anchors examined is resolved into it; the links follow the order
      of first occurrence in the capped candidate list; and the cap bounds
      the result. */
  lemma ExtractedLinksProperties(keep: string -> bool, resolve: string -> string, hrefs: seq<string>, maxLinks: int)
    ensures NoDuplicates(ExtractedLinks(keep, resolve, hrefs, maxLinks))
    ensures forall x :: x in ExtractedLinks(keep, resolve, hrefs, maxLinks) ==>
      exists h :: h in hrefs && keep(h) && x == resolve(h)
    ensures forall x :: x in ExtractedLinks(keep, resolve, hrefs, maxLinks) <==> x in Candidates(keep, resolve, hrefs, maxLinks)
    ensures forall h :: h in hrefs[..ScanLength(keep, resolve, hrefs, maxLinks)] && keep(h) ==>
      resolve(h) in ExtractedLinks(keep, resolve, hrefs, maxLinks)
    ensures forall i, j :: 0 <= i < j < |ExtractedLinks(keep, resolve, hrefs, maxLinks)| ==>
      FirstIndex(Candidates(keep, resolve, hrefs, maxLinks), ExtractedLinks(keep, resolve, hrefs, maxLinks)[i])
      < FirstIndex(Candidates(keep, resolve, hrefs, maxLinks), ExtractedLinks(keep, resolve, hrefs, maxLinks)[j])
    ensures maxLinks >= 1 ==> |ExtractedLinks(keep, resolve, hrefs, maxLinks)| <= maxLinks
    ensures maxLinks <= 0 ==> |ExtractedLinks(keep, resolve, hrefs, maxLinks)| <= 1
  {
    var c := Candidates(keep, resolve, hrefs, maxLinks);
    DedupElements(c);
    DedupOrder(c);
    CandidatesBound(keep, resolve, hrefs, maxLinks);
    var k := ScanLength(keep, resolve, hrefs, maxLinks);
    CollectedComplete(keep, resolve, hrefs[..k]);
    forall x | x in c ensures exists h :: h in hrefs && keep(h) && x == resolve(h) {
      var h :| h in hrefs[..k] && keep(h) && x == resolve(h);
      assert h in hrefs;
    }
  }
}
