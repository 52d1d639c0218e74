/**
 * The first Landsbankinn scraper (`scraper.py`): it collects every rates
 * PDF link of the page and keeps the first, then downloads it.
 */
module LegacyScraper {
  import opened Wrappers
  import opened Text
  import opened BankBase
  import opened Landsbankinn

  /** `pdf_links`: every accepted `href`, made absolute, in document order. */
  function CollectLinks(hrefs: seq<string>): (links: seq<string>)
    ensures |links| <= |hrefs|
    ensures forall k :: 0 <= k < |links| ==> StartsWith(links[k], "http") && EndsWith(links[k], ".pdf")
    decreases |hrefs|
  {
    if |hrefs| == 0 then []
    else
      var rest := CollectLinks(hrefs[1..]);
      if IsRatesPdf(hrefs[0]) then
        EndsWithTrans(Absolute(hrefs[0]), hrefs[0], ".pdf");
        [Absolute(hrefs[0])] + rest
      else rest
  }

  /** A link is collected exactly when some `href` passes the filter. */
  lemma {:induction false} CollectLinksEmpty(hrefs: seq<string>)
    ensures |CollectLinks(hrefs)| == 0 <==> forall i :: 0 <= i < |hrefs| ==> !IsRatesPdf(hrefs[i])
    decreases |hrefs|
  {
    if |hrefs| > 0 {
      CollectLinksEmpty(hrefs[1..]);
      assert forall i :: 1 <= i < |hrefs| ==> hrefs[i] == hrefs[1..][i - 1];
    }
  }

  /** `get_latest_pdf_url`: the first collected link; `None` when none was collected or the request failed. */
  function GetLatestPdfUrl(page: Option<seq<string>>): (r: Option<string>)
    ensures r.Some? ==> page.Some? && |CollectLinks(page.value)| > 0 && r.value == CollectLinks(page.value)[0]
    ensures page.Some? && |CollectLinks(page.value)| > 0 ==> r.Some?
  {
    match page
    case None => None
    case Some(hrefs) =>
      var links := CollectLinks(hrefs);
      if |links| > 0 then Some(links[0]) else None
  }

  /** Collecting every link and keeping the first picks what the newer scraper's early return picks. */
  lemma {:induction false} CollectFirstAgrees(hrefs: seq<string>)
    ensures |CollectLinks(hrefs)| > 0 ==> FirstRatesPdf(hrefs) == Some(CollectLinks(hrefs)[0])
    ensures |CollectLinks(hrefs)| == 0 ==> FirstRatesPdf(hrefs).None?
    decreases |hrefs|
  {
    if |hrefs| > 0 && !IsRatesPdf(hrefs[0]) {
      CollectFirstAgrees(hrefs[1..]);
    }
  }

  /** Both scrapers of the bank choose the same document. */
  lemma LatestAgreesWithGetPdfUrl(page: Option<seq<string>>)
    ensures GetLatestPdfUrl(page) == GetPdfUrl(page)
  {
    if page.Some? {
      CollectFirstAgrees(page.value);
    }
  }

  /** `scrape_latest_pdf`: the content and its link, or `(None, None)` when either is missing. */
  function ScrapeLatestPdf(page: Option<seq<string>>, download: string -> Option<seq<Byte>>):
    (r: (Option<seq<Byte>>, Option<string>))
    ensures r.0.None? <==> r.1.None?
    ensures r.1.Some? ==> r.1 == GetLatestPdfUrl(page) && r.0 == download(r.1.value) && |r.0.value| > 0
  {
    var url := GetLatestPdfUrl(page);
    if Missing(url) then (None, None)
    else
      var content := download(url.value);
      if NoContent(content) then (None, None) else (content, url)
  }

  /** Nothing comes back unless the page offers a rates PDF. */
  lemma ScrapeNeedsLink(page: Option<seq<string>>, download: string -> Option<seq<Byte>>)
    requires page.Some? ==> forall i :: 0 <= i < |page.value| ==> !IsRatesPdf(page.value[i])
    ensures ScrapeLatestPdf(page, download) == (None, None)
  {
    if page.Some? {
      CollectLinksEmpty(page.value);
    }
  }
}
