/**
 * The Landsbankinn scraper: choosing the rates PDF among the links of the
 * bank's page, assembling the parsed sections into the bank's record, and
 * the short-circuits of `scrape_rates`.
 */
module Landsbankinn {
  import opened Wrappers
  import opened Text
  import opened Json
  import opened BankBase
  import IcelandicDates
  import PdfParser

  const BankName := "Landsbankinn"
  const BankId := "landsbankinn"
  const BaseUrl := "https://www.landsbankinn.is/vextir-og-verdskra"
  const Host := "https://www.landsbankinn.is"

  /**
   * The message of the `ImportError` raised by `parse_rates`' first
   * statement, `from ..parser import InterestRateParser`: the program
   * imports the scrapers as the top-level package `banks`, so `..` climbs
   * above it.
   */
  const RelativeImportError := "attempted relative import beyond top-level package"

  // ------------------------------------------------------------------
  // The PDF link
  // ------------------------------------------------------------------

  /** The link filter: a case-sensitive ".pdf" suffix, and "vaxta" anywhere in any case. */
  predicate IsRatesPdf(href: string) {
    EndsWith(href, ".pdf") && Contains(Lower(href), "vaxta")
  }

  /** A link that starts with "http" is kept; any other is put after the bank's host. */
  function Absolute(href: string): (u: string)
    ensures StartsWith(u, "http") && EndsWith(u, href)
    ensures u == href <==> StartsWith(href, "http")
  {
    if StartsWith(href, "http") then href
    else
      var u := Host + href;
      assert u[..4] == Host[..4];
      assert u[|u| - |href|..] == href;
      u
  }

  /** A suffix of a suffix is a suffix. */
  lemma EndsWithTrans(u: string, v: string, w: string)
    requires EndsWith(u, v) && EndsWith(v, w)
    ensures EndsWith(u, w)
  {
    assert u[|u| - |w|..] == u[|u| - |v|..][|v| - |w|..];
  }

  /** The loop of `get_pdf_url` over the `href` of every link, in document order. */
  function FirstRatesPdf(hrefs: seq<string>): (r: Option<string>)
    ensures r.Some? <==> exists i :: 0 <= i < |hrefs| && IsRatesPdf(hrefs[i])
    ensures r.Some? ==> StartsWith(r.value, "http") && EndsWith(r.value, ".pdf")
    decreases |hrefs|
  {
    if |hrefs| == 0 then None
    else if IsRatesPdf(hrefs[0]) then
      EndsWithTrans(Absolute(hrefs[0]), hrefs[0], ".pdf");
      Some(Absolute(hrefs[0]))
    else
      var r := FirstRatesPdf(hrefs[1..]);
      assert forall i :: 1 <= i < |hrefs| ==> hrefs[i] == hrefs[1..][i - 1];
      r
  }

  /** The link chosen is the first one the filter accepts, made absolute. */
  lemma {:induction false} FirstRatesPdfIsFirst(hrefs: seq<string>, i: nat)
    requires i < |hrefs| && IsRatesPdf(hrefs[i])
    requires forall j :: 0 <= j < i ==> !IsRatesPdf(hrefs[j])
    ensures FirstRatesPdf(hrefs) == Some(Absolute(hrefs[i]))
  {
    if i > 0 {
      FirstRatesPdfIsFirst(hrefs[1..], i - 1);
    }
  }

  /**
   * `get_pdf_url`: `page` holds the `href` of every `<a>` of the rates page,
   * and is `None` when the request failed (the exception is caught).
   */
  function GetPdfUrl(page: Option<seq<string>>): (r: Option<string>)
    ensures page.None? ==> r.None?
    ensures r.Some? ==> StartsWith(r.value, "http") && EndsWith(r.value, ".pdf")
  {
    match page
    case None => None
    case Some(hrefs) => FirstRatesPdf(hrefs)
  }

  // ------------------------------------------------------------------
  // The record
  // ------------------------------------------------------------------

  /**
   * The record `parse_rates` builds after its import: the bank's name,
   * then the date and every section as the PDF parser reads them, in the
   * order `parse_all` lists them. Under the program's own import of the
   * package the import raises first (see `ScrapeRates`), so this is the
   * record the code would build if the import succeeded.
   */
  function ParseRates(search: PdfParser.Search, text: string): (r: Fields)
    ensures Keys(r) == ["bank_name"] + PdfParser.SectionKeys
    ensures r[0].1 == Str(BankName)
  {
    var sections := PdfParser.Sections(search, text);
    KeysAppend([("bank_name", Str(BankName))], sections);
    [("bank_name", Str(BankName))] + sections
  }

  /** On a non-empty text the record is `parse_all`'s, behind the bank's name. */
  lemma ParseRatesIsParseAll(search: PdfParser.Search, text: string)
    requires |text| > 0
    ensures ParseRates(search, text) == [("bank_name", Str(BankName))] + PdfParser.ParseAll(search, text)
  {
  }

  // ------------------------------------------------------------------
  // Scraping
  // ------------------------------------------------------------------

  /**
   * `scrape_rates`: `download` stands for `download_pdf` (`None` when the
   * request failed) and `extract` for pdfminer (`""` when it failed). Once
   * a text is in hand, `parse_rates` runs its relative import, which
   * raises `ImportError`; no record is built, and the later call to
   * `enhance_with_ai` (which no class of the scraper defines) is never
   * reached.
   */
  function ScrapeRates(page: Option<seq<string>>, download: string -> Option<seq<Byte>>,
                       extract: seq<Byte> -> string): (r: Scraped)
  {
    var url := GetPdfUrl(page);
    if Missing(url) then NothingScraped
    else
      var content := download(url.value);
      if NoContent(content) then NothingScraped
      else if |extract(content.value)| == 0 then NothingScraped
      else Raised(RelativeImportError)
  }

  /**
   * The scraper never returns data: a missing link, download or text gives
   * `(None, None)`, and a document that gets as far as a text raises the
   * relative import's `ImportError`.
   */
  lemma ScrapeRatesNeverReturnsData(page: Option<seq<string>>, download: string -> Option<seq<Byte>>,
                                     extract: seq<Byte> -> string)
    ensures ScrapeRates(page, download, extract).Returned? ==> ScrapeRates(page, download, extract) == NothingScraped
    ensures ScrapeRates(page, download, extract).Raised? <==>
      var url := GetPdfUrl(page);
      && url.Some? && !NoContent(download(url.value))
      && |extract(download(url.value).value)| > 0
    ensures ScrapeRates(page, download, extract).Raised? ==>
      ScrapeRates(page, download, extract).error == RelativeImportError
  {
    var url := GetPdfUrl(page);
    if url.Some? {
      assert |url.value| > 0 by { assert EndsWith(url.value, ".pdf"); }
    }
  }
}
