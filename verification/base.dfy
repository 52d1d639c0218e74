/**
 * What every bank scraper shares (`BankScraper`): the raw bytes of a
 * downloaded document and the outcome of `scrape_rates()`.
 */
module BankBase {
  import opened Wrappers
  import opened Json

  newtype Byte = b: int | 0 <= b < 256

  /**
   * The outcome of `scrape_rates()`: the returned pair `(rate_data,
   * source_url)`, where `Null` stands for a `None` payload, or the message
   * of the exception it raised.
   */
  datatype Scraped =
    | Returned(data: Value, url: Option<string>)
    | Raised(error: string)

  /** The `(None, None)` every scraper returns when a step fails. */
  const NothingScraped := Returned(Null, None)

  /** Python's `if not x:` on an optional string. */
  predicate Missing(s: Option<string>) {
    s.None? || |s.value| == 0
  }

  /** Python's `if not x:` on optional bytes. */
  predicate NoContent(b: Option<seq<Byte>>) {
    b.None? || |b.value| == 0
  }
}
