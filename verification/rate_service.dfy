/**
 * The rate service (`RateService`): resolving a bank id to a scraper,
 * answering from the cache or scraping afresh, saving and pruning, and
 * formatting the response. Its collaborators are parameters: the scraper
 * factory, the cache lookup, whether a save succeeds, and the clock.
 */
module RateService {
  import opened Wrappers
  import opened Text
  import opened Calendar
  import opened Json
  import opened BankBase
  import Registry
  import Landsbankinn
  import Firestore

  /** A scraper, as far as the service looks at it: its ids and what `scrape_rates()` does. */
  datatype Scraper = Scraper(bankId: string, bankName: string, scraped: Scraped)

  /** What the scraper factory does with a bank id. */
  datatype Made =
    | Made(scraper: Scraper)
    | FactoryValueError(message: string)
    | NoScraper

  /** The exceptions the service raises: `UnknownBankError`, `RateServiceError`, or any other. */
  datatype Error =
    | UnknownBank(message: string)
    | ServiceFailure(message: string)
    | Unexpected

  datatype Outcome<T> = Ok(value: T) | Err(error: Error)

  /** What the service asks of the persistence manager, in order. */
  datatype Effect =
    | Saved(payload: Fields, sourceUrl: Value, bankId: string, bankName: string)
    | Cleared(keepLatest: int)

  /**
   * The collaborators of one service: the factory, the cache lookup by
   * bank id (`get_cached_rates`), whether a save of the bank's rates
   * succeeds, how many documents to keep, the current UTC wall clock and
   * the host's UTC offset in seconds.
   */
  datatype Service = Service(
    factory: string -> Made,
    cached: string -> Option<Fields>,
    saveOk: string -> bool,
    keepLatest: int,
    now: DateTime,
    localOffset: int)

  predicate ValidService(svc: Service) {
    ValidDateTime(svc.now)
  }

  // ------------------------------------------------------------------
  // _get_scraper
  // ------------------------------------------------------------------

  /** The message for a factory that returns nothing. */
  function NoScraperMessage(bankId: string): string {
    "Unknown bank '" + bankId + "'. Supported banks: " + Registry.AvailableBanksRepr
  }

  /**
   * `_get_scraper`: the id is stripped and lower-cased before it reaches
   * the factory; a factory `ValueError` or a missing scraper is an
   * unknown bank.
   */
  function GetScraper(svc: Service, bankId: string): (r: Outcome<Scraper>)
    ensures r.Ok? <==> svc.factory(Lower(Strip(bankId))).Made?
    ensures r.Ok? ==> r.value == svc.factory(Lower(Strip(bankId))).scraper
    ensures r.Err? ==> r.error.UnknownBank?
  {
    match svc.factory(Lower(Strip(bankId)))
    case Made(s) => Ok(s)
    case FactoryValueError(message) => Err(UnknownBank(message))
    case NoScraper => Err(UnknownBank(NoScraperMessage(bankId)))
  }

  // ------------------------------------------------------------------
  // _scrape
  // ------------------------------------------------------------------

  /**
   * `_scrape`: the scraper's record with its metadata set where absent.
   * A raise or a falsy record is a service failure; a truthy record that
   * is not a dict has no `setdefault`, which raises.
   */
  function Scrape(s: Scraper): (r: Outcome<Fields>)
    ensures r.Ok? <==> s.scraped.Returned? && s.scraped.data.Obj? && Truthy(s.scraped.data)
    ensures r.Err? && (s.scraped.Raised? || !Truthy(s.scraped.data)) ==> r.error.ServiceFailure?
    ensures r.Ok? ==> HasKey(r.value, "bank_name") && HasKey(r.value, "bank_id")
    ensures r.Ok? ==> (HasKey(r.value, "source_url") <==> HasKey(s.scraped.data.fields, "source_url") || !Missing(s.scraped.url))
  {
    match s.scraped
    case Raised(e) => Err(ServiceFailure("Failed to scrape rates for " + s.bankName + ": " + e))
    case Returned(data, url) =>
      if !Truthy(data) then Err(ServiceFailure("Failed to scrape rates for " + s.bankName))
      else if !data.Obj? then Err(Unexpected)
      else
        var named := SetDefault(SetDefault(data.fields, "bank_name", Str(s.bankName)), "bank_id", Str(s.bankId));
        Ok(if !Missing(url) then SetDefault(named, "source_url", Str(url.value)) else named)
  }

  /**
   * The metadata the scraper already set is never overwritten, and the
   * defaults fill exactly the gaps.
   */
  lemma ScrapeKeepsScraperValues(s: Scraper, j: string)
    requires s.scraped.Returned? && s.scraped.data.Obj? && Truthy(s.scraped.data)
    requires DistinctKeys(s.scraped.data.fields)
    ensures var f := s.scraped.data.fields;
            var r := Scrape(s).value;
            Lookup(r, j) == if HasKey(f, j) then Lookup(f, j)
                            else if j == "bank_name" then Some(Str(s.bankName))
                            else if j == "bank_id" then Some(Str(s.bankId))
                            else if j == "source_url" && !Missing(s.scraped.url) then Some(Str(s.scraped.url.value))
                            else None
  {
    var f := s.scraped.data.fields;
    var f1 := SetDefault(f, "bank_name", Str(s.bankName));
    var f2 := SetDefault(f1, "bank_id", Str(s.bankId));
    SetDefaultLookup(f, "bank_name", Str(s.bankName), j);
    SetDefaultLookup(f1, "bank_id", Str(s.bankId), j);
    if !Missing(s.scraped.url) {
      SetDefaultLookup(f2, "source_url", Str(s.scraped.url.value), j);
    }
    assert HasKey(f1, j) <==> HasKey(f, j) || j == "bank_name";
    assert HasKey(f2, j) <==> HasKey(f1, j) || j == "bank_id";
  }

  /**
   * Landsbankinn's scraper, once it has a document's text, fails the
   * service with the message of `parse_rates`' relative import; that
   * message is the bank's `error` in `get_all_bank_rates` (see `EntryOf`).
   */
  lemma LandsbankinnScrapeFailure(page: Option<seq<string>>, download: string -> Option<seq<Byte>>,
                                  extract: seq<Byte> -> string)
    requires Landsbankinn.ScrapeRates(page, download, extract).Raised?
    ensures Scrape(Scraper(Landsbankinn.BankId, Landsbankinn.BankName, Landsbankinn.ScrapeRates(page, download, extract)))
            == Err(ServiceFailure("Failed to scrape rates for " + Landsbankinn.BankName + ": " + Landsbankinn.RelativeImportError))
  {
    Landsbankinn.ScrapeRatesNeverReturnsData(page, download, extract);
  }

  // ------------------------------------------------------------------
  // _persist_and_format and _ensure_metadata
  // ------------------------------------------------------------------

  /** `_ensure_metadata`: the scraper's ids, set only where the response lacks them. */
  function EnsureMetadata(response: Fields, s: Scraper): (r: Fields)
    ensures HasKey(response, "bank_id") && HasKey(response, "bank_name") ==> r == response
    ensures HasKey(r, "bank_id") && HasKey(r, "bank_name")
  {
    SetDefault(SetDefault(response, "bank_id", Str(s.bankId)), "bank_name", Str(s.bankName))
  }

  /** A formatted response already carries both ids, so `_ensure_metadata` changes nothing after it. */
  lemma EnsureMetadataAfterFormat(data: Fields, fromCache: bool, svc: Service, s: Scraper)
    requires ValidService(svc)
    requires Firestore.FormatResponse(data, fromCache, svc.now, svc.localOffset).Some?
    ensures var r := Firestore.FormatResponse(data, fromCache, svc.now, svc.localOffset).value;
            EnsureMetadata(r, s) == r
  {
    var r := Firestore.FormatResponse(data, fromCache, svc.now, svc.localOffset).value;
    assert Keys(r)[0] == "bank_id" && Keys(r)[1] == "bank_name";
  }

  /** The keys of the wrapper `_persist_and_format` builds, in order. */
  const WrapperKeys: seq<string> := ["bank_id", "bank_name", "data", "effective_date", "source_url"]

  lemma WrapperKeysDistinct()
    ensures forall i, j :: 0 <= i < j < |WrapperKeys| ==> WrapperKeys[i] != WrapperKeys[j]
    ensures "last_updated" !in WrapperKeys
  {
  }

  /** The wrapper `_persist_and_format` hands to `format_response`. */
  function Wrapper(s: Scraper, payload: Fields): (r: Fields)
    ensures Keys(r) == WrapperKeys
    ensures r[0].1 == Str(s.bankId) && r[1].1 == Str(s.bankName) && r[2].1 == Obj(payload)
    ensures r[3].1 == Get(payload, "effective_date") && r[4].1 == Get(payload, "source_url")
  {
    [("bank_id", Str(s.bankId)), ("bank_name", Str(s.bankName)), ("data", Obj(payload)),
     ("effective_date", Get(payload, "effective_date")), ("source_url", Get(payload, "source_url"))]
  }

  /** Each wrapper entry is found under its key. */
  lemma WrapperLookup(s: Scraper, payload: Fields, i: int)
    requires 0 <= i < 5
    ensures HasKey(Wrapper(s, payload), WrapperKeys[i])
    ensures Get(Wrapper(s, payload), WrapperKeys[i]) == Wrapper(s, payload)[i].1
  {
    var w := Wrapper(s, payload);
    WrapperKeysDistinct();
    LookupAt(w, i);
  }

  /** The wrapper holds the payload under "data" and no "last_updated". */
  lemma WrapperData(s: Scraper, payload: Fields)
    ensures HasKey(Wrapper(s, payload), "data") && Get(Wrapper(s, payload), "data") == Obj(payload)
    ensures !HasKey(Wrapper(s, payload), "last_updated")
  {
    WrapperKeysDistinct();
    WrapperLookup(s, payload, 2);
  }

  /** The wrapper's ids are the scraper's, and its date and URL the payload's. */
  lemma WrapperFields(s: Scraper, payload: Fields)
    ensures Get(Wrapper(s, payload), "bank_id") == Str(s.bankId)
    ensures Get(Wrapper(s, payload), "bank_name") == Str(s.bankName)
    ensures Get(Wrapper(s, payload), "effective_date") == Get(payload, "effective_date")
    ensures Get(Wrapper(s, payload), "source_url") == Get(payload, "source_url")
  {
    WrapperLookup(s, payload, 0);
    WrapperLookup(s, payload, 1);
    WrapperLookup(s, payload, 3);
    WrapperLookup(s, payload, 4);
  }

  /**
   * The response to freshly scraped data: the scraper's ids (the
   * payload's where an id is empty and the payload is not), the payload's
   * date and URL, stamped now and marked not cached.
   */
  function FreshResponse(s: Scraper, payload: Fields, now: DateTime): (r: Fields)
    requires ValidDateTime(now)
    ensures Keys(r) == Firestore.ResponseKeys()
  {
    Firestore.Response(
      if |s.bankId| > 0 || |payload| == 0 then Str(s.bankId) else Get(payload, "bank_id"),
      if |s.bankName| > 0 || |payload| == 0 then Str(s.bankName) else Get(payload, "bank_name"),
      Get(payload, "effective_date"), Str(FormatTimestamp(now)), Obj(payload),
      Get(payload, "source_url"), Bool(false))
  }

  /** Formatting the wrapper never fails and yields the fresh response. */
  lemma FormatWrapper(s: Scraper, payload: Fields, now: DateTime, localOffset: int)
    requires ValidDateTime(now)
    ensures Firestore.FormatResponse(Wrapper(s, payload), false, now, localOffset) == Some(FreshResponse(s, payload, now))
  {
    WrapperData(s, payload);
    WrapperFields(s, payload);
    var w := Wrapper(s, payload);
    assert Get(w, "last_updated") == Null;
    FallbackOnPayload(s.bankId, payload, "bank_id");
    FallbackOnPayload(s.bankName, payload, "bank_name");
    Firestore.FormatResponseWrapped(w, false, now, localOffset);
  }

  /** An id falls back on the payload's exactly when it is empty and the payload is not. */
  lemma FallbackOnPayload(id: string, payload: Fields, key: string)
    ensures Firestore.Fallback(Str(id), Obj(payload), key)
            == Some(if |id| > 0 || |payload| == 0 then Str(id) else Get(payload, key))
  {
  }

  /**
   * The formatting step of `_persist_and_format`: the wrapper formatted as
   * fresh data, then `_ensure_metadata`.
   */
  function FormatFresh(s: Scraper, payload: Fields, now: DateTime, localOffset: int): (r: Fields)
    requires ValidDateTime(now)
    ensures r == FreshResponse(s, payload, now)
  {
    FormatWrapper(s, payload, now, localOffset);
    var response := Firestore.FormatResponse(Wrapper(s, payload), false, now, localOffset).value;
    assert Keys(response)[0] == "bank_id" && Keys(response)[1] == "bank_name";
    EnsureMetadata(response, s)
  }

  /**
   * `_persist_and_format`: save (with "" for a falsy source URL), prune
   * only after a successful save, then format the payload as fresh data.
   */
  function PersistAndFormat(svc: Service, s: Scraper, payload: Fields): (r: (Outcome<Fields>, seq<Effect>))
    requires ValidService(svc)
    ensures r.1 == [Saved(payload, if Truthy(Get(payload, "source_url")) then Get(payload, "source_url") else Str(""),
                          s.bankId, s.bankName)]
                   + (if svc.saveOk(s.bankId) then [Cleared(svc.keepLatest)] else [])
    ensures r.0 == Ok(FreshResponse(s, payload, svc.now))
  {
    var sourceUrl := Get(payload, "source_url");
    var saved := Saved(payload, if Truthy(sourceUrl) then sourceUrl else Str(""), s.bankId, s.bankName);
    var effects := [saved] + (if svc.saveOk(s.bankId) then [Cleared(svc.keepLatest)] else []);
    (Ok(FormatFresh(s, payload, svc.now, svc.localOffset)), effects)
  }

  // ------------------------------------------------------------------
  // get_bank_rates
  // ------------------------------------------------------------------

  /** Whether `get_bank_rates` answers from the cache: a non-empty cached record, unless refreshing. */
  function CacheHit(svc: Service, s: Scraper, forceRefresh: bool): (r: Option<Fields>)
    ensures r.Some? <==> !forceRefresh && svc.cached(s.bankId).Some? && |svc.cached(s.bankId).value| > 0
    ensures r.Some? ==> r == svc.cached(s.bankId)
  {
    if forceRefresh then None
    else match svc.cached(s.bankId)
      case Some(hit) => if |hit| > 0 then Some(hit) else None
      case None => None
  }

  /**
   * `get_bank_rates`: the response and what was asked of the persistence
   * manager. Without `forceRefresh`, a non-empty cached record is
   * formatted as cached; otherwise the bank is scraped, saved and
   * formatted as fresh.
   */
  function GetBankRates(svc: Service, bankId: string, forceRefresh: bool): (r: (Outcome<Fields>, seq<Effect>))
    requires ValidService(svc)
    ensures GetScraper(svc, bankId).Err? ==> r == (Err(GetScraper(svc, bankId).error), [])
    ensures r.0.Ok? ==> Keys(r.0.value) == Firestore.ResponseKeys()
    ensures GetScraper(svc, bankId).Ok? && CacheHit(svc, GetScraper(svc, bankId).value, forceRefresh).None? ==>
            var s := GetScraper(svc, bankId).value;
            r == if Scrape(s).Ok? then PersistAndFormat(svc, s, Scrape(s).value) else (Err(Scrape(s).error), [])
  {
    match GetScraper(svc, bankId)
    case Err(e) => (Err(e), [])
    case Ok(s) =>
      match CacheHit(svc, s, forceRefresh)
      case Some(hit) =>
        (match Firestore.FormatResponse(hit, true, svc.now, svc.localOffset)
         case None => (Err(Unexpected), [])
         case Some(response) =>
           assert Keys(response)[0] == "bank_id" && Keys(response)[1] == "bank_name";
           (Ok(EnsureMetadata(response, s)), []))
      case None =>
        match Scrape(s)
        case Err(e) => (Err(e), [])
        case Ok(payload) => PersistAndFormat(svc, s, payload)
  }

  /**
   * A cache hit is the cached record formatted as cached, and nothing is
   * saved or pruned.
   */
  lemma CacheHitServed(svc: Service, bankId: string)
    requires ValidService(svc) && GetScraper(svc, bankId).Ok?
    requires CacheHit(svc, GetScraper(svc, bankId).value, false).Some?
    ensures var hit := svc.cached(GetScraper(svc, bankId).value.bankId).value;
            var r := GetBankRates(svc, bankId, false);
            && r.1 == []
            && (r.0.Ok? <==> Firestore.FormatResponse(hit, true, svc.now, svc.localOffset).Some?)
            && (r.0.Ok? ==> r.0.value == Firestore.FormatResponse(hit, true, svc.now, svc.localOffset).value
                            && r.0.value[6].1 == Bool(true))
  {
  }

  /**
   * Without a cache hit (always so under `forceRefresh`) a scrape that
   * yields a record is saved, pruning follows exactly when the save
   * succeeded, and the response is the payload's, marked fresh.
   */
  lemma FreshScrapeSaved(svc: Service, bankId: string, forceRefresh: bool)
    requires ValidService(svc) && GetScraper(svc, bankId).Ok?
    requires CacheHit(svc, GetScraper(svc, bankId).value, forceRefresh).None?
    requires Scrape(GetScraper(svc, bankId).value).Ok?
    ensures var s := GetScraper(svc, bankId).value;
            var payload := Scrape(s).value;
            var r := GetBankRates(svc, bankId, forceRefresh);
            && 1 <= |r.1| <= 2 && r.1[0].Saved? && r.1[0].payload == payload && r.1[0].bankId == s.bankId
            && (Cleared(svc.keepLatest) in r.1 <==> svc.saveOk(s.bankId))
            && r.0 == Ok(FreshResponse(s, payload, svc.now))
  {
    var s := GetScraper(svc, bankId).value;
    var payload := Scrape(s).value;
    var sourceUrl := Get(payload, "source_url");
    ClearedAfterSave(Saved(payload, if Truthy(sourceUrl) then sourceUrl else Str(""), s.bankId, s.bankName),
                     svc.saveOk(s.bankId), svc.keepLatest);
  }

  lemma ClearedAfterSave(saved: Effect, ok: bool, keepLatest: int)
    requires saved.Saved?
    ensures Cleared(keepLatest) in [saved] + (if ok then [Cleared(keepLatest)] else []) <==> ok
  {
    if !ok {
      assert [saved] + [] == [saved];
    }
  }

  /** A scraper that raises or returns nothing makes the call fail with a service error and save nothing. */
  lemma ScrapeFailure(svc: Service, bankId: string, forceRefresh: bool)
    requires ValidService(svc) && GetScraper(svc, bankId).Ok?
    requires CacheHit(svc, GetScraper(svc, bankId).value, forceRefresh).None?
    requires var s := GetScraper(svc, bankId).value; s.scraped.Raised? || !Truthy(s.scraped.data)
    ensures GetBankRates(svc, bankId, forceRefresh).0.Err?
    ensures GetBankRates(svc, bankId, forceRefresh).0.error.ServiceFailure?
    ensures GetBankRates(svc, bankId, forceRefresh).1 == []
  {
  }

  // ------------------------------------------------------------------
  // get_all_bank_rates
  // ------------------------------------------------------------------

  /** The entry recorded for a bank whose call raised a known error. */
  function ErrorEntry(bankId: string, message: string): Value {
    Obj([("bank_id", Str(bankId)), ("error", Str(message))])
  }

  /**
   * What `get_all_bank_rates` records for one bank: its response, or
   * `{bank_id, error}` for an unknown bank or a service failure. None
   * where any other error propagates.
   */
  function EntryOf(svc: Service, bankId: string, forceRefresh: bool): (r: Option<Value>)
    requires ValidService(svc)
    ensures r.None? <==> GetBankRates(svc, bankId, forceRefresh).0 == Err(Unexpected)
  {
    match GetBankRates(svc, bankId, forceRefresh).0
    case Ok(response) => Some(Obj(response))
    case Err(UnknownBank(m)) => Some(ErrorEntry(bankId, m))
    case Err(ServiceFailure(m)) => Some(ErrorEntry(bankId, m))
    case Err(Unexpected) => None
  }

  /**
   * The loop of `get_all_bank_rates` over `banks`, assigning each bank's
   * entry into `results` and collecting each call's effects; it stops at
   * the first bank without an entry, whose error propagates.
   */
  function CollectRates(entryOf: string -> Option<Value>, effectsOf: string -> seq<Effect>,
                        banks: seq<string>, results: Fields): (r: (Option<Fields>, seq<Effect>))
    decreases |banks|
  {
    if |banks| == 0 then (Some(results), [])
    else
      match entryOf(banks[0])
      case None => (None, effectsOf(banks[0]))
      case Some(entry) =>
        var rest := CollectRates(entryOf, effectsOf, banks[1..], Put(results, banks[0], entry));
        (rest.0, effectsOf(banks[0]) + rest.1)
  }

  /** Every bank has an entry in `entryOf`: no call's error propagates. */
  predicate AllListed(entryOf: string -> Option<Value>, banks: seq<string>) {
    forall i :: 0 <= i < |banks| ==> entryOf(banks[i]).Some?
  }

  /** One entry per bank, in order. */
  function Entries(entryOf: string -> Option<Value>, banks: seq<string>): (r: Fields)
    requires AllListed(entryOf, banks)
    ensures Keys(r) == banks
    ensures forall i :: 0 <= i < |banks| ==> r[i].1 == entryOf(banks[i]).value
    decreases |banks|
  {
    if |banks| == 0 then []
    else
      assert forall i :: 0 <= i < |banks| - 1 ==> banks[1..][i] == banks[i + 1];
      var r := [(banks[0], entryOf(banks[0]).value)] + Entries(entryOf, banks[1..]);
      assert Keys(r) == [banks[0]] + banks[1..];
      r
  }

  /** The loop succeeds exactly when every bank has an entry. */
  lemma {:induction false} CollectRatesListed(entryOf: string -> Option<Value>, effectsOf: string -> seq<Effect>,
                                              banks: seq<string>, results: Fields)
    ensures CollectRates(entryOf, effectsOf, banks, results).0.Some? <==> AllListed(entryOf, banks)
    decreases |banks|
  {
    if |banks| > 0 && entryOf(banks[0]).Some? {
      var rest := banks[1..];
      CollectRatesListed(entryOf, effectsOf, rest, Put(results, banks[0], entryOf(banks[0]).value));
      assert AllListed(entryOf, banks) <==> AllListed(entryOf, rest) by {
        if AllListed(entryOf, rest) {
          forall i | 0 <= i < |banks| ensures entryOf(banks[i]).Some? {
            if i > 0 { assert banks[i] == rest[i - 1]; }
          }
        } else {
          var i :| 0 <= i < |rest| && entryOf(rest[i]).None?;
          assert rest[i] == banks[i + 1];
        }
      }
    }
  }

  /**
   * When every bank has an entry, the loop appends one per bank, in
   * order, after what `results` held.
   */
  lemma {:induction false} CollectRatesEntries(entryOf: string -> Option<Value>, effectsOf: string -> seq<Effect>,
                                               banks: seq<string>, results: Fields)
    requires forall i, j :: 0 <= i < j < |banks| ==> banks[i] != banks[j]
    requires forall i :: 0 <= i < |banks| ==> !HasKey(results, banks[i])
    requires AllListed(entryOf, banks)
    ensures CollectRates(entryOf, effectsOf, banks, results).0 == Some(results + Entries(entryOf, banks))
    decreases |banks|
  {
    if |banks| == 0 {
      assert results + [] == results;
    } else {
      var entry := entryOf(banks[0]).value;
      var next := results + [(banks[0], entry)];
      var rest := banks[1..];
      assert Put(results, banks[0], entry) == next;
      KeysAppend(results, [(banks[0], entry)]);
      assert forall i :: 0 <= i < |rest| ==> rest[i] == banks[i + 1];
      CollectRatesEntries(entryOf, effectsOf, rest, next);
      assert Entries(entryOf, banks) == [(banks[0], entry)] + Entries(entryOf, rest);
      AppendAssoc(results, [(banks[0], entry)], Entries(entryOf, rest));
    }
  }

  lemma AppendAssoc<T>(a: seq<T>, b: seq<T>, c: seq<T>)
    ensures a + (b + c) == (a + b) + c
  {
  }

  /** The supported banks as a Python list of strings. */
  function BankList(banks: seq<string>): (r: Value)
    ensures r.Arr? && |r.items| == |banks|
    ensures forall i :: 0 <= i < |banks| ==> r.items[i] == Str(banks[i])
  {
    Arr(seq(|banks|, i requires 0 <= i < |banks| => Str(banks[i])))
  }

  /** The effects of the calls for every bank, in order. */
  function AllEffects(effectsOf: string -> seq<Effect>, banks: seq<string>): seq<Effect>
    decreases |banks|
  {
    if |banks| == 0 then [] else effectsOf(banks[0]) + AllEffects(effectsOf, banks[1..])
  }

  /** When every bank has an entry, the loop makes every bank's call and keeps its effects. */
  lemma {:induction false} CollectRatesEffects(entryOf: string -> Option<Value>, effectsOf: string -> seq<Effect>,
                                               banks: seq<string>, results: Fields)
    requires AllListed(entryOf, banks)
    ensures CollectRates(entryOf, effectsOf, banks, results).1 == AllEffects(effectsOf, banks)
    decreases |banks|
  {
    if |banks| > 0 {
      var rest := banks[1..];
      assert forall i :: 0 <= i < |rest| ==> rest[i] == banks[i + 1];
      CollectRatesEffects(entryOf, effectsOf, rest, Put(results, banks[0], entryOf(banks[0]).value));
    }
  }

  /**
   * `get_all_bank_rates` over the bank list `banks`, given what the loop
   * records for each bank (`entryOf`, None where the call's error
   * propagates) and what each call asks of the persistence manager: the
   * per-bank results, the list itself, and the time of the call.
   */
  function AllRates(entryOf: string -> Option<Value>, effectsOf: string -> seq<Effect>,
                    banks: seq<string>, now: DateTime): (r: (Outcome<Value>, seq<Effect>))
    requires ValidDateTime(now)
    requires forall i, j :: 0 <= i < j < |banks| ==> banks[i] != banks[j]
    ensures var listed := AllListed(entryOf, banks);
            && (r.0.Ok? <==> listed)
            && (r.0.Err? ==> r.0.error == Unexpected)
            && (listed ==> r.0.value == Obj([("banks", Obj(Entries(entryOf, banks))),
                                             ("available_banks", BankList(banks)),
                                             ("fetched_at", Str(FormatTimestamp(now)))]))
            && (listed ==> r.1 == AllEffects(effectsOf, banks))
  {
    CollectRatesListed(entryOf, effectsOf, banks, []);
    var collected := CollectRates(entryOf, effectsOf, banks, []);
    assert AllListed(entryOf, banks) ==>
           collected == (Some(Entries(entryOf, banks)), AllEffects(effectsOf, banks)) by {
      if AllListed(entryOf, banks) {
        CollectRatesEntries(entryOf, effectsOf, banks, []);
        CollectRatesEffects(entryOf, effectsOf, banks, []);
        assert [] + Entries(entryOf, banks) == Entries(entryOf, banks);
      }
    }
    match collected.0
    case None => (Err(Unexpected), collected.1)
    case Some(results) =>
      (Ok(Obj([("banks", Obj(results)), ("available_banks", BankList(banks)),
               ("fetched_at", Str(FormatTimestamp(now)))])), collected.1)
  }

  /**
   * `get_all_bank_rates`: the loop over the registry's banks, recording
   * each bank's `get_bank_rates` response or error entry.
   */
  function GetAllBankRates(svc: Service, forceRefresh: bool): (r: (Outcome<Value>, seq<Effect>))
    requires ValidService(svc)
  {
    AllRates(b => EntryOf(svc, b, forceRefresh), b => GetBankRates(svc, b, forceRefresh).1,
             Registry.AvailableBanks(), svc.now)
  }
}
