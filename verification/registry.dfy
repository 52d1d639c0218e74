/**
 * The scraper registry of the `banks` package: the three known banks, the
 * lazily filled class cache, and the factory `get_bank_scraper`.
 */
module Registry {
  import opened Wrappers
  import Landsbankinn
  import Arion
  import Islandsbanki

  /** The three scraper classes. */
  datatype ScraperClass = LandsbankinScraper | ArionBankiScraper | IslandsbankiScraper

  /** The `bank_id` a scraper of the class is constructed with. */
  function BankIdOf(c: ScraperClass): string {
    match c
    case LandsbankinScraper => Landsbankinn.BankId
    case ArionBankiScraper => Arion.BankId
    case IslandsbankiScraper => Islandsbanki.BankId
  }

  /** The `bank_name` a scraper of the class is constructed with. */
  function BankNameOf(c: ScraperClass): string {
    match c
    case LandsbankinScraper => Landsbankinn.BankName
    case ArionBankiScraper => Arion.BankName
    case IslandsbankiScraper => Islandsbanki.BankName
  }

  /** The keys of `AVAILABLE_BANKS`, in registry order. */
  function AvailableBanks(): (r: seq<string>)
    ensures |r| == 3
    ensures forall i, j :: 0 <= i < j < |r| ==> r[i] != r[j]
  {
    ["landsbankinn", "arionbanki", "islandsbanki"]
  }

  /** The import chain of `_get_scraper_class` for an id not yet cached. */
  function Load(bankId: string): (r: Option<ScraperClass>)
    ensures r.Some? <==> bankId in AvailableBanks()
    ensures r.Some? ==> BankIdOf(r.value) == bankId
  {
    if bankId == "landsbankinn" then Some(LandsbankinScraper)
    else if bankId == "arionbanki" then Some(ArionBankiScraper)
    else if bankId == "islandsbanki" then Some(IslandsbankiScraper)
    else None
  }

  /** `_SCRAPER_CACHE`. */
  type Cache = map<string, ScraperClass>

  /** A cache holding only what loading would give; the only caches the package builds. */
  predicate CacheSound(cache: Cache) {
    forall k :: k in cache ==> Load(k) == Some(cache[k])
  }

  /**
   * `_get_scraper_class`: the cached class if there is one; otherwise the
   * loaded class, which is then cached. An unknown id gives None and
   * leaves the cache as it was.
   */
  function GetScraperClass(cache: Cache, bankId: string): (r: (Option<ScraperClass>, Cache))
    ensures CacheSound(cache) ==> r.0 == Load(bankId) && CacheSound(r.1)
    ensures r.0.Some? ==> bankId in r.1 && r.1[bankId] == r.0.value
    ensures r.0.None? ==> r.1 == cache
    ensures forall k :: k in cache ==> k in r.1 && r.1[k] == cache[k]
    ensures forall k :: k in r.1 ==> k in cache || k == bankId
  {
    if bankId in cache then (Some(cache[bankId]), cache)
    else match Load(bankId)
      case None => (None, cache)
      case Some(c) => (Some(c), cache[bankId := c])
  }

  /** A second lookup of the same id returns the same class and changes nothing. */
  lemma GetScraperClassMemoised(cache: Cache, bankId: string)
    requires GetScraperClass(cache, bankId).0.Some?
    ensures var (c, cache') := GetScraperClass(cache, bankId);
            GetScraperClass(cache', bankId) == (c, cache')
  {
  }

  /** A scraper instance, as far as the rest of the system looks at it. */
  datatype Scraper = Scraper(cls: ScraperClass, bankId: string, bankName: string)

  /** Constructing a scraper of the class. */
  function Instantiate(c: ScraperClass): (s: Scraper)
    ensures s.cls == c && s.bankId == BankIdOf(c) && s.bankName == BankNameOf(c)
  {
    Scraper(c, BankIdOf(c), BankNameOf(c))
  }

  /** The outcome of `get_bank_scraper`: a scraper, or the message of the `ValueError`. */
  datatype Created = Created(scraper: Scraper) | ValueError(message: string)

  /** The `repr` of the list of registry keys, as shown in the error message. */
  const AvailableBanksRepr := "['landsbankinn', 'arionbanki', 'islandsbanki']"

  /**
   * `get_bank_scraper`: an id outside the registry is a `ValueError`
   * naming the known banks; otherwise the class is looked up and
   * instantiated.
   */
  function GetBankScraper(cache: Cache, bankId: string): (r: (Created, Cache))
    ensures bankId !in AvailableBanks() ==> r == (ValueError("Unknown bank: " + bankId + ". Available banks: " + AvailableBanksRepr), cache)
    ensures CacheSound(cache) ==> CacheSound(r.1)
    ensures CacheSound(cache) ==> (r.0.Created? <==> bankId in AvailableBanks())
    ensures CacheSound(cache) && r.0.Created? ==> r.0.scraper.bankId == bankId
  {
    if bankId !in AvailableBanks() then
      (ValueError("Unknown bank: " + bankId + ". Available banks: " + AvailableBanksRepr), cache)
    else
      var (c, cache') := GetScraperClass(cache, bankId);
      match c
      case None => (ValueError("Failed to load scraper for bank: " + bankId), cache')
      case Some(cls) => (Created(Instantiate(cls)), cache')
  }

  /** Every registered id yields a scraper carrying that id, from any cache the package builds. */
  lemma RegisteredBanksLoad(cache: Cache, i: nat)
    requires CacheSound(cache) && i < |AvailableBanks()|
    ensures GetBankScraper(cache, AvailableBanks()[i]).0.Created?
    ensures GetBankScraper(cache, AvailableBanks()[i]).0.scraper.bankId == AvailableBanks()[i]
  {
  }

  /** The outcome of the module-level `__getattr__`. */
  datatype Attribute = Attribute(cls: Option<ScraperClass>) | AttributeError(name: string)

  /** The attribute name under which each class is reachable. */
  function ClassName(c: ScraperClass): string {
    match c
    case LandsbankinScraper => "LandsbankinScraper"
    case ArionBankiScraper => "ArionBankiScraper"
    case IslandsbankiScraper => "IslandsbankiScraper"
  }

  /**
   * Module `__getattr__`: the three class names load their class through
   * the cache; any other name is an `AttributeError`.
   */
  function ModuleGetAttr(cache: Cache, name: string): (r: (Attribute, Cache))
    ensures r.0.AttributeError? <==> (forall c: ScraperClass :: ClassName(c) != name)
    ensures r.0.AttributeError? ==> r.1 == cache && r.0.name == name
    ensures CacheSound(cache) && r.0.Attribute? ==> r.0.cls.Some? && ClassName(r.0.cls.value) == name && CacheSound(r.1)
  {
    if name == "LandsbankinScraper" then
      assert ClassName(LandsbankinScraper) == name;
      var (c, cache') := GetScraperClass(cache, "landsbankinn"); (Attribute(c), cache')
    else if name == "ArionBankiScraper" then
      assert ClassName(ArionBankiScraper) == name;
      var (c, cache') := GetScraperClass(cache, "arionbanki"); (Attribute(c), cache')
    else if name == "IslandsbankiScraper" then
      assert ClassName(IslandsbankiScraper) == name;
      var (c, cache') := GetScraperClass(cache, "islandsbanki"); (Attribute(c), cache')
    else
      (AttributeError(name), cache)
  }
}
