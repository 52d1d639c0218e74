/**
 * The Arion banki scraper (`ArionBankiScraper`). The bank's open API is
 * tried first; failing that, the individual rates PDF is found on the
 * rates page (directly or through an intermediate page), downloaded and
 * read pattern by pattern. The network, BeautifulSoup, pdfminer, `urljoin`
 * and the regular-expression engine are parameters: what the model fixes
 * is which link is chosen, which pattern goes with which key, how a
 * captured group becomes a number, which tiers are kept, and the shape of
 * the record.
 */
module Arion {
  import opened Wrappers
  import opened Text
  import opened Numbers
  import opened Json
  import opened Regex
  import opened BankBase
  import IcelandicDates
  import Calendar

  const BankName := "Arion banki"
  const BankId := "arionbanki"
  const BaseUrl := "https://www.arionbanki.is/bankinn/fleira/vextir-og-verdskra/"
  const ApiUrl := "https://www.arionbanki.is/api/interest-rates"

  // ------------------------------------------------------------------
  // Links
  // ------------------------------------------------------------------

  /** `urljoin(base, url)`. */
  type Join = (string, string) -> string

  /** `_make_absolute_url`: empty stays empty; a stripped link starting with "http" is kept, any other is joined to the rates page. */
  function MakeAbsoluteUrl(join: Join, url: string): (r: string)
    ensures |url| == 0 ==> r == ""
    ensures |url| > 0 && StartsWith(Strip(url), "http") ==> r == Strip(url)
    ensures |url| > 0 && !StartsWith(Strip(url), "http") ==> r == join(BaseUrl, Strip(url))
  {
    if |url| == 0 then ""
    else
      var u := Strip(url);
      if StartsWith(u, "http") then u else join(BaseUrl, u)
  }

  /** Stripping twice is stripping once. */
  lemma StripTwice(s: string)
    ensures Strip(Strip(s)) == Strip(s)
  {
    var t := Strip(s);
    if |t| > 0 {
      var l := StripLeft(t);
      assert |l| == |t| by {
        assert !IsSpace(t[0]);
      }
      assert l == t;
      var r := StripRight(l);
      assert |r| == |l| by {
        assert !IsSpace(l[|l| - 1]);
      }
      assert r == l;
    }
  }

  /** An absolute link is a fixed point: making it absolute again changes nothing. */
  lemma MakeAbsoluteUrlFixed(join: Join, url: string)
    requires |url| > 0 && StartsWith(Strip(url), "http")
    ensures MakeAbsoluteUrl(join, MakeAbsoluteUrl(join, url)) == MakeAbsoluteUrl(join, url)
  {
    StripTwice(url);
  }

  /** `absolute.lower().endswith('.pdf')`. */
  predicate IsPdf(url: string) {
    EndsWith(Lower(url), ".pdf")
  }

  /**
   * An `<a>` or `<button>` of a page: its text as `get_text(separator=' ',
   * strip=True)` gives it, and its `href`, `data-file`, `data-file-url` and
   * `data-url` attributes.
   */
  datatype Element = Element(text: string, href: Option<string>, dataFile: Option<string>,
                             dataFileUrl: Option<string>, dataUrl: Option<string>)

  /** The attributes that may hold the link, in the order they are tried. */
  function Candidates(e: Element): (cs: seq<Option<string>>)
    ensures |cs| == 4 && cs[0] == e.href && cs[3] == e.dataUrl
  {
    [e.href, e.dataFile, e.dataFileUrl, e.dataUrl]
  }

  /** A page fetched and parsed: its elements, or `None` when the request failed. */
  type Fetch = string -> Option<seq<Element>>

  /** The first non-`None` pick over `xs`, in order. */
  function FirstOf<T, U>(pick: T -> Option<U>, xs: seq<T>): (r: Option<U>)
    ensures r.None? <==> forall i :: 0 <= i < |xs| ==> pick(xs[i]).None?
    ensures r.Some? ==> exists i :: 0 <= i < |xs| && pick(xs[i]) == r
  {
    if |xs| == 0 then None
    else if pick(xs[0]).Some? then pick(xs[0])
    else
      var r := FirstOf(pick, xs[1..]);
      assert forall i :: 1 <= i < |xs| ==> xs[i] == xs[1..][i - 1];
      r
  }

  /** The pick of the first element that has one is the result. */
  lemma {:induction false} FirstOfIs<T, U>(pick: T -> Option<U>, xs: seq<T>, i: nat)
    requires i < |xs| && pick(xs[i]).Some?
    requires forall j :: 0 <= j < i ==> pick(xs[j]).None?
    ensures FirstOf(pick, xs) == pick(xs[i])
  {
    if i > 0 {
      FirstOfIs(pick, xs[1..], i - 1);
    }
  }

  /** On the intermediate page any present, non-empty attribute counts, if it leads to a PDF. */
  function DetailCandidate(join: Join, c: Option<string>): (r: Option<string>)
    ensures r.Some? ==> IsPdf(r.value)
  {
    if c.None? || |c.value| == 0 then None
    else
      var absolute := MakeAbsoluteUrl(join, c.value);
      if IsPdf(absolute) then Some(absolute) else None
  }

  function DetailElement(join: Join, e: Element): (r: Option<string>)
    ensures r.Some? ==> IsPdf(r.value)
  {
    FirstOf(c => DetailCandidate(join, c), Candidates(e))
  }

  /**
   * `_find_pdf_in_detail_page`: the first attribute of the first element
   * of the page that leads to a PDF; `None` when there is none or the
   * request failed.
   */
  function FindPdfInDetailPage(fetch: Fetch, join: Join, pageUrl: string): (r: Option<string>)
    ensures fetch(pageUrl).None? ==> r.None?
    ensures r.Some? ==> IsPdf(r.value)
    ensures r.None? <==> (fetch(pageUrl).None? ||
      forall i, k :: 0 <= i < |fetch(pageUrl).value| && 0 <= k < 4 ==>
        DetailCandidate(join, Candidates(fetch(pageUrl).value[i])[k]).None?)
  {
    match fetch(pageUrl)
    case None => None
    case Some(es) =>
      var r := FirstOf(e => DetailElement(join, e), es);
      assert r.Some? ==> IsPdf(r.value);
      r
  }

  /** The rates page's label filter: "vaxtatafla" and "einstaklinga" both in the lower-cased text. */
  predicate Labelled(e: Element) {
    var t := Lower(e.text);
    Contains(t, "vaxtatafla") && Contains(t, "einstaklinga")
  }

  /** On the rates page an attribute must be present, non-empty, and not a `javascript` link in any case. */
  predicate Usable(c: Option<string>) {
    c.Some? && |c.value| > 0 && !StartsWith(Lower(c.value), "javascript")
  }

  /** A usable attribute gives its own absolute link when that is a PDF, else the intermediate page's PDF. */
  function MainCandidate(fetch: Fetch, join: Join, c: Option<string>): (r: Option<string>)
    ensures !Usable(c) ==> r.None?
    ensures r.Some? ==> IsPdf(r.value)
  {
    if !Usable(c) then None
    else
      var absolute := MakeAbsoluteUrl(join, c.value);
      if IsPdf(absolute) then Some(absolute) else FindPdfInDetailPage(fetch, join, absolute)
  }

  function MainElement(fetch: Fetch, join: Join, e: Element): (r: Option<string>)
    ensures !Labelled(e) ==> r.None?
    ensures r.Some? ==> IsPdf(r.value)
  {
    if !Labelled(e) then None
    else FirstOf(c => MainCandidate(fetch, join, c), Candidates(e))
  }

  /**
   * `get_pdf_url`: `page` holds the rates page's elements (`None` when the
   * request failed). The first labelled element with an attribute that
   * leads to a PDF gives it.
   */
  function GetPdfUrl(page: Option<seq<Element>>, fetch: Fetch, join: Join): (r: Option<string>)
    ensures page.None? ==> r.None?
    ensures r.Some? ==> IsPdf(r.value)
    ensures page.Some? ==>
      (r.None? <==> forall i :: 0 <= i < |page.value| ==> MainElement(fetch, join, page.value[i]).None?)
  {
    match page
    case None => None
    case Some(es) =>
      var r := FirstOf(e => MainElement(fetch, join, e), es);
      assert r.Some? ==> IsPdf(r.value);
      r
  }

  /** Elements without both words of the label are never looked at: a page with none gives no link. */
  lemma GetPdfUrlNeedsLabel(page: seq<Element>, fetch: Fetch, join: Join)
    requires forall i :: 0 <= i < |page| ==> !Labelled(page[i])
    ensures GetPdfUrl(Some(page), fetch, join).None?
  {
  }

  /**
   * A direct PDF link wins: when the first usable attribute of the first
   * labelled element is itself a PDF, it is the link, whatever the other
   * attributes and elements hold.
   */
  lemma GetPdfUrlDirect(page: seq<Element>, fetch: Fetch, join: Join, i: nat, k: nat)
    requires i < |page| && Labelled(page[i]) && k < 4
    requires forall j :: 0 <= j < i ==> !Labelled(page[j])
    requires Usable(Candidates(page[i])[k])
    requires forall m :: 0 <= m < k ==> !Usable(Candidates(page[i])[m])
    requires IsPdf(MakeAbsoluteUrl(join, Candidates(page[i])[k].value))
    ensures GetPdfUrl(Some(page), fetch, join) == Some(MakeAbsoluteUrl(join, Candidates(page[i])[k].value))
  {
    FirstUsable(fetch, join, page[i], k);
    FirstLabelled(fetch, join, page, i);
  }

  /**
   * A link that is not a PDF is followed: the intermediate page's PDF is
   * taken when it has one.
   */
  lemma GetPdfUrlThroughDetail(page: seq<Element>, fetch: Fetch, join: Join, i: nat, k: nat)
    requires i < |page| && Labelled(page[i]) && k < 4
    requires forall j :: 0 <= j < i ==> !Labelled(page[j])
    requires Usable(Candidates(page[i])[k])
    requires forall m :: 0 <= m < k ==> !Usable(Candidates(page[i])[m])
    requires !IsPdf(MakeAbsoluteUrl(join, Candidates(page[i])[k].value))
    requires FindPdfInDetailPage(fetch, join, MakeAbsoluteUrl(join, Candidates(page[i])[k].value)).Some?
    ensures GetPdfUrl(Some(page), fetch, join) ==
      FindPdfInDetailPage(fetch, join, MakeAbsoluteUrl(join, Candidates(page[i])[k].value))
  {
    FirstUsable(fetch, join, page[i], k);
    FirstLabelled(fetch, join, page, i);
  }

  /** Within a labelled element, the first usable attribute that leads somewhere decides. */
  lemma FirstUsable(fetch: Fetch, join: Join, e: Element, k: nat)
    requires Labelled(e) && k < 4
    requires MainCandidate(fetch, join, Candidates(e)[k]).Some?
    requires forall m :: 0 <= m < k ==> !Usable(Candidates(e)[m])
    ensures MainElement(fetch, join, e) == MainCandidate(fetch, join, Candidates(e)[k])
  {
    FirstOfIs(c => MainCandidate(fetch, join, c), Candidates(e), k);
  }

  /** The first element that leads somewhere decides, when no earlier one is labelled. */
  lemma FirstLabelled(fetch: Fetch, join: Join, page: seq<Element>, i: nat)
    requires i < |page| && MainElement(fetch, join, page[i]).Some?
    requires forall j :: 0 <= j < i ==> !Labelled(page[j])
    ensures GetPdfUrl(Some(page), fetch, join) == MainElement(fetch, join, page[i])
  {
    FirstOfIs(e => MainElement(fetch, join, e), page, i);
  }

  // ------------------------------------------------------------------
  // Rates
  // ------------------------------------------------------------------

  /** The patterns of `parse_rates_from_pdf`. */
  datatype Rx =
    | Current
    | Fridindi1 | Fridindi2 | Fridindi3 | Fridindi4 | Fridindi5
    | Voxtur1 | Voxtur2 | Voxtur3 | Voxtur4
    | HousingSavings
    | IndexedVariable1 | Mortgage2 | Mortgage3 | IndexedFixed1 | IndexedFixed2
    | UnindexedVariable1 | Unindexed2
    | ElectricUnder50 | Electric50To60
    | PersonalOverdraft | StudentLoan
    | CardInstalments
    | Penalty

  /** The pattern text behind each `Rx`; every one captures its rate in group 1. */
  function Pattern(p: Rx): string {
    match p
    case Current => @"Veltureikningur.*?(\d+[,\.]\d+)%"
    case Fridindi1 => @"1\. þrep.*?0-1 millj.*?(\d+[,\.]\d+)%"
    case Fridindi2 => @"2\. þrep.*?1-5 millj.*?(\d+[,\.]\d+)%"
    case Fridindi3 => @"3\. þrep.*?5-20 millj.*?(\d+[,\.]\d+)%"
    case Fridindi4 => @"4\. þrep.*?20-100 millj.*?(\d+[,\.]\d+)%"
    case Fridindi5 => @"5\. þrep.*?yfir 100 millj.*?(\d+[,\.]\d+)%"
    case Voxtur1 => @"Vöxtur 30.*?0-5 millj.*?(\d+[,\.]\d+)%"
    case Voxtur2 => @"Vöxtur 30.*?5-20 millj.*?(\d+[,\.]\d+)%"
    case Voxtur3 => @"Vöxtur 30.*?20-50 millj.*?(\d+[,\.]\d+)%"
    case Voxtur4 => @"Vöxtur 30.*?>50 millj.*?(\d+[,\.]\d+)%"
    case HousingSavings => @"Íbúðasparnaður.*?(\d+[,\.]\d+)%"
    case IndexedVariable1 => @"Verðtryggð íbúðalán.*?Breytilegir vextir.*?Íbúðalán I.*?(\d+[,\.]\d+)%"
    case Mortgage2 => @"Íbúðalán II.*?(\d+[,\.]\d+)%"
    case Mortgage3 => @"Íbúðalán III.*?(\d+[,\.]\d+)%"
    case IndexedFixed1 => @"Fastir vextir í 3 ár.*?Íbúðalán I.*?(\d+[,\.]\d+)%"
    case IndexedFixed2 => @"Fastir vextir í 3 ár.*?Íbúðalán II.*?(\d+[,\.]\d+)%"
    case UnindexedVariable1 => @"Óverðtryggð íbúðalán.*?Breytilegir vextir.*?Íbúðalán I.*?(\d+[,\.]\d+)%"
    case Unindexed2 => @"Óverðtryggð.*?Íbúðalán II.*?(\d+[,\.]\d+)%"
    case ElectricUnder50 => @"Rafmagn.*?50%.*?(\d+[,\.]\d+)%"
    case Electric50To60 => @"Rafmagn.*?50%.*?-.*?60%.*?(\d+[,\.]\d+)%"
    case PersonalOverdraft => @"Yfirdráttarlán einstaklinga.*?(\d+[,\.]\d+)%"
    case StudentLoan => @"Framfærslulán.*?Menntasjóðs.*?(\d+[,\.]\d+)%"
    case CardInstalments => @"Greiðsludreifing.*?kreditkorta.*?(\d+[,\.]\d+)%"
    case Penalty => @"Dráttarvextir.*?(\d+[,\.]\d+)%"
  }

  /** `re.search(Pattern(p), text, flags)`, an oracle. */
  type Search = (Rx, Flags, string) -> Option<Match>

  /** What `parse_rate` hands to `float()`: decimal comma made a point, `%` dropped, whitespace stripped. */
  function CleanRate(g: string): string {
    Strip(RemoveChar(ReplaceChar(g, ',', "."), '%'))
  }

  /**
   * `parse_rate`: the first group of the first case-insensitive match
   * (`.` does not cross a line break), read as a number; no match or a
   * group that is not a numeral gives `None`.
   */
  function ParseRate(search: Search, text: string, p: Rx): (r: Option<Decimal>)
    ensures search(p, IgnoreCase, text).None? ==> r.None?
    ensures r.Some? ==> Group(search(p, IgnoreCase, text).value, 1).Some?
  {
    match search(p, IgnoreCase, text)
    case None => None
    case Some(m) =>
      match Group(m, 1)
      case None => None
      case Some(g) => ParseFloat(CleanRate(g))
  }

  /** A match yields a rate exactly when its group cleans to a decimal numeral. */
  lemma ParseRateAccepts(search: Search, text: string, p: Rx)
    requires search(p, IgnoreCase, text).Some?
    requires Group(search(p, IgnoreCase, text).value, 1).Some?
    ensures ParseRate(search, text, p).Some? <==>
      IsNumeral(CleanRate(Group(search(p, IgnoreCase, text).value, 1).value))
  {
    var cleaned := CleanRate(Group(search(p, IgnoreCase, text).value, 1).value);
    assert ParseRate(search, text, p) == ParseFloat(cleaned);
    ParseFloatAccepts(cleaned);
  }

  /** Every group `(\d+[,\.]\d+)` can capture reads back as the number it spells. */
  lemma CleanRateGroup(whole: string, sep: char, frac: string)
    requires |whole| > 0 && AllDigits(whole) && AllDigits(frac) && (sep == '.' || sep == ',')
    ensures ParseFloat(CleanRate(whole + [sep] + frac)) == Some(Decimal(DigitsValue(whole + frac), |frac|))
  {
    var pointed := whole + "." + frac;
    PointedGroup(whole, sep, frac);
    NoPercentInPointed(whole, frac);
    PointedNoSpace(whole, frac);
    assert CleanRate(whole + [sep] + frac) == pointed;
    ParseUnsignedPointed(whole, frac);
    assert SplitSign(pointed) == (false, pointed);
  }

  lemma NoPercentInPointed(whole: string, frac: string)
    requires AllDigits(whole) && AllDigits(frac)
    ensures RemoveChar(whole + "." + frac, '%') == whole + "." + frac
  {
    var pointed := whole + "." + frac;
    forall i | 0 <= i < |pointed| ensures pointed[i] != '%' {
      if i < |whole| {
        assert pointed[i] == whole[i];
      } else if i > |whole| {
        assert pointed[i] == frac[i - |whole| - 1];
      }
    }
  }

  /** A match of any of the patterns is read exactly: "3,25" gives 3.25, "10.5" gives 10.5. */
  lemma ParseRateReadBack(search: Search, text: string, p: Rx, whole: string, sep: char, frac: string)
    requires |whole| > 0 && AllDigits(whole) && |frac| > 0 && AllDigits(frac) && (sep == '.' || sep == ',')
    requires search(p, IgnoreCase, text).Some?
    requires Group(search(p, IgnoreCase, text).value, 1) == Some(whole + [sep] + frac)
    ensures ParseRate(search, text, p) == Some(Decimal(DigitsValue(whole + frac), |frac|))
  {
    CleanRateGroup(whole, sep, frac);
  }

  /**
   * What the record is built from: the rate each pattern yields. The
   * record's shape holds for every reader; `parse_rates_from_pdf` uses
   * `parse_rate` on the PDF's text.
   */
  type Reader = Rx -> Option<Decimal>

  /** `lambda pattern: self.parse_rate(text, pattern)`. */
  function ReadRates(search: Search, text: string): (rate: Reader)
    ensures forall p :: rate(p) == ParseRate(search, text, p)
  {
    p => ParseRate(search, text, p)
  }

  /** `if rate:` — a rate is kept only when it was found and is not zero. */
  predicate Kept(rate: Reader, p: Rx) {
    Truthy(OfRate(rate(p)))
  }

  /** Keys and patterns of a tiered account, in the order they are tried. */
  type Tiers = seq<(string, Rx)>

  function FridindiTiers(): Tiers {
    [("tier_0_1m", Fridindi1), ("tier_1m_5m", Fridindi2), ("tier_5m_20m", Fridindi3),
     ("tier_20m_100m", Fridindi4), ("tier_100m_plus", Fridindi5)]
  }

  function VoxturTiers(): Tiers {
    [("tier_0_5m", Voxtur1), ("tier_5m_20m", Voxtur2), ("tier_20m_50m", Voxtur3), ("tier_50m_plus", Voxtur4)]
  }

  predicate DistinctTiers(tiers: Tiers) {
    forall i, j :: 0 <= i < j < |tiers| ==> tiers[i].0 != tiers[j].0
  }

  /** The loop over the tier patterns: a tier is put in the account's dict only when its rate is kept. */
  function KeptTiers(rate: Reader, tiers: Tiers): (r: Fields)
    ensures |r| == 0 <==> forall i :: 0 <= i < |tiers| ==> !Kept(rate, tiers[i].1)
    decreases |tiers|
  {
    if |tiers| == 0 then []
    else
      var rest := KeptTiers(rate, tiers[1..]);
      assert forall i :: 1 <= i < |tiers| ==> tiers[i] == tiers[1..][i - 1];
      if Kept(rate, tiers[0].1) then [(tiers[0].0, OfRate(rate(tiers[0].1)))] + rest
      else rest
  }

  /** A key no tier carries is never put in the dict. */
  lemma {:induction false} KeptTiersAbsent(rate: Reader, tiers: Tiers, k: string)
    requires forall i :: 0 <= i < |tiers| ==> tiers[i].0 != k
    ensures !HasKey(KeptTiers(rate, tiers), k)
    decreases |tiers|
  {
    if |tiers| > 0 {
      assert forall i :: 0 <= i < |tiers[1..]| ==> tiers[1..][i] == tiers[i + 1];
      KeptTiersAbsent(rate, tiers[1..], k);
    }
  }

  /** Each tier is present with its rate exactly when that rate is kept. */
  lemma {:induction false} KeptTiersLookup(rate: Reader, tiers: Tiers, i: nat)
    requires DistinctTiers(tiers) && i < |tiers|
    ensures Kept(rate, tiers[i].1) ==> Lookup(KeptTiers(rate, tiers), tiers[i].0) == Some(OfRate(rate(tiers[i].1)))
    ensures !Kept(rate, tiers[i].1) ==> !HasKey(KeptTiers(rate, tiers), tiers[i].0)
    decreases |tiers|
  {
    var k := tiers[i].0;
    if i == 0 {
      assert forall j :: 0 <= j < |tiers[1..]| ==> tiers[1..][j] == tiers[j + 1];
      KeptTiersAbsent(rate, tiers[1..], k);
    } else {
      assert DistinctTiers(tiers[1..]) by {
        forall a, b | 0 <= a < b < |tiers[1..]| ensures tiers[1..][a].0 != tiers[1..][b].0 {
          assert tiers[1..][a] == tiers[a + 1] && tiers[1..][b] == tiers[b + 1];
        }
      }
      assert tiers[1..][i - 1] == tiers[i];
      KeptTiersLookup(rate, tiers[1..], i - 1);
      assert tiers[0].0 != k;
    }
  }

  /**
   * `deposits.sparireikningar`: the Fríðindareikningur and Vöxtur 30 tier
   * dicts, each only when it is not empty, then Íbúðasparnaður.
   */
  function SavingsAccounts(fridindar: Fields, voxtur: Fields, housing: Value): (r: Fields)
    ensures Keys(r) == (if |fridindar| > 0 then ["fridindarreikningur"] else [])
      + (if |voxtur| > 0 then ["voxtur_30"] else []) + ["ibudasparnadur"]
  {
    var f: Fields := if |fridindar| > 0 then [("fridindarreikningur", Obj(fridindar))] else [];
    var v: Fields := if |voxtur| > 0 then [("voxtur_30", Obj(voxtur))] else [];
    KeysAppend(f, v);
    KeysAppend(f + v, [("ibudasparnadur", housing)]);
    f + v + [("ibudasparnadur", housing)]
  }

  /** Each tier dict is in the savings dict exactly when it is not empty; Íbúðasparnaður always is. */
  lemma SavingsAccountsLookup(fridindar: Fields, voxtur: Fields, housing: Value)
    ensures Lookup(SavingsAccounts(fridindar, voxtur, housing), "fridindarreikningur") ==
      if |fridindar| > 0 then Some(Obj(fridindar)) else None
    ensures Lookup(SavingsAccounts(fridindar, voxtur, housing), "voxtur_30") ==
      if |voxtur| > 0 then Some(Obj(voxtur)) else None
    ensures Lookup(SavingsAccounts(fridindar, voxtur, housing), "ibudasparnadur") == Some(housing)
  {
    var r := SavingsAccounts(fridindar, voxtur, housing);
    var n := |r| - 1;
    assert r[n] == ("ibudasparnadur", housing);
    LookupFirst(r, n, "ibudasparnadur");
    if |fridindar| > 0 {
      LookupFirst(r, 0, "fridindarreikningur");
    }
    if |voxtur| > 0 {
      LookupFirst(r, if |fridindar| > 0 then 1 else 0, "voxtur_30");
    }
  }

  /** Keys and patterns of the sections that take one rate per key. */
  type Rows = seq<(string, Rx)>

  function CurrentRows(): Rows {
    [("almennir", Current)]
  }

  function IndexedRows(): Rows {
    [("variable_ibudalan_i", IndexedVariable1), ("variable_ibudalan_ii", Mortgage2),
     ("variable_ibudalan_iii", Mortgage3), ("fixed_3yr_ibudalan_i", IndexedFixed1),
     ("fixed_3yr_ibudalan_ii", IndexedFixed2)]
  }

  function UnindexedRows(): Rows {
    [("variable_ibudalan_i", UnindexedVariable1), ("variable_ibudalan_ii", Unindexed2)]
  }

  function VehicleRows(): Rows {
    [("kjor_electric_50_under", ElectricUnder50), ("kjor_electric_50_60", Electric50To60)]
  }

  function OverdraftRows(): Rows {
    [("yfirdrattarlan_einstaklinga", PersonalOverdraft), ("framfaerslulán", StudentLoan)]
  }

  function CardRows(): Rows {
    [("greidsludreifing", CardInstalments)]
  }

  predicate DistinctRows(rows: Rows) {
    forall i, j :: 0 <= i < j < |rows| ==> rows[i].0 != rows[j].0
  }

  /** One rate per row, `None` kept as `null`. */
  function RateRows(rate: Reader, rows: Rows): (r: Fields)
    ensures Keys(r) == seq(|rows|, i requires 0 <= i < |rows| => rows[i].0)
    ensures forall i :: 0 <= i < |rows| ==> r[i].1 == OfRate(rate(rows[i].1))
  {
    seq(|rows|, i requires 0 <= i < |rows| => (rows[i].0, OfRate(rate(rows[i].1))))
  }

  /** Every row of a section holds what its own pattern gives. */
  lemma RateRowsLookup(rate: Reader, rows: Rows, i: nat)
    requires DistinctRows(rows) && i < |rows|
    ensures Lookup(RateRows(rate, rows), rows[i].0) == Some(OfRate(rate(rows[i].1)))
  {
    var r := RateRows(rate, rows);
    assert forall a :: 0 <= a < |r| ==> r[a].0 == rows[a].0 by {
      forall a | 0 <= a < |r| ensures r[a].0 == rows[a].0 {
        assert Keys(r)[a] == r[a].0;
      }
    }
    LookupAt(r, i);
  }

  /** The top-level keys of the record, in the order the initial dict lists them. */
  const SectionKeys: seq<string> :=
    ["deposits", "mortgages", "vehicle_loans", "overdrafts", "credit_cards", "penalty_interest"]

  lemma SectionKeysDistinct()
    ensures forall i, j :: 0 <= i < j < |SectionKeys| ==> SectionKeys[i] != SectionKeys[j]
  {
  }

  /** The date is not one of the sections. */
  lemma NoDateSection()
    ensures "effective_date" !in SectionKeys
  {
  }

  /** The record's skeleton around its parts. */
  function Record(current: Fields, savings: Fields, indexed: Fields, unindexed: Fields,
                  vehicle: Fields, overdrafts: Fields, cards: Fields, penalty: Value): (r: Fields)
    ensures Keys(r) == SectionKeys
  {
    [("deposits", Obj([("veltureikningar", Obj(current)), ("sparireikningar", Obj(savings)),
                       ("foreign_currency", Obj([]))])),
     ("mortgages", Obj([("indexed", Obj(indexed)), ("unindexed", Obj(unindexed))])),
     ("vehicle_loans", Obj(vehicle)),
     ("overdrafts", Obj(overdrafts)),
     ("credit_cards", Obj(cards)),
     ("penalty_interest", penalty)]
  }

  /** The record a reader gives: every section filled the way `parse_rates_from_pdf` fills it. */
  function RecordOf(rate: Reader): (r: Fields)
    ensures Keys(r) == SectionKeys
  {
    Record(
      RateRows(rate, CurrentRows()),
      SavingsAccounts(KeptTiers(rate, FridindiTiers()), KeptTiers(rate, VoxturTiers()), OfRate(rate(HousingSavings))),
      RateRows(rate, IndexedRows()),
      RateRows(rate, UnindexedRows()),
      RateRows(rate, VehicleRows()),
      RateRows(rate, OverdraftRows()),
      RateRows(rate, CardRows()),
      OfRate(rate(Penalty)))
  }

  /** `parse_rates_from_pdf`. */
  function ParseRatesFromPdf(search: Search, text: string): (r: Fields)
    ensures Keys(r) == SectionKeys
  {
    RecordOf(ReadRates(search, text))
  }

  /** The value at a path of keys through nested dicts. */
  function At(v: Value, path: seq<string>): (r: Option<Value>)
    decreases |path|
  {
    if |path| == 0 then Some(v)
    else match v
      case Obj(f) =>
        (match Lookup(f, path[0])
         case None => None
         case Some(w) => At(w, path[1..]))
      case _ => None
  }

  /** One step down a path: through the entry that holds the path's first key. */
  lemma AtStep(f: Fields, n: nat, path: seq<string>)
    requires n < |f| && |path| > 0 && f[n].0 == path[0]
    requires forall i :: 0 <= i < n ==> f[i].0 != path[0]
    ensures At(Obj(f), path) == At(f[n].1, path[1..])
  {
    LookupFirst(f, n, path[0]);
  }

  /** A path of one key is a lookup. */
  lemma AtOne(f: Fields, k: string)
    ensures At(Obj(f), [k]) == Lookup(f, k)
  {
    assert [k][1..] == [];
  }

  /** Following a path and then one key is following the longer path. */
  lemma {:induction false} AtPrefix(v: Value, path: seq<string>, k: string)
    ensures At(v, path + [k]) ==
      match At(v, path)
      case Some(Obj(f)) => Lookup(f, k)
      case _ => None
    decreases |path|
  {
    var full := path + [k];
    if |path| == 0 {
      assert full == [k];
      if v.Obj? && Lookup(v.fields, k).Some? {
        assert full[1..] == [];
      }
    } else {
      assert full[0] == path[0];
      assert full[1..] == path[1..] + [k];
      if v.Obj? && Lookup(v.fields, path[0]).Some? {
        AtPrefix(Lookup(v.fields, path[0]).value, path[1..], k);
      }
    }
  }

  /** Where the deposit dicts sit in the record's skeleton. */
  lemma RecordDepositsAt(current: Fields, savings: Fields, indexed: Fields, unindexed: Fields,
                         vehicle: Fields, overdrafts: Fields, cards: Fields, penalty: Value)
    ensures var r := Obj(Record(current, savings, indexed, unindexed, vehicle, overdrafts, cards, penalty));
      && At(r, ["deposits", "veltureikningar"]) == Some(Obj(current))
      && At(r, ["deposits", "sparireikningar"]) == Some(Obj(savings))
      && At(r, ["deposits", "foreign_currency"]) == Some(Obj([]))
  {
    var r := Record(current, savings, indexed, unindexed, vehicle, overdrafts, cards, penalty);
    var deposits := r[0].1.fields;
    var keys := ["veltureikningar", "sparireikningar", "foreign_currency"];
    forall n | 0 <= n < 3 ensures At(Obj(r), ["deposits", keys[n]]) == Some(deposits[n].1) {
      var path := ["deposits", keys[n]];
      AtStep(r, 0, path);
      assert path[1..] == [keys[n]];
      AtOne(deposits, keys[n]);
      LookupFirst(deposits, n, keys[n]);
    }
  }

  /** Where the mortgage dicts sit in the record's skeleton. */
  lemma RecordMortgagesAt(current: Fields, savings: Fields, indexed: Fields, unindexed: Fields,
                          vehicle: Fields, overdrafts: Fields, cards: Fields, penalty: Value)
    ensures var r := Obj(Record(current, savings, indexed, unindexed, vehicle, overdrafts, cards, penalty));
      && At(r, ["mortgages", "indexed"]) == Some(Obj(indexed))
      && At(r, ["mortgages", "unindexed"]) == Some(Obj(unindexed))
  {
    var r := Record(current, savings, indexed, unindexed, vehicle, overdrafts, cards, penalty);
    var mortgages := r[1].1.fields;
    var keys := ["indexed", "unindexed"];
    forall n | 0 <= n < 2 ensures At(Obj(r), ["mortgages", keys[n]]) == Some(mortgages[n].1) {
      var path := ["mortgages", keys[n]];
      AtStep(r, 1, path);
      assert path[1..] == [keys[n]];
      AtOne(mortgages, keys[n]);
      LookupFirst(mortgages, n, keys[n]);
    }
  }

  /** Where the other loan dicts and the penalty rate sit in the record's skeleton. */
  lemma RecordLoansAt(current: Fields, savings: Fields, indexed: Fields, unindexed: Fields,
                      vehicle: Fields, overdrafts: Fields, cards: Fields, penalty: Value)
    ensures var r := Obj(Record(current, savings, indexed, unindexed, vehicle, overdrafts, cards, penalty));
      && At(r, ["vehicle_loans"]) == Some(Obj(vehicle))
      && At(r, ["overdrafts"]) == Some(Obj(overdrafts))
      && At(r, ["credit_cards"]) == Some(Obj(cards))
      && At(r, ["penalty_interest"]) == Some(penalty)
  {
    var r := Record(current, savings, indexed, unindexed, vehicle, overdrafts, cards, penalty);
    SectionKeysDistinct();
    assert DistinctKeys(r) by {
      assert forall i :: 0 <= i < |r| ==> r[i].0 == Keys(r)[i];
    }
    LookupAt(r, 2);
    AtOne(r, "vehicle_loans");
    LookupAt(r, 3);
    AtOne(r, "overdrafts");
    LookupAt(r, 4);
    AtOne(r, "credit_cards");
    LookupAt(r, 5);
    AtOne(r, "penalty_interest");
  }

  /** The sections that take one rate per key. */
  datatype RowSection = CurrentAccounts | IndexedMortgages | UnindexedMortgages | VehicleLoans | Overdrafts | CreditCards

  /** Where a one-rate section sits in the record. */
  function SectionPath(sec: RowSection): seq<string> {
    match sec
    case CurrentAccounts => ["deposits", "veltureikningar"]
    case IndexedMortgages => ["mortgages", "indexed"]
    case UnindexedMortgages => ["mortgages", "unindexed"]
    case VehicleLoans => ["vehicle_loans"]
    case Overdrafts => ["overdrafts"]
    case CreditCards => ["credit_cards"]
  }

  function SectionRows(sec: RowSection): Rows {
    match sec
    case CurrentAccounts => CurrentRows()
    case IndexedMortgages => IndexedRows()
    case UnindexedMortgages => UnindexedRows()
    case VehicleLoans => VehicleRows()
    case Overdrafts => OverdraftRows()
    case CreditCards => CardRows()
  }

  /** No two rows of a section share a key. */
  lemma RowsDistinct(sec: RowSection)
    ensures DistinctRows(SectionRows(sec))
  {
  }

  /** The parts of the record a reader gives. */
  lemma RecordOfParts(rate: Reader)
    ensures RecordOf(rate) == Record(RateRows(rate, CurrentRows()),
      SavingsAccounts(KeptTiers(rate, FridindiTiers()), KeptTiers(rate, VoxturTiers()), OfRate(rate(HousingSavings))),
      RateRows(rate, IndexedRows()), RateRows(rate, UnindexedRows()), RateRows(rate, VehicleRows()),
      RateRows(rate, OverdraftRows()), RateRows(rate, CardRows()), OfRate(rate(Penalty)))
  {
  }

  /** The loan sections of the record, each its rows read pattern by pattern. */
  lemma LoanSectionsAt(rate: Reader)
    ensures var r := Obj(RecordOf(rate));
      && At(r, ["mortgages", "indexed"]) == Some(Obj(RateRows(rate, IndexedRows())))
      && At(r, ["mortgages", "unindexed"]) == Some(Obj(RateRows(rate, UnindexedRows())))
      && At(r, ["vehicle_loans"]) == Some(Obj(RateRows(rate, VehicleRows())))
      && At(r, ["overdrafts"]) == Some(Obj(RateRows(rate, OverdraftRows())))
      && At(r, ["credit_cards"]) == Some(Obj(RateRows(rate, CardRows())))
  {
    RecordOfParts(rate);
    RecordMortgagesAt(RateRows(rate, CurrentRows()),
      SavingsAccounts(KeptTiers(rate, FridindiTiers()), KeptTiers(rate, VoxturTiers()), OfRate(rate(HousingSavings))),
      RateRows(rate, IndexedRows()), RateRows(rate, UnindexedRows()), RateRows(rate, VehicleRows()),
      RateRows(rate, OverdraftRows()), RateRows(rate, CardRows()), OfRate(rate(Penalty)));
    RecordLoansAt(RateRows(rate, CurrentRows()),
      SavingsAccounts(KeptTiers(rate, FridindiTiers()), KeptTiers(rate, VoxturTiers()), OfRate(rate(HousingSavings))),
      RateRows(rate, IndexedRows()), RateRows(rate, UnindexedRows()), RateRows(rate, VehicleRows()),
      RateRows(rate, OverdraftRows()), RateRows(rate, CardRows()), OfRate(rate(Penalty)));
  }

  /** The current accounts of the record, read pattern by pattern. */
  lemma CurrentSectionAt(rate: Reader)
    ensures At(Obj(RecordOf(rate)), ["deposits", "veltureikningar"]) == Some(Obj(RateRows(rate, CurrentRows())))
  {
    RecordOfParts(rate);
    RecordDepositsAt(RateRows(rate, CurrentRows()),
      SavingsAccounts(KeptTiers(rate, FridindiTiers()), KeptTiers(rate, VoxturTiers()), OfRate(rate(HousingSavings))),
      RateRows(rate, IndexedRows()), RateRows(rate, UnindexedRows()), RateRows(rate, VehicleRows()),
      RateRows(rate, OverdraftRows()), RateRows(rate, CardRows()), OfRate(rate(Penalty)));
  }

  /** Each one-rate section of the record is its rows, read pattern by pattern. */
  lemma SectionAt(rate: Reader, sec: RowSection)
    ensures At(Obj(RecordOf(rate)), SectionPath(sec)) == Some(Obj(RateRows(rate, SectionRows(sec))))
  {
    if sec == CurrentAccounts {
      CurrentSectionAt(rate);
    } else {
      LoanSectionsAt(rate);
    }
  }

  /**
   * Every one-rate key of the record is where its section says and holds
   * what its own pattern gives, `null` when there is nothing to read.
   */
  lemma RowSectionAt(rate: Reader, sec: RowSection, i: nat)
    requires i < |SectionRows(sec)|
    ensures At(Obj(RecordOf(rate)), SectionPath(sec) + [SectionRows(sec)[i].0]) ==
      Some(OfRate(rate(SectionRows(sec)[i].1)))
  {
    var rows := SectionRows(sec);
    RowsDistinct(sec);
    SectionAt(rate, sec);
    AtPrefix(Obj(RecordOf(rate)), SectionPath(sec), rows[i].0);
    RateRowsLookup(rate, rows, i);
  }

  /** `deposits.sparireikningar` of the record. */
  lemma SavingsAt(rate: Reader)
    ensures At(Obj(RecordOf(rate)), ["deposits", "sparireikningar"]) ==
      Some(Obj(SavingsAccounts(KeptTiers(rate, FridindiTiers()), KeptTiers(rate, VoxturTiers()), OfRate(rate(HousingSavings)))))
  {
    var c := RateRows(rate, CurrentRows());
    var s := SavingsAccounts(KeptTiers(rate, FridindiTiers()), KeptTiers(rate, VoxturTiers()), OfRate(rate(HousingSavings)));
    var i := RateRows(rate, IndexedRows());
    var u := RateRows(rate, UnindexedRows());
    var v := RateRows(rate, VehicleRows());
    var o := RateRows(rate, OverdraftRows());
    var k := RateRows(rate, CardRows());
    var p := OfRate(rate(Penalty));
    RecordDepositsAt(c, s, i, u, v, o, k, p);
  }

  /** The path of a tiered account inside the record. */
  function TierPath(fridindi: bool): seq<string> {
    ["deposits", "sparireikningar", if fridindi then "fridindarreikningur" else "voxtur_30"]
  }

  function TiersOf(fridindi: bool): Tiers {
    if fridindi then FridindiTiers() else VoxturTiers()
  }

  /** No two tiers of an account share a key. */
  lemma TiersDistinct(fridindi: bool)
    ensures DistinctTiers(TiersOf(fridindi))
  {
  }

  /** A tiered account's dict is in the record exactly when it is not empty. */
  lemma TierAccountAt(rate: Reader, fridindi: bool)
    ensures var kept := KeptTiers(rate, TiersOf(fridindi));
      At(Obj(RecordOf(rate)), TierPath(fridindi)) == if |kept| > 0 then Some(Obj(kept)) else None
  {
    var s := SavingsAccounts(KeptTiers(rate, FridindiTiers()), KeptTiers(rate, VoxturTiers()), OfRate(rate(HousingSavings)));
    SavingsAt(rate);
    SavingsEntryAt(Obj(RecordOf(rate)), s, TierPath(fridindi)[2]);
    SavingsAccountsLookup(KeptTiers(rate, FridindiTiers()), KeptTiers(rate, VoxturTiers()), OfRate(rate(HousingSavings)));
  }

  /** An entry of the savings dict, reached from the root. */
  lemma SavingsEntryAt(root: Value, s: Fields, key: string)
    requires At(root, ["deposits", "sparireikningar"]) == Some(Obj(s))
    ensures At(root, ["deposits", "sparireikningar", key]) == Lookup(s, key)
  {
    AtPrefix(root, ["deposits", "sparireikningar"], key);
    assert ["deposits", "sparireikningar", key] == ["deposits", "sparireikningar"] + [key];
    AtOne(s, key);
  }

  /** A tiered account is in the record exactly when one of its tiers has a non-zero rate. */
  lemma TierAccountPresent(rate: Reader, fridindi: bool)
    ensures var tiers := TiersOf(fridindi);
      At(Obj(RecordOf(rate)), TierPath(fridindi)).Some? <==> exists j :: 0 <= j < |tiers| && Kept(rate, tiers[j].1)
  {
    TierAccountAt(rate, fridindi);
  }

  /** Each tier is in its account exactly when its own rate is non-zero, with that rate. */
  lemma TierAt(rate: Reader, fridindi: bool, i: nat)
    requires i < |TiersOf(fridindi)|
    ensures var tiers := TiersOf(fridindi);
      && (Kept(rate, tiers[i].1) ==>
            At(Obj(RecordOf(rate)), TierPath(fridindi) + [tiers[i].0]) == Some(OfRate(rate(tiers[i].1))))
      && (!Kept(rate, tiers[i].1) ==> At(Obj(RecordOf(rate)), TierPath(fridindi) + [tiers[i].0]).None?)
  {
    var tiers := TiersOf(fridindi);
    var kept := KeptTiers(rate, tiers);
    TierAccountAt(rate, fridindi);
    TiersDistinct(fridindi);
    KeptTiersLookup(rate, tiers, i);
    EntryAt(Obj(RecordOf(rate)), TierPath(fridindi), kept, tiers[i].0);
  }

  /** A key under a path that leads to a dict only when the dict is not empty. */
  lemma EntryAt(v: Value, path: seq<string>, f: Fields, k: string)
    requires At(v, path) == if |f| > 0 then Some(Obj(f)) else None
    ensures At(v, path + [k]) == Lookup(f, k)
  {
    AtPrefix(v, path, k);
  }

  /** Íbúðasparnaður is always in the savings dict, with what its pattern gives. */
  lemma HousingSavingsAt(rate: Reader)
    ensures At(Obj(RecordOf(rate)), ["deposits", "sparireikningar", "ibudasparnadur"]) == Some(OfRate(rate(HousingSavings)))
  {
    var s := SavingsAccounts(KeptTiers(rate, FridindiTiers()), KeptTiers(rate, VoxturTiers()), OfRate(rate(HousingSavings)));
    SavingsAt(rate);
    SavingsEntryAt(Obj(RecordOf(rate)), s, "ibudasparnadur");
    SavingsAccountsLookup(KeptTiers(rate, FridindiTiers()), KeptTiers(rate, VoxturTiers()), OfRate(rate(HousingSavings)));
  }

  /** The penalty rate, and the foreign-currency dict, which nothing fills. */
  lemma PenaltyAndForeignAt(rate: Reader)
    ensures At(Obj(RecordOf(rate)), ["penalty_interest"]) == Some(OfRate(rate(Penalty)))
    ensures At(Obj(RecordOf(rate)), ["deposits", "foreign_currency"]) == Some(Obj([]))
  {
    var c := RateRows(rate, CurrentRows());
    var s := SavingsAccounts(KeptTiers(rate, FridindiTiers()), KeptTiers(rate, VoxturTiers()), OfRate(rate(HousingSavings)));
    var i := RateRows(rate, IndexedRows());
    var u := RateRows(rate, UnindexedRows());
    var v := RateRows(rate, VehicleRows());
    var o := RateRows(rate, OverdraftRows());
    var k := RateRows(rate, CardRows());
    var p := OfRate(rate(Penalty));
    RecordDepositsAt(c, s, i, u, v, o, k, p);
    RecordLoansAt(c, s, i, u, v, o, k, p);
  }

  /** In the PDF's record every one-rate key holds `parse_rate` with its own pattern. */
  lemma ParsedRowAt(search: Search, text: string, sec: RowSection, i: nat)
    requires i < |SectionRows(sec)|
    ensures At(Obj(ParseRatesFromPdf(search, text)), SectionPath(sec) + [SectionRows(sec)[i].0]) ==
      Some(OfRate(ParseRate(search, text, SectionRows(sec)[i].1)))
  {
    RowSectionAt(ReadRates(search, text), sec, i);
  }

  // ------------------------------------------------------------------
  // Effective date
  // ------------------------------------------------------------------

  /** What `parse_effective_date` is given: a dict from the API, or the PDF's text. */
  datatype DateSource = FromDict(data: Fields) | FromText(text: string)

  /**
   * `parse_effective_date`: a dict's own `effective_date` entry, or the
   * first date-shaped match of the text as `YYYY-MM-DD`.
   */
  function ParseEffectiveDate(source: DateSource): (r: Value)
    ensures source.FromDict? ==> r == Get(source.data, "effective_date")
    ensures source.FromText? ==> (r.Null? <==> IcelandicDates.ParseEffectiveDate(source.text).None?)
    ensures source.FromText? ==>
      (r.Null? || (r.Str? && exists d :: Calendar.ValidDate(d) && r.s == Calendar.FormatDate(d)))
  {
    match source
    case FromDict(data) => Get(data, "effective_date")
    case FromText(text) => OfString(IcelandicDates.ParseEffectiveDate(text))
  }

  // ------------------------------------------------------------------
  // Scraping
  // ------------------------------------------------------------------

  /** The PDF's record: the parsed sections, then `effective_date` put last. */
  function PdfRecord(search: Search, text: string): (r: Fields)
    ensures Truthy(Obj(r))
    ensures Keys(r) == SectionKeys + ["effective_date"]
    ensures r[..|SectionKeys|] == ParseRatesFromPdf(search, text)
    ensures Lookup(r, "effective_date") == Some(ParseEffectiveDate(FromText(text)))
  {
    var parsed := ParseRatesFromPdf(search, text);
    NoDateSection();
    Put(parsed, "effective_date", ParseEffectiveDate(FromText(text)))
  }

  /**
   * `scrape_rates`. `api` is the API's decoded JSON when it answered 200
   * (`None` when the request, the status or the decoding failed); `page`,
   * `fetch` and `join` stand for the rates page, the intermediate pages
   * and `urljoin`; `download` for `download_pdf` (`None` on failure);
   * `extract` for pdfminer (`""` on failure).
   */
  function ScrapeRates(api: Option<Value>, page: Option<seq<Element>>, fetch: Fetch, join: Join,
                       download: string -> Option<seq<Byte>>, extract: seq<Byte> -> string,
                       search: Search): (r: Scraped)
    ensures r.Returned?
    ensures api.Some? && Truthy(api.value) ==> r == Returned(api.value, Some(ApiUrl))
    ensures Truthy(r.data) <==> r.url.Some?
    ensures r.url.Some? ==> r.url.value == ApiUrl || IsPdf(r.url.value)
  {
    if api.Some? && Truthy(api.value) then Returned(api.value, Some(ApiUrl))
    else
      var url := GetPdfUrl(page, fetch, join);
      if Missing(url) then NothingScraped
      else
        var content := download(url.value);
        if NoContent(content) then NothingScraped
        else
          var text := extract(content.value);
          if |text| == 0 then NothingScraped
          else
            Returned(Obj(PdfRecord(search, text)), url)
  }

  /**
   * With no usable API answer, failing to find, download or read the PDF
   * gives `(None, None)`.
   */
  lemma ScrapeRatesNoPdf(api: Option<Value>, page: Option<seq<Element>>, fetch: Fetch, join: Join,
                         download: string -> Option<seq<Byte>>, extract: seq<Byte> -> string,
                         search: Search)
    requires api.None? || !Truthy(api.value)
    requires var url := GetPdfUrl(page, fetch, join);
      url.None? || NoContent(download(url.value)) || |extract(download(url.value).value)| == 0
    ensures ScrapeRates(api, page, fetch, join, download, extract, search) == NothingScraped
  {
  }

  /**
   * With no usable API answer, a PDF that is found, downloaded and read
   * gives the parsed record followed by its effective date, with the
   * PDF's link.
   */
  lemma ScrapeRatesFromPdf(api: Option<Value>, page: Option<seq<Element>>, fetch: Fetch, join: Join,
                           download: string -> Option<seq<Byte>>, extract: seq<Byte> -> string,
                           search: Search)
    requires api.None? || !Truthy(api.value)
    requires var url := GetPdfUrl(page, fetch, join);
      url.Some? && !NoContent(download(url.value)) && |extract(download(url.value).value)| > 0
    ensures var url := GetPdfUrl(page, fetch, join);
      var text := extract(download(url.value).value);
      ScrapeRates(api, page, fetch, join, download, extract, search) == Returned(Obj(PdfRecord(search, text)), url)
  {
  }
}
