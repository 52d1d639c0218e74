/**
 * The parser for Landsbankinn's interest-rate PDF (`InterestRateParser`).
 * The PDF's text comes from pdfminer, which this model takes as given
 * (an empty text stands for a failed extraction); every rate is pulled
 * from that text by a regular-expression search, which is the `Search`
 * oracle. What the model fixes is everything around the searches: which
 * pattern goes with which key, how captured groups become numbers, how
 * many columns make which shape, and which keys the result always has.
 */
module PdfParser {
  import opened Wrappers
  import opened Text
  import opened Numbers
  import opened Json
  import opened Regex
  import IcelandicDates

  // ------------------------------------------------------------------
  // Percentages
  // ------------------------------------------------------------------

  /** The text `parse_percentage` hands to `float()`: `%` dropped, decimal comma made a point, `*` dropped. */
  function CleanPercentage(value: string): string {
    DropMarker(ReplaceChar(DropPercent(value), ',', "."))
  }

  function DropPercent(value: string): string {
    Strip(RemoveChar(value, '%'))
  }

  function DropMarker(value: string): string {
    Strip(RemoveChar(value, '*'))
  }

  /** `parse_percentage`: a number when the cleaned text is a decimal numeral, `None` otherwise. */
  function ParsePercentage(value: string): Option<Decimal> {
    var v := CleanPercentage(value);
    if |v| == 0 then None else ParseFloat(v)
  }

  /** A text is read as a rate exactly when its cleaned form is a decimal numeral. */
  lemma ParsePercentageAccepts(value: string)
    ensures ParsePercentage(value).Some? <==> IsNumeral(CleanPercentage(value))
  {
    ParseFloatAccepts(CleanPercentage(value));
  }

  /** `parse_percentage(match.group(i))`: a group that did not take part raises `AttributeError`, which reads as `None`. */
  function ParseGroup(g: Option<string>): (r: Option<Decimal>)
    ensures g.None? ==> r.None?
    ensures g.Some? ==> r == ParsePercentage(g.value)
  {
    match g
    case None => None
    case Some(s) => ParsePercentage(s)
  }

  /** A rate printed with a decimal comma or point, with or without a percent sign, reads back as itself. */
  lemma ParsePercentageRendered(d: Decimal, point: char)
    requires point == ',' || point == '.'
    ensures ParsePercentage(Render(d, point)) == Some(d)
    ensures ParsePercentage(Render(d, point) + "%") == Some(d)
  {
    RenderedParse(d, point);
    RenderNoPercent(d, point);
    PercentIgnored(Render(d, point));
  }

  lemma RenderNoPercent(d: Decimal, point: char)
    requires point == ',' || point == '.'
    ensures '%' !in Render(d, point)
  {
    RenderChars(d, point);
  }

  lemma PercentDropped(s: string)
    requires '%' !in s
    ensures RemoveChar(s + "%", '%') == s
  {
    ReplaceCharAppend(s, "%", '%', "");
  }

  /** A trailing percent sign changes nothing. */
  lemma PercentIgnored(s: string)
    requires '%' !in s
    ensures ParsePercentage(s + "%") == ParsePercentage(s)
  {
    PercentDropped(s);
    assert DropPercent(s + "%") == DropPercent(s);
  }

  /** A rendered rate survives the cleaning as its point-separated form. */
  lemma RenderedClean(d: Decimal, point: char)
    requires point == ',' || point == '.'
    ensures CleanPercentage(Render(d, point)) == Render(d, '.')
  {
    var s := Render(d, point);
    var t := Render(d, '.');
    RenderChars(d, point);
    RenderChars(d, '.');
    NumeralCharsNoSpace(s, point);
    NumeralCharsNoSpace(t, '.');
    if point == ',' {
      RenderCommaToPoint(d);
    }
    CleanSteps(s, t);
  }

  /** The cleaned text is what `float()` reads back as the rate. */
  lemma RenderedParse(d: Decimal, point: char)
    requires point == ',' || point == '.'
    ensures ParsePercentage(Render(d, point)) == Some(d)
  {
    RenderedClean(d, point);
    RenderShape(d, '.');
    RenderRoundTrip(d);
  }

  /** Cleaning a text without percent signs, markers or spaces only turns its commas into points. */
  lemma CleanSteps(s: string, t: string)
    requires '%' !in s && forall i :: 0 <= i < |s| ==> !IsSpace(s[i])
    requires ReplaceChar(s, ',', ".") == t
    requires '*' !in t && forall i :: 0 <= i < |t| ==> !IsSpace(t[i])
    ensures CleanPercentage(s) == t
  {
    PercentKept(s);
    MarkerKept(t);
  }

  lemma PercentKept(s: string)
    requires '%' !in s && forall i :: 0 <= i < |s| ==> !IsSpace(s[i])
    ensures DropPercent(s) == s
  {
  }

  lemma MarkerKept(t: string)
    requires '*' !in t && forall i :: 0 <= i < |t| ==> !IsSpace(t[i])
    ensures DropMarker(t) == t
  {
  }

  // ------------------------------------------------------------------
  // Searches
  // ------------------------------------------------------------------

  // ------------------------------------------------------------------
  // Patterns
  // ------------------------------------------------------------------

  /** The accounts whose rows the parser finds by name (`re.escape(name)` inside the pattern). */
  datatype Account =
    | Vaxtareikningur | Vardan60 | Vaxtareikningur30
    | Framtidargrunnur | Fasteignagrunnur | Lifeyrisbok
    | EldriLan | KjorSpKef | KjorVestmannaeyja | TmKjorvextir | TmBilalan | TmOnnurLan

  function AccountName(a: Account): string {
    match a
    case Vaxtareikningur => "Vaxtareikningur/Vaxtareikningur Sjálfbær"
    case Vardan60 => "Vaxtareikningur Varðan 60"
    case Vaxtareikningur30 => "Vaxtareikningur 30"
    case Framtidargrunnur => "Framtíðargrunnur"
    case Fasteignagrunnur => "Fasteignagrunnur"
    case Lifeyrisbok => "Lífeyrisbók"
    case EldriLan => "Eldri lán án kjörvaxta"
    case KjorSpKef => "Kjörvextir lána SpKef"
    case KjorVestmannaeyja => "Kjörvextir lána Sp. Vestmannaeyja og Norðurlands"
    case TmKjorvextir => "TM kjörvextir"
    case TmBilalan => "TM Bílalán"
    case TmOnnurLan => "TM Önnur lán"
  }

  /** The balance tiers of a tiered savings account. */
  datatype Tier = Upto1m | From1mTo5m | From5mTo20m | From20m | Upto20m | From60m

  /**
   * Every regular expression the parser searches for, by identity.
   * `Pattern` gives each one's text.
   */
  datatype Rx =
    | CompanyCurrent | PersonalCurrent | StudentCurrent | VordurTier1 | VordurTier2
    | Kjorbok | GoalSavings
    | FixedTerm3 | FixedTerm6 | FixedTerm12 | FixedTerm24
    | Savings3 | Savings12 | Savings24 | Landsbok | HolidaySavings
    | TwoColumn(account: Account)
    | Section(account: Account)
    | TierRow(tier: Tier)
    | Currency(code: string)
    | Mortgage55 | Mortgage65 | Mortgage75 | Mortgage80 | MortgageVariable
    | BaseLoan | TopUpLoan | IndexedMortgage75 | IndexedMortgage85 | IndexedBaseLoan | IndexedTopUpLoan
    | VehicleUnder51 | Vehicle51To69 | Vehicle70To80
    | RateClass(rank: nat)
    | CompanyOverdraft | PersonalOverdraft | VordurOverdraftHigh | VordurOverdraftLow
    | StudentLoanFund | StudentGeneral | CardInstalments
    | Penalty

  /** One rate column: white space, then digits and commas, then a percent sign. */
  const RateColumn: string :=
    @"\s+([\d,]+)%"

  function TierText(t: Tier): string {
    match t
    case Upto1m => @"0-999\.999 kr\."
    case From1mTo5m => @"1\.000\.000-4\.999\.999 kr\."
    case From5mTo20m => @"5\.000\.000-19\.999\.999 kr\."
    case From20m => @"20\.000\.000 kr\. og hærri"
    case Upto20m => @"0-20\.000\.000 kr\."
    case From60m => @"60\.000\.000 kr\. og hærri"
  }

  /** The text of each regular expression. */
  function Pattern(p: Rx): string {
    match p
    case CompanyCurrent => @"Almennir veltureikningar fyrirtækja\s+([\d,]+)%"
    case PersonalCurrent => @"Einkareikningar\s+([\d,]+)%"
    case StudentCurrent => @"Námu- og Klassareikningar\s+([\d,]+)%"
    case VordurTier1 => @"1\. þrep 0-250\.000 kr\.\s+([\d,]+)%"
    case VordurTier2 => @"2\. þrep fá 250\.000 kr\.\s+([\d,]+)%"
    case Kjorbok => @"Kjörbók.*?\n.*?([\d,]+)%"
    case GoalSavings => @"Markmið - Sparað í appi.*?\n.*?([\d,]+)%\s+([\d,]+)%"
    case FixedTerm3 => @"Fastvaxtareikningur - 3ja mánaða binding\s+([\d,]+)%"
    case FixedTerm6 => @"Fastvaxtareikningur - 6 mánaða binding\s+([\d,]+)%"
    case FixedTerm12 => @"Fastvaxtareikningur - 12 mánaða binding\s+([\d,]+)%"
    case FixedTerm24 => @"Fastvaxtareikningur - 24 mánaða binding\s+([\d,]+)%"
    case Savings3 => @"Sparireikningur 3, 3ja mánaða binding\s+([\d,]+)%"
    case Savings12 => @"Sparireikningur 12, 12 mánaða binding\s+([\d,]+)%"
    case Savings24 => @"Sparireikningur 24, 24 mánaða binding\s+([\d,]+)%"
    case Landsbok => @"Landsbók.*?11 mánaða binding.*?\n.*?([\d,]+)%"
    case HolidaySavings => @"Orlofsreikningar.*?\n.*?([\d,]+)%"
    case TwoColumn(a) => Escape(AccountName(a)) + ".*?" + RateColumn + RateColumn
    case Section(a) => Escape(AccountName(a)) + @".*?(?=\n\w+:|$)"
    case TierRow(t) => TierText(t) + @"\s*\*?\s+([\d,]+)%(\s+([\d,]+)%)?(\s+([\d,]+)%)?"
    case Currency(code) => "Innstæður í " + code + RateColumn + RateColumn + RateColumn
    case Mortgage55 => @"Íbúðalán, allt að 55% veðsetning\s+([\d,]+)%\s+([\d,]+)%\s+([\d,]+)%"
    case Mortgage65 => @"Íbúðalán, allt að 65% veðsetning\s+([\d,]+)%\s+([\d,]+)%\s+([\d,]+)%"
    case Mortgage75 => @"Íbúðalán, allt að 75% veðsetning\s+([\d,]+)%\s+([\d,]+)%\s+([\d,]+)%"
    case Mortgage80 => @"Íbúðalán, allt að 80/85% veðsetning.*?\s+([\d,]+)%\s+([\d,]+)%\s+([\d,]+)%"
    case MortgageVariable => @"Íbúðalán, allt að 85% veðsetning.*?Breytilegir.*?\s+([\d,]+)%\s+([\d,]+)%"
    case BaseLoan => @"Grunnlán allt að 70% veðsetning.*?\s+([\d,]+)%"
    case TopUpLoan => @"Viðbótarlán\. 70-80/85%.*?\s+([\d,]+)%"
    case IndexedMortgage75 => @"Verðtryggð íbúðalán, allt að 75% veðsetning\s+([\d,]+)%"
    case IndexedMortgage85 => @"Verðtryggð íbúðalán, allt að 85% veðsetning.*?\s+([\d,]+)%"
    case IndexedBaseLoan => @"Verðtryggð grunnlán, allt að 70% veðsetning.*?\s+([\d,]+)%"
    case IndexedTopUpLoan => @"Verðtryggð viðbótarlán\. 70-80/85%.*?\s+([\d,]+)%"
    case VehicleUnder51 => @"Lánshlutfall <51%\s+([\d,]+)%\s+([\d,]+)%"
    case Vehicle51To69 => @"Lánshlutfall 51-69,9%\s+([\d,]+)%\s+([\d,]+)%"
    case Vehicle70To80 => @"Lánshlutfall 70-80%\s+([\d,]+)%\s+([\d,]+)%"
    case RateClass(i) => NatToString(i) + @"\. kjörvax.*?\s+([\d,]+)%\s+([\d,]+)%"
    case CompanyOverdraft => @"Yfirdráttarlán og reikningslán fyrirtækja\s+([\d,]+)%"
    case PersonalOverdraft => @"Yfirdráttarlán einstaklinga.*?Einkareikningar.*?\s+([\d,]+)%"
    case VordurOverdraftHigh => @"Yfirdráttarlán Vörðufélaga, hæstu vextir\s+([\d,]+)%"
    case VordurOverdraftLow => @"Yfirdráttarlán Vörðufélaga, lægstu vextir\s+([\d,]+)%"
    case StudentLoanFund => @"Náman vegna Menntasjóðs námsmanna\s+([\d,]+)%"
    case StudentGeneral => @"Náman almennir reikningar\s+([\d,]+)%"
    case CardInstalments => @"Greiðsludreifing kreditkorta.*?\s+([\d,]+)%"
    case Penalty => @"Dráttarvextir.*?\s+([\d,]+)%"
  }

  /**
   * The regular-expression engine: `search(p, flags, text)` is
   * `re.search(Pattern(p), text, flags)`, the leftmost match if any.
   */
  type Search = (Rx, Flags, string) -> Option<Match>

  // ------------------------------------------------------------------
  // Searches
  // ------------------------------------------------------------------

  /** `_extract_rate`: the first group of the first case-insensitive, dot-all match, read as a rate. */
  function ExtractRate(search: Search, text: string, p: Rx): (r: Option<Decimal>)
    ensures search(p, IgnoreCaseDotAll, text).None? ==> r.None?
    ensures r.Some? ==>
      search(p, IgnoreCaseDotAll, text).Some? && Group(search(p, IgnoreCaseDotAll, text).value, 1).Some?
  {
    match search(p, IgnoreCaseDotAll, text)
    case None => None
    case Some(m) => ParseGroup(Group(m, 1))
  }

  /** A rate is found exactly when the pattern matches and its first group reads as a numeral. */
  lemma ExtractRateFound(search: Search, text: string, p: Rx)
    ensures ExtractRate(search, text, p).Some? <==>
      && search(p, IgnoreCaseDotAll, text).Some?
      && Group(search(p, IgnoreCaseDotAll, text).value, 1).Some?
      && IsNumeral(CleanPercentage(Group(search(p, IgnoreCaseDotAll, text).value, 1).value))
  {
    var m := search(p, IgnoreCaseDotAll, text);
    if m.Some? && Group(m.value, 1).Some? {
      ParsePercentageAccepts(Group(m.value, 1).value);
    }
  }

  /** Every group of a match read as a rate, in group order. */
  function GroupRates(m: Match): (rs: seq<Option<Decimal>>)
    ensures |rs| == |m.groups|
    ensures forall i :: 0 <= i < |rs| ==> rs[i] == ParseGroup(m.groups[i])
  {
    seq(|m.groups|, i requires 0 <= i < |m.groups| => ParseGroup(m.groups[i]))
  }

  /** `_extract_multiple_rates`: one entry per group of the first match; no match gives an empty list. */
  function ExtractMultipleRates(search: Search, text: string, p: Rx): (rs: seq<Option<Decimal>>)
    ensures search(p, IgnoreCaseDotAll, text).None? ==> rs == []
    ensures search(p, IgnoreCaseDotAll, text).Some? ==> |rs| == |search(p, IgnoreCaseDotAll, text).value.groups|
  {
    match search(p, IgnoreCaseDotAll, text)
    case None => []
    case Some(m) => GroupRates(m)
  }

  /** Entry `i` of the list is group `i + 1` read as a rate; the first entry is what `_extract_rate` finds. */
  lemma ExtractMultipleRatesGroups(search: Search, text: string, p: Rx, i: nat)
    requires search(p, IgnoreCaseDotAll, text).Some?
    requires i < |search(p, IgnoreCaseDotAll, text).value.groups|
    ensures ExtractMultipleRates(search, text, p)[i] == ParseGroup(Group(search(p, IgnoreCaseDotAll, text).value, i + 1))
    ensures ExtractMultipleRates(search, text, p)[0] == ExtractRate(search, text, p)
  {
  }

  /** `_extract_two_column_rates`: always both keys; the first column is the indexed rate. */
  function ExtractTwoColumnRates(search: Search, text: string, a: Account): (r: Fields)
    ensures Keys(r) == ["indexed", "unindexed"]
  {
    var rates := ExtractMultipleRates(search, text, TwoColumn(a));
    if |rates| >= 2 then [("indexed", OfRate(rates[0])), ("unindexed", OfRate(rates[1]))]
    else [("indexed", Null), ("unindexed", Null)]
  }

  /** The two columns are the first two groups, in order; with fewer than two groups both are `None`. */
  lemma TwoColumnOrder(search: Search, text: string, a: Account)
    ensures var m := search(TwoColumn(a), IgnoreCaseDotAll, text);
      var r := ExtractTwoColumnRates(search, text, a);
      if m.Some? && |m.value.groups| >= 2 then
        r[0].1 == OfRate(ParseGroup(Group(m.value, 1))) && r[1].1 == OfRate(ParseGroup(Group(m.value, 2)))
      else
        r[0].1 == Null && r[1].1 == Null
  {
  }

  // ------------------------------------------------------------------
  // Assigning candidate entries
  // ------------------------------------------------------------------

  /** The keys of a list of candidate entries. */
  function Names<T>(entries: seq<(string, T)>): (ns: seq<string>)
    ensures |ns| == |entries|
    ensures forall i :: 0 <= i < |entries| ==> ns[i] == entries[i].0
  {
    seq(|entries|, i requires 0 <= i < |entries| => entries[i].0)
  }

  /** `d[key] = value` when the candidate has a value; nothing otherwise. */
  function Assign(acc: Fields, entry: (string, Option<Value>)): (r: Fields)
    ensures DistinctKeys(acc) ==> DistinctKeys(r)
    ensures forall k :: k in Keys(r) <==> k in Keys(acc) || (k == entry.0 && entry.1.Some?)
  {
    match entry.1
    case None => acc
    case Some(v) => PutDistinctIf(acc, entry.0, v); Put(acc, entry.0, v)
  }

  lemma PutDistinctIf(f: Fields, k: string, v: Value)
    ensures DistinctKeys(f) ==> DistinctKeys(Put(f, k, v))
  {
    if DistinctKeys(f) {
      PutDistinct(f, k, v);
    }
  }

  /** The loops of the parser that assign a dict entry for every candidate that produced a value. */
  function AssignSome(acc: Fields, entries: seq<(string, Option<Value>)>): (r: Fields)
    ensures DistinctKeys(acc) ==> DistinctKeys(r)
    ensures forall k :: k in Keys(r) ==> k in Keys(acc) || k in Names(entries)
    decreases |entries|
  {
    if |entries| == 0 then acc
    else
      var rest := entries[1..];
      assert forall k :: k in Names(rest) ==> k in Names(entries) by {
        forall k | k in Names(rest) ensures k in Names(entries) {
          var i :| 0 <= i < |rest| && Names(rest)[i] == k;
          assert Names(entries)[i + 1] == k;
        }
      }
      AssignSome(Assign(acc, entries[0]), rest)
  }

  /** A key no candidate names keeps what it had. */
  lemma {:induction false} AssignSomeOther(acc: Fields, entries: seq<(string, Option<Value>)>, k: string)
    requires DistinctKeys(acc)
    requires forall i :: 0 <= i < |entries| ==> entries[i].0 != k
    ensures Lookup(AssignSome(acc, entries), k) == Lookup(acc, k)
    decreases |entries|
  {
    if |entries| > 0 {
      var next := Assign(acc, entries[0]);
      if entries[0].1.Some? {
        PutLookup(acc, entries[0].0, entries[0].1.value, k);
      }
      var rest := entries[1..];
      assert forall i :: 0 <= i < |rest| ==> rest[i] == entries[i + 1];
      AssignSomeOther(next, rest, k);
    }
  }

  /**
   * With distinct candidate keys, each key ends up holding its candidate's
   * value, or what it held before when the candidate produced none.
   */
  lemma {:induction false} AssignSomeLookup(acc: Fields, entries: seq<(string, Option<Value>)>, i: nat)
    requires DistinctKeys(acc)
    requires forall a, b :: 0 <= a < b < |entries| ==> entries[a].0 != entries[b].0
    requires i < |entries|
    ensures Lookup(AssignSome(acc, entries), entries[i].0)
         == if entries[i].1.Some? then entries[i].1 else Lookup(acc, entries[i].0)
    decreases |entries|
  {
    var next := Assign(acc, entries[0]);
    var rest := entries[1..];
    assert AssignSome(acc, entries) == AssignSome(next, rest);
    var k := entries[i].0;
    if entries[0].1.Some? {
      PutLookup(acc, entries[0].0, entries[0].1.value, k);
    }
    assert forall j :: 0 <= j < |rest| ==> rest[j] == entries[j + 1];
    if i == 0 {
      AssignSomeOther(next, rest, k);
    } else {
      AssignSomeLookup(next, rest, i - 1);
    }
  }

  // ------------------------------------------------------------------
  // Tiered accounts
  // ------------------------------------------------------------------

  /** The balance tiers `_parse_tiered_accounts` looks for, in its order. */
  const Tiers: seq<Tier> :=
    [Upto1m, From1mTo5m, From5mTo20m, From20m, Upto20m, From60m]

  function TierKey(t: Tier): string {
    match t
    case Upto1m => "tier_0_1m"
    case From1mTo5m => "tier_1m_5m"
    case From5mTo20m => "tier_5m_20m"
    case From20m => "tier_20m_plus"
    case Upto20m => "tier_0_20m"
    case From60m => "tier_60m_plus"
  }

  /** Where a tier sits in `Tiers`. */
  function TierIndex(t: Tier): (i: nat)
    ensures i < |Tiers| && Tiers[i] == t
  {
    match t
    case Upto1m => 0
    case From1mTo5m => 1
    case From5mTo20m => 2
    case From20m => 3
    case Upto20m => 4
    case From60m => 5
  }

  /** One rate column of a tier row: its value when the group is non-empty and reads as a number. */
  function TierColumn(g: Option<string>): (r: Option<Decimal>)
    ensures g.None? ==> r.None?
    ensures r.Some? ==> g.Some? && |g.value| > 0 && r == ParseGroup(g)
  {
    if g.Some? && |g.value| > 0 then ParseGroup(g) else None
  }

  /** The values of the columns that have one, left to right. */
  function Present(cols: seq<Option<Decimal>>): (rs: seq<Decimal>)
    ensures |rs| <= |cols|
  {
    if |cols| == 0 then []
    else (if cols[0].Some? then [cols[0].value] else []) + Present(cols[1..])
  }

  /** When every column has a value, all of them are kept, in order. */
  lemma {:induction false} PresentAll(cols: seq<Option<Decimal>>)
    requires forall i :: 0 <= i < |cols| ==> cols[i].Some?
    ensures |Present(cols)| == |cols|
    ensures forall i :: 0 <= i < |cols| ==> Present(cols)[i] == cols[i].value
  {
    if |cols| > 0 {
      PresentAll(cols[1..]);
    }
  }

  /** Every kept value comes from some column, and a column without one contributes nothing. */
  lemma {:induction false} PresentFrom(cols: seq<Option<Decimal>>)
    ensures forall x :: x in Present(cols) ==> Some(x) in cols
    ensures (forall i :: 0 <= i < |cols| ==> cols[i].None?) ==> Present(cols) == []
  {
    if |cols| > 0 {
      PresentFrom(cols[1..]);
      assert forall c :: c in cols[1..] ==> c in cols;
    }
  }

  /** An unreadable middle column is dropped, so the third column moves into second place. */
  lemma PresentSkip(a: Decimal, c: Decimal)
    ensures Present([Some(a), None, Some(c)]) == [a, c]
  {
    assert [Some(c)][1..] == [];
    assert Present([Some(c)]) == [c];
    assert [None, Some(c)][1..] == [Some(c)];
    assert Present([None, Some(c)]) == [c];
    assert [Some(a), None, Some(c)][1..] == [None, Some(c)];
  }

  /** The rates of a tier row, from groups 1, 3 and 5 in that order. */
  function TierColumns(m: Match): (cols: seq<Option<Decimal>>)
    ensures |cols| == 3
  {
    [TierColumn(Group(m, 1)), TierColumn(Group(m, 3)), TierColumn(Group(m, 5))]
  }

  function TierRates(m: Match): (rs: seq<Decimal>)
    ensures |rs| <= 3
  {
    Present(TierColumns(m))
  }

  /** How a tier is stored: one rate bare, two as indexed/unindexed, three as unbound/3/6 months, none not at all. */
  function TierValue(rates: seq<Decimal>): (v: Option<Value>)
    ensures v.None? <==> |rates| == 0
    ensures |rates| == 1 ==> v == Some(Num(rates[0]))
    ensures |rates| == 2 ==> v.Some? && v.value.Obj? && Keys(v.value.fields) == ["indexed", "unindexed"]
    ensures |rates| >= 3 ==> v.Some? && v.value.Obj? && Keys(v.value.fields) == ["unbound", "3_months", "6_months"]
    ensures |rates| >= 2 ==>
      v.Some? && v.value.Obj? && (forall i :: 0 <= i < |v.value.fields| ==> v.value.fields[i].1 == Num(rates[i]))
  {
    if |rates| == 0 then None
    else if |rates| == 1 then Some(Num(rates[0]))
    else if |rates| == 2 then Some(Obj([("indexed", Num(rates[0])), ("unindexed", Num(rates[1]))]))
    else Some(Obj([("unbound", Num(rates[0])), ("3_months", Num(rates[1])), ("6_months", Num(rates[2]))]))
  }

  /** What one tier contributes: nothing when its row is absent or holds no readable rate. */
  function TierEntry(search: Search, section: string, t: Tier): (v: Option<Value>)
    ensures search(TierRow(t), IgnoreCase, section).None? ==> v.None?
    ensures search(TierRow(t), IgnoreCase, section).Some? ==>
      (v.None? <==> |TierRates(search(TierRow(t), IgnoreCase, section).value)| == 0)
  {
    match search(TierRow(t), IgnoreCase, section)
    case None => None
    case Some(m) => TierValue(TierRates(m))
  }

  function TierEntries(search: Search, section: string): (es: seq<(string, Option<Value>)>)
    ensures |es| == |Tiers|
    ensures forall i :: 0 <= i < |Tiers| ==> es[i] == (TierKey(Tiers[i]), TierEntry(search, section, Tiers[i]))
  {
    seq(|Tiers|, i requires 0 <= i < |Tiers| => (TierKey(Tiers[i]), TierEntry(search, section, Tiers[i])))
  }

  /** `_parse_tiered_accounts`: the tiers found in the account's section, or nothing when there is no section. */
  function ParseTieredAccounts(search: Search, text: string, a: Account): (r: Fields)
    ensures search(Section(a), IgnoreCaseDotAll, text).None? ==> r == []
    ensures DistinctKeys(r)
    ensures forall k :: k in Keys(r) ==> exists t :: t in Tiers && TierKey(t) == k
  {
    match search(Section(a), IgnoreCaseDotAll, text)
    case None => []
    case Some(sm) =>
      var es := TierEntries(search, sm.whole);
      assert forall k :: k in Names(es) ==> exists t :: t in Tiers && TierKey(t) == k by {
        forall k | k in Names(es) ensures exists t :: t in Tiers && TierKey(t) == k {
          var i :| 0 <= i < |es| && Names(es)[i] == k;
          assert Tiers[i] in Tiers;
        }
      }
      AssignSome([], es)
  }

  /** Each tier key holds exactly what its row in the account's section yields, and is absent otherwise. */
  lemma TieredAccountLookup(search: Search, text: string, a: Account, t: Tier)
    ensures var sm := search(Section(a), IgnoreCaseDotAll, text);
      Lookup(ParseTieredAccounts(search, text, a), TierKey(t))
      == if sm.Some? then TierEntry(search, sm.value.whole, t) else None
  {
    var sm := search(Section(a), IgnoreCaseDotAll, text);
    if sm.Some? {
      var es := TierEntries(search, sm.value.whole);
      var i := TierIndex(t);
      TierKeysDistinct();
      AssignSomeLookup([], es, i);
    }
  }

  lemma TierKeysDistinct()
    ensures forall a, b :: 0 <= a < b < |Tiers| ==> TierKey(Tiers[a]) != TierKey(Tiers[b])
  {
  }

  // ------------------------------------------------------------------
  // Row builders
  // ------------------------------------------------------------------

  /** A dict of single-rate rows: each key with `_extract_rate` on its pattern. */
  function SingleRates(search: Search, text: string, rows: seq<(string, Rx)>): (r: Fields)
    ensures |r| == |rows|
    ensures forall i :: 0 <= i < |rows| ==> r[i] == (rows[i].0, OfRate(ExtractRate(search, text, rows[i].1)))
  {
    seq(|rows|, i requires 0 <= i < |rows| => (rows[i].0, OfRate(ExtractRate(search, text, rows[i].1))))
  }

  /** A dict of two-column rows: each key with `_extract_two_column_rates` on its account name. */
  function TwoColumnRows(search: Search, text: string, rows: seq<(string, Account)>): (r: Fields)
    ensures |r| == |rows|
    ensures forall i :: 0 <= i < |rows| ==> r[i] == (rows[i].0, Obj(ExtractTwoColumnRates(search, text, rows[i].1)))
  {
    seq(|rows|, i requires 0 <= i < |rows| => (rows[i].0, Obj(ExtractTwoColumnRates(search, text, rows[i].1))))
  }

  /** A dict of tiered accounts: each key with `_parse_tiered_accounts` on its account name. */
  function TieredRows(search: Search, text: string, rows: seq<(string, Account)>): (r: Fields)
    ensures |r| == |rows|
    ensures forall i :: 0 <= i < |rows| ==> r[i] == (rows[i].0, Obj(ParseTieredAccounts(search, text, rows[i].1)))
  {
    seq(|rows|, i requires 0 <= i < |rows| => (rows[i].0, Obj(ParseTieredAccounts(search, text, rows[i].1))))
  }

  /** A dict whose keys are `labels` and whose values are the matching columns. */
  function Columns(labels: seq<string>, rates: seq<Option<Decimal>>): (r: Fields)
    requires |rates| >= |labels|
    ensures Keys(r) == labels
    ensures forall i :: 0 <= i < |labels| ==> r[i].1 == OfRate(rates[i])
  {
    if |labels| == 0 then [] else [(labels[0], OfRate(rates[0]))] + Columns(labels[1..], rates[1..])
  }

  /** `if rates and len(rates) >= n: d[key] = {...}`: the entry only when enough columns were captured. */
  function OptionalRow(key: string, labels: seq<string>, rates: seq<Option<Decimal>>): (r: Fields)
    requires |labels| > 0
    ensures |rates| >= |labels| ==> Keys(r) == [key] && r[0].1.Obj? && Keys(r[0].1.fields) == labels
    ensures |rates| >= |labels| ==> forall i :: 0 <= i < |labels| ==> r[0].1.fields[i].1 == OfRate(rates[i])
    ensures |rates| < |labels| ==> r == []
  {
    if |rates| >= |labels| then [(key, Obj(Columns(labels, rates)))] else []
  }

  /** One column of a multi-column row, kept under `key` when the row has at least `width` columns. */
  function OptionalColumn(key: string, width: nat, col: nat, rates: seq<Option<Decimal>>): (r: Fields)
    requires col < width
    ensures |rates| >= width ==> r == [(key, OfRate(rates[col]))]
    ensures |rates| < width ==> r == []
  {
    if |rates| >= width then [(key, OfRate(rates[col]))] else []
  }

  // ------------------------------------------------------------------
  // Deposits
  // ------------------------------------------------------------------

  const CurrentAccountRows: seq<(string, Rx)> :=
    [ ("almennir_veltureikningar", CompanyCurrent),
      ("einkareikningar", PersonalCurrent),
      ("namu_klassareikningar", StudentCurrent) ]

  const VordurRows: seq<(string, Rx)> :=
    [("tier_1", VordurTier1), ("tier_2", VordurTier2)]

  /** The current accounts, with the two tiers of the Varðan account nested under one key. */
  function Veltureikningar(search: Search, text: string): (r: Fields)
    ensures Keys(r) == ["almennir_veltureikningar", "einkareikningar", "namu_klassareikningar", "vordureikningar"]
  {
    SingleRates(search, text, CurrentAccountRows)
    + [("vordureikningar", Obj(SingleRates(search, text, VordurRows)))]
  }

  /** The goal-savings account, kept when both columns were captured. */
  function Markmid(search: Search, text: string): Fields {
    OptionalRow("markmi_app", ["unindexed", "indexed"], ExtractMultipleRates(search, text, GoalSavings))
  }

  /** Unlike every other two-column row of the parser, the goal-savings row lists the unindexed rate first. */
  lemma MarkmidColumns(search: Search, text: string)
    ensures var rates := ExtractMultipleRates(search, text, GoalSavings);
      var r := Markmid(search, text);
      if |rates| >= 2 then
        && Keys(r) == ["markmi_app"] && r[0].1.Obj?
        && Keys(r[0].1.fields) == ["unindexed", "indexed"]
        && r[0].1.fields[0].1 == OfRate(rates[0])
        && r[0].1.fields[1].1 == OfRate(rates[1])
      else r == []
  {
  }

  const TieredSavingsRows: seq<(string, Account)> :=
    [ ("vaxtareikningur", Vaxtareikningur),
      ("vaxtareikningur_vardan_60", Vardan60),
      ("vaxtareikningur_30", Vaxtareikningur30) ]

  const FixedTermRows: seq<(string, Rx)> :=
    [("3_months", FixedTerm3), ("6_months", FixedTerm6), ("12_months", FixedTerm12), ("24_months", FixedTerm24)]

  const OtherSavingsRows: seq<(string, Rx)> :=
    [ ("sparireikningur_3", Savings3),
      ("sparireikningur_12", Savings12),
      ("sparireikningur_24", Savings24),
      ("landsbok", Landsbok),
      ("orlofsreikningar", HolidaySavings) ]

  const TwoColumnSavingsRows: seq<(string, Account)> :=
    [("framti_argrunnur", Framtidargrunnur), ("fasteignagrunnur", Fasteignagrunnur), ("lifeyrisbok", Lifeyrisbok)]

  /** The savings accounts in the order `parse_deposit_accounts` assigns them. */
  function Sparireikningar(search: Search, text: string): (r: Fields)
    ensures |r| == 13 || |r| == 14
    ensures |r| == 14 <==> |ExtractMultipleRates(search, text, GoalSavings)| >= 2
    ensures r[0] == ("kjorbok", OfRate(ExtractRate(search, text, Kjorbok)))
  {
    [("kjorbok", OfRate(ExtractRate(search, text, Kjorbok)))]
    + Markmid(search, text)
    + TieredRows(search, text, TieredSavingsRows)
    + [("fastvaxtareikningar", Obj(SingleRates(search, text, FixedTermRows)))]
    + SingleRates(search, text, OtherSavingsRows)
    + TwoColumnRows(search, text, TwoColumnSavingsRows)
  }

  const Currencies: seq<string> :=
    ["USD", "GBP", "CAD", "DKK", "NOK", "SEK", "CHF", "JPY", "EUR", "PLN"]

  const MaturityLabels: seq<string> :=
    ["unbound", "3_months", "6_months"]

  /** A currency row is kept when it has three columns: unbound, then three and six months. */
  function CurrencyEntry(search: Search, text: string, code: string): (e: (string, Option<Value>))
    ensures e.0 == code
    ensures e.1.Some? <==> |ExtractMultipleRates(search, text, Currency(code))| >= 3
  {
    var rates := ExtractMultipleRates(search, text, Currency(code));
    (code, if |rates| >= 3 then Some(Obj(Columns(MaturityLabels, rates))) else None)
  }

  function CurrencyEntries(search: Search, text: string): (es: seq<(string, Option<Value>)>)
    ensures |es| == |Currencies|
    ensures forall i :: 0 <= i < |Currencies| ==> es[i] == CurrencyEntry(search, text, Currencies[i])
  {
    seq(|Currencies|, i requires 0 <= i < |Currencies| => CurrencyEntry(search, text, Currencies[i]))
  }

  /** The loop over the currency codes of `parse_deposit_accounts`. */
  function ForeignCurrency(search: Search, text: string): (r: Fields)
    ensures DistinctKeys(r)
    ensures forall k :: k in Keys(r) ==> k in Currencies
  {
    var es := CurrencyEntries(search, text);
    assert Names(es) == Currencies;
    AssignSome([], es)
  }

  /** A currency is listed exactly when its row has three columns, and then holds them in order. */
  lemma ForeignCurrencyLookup(search: Search, text: string, i: nat)
    requires i < |Currencies|
    ensures var rates := ExtractMultipleRates(search, text, Currency(Currencies[i]));
      Lookup(ForeignCurrency(search, text), Currencies[i])
      == if |rates| >= 3 then Some(Obj(Columns(MaturityLabels, rates))) else None
  {
    var es := CurrencyEntries(search, text);
    CurrenciesDistinct();
    assert forall a :: 0 <= a < |es| ==> es[a].0 == Currencies[a];
    AssignSomeLookup([], es, i);
  }

  lemma CurrenciesDistinct()
    ensures forall a, b :: 0 <= a < b < |Currencies| ==> Currencies[a] != Currencies[b]
  {
  }

  function DepositFields(current: Fields, savings: Fields, foreign: Fields): (r: Fields)
    ensures Keys(r) == ["veltureikningar", "sparireikningar", "foreign_currency"]
    ensures r[0].1 == Obj(current) && r[1].1 == Obj(savings) && r[2].1 == Obj(foreign)
  {
    [("veltureikningar", Obj(current)), ("sparireikningar", Obj(savings)), ("foreign_currency", Obj(foreign))]
  }

  /** `parse_deposit_accounts`: current accounts, savings accounts and foreign-currency accounts. */
  function ParseDepositAccounts(search: Search, text: string): (r: Fields)
    ensures Keys(r) == ["veltureikningar", "sparireikningar", "foreign_currency"]
    ensures r[2].1 == Obj(ForeignCurrency(search, text))
  {
    DepositFields(Veltureikningar(search, text), Sparireikningar(search, text), ForeignCurrency(search, text))
  }

  // ------------------------------------------------------------------
  // Mortgages
  // ------------------------------------------------------------------

  const FixedPeriods: seq<string> :=
    ["1_year", "3_year", "5_year"]

  /** A fixed-rate mortgage row: the three periods under `key`, or nothing without all three columns. */
  function FixedRow(search: Search, text: string, key: string, p: Rx): (r: Fields)
    ensures Keys(r) == if |ExtractMultipleRates(search, text, p)| >= 3 then [key] else []
  {
    OptionalRow(key, FixedPeriods, ExtractMultipleRates(search, text, p))
  }

  /** A fixed-rate mortgage row is kept only with all three periods, taken in column order. */
  lemma FixedRowColumns(search: Search, text: string, key: string, p: Rx)
    ensures var rates := ExtractMultipleRates(search, text, p);
      var r := FixedRow(search, text, key, p);
      if |rates| >= 3 then
        && Keys(r) == [key] && r[0].1.Obj?
        && Keys(r[0].1.fields) == FixedPeriods
        && r[0].1.fields[0].1 == OfRate(rates[0])
        && r[0].1.fields[1].1 == OfRate(rates[1])
        && r[0].1.fields[2].1 == OfRate(rates[2])
      else r == []
  {
  }

  const UnindexedFixedRows: seq<(string, Rx)> :=
    [ ("up_to_55_ltv", Mortgage55),
      ("up_to_65_ltv", Mortgage65),
      ("up_to_75_ltv", Mortgage75),
      ("up_to_80_85_ltv", Mortgage80) ]

  /** The fixed-rate rows of a table that have all three periods, in table order. */
  function FixedRows(search: Search, text: string, rows: seq<(string, Rx)>): (r: Fields)
    ensures |r| <= |rows|
  {
    if |rows| == 0 then []
    else FixedRow(search, text, rows[0].0, rows[0].1) + FixedRows(search, text, rows[1..])
  }

  /** When every row of the table is complete, every key of the table is listed, in table order. */
  lemma {:induction false} FixedRowsComplete(search: Search, text: string, rows: seq<(string, Rx)>)
    requires forall i :: 0 <= i < |rows| ==> |ExtractMultipleRates(search, text, rows[i].1)| >= 3
    ensures Keys(FixedRows(search, text, rows)) == Names(rows)
  {
    if |rows| > 0 {
      FixedRowsComplete(search, text, rows[1..]);
      KeysAppend(FixedRow(search, text, rows[0].0, rows[0].1), FixedRows(search, text, rows[1..]));
      NamesCons(rows);
    }
  }

  lemma NamesCons<T>(rows: seq<(string, T)>)
    requires |rows| > 0
    ensures Names(rows) == [rows[0].0] + Names(rows[1..])
  {
  }

  /** A row whose pattern does not yield three columns leaves no key behind. */
  lemma {:induction false} FixedRowsOmit(search: Search, text: string, rows: seq<(string, Rx)>, k: string)
    requires forall i :: 0 <= i < |rows| && rows[i].0 == k ==> |ExtractMultipleRates(search, text, rows[i].1)| < 3
    ensures k !in Keys(FixedRows(search, text, rows))
  {
    if |rows| > 0 {
      FixedRowsOmit(search, text, rows[1..], k);
      KeysAppend(FixedRow(search, text, rows[0].0, rows[0].1), FixedRows(search, text, rows[1..]));
    }
  }

  function UnindexedFixed(search: Search, text: string): Fields {
    FixedRows(search, text, UnindexedFixedRows)
  }

  function UnindexedVariable(search: Search, text: string): Fields {
    OptionalRow("up_to_85_ltv", ["fixed_premium", "total_rate"], ExtractMultipleRates(search, text, MortgageVariable))
  }

  const UnindexedOldRows: seq<(string, Rx)> :=
    [("grunnlan_up_to_70", BaseLoan), ("vibotar_70_80_85", TopUpLoan)]

  const IndexedFixedRows: seq<(string, Rx)> :=
    [("up_to_75_ltv", IndexedMortgage75), ("up_to_85_ltv", IndexedMortgage85)]

  const IndexedOldRows: seq<(string, Rx)> :=
    [("grunnlan_up_to_70", IndexedBaseLoan), ("vibotar_70_80_85", IndexedTopUpLoan)]

  function MortgageFields(fixed: Fields, variable: Fields, oldLoans: Fields, indexedFixed: Fields, indexedOld: Fields): (r: Fields)
    ensures Keys(r) == ["unindexed", "indexed"]
    ensures r[0].1.Obj? && Keys(r[0].1.fields) == ["fixed_rates", "variable_rates", "old_loans"]
    ensures r[1].1.Obj? && Keys(r[1].1.fields) == ["fixed_rates", "old_loans"]
    ensures r[0].1.fields[0].1 == Obj(fixed)
  {
    [ ("unindexed", Obj([("fixed_rates", Obj(fixed)), ("variable_rates", Obj(variable)), ("old_loans", Obj(oldLoans))])),
      ("indexed", Obj([("fixed_rates", Obj(indexedFixed)), ("old_loans", Obj(indexedOld))])) ]
  }

  /** `parse_mortgage_loans`: the unindexed and indexed groups, each with its fixed sub-dicts. */
  function ParseMortgageLoans(search: Search, text: string): (r: Fields)
    ensures Keys(r) == ["unindexed", "indexed"]
    ensures r[0].1.Obj? && Keys(r[0].1.fields) == ["fixed_rates", "variable_rates", "old_loans"]
    ensures r[1].1.Obj? && Keys(r[1].1.fields) == ["fixed_rates", "old_loans"]
    ensures r[0].1.fields[0].1 == Obj(UnindexedFixed(search, text))
  {
    MortgageFields(UnindexedFixed(search, text), UnindexedVariable(search, text),
      SingleRates(search, text, UnindexedOldRows),
      SingleRates(search, text, IndexedFixedRows), SingleRates(search, text, IndexedOldRows))
  }


  // ------------------------------------------------------------------
  // Vehicle loans
  // ------------------------------------------------------------------

  /** The loan-to-value rows of the vehicle table, each with an electric and an other-vehicle column. */
  function VehicleRows(search: Search, text: string): seq<(string, seq<Option<Decimal>>)> {
    [ ("ltv_under_51", ExtractMultipleRates(search, text, VehicleUnder51)),
      ("ltv_51_69", ExtractMultipleRates(search, text, Vehicle51To69)),
      ("ltv_70_80", ExtractMultipleRates(search, text, Vehicle70To80)) ]
  }

  /** Column `col` of every row that has both columns. */
  function VehicleColumn(rows: seq<(string, seq<Option<Decimal>>)>, col: nat): (r: Fields)
    requires col < 2
    ensures |r| <= |rows|
  {
    if |rows| == 0 then []
    else OptionalColumn(rows[0].0, 2, col, rows[0].1) + VehicleColumn(rows[1..], col)
  }

  /** Both columns list the same rows, in the same order. */
  lemma {:induction false} VehicleKeysAgree(rows: seq<(string, seq<Option<Decimal>>)>)
    ensures Keys(VehicleColumn(rows, 0)) == Keys(VehicleColumn(rows, 1))
  {
    if |rows| > 0 {
      VehicleKeysAgree(rows[1..]);
      KeysAppend(OptionalColumn(rows[0].0, 2, 0, rows[0].1), VehicleColumn(rows[1..], 0));
      KeysAppend(OptionalColumn(rows[0].0, 2, 1, rows[0].1), VehicleColumn(rows[1..], 1));
    }
  }

  /** A vehicle row listed in both columns. */
  predicate RowPair(rows: seq<(string, seq<Option<Decimal>>)>, e: (string, Value), o: (string, Value)) {
    exists j :: 0 <= j < |rows| && |rows[j].1| >= 2 &&
      e == (rows[j].0, OfRate(rows[j].1[0])) && o == (rows[j].0, OfRate(rows[j].1[1]))
  }

  /** Entry `i` of the electric column and entry `i` of the other column come from one row: its first and second rate. */
  lemma {:induction false} VehicleColumnsAgree(rows: seq<(string, seq<Option<Decimal>>)>, i: nat)
    requires i < |VehicleColumn(rows, 0)|
    ensures |VehicleColumn(rows, 1)| == |VehicleColumn(rows, 0)|
    ensures RowPair(rows, VehicleColumn(rows, 0)[i], VehicleColumn(rows, 1)[i])
  {
    VehicleKeysAgree(rows);
    var head0 := OptionalColumn(rows[0].0, 2, 0, rows[0].1);
    var head1 := OptionalColumn(rows[0].0, 2, 1, rows[0].1);
    var tail0 := VehicleColumn(rows[1..], 0);
    var tail1 := VehicleColumn(rows[1..], 1);
    if i < |head0| {
      assert VehicleColumn(rows, 0)[i] == (rows[0].0, OfRate(rows[0].1[0]));
      assert VehicleColumn(rows, 1)[i] == (rows[0].0, OfRate(rows[0].1[1]));
    } else {
      assert VehicleColumn(rows, 0)[i] == tail0[i - |head0|];
      assert VehicleColumn(rows, 1)[i] == tail1[i - |head0|];
      VehicleColumnsAgree(rows[1..], i - |head0|);
      RowPairTail(rows, tail0[i - |head0|], tail1[i - |head0|]);
    }
  }

  lemma RowPairTail(rows: seq<(string, seq<Option<Decimal>>)>, e: (string, Value), o: (string, Value))
    requires |rows| > 0 && RowPair(rows[1..], e, o)
    ensures RowPair(rows, e, o)
  {
    var j :| 0 <= j < |rows[1..]| && |rows[1..][j].1| >= 2 &&
      e == (rows[1..][j].0, OfRate(rows[1..][j].1[0])) && o == (rows[1..][j].0, OfRate(rows[1..][j].1[1]));
    assert rows[1..][j] == rows[j + 1];
  }

  function VehicleFields(electric: Fields, other: Fields): (r: Fields)
    ensures Keys(r) == ["electric_vehicles", "other_vehicles"]
    ensures r[0].1 == Obj(electric) && r[1].1 == Obj(other)
  {
    [("electric_vehicles", Obj(electric)), ("other_vehicles", Obj(other))]
  }

  /** `parse_vehicle_loans`: the electric and other-vehicle columns of the same rows. */
  function ParseVehicleLoans(search: Search, text: string): (r: Fields)
    ensures Keys(r) == ["electric_vehicles", "other_vehicles"]
    ensures r[0].1.Obj? && r[1].1.Obj? && Keys(r[0].1.fields) == Keys(r[1].1.fields)
  {
    var rows := VehicleRows(search, text);
    VehicleKeysAgree(rows);
    VehicleFields(VehicleColumn(rows, 0), VehicleColumn(rows, 1))
  }

  // ------------------------------------------------------------------
  // Bonds and loan agreements
  // ------------------------------------------------------------------

  function RateClassKey(i: nat): string {
    "kjorvaxtaflokkur_" + NatToString(i)
  }

  /** Rate class `i` is kept when its row has both columns, the indexed rate first. */
  function RateClassEntry(search: Search, text: string, i: nat): (e: (string, Option<Value>))
    ensures e.0 == RateClassKey(i)
    ensures e.1.Some? <==> |ExtractMultipleRates(search, text, RateClass(i))| >= 2
  {
    var rates := ExtractMultipleRates(search, text, RateClass(i));
    (RateClassKey(i), if |rates| >= 2 then Some(Obj(Columns(["indexed", "unindexed"], rates))) else None)
  }

  function RateClassEntries(search: Search, text: string): (es: seq<(string, Option<Value>)>)
    ensures |es| == 10
    ensures forall i :: 0 <= i < 10 ==> es[i] == RateClassEntry(search, text, i)
  {
    seq(10, i requires 0 <= i < 10 => RateClassEntry(search, text, i))
  }

  /** The loop over rate classes 0 to 9. */
  function RateClasses(search: Search, text: string): (r: Fields)
    ensures DistinctKeys(r)
    ensures forall k :: k in Keys(r) ==> exists c :: 0 <= c < 10 && k == RateClassKey(c)
  {
    var es := RateClassEntries(search, text);
    assert forall k :: k in Names(es) ==> exists c :: 0 <= c < 10 && k == RateClassKey(c) by {
      forall k | k in Names(es) ensures exists c :: 0 <= c < 10 && k == RateClassKey(c) {
        var i :| 0 <= i < |es| && Names(es)[i] == k;
        assert k == RateClassKey(i);
      }
    }
    AssignSome([], es)
  }

  /** Rate class `c` is listed exactly when its row has both columns, and then holds them in order. */
  lemma RateClassLookup(search: Search, text: string, c: nat)
    requires c < 10
    ensures var rates := ExtractMultipleRates(search, text, RateClass(c));
      Lookup(RateClasses(search, text), RateClassKey(c))
      == if |rates| >= 2 then Some(Obj(Columns(["indexed", "unindexed"], rates))) else None
  {
    var es := RateClassEntries(search, text);
    forall a, b | 0 <= a < b < |es| ensures es[a].0 != es[b].0 {
      if es[a].0 == es[b].0 {
        RateClassKeyInjective(a, b);
      }
    }
    AssignSomeLookup([], es, c);
  }

  lemma RateClassKeyInjective(a: nat, b: nat)
    requires RateClassKey(a) == RateClassKey(b)
    ensures a == b
  {
    var p := "kjorvaxtaflokkur_";
    assert NatToString(a) == RateClassKey(a)[|p|..];
    assert NatToString(b) == RateClassKey(b)[|p|..];
    NatToStringInjective(a, b);
  }

  const SpecialAgreementRows: seq<(string, Account)> :=
    [ ("eldri_lan_an_kjorvaxta", EldriLan),
      ("kjor_lan_spkef", KjorSpKef),
      ("kjor_lan_vestmannaeyja", KjorVestmannaeyja),
      ("tm_kjorvextir", TmKjorvextir),
      ("tm_bilalan", TmBilalan),
      ("tm_onnur_lan", TmOnnurLan) ]

  /** `parse_bonds_and_loan_agreements`: the rate classes first, then the six special agreements. */
  function ParseBondsAndLoanAgreements(search: Search, text: string): (r: Fields)
    ensures |r| == 7 && r[0] == ("kjorvaxtaflokkar", Obj(RateClasses(search, text)))
    ensures forall i :: 1 <= i < 7 ==> r[i].1.Obj? && Keys(r[i].1.fields) == ["indexed", "unindexed"]
  {
    [("kjorvaxtaflokkar", Obj(RateClasses(search, text)))] + TwoColumnRows(search, text, SpecialAgreementRows)
  }

  // ------------------------------------------------------------------
  // Short-term loans and penalty interest
  // ------------------------------------------------------------------

  const OverdraftRows: seq<(string, Rx)> :=
    [ ("fyrirtaekja", CompanyOverdraft),
      ("einstaklinga", PersonalOverdraft),
      ("vordufélaga_high", VordurOverdraftHigh),
      ("vordufélaga_low", VordurOverdraftLow),
      ("naman_menntasjo_ur", StudentLoanFund),
      ("naman_almennir", StudentGeneral) ]

  /** `parse_short_term_loans`: six overdraft rows and the card instalment row, every key always present. */
  function ParseShortTermLoans(search: Search, text: string): (r: Fields)
    ensures Keys(r) == ["overdrafts", "credit_cards"]
    ensures r[0].1.Obj? && |r[0].1.fields| == 6
    ensures r[1].1 == Obj([("greiðsludreifing", OfRate(ExtractRate(search, text, CardInstalments)))])
  {
    [ ("overdrafts", Obj(SingleRates(search, text, OverdraftRows))),
      ("credit_cards", Obj([("greiðsludreifing", OfRate(ExtractRate(search, text, CardInstalments)))])) ]
  }

  /** `parse_penalty_interest`. */
  function ParsePenaltyInterest(search: Search, text: string): (r: Option<Decimal>)
    ensures search(Penalty, IgnoreCaseDotAll, text).None? ==> r.None?
    ensures r.Some? ==> search(Penalty, IgnoreCaseDotAll, text).Some?
  {
    ExtractRate(search, text, Penalty)
  }

  // ------------------------------------------------------------------
  // The whole document
  // ------------------------------------------------------------------

  const SectionKeys: seq<string> :=
    ["effective_date", "deposits", "mortgages", "vehicle_loans", "bonds_and_loans", "short_term_loans", "penalty_interest"]

  function AllFields(date: Option<string>, deposits: Fields, mortgages: Fields, vehicles: Fields,
                     bonds: Fields, shortTerm: Fields, penalty: Option<Decimal>): (r: Fields)
    ensures |r| == 7 && Keys(r) == SectionKeys
    ensures r[0].1 == OfString(date) && r[6].1 == OfRate(penalty)
    ensures r[1].1 == Obj(deposits) && r[2].1 == Obj(mortgages) && r[3].1 == Obj(vehicles)
    ensures r[4].1 == Obj(bonds) && r[5].1 == Obj(shortTerm)
  {
    [ ("effective_date", OfString(date)), ("deposits", Obj(deposits)), ("mortgages", Obj(mortgages)),
      ("vehicle_loans", Obj(vehicles)), ("bonds_and_loans", Obj(bonds)), ("short_term_loans", Obj(shortTerm)),
      ("penalty_interest", OfRate(penalty)) ]
  }

  /** The seven sections `parse_all` collects from a text. */
  function Sections(search: Search, text: string): (r: Fields)
    ensures |r| == 7 && Keys(r) == SectionKeys
    ensures r[0].1 == OfString(IcelandicDates.ParseEffectiveDate(text))
    ensures r[6].1 == OfRate(ParsePenaltyInterest(search, text))
  {
    AllFields(IcelandicDates.ParseEffectiveDate(text), ParseDepositAccounts(search, text),
      ParseMortgageLoans(search, text), ParseVehicleLoans(search, text),
      ParseBondsAndLoanAgreements(search, text), ParseShortTermLoans(search, text),
      ParsePenaltyInterest(search, text))
  }

  /**
   * `parse_all` on the text pdfminer extracted (`""` when extraction failed):
   * nothing for an empty text, otherwise all seven sections.
   */
  function ParseAll(search: Search, rawText: string): (r: Fields)
    ensures |rawText| == 0 <==> |r| == 0
    ensures |rawText| > 0 ==> |r| == 7 && Keys(r) == SectionKeys
    ensures |rawText| > 0 ==> r[0].1 == OfString(IcelandicDates.ParseEffectiveDate(rawText))
    ensures |rawText| > 0 ==> r[6].1 == OfRate(ParsePenaltyInterest(search, rawText))
  {
    if |rawText| == 0 then [] else Sections(search, rawText)
  }
}
