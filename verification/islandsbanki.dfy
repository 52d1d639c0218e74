/**
 * The Íslandsbanki scraper. Its rate page is HTML, so the rates come from
 * tables: each row is an account name followed by rate cells, the row's
 * name becomes a dictionary key, and the tables are sorted into sections
 * by the words in the heading above them.
 *
 * The document is given by what the scraper reads off it: each table's
 * rows as cell texts, the texts of the elements that could be its heading,
 * and the page text. BeautifulSoup itself is not modelled.
 */
module Islandsbanki {
  import opened Wrappers
  import opened Text
  import opened Numbers
  import opened Calendar
  import opened Json
  import opened IcelandicDates

  // ------------------------------------------------------------------
  // Dictionary keys
  // ------------------------------------------------------------------

  /** What the translation table of `normalize_key` turns one character into. */
  function Translit(c: char): string {
    match c
    case ' ' => "_"
    case 'á' => "a"
    case 'Á' => "a"
    case 'é' => "e"
    case 'É' => "e"
    case 'í' => "i"
    case 'Í' => "i"
    case 'ó' => "o"
    case 'Ó' => "o"
    case 'ú' => "u"
    case 'Ú' => "u"
    case 'ý' => "y"
    case 'Ý' => "y"
    case 'ö' => "o"
    case 'Ö' => "o"
    case 'æ' => "ae"
    case 'Æ' => "ae"
    case 'ð' => "d"
    case 'Ð' => "d"
    case 'þ' => "th"
    case 'Þ' => "th"
    case _ => [c]
  }

  /** `text.translate(replacements)`. */
  function Translate(s: string): string {
    if |s| == 0 then [] else Translit(s[0]) + Translate(s[1..])
  }

  /** The characters a key may hold: `[a-z0-9_]`. */
  predicate IsKeyChar(c: char) {
    IsAsciiLower(c) || IsDigit(c) || c == '_'
  }

  predicate AllKeyChars(s: string) {
    forall i :: 0 <= i < |s| ==> IsKeyChar(s[i])
  }

  /** `re.sub(r"[^a-z0-9_]", "", s)`: every character outside `[a-z0-9_]` deleted. */
  function KeepKeyChars(s: string): (r: string)
    ensures AllKeyChars(r)
  {
    if |s| == 0 then []
    else (if IsKeyChar(s[0]) then [s[0]] else []) + KeepKeyChars(s[1..])
  }

  predicate NoDoubleUnderscore(s: string) {
    forall i :: 0 <= i < |s| - 1 ==> s[i] != '_' || s[i + 1] != '_'
  }

  /** `re.sub(r"_+", "_", s)`: every run of underscores shrinks to one. */
  function CollapseUnderscores(s: string): (r: string)
    ensures NoDoubleUnderscore(r)
    ensures |r| > 0 <==> |s| > 0
    ensures |r| > 0 ==> r[0] == s[0]
    ensures AllKeyChars(s) ==> AllKeyChars(r)
  {
    if |s| == 0 then []
    else if |s| > 1 && s[0] == '_' && s[1] == '_' then CollapseUnderscores(s[1..])
    else [s[0]] + CollapseUnderscores(s[1..])
  }

  /** What `normalize_key` returns: `[a-z0-9_]` only, no "__", no '_' at either end. */
  predicate IsNormalKey(k: string) {
    && AllKeyChars(k)
    && NoDoubleUnderscore(k)
    && (|k| > 0 ==> k[0] != '_' && k[|k| - 1] != '_')
  }

  /** `normalize_key`: transliterate, lower-case, drop other characters, collapse and strip underscores. */
  function NormalizeKey(text: string): (r: string)
    ensures IsNormalKey(r)
    ensures |text| == 0 ==> r == []
  {
    if |text| == 0 then []
    else
      var collapsed := CollapseUnderscores(KeepKeyChars(Lower(Translate(text))));
      StripUnderscoresKeepsKey(collapsed);
      StripChar(collapsed, '_')
  }

  /** Stripping underscores from the ends keeps a key's characters and adds no "__". */
  lemma {:induction false} StripUnderscoresKeepsKey(s: string)
    requires AllKeyChars(s) && NoDoubleUnderscore(s)
    ensures AllKeyChars(StripChar(s, '_')) && NoDoubleUnderscore(StripChar(s, '_'))
    decreases |s|
  {
    if |s| > 0 && s[0] == '_' {
      StripUnderscoresKeepsKey(s[1..]);
    } else if |s| > 0 && s[|s| - 1] == '_' {
      StripUnderscoresKeepsKey(s[..|s| - 1]);
    }
  }

  lemma {:induction false} TranslateKey(k: string)
    requires AllKeyChars(k)
    ensures Translate(k) == k
  {
    if |k| > 0 {
      TranslateKey(k[1..]);
      assert Translit(k[0]) == [k[0]];
      assert k == [k[0]] + k[1..];
    }
  }

  lemma LowerKey(k: string)
    requires AllKeyChars(k)
    ensures Lower(k) == k
  {
    assert forall i :: 0 <= i < |k| ==> Lower(k)[i] == k[i];
  }

  lemma {:induction false} KeepKey(k: string)
    requires AllKeyChars(k)
    ensures KeepKeyChars(k) == k
  {
    if |k| > 0 {
      KeepKey(k[1..]);
      assert k == [k[0]] + k[1..];
    }
  }

  lemma {:induction false} CollapseKey(k: string)
    requires NoDoubleUnderscore(k)
    ensures CollapseUnderscores(k) == k
  {
    if |k| > 0 {
      CollapseKey(k[1..]);
      assert k == [k[0]] + k[1..];
    }
  }

  /** A normalised key is its own normal form, so normalising twice is normalising once. */
  lemma NormalizeKeyIdempotent(text: string)
    ensures NormalizeKey(NormalizeKey(text)) == NormalizeKey(text)
  {
    var k := NormalizeKey(text);
    if |k| > 0 {
      TranslateKey(k);
      LowerKey(k);
      KeepKey(k);
      CollapseKey(k);
    }
  }

  /** Transliteration, lower-casing, deletion, collapsing and stripping on one name. */
  lemma NormalizeKeyExample()
    ensures NormalizeKey(" Þ  ð!") == "th_d"
  {
    TranslateExample();
    LowerExample();
    KeepExample();
    CollapseExample();
    assert StripChar("_th_d", '_') == "th_d";
  }

  lemma TranslateExample()
    ensures Translate(" Þ  ð!") == "_th__d!"
  {
    assert Translate("!") == "!";
    assert Translate("ð!") == "d!";
    assert Translate(" ð!") == "_d!";
    assert Translate("  ð!") == "__d!";
    assert Translate("Þ  ð!") == "th__d!";
  }

  lemma LowerExample()
    ensures Lower("_th__d!") == "_th__d!"
  {
    LowerKeeps("_th__d!");
  }

  lemma KeepExample()
    ensures KeepKeyChars("_th__d!") == "_th__d"
  {
    assert KeepKeyChars("d!") == "d";
    assert KeepKeyChars("__d!") == "__d";
    assert KeepKeyChars("th__d!") == "th__d";
  }

  lemma CollapseExample()
    ensures CollapseUnderscores("_th__d") == "_th_d"
  {
    assert CollapseUnderscores("_d") == "_d";
    assert CollapseUnderscores("__d") == "_d";
    assert CollapseUnderscores("h__d") == "h_d";
  }

  // ------------------------------------------------------------------
  // Percentages
  // ------------------------------------------------------------------

  /** The text `parse_percentage` hands to `float`: '%' removed, ',' read as '.', whitespace stripped. */
  function CleanPercentage(value: string): string {
    Strip(ReplaceChar(RemoveChar(value, '%'), ',', "."))
  }

  /** `parse_percentage`: a number for a decimal numeral, `None` for empty or malformed text. */
  function ParsePercentage(value: string): (r: Option<Decimal>)
    ensures r.Some? <==> IsNumeral(CleanPercentage(value))
  {
    var v := CleanPercentage(value);
    ParseFloatAccepts(v);
    if |v| == 0 then None else ParseFloat(v)
  }

  /** A rate printed with a decimal comma or point and a percent sign reads back as itself. */
  lemma ParsePercentageRendered(d: Decimal)
    ensures ParsePercentage(Render(d, ',') + "%") == Some(d)
    ensures ParsePercentage(Render(d, '.') + "%") == Some(d)
  {
    PercentReadBack(d, ',');
    PercentReadBack(d, '.');
  }

  lemma PercentReadBack(d: Decimal, point: char)
    requires point == ',' || point == '.'
    ensures CleanPercentage(Render(d, point) + "%") == Render(d, '.')
    ensures ParsePercentage(Render(d, point) + "%") == Some(d)
  {
    PercentCleaned(d, point);
    RenderShape(d, '.');
    RenderRoundTrip(d);
  }

  lemma PercentCleaned(d: Decimal, point: char)
    requires point == ',' || point == '.'
    ensures CleanPercentage(Render(d, point) + "%") == Render(d, '.')
  {
    var s := Render(d, point);
    var t := Render(d, '.');
    PercentRemoved(d, point);
    PointReplaced(d, point);
    RenderChars(d, '.');
    NumeralCharsNoSpace(t, '.');
    assert Strip(t) == t;
  }

  lemma PercentRemoved(d: Decimal, point: char)
    requires point == ',' || point == '.'
    ensures RemoveChar(Render(d, point) + "%", '%') == Render(d, point)
  {
    var s := Render(d, point);
    RenderChars(d, point);
    assert '%' !in s;
    ReplaceCharAppend(s, "%", '%', "");
  }

  lemma PointReplaced(d: Decimal, point: char)
    requires point == ',' || point == '.'
    ensures ReplaceChar(Render(d, point), ',', ".") == Render(d, '.')
  {
    RenderChars(d, point);
    if point == ',' {
      RenderCommaToPoint(d);
    } else {
      assert ',' !in Render(d, point);
    }
  }

  // ------------------------------------------------------------------
  // Table rows
  // ------------------------------------------------------------------

  /** A table row as the scraper reads it: the text of each `td`/`th` cell, in order. */
  type Row = seq<string>

  /** The rates of the given cells, in order, each cell stripped and unparsable ones skipped. */
  function RowRates(cells: seq<string>): (rates: seq<Decimal>)
    ensures |rates| <= |cells|
  {
    if |cells| == 0 then []
    else
      var rest := RowRates(cells[1..]);
      match ParsePercentage(Strip(cells[0]))
      case None => rest
      case Some(d) => [d] + rest
  }

  /** How a row's rates are stored: one rate as a number, several as a list. */
  function RateValue(rates: seq<Decimal>): (v: Value)
    requires |rates| > 0
  {
    if |rates| == 1 then Num(rates[0]) else Arr(seq(|rates|, i requires 0 <= i < |rates| => Num(rates[i])))
  }

  /** What the loop body of `parse_table_rows` makes of one row: nothing, or a key and a value. */
  datatype RowOutcome = Skipped | Kept(key: string, value: Value)

  /**
   * One row: skipped with fewer than two cells, an empty name, no
   * parsable rate or an empty key (in that order); otherwise filed under
   * the normalised name with its rates.
   */
  function ReadRow(cells: Row): (o: RowOutcome)
    ensures o.Kept? ==> |o.key| > 0 && IsNormalKey(o.key)
  {
    if |cells| < 2 then Skipped
    else
      var name := Strip(cells[0]);
      if |name| == 0 then Skipped
      else
        var rates := RowRates(cells[1..]);
        if |rates| == 0 then Skipped
        else
          var key := NormalizeKey(name);
          if |key| == 0 then Skipped else Kept(key, RateValue(rates))
  }

  /** The key `f"{base}_{n}"`. */
  function Suffixed(base: string, n: nat): string {
    base + "_" + NatToString(n)
  }

  /** The number `n` when `k` is `Suffixed(base, n)`. */
  function SuffixNumber(k: string, base: string): Option<nat> {
    if |k| > |base| + 1 && k[..|base| + 1] == base + "_" && AllDigits(k[|base| + 1..])
    then Some(DigitsValue(k[|base| + 1..]))
    else None
  }

  lemma SuffixNumberOf(base: string, n: nat)
    ensures SuffixNumber(Suffixed(base, n), base) == Some(n)
  {
    var k := Suffixed(base, n);
    assert k[..|base| + 1] == base + "_";
    assert k[|base| + 1..] == NatToString(n);
    NatToStringValue(n);
  }

  /** The keys of `f` that are suffixed forms of `base` with a number of at least `from`. */
  ghost function Taken(f: Fields, base: string, from: nat): set<string> {
    set k | k in Keys(f) && SuffixNumber(k, base).Some? && SuffixNumber(k, base).value >= from
  }

  lemma {:induction false} SubsetCard<T>(a: set<T>, b: set<T>)
    requires a <= b
    ensures |a| <= |b|
    decreases |a|
  {
    if a != {} {
      var x :| x in a;
      SubsetCard(a - {x}, b - {x});
    }
  }

  /** Trying the next suffix leaves fewer taken keys to try. */
  lemma TakenShrinks(f: Fields, base: string, index: nat)
    requires HasKey(f, Suffixed(base, index))
    ensures |Taken(f, base, index + 1)| < |Taken(f, base, index)|
  {
    var c := Suffixed(base, index);
    TakenHas(f, base, index);
    TakenLater(f, base, index);
    SubsetCard(Taken(f, base, index + 1), Taken(f, base, index) - {c});
  }

  lemma TakenHas(f: Fields, base: string, index: nat)
    requires HasKey(f, Suffixed(base, index))
    ensures Suffixed(base, index) in Taken(f, base, index)
  {
    SuffixNumberOf(base, index);
  }

  lemma TakenLater(f: Fields, base: string, index: nat)
    ensures Taken(f, base, index + 1) <= Taken(f, base, index) - {Suffixed(base, index)}
  {
    SuffixNumberOf(base, index);
    forall k | k in Taken(f, base, index + 1) ensures k in Taken(f, base, index) - {Suffixed(base, index)} {
      assert SuffixNumber(k, base).value >= index + 1;
    }
  }

  /** The `while key in result` loop from suffix `index` on: the first suffixed key not yet used. */
  function NextFree(f: Fields, base: string, index: nat): (k: string)
    decreases |Taken(f, base, index)|
    ensures !HasKey(f, k)
    ensures exists n: nat :: n >= index && k == Suffixed(base, n)
  {
    var k := Suffixed(base, index);
    if !HasKey(f, k) then k
    else
      TakenShrinks(f, base, index);
      NextFree(f, base, index + 1)
  }

  /** Every suffix the loop passes over before stopping is in use. */
  lemma {:induction false} NextFreeFirst(f: Fields, base: string, index: nat)
    decreases |Taken(f, base, index)|
    ensures exists n: nat :: n >= index && NextFree(f, base, index) == Suffixed(base, n)
                             && forall m: nat :: index <= m < n ==> HasKey(f, Suffixed(base, m))
  {
    if HasKey(f, Suffixed(base, index)) {
      TakenShrinks(f, base, index);
      NextFreeFirst(f, base, index + 1);
      var n: nat :| n >= index + 1 && NextFree(f, base, index + 1) == Suffixed(base, n)
                    && forall m: nat :: index + 1 <= m < n ==> HasKey(f, Suffixed(base, m));
      assert NextFree(f, base, index) == Suffixed(base, n);
    } else {
      assert NextFree(f, base, index) == Suffixed(base, index);
    }
  }

  /** `base` when unused, else the first of `base_2`, `base_3`, ... not yet used. */
  function FreshKey(f: Fields, base: string): (k: string)
    ensures !HasKey(f, k)
    ensures k == base <==> !HasKey(f, base)
    ensures HasKey(f, base) ==> exists n: nat :: n >= 2 && k == Suffixed(base, n)
                                                && forall m: nat :: 2 <= m < n ==> HasKey(f, Suffixed(base, m))
  {
    if !HasKey(f, base) then base
    else
      NextFreeFirst(f, base, 2);
      NextFree(f, base, 2)
  }

  /** One iteration of the row loop: a kept row goes in under a key not used yet. */
  function AddRow(result: Fields, o: RowOutcome): Fields {
    match o
    case Skipped => result
    case Kept(key, value) => Put(result, FreshKey(result, key), value)
  }

  /** The row loop over the rows' outcomes, starting from `result`. */
  function ParseRows(result: Fields, outcomes: seq<RowOutcome>): Fields
    decreases |outcomes|
  {
    if |outcomes| == 0 then result else ParseRows(AddRow(result, outcomes[0]), outcomes[1..])
  }

  function ReadRows(rows: seq<Row>): (outcomes: seq<RowOutcome>)
    ensures |outcomes| == |rows|
    ensures forall i :: 0 <= i < |rows| ==> outcomes[i] == ReadRow(rows[i])
  {
    seq(|rows|, i requires 0 <= i < |rows| => ReadRow(rows[i]))
  }

  /** `parse_table_rows`. */
  function ParseTableRows(rows: seq<Row>): Fields {
    ParseRows([], ReadRows(rows))
  }

  /** The outcomes of the rows `parse_table_rows` keeps, in table order. */
  function KeptRows(outcomes: seq<RowOutcome>): (kept: seq<RowOutcome>)
    ensures forall i :: 0 <= i < |kept| ==> kept[i].Kept?
  {
    if |outcomes| == 0 then []
    else (if outcomes[0].Kept? then [outcomes[0]] else []) + KeptRows(outcomes[1..])
  }

  /** The key `parse_table_rows` files a kept row under: its own key, or that key with a suffix. */
  ghost predicate IsKeyFor(k: string, base: string) {
    k == base || exists n: nat :: n >= 2 && k == Suffixed(base, n)
  }

  /** An entry made from a kept row. */
  ghost predicate EntryFor(entry: (string, Value), o: RowOutcome) {
    o.Kept? && IsKeyFor(entry.0, o.key) && entry.1 == o.value
  }

  /** A skipped row changes nothing; a kept row appends one entry under a fresh key. */
  lemma AddRowAppends(result: Fields, o: RowOutcome)
    requires DistinctKeys(result)
    ensures o.Skipped? ==> AddRow(result, o) == result
    ensures o.Kept? ==>
      var r := AddRow(result, o);
      && |r| == |result| + 1 && r[..|result|] == result
      && DistinctKeys(r) && EntryFor(r[|result|], o)
  {
    if o.Kept? {
      var key := FreshKey(result, o.key);
      PutFresh(result, key, o.value);
      PutDistinct(result, key, o.value);
      assert AddRow(result, o) == result + [(key, o.value)];
    }
  }

  /** Assigning a key the dict does not hold appends it. */
  lemma {:induction false} PutFresh(f: Fields, k: string, v: Value)
    requires !HasKey(f, k)
    ensures Put(f, k, v) == f + [(k, v)]
  {
    if |f| == 0 {
      assert f + [(k, v)] == [(k, v)];
    } else {
      FreshTail(f, k);
      PutFresh(f[1..], k, v);
      PutOther(f, k, v);
      ConsAppend(f, (k, v));
    }
  }

  lemma ConsAppend<T>(f: seq<T>, x: T)
    requires |f| > 0
    ensures f + [x] == [f[0]] + (f[1..] + [x])
  {
    assert f == [f[0]] + f[1..];
  }

  /** Assigning a key the first entry does not have keeps that entry in front. */
  lemma PutOther(f: Fields, k: string, v: Value)
    requires |f| > 0 && f[0].0 != k
    ensures Put(f, k, v) == [f[0]] + Put(f[1..], k, v)
  {
  }

  /** A key absent from a dict is absent from its tail and differs from its first key. */
  lemma FreshTail(f: Fields, k: string)
    requires |f| > 0 && !HasKey(f, k)
    ensures f[0].0 != k && !HasKey(f[1..], k)
  {
    assert Keys(f) == [f[0].0] + Keys(f[1..]);
  }

  /** The row loop keeps what it started with, appends one entry per kept row and never reuses a key. */
  lemma {:induction false} ParseRowsKeeps(result: Fields, outcomes: seq<RowOutcome>)
    requires DistinctKeys(result)
    ensures var r := ParseRows(result, outcomes);
      DistinctKeys(r) && |r| == |result| + |KeptRows(outcomes)| && r[..|result|] == result
    decreases |outcomes|
  {
    if |outcomes| > 0 {
      var next := AddRow(result, outcomes[0]);
      AddRowAppends(result, outcomes[0]);
      ParseRowsKeeps(next, outcomes[1..]);
      var r := ParseRows(next, outcomes[1..]);
      assert r[..|next|][..|result|] == r[..|result|];
    }
  }

  /** `es` holds one entry made from each of `kept`, in order. */
  ghost predicate EntriesFor(es: seq<(string, Value)>, kept: seq<RowOutcome>)
    decreases |es|
  {
    |es| == |kept| && (|es| > 0 ==> EntryFor(es[0], kept[0]) && EntriesFor(es[1..], kept[1..]))
  }

  lemma {:induction false} EntriesForIndex(es: seq<(string, Value)>, kept: seq<RowOutcome>)
    requires EntriesFor(es, kept)
    ensures forall i :: 0 <= i < |kept| ==> EntryFor(es[i], kept[i])
    decreases |es|
  {
    if |es| > 0 {
      EntriesForIndex(es[1..], kept[1..]);
      forall i | 0 < i < |kept| ensures EntryFor(es[i], kept[i]) {
        assert es[i] == es[1..][i - 1] && kept[i] == kept[1..][i - 1];
      }
    }
  }

  /** What the row loop appends to `result` is one entry per kept row, in order. */
  lemma {:induction false} ParseRowsEntries(result: Fields, outcomes: seq<RowOutcome>)
    requires DistinctKeys(result)
    ensures var r := ParseRows(result, outcomes);
      |result| <= |r| && EntriesFor(r[|result|..], KeptRows(outcomes))
    decreases |outcomes|
  {
    if |outcomes| > 0 {
      var next := AddRow(result, outcomes[0]);
      AddRowAppends(result, outcomes[0]);
      ParseRowsKeeps(next, outcomes[1..]);
      ParseRowsEntries(next, outcomes[1..]);
      var r := ParseRows(next, outcomes[1..]);
      var kept, rest := KeptRows(outcomes), KeptRows(outcomes[1..]);
      assert ParseRows(result, outcomes) == r;
      if outcomes[0].Kept? {
        assert kept == [outcomes[0]] + rest;
        EntriesCons(result, next, r, outcomes[0], rest);
      } else {
        assert kept == rest;
      }
    }
  }

  lemma EntriesCons(result: Fields, next: Fields, r: Fields, o: RowOutcome, rest: seq<RowOutcome>)
    requires |next| == |result| + 1 && |next| <= |r| && r[..|next|] == next
    requires EntryFor(next[|result|], o) && EntriesFor(r[|next|..], rest)
    ensures EntriesFor(r[|result|..], [o] + rest)
  {
    assert r[|result|..][0] == r[..|next|][|result|];
    assert r[|result|..][1..] == r[|next|..];
    assert ([o] + rest)[1..] == rest;
  }

  /**
   * `parse_table_rows` holds one entry per kept row, in row order, under
   * distinct keys: the row's own key or, on a collision, that key with the
   * first free suffix `_2`, `_3`, ...
   */
  lemma ParseTableRowsEntries(rows: seq<Row>)
    ensures var r := ParseTableRows(rows); var kept := KeptRows(ReadRows(rows));
      && DistinctKeys(r)
      && |r| == |kept|
      && forall i :: 0 <= i < |kept| ==> EntryFor(r[i], kept[i])
  {
    var r := ParseTableRows(rows);
    ParseRowsKeeps([], ReadRows(rows));
    ParseRowsEntries([], ReadRows(rows));
    assert r[0..] == r;
    EntriesForIndex(r, KeptRows(ReadRows(rows)));
  }

  /** A kept row with one parsable rate is stored as that number, with several as the list of them. */
  lemma RateValueShape(rates: seq<Decimal>)
    requires |rates| > 0
    ensures |rates| == 1 ==> RateValue(rates) == Num(rates[0])
    ensures |rates| > 1 ==>
      && RateValue(rates).Arr? && |RateValue(rates).items| == |rates|
      && forall i :: 0 <= i < |rates| ==> RateValue(rates).items[i] == Num(rates[i])
  {
  }

  // ------------------------------------------------------------------
  // Tables and their headings
  // ------------------------------------------------------------------

  /**
   * A table as the scraper sees it. `primary` holds the texts of the
   * h2-h5 elements before it and `secondary` those of the strong, p, span
   * and button elements before it, each nearest first and each read with
   * `get_text(separator=" ", strip=True)`; `rows` holds its rows.
   */
  datatype Table = Table(primary: seq<string>, secondary: seq<string>, rows: seq<Row>)

  /** A text `get_table_heading` accepts: between 2 and 150 characters. */
  predicate FitsHeading(text: string) {
    2 <= |text| <= 150
  }

  /** The walk back through one tag group: the nearest acceptable text, or "". */
  function FirstFitting(texts: seq<string>): (r: string)
    ensures r == [] || FitsHeading(r)
  {
    if |texts| == 0 then []
    else if FitsHeading(texts[0]) then texts[0]
    else FirstFitting(texts[1..])
  }

  /** The walk returns the first acceptable text and "" exactly when there is none. */
  lemma {:induction false} FirstFittingIsFirst(texts: seq<string>)
    ensures FirstFitting(texts) == [] <==> forall i :: 0 <= i < |texts| ==> !FitsHeading(texts[i])
    ensures FirstFitting(texts) != [] ==>
      exists i :: 0 <= i < |texts| && texts[i] == FirstFitting(texts)
        && forall j :: 0 <= j < i ==> !FitsHeading(texts[j])
  {
    if |texts| > 0 && !FitsHeading(texts[0]) {
      FirstFittingIsFirst(texts[1..]);
      assert forall i :: 0 < i < |texts| ==> texts[i] == texts[1..][i - 1];
      if FirstFitting(texts) != [] {
        var i :| 0 <= i < |texts[1..]| && texts[1..][i] == FirstFitting(texts)
          && forall j :: 0 <= j < i ==> !FitsHeading(texts[1..][j]);
        assert texts[i + 1] == FirstFitting(texts);
        assert forall j :: 0 <= j < i + 1 ==> !FitsHeading(texts[j]) by {
          forall j | 0 < j < i + 1 ensures !FitsHeading(texts[j]) {
            assert texts[j] == texts[1..][j - 1];
          }
        }
      }
    }
  }

  /** `get_table_heading`: the nearest acceptable h2-h5 text, else the nearest acceptable other one, else "". */
  function GetTableHeading(t: Table): (r: string)
    ensures r == [] || FitsHeading(r)
  {
    var h := FirstFitting(t.primary);
    if |h| > 0 then h else FirstFitting(t.secondary)
  }

  /** A heading from the first group wins; the second group is read only when the first has none. */
  lemma GetTableHeadingPriority(t: Table)
    ensures (exists i :: 0 <= i < |t.primary| && FitsHeading(t.primary[i])) ==>
      GetTableHeading(t) in t.primary
    ensures (forall i :: 0 <= i < |t.primary| ==> !FitsHeading(t.primary[i])) ==>
      GetTableHeading(t) == FirstFitting(t.secondary)
    ensures GetTableHeading(t) == [] <==>
      (forall i :: 0 <= i < |t.primary| ==> !FitsHeading(t.primary[i]))
      && (forall i :: 0 <= i < |t.secondary| ==> !FitsHeading(t.secondary[i]))
  {
    FirstFittingIsFirst(t.primary);
    FirstFittingIsFirst(t.secondary);
  }

  // ------------------------------------------------------------------
  // Sorting tables by their headings
  // ------------------------------------------------------------------

  /** The patterns of the keyword maps: literal text, or `before\s*after`. */
  datatype Pattern = Literal(text: string) | Spaced(before: string, after: string)

  /** `before\s*after` matches at `i`: `before`, then the whitespace run, then `after`. */
  predicate SpacedAt(h: string, before: string, after: string, i: nat) {
    OccursAt(h, before, i) && OccursAt(h, after, RunEnd(h, i + |before|, Space))
  }

  /** `re.search(pattern, heading) is not None`. */
  predicate PatternOccurs(h: string, p: Pattern) {
    match p
    case Literal(x) => Contains(h, x)
    case Spaced(a, b) => exists i: nat :: i <= |h| && SpacedAt(h, a, b, i)
  }

  /**
   * Reading the whitespace greedily loses no match when `after` does not
   * start with whitespace: `before\s*after` matches at `i` exactly when
   * some whitespace stretch joins the two there.
   */
  lemma SpacedAtExact(h: string, before: string, after: string, i: nat)
    requires |after| > 0 && !IsSpace(after[0])
    ensures SpacedAt(h, before, after, i) <==>
      exists j :: i + |before| <= j <= |h| && OccursAt(h, before, i)
        && AllIn(h[i + |before|..j], Space) && OccursAt(h, after, j)
  {
    if OccursAt(h, before, i) {
      var e := RunEnd(h, i + |before|, Space);
      RunEndSpec(h, i + |before|, Space);
      forall j | i + |before| <= j <= |h| && AllIn(h[i + |before|..j], Space) && OccursAt(h, after, j)
        ensures j == e
      {
        assert h[j] == after[0];
        RunEndAt(h, i + |before|, j, Space);
      }
    }
  }

  /** `all(re.search(p, heading) for p in group)`. */
  predicate GroupMatches(h: string, group: seq<Pattern>) {
    forall p :: p in group ==> PatternOccurs(h, p)
  }

  /** Some group of the key matches. */
  predicate KeyMatches(h: string, groups: seq<seq<Pattern>>) {
    exists g :: g in groups && GroupMatches(h, g)
  }

  /** A keyword map: section names, in order, each with its keyword groups. */
  type KeywordMap = seq<(string, seq<seq<Pattern>>)>

  /** The first key from `j` on whose groups match the heading. */
  function ClassifyFrom(h: string, keywords: KeywordMap, j: nat): (r: Option<nat>)
    requires j <= |keywords|
    decreases |keywords| - j
    ensures r.Some? ==> j <= r.value < |keywords| && KeyMatches(h, keywords[r.value].1)
    ensures r.Some? ==> forall k :: j <= k < r.value ==> !KeyMatches(h, keywords[k].1)
    ensures r.None? ==> forall k :: j <= k < |keywords| ==> !KeyMatches(h, keywords[k].1)
  {
    if j == |keywords| then None
    else if KeyMatches(h, keywords[j].1) then Some(j)
    else ClassifyFrom(h, keywords, j + 1)
  }

  /** The section a table goes to: none for an empty heading, else the first key that matches its lower-cased heading. */
  function TableSection(t: Table, keywords: KeywordMap): (r: Option<nat>)
    ensures r.Some? ==> r.value < |keywords|
  {
    var heading := GetTableHeading(t);
    if |heading| == 0 then None else ClassifyFrom(Lower(heading), keywords, 0)
  }

  /** The grouping `extract_tables_by_keywords` starts from: every key, no tables. */
  function NoTables(keywords: KeywordMap): (g: seq<(string, seq<Table>)>)
    ensures |g| == |keywords|
    ensures forall j :: 0 <= j < |g| ==> g[j] == (keywords[j].0, [])
  {
    seq(|keywords|, j requires 0 <= j < |keywords| => (keywords[j].0, []))
  }

  /** The section of each table, in document order. */
  function Placements(tables: seq<Table>, keywords: KeywordMap): (p: seq<Option<nat>>)
    ensures |p| == |tables|
    ensures forall i :: 0 <= i < |p| && p[i].Some? ==> p[i].value < |keywords|
  {
    if |tables| == 0 then [] else [TableSection(tables[0], keywords)] + Placements(tables[1..], keywords)
  }

  /** One iteration of the table loop: the table joins the end of its section, if it has one. */
  function FileTable(grouped: seq<(string, seq<Table>)>, t: Table, place: Option<nat>): (r: seq<(string, seq<Table>)>)
    requires place.Some? ==> place.value < |grouped|
    ensures |r| == |grouped|
  {
    match place
    case None => grouped
    case Some(j) => grouped[j := (grouped[j].0, grouped[j].1 + [t])]
  }

  function FileTables(grouped: seq<(string, seq<Table>)>, tables: seq<Table>, places: seq<Option<nat>>): (r: seq<(string, seq<Table>)>)
    requires |places| == |tables|
    requires forall i :: 0 <= i < |places| && places[i].Some? ==> places[i].value < |grouped|
    ensures |r| == |grouped|
    decreases |tables|
  {
    if |tables| == 0 then grouped
    else FileTables(FileTable(grouped, tables[0], places[0]), tables[1..], places[1..])
  }

  /** `extract_tables_by_keywords`. */
  function ExtractTablesByKeywords(tables: seq<Table>, keywords: KeywordMap): (r: seq<(string, seq<Table>)>)
    ensures |r| == |keywords|
  {
    FileTables(NoTables(keywords), tables, Placements(tables, keywords))
  }

  /** The tables placed in section `j`, in order. */
  function Placed(tables: seq<Table>, places: seq<Option<nat>>, j: nat): seq<Table>
    requires |places| == |tables|
    decreases |tables|
  {
    if |tables| == 0 then []
    else (if places[0] == Some(j) then [tables[0]] else []) + Placed(tables[1..], places[1..], j)
  }

  /** The tables, in document order, whose section is key `j`. */
  function Section(tables: seq<Table>, keywords: KeywordMap, j: nat): seq<Table> {
    if |tables| == 0 then []
    else (if TableSection(tables[0], keywords) == Some(j) then [tables[0]] else []) + Section(tables[1..], keywords, j)
  }

  lemma FileTableAt(grouped: seq<(string, seq<Table>)>, t: Table, place: Option<nat>, j: nat)
    requires place.Some? ==> place.value < |grouped|
    requires j < |grouped|
    ensures FileTable(grouped, t, place)[j] == (grouped[j].0, grouped[j].1 + (if place == Some(j) then [t] else []))
  {
    if place.Some? && place.value != j {
      assert FileTable(grouped, t, place)[j] == grouped[j];
      assert grouped[j].1 + [] == grouped[j].1;
    } else if place.None? {
      assert grouped[j].1 + [] == grouped[j].1;
    }
  }

  lemma PlacedCons(tables: seq<Table>, places: seq<Option<nat>>, j: nat, before: seq<Table>)
    requires |places| == |tables| > 0
    ensures before + (if places[0] == Some(j) then [tables[0]] else []) + Placed(tables[1..], places[1..], j)
      == before + Placed(tables, places, j)
  {
  }

  lemma {:induction false} FileTablesAt(grouped: seq<(string, seq<Table>)>, tables: seq<Table>, places: seq<Option<nat>>, j: nat)
    requires |places| == |tables|
    requires forall i :: 0 <= i < |places| && places[i].Some? ==> places[i].value < |grouped|
    requires j < |grouped|
    ensures FileTables(grouped, tables, places)[j] == (grouped[j].0, grouped[j].1 + Placed(tables, places, j))
    decreases |tables|
  {
    if |tables| > 0 {
      var next := FileTable(grouped, tables[0], places[0]);
      FileTableAt(grouped, tables[0], places[0], j);
      assert forall i :: 0 <= i < |places[1..]| && places[1..][i].Some? ==> places[1..][i].value < |next| by {
        forall i | 0 <= i < |places[1..]| && places[1..][i].Some? ensures places[1..][i].value < |next| {
          assert places[1..][i] == places[i + 1];
        }
      }
      FileTablesAt(next, tables[1..], places[1..], j);
      PlacedCons(tables, places, j, grouped[j].1);
    } else {
      assert grouped[j].1 + [] == grouped[j].1;
    }
  }

  /** Filing by precomputed sections is filing by each table's own section. */
  lemma {:induction false} PlacedSection(tables: seq<Table>, keywords: KeywordMap, j: nat)
    ensures Placed(tables, Placements(tables, keywords), j) == Section(tables, keywords, j)
    decreases |tables|
  {
    if |tables| > 0 {
      PlacedSection(tables[1..], keywords, j);
      assert Placements(tables, keywords)[1..] == Placements(tables[1..], keywords);
    }
  }

  /**
   * `extract_tables_by_keywords` has exactly the keys of the map, in its
   * order, and under key `j` the tables, in document order, with a
   * non-empty heading whose first matching key is `j`.
   */
  lemma ExtractTablesByKeywordsSections(tables: seq<Table>, keywords: KeywordMap)
    ensures var r := ExtractTablesByKeywords(tables, keywords);
      forall j :: 0 <= j < |keywords| ==> r[j] == (keywords[j].0, Section(tables, keywords, j))
  {
    forall j | 0 <= j < |keywords|
      ensures ExtractTablesByKeywords(tables, keywords)[j] == (keywords[j].0, Section(tables, keywords, j))
    {
      FileTablesAt(NoTables(keywords), tables, Placements(tables, keywords), j);
      PlacedSection(tables, keywords, j);
      assert NoTables(keywords)[j].1 + Section(tables, keywords, j) == Section(tables, keywords, j);
    }
  }

  /** A key that never matches before an earlier one does receives no table. */
  lemma {:induction false} SectionEmpty(tables: seq<Table>, keywords: KeywordMap, j: nat)
    requires forall t :: TableSection(t, keywords) != Some(j)
    ensures Section(tables, keywords, j) == []
    decreases |tables|
  {
    if |tables| > 0 {
      SectionEmpty(tables[1..], keywords, j);
    }
  }

  // ------------------------------------------------------------------
  // Merging parsed tables
  // ------------------------------------------------------------------

  /** The inner loop of `merge_table_data`: each key of `parsed` not yet present is added. */
  function MergeNew(combined: Fields, parsed: Fields): Fields
    decreases |parsed|
  {
    if |parsed| == 0 then combined
    else MergeNew(SetDefault(combined, parsed[0].0, parsed[0].1), parsed[1..])
  }

  function MergeAll(combined: Fields, parsed: seq<Fields>): Fields
    decreases |parsed|
  {
    if |parsed| == 0 then combined else MergeAll(MergeNew(combined, parsed[0]), parsed[1..])
  }

  function ParsedTables(tables: seq<Table>): (ps: seq<Fields>)
    ensures |ps| == |tables|
    ensures forall i :: 0 <= i < |tables| ==> ps[i] == ParseTableRows(tables[i].rows)
  {
    seq(|tables|, i requires 0 <= i < |tables| => ParseTableRows(tables[i].rows))
  }

  /** `merge_table_data`. */
  function MergeTableData(tables: seq<Table>): Fields {
    MergeAll([], ParsedTables(tables))
  }

  /** The value of `k` in the first of `ps` that has it. */
  function FirstLookup(ps: seq<Fields>, k: string): (r: Option<Value>)
    ensures r.Some? <==> exists i :: 0 <= i < |ps| && HasKey(ps[i], k)
  {
    if |ps| == 0 then None
    else if HasKey(ps[0], k) then Lookup(ps[0], k)
    else
      var r := FirstLookup(ps[1..], k);
      assert (exists i :: 0 <= i < |ps| && HasKey(ps[i], k)) ==> exists i :: 0 <= i < |ps[1..]| && HasKey(ps[1..][i], k) by {
        if exists i :: 0 <= i < |ps| && HasKey(ps[i], k) {
          var i :| 0 <= i < |ps| && HasKey(ps[i], k);
          assert ps[1..][i - 1] == ps[i];
        }
      }
      r
  }


  lemma {:induction false} MergeNewLookup(combined: Fields, parsed: Fields, k: string)
    requires DistinctKeys(combined)
    ensures DistinctKeys(MergeNew(combined, parsed))
    ensures Lookup(MergeNew(combined, parsed), k) == if HasKey(combined, k) then Lookup(combined, k) else Lookup(parsed, k)
    decreases |parsed|
  {
    if |parsed| > 0 {
      var next := SetDefault(combined, parsed[0].0, parsed[0].1);
      SetDefaultLookup(combined, parsed[0].0, parsed[0].1, k);
      MergeNewLookup(next, parsed[1..], k);
      assert Keys(parsed) == [parsed[0].0] + Keys(parsed[1..]);
      if !HasKey(combined, k) && parsed[0].0 == k {
        assert HasKey(next, k);
      }
    }
  }

  lemma {:induction false} MergeAllLookup(combined: Fields, parsed: seq<Fields>, k: string)
    requires DistinctKeys(combined)
    ensures DistinctKeys(MergeAll(combined, parsed))
    ensures Lookup(MergeAll(combined, parsed), k) == if HasKey(combined, k) then Lookup(combined, k) else FirstLookup(parsed, k)
    decreases |parsed|
  {
    if |parsed| > 0 {
      var next := MergeNew(combined, parsed[0]);
      MergeNewLookup(combined, parsed[0], k);
      MergeAllLookup(next, parsed[1..], k);
    }
  }

  /**
   * `merge_table_data` holds every key of every table once, and a key
   * keeps the value of the first table (in document order) that has it.
   */
  lemma MergeTableDataFirstWins(tables: seq<Table>, k: string)
    ensures DistinctKeys(MergeTableData(tables))
    ensures Lookup(MergeTableData(tables), k) == FirstLookup(ParsedTables(tables), k)
  {
    MergeAllLookup([], ParsedTables(tables), k);
  }

  /** The loop `for table in tables: d.update(parse_table_rows(table))` after the given tables. */
  function UpdateAll(combined: Fields, parsed: seq<Fields>): Fields
    decreases |parsed|
  {
    if |parsed| == 0 then combined else Update(UpdateAll(combined, parsed[..|parsed| - 1]), parsed[|parsed| - 1])
  }

  /** The value of `k` in the last of `ps` that has it. */
  function LastLookup(ps: seq<Fields>, k: string): Option<Value>
    decreases |ps|
  {
    if |ps| == 0 then None
    else if HasKey(ps[|ps| - 1], k) then Lookup(ps[|ps| - 1], k)
    else LastLookup(ps[..|ps| - 1], k)
  }

  /** With `update`, the last table that has a key decides its value; keys no table has keep theirs. */
  lemma {:induction false} UpdateAllLastWins(combined: Fields, parsed: seq<Fields>, k: string)
    requires DistinctKeys(combined)
    requires forall i :: 0 <= i < |parsed| ==> DistinctKeys(parsed[i])
    ensures DistinctKeys(UpdateAll(combined, parsed))
    ensures Lookup(UpdateAll(combined, parsed), k)
      == if LastLookup(parsed, k).Some? then LastLookup(parsed, k) else Lookup(combined, k)
    decreases |parsed|
  {
    if |parsed| > 0 {
      var init, last := parsed[..|parsed| - 1], parsed[|parsed| - 1];
      var before := UpdateAll(combined, init);
      UpdateAllLastWins(combined, init, k);
      UpdateDistinct(before, last);
      UpdateLookup(before, last, k);
    }
  }

  // ------------------------------------------------------------------
  // Deposits and loans
  // ------------------------------------------------------------------

  /** The deposit keyword map, in the order the scraper lists it. */
  function DepositKeywords(): KeywordMap {
    [
      ("veltureikningar", [[Literal("veltureik")]]),
      ("spar_indexed", [[Literal("sparireik"), Literal("verðtrygg")]]),
      ("spar_unindexed", [[Literal("sparireik"), Literal("óverðtrygg")]]),
      ("spar_general", [[Literal("sparireik")]]),
      ("foreign_currency", [[Literal("gjaldmiðl")], [Literal("gjaldeyr")]])
    ]
  }

  /** The loan keyword map, in the order the scraper lists it. */
  function LoanKeywords(): KeywordMap {
    [
      ("mortgages_indexed", [[Literal("íbúðalán"), Literal("verðtrygg")], [Literal("verðtrygg"), Literal("fasteignalán")]]),
      ("mortgages_unindexed", [[Literal("íbúðalán"), Literal("óverðtrygg")], [Literal("óverðtrygg"), Literal("fasteignalán")]]),
      ("mortgages_generic", [[Literal("íbúðalán")]]),
      ("overdrafts", [[Literal("yfirdrátt")]]),
      ("credit_cards", [[Literal("kort")], [Literal("kredit")]]),
      ("vehicle_loans", [[Literal("ökutæki")], [Literal("bíla")], [Literal("bifreið")], [Literal("bílalán")], [Spaced("bíla", "fjár")]])
    ]
  }

  /** `merge_table_data` of a bucket, guarded by `if tables.get(name):`. */
  function MergeBucket(bucket: seq<Table>): Fields {
    if |bucket| > 0 then MergeTableData(bucket) else []
  }

  /** `parse_deposits`. */
  function ParseDeposits(tables: seq<Table>): (r: Fields)
    ensures Keys(r) == ["veltureikningar", "sparireikningar", "foreign_currency"]
  {
    var g := ExtractTablesByKeywords(tables, DepositKeywords());
    var indexed := MergeBucket(g[1].1);
    var unindexed := MergeBucket(g[2].1);
    var other := if |g[3].1| > 0 && |indexed| == 0 && |unindexed| == 0 then MergeTableData(g[3].1) else [];
    [("veltureikningar", Obj(MergeBucket(g[0].1))),
     ("sparireikningar", Obj([("indexed", Obj(indexed)), ("unindexed", Obj(unindexed)), ("other", Obj(other))])),
     ("foreign_currency", Obj(MergeBucket(g[4].1)))]
  }

  /** "óverðtrygg" holds "verðtrygg". */
  lemma UnindexedHoldsIndexed()
    ensures Contains("óverðtrygg", "verðtrygg")
  {
    assert OccursAt("óverðtrygg", "verðtrygg", 1);
  }

  /** A heading holding "óverðtrygg" also holds "verðtrygg". */
  lemma UnindexedHeading(h: string)
    requires Contains(h, "óverðtrygg")
    ensures Contains(h, "verðtrygg")
  {
    UnindexedHoldsIndexed();
    ContainsTransitive(h, "óverðtrygg", "verðtrygg");
  }

  /** A heading the unindexed savings key matches is matched by the indexed one too. */
  lemma SparUnindexedImpliesIndexed(h: string)
    requires KeyMatches(h, DepositKeywords()[2].1)
    ensures KeyMatches(h, DepositKeywords()[1].1)
  {
    var grp :| grp in DepositKeywords()[2].1 && GroupMatches(h, grp);
    assert PatternOccurs(h, grp[0]) && PatternOccurs(h, grp[1]);
    UnindexedHeading(h);
    assert GroupMatches(h, DepositKeywords()[1].1[0]);
  }

  /**
   * Every heading the unindexed savings key matches is matched first by
   * the indexed one, so no table is ever filed as unindexed savings.
   */
  lemma SparUnindexedNeverChosen(t: Table)
    ensures TableSection(t, DepositKeywords()) != Some(2)
  {
    var heading := GetTableHeading(t);
    var h := Lower(heading);
    if |heading| > 0 && KeyMatches(h, DepositKeywords()[2].1) {
      SparUnindexedImpliesIndexed(h);
    }
  }

  /** Whatever the page holds, the unindexed savings rates come out empty. */
  lemma ParseDepositsUnindexedEmpty(tables: seq<Table>)
    ensures ParseDeposits(tables)[1].1 == Obj([("indexed", ParseDeposits(tables)[1].1.fields[0].1),
                                              ("unindexed", Obj([])),
                                              ("other", ParseDeposits(tables)[1].1.fields[2].1)])
  {
    forall t ensures TableSection(t, DepositKeywords()) != Some(2) {
      SparUnindexedNeverChosen(t);
    }
    SectionEmpty(tables, DepositKeywords(), 2);
    ExtractTablesByKeywordsSections(tables, DepositKeywords());
  }

  /**
   * The general savings tables are used exactly when some exist and the
   * indexed ones gave no rates; otherwise "other" stays empty.
   */
  lemma ParseDepositsOther(tables: seq<Table>)
    ensures var g := ExtractTablesByKeywords(tables, DepositKeywords());
      var spar := ParseDeposits(tables)[1].1.fields;
      spar[2].1 == Obj(if |g[3].1| > 0 && spar[0].1 == Obj([]) then MergeTableData(g[3].1) else [])
  {
    ParseDepositsUnindexedEmpty(tables);
  }

  /**
   * The mortgage tables whose heading names only "íbúðalán" fill the
   * unindexed mortgages, after any unindexed ones, when the indexed ones
   * gave no rates.
   */
  function ParseMortgages(g: seq<(string, seq<Table>)>): (r: Fields)
    requires |g| >= 3
    ensures Keys(r) == ["indexed", "unindexed"]
  {
    var indexed := UpdateAll([], ParsedTables(g[0].1));
    var unindexed := UpdateAll([], ParsedTables(g[1].1));
    var generic := if |indexed| == 0 && |g[2].1| > 0 then ParsedTables(g[2].1) else [];
    [("indexed", Obj(indexed)), ("unindexed", Obj(UpdateAll(unindexed, generic)))]
  }

  /** The dict `parse_loans` returns, from its five values. */
  function LoanFields(mortgages: Fields, overdrafts: Fields, cards: Fields, vehicles: Fields, penalty: Option<Decimal>): (r: Fields)
    ensures Keys(r) == ["mortgages", "overdrafts", "credit_cards", "vehicle_loans", "penalty_interest"]
    ensures r[0].1 == Obj(mortgages) && r[1].1 == Obj(overdrafts) && r[2].1 == Obj(cards)
    ensures r[3].1 == Obj(vehicles) && r[4].1 == OfRate(penalty)
  {
    [("mortgages", Obj(mortgages)), ("overdrafts", Obj(overdrafts)), ("credit_cards", Obj(cards)),
     ("vehicle_loans", Obj(vehicles)), ("penalty_interest", OfRate(penalty))]
  }

  /** `parse_loans`, given what `parse_penalty_interest` returns. */
  function ParseLoans(tables: seq<Table>, penalty: Option<Decimal>): (r: Fields)
    ensures |r| == 5
  {
    var g := ExtractTablesByKeywords(tables, LoanKeywords());
    LoanFields(ParseMortgages(g), MergeBucket(g[3].1), MergeBucket(g[4].1), MergeBucket(g[5].1), penalty)
  }

  /** A heading the unindexed mortgage key matches is matched by the indexed one too. */
  lemma MortgagesUnindexedImpliesIndexed(h: string)
    requires KeyMatches(h, LoanKeywords()[1].1)
    ensures KeyMatches(h, LoanKeywords()[0].1)
  {
    var grp :| grp in LoanKeywords()[1].1 && GroupMatches(h, grp);
    assert PatternOccurs(h, grp[0]) && PatternOccurs(h, grp[1]);
    UnindexedHeading(h);
    if grp == LoanKeywords()[1].1[0] {
      assert GroupMatches(h, LoanKeywords()[0].1[0]);
    } else {
      assert GroupMatches(h, LoanKeywords()[0].1[1]);
    }
  }

  /** Every heading the unindexed mortgage key matches is matched first by the indexed one. */
  lemma MortgagesUnindexedNeverChosen(t: Table)
    ensures TableSection(t, LoanKeywords()) != Some(1)
  {
    var heading := GetTableHeading(t);
    var h := Lower(heading);
    if |heading| > 0 && KeyMatches(h, LoanKeywords()[1].1) {
      MortgagesUnindexedImpliesIndexed(h);
    }
  }

  /** The indexed mortgage rates are the rows of the indexed tables, the later table winning a shared key. */
  lemma ParseLoansIndexed(tables: seq<Table>, penalty: Option<Decimal>, k: string)
    ensures var m := ParseLoans(tables, penalty)[0].1.fields;
      DistinctKeys(m[0].1.fields)
      && Lookup(m[0].1.fields, k) == LastLookup(ParsedTables(Section(tables, LoanKeywords(), 0)), k)
  {
    var g := ExtractTablesByKeywords(tables, LoanKeywords());
    ExtractTablesByKeywordsSections(tables, LoanKeywords());
    ParsedTablesDistinct(g[0].1);
    UpdateAllLastWins([], ParsedTables(g[0].1), k);
  }

  /**
   * With no indexed mortgage rates, the unindexed ones are the rows of the
   * generic mortgage tables (the unindexed key never receives a table),
   * the later table winning a shared key.
   */
  lemma ParseLoansUnindexed(tables: seq<Table>, penalty: Option<Decimal>, k: string)
    requires ParseLoans(tables, penalty)[0].1.fields[0].1 == Obj([])
    ensures var m := ParseLoans(tables, penalty)[0].1.fields;
      Lookup(m[1].1.fields, k) == LastLookup(ParsedTables(Section(tables, LoanKeywords(), 2)), k)
  {
    var g := ExtractTablesByKeywords(tables, LoanKeywords());
    ExtractTablesByKeywordsSections(tables, LoanKeywords());
    forall t ensures TableSection(t, LoanKeywords()) != Some(1) {
      MortgagesUnindexedNeverChosen(t);
    }
    SectionEmpty(tables, LoanKeywords(), 1);
    assert UpdateAll([], ParsedTables(g[1].1)) == [];
    ParsedTablesDistinct(g[2].1);
    UpdateAllLastWins([], ParsedTables(g[2].1), k);
  }

  /** Each parsed table has distinct keys. */
  lemma ParsedTablesDistinct(tables: seq<Table>)
    ensures forall i :: 0 <= i < |tables| ==> DistinctKeys(ParsedTables(tables)[i])
  {
    forall i | 0 <= i < |tables| ensures DistinctKeys(ParsedTables(tables)[i]) {
      ParseTableRowsEntries(tables[i].rows);
    }
  }

  // ------------------------------------------------------------------
  // Penalty interest
  // ------------------------------------------------------------------

  /** The last present value of `xs`. */
  function LastSome<T>(xs: seq<Option<T>>): Option<T>
    decreases |xs|
  {
    if |xs| == 0 then None
    else if xs[|xs| - 1].Some? then xs[|xs| - 1]
    else LastSome(xs[..|xs| - 1])
  }

  /** `LastSome` gives the value at the last present index, and nothing when no value is present. */
  lemma {:induction false} LastSomeSpec<T>(xs: seq<Option<T>>)
    ensures LastSome(xs).None? <==> forall i :: 0 <= i < |xs| ==> xs[i].None?
    ensures LastSome(xs).Some? ==>
      exists i :: (0 <= i < |xs| && xs[i] == LastSome(xs) && forall j :: i < j < |xs| ==> xs[j].None?)
    decreases |xs|
  {
    if |xs| > 0 {
      var n := |xs| - 1;
      if xs[n].Some? {
        assert xs[n] == LastSome(xs);
      } else {
        var init := xs[..n];
        assert LastSome(xs) == LastSome(init);
        LastSomeSpec(init);
        assert forall i :: 0 <= i < n ==> init[i] == xs[i];
        if LastSome(init).Some? {
          var i :| 0 <= i < n && init[i] == LastSome(init) && forall j :: i < j < n ==> init[j].None?;
          assert xs[i] == LastSome(xs);
        }
      }
    }
  }

  /** The percentage each cell of a row parses to. */
  function CellRates(cells: Row): (rs: seq<Option<Decimal>>)
    ensures |rs| == |cells|
    ensures forall i :: 0 <= i < |cells| ==> rs[i] == ParsePercentage(cells[i])
  {
    seq(|cells|, i requires 0 <= i < |cells| => ParsePercentage(cells[i]))
  }

  /** The loop over `reversed(cells)`: the parse of the last cell that parses as a percentage. */
  function LastRate(cells: Row): Option<Decimal> {
    LastSome(CellRates(cells))
  }

  /** The rate read from a row is its last parsable cell's, and none when no cell parses. */
  lemma LastRateSpec(cells: Row)
    ensures LastRate(cells).None? <==> forall i :: 0 <= i < |cells| ==> ParsePercentage(cells[i]).None?
    ensures LastRate(cells).Some? ==>
      exists i :: (0 <= i < |cells| && ParsePercentage(cells[i]) == LastRate(cells)
        && forall j :: i < j < |cells| ==> ParsePercentage(cells[j]).None?)
  {
    LastSomeSpec(CellRates(cells));
  }

  /** The groups of `dráttarvextir[^0-9]*(\d+[.,]\d+)\s*%`: the digits, the separator, the decimals. */
  datatype PenaltyMatch = PenaltyMatch(whole: string, sep: char, frac: string) {
    /** `match.group(1)`. */
    function Group(): string {
      whole + [sep] + frac
    }

    /** What the pattern guarantees of the groups. */
    predicate Valid() {
      |whole| > 0 && AllDigits(whole) && |frac| > 0 && AllDigits(frac) && (sep == '.' || sep == ',')
    }

    /** The number the group spells. */
    function Value(): Decimal
      requires Valid()
    {
      Decimal(DigitsValue(whole + frac), |frac|)
    }
  }

  const PenaltyWord := "dráttarvextir"

  /**
   * The penalty pattern anchored at `p`. Each greedy part is followed by
   * a character its class excludes, so backing off never helps: the
   * non-digit run stops at the first digit, the digit runs stop at a
   * non-digit, and the whitespace run stops at the '%'.
   */
  function PenaltyAt(s: string, p: nat): (r: Option<PenaltyMatch>)
    ensures r.Some? ==> r.value.Valid()
  {
    if !OccursAt(s, PenaltyWord, p) then None
    else
      var k := RunEnd(s, p + |PenaltyWord|, NonDigit);
      var m := RunEnd(s, k, Digit);
      if m == k || m == |s| || (s[m] != '.' && s[m] != ',') then None
      else
        var n := RunEnd(s, m + 1, Digit);
        var w := RunEnd(s, n, Space);
        if n == m + 1 || w == |s| || s[w] != '%' then None
        else
          DigitRun(s, k);
          DigitRun(s, m + 1);
          Some(PenaltyMatch(s[k..m], s[m], s[m + 1..n]))
  }

  /** A match of the penalty pattern at `p` cut at `k` (first digit), `m` (separator), `n` (end of decimals), `w` ('%'). */
  predicate PenaltyLayout(s: string, p: nat, k: nat, m: nat, n: nat, w: nat) {
    && OccursAt(s, PenaltyWord, p) && p + |PenaltyWord| <= k < m < n - 1 && n <= w < |s|
    && AllIn(s[p + |PenaltyWord|..k], NonDigit) && AllIn(s[k..m], Digit)
    && (s[m] == '.' || s[m] == ',') && AllIn(s[m + 1..n], Digit)
    && AllIn(s[n..w], Space) && s[w] == '%'
  }

  /** The scanner finds the match the pattern has at `p`, whatever cut points that match uses. */
  lemma PenaltyAtComplete(s: string, p: nat, k: nat, m: nat, n: nat, w: nat)
    requires PenaltyLayout(s, p, k, m, n, w)
    ensures PenaltyAt(s, p) == Some(PenaltyMatch(s[k..m], s[m], s[m + 1..n]))
  {
    PenaltyCuts(s, p, k, m, n, w);
  }

  /** Each run of the penalty scanner ends at the matching cut point. */
  lemma PenaltyCuts(s: string, p: nat, k: nat, m: nat, n: nat, w: nat)
    requires PenaltyLayout(s, p, k, m, n, w)
    ensures RunEnd(s, p + |PenaltyWord|, NonDigit) == k && RunEnd(s, k, Digit) == m
    ensures RunEnd(s, m + 1, Digit) == n && RunEnd(s, n, Space) == w
  {
    assert IsDigit(s[k]) by { assert s[k] == s[k..m][0]; }
    RunEndAt(s, p + |PenaltyWord|, k, NonDigit);
    RunEndAt(s, k, m, Digit);
    assert !IsDigit(s[n]) by {
      if n < w { assert s[n] == s[n..w][0]; }
    }
    RunEndAt(s, m + 1, n, Digit);
    RunEndAt(s, n, w, Space);
  }

  /** Every match the scanner reports is a match of the pattern. */
  lemma PenaltyAtSound(s: string, p: nat)
    requires PenaltyAt(s, p).Some?
    ensures exists k: nat, m: nat, n: nat, w: nat :: (PenaltyLayout(s, p, k, m, n, w)
      && PenaltyAt(s, p) == Some(PenaltyMatch(s[k..m], s[m], s[m + 1..n])))
  {
    var k := RunEnd(s, p + |PenaltyWord|, NonDigit);
    var m := RunEnd(s, k, Digit);
    var n := RunEnd(s, m + 1, Digit);
    var w := RunEnd(s, n, Space);
    RunEndSpec(s, p + |PenaltyWord|, NonDigit);
    RunEndSpec(s, k, Digit);
    RunEndSpec(s, m + 1, Digit);
    RunEndSpec(s, n, Space);
    assert PenaltyAt(s, p) == Some(PenaltyMatch(s[k..m], s[m], s[m + 1..n]));
    assert PenaltyLayout(s, p, k, m, n, w);
  }

  /** The cleaned group is `whole.frac`. */
  lemma CleanGroup(g: PenaltyMatch)
    requires g.Valid()
    ensures CleanPercentage(g.Group()) == g.whole + "." + g.frac
  {
    assert '%' !in g.Group() by {
      assert forall c :: c in g.Group() ==> c in g.whole || c == g.sep || c in g.frac;
    }
    assert RemoveChar(g.Group(), '%') == g.Group();
    PointedGroup(g.whole, g.sep, g.frac);
    PointedNoSpace(g.whole, g.frac);
  }

  /** `parse_percentage(match.group(1))` reads the captured numeral exactly. */
  lemma GroupReadBack(g: PenaltyMatch)
    requires g.Valid()
    ensures ParsePercentage(g.Group()) == Some(g.Value())
  {
    CleanGroup(g);
    var pointed := g.whole + "." + g.frac;
    ParseUnsignedPointed(g.whole, g.frac);
    assert SplitSign(pointed) == (false, pointed);
  }

  /**
   * `parse_penalty_interest`: the row around the first text node that
   * mentions "Dráttarvextir" (when there is one inside a table row) gives
   * its last parsable cell; otherwise the first match of the penalty
   * pattern in the page text, searched case-insensitively.
   */
  function ParsePenaltyInterest(row: Option<Row>, strippedText: string): (r: Option<Decimal>)
  {
    var fromRow := if row.Some? then LastRate(row.value) else None;
    if fromRow.Some? then fromRow
    else match FirstMatch(PenaltyAt, Lower(strippedText))
      case None => None
      case Some((_, g)) => ParsePercentage(g.Group())
  }

  /**
   * When the row gives nothing, the penalty rate is the number of the
   * first match in the text, read exactly; with no match it is `None`.
   */
  lemma ParsePenaltyInterestFromText(row: Option<Row>, strippedText: string)
    requires row.None? || LastRate(row.value).None?
    ensures var found := FirstMatch(PenaltyAt, Lower(strippedText));
      && (found.None? ==> ParsePenaltyInterest(row, strippedText).None?)
      && (found.Some? ==> ParsePenaltyInterest(row, strippedText) == Some(found.value.1.Value()))
  {
    var found := FirstMatch(PenaltyAt, Lower(strippedText));
    if found.Some? {
      GroupReadBack(found.value.1);
    }
  }

  // ------------------------------------------------------------------
  // Effective date
  // ------------------------------------------------------------------

  /** Where `gildir|tekur\s+gildi` ends when it matches at `p`. */
  function KeywordEnd(s: string, p: nat): (r: Option<nat>)
    ensures r.Some? ==> r.value <= |s|
  {
    if OccursAt(s, "gildir", p) then Some(p + 6)
    else if OccursAt(s, "tekur", p) then
      var g := RunEnd(s, p + 5, Space);
      if g > p + 5 && OccursAt(s, "gildi", g) then Some(g + 5) else None
    else None
  }

  /**
   * Where the date starts after `\s+(?:frá\s+)?` read from `e`. The
   * whitespace runs are read greedily: a date starts with a digit, which
   * is neither whitespace nor the 'f' of "frá".
   */
  function DateStart(s: string, e: nat): (r: Option<nat>)
    requires e <= |s|
    ensures r.Some? ==> r.value <= |s|
  {
    var s1 := RunEnd(s, e, Space);
    if s1 == e then None
    else if OccursAt(s, "frá", s1) && RunEnd(s, s1 + 3, Space) > s1 + 3 then Some(RunEnd(s, s1 + 3, Space))
    else Some(s1)
  }

  /** `(?:gildir|tekur\s+gildi)\s+(?:frá\s+)?(\d{1,2})\.\s*(\w+)\s+(\d{4})` anchored at `p`. */
  function GildirAt(s: string, p: nat): (r: Option<DateFields>)
  {
    match KeywordEnd(s, p)
    case None => None
    case Some(e) =>
      match DateStart(s, e)
      case None => None
      case Some(d) => ScanDateAt(s, d)
  }

  /** The keyword read as the pattern reads it: "gildir", or "tekur", whitespace up to `g`, "gildi"; it ends at `e`. */
  predicate KeywordLayout(s: string, p: nat, g: nat, e: nat) {
    || (OccursAt(s, "gildir", p) && e == p + 6)
    || (OccursAt(s, "tekur", p) && p + 5 < g && OccursAt(s, "gildi", g) && AllIn(s[p + 5..g], Space) && e == g + 5)
  }

  /** The gap read as the pattern reads it: whitespace up to `s1`, then optionally "frá" and whitespace up to `d`. */
  predicate GapLayout(s: string, e: nat, s1: nat, d: nat) {
    && e < s1 <= |s| && AllIn(s[e..s1], Space)
    && (d == s1 || (OccursAt(s, "frá", s1) && s1 + 3 < d <= |s| && AllIn(s[s1 + 3..d], Space)))
  }

  /** A date starts with a digit. */
  lemma DateStartsWithDigit(s: string, d: nat)
    requires ScanDateAt(s, d).Some?
    ensures d < |s| && IsDigit(s[d])
  {
    var n := DayLength(s, d);
    assert s[d] == s[d..d + n][0];
  }

  lemma KeywordEndAt(s: string, p: nat, g: nat, e: nat)
    requires KeywordLayout(s, p, g, e)
    ensures KeywordEnd(s, p) == Some(e)
  {
    if !OccursAt(s, "gildir", p) {
      assert s[g] == s[g..g + 5][0];
      RunEndAt(s, p + 5, g, Space);
    } else {
      assert s[p] == 'g';
      assert !OccursAt(s, "tekur", p) by { assert "tekur"[0] != 'g'; }
    }
  }

  lemma DateStartAt(s: string, e: nat, s1: nat, d: nat)
    requires GapLayout(s, e, s1, d)
    requires d < |s| && IsDigit(s[d])
    ensures DateStart(s, e) == Some(d)
  {
    if d == s1 {
      RunEndAt(s, e, s1, Space);
      assert !OccursAt(s, "frá", s1) by { assert s[s1] != 'f'; }
    } else {
      assert s[s1] == 'f' by { assert s[s1] == s[s1..s1 + 3][0]; }
      RunEndAt(s, e, s1, Space);
      RunEndAt(s, s1 + 3, d, Space);
    }
  }

  /** The scanner finds every match the pattern has at `p`, with the same groups. */
  lemma GildirAtComplete(s: string, p: nat, g: nat, e: nat, s1: nat, d: nat, f: DateFields)
    requires KeywordLayout(s, p, g, e) && GapLayout(s, e, s1, d) && ScanDateAt(s, d) == Some(f)
    ensures GildirAt(s, p) == Some(f)
  {
    KeywordEndAt(s, p, g, e);
    DateStartsWithDigit(s, d);
    DateStartAt(s, e, s1, d);
  }

  /** Every match the scanner reports is a match of the pattern. */
  lemma GildirAtSound(s: string, p: nat)
    requires GildirAt(s, p).Some?
    ensures exists g: nat, e: nat, s1: nat, d: nat ::
      (KeywordLayout(s, p, g, e) && GapLayout(s, e, s1, d) && ScanDateAt(s, d) == GildirAt(s, p))
  {
    KeywordSound(s, p);
    var g := RunEnd(s, p + 5, Space);
    var e := KeywordEnd(s, p).value;
    GapSound(s, e);
    var s1 := RunEnd(s, e, Space);
    var d := DateStart(s, e).value;
    assert KeywordLayout(s, p, g, e) && GapLayout(s, e, s1, d) && ScanDateAt(s, d) == GildirAt(s, p);
  }

  lemma KeywordSound(s: string, p: nat)
    requires KeywordEnd(s, p).Some?
    ensures p + 5 <= |s| && KeywordLayout(s, p, RunEnd(s, p + 5, Space), KeywordEnd(s, p).value)
  {
    if !OccursAt(s, "gildir", p) {
      RunEndSpec(s, p + 5, Space);
    }
  }

  lemma GapSound(s: string, e: nat)
    requires e <= |s| && DateStart(s, e).Some?
    ensures GapLayout(s, e, RunEnd(s, e, Space), DateStart(s, e).value)
  {
    var s1 := RunEnd(s, e, Space);
    RunEndSpec(s, e, Space);
    if DateStart(s, e).value != s1 {
      RunEndSpec(s, s1 + 3, Space);
    }
  }

  /** Lower-casing never makes or unmakes a digit. */
  lemma LowerDigits(s: string)
    ensures forall k :: 0 <= k < |s| ==> (IsDigit(Lower(s)[k]) <==> IsDigit(s[k]))
  {
  }

  /**
   * `parse_effective_date`: the date after the first "gildir" or "tekur
   * gildi" in the lower-cased page text, if it is a real date; otherwise
   * the first date-shaped text anywhere, if it is a real date; otherwise
   * today's date (`today` stands for `datetime.utcnow()`).
   */
  function EffectiveDate(text: string, today: Date): (r: string)
    requires ValidDate(today)
    ensures exists d :: ValidDate(d) && r == FormatDate(d)
  {
    var keyed := match FirstMatch(GildirAt, Lower(text))
      case None => None
      case Some((_, f)) => DateOfFields(f);
    if keyed.Some? then keyed.value
    else match ParseEffectiveDate(text)
      case Some(x) => x
      case None => FormatDate(today)
  }

  /** No scanner finds anything in a text without digits. */
  lemma NoDigitsNoMatch(s: string)
    requires forall k :: 0 <= k < |s| ==> !IsDigit(s[k])
    ensures FirstMatch(GildirAt, s).None? && FirstMatch(ScanDateAt, s).None?
  {
    forall j | 0 <= j <= |s| ensures GildirAt(s, j).None? && ScanDateAt(s, j).None? {
      if ScanDateAt(s, j).Some? {
        DateStartsWithDigit(s, j);
      }
      if GildirAt(s, j).Some? {
        var d := DateStart(s, KeywordEnd(s, j).value).value;
        DateStartsWithDigit(s, d);
      }
    }
  }

  /** A page without a single digit is dated today. */
  lemma EffectiveDateNoDigits(text: string, today: Date)
    requires ValidDate(today)
    requires forall k :: 0 <= k < |text| ==> !IsDigit(text[k])
    ensures EffectiveDate(text, today) == FormatDate(today)
  {
    LowerDigits(text);
    NoDigitsNoMatch(Lower(text));
  }

  /** "gildir frá 24. október 2025" dates the page 2025-10-24. */
  lemma EffectiveDateExample(today: Date)
    requires ValidDate(today)
    ensures EffectiveDate("gildir frá 24. október 2025", today) == "2025-10-24"
  {
    OctoberLower();
    GildirOctober();
    FirstMatchIs(GildirAt, "gildir frá 24. október 2025", 0, DateFields("24", "október", "2025"));
    DateOfOctober();
  }

  lemma GildirOctober()
    ensures GildirAt("gildir frá 24. október 2025", 0) == Some(DateFields("24", "október", "2025"))
  {
    OctoberAt();
    OctoberKeyword();
    OctoberGap();
    GildirAtComplete("gildir frá 24. október 2025", 0, 0, 6, 7, 11, DateFields("24", "október", "2025"));
  }

  lemma OctoberKeyword()
    ensures KeywordLayout("gildir frá 24. október 2025", 0, 0, 6)
  {
    assert "gildir frá 24. október 2025"[0..6] == "gildir";
  }

  lemma OctoberGap()
    ensures GapLayout("gildir frá 24. október 2025", 6, 7, 11)
  {
    var t := "gildir frá 24. október 2025";
    assert t[6..7] == " " && t[7..10] == "frá" && t[10..11] == " ";
  }

  // ------------------------------------------------------------------
  // Scraping
  // ------------------------------------------------------------------

  const BaseUrl := "https://www.islandsbanki.is/is/grein/vaxtatafla"
  const BankName := "Íslandsbanki"
  const BankId := "islandsbanki"

  /**
   * What the scraper reads from the fetched page: its tables, its text
   * (`get_text(separator=" ")`), its stripped text
   * (`get_text(separator=" ", strip=True)`) and the cell texts of the
   * table row around the first text node mentioning "Dráttarvextir", if
   * that node sits in a row.
   */
  datatype Page = Page(tables: seq<Table>, text: string, strippedText: string, penaltyRow: Option<Row>)

  /** The dict `scrape_rates` builds, from its eight values. */
  function RateFields(date: string, deposits: Fields, loans: Fields): (r: Fields)
    requires |loans| == 5
    ensures Keys(r) == ["bank_name", "effective_date", "deposits", "mortgages", "vehicle_loans",
                        "overdrafts", "credit_cards", "penalty_interest"]
    ensures r[0].1 == Str(BankName) && r[1].1 == Str(date) && r[2].1 == Obj(deposits)
    ensures r[3].1 == loans[0].1 && r[4].1 == loans[3].1 && r[5].1 == loans[1].1
    ensures r[6].1 == loans[2].1 && r[7].1 == loans[4].1
  {
    [("bank_name", Str(BankName)), ("effective_date", Str(date)), ("deposits", Obj(deposits)),
     ("mortgages", loans[0].1), ("vehicle_loans", loans[3].1), ("overdrafts", loans[1].1),
     ("credit_cards", loans[2].1), ("penalty_interest", loans[4].1)]
  }

  /** The rate data of a fetched page. */
  function RateData(page: Page, today: Date): Fields
    requires ValidDate(today)
  {
    var penalty := ParsePenaltyInterest(page.penaltyRow, page.strippedText);
    RateFields(EffectiveDate(page.text, today), ParseDeposits(page.tables), ParseLoans(page.tables, penalty))
  }

  /**
   * `scrape_rates`: `fetched` is the page when the request succeeded, and
   * `None` when it failed or the server answered with an error status.
   */
  function ScrapeRates(fetched: Option<Page>, today: Date): (r: (Option<Fields>, Option<string>))
    requires ValidDate(today)
  {
    match fetched
    case None => (None, None)
    case Some(page) => (Some(RateData(page, today)), Some(BaseUrl))
  }

  /**
   * A fetched page always yields the eight fields with the page's URL,
   * the bank's name, a real date and the penalty rate; a failed fetch
   * yields nothing.
   */
  lemma ScrapeRatesShape(fetched: Option<Page>, today: Date)
    requires ValidDate(today)
    ensures fetched.None? <==> ScrapeRates(fetched, today) == (None, None)
    ensures fetched.Some? ==>
      var (data, url) := ScrapeRates(fetched, today);
      var page := fetched.value;
      && url == Some(BaseUrl) && data.Some?
      && Keys(data.value) == ["bank_name", "effective_date", "deposits", "mortgages", "vehicle_loans",
                              "overdrafts", "credit_cards", "penalty_interest"]
      && data.value[0].1 == Str("Íslandsbanki")
      && (exists d :: ValidDate(d) && data.value[1].1 == Str(FormatDate(d)))
      && data.value[7].1 == OfRate(ParsePenaltyInterest(page.penaltyRow, page.strippedText))
  {
  }
}
