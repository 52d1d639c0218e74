/**
 * Effective dates written the Icelandic way, "24. október 2025": the
 * search for `(\d{1,2})\.\s*(\w+)\s+(\d{4})`, the table of month names,
 * and the conversion to an RFC 3339 `full-date`.
 *
 * The pattern is searched by a hand-written scanner. Every quantifier in
 * it is followed by a character its own class excludes (a digit or '.'
 * after the day, a word character after `\s*`, whitespace after `\w+`,
 * a digit after `\s+`), so backtracking can never find a second way to
 * match at a position: the scanner's greedy reading is the regex match.
 */
module IcelandicDates {
  import opened Wrappers
  import opened Text
  import opened Calendar

  /** The month names of the service's table, in calendar order. */
  const MonthNames: seq<string> := [
    "janúar", "febrúar", "mars", "apríl", "maí", "júní",
    "júlí", "ágúst", "september", "október", "nóvember", "desember"
  ]

  /** `months_icelandic.get(name)`. */
  function MonthNumber(name: string): (m: Option<int>)
    ensures m.Some? ==> 1 <= m.value <= 12 && MonthNames[m.value - 1] == name
    ensures m.None? ==> name !in MonthNames
  {
    MonthFrom(name, 0)
  }

  function MonthFrom(name: string, k: nat): (m: Option<int>)
    requires k <= 12
    decreases 12 - k
    ensures m.Some? ==> k + 1 <= m.value <= 12 && MonthNames[m.value - 1] == name
    ensures m.None? ==> forall j :: k <= j < 12 ==> MonthNames[j] != name
  {
    if k == 12 then None
    else if MonthNames[k] == name then Some(k + 1)
    else MonthFrom(name, k + 1)
  }

  /** Each month name maps back to its own month number. */
  lemma MonthNumberOfName(m: int)
    requires 1 <= m <= 12
    ensures MonthNumber(MonthNames[m - 1]) == Some(m)
  {
    var names := MonthNames;
    assert forall a, b :: 0 <= a < b < 12 ==> names[a] != names[b];
  }

  // ------------------------------------------------------------------
  // Scanning
  // ------------------------------------------------------------------

  /** The character classes the service's patterns repeat: `\s`, `\w`, `\d` and `[^0-9]`. */
  datatype CharClass = Space | Word | Digit | NonDigit

  predicate InClass(c: char, cls: CharClass) {
    match cls
    case Space => IsSpace(c)
    case Word => IsWordChar(c)
    case Digit => IsDigit(c)
    case NonDigit => !IsDigit(c)
  }

  /** Every character of `s` is in `cls`. */
  predicate AllIn(s: string, cls: CharClass) {
    forall k :: 0 <= k < |s| ==> InClass(s[k], cls)
  }

  lemma WordIsNotSpace(c: char)
    requires IsWordChar(c)
    ensures !IsSpace(c)
  {
  }

  /** The end of the longest run of `cls` characters starting at `i`. */
  function RunEnd(s: string, i: nat, cls: CharClass): (r: nat)
    requires i <= |s|
    decreases |s| - i
    ensures i <= r <= |s|
  {
    if i < |s| && InClass(s[i], cls) then RunEnd(s, i + 1, cls) else i
  }

  /** The run is all `cls` and the character after it is not. */
  lemma {:induction false} RunEndSpec(s: string, i: nat, cls: CharClass)
    requires i <= |s|
    ensures var r := RunEnd(s, i, cls);
      AllIn(s[i..r], cls) && (r == |s| || !InClass(s[r], cls))
    decreases |s| - i
  {
    if i < |s| && InClass(s[i], cls) {
      RunEndSpec(s, i + 1, cls);
      var r := RunEnd(s, i, cls);
      forall k | 0 <= k < r - i ensures InClass(s[i..r][k], cls) {
        if k > 0 {
          assert s[i..r][k] == s[i + 1..r][k - 1];
        }
      }
    }
  }

  /** A digit run holds only digits. */
  lemma DigitRun(s: string, i: nat)
    requires i <= |s|
    ensures AllDigits(s[i..RunEnd(s, i, Digit)])
  {
    RunEndSpec(s, i, Digit);
  }

  /** A run that ends where its class ends is the longest one. */
  lemma {:induction false} RunEndAt(s: string, i: nat, j: nat, cls: CharClass)
    requires i <= j <= |s|
    requires AllIn(s[i..j], cls)
    requires j == |s| || !InClass(s[j], cls)
    ensures RunEnd(s, i, cls) == j
    decreases j - i
  {
    if i < j {
      assert s[i] == s[i..j][0];
      assert s[i + 1..j] == s[i..j][1..];
      RunEndAt(s, i + 1, j, cls);
    }
  }

  /** The three captured groups of a date match. */
  datatype DateFields = DateFields(day: string, month: string, year: string)

  /** How many digits the day group takes at `i`: `\d{1,2}` then a literal '.'; 0 when it cannot match. */
  function DayLength(s: string, i: nat): (n: nat)
    requires i <= |s|
    ensures n <= 2 && (n > 0 ==> i + n < |s|)
    ensures n > 0 ==> AllDigits(s[i..i + n]) && s[i + n] == '.'
  {
    if i + 2 < |s| && IsDigit(s[i]) && IsDigit(s[i + 1]) && s[i + 2] == '.' then 2
    else if i + 1 < |s| && IsDigit(s[i]) && s[i + 1] == '.' then 1
    else 0
  }

  /**
   * Where the scanner cuts the text at `i`: the day length `n` (0 when no
   * day can start there), the end `q` of the optional whitespace after the
   * '.', the end `w` of the month word and the end `y` of the whitespace
   * before the year.
   */
  function ScanPieces(s: string, i: nat): (r: (nat, nat, nat, nat))
    requires i <= |s|
    ensures r.0 <= 2
    ensures r.0 > 0 ==> i + r.0 < |s| && i + r.0 + 1 <= r.1 <= r.2 <= r.3 <= |s|
  {
    var n := DayLength(s, i);
    if n == 0 then (0, 0, 0, 0)
    else
      var q := RunEnd(s, i + n + 1, Space);
      var w := RunEnd(s, q, Word);
      (n, q, w, RunEnd(s, w, Space))
  }

  /** The classes of the pieces the scanner cuts. */
  lemma PiecesSpec(s: string, i: nat)
    requires i <= |s|
    ensures var (n, q, w, y) := ScanPieces(s, i);
      n > 0 ==> && AllDigits(s[i..i + n]) && s[i + n] == '.'
                && AllIn(s[i + n + 1..q], Space) && AllIn(s[q..w], Word) && AllIn(s[w..y], Space)
  {
    var n := DayLength(s, i);
    if n > 0 {
      RunEndSpec(s, i + n + 1, Space);
      var q := RunEnd(s, i + n + 1, Space);
      RunEndSpec(s, q, Word);
      RunEndSpec(s, RunEnd(s, q, Word), Space);
    }
  }

  /** The match of `(\d{1,2})\.\s*(\w+)\s+(\d{4})` starting exactly at `i`, if there is one. */
  function ScanDateAt(s: string, i: nat): (r: Option<DateFields>)
  {
    if i > |s| then None
    else
      var (n, q, w, y) := ScanPieces(s, i);
      if n > 0 && q < w && w < y && y + 4 <= |s| && AllDigits(s[y..y + 4]) then
        Some(DateFields(s[i..i + n], s[q..w], s[y..y + 4]))
      else
        None
  }

  /**
   * The regex reading of a match at `i` cut at `n`, `q`, `w`, `y`: one or
   * two digits, '.', a run of whitespace ending at `q`, a non-empty word
   * ending at `w`, a non-empty run of whitespace ending at `y`, four digits.
   */
  predicate DateLayout(s: string, i: nat, n: nat, q: nat, w: nat, y: nat) {
    && 1 <= n <= 2 && i + n + 1 <= q < w < y && y + 4 <= |s|
    && AllDigits(s[i..i + n]) && s[i + n] == '.'
    && AllIn(s[i + n + 1..q], Space) && AllIn(s[q..w], Word) && AllIn(s[w..y], Space)
    && AllDigits(s[y..y + 4])
  }

  /** The groups a match cut at `n`, `q`, `w`, `y` captures. */
  function LayoutFields(s: string, i: nat, n: nat, q: nat, w: nat, y: nat): DateFields
    requires DateLayout(s, i, n, q, w, y)
  {
    DateFields(s[i..i + n], s[q..w], s[y..y + 4])
  }

  /**
   * The scanner finds a date at `i` exactly when the pattern can match
   * there, and every way the pattern can match there captures the groups
   * the scanner returns: the match is unique.
   */
  lemma ScanDateAtSpec(s: string, i: nat)
    requires i <= |s|
    ensures ScanDateAt(s, i).Some? <==> exists n, q, w, y :: DateLayout(s, i, n, q, w, y)
    ensures forall n, q, w, y :: DateLayout(s, i, n, q, w, y) ==>
      ScanDateAt(s, i) == Some(LayoutFields(s, i, n, q, w, y))
  {
    if ScanDateAt(s, i).Some? {
      var (n, q, w, y) := ScanPieces(s, i);
      PiecesSpec(s, i);
      assert DateLayout(s, i, n, q, w, y);
    }
    forall n, q, w, y | DateLayout(s, i, n, q, w, y)
      ensures ScanDateAt(s, i) == Some(LayoutFields(s, i, n, q, w, y))
    {
      ScanComplete(s, i, n, q, w, y);
    }
  }

  /** Whatever cut points the pattern matches with, the scanner cuts at the same places. */
  lemma ScanComplete(s: string, i: nat, n: nat, q: nat, w: nat, y: nat)
    requires DateLayout(s, i, n, q, w, y)
    ensures ScanPieces(s, i) == (n, q, w, y)
    ensures ScanDateAt(s, i) == Some(LayoutFields(s, i, n, q, w, y))
  {
    LayoutDay(s, i, n);
    LayoutStops(s, i, n, q, w, y);
    RunEndAt(s, i + n + 1, q, Space);
    RunEndAt(s, q, w, Word);
    RunEndAt(s, w, y, Space);
  }

  lemma LayoutDay(s: string, i: nat, n: nat)
    requires 1 <= n <= 2 && i + n < |s| && AllDigits(s[i..i + n]) && s[i + n] == '.'
    ensures DayLength(s, i) == n
  {
    assert s[i] == s[i..i + n][0];
    if n == 2 {
      assert s[i + 1] == s[i..i + n][1];
    }
  }

  /** Where each run of the layout stops, the next character lies outside its class. */
  lemma LayoutStops(s: string, i: nat, n: nat, q: nat, w: nat, y: nat)
    requires DateLayout(s, i, n, q, w, y)
    ensures !IsSpace(s[q]) && !IsWordChar(s[w]) && !IsSpace(s[y])
  {
    assert s[q] == s[q..w][0];
    assert InClass(s[q], Word);
    WordIsNotSpace(s[q]);
    assert s[w] == s[w..y][0];
    assert InClass(s[w], Space);
    assert s[y] == s[y..y + 4][0];
  }

  /** A match inside a piece of text is a match, with the same groups, wherever that piece occurs. */
  lemma LayoutShift(t: string, u: string, o: nat, i: nat, n: nat, q: nat, w: nat, y: nat)
    requires OccursAt(t, u, o) && DateLayout(u, i, n, q, w, y)
    ensures DateLayout(t, o + i, n, o + q, o + w, o + y)
    ensures LayoutFields(t, o + i, n, o + q, o + w, o + y) == LayoutFields(u, i, n, q, w, y)
  {
    ShiftSlice(t, u, o, i, i + n);
    ShiftSlice(t, u, o, i + n + 1, q);
    ShiftSlice(t, u, o, q, w);
    ShiftSlice(t, u, o, w, y);
    ShiftSlice(t, u, o, y, y + 4);
    assert t[o + i + n] == u[i + n] by {
      ShiftSlice(t, u, o, i + n, i + n + 1);
      assert t[o + i + n] == t[o + i + n..o + i + n + 1][0];
    }
  }

  /** A slice of an occurrence of `u` is the same slice of `u`, moved by the offset. */
  lemma ShiftSlice(t: string, u: string, o: nat, a: nat, b: nat)
    requires OccursAt(t, u, o) && a <= b <= |u|
    ensures t[o + a..o + b] == u[a..b]
  {
    SliceOfSlice(t, o, o + |u|, a, b);
  }

  lemma SliceOfSlice(s: string, lo: nat, hi: nat, a: nat, b: nat)
    requires lo <= hi <= |s| && a <= b <= hi - lo
    ensures s[lo..hi][a..b] == s[lo + a..lo + b]
  {
    assert forall k :: 0 <= k < b - a ==> s[lo..hi][a..b][k] == s[lo + a + k];
  }

  /** A pattern anchored at a position: the groups of its match starting exactly there, if any. */
  type Scanner<T> = (string, nat) -> Option<T>

  /** No match of `scan` starts anywhere in `[a, b)`. */
  predicate NoMatchIn<T>(scan: Scanner<T>, s: string, a: nat, b: nat)
    decreases b - a
  {
    a >= b || (scan(s, a).None? && NoMatchIn(scan, s, a + 1, b))
  }

  lemma {:induction false} NoMatchInAt<T>(scan: Scanner<T>, s: string, a: nat, b: nat, j: nat)
    requires NoMatchIn(scan, s, a, b) && a <= j < b
    ensures scan(s, j).None?
    decreases b - a
  {
    if a < j {
      NoMatchInAt(scan, s, a + 1, b, j);
    }
  }

  /** `re.search` from `from` on: the match at the leftmost position where the pattern matches. */
  function FirstMatchFrom<T>(scan: Scanner<T>, s: string, from: nat): (r: Option<(nat, T)>)
    requires from <= |s|
    decreases |s| - from
    ensures r.Some? ==> from <= r.value.0 <= |s| && scan(s, r.value.0) == Some(r.value.1)
    ensures r.Some? ==> NoMatchIn(scan, s, from, r.value.0)
    ensures r.None? ==> NoMatchIn(scan, s, from, |s| + 1)
  {
    match scan(s, from)
    case Some(f) => Some((from, f))
    case None => if from == |s| then None else FirstMatchFrom(scan, s, from + 1)
  }

  /** `re.search` over the whole text. */
  function FirstMatch<T>(scan: Scanner<T>, s: string): (r: Option<(nat, T)>)
    ensures r.Some? ==> r.value.0 <= |s| && scan(s, r.value.0) == Some(r.value.1)
    ensures r.Some? ==> forall j :: 0 <= j < r.value.0 ==> scan(s, j).None?
    ensures r.None? ==> forall j :: 0 <= j <= |s| ==> scan(s, j).None?
  {
    var r := FirstMatchFrom(scan, s, 0);
    assert r.Some? ==> forall j :: 0 <= j < r.value.0 ==> scan(s, j).None? by {
      if r.Some? {
        forall j | 0 <= j < r.value.0 ensures scan(s, j).None? {
          NoMatchInAt(scan, s, 0, r.value.0, j);
        }
      }
    }
    assert r.None? ==> forall j :: 0 <= j <= |s| ==> scan(s, j).None? by {
      if r.None? {
        forall j | 0 <= j <= |s| ensures scan(s, j).None? {
          NoMatchInAt(scan, s, 0, |s| + 1, j);
        }
      }
    }
    r
  }

  /** Searching from `a` finds the match at `i` when none starts in `[a, i)`. */
  lemma {:induction false} FirstMatchFromIs<T>(scan: Scanner<T>, s: string, a: nat, i: nat, f: T)
    requires a <= i <= |s| && scan(s, i) == Some(f) && NoMatchIn(scan, s, a, i)
    ensures FirstMatchFrom(scan, s, a) == Some((i, f))
    decreases i - a
  {
    if a < i {
      FirstMatchFromIs(scan, s, a + 1, i, f);
    }
  }

  /** A match at `i` with none before it is the one the search returns. */
  lemma FirstMatchIs<T>(scan: Scanner<T>, s: string, i: nat, f: T)
    requires i <= |s| && scan(s, i) == Some(f)
    requires forall j :: 0 <= j < i ==> scan(s, j).None?
    ensures FirstMatch(scan, s) == Some((i, f))
  {
  }

  /** No date starts at a stretch of characters that are not digits. */
  lemma {:induction false} NoDigitsNoDate(s: string, a: nat, b: nat)
    requires a <= b <= |s|
    requires forall j :: a <= j < b ==> !IsDigit(s[j])
    ensures NoMatchIn(ScanDateAt, s, a, b)
    decreases b - a
  {
    if a < b {
      NoDateAtNonDigit(s, a);
      NoDigitsNoDate(s, a + 1, b);
    }
  }

  // ------------------------------------------------------------------
  // Converting the captured groups
  // ------------------------------------------------------------------

  /**
   * `int(day)`, `months_icelandic.get(month)`, `int(year)`, then
   * `datetime(year, month, day).strftime('%Y-%m-%d')`; `None` for an
   * unknown month name or a date `datetime` rejects.
   */
  function DateOfFields(f: DateFields): (r: Option<string>)
    ensures r.Some? <==> MonthNumber(f.month).Some? && AllDigits(f.day) && AllDigits(f.year)
                         && ValidDate(Date(DigitsValue(f.year), MonthNumber(f.month).value, DigitsValue(f.day)))
    ensures r.Some? ==> r.value == FormatDate(Date(DigitsValue(f.year), MonthNumber(f.month).value, DigitsValue(f.day)))
  {
    if !AllDigits(f.day) || !AllDigits(f.year) then None
    else
      match MonthNumber(f.month)
      case None => None
      case Some(m) =>
        var d := Date(DigitsValue(f.year), m, DigitsValue(f.day));
        if ValidDate(d) then Some(FormatDate(d)) else None
  }

  /**
   * `InterestRateParser.parse_effective_date` (and the identical text
   * branches of the other scrapers): the first date-shaped match in the
   * lower-cased text decides; a later, valid date is never tried.
   */
  function ParseEffectiveDate(text: string): (r: Option<string>)
    ensures r.Some? ==> exists d :: ValidDate(d) && r.value == FormatDate(d)
  {
    match FirstMatch(ScanDateAt, Lower(text))
    case None => None
    case Some((_, f)) => DateOfFields(f)
  }

  /** The result is decided by the first match alone: it is that match's date, or nothing. */
  lemma ParseEffectiveDateFirstOnly(text: string, i: nat, f: DateFields)
    requires i <= |text|
    requires ScanDateAt(Lower(text), i) == Some(f)
    requires forall j :: 0 <= j < i ==> ScanDateAt(Lower(text), j).None?
    ensures ParseEffectiveDate(text) == DateOfFields(f)
  {
    FirstMatchIs(ScanDateAt, Lower(text), i, f);
  }

  /** No date starts at a character that is not a digit. */
  lemma NoDateAtNonDigit(s: string, j: nat)
    requires j < |s| && !IsDigit(s[j])
    ensures ScanDateAt(s, j).None?
  {
  }

  /** Text without capitals is its own lower-case form. */
  lemma LowerKeeps(s: string)
    requires forall k :: 0 <= k < |s| ==> !IsAsciiUpper(s[k]) && !IsLatin1Upper(s[k])
    ensures Lower(s) == s
  {
  }

  /** The example text has no capitals: each of its words is its own lower-case form. */
  lemma OctoberLower()
    ensures Lower("gildir frá 24. október 2025") == "gildir frá 24. október 2025"
  {
    var a, b, c, d, e := "gildir", " frá ", "24. ", "október", " 2025";
    assert a + b + c + d + e == "gildir frá 24. október 2025";
    LowerGildir();
    LowerFra();
    LowerDay();
    LowerOctober();
    LowerYear();
    LowerAppend(a, b);
    LowerAppend(a + b, c);
    LowerAppend(a + b + c, d);
    LowerAppend(a + b + c + d, e);
  }

  lemma LowerGildir()
    ensures Lower("gildir") == "gildir"
  {
    LowerKeeps("gildir");
  }

  lemma LowerFra()
    ensures Lower(" frá ") == " frá "
  {
    LowerKeeps(" frá ");
  }

  lemma LowerDay()
    ensures Lower("24. ") == "24. "
  {
    LowerKeeps("24. ");
  }

  lemma LowerOctober()
    ensures Lower("október") == "október"
  {
    LowerKeeps("október");
  }

  lemma LowerYear()
    ensures Lower(" 2025") == " 2025"
  {
    LowerKeeps(" 2025");
  }

  lemma ScanOctober()
    ensures FirstMatch(ScanDateAt, "gildir frá 24. október 2025") == Some((11, DateFields("24", "október", "2025")))
  {
    OctoberAt();
    OctoberNothingBefore();
    FirstMatchFromIs(ScanDateAt, "gildir frá 24. október 2025", 0, 11, DateFields("24", "október", "2025"));
  }

  lemma OctoberAt()
    ensures ScanDateAt("gildir frá 24. október 2025", 11) == Some(DateFields("24", "október", "2025"))
  {
    OctoberShifted();
    ScanComplete("gildir frá 24. október 2025", 11, 2, 15, 22, 23);
  }

  lemma OctoberShifted()
    ensures DateLayout("gildir frá 24. október 2025", 11, 2, 15, 22, 23)
    ensures LayoutFields("gildir frá 24. október 2025", 11, 2, 15, 22, 23) == DateFields("24", "október", "2025")
  {
    var t := "gildir frá 24. október 2025";
    var u := "24. október 2025";
    assert t[11..27] == u;
    OctoberLayout();
    LayoutShift(t, u, 11, 0, 2, 4, 11, 12);
  }

  lemma OctoberNothingBefore()
    ensures NoMatchIn(ScanDateAt, "gildir frá 24. október 2025", 0, 11)
  {
    OctoberPrefix();
    NoDigitsNoDate("gildir frá 24. október 2025", 0, 11);
  }

  lemma OctoberLayout()
    ensures DateLayout("24. október 2025", 0, 2, 4, 11, 12)
    ensures LayoutFields("24. október 2025", 0, 2, 4, 11, 12) == DateFields("24", "október", "2025")
  {
    var u := "24. október 2025";
    assert u[0..2] == "24" && u[3..4] == " " && u[4..11] == "október" && u[11..12] == " " && u[12..16] == "2025";
  }

  lemma OctoberPrefix()
    ensures forall j :: 0 <= j < 11 ==> !IsDigit("gildir frá 24. október 2025"[j])
  {
  }

  /** A digit string that is the zero-padded form of `n` reads back as `n`. */
  lemma ReadDigits(s: string, n: nat)
    requires n < Pow10(|s|) && PadDigits(n, |s|) == s
    ensures AllDigits(s) && DigitsValue(s) == n
  {
    PadDigitsValue(n, |s|);
  }

  lemma PadOctober()
    ensures PadDigits(2025, 4) == "2025" && PadDigits(10, 2) == "10" && PadDigits(24, 2) == "24"
  {
  }

  lemma FormatOctober()
    ensures ValidDate(Date(2025, 10, 24)) && FormatDate(Date(2025, 10, 24)) == "2025-10-24"
  {
    PadOctober();
    assert "2025" + "-" + "10" + "-" + "24" == "2025-10-24";
  }

  lemma DateOfOctober()
    ensures DateOfFields(DateFields("24", "október", "2025")) == Some("2025-10-24")
  {
    MonthNumberOfName(10);
    ReadDigits("2025", 2025);
    ReadDigits("24", 24);
    FormatOctober();
  }

  /** "24. október 2025" is 24 October 2025. */
  lemma ExampleOctober()
    ensures ParseEffectiveDate("gildir frá 24. október 2025") == Some("2025-10-24")
  {
    OctoberLower();
    ScanOctober();
    DateOfOctober();
  }

  lemma ScanFebruary()
    ensures FirstMatch(ScanDateAt, "31. febrúar 2025, 1. mars 2025") == Some((0, DateFields("31", "febrúar", "2025")))
  {
    var t := "31. febrúar 2025, 1. mars 2025";
    var u := "31. febrúar 2025";
    assert t[0..16] == u;
    FebruaryLayout();
    LayoutShift(t, u, 0, 0, 2, 4, 11, 12);
    ScanComplete(t, 0, 2, 4, 11, 12);
    FirstMatchIs(ScanDateAt, t, 0, DateFields("31", "febrúar", "2025"));
  }

  lemma FebruaryLayout()
    ensures DateLayout("31. febrúar 2025", 0, 2, 4, 11, 12)
    ensures LayoutFields("31. febrúar 2025", 0, 2, 4, 11, 12) == DateFields("31", "febrúar", "2025")
  {
    var u := "31. febrúar 2025";
    assert u[0..2] == "31" && u[3..4] == " " && u[4..11] == "febrúar" && u[11..12] == " " && u[12..16] == "2025";
  }

  /** There is no 31 February, in 2025 or any other year. */
  lemma NoFebruary31(year: string)
    requires |year| == 4 && AllDigits(year)
    ensures DateOfFields(DateFields("31", "febrúar", year)) == None
  {
    MonthNumberOfName(2);
    ReadDigits("31", 31);
  }

  /** "31. febrúar" matches the pattern but is no date, and the later valid date is not looked at. */
  lemma ExampleImpossibleDateHidesLaterOne()
    ensures ParseEffectiveDate("31. febrúar 2025, 1. mars 2025") == None
  {
    FebruaryLower();
    ScanFebruary();
    February2025();
    FirstMatchDecides("31. febrúar 2025, 1. mars 2025", 0, DateFields("31", "febrúar", "2025"));
  }

  lemma FebruaryLower()
    ensures Lower("31. febrúar 2025, 1. mars 2025") == "31. febrúar 2025, 1. mars 2025"
  {
    LowerKeeps("31. febrúar 2025, 1. mars 2025");
  }

  lemma February2025()
    ensures DateOfFields(DateFields("31", "febrúar", "2025")) == None
  {
    NoFebruary31("2025");
  }

  /** A text already in lower case whose first match is `f` gives the date of `f`. */
  lemma FirstMatchDecides(text: string, i: nat, f: DateFields)
    requires Lower(text) == text && FirstMatch(ScanDateAt, text) == Some((i, f))
    ensures ParseEffectiveDate(text) == DateOfFields(f)
  {
  }
}
