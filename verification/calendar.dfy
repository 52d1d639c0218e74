/**
 * The proleptic Gregorian calendar of Python's `datetime`, the day
 * ordinal it counts with, and the two `strftime` layouts the service
 * prints: the RFC 3339 `full-date` ("%Y-%m-%d") and the UTC
 * `date-time` ("%Y-%m-%dT%H:%M:%SZ").
 */
module Calendar {
  import opened Wrappers
  import opened Text

  const MinYear := 1
  const MaxYear := 9999

  predicate IsLeapYear(y: int) {
    y % 4 == 0 && (y % 100 != 0 || y % 400 == 0)
  }

  function DaysInYear(y: int): (n: nat)
    ensures n == 365 || n == 366
  {
    if IsLeapYear(y) then 366 else 365
  }

  /** Days in month `m` of year `y` (section 5.7 of RFC 3339). */
  function DaysInMonth(y: int, m: int): (n: nat)
    requires 1 <= m <= 12
    ensures 28 <= n <= 31
    ensures n == 29 <==> m == 2 && IsLeapYear(y)
    ensures n == 28 <==> m == 2 && !IsLeapYear(y)
  {
    if m == 2 then (if IsLeapYear(y) then 29 else 28)
    else if m == 4 || m == 6 || m == 9 || m == 11 then 30
    else 31
  }

  /** Days in the months of year `y` before month `m`; month 13 stands for the end of the year. */
  function DaysBeforeMonth(y: int, m: int): (n: nat)
    requires 1 <= m <= 13
  {
    [0, 31, 59, 90, 120, 151, 181, 212, 243, 273, 304, 334, 365][m - 1]
      + (if m > 2 && IsLeapYear(y) then 1 else 0)
  }

  lemma DaysBeforeNextMonth(y: int, m: int)
    requires 1 <= m <= 12
    ensures DaysBeforeMonth(y, m + 1) == DaysBeforeMonth(y, m) + DaysInMonth(y, m)
    ensures DaysBeforeMonth(y, 1) == 0 && DaysBeforeMonth(y, 13) == DaysInYear(y)
  {
  }

  /** Days from 1 January of year 1 to 1 January of year `y`. */
  function DaysBeforeYear(y: nat): (n: nat)
    requires y >= 1
  {
    if y == 1 then 0 else DaysBeforeYear(y - 1) + DaysInYear(y - 1)
  }

  lemma {:induction false} DaysBeforeYearMonotone(a: nat, b: nat)
    requires 1 <= a < b
    ensures DaysBeforeYear(a) + DaysInYear(a) <= DaysBeforeYear(b)
  {
    if a + 1 < b {
      DaysBeforeYearMonotone(a, b - 1);
    }
  }

  datatype Date = Date(year: int, month: int, day: int)

  /** What `datetime(year, month, day)` accepts without raising ValueError. */
  predicate ValidDate(d: Date) {
    && MinYear <= d.year <= MaxYear
    && 1 <= d.month <= 12
    && 1 <= d.day <= DaysInMonth(d.year, d.month)
  }

  /** `date.toordinal() - 1`: days since 1 January of year 1. */
  function Ordinal(d: Date): (n: nat)
    requires ValidDate(d)
  {
    DaysBeforeYear(d.year) + DaysBeforeMonth(d.year, d.month) + d.day - 1
  }

  /** The year holding day `n` counted from 1 January of year `y`, and the day's index in that year. */
  function YearOf(n: nat, y: nat): (r: (nat, nat))
    requires y >= 1
    decreases n
    ensures r.0 >= y && r.1 < DaysInYear(r.0)
    ensures DaysBeforeYear(r.0) + r.1 == DaysBeforeYear(y) + n
  {
    if n < DaysInYear(y) then (y, n) else YearOf(n - DaysInYear(y), y + 1)
  }

  /** The month holding day `n` of year `y` counted from the start of month `m`, and the day's index in it. */
  function MonthOf(n: nat, y: int, m: int): (r: (int, nat))
    requires 1 <= m <= 12
    requires DaysBeforeMonth(y, m) + n < DaysInYear(y)
    decreases 12 - m
    ensures m <= r.0 <= 12 && r.1 < DaysInMonth(y, r.0)
    ensures DaysBeforeMonth(y, r.0) + r.1 == DaysBeforeMonth(y, m) + n
  {
    DaysBeforeNextMonth(y, m);
    if n < DaysInMonth(y, m) then (m, n) else MonthOf(n - DaysInMonth(y, m), y, m + 1)
  }

  /** `date.fromordinal(n + 1)`, without the year-9999 ceiling. */
  function FromOrdinal(n: nat): (d: Date)
    ensures d.year >= 1 && 1 <= d.month <= 12 && 1 <= d.day <= DaysInMonth(d.year, d.month)
  {
    var (y, dayOfYear) := YearOf(n, 1);
    DaysBeforeNextMonth(y, 1);
    var (m, dayOfMonth) := MonthOf(dayOfYear, y, 1);
    Date(y, m, dayOfMonth + 1)
  }

  /** Counting days forward from the ordinal finds the same day. */
  lemma OrdinalOfFromOrdinal(n: nat)
    ensures FromOrdinal(n).year <= MaxYear ==> Ordinal(FromOrdinal(n)) == n
  {
    var (y, dayOfYear) := YearOf(n, 1);
    DaysBeforeNextMonth(y, 1);
  }

  lemma YearUnique(a: nat, i: nat, b: nat, j: nat)
    requires a >= 1 && b >= 1 && i < DaysInYear(a) && j < DaysInYear(b)
    requires DaysBeforeYear(a) + i == DaysBeforeYear(b) + j
    ensures a == b && i == j
  {
    if a < b {
      DaysBeforeYearMonotone(a, b);
    } else if b < a {
      DaysBeforeYearMonotone(b, a);
    }
  }

  lemma MonthUnique(y: int, a: int, i: nat, b: int, j: nat)
    requires 1 <= a <= 12 && 1 <= b <= 12 && i < DaysInMonth(y, a) && j < DaysInMonth(y, b)
    requires DaysBeforeMonth(y, a) + i == DaysBeforeMonth(y, b) + j
    ensures a == b && i == j
  {
  }

  /** Every valid date survives the trip to its ordinal and back. */
  lemma FromOrdinalOfOrdinal(d: Date)
    requires ValidDate(d)
    ensures FromOrdinal(Ordinal(d)) == d
  {
    var n := Ordinal(d);
    var (y, dayOfYear) := YearOf(n, 1);
    DaysBeforeNextMonth(d.year, d.month);
    DaysBeforeNextMonth(d.year, 12);
    assert DaysBeforeMonth(d.year, d.month) + d.day - 1 < DaysInYear(d.year) by {
      if d.month < 12 {
        assert DaysBeforeMonth(d.year, d.month + 1) <= DaysBeforeMonth(d.year, 13);
      }
    }
    YearUnique(y, dayOfYear, d.year, DaysBeforeMonth(d.year, d.month) + d.day - 1);
    DaysBeforeNextMonth(y, 1);
    var (m, dayOfMonth) := MonthOf(dayOfYear, y, 1);
    MonthUnique(y, m, dayOfMonth, d.month, d.day - 1);
  }

  // ------------------------------------------------------------------
  // Wall-clock times
  // ------------------------------------------------------------------

  const MicrosPerSecond := 1_000_000
  const MicrosPerDay := 86_400 * MicrosPerSecond

  /** The fields of a `datetime`, read as a wall clock (no zone). */
  datatype DateTime = DateTime(date: Date, hour: int, minute: int, second: int, micro: int)

  predicate ValidDateTime(t: DateTime) {
    && ValidDate(t.date)
    && 0 <= t.hour < 24 && 0 <= t.minute < 60 && 0 <= t.second < 60
    && 0 <= t.micro < MicrosPerSecond
  }

  /** Microseconds of the wall clock since midnight. */
  function MicrosOfDay(t: DateTime): (n: nat)
    requires ValidDateTime(t)
    ensures n < MicrosPerDay
  {
    ((t.hour * 60 + t.minute) * 60 + t.second) * MicrosPerSecond + t.micro
  }

  /** Microseconds from 0001-01-01T00:00 to the wall clock `t`. */
  function WallMicros(t: DateTime): (n: nat)
    requires ValidDateTime(t)
  {
    Ordinal(t.date) * MicrosPerDay + MicrosOfDay(t)
  }

  /** The wall clock `n` microseconds after 0001-01-01T00:00 (what `fromtimestamp` computes). */
  function FromWallMicros(n: nat): (t: DateTime)
    ensures t.date.year >= 1 && 1 <= t.date.month <= 12 && 1 <= t.date.day <= DaysInMonth(t.date.year, t.date.month)
    ensures 0 <= t.hour < 24 && 0 <= t.minute < 60 && 0 <= t.second < 60 && 0 <= t.micro < MicrosPerSecond
  {
    var day, rest := n / MicrosPerDay, n % MicrosPerDay;
    var seconds := rest / MicrosPerSecond;
    DateTime(FromOrdinal(day), seconds / 3600, seconds / 60 % 60, seconds % 60, rest % MicrosPerSecond)
  }

  /** Euclidean division undoes `q * d + r` for a remainder below `d`. */
  lemma DivMod(q: int, r: int, d: int)
    requires d > 0 && 0 <= r < d
    ensures (q * d + r) / d == q && (q * d + r) % d == r
  {
    var x := q * d + r;
    var k := x / d - q;
    assert x == d * (x / d) + x % d;
    assert d * k == r - x % d by {
      assert d * k == d * (x / d) - d * q;
    }
  }

  lemma MicrosOfDaySplit(t: DateTime)
    requires ValidDateTime(t)
    ensures MicrosOfDay(t) / MicrosPerSecond == (t.hour * 60 + t.minute) * 60 + t.second
    ensures MicrosOfDay(t) % MicrosPerSecond == t.micro
  {
    DivMod((t.hour * 60 + t.minute) * 60 + t.second, t.micro, MicrosPerSecond);
  }

  lemma SecondsSplit(h: int, mi: int, s: int)
    requires 0 <= h < 24 && 0 <= mi < 60 && 0 <= s < 60
    ensures ((h * 60 + mi) * 60 + s) / 3600 == h
    ensures ((h * 60 + mi) * 60 + s) / 60 % 60 == mi
    ensures ((h * 60 + mi) * 60 + s) % 60 == s
  {
    var x := (h * 60 + mi) * 60 + s;
    assert x == h * 3600 + (mi * 60 + s);
    DivMod(h, mi * 60 + s, 3600);
    DivMod(h * 60 + mi, s, 60);
    DivMod(h, mi, 60);
  }

  lemma DaySplit(day: nat, rest: nat)
    requires rest < MicrosPerDay
    ensures (day * MicrosPerDay + rest) / MicrosPerDay == day
    ensures (day * MicrosPerDay + rest) % MicrosPerDay == rest
  {
    DivMod(day, rest, MicrosPerDay);
  }

  /** A valid wall clock survives the trip to microseconds and back. */
  lemma FromWallMicrosOfWallMicros(t: DateTime)
    requires ValidDateTime(t)
    ensures FromWallMicros(WallMicros(t)) == t
  {
    var n := WallMicros(t);
    DaySplit(Ordinal(t.date), MicrosOfDay(t));
    assert n / MicrosPerDay == Ordinal(t.date) && n % MicrosPerDay == MicrosOfDay(t);
    FromOrdinalOfOrdinal(t.date);
    MicrosOfDaySplit(t);
    SecondsSplit(t.hour, t.minute, t.second);
  }

  /** Seconds of a day split into hours, minutes and seconds recombine to the same count. */
  lemma SecondsJoin(s: nat)
    ensures (s / 3600 * 60 + s / 60 % 60) * 60 + s % 60 == s
  {
    var r := s % 3600;
    assert s == s / 3600 * 3600 + r;
    assert r == r / 60 * 60 + r % 60;
    assert s == (s / 3600 * 60 + r / 60) * 60 + r % 60;
    DivMod(s / 3600 * 60 + r / 60, r % 60, 60);
    DivMod(s / 3600, r / 60, 60);
  }

  /** A microsecond count whose wall clock lies before year 10000 reads back as the same count. */
  lemma WallMicrosOfFromWallMicros(n: nat)
    requires FromWallMicros(n).date.year <= MaxYear
    ensures ValidDateTime(FromWallMicros(n)) && WallMicros(FromWallMicros(n)) == n
  {
    var day, rest := n / MicrosPerDay, n % MicrosPerDay;
    var s := rest / MicrosPerSecond;
    OrdinalOfFromOrdinal(day);
    SecondsJoin(s);
    assert rest == s * MicrosPerSecond + rest % MicrosPerSecond;
    assert n == day * MicrosPerDay + rest;
  }

  // ------------------------------------------------------------------
  // Formatting
  // ------------------------------------------------------------------

  /** `strftime('%Y-%m-%d')`: the `full-date` of section 5.6 of RFC 3339. */
  function FormatDate(d: Date): (s: string)
    requires ValidDate(d)
    ensures |s| == 10 && s[4] == '-' && s[7] == '-'
    ensures AllDigits(s[..4]) && AllDigits(s[5..7]) && AllDigits(s[8..])
  {
    var s := PadDigits(d.year, 4) + "-" + PadDigits(d.month, 2) + "-" + PadDigits(d.day, 2);
    assert s[..4] == PadDigits(d.year, 4) && s[5..7] == PadDigits(d.month, 2) && s[8..] == PadDigits(d.day, 2);
    s
  }

  /** Reading the three fields of a formatted date back gives the date. */
  lemma FormatDateFields(d: Date)
    requires ValidDate(d)
    ensures var s := FormatDate(d);
      DigitsValue(s[..4]) == d.year && DigitsValue(s[5..7]) == d.month && DigitsValue(s[8..]) == d.day
  {
    var s := FormatDate(d);
    assert s[..4] == PadDigits(d.year, 4) && s[5..7] == PadDigits(d.month, 2) && s[8..] == PadDigits(d.day, 2);
    PadDigitsValue(d.year, 4);
    PadDigitsValue(d.month, 2);
    PadDigitsValue(d.day, 2);
  }

  /** Different dates never print the same. */
  lemma FormatDateInjective(a: Date, b: Date)
    requires ValidDate(a) && ValidDate(b) && FormatDate(a) == FormatDate(b)
    ensures a == b
  {
    FormatDateFields(a);
    FormatDateFields(b);
  }

  /** `strftime("%Y-%m-%dT%H:%M:%SZ")` of a UTC time: the `date-time` of section 5.6 of RFC 3339 without fraction. */
  function FormatTimestamp(t: DateTime): (s: string)
    requires ValidDateTime(t)
    ensures |s| == 20 && s[..10] == FormatDate(t.date)
    ensures s[10] == 'T' && s[13] == ':' && s[16] == ':' && s[19] == 'Z'
  {
    FormatDate(t.date) + "T" + PadDigits(t.hour, 2) + ":" + PadDigits(t.minute, 2) + ":"
      + PadDigits(t.second, 2) + "Z"
  }

  /** The time fields of a formatted timestamp read back as the clock's hour, minute and second. */
  lemma FormatTimestampFields(t: DateTime)
    requires ValidDateTime(t)
    ensures var s := FormatTimestamp(t);
      && AllDigits(s[11..13]) && AllDigits(s[14..16]) && AllDigits(s[17..19])
      && DigitsValue(s[11..13]) == t.hour && DigitsValue(s[14..16]) == t.minute
      && DigitsValue(s[17..19]) == t.second
  {
    var s := FormatTimestamp(t);
    assert s[11..13] == PadDigits(t.hour, 2);
    assert s[14..16] == PadDigits(t.minute, 2);
    assert s[17..19] == PadDigits(t.second, 2);
    PadDigitsValue(t.hour, 2);
    PadDigitsValue(t.minute, 2);
    PadDigitsValue(t.second, 2);
  }

  // ------------------------------------------------------------------
  // Zone-aware instants
  // ------------------------------------------------------------------

  /**
   * A `datetime` object: its wall clock and, when it is aware, its UTC
   * offset in seconds (`None` for a naive value).
   */
  datatype Moment = Moment(wall: DateTime, offset: Option<int>)

  predicate ValidMoment(m: Moment) {
    ValidDateTime(m.wall) && (m.offset.Some? ==> -86_400 < m.offset.value < 86_400)
  }

  /** A `datetime` object, which always holds a valid date and time. */
  type DateTimeValue = m: Moment | ValidMoment(m) witness Moment(DateTime(Date(2000, 1, 1), 0, 0, 0, 0), None)

  /**
   * `m.timestamp()`, in microseconds since 0001-01-01T00:00Z: an aware value
   * subtracts its own offset, a naive one the host's `localOffset`. Moving
   * the instant forward by the offset in force gives back the moment's own
   * wall clock.
   */
  function InstantOf(m: Moment, localOffset: int): (n: int)
    requires ValidMoment(m)
    ensures var back := n + (if m.offset.Some? then m.offset.value else localOffset) * MicrosPerSecond;
            back >= 0 && FromWallMicros(back) == m.wall
  {
    var offset := if m.offset.Some? then m.offset.value else localOffset;
    FromWallMicrosOfWallMicros(m.wall);
    WallMicros(m.wall) - offset * MicrosPerSecond
  }

  /** An aware UTC moment reads back as its own wall clock. */
  lemma UtcInstant(t: DateTime, localOffset: int)
    requires ValidDateTime(t)
    ensures InstantOf(Moment(t, Some(0)), localOffset) == WallMicros(t)
  {
  }
}
