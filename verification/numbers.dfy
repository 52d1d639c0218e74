/**
 * Exact decimal numbers standing in for the Python floats the scrapers
 * produce, and the decimal-numeral subset of `float(str)`.
 */
module Numbers {
  import opened Wrappers
  import opened Text

  /** The number `mantissa / 10^scale`: "8.60" is Decimal(860, 2). */
  datatype Decimal = Decimal(mantissa: int, scale: nat) {
    /** Python truthiness of the float: only zero is falsy. */
    predicate IsZero() {
      mantissa == 0
    }
  }

  /** `s` is ASCII digits with at most one '.' and at least one digit. */
  predicate IsUnsignedNumeral(s: string) {
    && (forall i :: 0 <= i < |s| ==> IsDigit(s[i]) || s[i] == '.')
    && (forall i, j :: 0 <= i < j < |s| ==> s[i] != '.' || s[j] != '.')
    && (exists i :: 0 <= i < |s| && IsDigit(s[i]))
  }

  /** The decimal numerals `float()` accepts: an optional sign, then digits with at most one point. */
  predicate IsNumeral(s: string) {
    if |s| > 0 && (s[0] == '+' || s[0] == '-') then IsUnsignedNumeral(s[1..]) else IsUnsignedNumeral(s)
  }

  function ParseUnsigned(s: string): (r: Option<Decimal>)
    ensures r.Some? ==> r.value.mantissa >= 0
  {
    match Find(s, ".")
    case None =>
      if |s| > 0 && AllDigits(s) then Some(Decimal(DigitsValue(s), 0)) else None
    case Some(k) =>
      var whole, frac := s[..k], s[k + 1..];
      if |s| > 1 && AllDigits(whole) && AllDigits(frac) then
        Some(Decimal(DigitsValue(whole + frac), |frac|))
      else
        None
  }

  lemma OccursAtChar(s: string, k: int)
    ensures OccursAt(s, ".", k) <==> 0 <= k < |s| && s[k] == '.'
  {
    if 0 <= k < |s| {
      assert s[k..k + 1] == [s[k]];
    }
  }

  lemma ParseUnsignedAccepts(s: string)
    ensures ParseUnsigned(s).Some? <==> IsUnsignedNumeral(s)
  {
    forall k ensures OccursAt(s, ".", k) <==> 0 <= k < |s| && s[k] == '.' {
      OccursAtChar(s, k);
    }
    match Find(s, ".")
    case None =>
      if |s| > 0 && AllDigits(s) {
        assert IsDigit(s[0]);
      }
    case Some(k) =>
      var whole, frac := s[..k], s[k + 1..];
      if |s| > 1 && AllDigits(whole) && AllDigits(frac) {
        forall i | 0 <= i < |s| ensures IsDigit(s[i]) || s[i] == '.' {
          if i < k { assert s[i] == whole[i]; }
          else if i > k { assert s[i] == frac[i - k - 1]; }
        }
        var d := if k == 0 then 1 else 0;
        if k == 0 { assert s[1] == frac[0]; } else { assert s[0] == whole[0]; }
        assert IsDigit(s[d]);
      }
      if IsUnsignedNumeral(s) {
        forall i | 0 <= i < |whole| ensures IsDigit(whole[i]) {
          assert whole[i] == s[i];
        }
        forall i | 0 <= i < |frac| ensures IsDigit(frac[i]) {
          assert frac[i] == s[k + 1 + i];
          assert s[k] == '.';
        }
        var i :| 0 <= i < |s| && IsDigit(s[i]);
        assert i != k;
      }
  }

  /** Splits off an optional leading sign: whether it was '-', and the rest. */
  function SplitSign(s: string): (r: (bool, string))
    ensures |r.1| <= |s|
  {
    if |s| > 0 && s[0] == '-' then (true, s[1..])
    else if |s| > 0 && s[0] == '+' then (false, s[1..])
    else (false, s)
  }

  /** `float(s)` on an already stripped string. */
  function ParseFloat(s: string): (r: Option<Decimal>)
  {
    var (negative, body) := SplitSign(s);
    match ParseUnsigned(body)
    case None => None
    case Some(d) => Some(if negative then Decimal(-d.mantissa, d.scale) else d)
  }

  /** `float()` yields a number exactly for the decimal numerals, and raises for everything else. */
  lemma ParseFloatAccepts(s: string)
    ensures ParseFloat(s).Some? <==> IsNumeral(s)
  {
    ParseUnsignedAccepts(SplitSign(s).1);
  }

  /** The digits of |mantissa|, at least one more than the scale (so there is an integer part). */
  function MagnitudeDigits(d: Decimal): (s: string)
    ensures AllDigits(s) && |s| > d.scale
    ensures DigitsValue(s) == if d.mantissa < 0 then -d.mantissa else d.mantissa
  {
    var m: nat := if d.mantissa < 0 then -d.mantissa else d.mantissa;
    var w := if NumDigits(m) > d.scale then NumDigits(m) else d.scale + 1;
    assert m < Pow10(w) by { Pow10Monotone(NumDigits(m), w); }
    PadDigitsValue(m, w);
    PadDigits(m, w)
  }

  lemma {:induction false} Pow10Monotone(a: nat, b: nat)
    requires a <= b
    ensures Pow10(a) <= Pow10(b)
  {
    if a < b {
      Pow10Monotone(a, b - 1);
    }
  }

  /** `digits` with `point` inserted `scale` places from the right (none when `scale` is 0). */
  function PlacePoint(digits: string, scale: nat, point: char): string
    requires |digits| > scale
  {
    if scale == 0 then digits else digits[..|digits| - scale] + [point] + digits[|digits| - scale..]
  }

  /** The number written with `point` as its decimal separator, as a document would print it. */
  function Render(d: Decimal, point: char): string
  {
    (if d.mantissa < 0 then "-" else "") + PlacePoint(MagnitudeDigits(d), d.scale, point)
  }

  lemma {:induction false} DigitsValueSplit(a: string, b: string)
    requires AllDigits(a) && AllDigits(b)
    ensures AllDigits(a + b)
    ensures DigitsValue(a + b) == DigitsValue(a) * Pow10(|b|) + DigitsValue(b)
  {
    if |b| == 0 {
      assert a + b == a;
    } else {
      var b' := b[..|b| - 1];
      var ab := a + b;
      assert ab[..|ab| - 1] == a + b';
      assert ab[|ab| - 1] == b[|b| - 1];
      DigitsValueSplit(a, b');
      var x, p, y, c := DigitsValue(a), Pow10(|b'|), DigitsValue(b'), DigitValue(b[|b| - 1]);
      assert DigitsValue(ab) == DigitsValue(a + b') * 10 + c;
      assert DigitsValue(b) == y * 10 + c;
      assert Pow10(|b|) == p * 10;
      Regroup(x, p, y, c);
    }
  }

  lemma Regroup(x: int, p: int, y: int, c: int)
    ensures (x * p + y) * 10 + c == x * (p * 10) + (y * 10 + c)
  {
    calc {
      (x * p + y) * 10 + c;
      x * p * 10 + y * 10 + c;
      x * (p * 10) + (y * 10 + c);
    }
  }

  lemma ParseUnsignedDigits(digits: string)
    requires |digits| > 0 && AllDigits(digits)
    ensures ParseUnsigned(digits) == Some(Decimal(DigitsValue(digits), 0))
  {
    forall k ensures !OccursAt(digits, ".", k) {
      OccursAtChar(digits, k);
    }
  }

  lemma ParseUnsignedPointed(whole: string, frac: string)
    requires |whole| > 0 && AllDigits(whole) && AllDigits(frac)
    ensures ParseUnsigned(whole + "." + frac) == Some(Decimal(DigitsValue(whole + frac), |frac|))
  {
    var body := whole + "." + frac;
    OccursAtChar(body, |whole|);
    forall k | 0 <= k < |whole| ensures !OccursAt(body, ".", k) {
      OccursAtChar(body, k);
    }
    assert Find(body, ".") == Some(|whole|);
    assert body[..|whole|] == whole;
    assert body[|whole| + 1..] == frac;
  }

  /** Digits with a point inserted `scale` places from the right read back as those digits scaled. */
  lemma PointedDigitsParse(digits: string, scale: nat)
    requires AllDigits(digits) && |digits| > scale
    ensures ParseUnsigned(PlacePoint(digits, scale, '.')) == Some(Decimal(DigitsValue(digits), scale))
    ensures PlacePoint(digits, scale, '.')[0] == digits[0]
  {
    if scale == 0 {
      ParseUnsignedDigits(digits);
    } else {
      FractionParse(digits, scale);
    }
  }

  lemma FractionParse(digits: string, scale: nat)
    requires AllDigits(digits) && 0 < scale < |digits|
    ensures ParseUnsigned(PlacePoint(digits, scale, '.')) == Some(Decimal(DigitsValue(digits), scale))
    ensures PlacePoint(digits, scale, '.')[0] == digits[0]
  {
    var k := |digits| - scale;
    var whole, frac := digits[..k], digits[k..];
    PlacePointSplit(digits, scale, whole, frac);
    ParseUnsignedPointed(whole, frac);
    SplitJoin(digits, k);
  }

  lemma PlacePointSplit(digits: string, scale: nat, whole: string, frac: string)
    requires 0 < scale < |digits|
    requires whole == digits[..|digits| - scale] && frac == digits[|digits| - scale..]
    ensures PlacePoint(digits, scale, '.') == whole + "." + frac
    ensures (whole + "." + frac)[0] == digits[0]
  {
  }

  lemma SplitJoin(s: string, k: nat)
    requires k <= |s|
    ensures s[..k] + s[k..] == s
  {
  }

  /** A rendered number is its optional minus sign followed by its magnitude with the point placed. */
  lemma RenderShape(d: Decimal, point: char)
    ensures Render(d, point) == (if d.mantissa < 0 then "-" else "") + PlacePoint(MagnitudeDigits(d), d.scale, point)
  {
  }

  lemma SplitSignOf(negative: bool, body: string)
    requires |body| > 0 && IsDigit(body[0])
    ensures SplitSign((if negative then "-" else "") + body) == (negative, body)
  {
    if negative {
      assert ("-" + body)[1..] == body;
    } else {
      assert "" + body == body;
    }
  }

  lemma ParseFloatSigned(s: string, negative: bool, body: string, u: Decimal)
    requires SplitSign(s) == (negative, body)
    requires ParseUnsigned(body) == Some(u)
    ensures ParseFloat(s) == Some(if negative then Decimal(-u.mantissa, u.scale) else u)
  {
  }

  /** Printing with a '.' point and reading back with `float()` gives the number back. */
  lemma RenderRoundTrip(d: Decimal)
    ensures ParseFloat(Render(d, '.')) == Some(d)
  {
    var digits := MagnitudeDigits(d);
    var body := PlacePoint(digits, d.scale, '.');
    var negative := d.mantissa < 0;
    PointedDigitsParse(digits, d.scale);
    RenderShape(d, '.');
    SplitSignOf(negative, body);
    ParseFloatSigned(Render(d, '.'), negative, body, Decimal(DigitsValue(digits), d.scale));
  }

  /** Only minus signs, digits and `point` occur in `s`. */
  predicate NumeralChars(s: string, point: char) {
    forall i :: 0 <= i < |s| ==> s[i] == '-' || IsDigit(s[i]) || s[i] == point
  }

  lemma NumeralCharsAppend(a: string, b: string, point: char)
    requires NumeralChars(a, point) && NumeralChars(b, point)
    ensures NumeralChars(a + b, point)
  {
    forall i | 0 <= i < |a + b| ensures (a + b)[i] == '-' || IsDigit((a + b)[i]) || (a + b)[i] == point {
      if i >= |a| {
        assert (a + b)[i] == b[i - |a|];
      }
    }
  }

  /** The pieces of a point placed inside digits. */
  lemma PlacePointPieces(digits: string, scale: nat, point: char)
    requires AllDigits(digits) && |digits| > scale > 0
    ensures var k := |digits| - scale;
      && PlacePoint(digits, scale, point) == digits[..k] + ([point] + digits[k..])
      && AllDigits(digits[..k]) && AllDigits(digits[k..])
  {
    var k := |digits| - scale;
    assert forall i :: 0 <= i < |digits[k..]| ==> digits[k..][i] == digits[k + i];
  }

  /** A rendered number holds only an optional minus sign, digits and the point character. */
  lemma RenderChars(d: Decimal, point: char)
    ensures NumeralChars(Render(d, point), point)
  {
    var digits := MagnitudeDigits(d);
    var sign := if d.mantissa < 0 then "-" else "";
    RenderShape(d, point);
    if d.scale > 0 {
      var k := |digits| - d.scale;
      PlacePointPieces(digits, d.scale, point);
      NumeralCharsAppend([point], digits[k..], point);
      NumeralCharsAppend(digits[..k], [point] + digits[k..], point);
      NumeralCharsAppend(sign, PlacePoint(digits, d.scale, point), point);
    } else {
      NumeralCharsAppend(sign, digits, point);
    }
  }

  /** Replacing ',' by '.' turns the comma form of a placed point into the point form. */
  lemma PlacePointCommaToPoint(digits: string, scale: nat)
    requires AllDigits(digits) && |digits| > scale
    ensures ReplaceChar(PlacePoint(digits, scale, ','), ',', ".") == PlacePoint(digits, scale, '.')
  {
    if scale > 0 {
      var k := |digits| - scale;
      PlacePointPieces(digits, scale, ',');
      PlacePointPieces(digits, scale, '.');
      NoCommaInDigits(digits[..k]);
      NoCommaInDigits(digits[k..]);
      ReplaceCharAppend(digits[..k], [','] + digits[k..], ',', ".");
      ReplaceCharAppend([','], digits[k..], ',', ".");
    } else {
      NoCommaInDigits(digits);
    }
  }

  /** A number printed with a decimal comma becomes its point form once the comma is replaced by '.'. */
  lemma RenderCommaToPoint(d: Decimal)
    ensures ReplaceChar(Render(d, ','), ',', ".") == Render(d, '.')
  {
    var digits := MagnitudeDigits(d);
    var sign := if d.mantissa < 0 then "-" else "";
    RenderShape(d, ',');
    RenderShape(d, '.');
    PlacePointCommaToPoint(digits, d.scale);
    ReplaceCharAppend(sign, PlacePoint(digits, d.scale, ','), ',', ".");
  }

  lemma NoCommaInDigits(s: string)
    requires AllDigits(s)
    ensures ',' !in s
  {
  }

  /** With a point or a comma between them, two digit strings read back through `ReplaceChar` as `whole.frac`. */
  lemma PointedGroup(whole: string, sep: char, frac: string)
    requires AllDigits(whole) && AllDigits(frac) && (sep == '.' || sep == ',')
    ensures ReplaceChar(whole + [sep] + frac, ',', ".") == whole + "." + frac
  {
    NoCommaInDigits(whole);
    NoCommaInDigits(frac);
    SeparatorToPoint(sep);
    ReplaceCharAppend(whole, [sep], ',', ".");
    ReplaceCharAppend(whole + [sep], frac, ',', ".");
  }

  lemma SeparatorToPoint(sep: char)
    requires sep == '.' || sep == ','
    ensures ReplaceChar([sep], ',', ".") == "."
  {
    assert [sep][1..] == [];
  }

  /** A pointed numeral has no whitespace to strip. */
  lemma PointedNoSpace(whole: string, frac: string)
    requires AllDigits(whole) && AllDigits(frac)
    ensures Strip(whole + "." + frac) == whole + "." + frac
  {
    NumeralCharsAppend(whole, ".", '.');
    NumeralCharsAppend(whole + ".", frac, '.');
    NumeralCharsNoSpace(whole + "." + frac, '.');
  }

  lemma NumeralCharsNoSpace(s: string, point: char)
    requires NumeralChars(s, point) && !IsSpace(point)
    ensures forall i :: 0 <= i < |s| ==> !IsSpace(s[i])
  {
  }
}
