/** `parse_relative_date`: turns a listing cell such as "2.1 weeks ago" into
    an instant before the current one. The text must begin with
    `([\d.]+)\s(years?|months?|weeks?|days?)\sago`; anything after `ago` is
    ignored. The magnitude becomes a whole number of days by rounding up
    (a year is 366 days, a month 31, a week 7), and the result is the
    current instant minus that many days. */
module RelativeDate {
  import opened Text
  import opened Results

  /** A wall-clock instant, counted in microseconds (the resolution of
      Python's `datetime`). */
  type Instant = int

  const MicrosPerDay: nat := 86_400_000_000

  datatype Unit = Year | Month | Week | Day

  /** The fixed length of each unit, in days. */
  function DaysPer(u: Unit): nat {
    match u
    case Year => 366
    case Month => 31
    case Week => 7
    case Day => 1
  }

  function UnitWord(u: Unit, plural: bool): string {
    var stem := match u
      case Year => "year"
      case Month => "month"
      case Week => "week"
      case Day => "day";
    if plural then stem + "s" else stem
  }

  /** What the date pattern matched: the captured number, the whitespace
      character after it, the unit word (singular or plural) and the
      whitespace character before `ago`. */
  datatype Phrase = Phrase(number: string, sep1: char, unit: Unit, plural: bool, sep2: char)

  predicate WellFormed(p: Phrase) {
    && |p.number| > 0
    && NumberChars(p.number)
    && IsSpace(p.sep1)
    && IsSpace(p.sep2)
  }

  /** The text after the number: unit word, whitespace, `ago`. */
  function UnitAgo(u: Unit, plural: bool, sep2: char): string {
    UnitWord(u, plural) + [sep2] + "ago"
  }

  /** The text a phrase stands for. */
  function Spelled(p: Phrase): string {
    p.number + [p.sep1] + UnitAgo(p.unit, p.plural, p.sep2)
  }

  /** Which unit stem, if any, `s` begins with. The four stems start with
      different letters, so at most one applies. */
  function StemAt(s: string): (r: Option<Unit>)
    ensures r.Some? ==> UnitWord(r.value, false) <= s
  {
    if "year" <= s then Some(Year)
    else if "month" <= s then Some(Month)
    else if "week" <= s then Some(Week)
    else if "day" <= s then Some(Day)
    else None
  }

  /** Matches `(years?|months?|weeks?|days?)\sago` at the start of `s`.
      The optional `s` is tried first; since `s` is not whitespace, at most
      one of the two spellings can be followed by whitespace. */
  function UnitAgoAt(s: string): (r: Option<(Unit, bool, char)>)
    ensures r.Some? ==> IsSpace(r.value.2) && UnitAgo(r.value.0, r.value.1, r.value.2) <= s
  {
    match StemAt(s)
    case None => None
    case Some(u) =>
      var after := s[|UnitWord(u, false)|..];
      if |after| >= 5 && after[0] == 's' && IsSpace(after[1]) && after[2..5] == "ago" then
        assert UnitAgo(u, true, after[1]) == s[..|UnitWord(u, false)| + 5];
        Some((u, true, after[1]))
      else if |after| >= 4 && IsSpace(after[0]) && after[1..4] == "ago" then
        assert UnitAgo(u, false, after[0]) == s[..|UnitWord(u, false)| + 4];
        Some((u, false, after[0]))
      else None
  }

  /** `re.match` of the date pattern: anchored at the start of the text
      only. The greedy `[\d.]+` takes every leading digit and dot; giving
      any back cannot help, as the next character must be whitespace. */
  function MatchRelative(text: string): (r: Option<Phrase>)
    ensures r.Some? ==> WellFormed(r.value) && Spelled(r.value) <= text
  {
    var n := Span(text, IsNumberChar);
    if n == 0 || n == |text| || !IsSpace(text[n]) then None
    else match UnitAgoAt(text[n + 1..])
      case None => None
      case Some((u, plural, sep2)) =>
        PhraseAtStart(text, n, u, plural, sep2);
        Some(Phrase(text[..n], text[n], u, plural, sep2))
  }

  lemma PhraseAtStart(text: string, n: nat, u: Unit, plural: bool, sep2: char)
    requires 0 < n < |text| && n == Span(text, IsNumberChar) && IsSpace(text[n]) && IsSpace(sep2)
    requires UnitAgo(u, plural, sep2) <= text[n + 1..]
    ensures WellFormed(Phrase(text[..n], text[n], u, plural, sep2))
    ensures Spelled(Phrase(text[..n], text[n], u, plural, sep2)) <= text
  {
    NumberSpan(text);
    PrefixAfter(text, n, UnitAgo(u, plural, sep2));
  }

  lemma PrefixAfter(text: string, n: nat, w: string)
    requires n < |text| && w <= text[n + 1..]
    ensures text[..n] + [text[n]] + w <= text
  {
    assert text[..n + 1 + |w|] == text[..n] + [text[n]] + text[n + 1..][..|w|];
  }

  lemma NumberSpan(s: string)
    ensures NumberChars(s[..Span(s, IsNumberChar)])
  {
    var n := Span(s, IsNumberChar);
    forall i | 0 <= i < n ensures IsNumberChar(s[..n][i]) {
      assert s[..n][i] == s[i];
    }
  }

  lemma UnitAgoComplete(u: Unit, plural: bool, sep2: char, rest: string)
    requires IsSpace(sep2)
    ensures UnitAgoAt(UnitAgo(u, plural, sep2) + rest) == Some((u, plural, sep2))
  {
    var s := UnitAgo(u, plural, sep2) + rest;
    var stem := UnitWord(u, false);
    assert s == stem + ((if plural then "s" else "") + [sep2] + "ago" + rest);
    assert StemAt(s) == Some(u) by {
      assert s[0] == stem[0];
    }
    var after := s[|stem|..];
    assert after == (if plural then "s" else "") + [sep2] + "ago" + rest;
    if plural {
      assert after[2..5] == "ago";
    } else {
      assert after[1..4] == "ago";
    }
  }

  /** Every well-formed phrase at the start of a text is found, whatever
      follows it. */
  lemma MatchComplete(p: Phrase, rest: string)
    requires WellFormed(p)
    ensures MatchRelative(Spelled(p) + rest) == Some(p)
  {
    var tail := UnitAgo(p.unit, p.plural, p.sep2) + rest;
    var text := p.number + ([p.sep1] + tail);
    assert Spelled(p) + rest == text;
    var n := |p.number|;
    assert !IsNumberChar(p.sep1);
    SpanOfRun(p.number, [p.sep1] + tail, IsNumberChar);
    assert text[n] == p.sep1;
    assert text[n + 1..] == tail;
    assert text[..n] == p.number;
    UnitAgoComplete(p.unit, p.plural, p.sep2, rest);
    MatchAt(text, n, p.unit, p.plural, p.sep2);
  }

  /** What `MatchRelative` returns once the number's extent and the unit
      are known. */
  lemma MatchAt(text: string, n: nat, u: Unit, plural: bool, sep2: char)
    requires 0 < n < |text| && n == Span(text, IsNumberChar) && IsSpace(text[n])
    requires UnitAgoAt(text[n + 1..]) == Some((u, plural, sep2))
    ensures MatchRelative(text) == Some(Phrase(text[..n], text[n], u, plural, sep2))
  {
  }

  /** A non-negative decimal number: `mantissa / 10^scale`. */
  datatype Decimal = Decimal(mantissa: nat, scale: nat)

  predicate HasDigit(s: string) {
    exists i :: 0 <= i < |s| && IsDigit(s[i])
  }

  predicate AtMostOneDot(s: string) {
    forall i, j :: 0 <= i < j < |s| && s[i] == '.' ==> s[j] != '.'
  }

  /** `float()` applied to the digits and dots the pattern captured; `None`
      where `float()` raises. The integer part runs up to the first dot and
      the fractional part follows it. */
  function ParseDecimal(s: string): Option<Decimal>
    requires NumberChars(s)
  {
    var k := Span(s, IsDigit);
    if k == |s| then
      if k == 0 then None else Some(Decimal(DigitsValue(s), 0))
    else if !AllDigits(s[k + 1..]) || (k == 0 && k + 1 == |s|) then None
    else
      DigitsValueAppend(s[..k], s[k + 1..]);
      Some(Decimal(DigitsValue(s[..k] + s[k + 1..]), |s| - k - 1))
  }

  /** `float()` accepts the captured number exactly when it holds a digit
      and at most one dot ("1.", ".5" are numbers; ".", "1.2.3" are not). */
  lemma ParseDecimalAccepts(s: string)
    requires NumberChars(s)
    ensures ParseDecimal(s).Some? <==> HasDigit(s) && AtMostOneDot(s)
  {
    var k := Span(s, IsDigit);
    if k == |s| {
      assert AllDigits(s);
      if k > 0 { assert IsDigit(s[0]); }
    } else {
      assert !IsDigit(s[k]) && IsNumberChar(s[k]);
      var frac := s[k + 1..];
      if !AllDigits(frac) {
        var j :| 0 <= j < |frac| && !IsDigit(frac[j]);
        assert s[k + 1 + j] == frac[j];
        assert IsNumberChar(s[k + 1 + j]);
        assert !AtMostOneDot(s);
      } else {
        forall i | 0 <= i < |s| && i != k ensures IsDigit(s[i]) {
          if i > k { assert s[i] == frac[i - k - 1]; }
        }
        if k > 0 { assert IsDigit(s[0]); }
        if k + 1 < |s| { assert IsDigit(s[k + 1]); }
      }
    }
  }

  /** The value `float()` gives to a run of digits without a dot. */
  lemma WholeNumberValue(intPart: string)
    requires AllDigits(intPart) && |intPart| > 0
    ensures ParseDecimal(intPart) == Some(Decimal(DigitsValue(intPart), 0))
  {
    SpanOfRun(intPart, [], IsDigit);
    assert intPart + [] == intPart;
  }

  /** How `ParseDecimal` splits an integer part, a dot and a fractional
      part. */
  lemma DottedNumber(intPart: string, fracPart: string)
    requires AllDigits(intPart) && AllDigits(fracPart)
    ensures NumberChars(intPart + "." + fracPart)
    ensures Span(intPart + "." + fracPart, IsDigit) == |intPart|
    ensures (intPart + "." + fracPart)[..|intPart|] == intPart
    ensures (intPart + "." + fracPart)[|intPart| + 1..] == fracPart
  {
    var tail := "." + fracPart;
    var s := intPart + tail;
    assert intPart + "." + fracPart == s;
    assert s[..|intPart|] == intPart;
    assert s[|intPart|..] == tail;
    assert tail[1..] == fracPart;
    NumberCharsConcat(intPart, tail);
    SpanOfRun(intPart, tail, IsDigit);
  }

  lemma NumberCharsConcat(a: string, b: string)
    requires AllDigits(a)
    requires |b| > 0 && b[0] == '.' && AllDigits(b[1..])
    ensures NumberChars(a + b)
  {
    forall i | 0 <= i < |a + b| ensures IsNumberChar((a + b)[i]) {
      if i < |a| {
        assert (a + b)[i] == a[i];
      } else if i > |a| {
        assert (a + b)[i] == b[1..][i - |a| - 1];
      }
    }
  }

  /** The value `float()` gives to an integer part, a dot and a fractional
      part: the digits read as one number, scaled down by the length of the
      fractional part. */
  lemma FractionValue(intPart: string, fracPart: string)
    requires AllDigits(intPart) && AllDigits(fracPart)
    requires |intPart| + |fracPart| > 0
    ensures NumberChars(intPart + "." + fracPart)
    ensures ParseDecimal(intPart + "." + fracPart).Some?
    ensures ParseDecimal(intPart + "." + fracPart).value.scale == |fracPart|
    ensures ParseDecimal(intPart + "." + fracPart).value.mantissa
        == DigitsValue(intPart) * Pow10(|fracPart|) + DigitsValue(fracPart)
  {
    DottedNumber(intPart, fracPart);
    DigitsValueAppend(intPart, fracPart);
  }

  /** The least whole number `q` with `q * b >= a`: the ceiling of `a / b`. */
  function CeilDiv(a: nat, b: nat): (q: nat)
    requires b > 0
    ensures q * b >= a
    ensures (q - 1) * b < a
  {
    var q := (a + b - 1) / b;
    assert a + b - 1 == q * b + (a + b - 1) % b;
    q
  }

  /** The whole number of days a magnitude of `u` amounts to, rounded up:
      the ceiling of `d * DaysPer(u)`. */
  function AgeInDays(d: Decimal, u: Unit): (days: nat)
    ensures days * Pow10(d.scale) >= d.mantissa * DaysPer(u)
    ensures (days - 1) * Pow10(d.scale) < d.mantissa * DaysPer(u)
  {
    CeilDiv(d.mantissa * DaysPer(u), Pow10(d.scale))
  }

  /** `parse_relative_date(text)` with the clock reading `now`: no match
      gives `None`, a captured number `float()` rejects raises, and
      otherwise the result is a whole number of days before `now`. */
  function ParseRelativeDate(text: string, now: Instant): (r: Result<Option<Instant>>)
    ensures r == Ok(None) <==> MatchRelative(text).None?
    ensures r.Err? <==> MatchRelative(text).Some? && ParseDecimal(MatchRelative(text).value.number).None?
    ensures r.Err? ==> r.error == NotANumber(MatchRelative(text).value.number)
    ensures r.Ok? && r.value.Some? ==> r.value.value <= now
  {
    match MatchRelative(text)
    case None => Ok(None)
    case Some(p) => PhraseInstant(p, now)
  }

  /** The instant a matched phrase stands for, or the error `float()`
      raises on its number. */
  function PhraseInstant(p: Phrase, now: Instant): Result<Option<Instant>>
    requires WellFormed(p)
  {
    match ParseDecimal(p.number)
    case None => Err(NotANumber(p.number))
    case Some(d) => Ok(Some(now - AgeInDays(d, p.unit) * MicrosPerDay))
  }

  /** The date a well-formed phrase yields, whatever text follows it. */
  lemma PhraseDate(p: Phrase, rest: string, now: Instant, d: Decimal)
    requires WellFormed(p)
    requires ParseDecimal(p.number) == Some(d)
    ensures ParseRelativeDate(Spelled(p) + rest, now) == Ok(Some(now - AgeInDays(d, p.unit) * MicrosPerDay))
  {
    MatchComplete(p, rest);
    MatchedPhrase(Spelled(p) + rest, p, now);
    PhraseInstantOf(p, now, d);
  }

  lemma PhraseInstantOf(p: Phrase, now: Instant, d: Decimal)
    requires WellFormed(p) && ParseDecimal(p.number) == Some(d)
    ensures PhraseInstant(p, now) == Ok(Some(now - AgeInDays(d, p.unit) * MicrosPerDay))
  {
  }

  lemma MatchedPhrase(text: string, p: Phrase, now: Instant)
    requires WellFormed(p) && MatchRelative(text) == Some(p)
    ensures ParseRelativeDate(text, now) == PhraseInstant(p, now)
  {
  }

  /** The parser answers `None` exactly when the text does not begin with a
      phrase of the pattern; it never answers `None` for a text that does. */
  lemma NoDateIffNoPhrase(text: string, now: Instant)
    ensures ParseRelativeDate(text, now) == Ok(None)
        <==> !exists p :: WellFormed(p) && Spelled(p) <= text
  {
    if exists p :: WellFormed(p) && Spelled(p) <= text {
      var p :| WellFormed(p) && Spelled(p) <= text;
      assert text == Spelled(p) + text[|Spelled(p)|..];
      MatchComplete(p, text[|Spelled(p)|..]);
    }
  }

  /** `d1` is at most `d2` as a rational number. */
  predicate NotLarger(d1: Decimal, d2: Decimal) {
    d1.mantissa * Pow10(d2.scale) <= d2.mantissa * Pow10(d1.scale)
  }

  lemma MulLeft(x: int, y: int, z: nat)
    requires x <= y
    ensures z * x <= z * y
  {}

  /** Ceilings of two quotients are ordered as the quotients are. */
  lemma CeilingsOrdered(a1: nat, b1: nat, c1: nat, a2: nat, b2: nat, c2: nat)
    requires b1 > 0 && b2 > 0
    requires (c1 - 1) * b1 < a1 && c2 * b2 >= a2
    requires a1 * b2 <= a2 * b1
    ensures c1 <= c2
  {
    if c1 > c2 {
      // c2 * b1 < a1, so c2 * b1 * b2 < a1 * b2 <= a2 * b1 <= c2 * b2 * b1.
      MulLeft(c2, c1 - 1, b1);
      MulLeft(b1 * c2, a1 - 1, b2);
      MulLeft(a2, c2 * b2, b1);
      assert false;
    }
  }

  lemma CrossScaled(m1: nat, b2: nat, m2: nat, b1: nat, k: nat)
    requires m1 * b2 <= m2 * b1
    ensures (m1 * k) * b2 <= (m2 * k) * b1
  {
    MulLeft(m1 * b2, m2 * b1, k);
    assert (m1 * k) * b2 == k * (m1 * b2);
    assert (m2 * k) * b1 == k * (m2 * b1);
  }

  /** For a fixed unit, a larger magnitude never gives fewer days. */
  lemma AgeMonotone(d1: Decimal, d2: Decimal, u: Unit)
    requires NotLarger(d1, d2)
    ensures AgeInDays(d1, u) <= AgeInDays(d2, u)
  {
    var k := DaysPer(u);
    var b1, b2 := Pow10(d1.scale), Pow10(d2.scale);
    CrossScaled(d1.mantissa, b2, d2.mantissa, b1, k);
    CeilingsOrdered(d1.mantissa * k, b1, AgeInDays(d1, u), d2.mantissa * k, b2, AgeInDays(d2, u));
  }

  /** For a fixed unit, a text with a larger magnitude never parses to a
      later instant. */
  lemma LargerMagnitudeNotLater(p1: Phrase, p2: Phrase, rest1: string, rest2: string, now: Instant, d1: Decimal, d2: Decimal)
    requires WellFormed(p1) && WellFormed(p2) && p1.unit == p2.unit
    requires ParseDecimal(p1.number) == Some(d1) && ParseDecimal(p2.number) == Some(d2)
    requires NotLarger(d1, d2)
    ensures ParseRelativeDate(Spelled(p1) + rest1, now) == Ok(Some(now - AgeInDays(d1, p1.unit) * MicrosPerDay))
    ensures ParseRelativeDate(Spelled(p2) + rest2, now) == Ok(Some(now - AgeInDays(d2, p2.unit) * MicrosPerDay))
    ensures now - AgeInDays(d2, p2.unit) * MicrosPerDay <= now - AgeInDays(d1, p1.unit) * MicrosPerDay
  {
    PhraseDate(p1, rest1, now, d1);
    PhraseDate(p2, rest2, now, d2);
    AgeMonotone(d1, d2, p1.unit);
  }

  /** "2.1 weeks ago" is 15 days back: 2.1 * 7 = 14.7, rounded up. */
  lemma FractionalWeeksRoundUp()
    ensures NumberChars("2.1") && ParseDecimal("2.1") == Some(Decimal(21, 1))
    ensures AgeInDays(Decimal(21, 1), Week) == 15
  {
    ReadsTwoPointOne();
  }

  lemma ReadsTwoPointOne()
    ensures NumberChars("2.1") && ParseDecimal("2.1") == Some(Decimal(21, 1))
  {
    assert "2" + "." + "1" == "2.1";
    FractionValue("2", "1");
    assert "2"[..0] == [] && "1"[..0] == [];
  }

  /** The day unit is rounded up too: "0.5 days ago" is one day back. */
  lemma HalfDayRoundsUp()
    ensures NumberChars("0.5") && ParseDecimal("0.5") == Some(Decimal(5, 1))
    ensures AgeInDays(Decimal(5, 1), Day) == 1
  {
    ReadsZeroPointFive();
  }

  lemma ReadsZeroPointFive()
    ensures NumberChars("0.5") && ParseDecimal("0.5") == Some(Decimal(5, 1))
  {
    assert "0" + "." + "5" == "0.5";
    FractionValue("0", "5");
    assert "0"[..0] == [] && "5"[..0] == [];
  }

  /** Hours are not a unit of this parser. */
  lemma HoursAreNotADate(now: Instant)
    ensures ParseRelativeDate("3 hours ago", now) == Ok(None)
  {
    var text := "3 hours ago";
    assert Span(text, IsNumberChar) == 1 by {
      assert "3" + " hours ago" == text;
      assert AllDigits("3");
      SpanOfRun("3", " hours ago", IsNumberChar);
    }
    assert text[1] == ' ';
    var rest := text[2..];
    assert rest[0] == 'h';
    assert StemAt(rest) == None;
    assert UnitAgoAt(rest) == None;
    assert MatchRelative(text) == None;
  }

  /** The pattern accepts "1.2.3" but `float()` does not. */
  lemma ThreeDottedNumberRaises(now: Instant)
    ensures ParseRelativeDate("1.2.3 days ago", now) == Err(NotANumber("1.2.3"))
  {
    var p := Phrase("1.2.3", ' ', Day, true, ' ');
    assert Spelled(p) + "" == "1.2.3 days ago";
    MatchComplete(p, "");
    ThreeDotsRejected();
  }

  lemma ThreeDotsRejected()
    ensures NumberChars("1.2.3") && ParseDecimal("1.2.3").None?
  {
    ParseDecimalAccepts("1.2.3");
    assert !AtMostOneDot("1.2.3") by {
      assert "1.2.3"[1] == '.' && "1.2.3"[3] == '.';
    }
  }
}
