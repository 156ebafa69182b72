/** Character classes and string helpers shared by the scraper's parsers:
    Python's notion of whitespace (used both by `str.strip()` and by `\s` in
    a `str` regular expression), ASCII decimal digits, maximal prefix runs,
    stripping, and the numeric value of a digit string. */
module Text {

  /** `str.isspace()`: the characters Python treats as whitespace. The
      regular-expression class `\s` of a `str` pattern is the same set. */
  predicate IsSpace(c: char) {
    || ('\t' <= c <= '\r')
    || ('\U{1C}' <= c <= '\U{1F}')
    || c == ' '
    || c == '\U{85}'
    || c == '\U{A0}'
    || c == '\U{1680}'
    || ('\U{2000}' <= c <= '\U{200A}')
    || c == '\U{2028}'
    || c == '\U{2029}'
    || c == '\U{202F}'
    || c == '\U{205F}'
    || c == '\U{3000}'
  }

  /** `\d`, restricted to the ASCII digits. */
  predicate IsDigit(c: char) {
    '0' <= c <= '9'
  }

  /** The class `[\d.]`. */
  predicate IsNumberChar(c: char) {
    IsDigit(c) || c == '.'
  }

  predicate AllDigits(s: string) {
    forall i :: 0 <= i < |s| ==> IsDigit(s[i])
  }

  /** Every character is in the class `[\d.]`. */
  predicate NumberChars(s: string) {
    forall i :: 0 <= i < |s| ==> IsNumberChar(s[i])
  }

  predicate AllSpace(s: string) {
    forall i :: 0 <= i < |s| ==> IsSpace(s[i])
  }

  /** Length of the longest prefix of `s` whose characters all satisfy
      `accept`: what a greedy `[...]*` consumes. */
  function Span(s: string, accept: char -> bool): (n: nat)
    ensures n <= |s|
    ensures forall i :: 0 <= i < n ==> accept(s[i])
    ensures n < |s| ==> !accept(s[n])
  {
    if s == [] || !accept(s[0]) then 0 else 1 + Span(s[1..], accept)
  }

  /** A run of accepted characters followed by a rejected one (or by
      nothing) is exactly what `Span` measures. */
  lemma SpanOfRun(run: string, rest: string, accept: char -> bool)
    requires forall i :: 0 <= i < |run| ==> accept(run[i])
    requires rest == [] || !accept(rest[0])
    ensures Span(run + rest, accept) == |run|
  {
    var s := run + rest;
    assert forall i :: 0 <= i < |run| ==> s[i] == run[i];
    if rest != [] {
      assert s[|run|] == rest[0];
    }
  }

  /** Drops trailing whitespace. */
  function TrimEnd(s: string): (r: string)
    ensures r <= s
    ensures r == [] || !IsSpace(r[|r| - 1])
    ensures AllSpace(s[|r|..])
  {
    if s != [] && IsSpace(s[|s| - 1]) then
      var r := TrimEnd(s[..|s| - 1]);
      assert s[|r|..] == s[..|s| - 1][|r|..] + [s[|s| - 1]];
      r
    else s
  }

  /** `str.strip()` with no argument: drops leading and trailing
      whitespace. */
  function Strip(s: string): (r: string)
    ensures r == [] || (!IsSpace(r[0]) && !IsSpace(r[|r| - 1]))
    ensures |r| <= |s|
  {
    TrimEnd(s[Span(s, IsSpace)..])
  }

  lemma {:induction false} TrimEndPadded(t: string, w: string)
    requires AllSpace(w)
    requires t == [] || !IsSpace(t[|t| - 1])
    ensures TrimEnd(t + w) == t
    decreases |w|
  {
    if w == [] {
      assert t + w == t;
    } else {
      var w' := w[..|w| - 1];
      assert (t + w)[..|t + w| - 1] == t + w';
      TrimEndPadded(t, w');
    }
  }

  /** Stripping removes exactly the whitespace padding around a text that
      neither starts nor ends with whitespace. */
  lemma StripPadded(lead: string, t: string, trail: string)
    requires AllSpace(lead) && AllSpace(trail)
    requires t == [] || (!IsSpace(t[0]) && !IsSpace(t[|t| - 1]))
    ensures Strip(lead + t + trail) == t
  {
    var s := lead + t + trail;
    if t == [] {
      assert s == lead + trail;
      assert AllSpace(s);
      assert Span(s, IsSpace) == |s|;
      assert s[|s|..] == [];
    } else {
      assert s == lead + (t + trail);
      SpanOfRun(lead, t + trail, IsSpace);
      assert s[|lead|..] == t + trail;
      TrimEndPadded(t, trail);
    }
  }

  function Pow10(n: nat): (p: nat)
    ensures p >= 1
  {
    if n == 0 then 1 else 10 * Pow10(n - 1)
  }

  function DigitValue(c: char): nat
    requires IsDigit(c)
  {
    (c as int - '0' as int) as nat
  }

  /** The number a string of decimal digits denotes; the empty string
      denotes zero. */
  function DigitsValue(s: string): nat
    requires AllDigits(s)
  {
    if s == [] then 0 else 10 * DigitsValue(s[..|s| - 1]) + DigitValue(s[|s| - 1])
  }

  lemma AllDigitsConcat(a: string, b: string)
    requires AllDigits(a) && AllDigits(b)
    ensures AllDigits(a + b)
  {
    forall i | 0 <= i < |a + b| ensures IsDigit((a + b)[i]) {
      if i < |a| { assert (a + b)[i] == a[i]; } else { assert (a + b)[i] == b[i - |a|]; }
    }
  }

  lemma ShiftByTen(x: int, p: int)
    ensures 10 * (x * p) == x * (10 * p)
  {
  }

  /** Appending digits shifts the value left by as many decimal places. */
  lemma {:induction false} DigitsValueAppend(a: string, b: string)
    requires AllDigits(a) && AllDigits(b)
    ensures AllDigits(a + b)
    ensures DigitsValue(a + b) == DigitsValue(a) * Pow10(|b|) + DigitsValue(b)
    decreases |b|
  {
    AllDigitsConcat(a, b);
    if b == [] {
      assert a + b == a;
    } else {
      var b', c := b[..|b| - 1], b[|b| - 1];
      assert (a + b)[..|a + b| - 1] == a + b';
      assert (a + b)[|a + b| - 1] == c;
      DigitsValueAppend(a, b');
      var x, y, p := DigitsValue(a), DigitsValue(b'), Pow10(|b'|);
      assert DigitsValue(a + b) == 10 * (x * p + y) + DigitValue(c);
      assert DigitsValue(b) == 10 * y + DigitValue(c);
      assert Pow10(|b|) == 10 * p;
      ShiftByTen(x, p);
    }
  }
}
