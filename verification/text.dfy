/** Cell-text primitives of the ingestion step: Python's argument-less
    `str.strip()` and the decimal conversion that `int()` performs on a
    stripped medal-count cell.

    Simplification: `int()` also accepts a leading sign, underscores between
    digits and non-ASCII decimal digits; here a count is a non-empty run of
    ASCII digits `0`-`9` and anything else is a conversion failure. */
module Text {

  import opened Results

  /** The characters for which Python's `str.isspace()` holds, which is the
      set an argument-less `strip()` removes: the ASCII controls TAB..CR, the
      information separators U+001C..U+001F, SPACE, NEL, NO-BREAK SPACE and the
      Unicode space, line and paragraph separators. */
  const SpaceChars: set<char> := {
    '\t', '\n', '\U{B}', '\U{C}', '\r',
    '\U{1C}', '\U{1D}', '\U{1E}', '\U{1F}',
    ' ', '\U{85}', '\U{A0}', '\U{1680}',
    '\U{2000}', '\U{2001}', '\U{2002}', '\U{2003}', '\U{2004}', '\U{2005}',
    '\U{2006}', '\U{2007}', '\U{2008}', '\U{2009}', '\U{200A}',
    '\U{2028}', '\U{2029}', '\U{202F}', '\U{205F}', '\U{3000}'
  }

  predicate IsSpace(c: char) {
    c in SpaceChars
  }

  predicate AllSpace(s: string) {
    forall k :: 0 <= k < |s| ==> IsSpace(s[k])
  }

  /** A string that `strip()` leaves as it is: empty, or starting and ending
      with a non-space character. */
  predicate Trimmed(t: string) {
    t == [] || (!IsSpace(t[0]) && !IsSpace(t[|t| - 1]))
  }

  /** Python `s.strip()`: drops whitespace from both ends. */
  function Strip(s: string): (r: string)
    ensures Trimmed(r)
    ensures |r| <= |s|
    decreases |s|
  {
    if s != [] && IsSpace(s[0]) then Strip(s[1..])
    else if s != [] && IsSpace(s[|s| - 1]) then Strip(s[..|s| - 1])
    else s
  }

  /** `strip()` is characterised by its result: whenever `s` is a trimmed
      text `t` surrounded by whitespace, `strip()` returns exactly `t`. */
  lemma {:induction false} StripPadded(p: string, t: string, q: string)
    requires AllSpace(p) && AllSpace(q) && Trimmed(t)
    ensures Strip(p + t + q) == t
    decreases |p| + |q|
  {
    var s := p + t + q;
    if p != [] {
      assert s[0] == p[0];
      assert s[1..] == p[1..] + t + q;
      StripPadded(p[1..], t, q);
    } else if q != [] && t == [] {
      assert s == q;
      assert s[1..] == p + t + q[1..];
      StripPadded(p, t, q[1..]);
    } else if q != [] {
      assert s == t + q;
      assert s[|s| - 1] == q[|q| - 1];
      assert s[0] == t[0];
      assert s[..|s| - 1] == p + t + q[..|q| - 1];
      StripPadded(p, t, q[..|q| - 1]);
    } else {
      assert s == t;
    }
  }

  /** The inputs `strip()` maps to the empty string are exactly the
      whitespace-only ones. */
  lemma {:induction false} StripEmptyIffAllSpace(s: string)
    ensures Strip(s) == [] <==> AllSpace(s)
    decreases |s|
  {
    if s != [] && IsSpace(s[0]) {
      StripEmptyIffAllSpace(s[1..]);
      assert s == [s[0]] + s[1..];
    } else if s != [] && IsSpace(s[|s| - 1]) {
      var init := s[..|s| - 1];
      StripEmptyIffAllSpace(init);
      if |s| >= 2 {
        assert init[0] == s[0];
      }
    }
  }

  /** Stripping twice is stripping once. */
  lemma StripIdempotent(s: string)
    ensures Strip(Strip(s)) == Strip(s)
  {
    StripTrimmed(Strip(s));
  }

  /** Text without surrounding whitespace is left as it is. */
  lemma StripTrimmed(t: string)
    requires Trimmed(t)
    ensures Strip(t) == t
  {
  }

  predicate IsDigit(c: char) {
    '0' <= c <= '9'
  }

  predicate AllDigits(s: string) {
    forall k :: 0 <= k < |s| ==> IsDigit(s[k])
  }

  function DigitValue(c: char): (d: nat)
    requires IsDigit(c)
    ensures d < 10
  {
    c as int - '0' as int
  }

  function DigitChar(d: nat): (c: char)
    requires d < 10
    ensures IsDigit(c) && DigitValue(c) == d
  {
    ('0' as int + d) as char
  }

  /** Base-10 value of a run of digits, most significant digit first. */
  function DigitsValue(s: string): nat
    requires AllDigits(s)
  {
    if s == [] then 0 else DigitsValue(s[..|s| - 1]) * 10 + DigitValue(s[|s| - 1])
  }

  /** The simplified `int()` on an already stripped, non-empty cell. */
  function ParseDecimal(t: string): (r: Option<int>)
    ensures r.Some? <==> t != [] && AllDigits(t)
    ensures r.Some? ==> r.value >= 0
  {
    if t != [] && AllDigits(t) then Some(DigitsValue(t)) else None
  }

  /** The shortest decimal rendering of a natural number (Python `str(n)`). */
  function ShowNat(n: nat): (s: string)
    ensures s != [] && AllDigits(s)
  {
    if n < 10 then [DigitChar(n)] else ShowNat(n / 10) + [DigitChar(n % 10)]
  }

  lemma {:induction false} DigitsValueShowNat(n: nat)
    ensures DigitsValue(ShowNat(n)) == n
  {
    if n >= 10 {
      var s := ShowNat(n);
      assert s[..|s| - 1] == ShowNat(n / 10);
      DigitsValueShowNat(n / 10);
    }
  }

  /** Round trip: the decimal rendering of any count parses back to it. */
  lemma ParseShowNat(n: nat)
    ensures ParseDecimal(ShowNat(n)) == Some(n)
  {
    DigitsValueShowNat(n);
  }

  /** A rendered count is unaffected by `strip()`. */
  lemma ShowNatTrimmed(n: nat)
    ensures Trimmed(ShowNat(n))
  {
    var s := ShowNat(n);
    assert IsDigit(s[0]) && IsDigit(s[|s| - 1]);
  }

  /** Leading zeros do not change the value, as with `int("007") == 7`. */
  lemma {:induction false} LeadingZeroIgnored(t: string)
    requires AllDigits(t)
    ensures AllDigits(['0'] + t) && DigitsValue(['0'] + t) == DigitsValue(t)
  {
    var z := ['0'] + t;
    if t != [] {
      assert z[..|z| - 1] == ['0'] + t[..|t| - 1];
      LeadingZeroIgnored(t[..|t| - 1]);
    }
  }
}
