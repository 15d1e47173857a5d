/**
 * Integer <-> decimal text, as the C library does it: `atoi` for reading
 * and `sprintf`'s `%d` conversion for writing non-negative values.
 */
module NumericText {

  /** The range of a 32-bit C `int`. */
  const IntMin: int := -0x8000_0000
  const IntMax: int := 0x7FFF_FFFF

  predicate IsDigit(c: char) {
    '0' <= c <= '9'
  }

  /** `isspace` in the C locale: space, \t, \n, \v, \f and \r. */
  predicate IsSpace(c: char) {
    c == ' ' || c == '\t' || c == '\n' || c == '\U{000B}' || c == '\U{000C}' || c == '\r'
  }

  predicate AllDigits(s: string) {
    forall i :: 0 <= i < |s| ==> IsDigit(s[i])
  }

  predicate AllSpace(s: string) {
    forall i :: 0 <= i < |s| ==> IsSpace(s[i])
  }

  /** `s` does not begin with a digit (it is empty or its first character is no digit). */
  predicate NoLeadingDigit(s: string) {
    s == [] || !IsDigit(s[0])
  }

  /** Length of the longest prefix of `s` made of white space. */
  function SpaceRun(s: string): (n: nat)
    ensures n <= |s|
    ensures n < |s| ==> !IsSpace(s[n])
  {
    if s != [] && IsSpace(s[0]) then 1 + SpaceRun(s[1..]) else 0
  }

  /** Length of the longest prefix of `s` made of decimal digits. */
  function DigitRun(s: string): (n: nat)
    ensures n <= |s|
  {
    if s != [] && IsDigit(s[0]) then 1 + DigitRun(s[1..]) else 0
  }

  /** The digit run is made of digits and is followed by a non-digit or the end of the text. */
  lemma {:induction false} DigitRunDigits(s: string)
    ensures AllDigits(s[..DigitRun(s)])
    ensures DigitRun(s) < |s| ==> !IsDigit(s[DigitRun(s)])
  {
    if s != [] && IsDigit(s[0]) {
      DigitRunDigits(s[1..]);
      assert s[..DigitRun(s)] == [s[0]] + s[1..][..DigitRun(s[1..])];
    }
  }

  /** The value of a digit character; every caller passes a digit, anything else counts 0. */
  function DigitValue(c: char): (d: nat)
    ensures d < 10
  {
    if IsDigit(c) then c as int - '0' as int else 0
  }

  function DigitChar(d: nat): (c: char)
    requires d < 10
    ensures IsDigit(c) && DigitValue(c) == d
  {
    ('0' as int + d) as char
  }

  /** The number a string of decimal digits denotes, most significant digit first. */
  function DigitsValue(digits: string): nat {
    if digits == [] then 0
    else 10 * DigitsValue(digits[..|digits| - 1]) + DigitValue(digits[|digits| - 1])
  }

  /**
   * C `atoi`: skip leading white space, accept one optional sign, read the
   * longest run of digits; no digits read gives 0.  The value is the exact
   * integer: what C does when it does not fit an `int` is left undefined,
   * and callers here require that it fits.
   */
  function Atoi(s: string): int {
    var t := s[SpaceRun(s)..];
    var unsigned := if t != [] && (t[0] == '+' || t[0] == '-') then t[1..] else t;
    var magnitude: int := DigitsValue(unsigned[..DigitRun(unsigned)]);
    if t != [] && t[0] == '-' then -magnitude else magnitude
  }

  /** The run `atoi` skips is made of white space. */
  lemma {:induction false} SpaceRunSpaces(s: string)
    ensures AllSpace(s[..SpaceRun(s)])
  {
    if s != [] && IsSpace(s[0]) {
      SpaceRunSpaces(s[1..]);
      assert s[..SpaceRun(s)] == [s[0]] + s[1..][..SpaceRun(s[1..])];
    }
  }

  lemma {:induction false} SpaceRunSkips(ws: string, s: string)
    requires AllSpace(ws)
    ensures SpaceRun(ws + s) == |ws| + SpaceRun(s)
  {
    if ws == [] {
      assert ws + s == s;
    } else {
      assert (ws + s)[0] == ws[0] && IsSpace(ws[0]);
      assert (ws + s)[1..] == ws[1..] + s;
      assert AllSpace(ws[1..]) by {
        forall i | 0 <= i < |ws| - 1 ensures IsSpace(ws[1..][i]) {
          assert ws[1..][i] == ws[i + 1];
        }
      }
      SpaceRunSkips(ws[1..], s);
    }
  }

  lemma {:induction false} DigitRunOf(digits: string, rest: string)
    requires AllDigits(digits) && NoLeadingDigit(rest)
    ensures DigitRun(digits + rest) == |digits|
  {
    if digits == [] {
      assert digits + rest == rest;
    } else {
      assert (digits + rest)[0] == digits[0];
      assert (digits + rest)[1..] == digits[1..] + rest;
      assert AllDigits(digits[1..]) by {
        forall i | 0 <= i < |digits| - 1 ensures IsDigit(digits[1..][i]) {
          assert digits[1..][i] == digits[i + 1];
        }
      }
      DigitRunOf(digits[1..], rest);
    }
  }

  /** Leading white space does not change what `atoi` reads. */
  lemma AtoiSkipsSpace(ws: string, s: string)
    requires AllSpace(ws)
    ensures Atoi(ws + s) == Atoi(s)
  {
    SpaceRunSkips(ws, s);
    assert (ws + s)[|ws| + SpaceRun(s)..] == s[SpaceRun(s)..];
  }

  /** An optional sign, then a non-empty run of digits ended by a non-digit or the end of the text. */
  lemma AtoiReadsNumber(sign: string, digits: string, rest: string)
    requires sign == "" || sign == "+" || sign == "-"
    requires digits != [] && AllDigits(digits) && NoLeadingDigit(rest)
    ensures Atoi(sign + digits + rest) == if sign == "-" then 0 - DigitsValue(digits) else DigitsValue(digits)
  {
    var t := sign + digits + rest;
    var unsigned := digits + rest;
    DigitRunOf(digits, rest);
    assert unsigned[..DigitRun(unsigned)] == digits;
    if sign == "" {
      assert t == unsigned;
      assert !IsSpace(t[0]) && !(t[0] == '+' || t[0] == '-');
    } else {
      assert t == [sign[0]] + unsigned;
      assert t[0] == sign[0] && t[1..] == unsigned;
    }
    assert SpaceRun(t) == 0;
    assert t[0..] == t;
  }

  /**
   * What `atoi` reads: white space, then an optional sign, then a non-empty
   * run of digits ended by a non-digit or the end of the text.
   */
  lemma AtoiReads(ws: string, sign: string, digits: string, rest: string)
    requires AllSpace(ws) && (sign == "" || sign == "+" || sign == "-")
    requires digits != [] && AllDigits(digits) && NoLeadingDigit(rest)
    ensures Atoi(ws + sign + digits + rest) == if sign == "-" then 0 - DigitsValue(digits) else DigitsValue(digits)
  {
    var t := sign + digits + rest;
    assert t[0] == if sign == "" then digits[0] else sign[0];
    assert ws + sign + digits + rest == ws + t;
    AtoiSkipsSpace(ws, t);
    AtoiReadsNumber(sign, digits, rest);
  }

  /** `atoi` reads nothing, hence 0, when the text starts with neither white space, a sign nor a digit. */
  lemma AtoiStopsAtJunk(s: string)
    requires s == [] || !(IsSpace(s[0]) || s[0] == '+' || s[0] == '-' || IsDigit(s[0]))
    ensures Atoi(s) == 0
  {
  }

  /** A sign with no digit after it, at the end of the text or before any non-digit, reads as 0. */
  lemma AtoiNoDigits(ws: string, sign: string, rest: string)
    requires AllSpace(ws) && (sign == "+" || sign == "-") && NoLeadingDigit(rest)
    ensures Atoi(ws + sign + rest) == 0
  {
    var t := sign + rest;
    assert ws + sign + rest == ws + t;
    AtoiSkipsSpace(ws, t);
    assert t[0] == sign[0] && t[1..] == rest;
    assert SpaceRun(t) == 0;
    assert t[0..] == t;
  }

  /** `sprintf("%d", n)` for a non-negative `n`. */
  function Decimal(n: nat): (text: string)
    ensures text != []
  {
    if n < 10 then [DigitChar(n)]
    else Decimal(n / 10) + [DigitChar(n % 10)]
  }

  /** `%d` writes only digits, with no leading zero. */
  lemma {:induction false} DecimalDigits(n: nat)
    ensures AllDigits(Decimal(n))
    ensures |Decimal(n)| > 1 ==> Decimal(n)[0] != '0'
  {
    if n >= 10 {
      DecimalDigits(n / 10);
      assert Decimal(n)[..|Decimal(n)| - 1] == Decimal(n / 10);
    }
  }

  /** Reading back what `%d` wrote gives the number. */
  lemma {:induction false} DecimalRoundTrip(n: nat)
    ensures AllDigits(Decimal(n)) && DigitsValue(Decimal(n)) == n
  {
    DecimalDigits(n);
    if n >= 10 {
      var text := Decimal(n);
      assert text[..|text| - 1] == Decimal(n / 10);
      DecimalRoundTrip(n / 10);
    }
  }

  /** `atoi` of a rendered number, followed by anything but a digit, is that number. */
  lemma AtoiOfDecimal(n: nat, rest: string)
    requires NoLeadingDigit(rest)
    ensures Atoi(Decimal(n) + rest) == n
  {
    DecimalRoundTrip(n);
    AtoiReadsNumber("", Decimal(n), rest);
    assert "" + Decimal(n) + rest == Decimal(n) + rest;
  }

  function Pow10(k: nat): (p: nat)
    ensures p >= 1
  {
    if k == 0 then 1 else 10 * Pow10(k - 1)
  }

  /** `%d` writes at most `k` digits for a number below 10^k. */
  lemma {:induction false} DecimalLengthAtMost(n: nat, k: nat)
    requires 1 <= k && n < Pow10(k)
    ensures |Decimal(n)| <= k
  {
    if n >= 10 {
      DecimalLengthAtMost(n / 10, k - 1);
    }
  }

  /** `%d` writes more than `k` digits for a number of at least 10^k. */
  lemma {:induction false} DecimalLengthAbove(n: nat, k: nat)
    requires Pow10(k) <= n
    ensures |Decimal(n)| > k
  {
    if k > 0 {
      DecimalLengthAbove(n / 10, k - 1);
    }
  }
}
