/** Optional values: Python's `None` versus a value. */
module Opt {
  datatype Option<T> = None | Some(value: T)
}

/** Python's `int(text)` and the digit classes of `str.isdigit()` / `str.isdecimal()`,
    for the digit blocks listed in `IsDecimal` and the superscript and subscript digits. */
module PyInt {
  import opened Opt
  import opened PyText

  /** `c.isdecimal()` for the decimal-digit blocks modelled: ASCII, Arabic-Indic,
      Extended Arabic-Indic, Devanagari, Bengali, Thai, Lao and fullwidth digits. */
  predicate IsDecimal(c: char) {
    var n := c as int;
    0x30 <= n < 0x3A || 0x660 <= n < 0x66A || 0x6F0 <= n < 0x6FA || 0x966 <= n < 0x970
    || 0x9E6 <= n < 0x9F0 || 0xE50 <= n < 0xE5A || 0xED0 <= n < 0xEDA || 0xFF10 <= n < 0xFF1A
  }

  /** `unicodedata.digit(c)` for a decimal digit. */
  function DecimalValue(c: char): (d: nat)
    requires IsDecimal(c)
    ensures d < 10
  {
    var n := c as int;
    if 0x30 <= n < 0x3A then n - 0x30
    else if 0x660 <= n < 0x66A then n - 0x660
    else if 0x6F0 <= n < 0x6FA then n - 0x6F0
    else if 0x966 <= n < 0x970 then n - 0x966
    else if 0x9E6 <= n < 0x9F0 then n - 0x9E6
    else if 0xE50 <= n < 0xE5A then n - 0xE50
    else if 0xED0 <= n < 0xEDA then n - 0xED0
    else n - 0xFF10
  }

  /** Superscript and subscript digits: `isdigit()` holds but `isdecimal()` does not. */
  predicate IsOtherDigit(c: char) {
    var n := c as int;
    n == 0xB2 || n == 0xB3 || n == 0xB9 || n == 0x2070 || 0x2074 <= n <= 0x2079 || 0x2080 <= n <= 0x2089
  }

  /** `c.isdigit()`. */
  predicate IsDigit(c: char) {
    IsDecimal(c) || IsOtherDigit(c)
  }

  /** `unicodedata.digit(c)`. */
  function DigitValue(c: char): (d: nat)
    requires IsDigit(c)
    ensures d < 10
  {
    if IsDecimal(c) then DecimalValue(c)
    else
      var n := c as int;
      if n == 0xB2 then 2 else if n == 0xB3 then 3 else if n == 0xB9 then 1
      else if n == 0x2070 then 0 else if n <= 0x2079 then n - 0x2070 else n - 0x2080
  }

  /** The characters `int()` accepts between its sign and its end: digits and underscores. */
  predicate DigitsOrUnderscores(s: string) {
    forall i :: 0 <= i < |s| ==> IsDecimal(s[i]) || s[i] == '_'
  }

  /** Python's integer-literal body: decimal digits, single underscores only between digits. */
  predicate ValidDigitRun(s: string) {
    |s| >= 1 && IsDecimal(s[0]) && IsDecimal(s[|s| - 1]) && DigitsOrUnderscores(s)
    && forall i :: 0 <= i < |s| - 1 ==> !DoubleUnderscore(s, i)
  }

  predicate DoubleUnderscore(s: string, i: nat)
    requires i + 1 < |s|
  {
    s[i] == '_' && s[i + 1] == '_'
  }

  /** The value of a digit run, ignoring underscores. */
  function RunValue(s: string): nat
    requires DigitsOrUnderscores(s)
    decreases |s|
  {
    if |s| == 0 then 0
    else
      var last := s[|s| - 1];
      if last == '_' then RunValue(s[..|s| - 1]) else 10 * RunValue(s[..|s| - 1]) + DecimalValue(last)
  }

  /** `int(text)`: `None` where Python raises `ValueError`. */
  function ParseInt(text: string): Option<int> {
    var t := Strip(text);
    if |t| > 0 && (t[0] == '+' || t[0] == '-') then
      var body := t[1..];
      if ValidDigitRun(body) then Some(if t[0] == '-' then 0 - RunValue(body) else RunValue(body)) else None
    else if ValidDigitRun(t) then Some(RunValue(t))
    else None
  }

  /** `int()` accepts exactly a stripped text that is an optional sign followed by a digit run. */
  lemma ParseIntAccepts(text: string)
    ensures ParseInt(text).Some? <==>
      var t := Strip(text);
      (|t| > 0 && (t[0] == '+' || t[0] == '-') && ValidDigitRun(t[1..])) || ValidDigitRun(t)
  {
    var t := Strip(text);
    if |t| > 0 && (t[0] == '+' || t[0] == '-') {
      assert !IsDecimal(t[0]);
    }
  }

  lemma AsciiDigitsDecimal(s: string)
    requires forall i :: 0 <= i < |s| ==> '0' <= s[i] <= '9'
    ensures DigitsOrUnderscores(s)
    ensures forall i :: 0 <= i < |s| ==> IsDecimal(s[i]) && DecimalValue(s[i]) == s[i] as int - '0' as int
  {
  }

  lemma {:induction false} RunValueOfAscii(s: string)
    requires forall i :: 0 <= i < |s| ==> '0' <= s[i] <= '9'
    ensures DigitsOrUnderscores(s) && RunValue(s) == DigitsValue(s)
    decreases |s|
  {
    AsciiDigitsDecimal(s);
    if |s| > 0 {
      RunValueOfAscii(s[..|s| - 1]);
    }
  }

  /** A run of ASCII digits is an integer-literal body whose value is its decimal value. */
  lemma AsciiRun(s: string)
    requires |s| >= 1 && forall i :: 0 <= i < |s| ==> '0' <= s[i] <= '9'
    ensures DigitsOrUnderscores(s) && ValidDigitRun(s) && RunValue(s) == DigitsValue(s)
  {
    AsciiDigitsDecimal(s);
    RunValueOfAscii(s);
  }

  /** A text that starts and ends with a non-space character is its own `strip()`. */
  lemma StripTrimmed(s: string)
    requires |s| >= 1 && !IsSpace(s[0]) && !IsSpace(s[|s| - 1])
    ensures Strip(s) == s
  {
    assert LStrip(s, Whitespace) == s;
  }

  /** `int(str(n)) == n`: Python's rendering of a natural number parses back to it. */
  lemma ParseIntOfNatToString(n: nat)
    ensures ParseInt(NatToString(n)) == Some(n)
  {
    var s := NatToString(n);
    StripTrimmed(s);
    AsciiRun(s);
    NatToStringRoundTrip(n);
    assert !(s[0] == '+' || s[0] == '-');
  }

  /** `int("-" + str(n)) == -n`. */
  lemma ParseIntOfNegated(n: nat)
    ensures ParseInt("-" + NatToString(n)) == Some(0 - n)
  {
    var d := NatToString(n);
    var s := "-" + d;
    assert s[1..] == d;
    NegatedRun(s);
    NatToStringRoundTrip(n);
  }

  /** A minus sign before a run of ASCII digits reads as the negated decimal value. */
  lemma NegatedRun(s: string)
    requires |s| >= 2 && s[0] == '-' && forall i :: 1 <= i < |s| ==> '0' <= s[i] <= '9'
    ensures ParseInt(s) == Some(0 - DigitsValue(s[1..]))
  {
    StripTrimmed(s);
    AsciiRun(s[1..]);
    MinusBody(s);
  }

  lemma MinusBody(t: string)
    requires Strip(t) == t && |t| > 0 && t[0] == '-' && ValidDigitRun(t[1..])
    ensures ParseInt(t) == Some(0 - RunValue(t[1..]))
  {
  }

  /** The locale-digit normalisation of the limit field: every `isdigit()` character becomes
      the ASCII digit `str(unicodedata.digit(c))`; other characters are kept. */
  function NormalizeDigits(s: string): (r: string)
    ensures |r| == |s|
    ensures forall i :: 0 <= i < |s| ==> (IsDigit(s[i]) ==> '0' <= r[i] <= '9' && r[i] as int - '0' as int == DigitValue(s[i]))
    ensures forall i :: 0 <= i < |s| ==> (!IsDigit(s[i]) ==> r[i] == s[i])
  {
    seq(|s|, i requires 0 <= i < |s| => if IsDigit(s[i]) then ('0' as int + DigitValue(s[i])) as char else s[i])
  }
}
