/**
 Integer coercion of option values: `strtol(s, &end, 0)` followed by the
 check that `*end` is the terminator.  The subject sequence follows the
 rules of section 7.22.1.4 of ISO/IEC 9899:2011 with base 0: optional
 white space, an optional sign, then the form of an integer constant
 (`0x`/`0X` and hex digits, `0` and octal digits, or a decimal constant).
 */
module Strtol {
  import opened Common

  /** `isspace` in the "C" locale. */
  predicate IsSpace(c: char) {
    c == ' ' || c == '\t' || c == '\n' || c == '\r' || c as int == 0x0B || c as int == 0x0C
  }

  /** The value of a digit character in bases up to 16, or 16 for a non-digit. */
  function DigitValue(c: char): (d: nat)
    ensures d <= 16
  {
    if '0' <= c <= '9' then c as int - '0' as int
    else if 'a' <= c <= 'f' then c as int - 'a' as int + 10
    else if 'A' <= c <= 'F' then c as int - 'A' as int + 10
    else 16
  }

  predicate IsDigitIn(c: char, base: nat) {
    DigitValue(c) < base
  }

  /** Index of the first non-space character at or after `i`. */
  function SkipSpace(s: string, i: nat): (r: nat)
    requires i <= |s|
    ensures i <= r <= |s|
    ensures forall k | i <= k < r :: IsSpace(s[k])
    ensures r == |s| || !IsSpace(s[r])
    decreases |s| - i
  {
    if i < |s| && IsSpace(s[i]) then SkipSpace(s, i + 1) else i
  }

  /** End of the longest run of `base` digits starting at `i`. */
  function Span(s: string, i: nat, base: nat): (r: nat)
    requires i <= |s|
    ensures i <= r <= |s|
    ensures forall k | i <= k < r :: IsDigitIn(s[k], base)
    ensures r == |s| || !IsDigitIn(s[r], base)
    decreases |s| - i
  {
    if i < |s| && IsDigitIn(s[i], base) then Span(s, i + 1, base) else i
  }

  /** The number a run of digits denotes, most significant first. */
  function DigitsValue(ds: string, base: nat): nat
  {
    if |ds| == 0 then 0
    else DigitsValue(ds[..|ds| - 1], base) * base + (if DigitValue(ds[|ds| - 1]) < base then DigitValue(ds[|ds| - 1]) else 0)
  }

  /** The result of `strtol`: the converted value and where `*endptr` points. */
  datatype Conversion = Conversion(value: int, end: nat)

  /**
   The digits after the optional sign at `j`: the longest subject sequence of
   the form of a hexadecimal, octal or decimal constant, or no conversion.
   */
  function Magnitude(s: string, j: nat): (r: Conversion)
    requires j <= |s|
    ensures r.end == 0 || j < r.end <= |s|
    ensures r.end == 0 ==> r.value == 0
    ensures r.value >= 0
    ensures r.end > 0 ==> IsDigitIn(s[r.end - 1], 16)
    ensures r.end < |s| && r.end > 0 ==> !IsDigitIn(s[r.end], 8)
  {
    if j + 2 < |s| && s[j] == '0' && (s[j + 1] == 'x' || s[j + 1] == 'X') && IsDigitIn(s[j + 2], 16) then
      var k := Span(s, j + 2, 16);
      Conversion(DigitsValue(s[j + 2..k], 16), k)
    else if j < |s| && s[j] == '0' then
      var k := Span(s, j + 1, 8);
      Conversion(DigitsValue(s[j + 1..k], 8), k)
    else if j < |s| && IsDigitIn(s[j], 10) then
      var k := Span(s, j, 10);
      Conversion(DigitsValue(s[j..k], 10), k)
    else
      Conversion(0, 0)
  }

  /** `strtol(s, &end, 0)` without overflow: no subject sequence leaves `end` at the start. */
  function StrtolBase0(s: string): (r: Conversion)
    ensures r.end <= |s|
    ensures r.end == 0 ==> r.value == 0
    ensures r.end > 0 ==> IsDigitIn(s[r.end - 1], 16)
    ensures r.end < |s| && r.end > 0 ==> !IsDigitIn(s[r.end], 8)
  {
    var i := SkipSpace(s, 0);
    var j := if i < |s| && (s[i] == '-' || s[i] == '+') then i + 1 else i;
    var m := Magnitude(s, j);
    if i < |s| && s[i] == '-' then Conversion(-m.value, m.end) else m
  }

  /** The integer an option value denotes, or None when `strtol` stops before the end. */
  function ParseInt(s: string): (r: Option<int>)
    ensures r.Some? <==> StrtolBase0(s).end == |s|
    ensures r.Some? && |s| > 0 ==> IsDigitIn(s[|s| - 1], 16)
  {
    var c := StrtolBase0(s);
    if c.end == |s| then Some(c.value) else None
  }

  // ---- Rendering numbers, the partner of ParseInt ----

  function DigitChar(d: nat): (c: char)
    requires d < 16
    ensures DigitValue(c) == d
  {
    if d < 10 then ('0' as int + d) as char else ('a' as int + d - 10) as char
  }

  lemma DivFacts(n: nat, base: nat)
    requires 2 <= base && base <= n
    ensures 1 <= n / base < n
    ensures n % base < base
    ensures n == n / base * base + n % base
  {
  }

  /** The digits of `n` in `base`, most significant first, without leading zeros. */
  function Digits(n: nat, base: nat): (ds: string)
    requires 2 <= base <= 16
    ensures |ds| > 0
    ensures forall k | 0 <= k < |ds| :: IsDigitIn(ds[k], base)
    ensures n > 0 ==> ds[0] != '0'
    decreases n
  {
    if n < base then [DigitChar(n)]
    else
      DivFacts(n, base);
      Digits(n / base, base) + [DigitChar(n % base)]
  }

  lemma {:induction false} DigitsRoundTrip(n: nat, base: nat)
    requires 2 <= base <= 16
    ensures DigitsValue(Digits(n, base), base) == n
    decreases n
  {
    var ds := Digits(n, base);
    if n < base {
      assert ds[..0] == "";
    } else {
      DivFacts(n, base);
      DigitsRoundTrip(n / base, base);
      assert ds[..|ds| - 1] == Digits(n / base, base);
      assert ds[|ds| - 1] == DigitChar(n % base);
    }
  }

  /** `n` written in decimal, with a leading `-` when negative. */
  function Decimal(n: int): string
  {
    if n < 0 then "-" + Digits(-n, 10) else Digits(n, 10)
  }

  /** `n` written as `0x` followed by hex digits, with a leading `-` when negative. */
  function Hex(n: int): string
  {
    (if n < 0 then "-" else "") + "0x" + Digits(if n < 0 then -n else n, 16)
  }

  /** `n` written as `0` followed by octal digits, with a leading `-` when negative. */
  function Octal(n: int): string
  {
    (if n < 0 then "-" else "") + "0" + Digits(if n < 0 then -n else n, 8)
  }

  lemma SpanToEnd(s: string, i: nat, base: nat)
    requires i <= |s|
    requires forall k | i <= k < |s| :: IsDigitIn(s[k], base)
    ensures Span(s, i, base) == |s|
  {
  }

  /** With no sign in front, `strtol` reports what the digits after it denote. */
  lemma SignedConversion(s: string, n: int)
    requires |s| > 0 && (s[0] == '-' || '0' <= s[0] <= '9')
    requires n < 0 <==> s[0] == '-'
    requires Magnitude(s, if n < 0 then 1 else 0) == Conversion(if n < 0 then -n else n, |s|)
    ensures ParseInt(s) == Some(n)
  {
    assert SkipSpace(s, 0) == 0;
  }

  lemma {:induction false} DecimalRoundTrip(n: int)
    ensures ParseInt(Decimal(n)) == Some(n)
  {
    var s := Decimal(n);
    var m := if n < 0 then -n else n;
    var j := if n < 0 then 1 else 0;
    var ds := Digits(m, 10);
    assert s[j..] == ds;
    SpanToEnd(s, j, 10);
    DigitsRoundTrip(m, 10);
    if m == 0 {
      assert ds == "0";
      assert s[j + 1..|s|] == "";
      assert Magnitude(s, j) == Conversion(m, |s|);
    } else {
      assert s[j] == ds[0];
      assert s[j..|s|] == ds;
      assert Magnitude(s, j) == Conversion(m, |s|);
    }
    SignedConversion(s, n);
  }

  /** Digits running to the end of the string are spanned in full and denote their number. */
  lemma DigitsToEnd(s: string, start: nat, m: nat, base: nat)
    requires 2 <= base <= 16 && start <= |s| && s[start..] == Digits(m, base)
    ensures Span(s, start, base) == |s| && DigitsValue(s[start..|s|], base) == m
  {
    var ds := Digits(m, base);
    forall k | start <= k < |s| ensures IsDigitIn(s[k], base) {
      assert s[k] == ds[k - start];
    }
    SpanToEnd(s, start, base);
    DigitsRoundTrip(m, base);
    assert s[start..|s|] == ds;
  }

  lemma HexRoundTrip(n: int)
    ensures ParseInt(Hex(n)) == Some(n)
  {
    var s := Hex(n);
    var m := if n < 0 then -n else n;
    var j := if n < 0 then 1 else 0;
    var ds := Digits(m, 16);
    assert s[j..] == "0x" + ds;
    assert s[j + 2..] == ds;
    DigitsToEnd(s, j + 2, m, 16);
    assert s[j] == '0' && s[j + 1] == 'x' && s[j + 2] == ds[0];
    assert Magnitude(s, j) == Conversion(m, |s|);
    SignedConversion(s, n);
  }

  lemma OctalRoundTrip(n: int)
    ensures ParseInt(Octal(n)) == Some(n)
  {
    var s := Octal(n);
    var m := if n < 0 then -n else n;
    var j := if n < 0 then 1 else 0;
    var ds := Digits(m, 8);
    assert s[j..] == "0" + ds;
    assert s[j + 1..] == ds;
    DigitsToEnd(s, j + 1, m, 8);
    assert s[j] == '0' && s[j + 1] == ds[0] && IsDigitIn(ds[0], 8);
    assert s[j + 1] != 'x' && s[j + 1] != 'X';
    var k := Span(s, j + 1, 8);
    assert Magnitude(s, j) == Conversion(DigitsValue(s[j + 1..k], 8), k);
    SignedConversion(s, n);
  }

  /** The values the documentation of the option promises: hex, negative decimal and octal. */
  lemma HexExample()
    ensures ParseInt("0x1F") == Some(31)
  {
    assert "1F"[..1] == "1" && "1"[..0] == "";
    assert Span("0x1F", 2, 16) == 4;
    assert "0x1F"[2..4] == "1F";
    assert Magnitude("0x1F", 0) == Conversion(31, 4);
  }

  lemma NegativeExample()
    ensures ParseInt("-10") == Some(-10)
  {
    assert "10"[..1] == "1" && "1"[..0] == "";
    assert Span("-10", 1, 10) == 3;
    assert "-10"[1..3] == "10";
    assert Magnitude("-10", 1) == Conversion(10, 3);
  }

  lemma OctalExample()
    ensures ParseInt("010") == Some(8)
  {
    assert "10"[..1] == "1" && "1"[..0] == "";
    assert Span("010", 1, 8) == 3;
    assert "010"[1..3] == "10";
    assert Magnitude("010", 0) == Conversion(8, 3);
  }

  /** Leading white space is skipped. */
  lemma SpaceExample()
    ensures ParseInt(" 7") == Some(7)
  {
    assert "7"[..0] == "";
    assert SkipSpace(" 7", 0) == 1;
    assert Span(" 7", 1, 10) == 2;
    assert " 7"[1..2] == "7";
    assert Magnitude(" 7", 1) == Conversion(7, 2);
  }

  /** `8` is not an octal digit, so `08` stops after the `0`. */
  lemma BadOctalExample()
    ensures ParseInt("08") == None
  {
    assert Span("08", 1, 8) == 1;
    assert Magnitude("08", 0).end == 1;
  }

  /** Text after the digits is rejected. */
  lemma TrailingTextExample()
    ensures ParseInt("12abc") == None
  {
    assert Span("12abc", 0, 10) == 2;
    assert Magnitude("12abc", 0).end == 2;
  }

  /** A sign without digits, and `0x` without hex digits, are rejected. */
  lemma NoDigitsExample()
    ensures ParseInt("-") == None
    ensures ParseInt("0x") == None
  {
    assert Magnitude("-", 1).end == 0;
    assert Span("0x", 1, 8) == 1;
    assert Magnitude("0x", 0).end == 1;
  }

  /** An empty value has no subject sequence, so `end` already points at the terminator. */
  lemma EmptyIsZero()
    ensures ParseInt("") == Some(0)
  {
  }
}
