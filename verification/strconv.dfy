/** The decimal integer parsers of Go's `strconv` package that the
    configuration loader uses: `Atoi` (64-bit `int`) and `ParseUint` with base
    10 and an 8-bit size. Only success and the parsed value are modelled; the
    error values are reduced to "no value". */
module Strconv {
  import opened Wrappers

  const MinInt64: int := -0x8000_0000_0000_0000
  const MaxInt64: int := 0x7FFF_FFFF_FFFF_FFFF
  const MaxUint8: int := 0xFF

  predicate IsDigit(c: char) {
    '0' <= c <= '9'
  }

  /** A non-empty run of ASCII decimal digits. */
  predicate IsDecimal(s: string) {
    s != [] && forall i :: 0 <= i < |s| ==> IsDigit(s[i])
  }

  function DigitValue(c: char): (d: nat)
    requires IsDigit(c)
    ensures d < 10
  {
    c as int - '0' as int
  }

  function DigitChar(d: nat): (c: char)
    requires d < 10
    ensures IsDigit(c) && DigitValue(c) == d
  {
    ('0' as int + d) as char
  }

  /** The value of a decimal digit string, most significant digit first. */
  function DecimalValue(s: string): nat
    requires forall i :: 0 <= i < |s| ==> IsDigit(s[i])
    decreases |s|
  {
    if s == [] then 0 else DecimalValue(s[..|s| - 1]) * 10 + DigitValue(s[|s| - 1])
  }

  /** Go's `strconv.Itoa` for a non-negative value: shortest decimal form. */
  function NatToDecimal(n: nat): (s: string)
    ensures IsDecimal(s)
    ensures |s| > 1 ==> s[0] != '0'
    decreases n
  {
    if n < 10 then [DigitChar(n)] else NatToDecimal(n / 10) + [DigitChar(n % 10)]
  }

  /** Go's `strconv.Itoa`: an optional minus sign followed by the decimal
      digits of the magnitude. */
  function Itoa(n: int): string {
    if n < 0 then "-" + NatToDecimal(-n) else NatToDecimal(n)
  }

  /** The part of `s` after an optional leading `+` or `-`. */
  function Unsigned(s: string): string {
    if s != [] && (s[0] == '-' || s[0] == '+') then s[1..] else s
  }

  /** An optional sign followed by at least one decimal digit. */
  predicate IsSignedDecimal(s: string) {
    IsDecimal(Unsigned(s))
  }

  /** The integer a signed decimal string denotes. */
  function SignedValue(s: string): int
    requires IsSignedDecimal(s)
  {
    if s[0] == '-' then -(DecimalValue(Unsigned(s)) as int) else DecimalValue(Unsigned(s))
  }

  /** Go's `strconv.Atoi` on a 64-bit platform: an optional `+` or `-` sign
      followed by at least one decimal digit, whose value must fit in a
      signed 64-bit integer. Anything else, a trailing letter or a lone sign
      included, is rejected. */
  function Atoi(s: string): (r: Option<int>)
    ensures r.Some? <==> IsSignedDecimal(s) && MinInt64 <= SignedValue(s) <= MaxInt64
    ensures r.Some? ==> r.value == SignedValue(s)
  {
    if s == [] then None
    else
      var digits := if s[0] == '-' || s[0] == '+' then s[1..] else s;
      if !IsDecimal(digits) then None
      else
        var magnitude: int := DecimalValue(digits);
        var v := if s[0] == '-' then -magnitude else magnitude;
        if MinInt64 <= v <= MaxInt64 then Some(v) else None
  }

  /** Go's `strconv.ParseUint(s, 10, 8)`: decimal digits only (no sign),
      with a value of at most 255. */
  function ParseUint8(s: string): (r: Option<nat>)
    ensures r.Some? <==> IsDecimal(s) && DecimalValue(s) <= MaxUint8
    ensures r.Some? ==> r.value == DecimalValue(s) && r.value <= MaxUint8
  {
    if !IsDecimal(s) then None
    else
      var v := DecimalValue(s);
      if v <= MaxUint8 then Some(v) else None
  }

  /** Reading back the decimal form of a number gives the number. */
  lemma {:induction false} DecimalRoundTrip(n: nat)
    ensures DecimalValue(NatToDecimal(n)) == n
    decreases n
  {
    if n >= 10 {
      var s := NatToDecimal(n);
      var init := NatToDecimal(n / 10);
      assert s == init + [DigitChar(n % 10)];
      assert s[..|s| - 1] == init;
      DecimalRoundTrip(n / 10);
    }
  }

  /** `Atoi` inverts `Itoa` on the whole 64-bit range. */
  lemma AtoiItoa(n: int)
    requires MinInt64 <= n <= MaxInt64
    ensures Atoi(Itoa(n)) == Some(n)
  {
    var s := Itoa(n);
    if n < 0 {
      DecimalRoundTrip(-n);
      assert s[0] == '-' && s[1..] == NatToDecimal(-n);
      assert Unsigned(s) == NatToDecimal(-n);
    } else {
      DecimalRoundTrip(n);
      assert IsDigit(s[0]);
      assert Unsigned(s) == s;
    }
  }

  /** `ParseUint8` inverts the decimal rendering of every byte value. */
  lemma ParseUint8RoundTrip(q: nat)
    requires q <= MaxUint8
    ensures ParseUint8(NatToDecimal(q)) == Some(q)
  {
    DecimalRoundTrip(q);
  }

  /** Leading zeros and a plus sign are accepted; trailing garbage and a lone
      sign are not. */
  lemma AtoiExamples()
    ensures Atoi("007") == Some(7)
    ensures Atoi("+5") == Some(5)
    ensures Atoi("-12") == Some(-12)
    ensures Atoi("12abc") == None
    ensures Atoi("-") == None
    ensures Atoi("") == None
  {
    assert Unsigned("007") == "007";
    assert "007"[..2] == "00" && "00"[..1] == "0" && "0"[..0] == "";
    assert DecimalValue("007") == 7;
    assert Unsigned("+5") == "5";
    assert Unsigned("-12") == "12";
    assert !IsDecimal(Unsigned("12abc")) by { assert !IsDigit("12abc"[2]); }
    assert Unsigned("-") == "";
  }
}
