/** Decimal numerals as the standard library prints and parses signed and unsigned 64-bit integers. */
module Numerals {
  import opened Basics

  predicate IsDigit(c: char) { '0' <= c <= '9' }

  predicate AllDigits(s: string) {
    forall i :: 0 <= i < |s| ==> IsDigit(s[i])
  }

  function DigitChar(d: nat): char
    requires d < 10
  {
    '0' + d as char
  }

  function DigitOf(c: char): nat
    requires IsDigit(c)
  {
    (c as int) - ('0' as int)
  }

  function PrintNat(n: nat): string {
    if n < 10 then [DigitChar(n)] else PrintNat(n / 10) + [DigitChar(n % 10)]
  }

  /** The value of a string of digits. */
  function ValueOf(s: string): nat
    requires AllDigits(s)
  {
    if s == "" then 0 else ValueOf(s[..|s| - 1]) * 10 + DigitOf(s[|s| - 1])
  }

  lemma {:induction false} PrintNatValue(n: nat)
    ensures PrintNat(n) != "" && AllDigits(PrintNat(n)) && ValueOf(PrintNat(n)) == n
  {
    if n < 10 {
      assert [DigitChar(n)][..0] == "";
    } else {
      PrintNatValue(n / 10);
      assert PrintNat(n)[..|PrintNat(n)| - 1] == PrintNat(n / 10);
    }
  }

  /** Zeros in front do not change a value. */
  lemma {:induction false} ZerosInFront(s: string)
    requires AllDigits(s)
    ensures ValueOf("0" + s) == ValueOf(s)
  {
    if s == "" {
      assert ("0" + s)[..0] == "";
    } else {
      ZerosInFront(s[..|s| - 1]);
      assert ("0" + s)[..|s|] == "0" + s[..|s| - 1];
    }
  }

  /** No leading zeros. */
  lemma {:induction false} PrintNatCanonical(n: nat)
    ensures PrintNat(n) != "" && (PrintNat(n)[0] == '0' <==> n == 0)
    ensures n == 0 ==> PrintNat(n) == "0"
  {
    if n >= 10 { PrintNatCanonical(n / 10); }
  }

  /** `to_string` of an `i64`. */
  function Print(n: int): string {
    if n < 0 then "-" + PrintNat(-n) else PrintNat(n)
  }

  /** `parse::<i64>`: an optional sign, at least one digit, and the value must fit. */
  function ParseI64(s: string): Option<int> {
    var body := if "-" <= s || "+" <= s then s[1..] else s;
    if body == "" || !AllDigits(body) then None
    else
      var size: int := ValueOf(body);
      var value := if "-" <= s then -size else size;
      if I64_MIN <= value <= I64_MAX then Some(value) else None
  }

  /** `parse::<u64>`: an optional plus sign, at least one digit, and the value must fit. */
  function ParseU64(s: string): Option<nat> {
    var body := if "+" <= s then s[1..] else s;
    if body == "" || !AllDigits(body) then None
    else if ValueOf(body) <= U64_MAX then Some(ValueOf(body)) else None
  }

  /** Parsing accepts an optional sign and at least one digit, and exactly the values that fit. */
  lemma ParsesExactly(digits: string)
    requires digits != "" && AllDigits(digits)
    ensures ParseI64(digits) == ParseI64("+" + digits) == (if ValueOf(digits) <= 0x7FFF_FFFF_FFFF_FFFF then Some(ValueOf(digits)) else None)
    ensures var size: int := ValueOf(digits);
      ParseI64("-" + digits) == if size <= 0x8000_0000_0000_0000 then Some(-size) else None
    ensures ParseU64(digits) == ParseU64("+" + digits) == (if ValueOf(digits) <= 0xFFFF_FFFF_FFFF_FFFF then Some(ValueOf(digits)) else None)
    ensures ParseU64("-" + digits) == None
  {
    assert ("+" + digits)[1..] == digits && ("-" + digits)[1..] == digits;
    assert IsDigit(digits[0]) && ("-" + digits)[0] == '-';
  }

  /** Nothing else is a number. */
  lemma OnlyDigitsParse(s: string)
    requires s == "" || !AllDigits(if s[0] == '-' || s[0] == '+' then s[1..] else s) || s == "-" || s == "+"
    ensures ParseI64(s) == None && ParseU64(s) == None
  {
    if s != "" && s[0] == '-' { assert !AllDigits(s); }
  }

  lemma MinusParses(digits: string, size: int)
    requires digits != "" && AllDigits(digits) && ValueOf(digits) == size && I64_MIN <= -size
    ensures ParseI64("-" + digits) == Some(-size)
  {
    assert ("-" + digits)[1..] == digits;
  }

  lemma PlainParses(digits: string)
    requires digits != "" && AllDigits(digits) && ValueOf(digits) <= I64_MAX
    ensures ParseI64(digits) == Some(ValueOf(digits))
  {
    assert IsDigit(digits[0]);
  }

  /** Printing then parsing is the identity on every `i64`. */
  lemma PrintParses(n: int)
    requires I64_MIN <= n <= I64_MAX
    ensures ParseI64(Print(n)) == Some(n)
  {
    if n < 0 {
      PrintNatValue(-n);
      MinusParses(PrintNat(-n), -n);
    } else {
      PrintNatValue(n);
      PlainParses(PrintNat(n));
    }
  }

  lemma PrintParsesU64(n: nat)
    requires n <= U64_MAX
    ensures ParseU64(PrintNat(n)) == Some(n)
  {
    PrintNatValue(n);
    assert IsDigit(PrintNat(n)[0]);
  }

  lemma PrintChars(n: int)
    ensures Print(n) != "" && forall i :: 0 <= i < |Print(n)| ==> IsDigit(Print(n)[i]) || Print(n)[i] == '-'
  {
    PrintNatValue(if n < 0 then -n else n);
  }
}
