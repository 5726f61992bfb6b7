// Decimal text: std::to_string / JavaScript template literals on one side,
// std::stoll on the other.
module Decimal {
  import opened Options

  const INT64_MIN := -0x8000_0000_0000_0000
  const INT64_MAX := 0x7FFF_FFFF_FFFF_FFFF

  predicate IsDigit(c: char) { '0' <= c <= '9' }

  predicate AllDigits(s: string) { forall i :: 0 <= i < |s| ==> IsDigit(s[i]) }

  // isspace in the C locale
  predicate IsSpace(c: char) { c == ' ' || '\t' <= c <= '\r' }

  function DigitChar(d: nat): char
    requires d < 10
  {
    '0' + d as char
  }

  function Digits(n: nat): (s: string)
    ensures |s| > 0 && AllDigits(s)
  {
    if n < 10 then [DigitChar(n)] else Digits(n / 10) + [DigitChar(n % 10)]
  }

  function ToString(n: int): string { if n < 0 then "-" + Digits(-n) else Digits(n) }

  function Val(s: string): nat
    requires AllDigits(s)
  {
    if s == "" then 0 else 10 * Val(s[..|s| - 1]) + (s[|s| - 1] - '0') as nat
  }

  // The longest prefix made of digits.
  function DigitPrefix(s: string): (d: string)
    ensures d <= s && AllDigits(d) && (|d| < |s| ==> !IsDigit(s[|d|]))
  {
    if s == "" || !IsDigit(s[0]) then "" else [s[0]] + DigitPrefix(s[1..])
  }

  function SkipSpace(s: string): string
  {
    if s != "" && IsSpace(s[0]) then SkipSpace(s[1..]) else s
  }

  // The number `negative`, `digits` stand for, if there are digits and it is
  // an int64.
  function InRange(negative: bool, digits: string): Option<int>
    requires AllDigits(digits)
  {
    if digits == "" then None
    else
      var n: int := if negative then -(Val(digits) as int) else Val(digits);
      if INT64_MIN <= n <= INT64_MAX then Some(n) else None
  }

  // std::stoll: leading white space, a sign, then as many digits as there
  // are; None is either exception. What follows the digits is ignored.
  function Stoll(s: string): Option<int>
  {
    var t := SkipSpace(s);
    if t == "" then None
    else if t[0] == '-' then InRange(true, DigitPrefix(t[1..]))
    else if t[0] == '+' then InRange(false, DigitPrefix(t[1..]))
    else InRange(false, DigitPrefix(t))
  }

  lemma {:induction false} ValOfDigits(n: nat)
    ensures Val(Digits(n)) == n
  {
    if n >= 10 {
      ValOfDigits(n / 10);
      assert Digits(n)[..|Digits(n)| - 1] == Digits(n / 10);
    }
  }

  lemma {:induction false} DigitPrefixOfNumber(d: string, rest: string)
    requires AllDigits(d) && (rest == "" || !IsDigit(rest[0]))
    ensures DigitPrefix(d + rest) == d
  {
    if d == "" {
      assert d + rest == rest;
    } else {
      assert (d + rest)[1..] == d[1..] + rest;
      DigitPrefixOfNumber(d[1..], rest);
    }
  }

  lemma StollPlain(t: string, digits: string)
    requires t != "" && IsDigit(t[0]) && DigitPrefix(t) == digits
    ensures Stoll(t) == InRange(false, digits)
  {
    assert SkipSpace(t) == t;
  }

  lemma StollMinus(u: string, digits: string)
    requires DigitPrefix(u) == digits
    ensures Stoll("-" + u) == InRange(true, digits)
  {
    assert ("-" + u)[1..] == u && SkipSpace("-" + u) == "-" + u;
  }

  lemma StollReadsDigits(negative: bool, digits: string, rest: string)
    requires AllDigits(digits) && digits != ""
    requires rest == "" || !IsDigit(rest[0])
    ensures Stoll((if negative then "-" else "") + digits + rest) == InRange(negative, digits)
  {
    DigitPrefixOfNumber(digits, rest);
    if negative {
      StollMinus(digits + rest, digits);
      assert "-" + digits + rest == "-" + (digits + rest);
    } else {
      assert (digits + rest)[0] == digits[0];
      StollPlain(digits + rest, digits);
      assert "" + digits + rest == digits + rest;
    }
  }

  // What stoll reads back from a printed number, whatever non-digit follows.
  lemma StollReadsToString(n: int, rest: string)
    requires INT64_MIN <= n <= INT64_MAX
    requires rest == "" || !IsDigit(rest[0])
    ensures Stoll(ToString(n) + rest) == Some(n)
  {
    var m: nat := if n < 0 then -n else n;
    var digits := Digits(m);
    ValOfDigits(m);
    assert ToString(n) == (if n < 0 then "-" else "") + digits;
    StollReadsDigits(n < 0, digits, rest);
    assert InRange(n < 0, digits) == Some(n);
  }

  lemma ToStringInjective(a: int, b: int)
    ensures ToString(a) == ToString(b) ==> a == b
  {
    if ToString(a) == ToString(b) {
      var m: nat, k: nat := if a < 0 then -a else a, if b < 0 then -b else b;
      ValOfDigits(m);
      ValOfDigits(k);
      assert IsDigit(Digits(m)[0]) && IsDigit(Digits(k)[0]);
      if a < 0 {
        assert ToString(a)[1..] == Digits(m);
        assert b < 0;
        assert ToString(b)[1..] == Digits(k);
      }
    }
  }
}
