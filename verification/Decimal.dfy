/** strconv in base 10: FormatInt and ParseInt for int64, FormatUint and ParseUint for uint64. */
module Decimal {
  const INT64_MIN: int := -0x8000_0000_0000_0000
  const INT64_MAX: int := 0x7fff_ffff_ffff_ffff
  const UINT64_MAX: int := 0xffff_ffff_ffff_ffff

  type Int64 = x: int | INT64_MIN <= x <= INT64_MAX

  /** Go returns a value beside the error: 0 for a malformed string, the nearest bound for one out of range. */
  datatype Parsed = Parsed(value: int, ok: bool)

  predicate IsDigit(c: char) { '0' <= c <= '9' }

  function FormatNat(n: nat): (s: string)
    ensures |s| > 0
  {
    if n < 10 then ["0123456789"[n]] else FormatNat(n / 10) + ["0123456789"[n % 10]]
  }

  function FormatInt(n: int): string {
    if n < 0 then "-" + FormatNat(-n) else FormatNat(n)
  }

  predicate AllDigits(s: string) { forall i :: 0 <= i < |s| ==> IsDigit(s[i]) }

  function DigitsValue(s: string): nat
    requires AllDigits(s)
  {
    if s == [] then 0 else 10 * DigitsValue(s[..|s| - 1]) + (s[|s| - 1] as int - '0' as int)
  }

  function ParseUint(s: string): Parsed {
    if s == [] || !AllDigits(s) then Parsed(0, false)
    else if DigitsValue(s) > UINT64_MAX then Parsed(UINT64_MAX, false)
    else Parsed(DigitsValue(s), true)
  }

  function ParseInt(s: string): Parsed {
    var negative := s != [] && s[0] == '-';
    var digits := if s != [] && (s[0] == '-' || s[0] == '+') then s[1..] else s;
    if digits == [] || !AllDigits(digits) then Parsed(0, false)
    else
      var d: int := DigitsValue(digits);
      var v := if negative then -d else d;
      if v > INT64_MAX then Parsed(INT64_MAX, false)
      else if v < INT64_MIN then Parsed(INT64_MIN, false)
      else Parsed(v, true)
  }

  lemma {:induction false} FormatNatDigits(n: nat)
    ensures AllDigits(FormatNat(n)) && DigitsValue(FormatNat(n)) == n
  {
    if n < 10 {
      assert FormatNat(n)[..0] == [];
    } else {
      FormatNatDigits(n / 10);
      assert FormatNat(n)[..|FormatNat(n)| - 1] == FormatNat(n / 10);
    }
  }

  lemma Digit(d: nat)
    requires d < 10
    ensures "0123456789"[d] == '0' + d as char
  {
  }

  /** The decimal form, digit by digit. */
  lemma FormatNatExactly(n: nat, d: nat)
    requires d < 10
    ensures FormatNat(d) == ['0' + d as char]
    ensures n > 0 ==> FormatNat(10 * n + d) == FormatNat(n) + ['0' + d as char]
    ensures n > 0 ==> FormatInt(0 - n) == "-" + FormatNat(n)
  {
    Digit(d);
    assert (10 * n + d) / 10 == n && (10 * n + d) % 10 == d;
  }

  lemma FormatIntShape(n: int)
    ensures n < 0 ==> FormatInt(n)[0] == '-' && FormatInt(n)[1..] == FormatNat(-n)
    ensures n >= 0 ==> IsDigit(FormatInt(n)[0])
  {
    FormatNatDigits(if n < 0 then -n else n);
  }

  /** Parsing gives back every int64 that was formatted. */
  lemma FormatIntRoundTrip(n: int)
    requires INT64_MIN <= n <= INT64_MAX
    ensures ParseInt(FormatInt(n)) == Parsed(n, true)
  {
    FormatIntShape(n);
    FormatNatDigits(if n < 0 then -n else n);
  }

  lemma FormatUintRoundTrip(n: nat)
    requires n <= UINT64_MAX
    ensures ParseUint(FormatNat(n)) == Parsed(n, true)
  {
    FormatNatDigits(n);
  }

  /** Different integers have different decimal forms, whatever their size. */
  lemma FormatIntInjective(a: int, b: int)
    requires FormatInt(a) == FormatInt(b)
    ensures a == b
  {
    FormatIntShape(a);
    FormatIntShape(b);
    FormatNatDigits(if a < 0 then -a else a);
    FormatNatDigits(if b < 0 then -b else b);
  }
}
