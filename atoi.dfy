/**
 * Go's `strconv.Atoi`: an optional `+` or `-`, then at least one decimal
 * digit and nothing else; the value must fit in Go's `int`, whose width
 * (`strconv.IntSize`) is 32 or 64 bits depending on the build target,
 * otherwise Atoi reports a range error. Any error is `None` here.
 */
module Atoi {
  import opened Wrappers

  /** The width of Go's `int` on the build target. */
  type IntSize = bits: nat | bits == 32 || bits == 64 witness 64

  function MinInt(bits: IntSize): int
  {
    if bits == 32 then -0x8000_0000 else -0x8000_0000_0000_0000
  }

  function MaxInt(bits: IntSize): int
  {
    if bits == 32 then 0x7FFF_FFFF else 0x7FFF_FFFF_FFFF_FFFF
  }

  predicate IsDigit(c: char) { '0' <= c <= '9' }

  predicate AllDigits(s: string) { forall i :: 0 <= i < |s| ==> IsDigit(s[i]) }

  /** The value of a string of decimal digits, most significant first. */
  function DigitsValue(d: string): nat
    requires AllDigits(d)
  {
    if d == [] then 0 else DigitsValue(d[..|d| - 1]) * 10 + (d[|d| - 1] as int - '0' as int)
  }

  /** The syntax Atoi accepts: an optional sign followed by one or more digits. */
  predicate WellFormed(s: string)
  {
    if |s| > 0 && (s[0] == '+' || s[0] == '-') then |s| > 1 && AllDigits(s[1..])
    else |s| > 0 && AllDigits(s)
  }

  /** The mathematical value of a well-formed string, before the range check. */
  function Magnitude(s: string): int
    requires WellFormed(s)
  {
    if s[0] == '-' then -(DigitsValue(s[1..]) as int)
    else if s[0] == '+' then DigitsValue(s[1..])
    else DigitsValue(s)
  }

  /** `strconv.Atoi(s)` on a target with `bits`-wide `int`: `Some(v)` exactly when `err == nil`. */
  function ParseInt(s: string, bits: IntSize): (r: Option<int>)
    ensures r.Some? <==> WellFormed(s) && MinInt(bits) <= Magnitude(s) <= MaxInt(bits)
    ensures r.Some? ==> r.value == Magnitude(s)
    ensures s == "" ==> r.None?
  {
    if s == "" then None
    else
      var sign := s[0] == '+' || s[0] == '-';
      var digits := if sign then s[1..] else s;
      if digits == [] || !AllDigits(digits) then None
      else
        var v: int := if s[0] == '-' then -(DigitsValue(digits) as int) else DigitsValue(digits);
        if v < MinInt(bits) || MaxInt(bits) < v then None else Some(v)
  }

  /** Decimal digits of a natural number, without leading zeros ("0" for zero). */
  function FormatNat(n: nat): (d: string)
    ensures |d| > 0 && AllDigits(d)
  {
    if n < 10 then [('0' as int + n) as char]
    else FormatNat(n / 10) + [('0' as int + n % 10) as char]
  }

  /** What Go's `strconv.Itoa` writes: a leading `-` for negative values. */
  function FormatInt(n: int): string
  {
    if n < 0 then "-" + FormatNat(-n) else FormatNat(n)
  }

  lemma {:induction false} DigitsOfFormatNat(n: nat)
    ensures DigitsValue(FormatNat(n)) == n
  {
    var d := FormatNat(n);
    if n >= 10 {
      DigitsOfFormatNat(n / 10);
      assert d[..|d| - 1] == FormatNat(n / 10);
    }
  }

  /** Every value of Go's `int` written in decimal parses back to itself. */
  lemma ParseFormatRoundTrip(n: int, bits: IntSize)
    requires MinInt(bits) <= n <= MaxInt(bits)
    ensures ParseInt(FormatInt(n), bits) == Some(n)
  {
    var s := FormatInt(n);
    if n < 0 {
      DigitsOfFormatNat(-n);
      assert s[1..] == FormatNat(-n);
    } else {
      DigitsOfFormatNat(n);
      assert IsDigit(s[0]);
    }
    assert WellFormed(s) && Magnitude(s) == n;
  }

  /** A string with a character that is neither sign nor digit never parses ("abc" among them). */
  lemma NonNumericRejected(s: string, i: nat, bits: IntSize)
    requires i < |s| && !IsDigit(s[i]) && s[i] != '+' && s[i] != '-'
    ensures ParseInt(s, bits) == None
  {
  }

  /** A lone sign is not a number. */
  lemma BareSignRejected(bits: IntSize)
    ensures ParseInt("+", bits) == None && ParseInt("-", bits) == None
  {
  }

  /** A well-formed number outside the 32-bit range parses with a 64-bit `int` only. */
  lemma WidthDecidesRange(n: int)
    requires MaxInt(32) < n <= MaxInt(64)
    ensures ParseInt(FormatInt(n), 64) == Some(n)
    ensures ParseInt(FormatInt(n), 32) == None
  {
    ParseFormatRoundTrip(n, 64);
  }
}
