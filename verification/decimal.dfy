/**
 Decimal integers as the C library writes them with `%d` and reads them with
 `sscanf`'s `%d` conversion, plus the character classes that conversion uses.
 */
module Decimal {
  import opened Optional

  predicate IsDigit(c: char) {
    '0' <= c <= '9'
  }

  /** `isspace` in the C locale: space, tab, newline, vertical tab, form feed, carriage return. */
  predicate IsSpace(c: char) {
    c == ' ' || 9 <= c as int <= 13
  }

  predicate IsNonSpace(c: char) {
    !IsSpace(c)
  }

  /** The character classes the `%d` and `%s` conversions look at. */
  datatype CharClass = Space | Digit | NonSpace

  /** Whether `c` belongs to class `p`. */
  predicate In(c: char, p: CharClass) {
    match p
    case Space => IsSpace(c)
    case Digit => IsDigit(c)
    case NonSpace => IsNonSpace(c)
  }

  predicate AllDigits(s: string) {
    forall k | 0 <= k < |s| :: IsDigit(s[k])
  }

  function DigitValue(c: char): (d: nat)
    requires IsDigit(c)
    ensures d < 10
  {
    c as int - '0' as int
  }

  function DigitChar(d: nat): (c: char)
    requires d < 10
    ensures IsDigit(c) && DigitValue(c) == d
  {
    ('0' as int + d) as char
  }

  /**
   The length of the longest prefix of `s` whose characters all belong to
   class `p` (the C library's `strspn` with a character class instead of a set).
   */
  function Span(s: string, p: CharClass): (n: nat)
    ensures n <= |s|
    ensures forall k | 0 <= k < n :: In(s[k], p)
    ensures n < |s| ==> !In(s[n], p)
    decreases |s|
  {
    if |s| == 0 || !In(s[0], p) then 0
    else
      var n := 1 + Span(s[1..], p);
      assert forall k | 1 <= k < n :: s[k] == s[1..][k - 1];
      n
  }

  /** `%d` applied to a non-negative value: decimal digits, no sign, no leading zero. */
  function FormatNat(n: nat): (s: string)
    ensures 1 <= |s| && AllDigits(s)
    ensures s[0] == '0' ==> n == 0 && |s| == 1
    decreases n
  {
    if n < 10 then [DigitChar(n)] else FormatNat(n / 10) + [DigitChar(n % 10)]
  }

  /** The number a string of decimal digits denotes (most significant digit first). */
  function DigitsValue(s: string): nat
    requires AllDigits(s)
    decreases |s|
  {
    if |s| == 0 then 0 else 10 * DigitsValue(s[..|s| - 1]) + DigitValue(s[|s| - 1])
  }

  /** Reading back what `FormatNat` wrote gives the original number. */
  lemma {:induction false} FormatNatValue(n: nat)
    ensures DigitsValue(FormatNat(n)) == n
    decreases n
  {
    var s := FormatNat(n);
    if n >= 10 {
      FormatNatValue(n / 10);
      assert s[..|s| - 1] == FormatNat(n / 10);
    }
  }

  /** Distinct numbers are written as distinct strings. */
  lemma FormatNatInjective(m: nat, n: nat)
    requires FormatNat(m) == FormatNat(n)
    ensures m == n
  {
    FormatNatValue(m);
    FormatNatValue(n);
  }

  /**
   One `%d` conversion of `sscanf` at the start of `s`: leading white space is
   skipped, an optional `+` or `-` sign is accepted, and then at least one
   digit must follow; the longest run of digits is consumed. The result is the
   value read and the number of characters consumed, or None on a matching
   failure. Values outside the range of a C `int` are not narrowed.
   */
  function ScanInt(s: string): (r: Option<(int, nat)>)
    ensures r.Some? ==> 1 <= r.value.1 <= |s| && IsDigit(s[r.value.1 - 1])
    ensures r.Some? ==> r.value.1 == |s| || !IsDigit(s[r.value.1])
  {
    var blank := Span(s, Space);
    var t := s[blank..];
    var sign := if |t| > 0 && (t[0] == '+' || t[0] == '-') then 1 else 0;
    var digits := Span(t[sign..], Digit);
    if digits == 0 then None
    else
      var magnitude: int := DigitsValue(t[sign..sign + digits]);
      assert s[blank + sign + digits - 1] == t[sign..][digits - 1];
      assert blank + sign + digits < |s| ==> s[blank + sign + digits] == t[sign..][digits];
      var value: int := if sign == 1 && t[0] == '-' then -magnitude else magnitude;
      Some((value, blank + sign + digits))
  }

  /**
   `%d` reads back exactly what `%d` wrote, whatever follows the digits as long
   as it is not another digit.
   */
  lemma ScanFormatted(n: nat, rest: string)
    requires |rest| == 0 || !IsDigit(rest[0])
    ensures ScanInt(FormatNat(n) + rest) == Some((n as int, |FormatNat(n)|))
  {
    var f := FormatNat(n);
    var s := f + rest;
    assert s[0] == f[0];
    assert !IsSpace(s[0]) && s[0] != '+' && s[0] != '-';
    assert Span(s, Space) == 0;
    assert s[0..] == s;
    var digits := Span(s, Digit);
    assert forall k | 0 <= k < |f| :: s[k] == f[k];
    assert |f| < |s| ==> s[|f|] == rest[0];
    assert digits == |f|;
    assert s[0..digits] == f;
    FormatNatValue(n);
  }
}
