/** Decimal port numbers: how they are printed and how the argument parser reads them back. */
module Decimal {
  import opened Outcomes
  import opened CommandLine

  predicate IsDigit(c: char) {
    '0' <= c <= '9'
  }

  function DigitValue(c: char): nat
    requires IsDigit(c)
  {
    c as int - '0' as int
  }

  function DigitChar(n: nat): (c: char)
    requires n < 10
    ensures IsDigit(c) && DigitValue(c) == n
  {
    ('0' as int + n) as char
  }

  function Print(n: nat): (s: string)
    ensures s != "" && forall i | 0 <= i < |s| :: IsDigit(s[i])
  {
    if n < 10 then [DigitChar(n)] else Print(n / 10) + [DigitChar(n % 10)]
  }

  function Value(s: string): nat
    requires forall i | 0 <= i < |s| :: IsDigit(s[i])
  {
    if s == "" then 0 else 10 * Value(s[..|s| - 1]) + DigitValue(s[|s| - 1])
  }

  predicate AllDigits(s: string) {
    forall i | 0 <= i < |s| :: IsDigit(s[i])
  }

  /** An integer argument limited to 16 bits: an optional sign, digits, and a range check. The
      number is read signed first, so a negative zero passes. */
  function ParseU16(s: string): Option<U16> {
    var negative := s != "" && s[0] == '-';
    var digits := if negative || (s != "" && s[0] == '+') then s[1..] else s;
    if digits != "" && AllDigits(digits) && Value(digits) < (if negative then 1 else 0x1_0000) then
      Some(Value(digits))
    else
      None
  }

  lemma {:induction false} ValueOfPrint(n: nat)
    ensures Value(Print(n)) == n
  {
    if n >= 10 {
      ValueOfPrint(n / 10);
      assert Print(n)[..|Print(n)| - 1] == Print(n / 10);
    } else {
      assert Print(n)[..0] == "";
    }
  }

  lemma ParseOfPrint(n: U16)
    ensures ParseU16(Print(n)) == Some(n)
  {
    ValueOfPrint(n);
  }

  function PowerOfTen(n: nat): nat {
    if n == 0 then 1 else 10 * PowerOfTen(n - 1)
  }

  /** Digits count by their place, each ten times the one behind it. */
  lemma {:induction false} ValueByPlace(a: string, b: string)
    requires forall i | 0 <= i < |a| :: IsDigit(a[i])
    requires forall i | 0 <= i < |b| :: IsDigit(b[i])
    ensures forall i | 0 <= i < |a + b| :: IsDigit((a + b)[i])
    ensures Value(a + b) == Value(a) * PowerOfTen(|b|) + Value(b)
    decreases |b|
  {
    if b == "" {
      assert a + b == a;
    } else {
      var n := |b| - 1;
      assert (a + b)[..|a + b| - 1] == a + b[..n] && (a + b)[|a + b| - 1] == b[n];
      ValueByPlace(a, b[..n]);
      ShiftOnce(Value(a), PowerOfTen(n), Value(b[..n]), DigitValue(b[n]));
    }
  }

  lemma ShiftOnce(a: nat, p: nat, b: nat, d: nat)
    ensures 10 * (a * p + b) + d == a * (10 * p) + (10 * b + d)
  {
  }

  lemma OneDigit(c: char)
    requires '0' <= c <= '9'
    ensures IsDigit(c) && Value([c]) == c as int - 48
  {
    assert [c][..0] == "";
  }

  /** A port argument is digits with at most one sign before them, and below 65536; with a minus it
      can only be zero. */
  lemma ParseExactly(digits: string)
    requires digits != "" && forall i | 0 <= i < |digits| :: '0' <= digits[i] <= '9'
    ensures forall i | 0 <= i < |digits| :: IsDigit(digits[i])
    ensures ParseU16(digits) == if Value(digits) < 65536 then Some(Value(digits)) else None
    ensures ParseU16("+" + digits) == ParseU16(digits)
    ensures ParseU16("-" + digits) == if Value(digits) == 0 then Some(0) else None
  {
    hide Value;
    assert ("+" + digits)[1..] == digits && ("-" + digits)[1..] == digits;
  }

  lemma NotAllDigits(s: string, k: nat)
    requires k < |s| && !('0' <= s[k] <= '9')
    ensures !AllDigits(s)
  {
    assert !IsDigit(s[k]);
  }

  /** Anything else is refused: the empty word, a lone sign, and any other character. */
  lemma RefusedExactly(s: string)
    requires s == "" || s == "+" || s == "-" || exists i :: 0 < i < |s| && !('0' <= s[i] <= '9')
    ensures ParseU16(s) == None
  {
    hide Value, AllDigits;
    if i :| 0 < i < |s| && !('0' <= s[i] <= '9') {
      if s[0] == '-' || s[0] == '+' {
        NotAllDigits(s[1..], i - 1);
      } else {
        NotAllDigits(s, i);
      }
    }
  }
}
