/**
 Decimal digit strings: their value, the shortest numeral of a natural
 number, and the two scans the regular expressions of the cleaner perform
 (the first digit of a string, the maximal run of digits at its front).
 Only the ASCII digits '0'..'9' are digits here.
 */
module Numerals {

  predicate IsDigit(c: char) {
    '0' <= c <= '9'
  }

  predicate AllDigits(s: string) {
    forall i :: 0 <= i < |s| ==> IsDigit(s[i])
  }

  predicate HasDigit(s: string) {
    exists i :: 0 <= i < |s| && IsDigit(s[i])
  }

  function DigitValue(c: char): (d: nat)
    requires IsDigit(c)
    ensures d < 10
  {
    c as int - '0' as int
  }

  function DigitChar(d: nat): (c: char)
    requires d < 10
    ensures IsDigit(c) && DigitValue(c) == d
  {
    ('0' as int + d) as char
  }

  /** The value of a digit string read in base 10; the empty string reads as 0. */
  function DigitsValue(s: string): nat
    requires AllDigits(s)
  {
    if s == [] then 0 else 10 * DigitsValue(s[..|s| - 1]) + DigitValue(s[|s| - 1])
  }

  function Pow10(k: nat): (p: nat)
    ensures p >= 1
  {
    if k == 0 then 1 else 10 * Pow10(k - 1)
  }

  /** The value of the digits after a decimal point: "25" reads as 0.25. */
  function Fraction(f: string): (x: real)
    requires AllDigits(f)
    ensures 0.0 <= x < 1.0
  {
    DigitsValueBound(f);
    RatioBelowOne(DigitsValue(f), Pow10(|f|));
    DigitsValue(f) as real / Pow10(|f|) as real
  }

  /** A single digit after the point is that many tenths. */
  lemma FractionOfDigit(d: char)
    requires IsDigit(d)
    ensures Fraction([d]) == DigitValue(d) as real / 10.0
  {
    assert [d][..0] == [];
    assert DigitsValue([d]) == DigitValue(d);
    assert Pow10(1) == 10;
  }

  lemma RatioBelowOne(a: nat, b: nat)
    requires a < b
    ensures 0.0 <= a as real / b as real < 1.0
  {
    var q := a as real / b as real;
    assert q * b as real == a as real;
  }

  lemma {:induction false} DigitsValueBound(s: string)
    requires AllDigits(s)
    ensures DigitsValue(s) < Pow10(|s|)
  {
    if s != [] {
      DigitsValueBound(s[..|s| - 1]);
    }
  }

  /** The shortest decimal numeral of n, as Python's str(n) writes it. */
  function NatToString(n: nat): (s: string)
    ensures s != [] && AllDigits(s)
  {
    if n < 10 then [DigitChar(n)] else NatToString(n / 10) + [DigitChar(n % 10)]
  }

  /** Reading back the numeral of n gives n. */
  lemma {:induction false} DigitsValueOfNatToString(n: nat)
    ensures DigitsValue(NatToString(n)) == n
  {
    var s := NatToString(n);
    if n >= 10 {
      DigitsValueOfNatToString(n / 10);
      assert s[..|s| - 1] == NatToString(n / 10);
    }
  }

  /** A string whose first character is not a digit has a digit exactly when its tail does. */
  lemma HasDigitOfTail(s: string)
    requires s != [] && !IsDigit(s[0])
    ensures HasDigit(s) <==> HasDigit(s[1..])
  {
    if HasDigit(s) {
      var i :| 0 <= i < |s| && IsDigit(s[i]);
      assert s[1..][i - 1] == s[i];
    }
    if HasDigit(s[1..]) {
      var i :| 0 <= i < |s[1..]| && IsDigit(s[1..][i]);
      assert s[i + 1] == s[1..][i];
    }
  }

  /** The maximal run of digits at the front of s (the greedy `\d+` / `\d*`). */
  function LeadingDigits(s: string): (w: string)
    ensures |w| <= |s| && w == s[..|w|] && AllDigits(w)
    ensures |w| < |s| ==> !IsDigit(s[|w|])
  {
    if s != [] && IsDigit(s[0]) then [s[0]] + LeadingDigits(s[1..]) else []
  }

  /** The index of the first digit of s, or |s| when s has none. */
  function FirstDigit(s: string): (i: nat)
    ensures i <= |s|
    ensures forall k :: 0 <= k < i ==> !IsDigit(s[k])
    ensures i < |s| ==> IsDigit(s[i])
    ensures i < |s| <==> HasDigit(s)
  {
    if s == [] then 0 else if IsDigit(s[0]) then 0 else 1 + FirstDigit(s[1..])
  }

  /** A string made only of digits is its own leading run. */
  lemma {:induction false} LeadingDigitsOfDigits(s: string, rest: string)
    requires AllDigits(s)
    requires rest == [] || !IsDigit(rest[0])
    ensures LeadingDigits(s + rest) == s
  {
    if s != [] {
      assert (s + rest)[1..] == s[1..] + rest;
      LeadingDigitsOfDigits(s[1..], rest);
    }
  }

  /** Reading a + b is reading a, shifting it by |b| places, and adding b. */
  lemma {:induction false} DigitsValueAppend(a: string, b: string)
    requires AllDigits(a) && AllDigits(b)
    ensures AllDigits(a + b)
    ensures DigitsValue(a + b) == DigitsValue(a) * Pow10(|b|) + DigitsValue(b)
  {
    if b == [] {
      assert a + b == a;
    } else {
      var b' := b[..|b| - 1];
      var d := DigitValue(b[|b| - 1]);
      assert (a + b)[..|a + b| - 1] == a + b';
      assert (a + b)[|a + b| - 1] == b[|b| - 1];
      DigitsValueAppend(a, b');
      ShiftDigit(DigitsValue(a), Pow10(|b'|), DigitsValue(b'), d);
    }
  }

  lemma ShiftDigit(x: nat, p: nat, y: nat, d: nat)
    ensures 10 * (x * p + y) + d == x * (10 * p) + (10 * y + d)
  {
  }
}
