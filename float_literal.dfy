/**
 Python's float() on the strings the numeric cleaner hands it: strings over
 the residue alphabet [0-9.-] (every other character has been deleted
 before). Over that alphabet float() accepts exactly an optional leading
 '-', followed by digits with at most one '.', containing at least one
 digit ("12", "12.", ".5", "-0.25"), and raises on everything else
 ("", "-", ".", "1.2.3", "1-2", "--1").
 */
module FloatLiteral {
  import opened Wrappers
  import opened Numerals

  predicate IsResidueChar(c: char) {
    IsDigit(c) || c == '.' || c == '-'
  }

  predicate IsResidue(s: string) {
    forall i :: 0 <= i < |s| ==> IsResidueChar(s[i])
  }

  /** The number of '.' in s. */
  function DotCount(s: string): nat {
    if s == [] then 0 else (if s[0] == '.' then 1 else 0) + DotCount(s[1..])
  }

  predicate AtMostOneDot(s: string) {
    DotCount(s) <= 1
  }

  lemma {:induction false} DotCountAppend(a: string, b: string)
    ensures DotCount(a + b) == DotCount(a) + DotCount(b)
  {
    if a != [] {
      assert (a + b)[0] == a[0] && (a + b)[1..] == a[1..] + b;
      DotCountAppend(a[1..], b);
    } else {
      assert a + b == b;
    }
  }

  lemma {:induction false} DotCountOfDigits(s: string)
    requires AllDigits(s)
    ensures DotCount(s) == 0
  {
    if s != [] {
      assert IsDigit(s[0]);
      DotCountOfDigits(s[1..]);
    }
  }

  lemma {:induction false} DotCountOfDot(s: string, k: nat)
    requires k < |s| && s[k] == '.'
    ensures DotCount(s) >= 1
  {
    if k > 0 {
      DotCountOfDot(s[1..], k - 1);
    }
  }

  /** An unsigned literal: no '-', at most one '.', at least one digit. */
  predicate IsUnsignedLiteral(s: string) {
    (forall i :: 0 <= i < |s| ==> s[i] != '-') && AtMostOneDot(s) && HasDigit(s)
  }

  /** The grammar float() accepts over [0-9.-]: an optional leading '-' and an unsigned literal. */
  predicate IsFloatLiteral(s: string) {
    if s != [] && s[0] == '-' then IsUnsignedLiteral(s[1..]) else IsUnsignedLiteral(s)
  }

  /** float() on an unsigned residue: the integer digits, then optionally '.' and the fraction digits. */
  function ParseUnsigned(s: string): Option<real>
    requires IsResidue(s)
  {
    var w := LeadingDigits(s);
    var rest := s[|w|..];
    if rest == [] then
      if w == [] then None else Some(DigitsValue(w) as real)
    else if rest[0] == '.' && AllDigits(rest[1..]) && (w != [] || |rest| > 1) then
      Some(DigitsValue(w) as real + Fraction(rest[1..]))
    else
      None
  }

  /** A digit string is an unsigned literal exactly when it is not empty. */
  lemma UnsignedOfDigits(s: string)
    requires AllDigits(s)
    ensures IsUnsignedLiteral(s) <==> s != []
  {
    DotCountOfDigits(s);
    if s != [] {
      assert IsDigit(s[0]);
    }
  }

  /** Digits, a '.', then residue f: an unsigned literal exactly when f is digits and not both sides are empty. */
  lemma UnsignedOfPoint(w: string, f: string)
    requires AllDigits(w) && IsResidue(f)
    ensures IsUnsignedLiteral(w + "." + f) <==> AllDigits(f) && (w != [] || f != [])
  {
    var s := w + "." + f;
    DotCountAppend(w + ".", f);
    DotCountAppend(w, ".");
    DotCountOfDigits(w);
    assert DotCount(s) == 1 + DotCount(f);
    if AllDigits(f) {
      DotCountOfDigits(f);
      assert forall i :: 0 <= i < |s| ==> s[i] != '-' by {
        assert forall i :: 0 <= i < |w| ==> s[i] == w[i];
        assert forall k :: 0 <= k < |f| ==> s[|w| + 1 + k] == f[k];
      }
      if w != [] {
        assert IsDigit(s[0]);
      } else if f != [] {
        assert IsDigit(s[1]);
      }
    } else {
      var k :| 0 <= k < |f| && !IsDigit(f[k]);
      if f[k] == '.' {
        DotCountOfDot(f, k);
      } else {
        assert s[|w| + 1 + k] == f[k];
      }
    }
    if w == [] && f == [] {
      assert s == ".";
    }
  }

  /** A '-' anywhere makes an unsigned literal impossible. */
  lemma UnsignedNotMinus(s: string, i: nat)
    requires i < |s| && s[i] == '-'
    ensures !IsUnsignedLiteral(s)
  {
  }

  lemma ParseUnsignedAccepts(s: string)
    requires IsResidue(s)
    ensures ParseUnsigned(s).Some? <==> IsUnsignedLiteral(s)
  {
    var w := LeadingDigits(s);
    var rest := s[|w|..];
    assert s == w + rest;
    if rest == [] {
      assert w == s;
      UnsignedOfDigits(s);
    } else if rest[0] == '.' {
      var f := rest[1..];
      assert s == w + "." + f;
      assert IsResidue(f) by {
        assert forall k :: 0 <= k < |f| ==> f[k] == s[|w| + 1 + k];
      }
      UnsignedOfPoint(w, f);
    } else {
      assert s[|w|] == rest[0];
      UnsignedNotMinus(s, |w|);
    }
  }

  /**
   float() over the residue alphabet. The result is present exactly when s
   is a float literal; otherwise float() raises and the caller sees None.
   */
  function ParseFloat(s: string): (r: Option<real>)
    requires IsResidue(s)
    ensures r.Some? <==> IsFloatLiteral(s)
  {
    if s != [] && s[0] == '-' then
      ParseUnsignedAccepts(s[1..]);
      match ParseUnsigned(s[1..])
      case None => None
      case Some(v) => Some(-v)
    else
      ParseUnsignedAccepts(s);
      ParseUnsigned(s)
  }

  /** A non-empty digit string reads as its decimal value. */
  lemma ParseFloatOfDigits(w: string)
    requires w != [] && AllDigits(w)
    ensures IsResidue(w)
    ensures ParseFloat(w) == Some(DigitsValue(w) as real)
  {
    LeadingDigitsOfDigits(w, []);
    assert w + [] == w;
    assert w[0] != '-' by { assert IsDigit(w[0]); }
    assert ParseFloat(w) == ParseUnsigned(w);
  }

  /** The decimal numeral of a natural number reads back as that number. */
  lemma ParseFloatOfNatToString(n: nat)
    ensures IsResidue(NatToString(n))
    ensures ParseFloat(NatToString(n)) == Some(n as real)
  {
    ParseFloatOfDigits(NatToString(n));
    DigitsValueOfNatToString(n);
  }

  lemma ResidueOfPoint(w: string, f: string)
    requires AllDigits(w) && AllDigits(f)
    ensures IsResidue(w + "." + f)
  {
    var s := w + "." + f;
    forall i | 0 <= i < |s| ensures IsResidueChar(s[i]) {
      if i < |w| { assert s[i] == w[i]; }
      else if i > |w| { assert s[i] == f[i - |w| - 1]; }
    }
  }

  /** In "w.f" the integer digits are exactly w, and the point comes right after them. */
  lemma LeadingDigitsOfPoint(w: string, f: string)
    requires AllDigits(w)
    ensures LeadingDigits(w + "." + f) == w
    ensures (w + "." + f)[|w|..] == "." + f
  {
    assert w + "." + f == w + ("." + f);
    LeadingDigitsOfDigits(w, "." + f);
  }

  /** "w.f" starts with a digit or with the point, never with '-'. */
  lemma PointNumeralUnsigned(w: string, f: string)
    requires AllDigits(w)
    ensures (w + "." + f)[0] != '-'
  {
    var s := w + "." + f;
    if w == [] { assert s[0] == '.'; } else { assert s[0] == w[0]; }
  }

  /** A residue whose integer digits are followed by '.' and the digits f reads as those digits plus 0.f. */
  lemma ParseUnsignedOfPoint(s: string, f: string)
    requires IsResidue(s) && AllDigits(f)
    requires s[|LeadingDigits(s)|..] == "." + f
    requires LeadingDigits(s) != [] || f != []
    ensures ParseUnsigned(s) == Some(DigitsValue(LeadingDigits(s)) as real + Fraction(f))
  {
    assert ("." + f)[1..] == f;
  }

  /** Without a leading '-', float() is the unsigned reading. */
  lemma ParseFloatOfUnsigned(s: string)
    requires IsResidue(s) && (s == [] || s[0] != '-')
    ensures ParseFloat(s) == ParseUnsigned(s)
  {
  }

  /** "w.f" with digit strings w and f, not both empty, reads as w + 0.f. */
  lemma ParseFloatOfPointNumeral(w: string, f: string)
    requires AllDigits(w) && AllDigits(f) && (w != [] || f != [])
    ensures IsResidue(w + "." + f)
    ensures ParseFloat(w + "." + f) == Some(DigitsValue(w) as real + Fraction(f))
  {
    var s := w + "." + f;
    ResidueOfPoint(w, f);
    LeadingDigitsOfPoint(w, f);
    ParseUnsignedOfPoint(s, f);
    PointNumeralUnsigned(w, f);
    ParseFloatOfUnsigned(s);
  }

  /** A leading '-' negates an unsigned literal. */
  lemma ParseFloatOfNegation(s: string)
    requires IsResidue(s) && (s == [] || s[0] != '-')
    ensures IsResidue("-" + s)
    ensures ParseFloat("-" + s) == match ParseFloat(s) case None => None case Some(v) => Some(-v)
  {
    assert ("-" + s)[1..] == s;
  }

  /** Residues with no digit at all are rejected. */
  lemma MalformedResiduesWithoutDigits()
    ensures ParseFloat("") == None
    ensures ParseFloat("-") == None
    ensures ParseFloat(".") == None
  {
  }

  /** Two points are rejected: "1.2.3". */
  lemma MalformedTwoPoints()
    ensures ParseFloat("1.2.3") == None
  {
    assert DotCount("1.2.3") == 2;
  }

  /** A '-' after the first character is rejected: "1-2". */
  lemma MalformedInnerMinus()
    ensures ParseFloat("1-2") == None
  {
    UnsignedNotMinus("1-2", 1);
  }

  /** Two signs are rejected: "--1". */
  lemma MalformedDoubleMinus()
    ensures ParseFloat("--1") == None
  {
    assert "--1"[1..] == "-1";
    UnsignedNotMinus("-1", 0);
  }
}
