/**
 extract_rating_from_text (script/preprocessing.py): the leftmost numeral
 matched by (\d+\.?\d*) is read as a float, rescaled when it exceeds 5
 (divided by 10 above 10, halved otherwise), and kept only when the result
 lies in [0, 5].
 */
module RatingExtractor {
  import opened Wrappers
  import opened Numerals
  import opened FloatLiteral
  import opened Cells

  /**
   A match of (\d+\.?\d*): the index where it starts, the digits before the
   point and, when a '.' follows them, the (possibly empty) digits after it.
   */
  datatype Numeral = Numeral(start: nat, whole: string, fraction: Option<string>)

  predicate WellFormed(m: Numeral) {
    m.whole != [] && AllDigits(m.whole) && (m.fraction.Some? ==> AllDigits(m.fraction.value))
  }

  /** match.group(1): the text the numeral covers. */
  function NumeralText(m: Numeral): string {
    m.whole + (if m.fraction.Some? then "." + m.fraction.value else "")
  }

  function NumeralValue(m: Numeral): (v: real)
    requires WellFormed(m)
    ensures v >= 0.0
  {
    DigitsValue(m.whole) as real + (if m.fraction.Some? then Fraction(m.fraction.value) else 0.0)
  }

  /**
   m is what re.search(r'(\d+\.?\d*)', s) returns: it starts at the first
   digit of s, its integer digits are a maximal run, it takes the '.' that
   follows them if there is one, and then a maximal run of digits.
   */
  predicate IsLeftmostMatch(s: string, m: Numeral) {
    var e := m.start + |m.whole|;
    && WellFormed(m)
    && e <= |s|
    && (forall k :: 0 <= k < m.start ==> !IsDigit(s[k]))
    && s[m.start..e] == m.whole
    && (e < |s| ==> !IsDigit(s[e]))
    && (m.fraction.Some? <==> e < |s| && s[e] == '.')
    && (m.fraction.Some? ==>
          var f := m.fraction.value;
          && e + 1 + |f| <= |s|
          && s[e + 1..e + 1 + |f|] == f
          && (e + 1 + |f| < |s| ==> !IsDigit(s[e + 1 + |f|])))
  }

  /** The greedy match of (\d+\.?\d*) at the front of u, which starts with a digit. */
  function ScanNumeral(u: string): (m: Numeral)
    requires u != [] && IsDigit(u[0])
    ensures m.start == 0 && WellFormed(m)
  {
    var w := LeadingDigits(u);
    assert w != [] by { assert IsDigit(u[0]); }
    if |w| < |u| && u[|w|] == '.' then Numeral(0, w, Some(LeadingDigits(u[|w| + 1..])))
    else Numeral(0, w, None)
  }

  /** The match moved k characters to the right. */
  function ShiftBy(o: Option<Numeral>, k: nat): Option<Numeral> {
    if o.None? then None else Some(o.value.(start := o.value.start + k))
  }

  /**
   re.search(r'(\d+\.?\d*)', s): the pattern is tried at each position from
   the left, and a match can only start at a digit. There is a match exactly
   when s has a digit (what it is: see FindNumeralIsLeftmostMatch).
   */
  function FindNumeral(s: string): (m: Option<Numeral>)
    ensures m.None? <==> !HasDigit(s)
    ensures m.Some? ==> WellFormed(m.value)
    decreases |s|
  {
    if s == [] then None
    else if IsDigit(s[0]) then Some(ScanNumeral(s))
    else
      HasDigitOfTail(s);
      ShiftBy(FindNumeral(s[1..]), 1)
  }

  /** The scan at the front of a string that starts with a digit is the leftmost match. */
  lemma ScanIsLeftmostMatch(u: string)
    requires u != [] && IsDigit(u[0])
    ensures IsLeftmostMatch(u, ScanNumeral(u))
  {
    var w := LeadingDigits(u);
    assert u[0..|w|] == w;
    if |w| < |u| && u[|w|] == '.' {
      var f := LeadingDigits(u[|w| + 1..]);
      assert u[|w| + 1..|w| + 1 + |f|] == f;
    }
  }

  /** A leftmost match of the tail, behind a non-digit, is the leftmost match of the whole. */
  lemma LeftmostMatchBehind(s: string, m: Numeral)
    requires s != [] && !IsDigit(s[0])
    requires IsLeftmostMatch(s[1..], m)
    ensures IsLeftmostMatch(s, m.(start := m.start + 1))
  {
    var t := s[1..];
    var e := m.start + |m.whole|;
    assert forall k :: 0 < k <= m.start ==> !IsDigit(s[k]) by {
      forall k | 0 < k <= m.start ensures !IsDigit(s[k]) { assert s[k] == t[k - 1]; }
    }
    assert s[m.start + 1..e + 1] == m.whole by {
      assert s[m.start + 1..e + 1] == t[m.start..e];
    }
    if e < |t| {
      assert s[e + 1] == t[e];
    }
    if m.fraction.Some? {
      var f := m.fraction.value;
      assert s[e + 2..e + 2 + |f|] == f by {
        assert s[e + 2..e + 2 + |f|] == t[e + 1..e + 1 + |f|];
      }
      if e + 1 + |f| < |t| {
        assert s[e + 2 + |f|] == t[e + 1 + |f|];
      }
    }
  }

  /** The match found is the leftmost, greedy one the regular expression engine reports. */
  lemma {:induction false} FindNumeralIsLeftmostMatch(s: string)
    requires HasDigit(s)
    ensures IsLeftmostMatch(s, FindNumeral(s).value)
    decreases |s|
  {
    if IsDigit(s[0]) {
      ScanIsLeftmostMatch(s);
    } else {
      HasDigitOfTail(s);
      FindNumeralIsLeftmostMatch(s[1..]);
      LeftmostMatchBehind(s, FindNumeral(s[1..]).value);
    }
  }

  /** float(match.group(1)): the matched text is a float literal, and it reads as the numeral's value. */
  lemma FloatOfNumeral(m: Numeral)
    requires WellFormed(m)
    ensures IsResidue(NumeralText(m))
    ensures ParseFloat(NumeralText(m)) == Some(NumeralValue(m))
  {
    if m.fraction.Some? {
      ParseFloatOfPointNumeral(m.whole, m.fraction.value);
      assert NumeralText(m) == m.whole + "." + m.fraction.value;
    } else {
      assert NumeralText(m) == m.whole;
      ParseFloatOfDigits(m.whole);
    }
  }

  /** The rescale heuristic: a value above 10 is taken to be ten times too large, one in (5, 10] twice too large. */
  function Rescale(v: real): real {
    if v > 5.0 then (if v > 10.0 then v / 10.0 else v / 2.0) else v
  }

  /** The final range check: only values in [0, 5] survive. */
  function InRange(v: real): (r: Option<real>)
    ensures r.Some? <==> 0.0 <= v <= 5.0
    ensures r.Some? ==> r.value == v
  {
    if 0.0 <= v <= 5.0 then Some(v) else None
  }

  /**
   extract_rating_from_text. A number in the cell is read through str(),
   whose numeral is its absolute value (the pattern has no sign); str(-inf)
   has no digit.
   */
  function ExtractRating(c: Cell): (r: Option<real>)
    ensures r.Some? ==> 0.0 <= r.value <= 5.0
    ensures c.Absent? || c.NegInf? ==> r.None?
  {
    match c
    case Absent => None
    case NegInf => None
    case Num(x) => InRange(Rescale(Abs(x)))
    case Text(s) =>
      match FindNumeral(s)
      case None => None
      case Some(m) =>
        FloatOfNumeral(m);
        InRange(Rescale(ParseFloat(NumeralText(m)).value))
  }

  /** A text rates exactly when it has a digit and its numeral is at most 50. */
  lemma ExtractRatingOfText(s: string)
    ensures ExtractRating(Text(s)).Some? <==> HasDigit(s) && NumeralValue(FindNumeral(s).value) <= 50.0
  {
    if HasDigit(s) {
      FloatOfNumeral(FindNumeral(s).value);
    }
  }

  /** The three rescale cases, and the rejection, for the value v of the numeral found in a text. */
  lemma ExtractRatingCases(s: string, v: real)
    requires HasDigit(s) && v == NumeralValue(FindNumeral(s).value)
    ensures v <= 5.0 ==> ExtractRating(Text(s)) == Some(v)
    ensures 5.0 < v <= 10.0 ==> ExtractRating(Text(s)) == Some(v / 2.0)
    ensures 10.0 < v <= 50.0 ==> ExtractRating(Text(s)) == Some(v / 10.0)
    ensures 50.0 < v ==> ExtractRating(Text(s)) == None
  {
    assert ExtractRating(Text(s)) == InRange(Rescale(v)) by {
      ExtractRatingOfFound(s, FindNumeral(s).value);
    }
    RescaleCases(v);
  }

  /** The rescale and range check on a non-negative value, case by case. */
  lemma RescaleCases(v: real)
    requires v >= 0.0
    ensures v <= 5.0 ==> InRange(Rescale(v)) == Some(v)
    ensures 5.0 < v <= 10.0 ==> InRange(Rescale(v)) == Some(v / 2.0)
    ensures 10.0 < v <= 50.0 ==> InRange(Rescale(v)) == Some(v / 10.0)
    ensures 50.0 < v ==> InRange(Rescale(v)) == None
  {
  }

  /** A number already in [0, 5] is its own rating, so extracting twice changes nothing. */
  lemma ExtractRatingIdempotent(c: Cell)
    ensures var r := ExtractRating(c);
            r.Some? ==> ExtractRating(Num(r.value)) == r
  {
  }

  /** The sign is not part of the pattern: a negative number rates as its absolute value. */
  lemma ExtractRatingIgnoresSign(x: real)
    ensures ExtractRating(Num(-x)) == ExtractRating(Num(x))
  {
  }

  /** A non-digit at the front shifts the match one place. */
  lemma FindNumeralBehind(t: string)
    requires t != [] && !IsDigit(t[0])
    ensures FindNumeral(t) == ShiftBy(FindNumeral(t[1..]), 1)
  {
  }

  /** Text without a digit in front of a string shifts the match but does not change it. */
  lemma {:induction false} FindNumeralAfterNonDigits(p: string, s: string)
    requires !HasDigit(p)
    ensures FindNumeral(p + s) == ShiftBy(FindNumeral(s), |p|)
  {
    if p == [] {
      assert p + s == s;
    } else {
      var t, q := p + s, p[1..];
      assert !IsDigit(p[0]);
      HasDigitOfTail(p);
      assert t[0] == p[0] && t[1..] == q + s;
      FindNumeralBehind(t);
      FindNumeralAfterNonDigits(q, s);
    }
  }

  /** Characters before the first digit, a minus sign among them, never change the rating. */
  lemma ExtractRatingAfterNonDigits(p: string, s: string)
    requires !HasDigit(p)
    ensures ExtractRating(Text(p + s)) == ExtractRating(Text(s))
  {
    FindNumeralAfterNonDigits(p, s);
    if FindNumeral(s).Some? {
      assert NumeralText(FindNumeral(p + s).value) == NumeralText(FindNumeral(s).value);
    }
  }

  /** A digit run followed by neither a digit nor a '.' is the whole match. */
  lemma FindNumeralOfDigits(w: string, rest: string)
    requires w != [] && AllDigits(w)
    requires rest == [] || (!IsDigit(rest[0]) && rest[0] != '.')
    ensures FindNumeral(w + rest) == Some(Numeral(0, w, None))
  {
    var t := w + rest;
    assert IsDigit(t[0]);
    LeadingDigitsOfDigits(w, rest);
    assert |w| < |t| ==> t[|w|] == rest[0];
  }

  /** Digits, a '.', and digits followed by a non-digit are the whole match. */
  lemma FindNumeralOfPoint(w: string, f: string, rest: string)
    requires w != [] && AllDigits(w) && AllDigits(f)
    requires rest == [] || !IsDigit(rest[0])
    ensures FindNumeral(w + "." + f + rest) == Some(Numeral(0, w, Some(f)))
  {
    var t := w + "." + f + rest;
    var a, b := w + ".", f + rest;
    assert t == w + ("." + b) && t == a + b;
    assert IsDigit(t[0]);
    LeadingDigitsOfDigits(w, "." + b);
    assert t[|w|] == '.';
    assert t[|w| + 1..] == b by {
      DropPrefix(a, b);
    }
    LeadingDigitsOfDigits(f, rest);
  }

  lemma DropPrefix(a: string, b: string)
    ensures (a + b)[|a|..] == b
  {
  }

  /** The rating of the text of a natural number n is the rescaled n, when that lies in [0, 5]. */
  lemma ExtractRatingOfNatString(n: nat)
    ensures ExtractRating(Text(NatToString(n))) == InRange(Rescale(n as real))
  {
    var t := NatToString(n);
    FindNumeralOfDigits(t, []);
    assert t + [] == t;
    DigitsValueOfNatToString(n);
    FloatOfNumeral(Numeral(0, t, None));
  }

  /** The numeral "w.f" followed by a non-digit rates as the rescaled w + 0.f. */
  lemma ExtractRatingOfPointNumeral(w: string, f: string, rest: string)
    requires w != [] && AllDigits(w) && AllDigits(f)
    requires rest == [] || !IsDigit(rest[0])
    ensures ExtractRating(Text(w + "." + f + rest)) == InRange(Rescale(DigitsValue(w) as real + Fraction(f)))
  {
    FindNumeralOfPoint(w, f, rest);
    FloatOfNumeral(Numeral(0, w, Some(f)));
  }

  /** The rating of a text is the rescaled value of the numeral found in it, when that lies in [0, 5]. */
  lemma ExtractRatingOfFound(s: string, m: Numeral)
    requires FindNumeral(s) == Some(m)
    ensures ExtractRating(Text(s)) == InRange(Rescale(NumeralValue(m)))
  {
    FloatOfNumeral(m);
  }

  // The example lemmas from here on take their text as a parameter fixed by
  // `requires s == "..."` rather than writing the literal in the ensures: with
  // a literal the verifier unfolds the scanning functions on every character
  // of it at once, and the proof no longer fits the resource limit.

  /** In "4.5 out of 5 stars" the pattern matches "4.5" at the front. */
  lemma FindNumeralOutOfFiveStars(s: string)
    requires s == "4.5 out of 5 stars"
    ensures FindNumeral(s) == Some(Numeral(0, "4", Some("5")))
  {
    assert s == "4" + "." + "5" + " out of 5 stars";
    FindNumeralOfPoint("4", "5", " out of 5 stars");
  }

  /** A numeral with one digit after the point reads as its whole part plus that many tenths. */
  lemma ExtractRatingOfTenths(s: string, w: string, d: char, rest: string)
    requires w != [] && AllDigits(w) && IsDigit(d)
    requires rest == [] || !IsDigit(rest[0])
    requires s == w + "." + [d] + rest
    ensures ExtractRating(Text(s)) == InRange(Rescale(DigitsValue(w) as real + DigitValue(d) as real / 10.0))
  {
    ExtractRatingOfPointNumeral(w, [d], rest);
    FractionOfDigit(d);
  }

  /** "4.5 out of 5 stars" rates 4.5. */
  lemma ExtractRatingOutOfFiveStars(s: string)
    requires s == "4.5 out of 5 stars"
    ensures ExtractRating(Text(s)) == Some(4.5)
  {
    assert s == "4" + "." + ['5'] + " out of 5 stars";
    ExtractRatingOfTenths(s, "4", '5', " out of 5 stars");
    assert DigitsValue("4") == 4 by { assert "4"[..0] == ""; }
  }

  /** The sign of "-3" is not part of the match: it rates 3. */
  lemma ExtractRatingUnsigned()
    ensures ExtractRating(Text("-3")) == Some(3.0)
  {
    ExtractRatingOfNatString(3);
    assert NatToString(3) == "3";
    ExtractRatingAfterNonDigits("-", "3");
    assert "-" + "3" == "-3";
  }

  /** A text of digits rates as its rescaled value, when that lies in [0, 5]. */
  lemma ExtractRatingOfDigits(w: string)
    requires w != [] && AllDigits(w)
    ensures ExtractRating(Text(w)) == InRange(Rescale(DigitsValue(w) as real))
  {
    FindNumeralOfDigits(w, []);
    assert w + [] == w;
    FloatOfNumeral(Numeral(0, w, None));
  }

  /** The value of a two-digit numeral. */
  lemma DigitsValueOfTwo(a: char, b: char)
    requires IsDigit(a) && IsDigit(b)
    ensures DigitsValue([a, b]) == 10 * DigitValue(a) + DigitValue(b)
  {
    var s := [a, b];
    assert s[..1] == [a] && s[1] == b;
    assert [a][..0] == [];
    assert DigitsValue([a]) == DigitValue(a);
  }

  /** 9 and 10 lie in (5, 10] and are halved, to 4.5 and 5. */
  lemma ExtractRatingHalvedExamples(nine: string, ten: string)
    requires nine == "9" && ten == "10"
    ensures ExtractRating(Text(nine)) == Some(4.5)
    ensures ExtractRating(Text(ten)) == Some(5.0)
  {
    ExtractRatingOfDigits(nine);
    assert DigitsValue(nine) == 9 by { assert nine[..0] == []; }
    ExtractRatingOfDigits(ten);
    DigitsValueOfTwo('1', '0');
    assert ['1', '0'] == ten;
  }

  /** 50 lies above 10 and is divided by ten, to 5. */
  lemma ExtractRatingTenthExample(fifty: string)
    requires fifty == "50"
    ensures ExtractRating(Text(fifty)) == Some(5.0)
  {
    ExtractRatingOfDigits(fifty);
    DigitsValueOfTwo('5', '0');
    assert ['5', '0'] == fifty;
  }

  /** 95 is divided by ten to 9.5, which is out of range, so the text has no rating. */
  lemma ExtractRatingRejectedExample(ninetyFive: string)
    requires ninetyFive == "95"
    ensures ExtractRating(Text(ninetyFive)) == None
  {
    ExtractRatingOfDigits(ninetyFive);
    DigitsValueOfTwo('9', '5');
    assert ['9', '5'] == ninetyFive;
  }
}
