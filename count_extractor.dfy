/**
 clean_num_ratings and its per-cell clean_rating
 (script/preprocessing.py): every ',' and every '-' is deleted, then the
 first maximal run of digits is read as a non-negative integer. Because the
 deletion comes first, "3-4" reads as 34 and "1,2" as 12; because the run
 stops at '.', "1.5k" reads as 1.
 */
module CountExtractor {
  import opened Wrappers
  import opened Numerals
  import opened Cells

  predicate IsSeparator(c: char) {
    c == ',' || c == '-'
  }

  /** re.sub(r',', '', s) followed by replace('-', ''). */
  function RemoveSeparators(s: string): (r: string)
    ensures |r| <= |s|
  {
    if s == [] then []
    else (if IsSeparator(s[0]) then [] else [s[0]]) + RemoveSeparators(s[1..])
  }

  /** Exactly the characters other than ',' and '-' survive. */
  lemma {:induction false} RemoveSeparatorsMembers(s: string)
    ensures forall c :: c in RemoveSeparators(s) <==> c in s && !IsSeparator(c)
  {
    if s != [] {
      RemoveSeparatorsMembers(s[1..]);
      assert forall c :: c in s <==> c == s[0] || c in s[1..];
    }
  }

  /** A string without separators is left as it is. */
  lemma {:induction false} RemoveSeparatorsOfPlain(s: string)
    requires forall i :: 0 <= i < |s| ==> !IsSeparator(s[i])
    ensures RemoveSeparators(s) == s
  {
    if s != [] {
      RemoveSeparatorsOfPlain(s[1..]);
    }
  }

  lemma {:induction false} RemoveSeparatorsAppend(a: string, b: string)
    ensures RemoveSeparators(a + b) == RemoveSeparators(a) + RemoveSeparators(b)
  {
    if a != [] {
      assert (a + b)[0] == a[0] && (a + b)[1..] == a[1..] + b;
      RemoveSeparatorsAppend(a[1..], b);
      var head := if IsSeparator(a[0]) then [] else [a[0]];
      assert RemoveSeparators(a + b) == head + (RemoveSeparators(a[1..]) + RemoveSeparators(b));
      assert head + (RemoveSeparators(a[1..]) + RemoveSeparators(b)) == (head + RemoveSeparators(a[1..])) + RemoveSeparators(b);
    } else {
      assert a + b == b;
    }
  }

  lemma HasDigitIffInString(s: string)
    ensures HasDigit(s) <==> exists c :: c in s && IsDigit(c)
  {
    if HasDigit(s) {
      var i :| 0 <= i < |s| && IsDigit(s[i]);
      assert s[i] in s;
    }
  }

  /** Deleting separators never deletes a digit. */
  lemma RemoveSeparatorsKeepsDigits(s: string)
    ensures HasDigit(RemoveSeparators(s)) <==> HasDigit(s)
  {
    RemoveSeparatorsMembers(s);
    HasDigitIffInString(s);
    HasDigitIffInString(RemoveSeparators(s));
  }

  /** int(re.search(r'(\d+)', t).group(1)), or None when t has no digit. */
  function FirstRunValue(t: string): (r: Option<nat>)
    ensures r.Some? <==> HasDigit(t)
  {
    var i := FirstDigit(t);
    if i == |t| then None else Some(DigitsValue(LeadingDigits(t[i..])))
  }

  /** The floor of a non-negative real, as a natural number. */
  function FloorNat(x: real): (n: nat)
    requires x >= 0.0
    ensures n as real <= x < n as real + 1.0
  {
    x.Floor
  }

  /**
   clean_rating. A number in the cell is read through str(): its sign is
   deleted and its digit run stops at the decimal point, leaving the floor
   of its absolute value; str(-inf) has no digit.
   */
  function CleanCount(c: Cell): (r: Option<nat>)
    ensures c.Absent? || c.NegInf? ==> r.None?
    ensures c.Text? ==> (r.Some? <==> HasDigit(c.s))
  {
    match c
    case Absent => None
    case NegInf => None
    case Num(x) => Some(FloorNat(Abs(x)))
    case Text(s) =>
      RemoveSeparatorsKeepsDigits(s);
      FirstRunValue(RemoveSeparators(s))
  }

  /** A string of digits followed by a non-digit reads as the value of those digits. */
  lemma FirstRunValueOfDigits(w: string, rest: string)
    requires w != [] && AllDigits(w)
    requires rest == [] || !IsDigit(rest[0])
    ensures FirstRunValue(w + rest) == Some(DigitsValue(w))
  {
    var t := w + rest;
    assert IsDigit(t[0]);
    assert t[0..] == t;
    LeadingDigitsOfDigits(w, rest);
  }

  /** The decimal text of every natural number n reads back as n. */
  lemma CleanCountOfNatString(n: nat)
    ensures CleanCount(Text(NatToString(n))) == Some(n)
  {
    var t := NatToString(n);
    RemoveSeparatorsOfPlain(t);
    FirstRunValueOfDigits(t, []);
    assert t + [] == t;
    DigitsValueOfNatToString(n);
  }

  /** The sign in front of a count is deleted with the separators: "-n" counts as "n". */
  lemma CleanCountIgnoresSign(s: string)
    ensures CleanCount(Text("-" + s)) == CleanCount(Text(s))
  {
    RemoveSeparatorsAppend("-", s);
    assert RemoveSeparators("-") == "";
    assert "" + RemoveSeparators(s) == RemoveSeparators(s);
  }

  /** A number already in the cell keeps its integer count, so cleaning twice changes nothing. */
  lemma CleanCountIdempotent(c: Cell)
    ensures var r := CleanCount(c);
            r.Some? ==> CleanCount(Num(r.value as real)) == r
  {
  }

  /** Three decimal digits of m < 1000, zero-padded, as a thousands group is written. */
  function Group3(m: nat): (g: string)
    requires m < 1000
    ensures |g| == 3 && AllDigits(g)
  {
    var r := m / 10;
    [DigitChar(r / 10), DigitChar(r % 10), DigitChar(m % 10)]
  }

  lemma Group3Value(m: nat)
    requires m < 1000
    ensures DigitsValue(Group3(m)) == m
  {
    var g := Group3(m);
    var r := m / 10;
    assert g[..2] == [g[0], g[1]];
    assert g[..2][..1] == [g[0]];
    assert DigitsValue([g[0]]) == r / 10 by {
      assert [g[0]][..0] == [];
    }
    assert DigitsValue(g[..2]) == 10 * (r / 10) + r % 10 == r;
    assert DigitsValue(g) == 10 * r + m % 10 == m;
  }

  /** n written with ',' between thousands groups, such as "12,345". */
  function WithThousands(n: nat): (s: string)
    ensures s != [] && IsDigit(s[0])
  {
    if n < 1000 then NatToString(n) else WithThousands(n / 1000) + "," + Group3(n % 1000)
  }

  /** Deleting the commas of the grouped numeral leaves digits that read as n. */
  lemma {:induction false} WithThousandsDigits(n: nat)
    ensures RemoveSeparators(WithThousands(n)) != []
    ensures AllDigits(RemoveSeparators(WithThousands(n)))
    ensures DigitsValue(RemoveSeparators(WithThousands(n))) == n
  {
    if n < 1000 {
      RemoveSeparatorsOfPlain(NatToString(n));
      DigitsValueOfNatToString(n);
    } else {
      var q, m := n / 1000, n % 1000;
      WithThousandsDigits(q);
      var head := RemoveSeparators(WithThousands(q));
      var g := Group3(m);
      assert WithThousands(n) == (WithThousands(q) + ",") + g;
      RemoveSeparatorsOfPlain(g);
      assert RemoveSeparators(WithThousands(q) + ",") == head by {
        RemoveSeparatorsAppend(WithThousands(q), ",");
        assert RemoveSeparators(",") == "";
        assert head + "" == head;
      }
      assert RemoveSeparators(WithThousands(n)) == head + g by {
        RemoveSeparatorsAppend(WithThousands(q) + ",", g);
      }
      assert DigitsValue(head + g) == n by {
        DigitsValueAppend(head, g);
        Group3Value(m);
        assert Pow10(3) == 1000;
      }
    }
  }

  /** A count written with thousands separators, "12,345", reads back as the number, 12345. */
  lemma CleanCountOfGrouped(n: nat)
    ensures CleanCount(Text(WithThousands(n))) == Some(n)
  {
    WithThousandsDigits(n);
    var t := RemoveSeparators(WithThousands(n));
    FirstRunValueOfDigits(t, []);
    assert t + [] == t;
  }

  /** A text whose separators hide a plain digit string counts as the value of those digits. */
  lemma CleanCountOfSeparated(s: string, w: string)
    requires RemoveSeparators(s) == w && w != [] && AllDigits(w)
    ensures CleanCount(Text(s)) == Some(DigitsValue(w))
  {
    FirstRunValueOfDigits(w, []);
    assert w + [] == w;
  }

  /** A separator between two texts is deleted, and each text loses its own separators. */
  lemma RemoveSeparatorsAround(a: string, c: char, b: string)
    requires IsSeparator(c)
    ensures RemoveSeparators(a + [c] + b) == RemoveSeparators(a) + RemoveSeparators(b)
  {
    RemoveSeparatorsAppend(a + [c], b);
    RemoveSeparatorsAppend(a, [c]);
    assert RemoveSeparators([c]) == [] by { assert [c][1..] == []; }
    assert RemoveSeparators(a) + [] == RemoveSeparators(a);
  }

  lemma DigitsValueExamples()
    ensures DigitsValue("12345") == 12345
    ensures DigitsValue("1000") == 1000
    ensures DigitsValue("34") == 34
  {
    assert "12345"[..4] == "1234" && "1234"[..3] == "123" && "123"[..2] == "12" && "12"[..1] == "1";
    assert "1000"[..3] == "100" && "100"[..2] == "10" && "10"[..1] == "1" && "1"[..0] == "";
    assert "34"[..1] == "3" && "3"[..0] == "";
  }

  // The example lemmas from here on take their text as a parameter fixed by
  // `requires s == "..."` rather than writing the literal in the ensures: with
  // a literal the verifier unfolds the scanning functions on every character
  // of it at once, and the proof no longer fits the resource limit.

  lemma RemoveSeparatorsOfGroupedExample(s: string)
    requires s == "12,345"
    ensures RemoveSeparators(s) == "12345"
  {
    var a, b := "12", "345";
    assert s == a + [','] + b && a + b == "12345";
    RemoveSeparatorsAround(a, ',', b);
    RemoveSeparatorsOfPlain(a);
    RemoveSeparatorsOfPlain(b);
  }

  lemma RemoveSeparatorsOfSignedExample(s: string)
    requires s == "-1,000"
    ensures RemoveSeparators(s) == "1000"
  {
    var a, b := "1", "000";
    assert s == [] + ['-'] + (a + [','] + b) && a + b == "1000";
    RemoveSeparatorsAround([], '-', a + [','] + b);
    RemoveSeparatorsAround(a, ',', b);
    RemoveSeparatorsOfPlain(a);
    RemoveSeparatorsOfPlain(b);
    assert RemoveSeparators([]) == [];
  }

  lemma RemoveSeparatorsOfRangeExample(s: string)
    requires s == "3-4"
    ensures RemoveSeparators(s) == "34"
  {
    var a, b := "3", "4";
    assert s == a + ['-'] + b && a + b == "34";
    RemoveSeparatorsAround(a, '-', b);
    RemoveSeparatorsOfPlain(a);
    RemoveSeparatorsOfPlain(b);
  }

  /** "12,345" counts 12345: the comma is deleted before the digits are read. */
  lemma CleanCountOfGroupedExample(s: string)
    requires s == "12,345"
    ensures CleanCount(Text(s)) == Some(12345)
  {
    RemoveSeparatorsOfGroupedExample(s);
    DigitsValueExamples();
    CleanCountOfSeparated(s, "12345");
  }

  /** "-1,000" counts 1000: the sign goes with the comma. */
  lemma CleanCountOfSignedExample(s: string)
    requires s == "-1,000"
    ensures CleanCount(Text(s)) == Some(1000)
  {
    RemoveSeparatorsOfSignedExample(s);
    DigitsValueExamples();
    CleanCountOfSeparated(s, "1000");
  }

  /** "3-4" counts 34: the '-' between the digits is deleted too. */
  lemma CleanCountOfRangeExample(s: string)
    requires s == "3-4"
    ensures CleanCount(Text(s)) == Some(34)
  {
    RemoveSeparatorsOfRangeExample(s);
    DigitsValueExamples();
    CleanCountOfSeparated(s, "34");
  }

  /** "no data" has no digit, so it has no count. */
  lemma CleanCountOfNoDataExample(s: string)
    requires s == "no data"
    ensures CleanCount(Text(s)) == None
  {
    assert !HasDigit(s) by {
      forall i | 0 <= i < |s| ensures !IsDigit(s[i]) {
      }
    }
  }
}
