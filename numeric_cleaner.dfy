/**
 clean_numeric_column and its per-cell clean_value
 (script/preprocessing.py): a missing cell stays missing, a number is kept
 (or dropped when negative and negatives are removed), and any other value
 is reduced to its characters in [0-9.-] and read with float(), a failed
 read giving a missing cell.
 */
module NumericCleaner {
  import opened Wrappers
  import opened Numerals
  import opened FloatLiteral
  import opened Cells

  /**
   The residue of re.sub(r'[^\d\.\-]', '', s): s with every character other
   than a digit, '.' and '-' deleted, the survivors in their order.
   (The strip() before it only removes whitespace, which this deletes anyway.)
   */
  function KeepNumericChars(s: string): (r: string)
    ensures IsResidue(r)
    ensures |r| <= |s|
    ensures forall c :: c in r <==> c in s && IsResidueChar(c)
    ensures IsResidue(s) ==> r == s
  {
    if s == [] then []
    else (if IsResidueChar(s[0]) then [s[0]] else []) + KeepNumericChars(s[1..])
  }

  /** Filtering distributes over concatenation, so it can be computed piece by piece. */
  lemma {:induction false} KeepNumericCharsAppend(a: string, b: string)
    ensures KeepNumericChars(a + b) == KeepNumericChars(a) + KeepNumericChars(b)
  {
    if a != [] {
      assert (a + b)[0] == a[0] && (a + b)[1..] == a[1..] + b;
      KeepNumericCharsAppend(a[1..], b);
      var head := if IsResidueChar(a[0]) then [a[0]] else [];
      assert KeepNumericChars(a + b) == head + (KeepNumericChars(a[1..]) + KeepNumericChars(b));
      assert KeepNumericChars(a) == head + KeepNumericChars(a[1..]);
      assert head + (KeepNumericChars(a[1..]) + KeepNumericChars(b)) == (head + KeepNumericChars(a[1..])) + KeepNumericChars(b);
    } else {
      assert a + b == b;
    }
  }

  /** clean_value: the cleaned cell for one raw cell. */
  function CleanValue(c: Cell, removeNegative: bool): (r: Cell)
    ensures c.Absent? ==> r.Absent?
    ensures !r.Text?
    ensures r.NegInf? ==> c.NegInf? && !removeNegative
    ensures removeNegative ==> IsCleanNumber(r)
    ensures c.Text? && !IsFloatLiteral(KeepNumericChars(c.s)) ==> r.Absent?
  {
    match c
    case Absent => Absent
    case Num(x) => if x >= 0.0 || !removeNegative then Num(x) else Absent
    case NegInf => if removeNegative then Absent else NegInf
    case Text(s) =>
      match ParseFloat(KeepNumericChars(s))
      case None => Absent
      case Some(v) => if removeNegative && v < 0.0 then Absent else Num(v)
  }

  /** A number already in the cell is kept, unless it is negative and negatives are removed. */
  lemma CleanValueOfNumber(x: real)
    ensures CleanValue(Num(x), false) == Num(x)
    ensures x >= 0.0 ==> CleanValue(Num(x), true) == Num(x)
    ensures x < 0.0 ==> CleanValue(Num(x), true) == Absent
  {
  }

  /** On the string path a present result is exactly float() of the residue, and a failed read is absence. */
  lemma CleanValueOfText(s: string, removeNegative: bool)
    ensures var r := CleanValue(Text(s), removeNegative);
            var p := ParseFloat(KeepNumericChars(s));
            (r.Num? <==> p.Some? && !(removeNegative && p.value < 0.0)) &&
            (r.Num? ==> r.x == p.value)
  {
  }

  /** Only the residue matters: noise characters around the number never change the result. */
  lemma CleanValueIgnoresNoise(s: string, removeNegative: bool)
    ensures CleanValue(Text(s), removeNegative) == CleanValue(Text(KeepNumericChars(s)), removeNegative)
  {
    assert KeepNumericChars(KeepNumericChars(s)) == KeepNumericChars(s);
  }

  /** The text of a natural number cleans to that number. */
  lemma CleanValueOfNatString(n: nat, removeNegative: bool)
    ensures CleanValue(Text(NatToString(n)), removeNegative) == Num(n as real)
  {
    ParseFloatOfNatToString(n);
  }

  /** Cleaning a cleaned cell changes nothing. */
  lemma CleanValueIdempotent(c: Cell, removeNegative: bool)
    ensures CleanValue(CleanValue(c, removeNegative), removeNegative) == CleanValue(c, removeNegative)
  {
  }

  /** A residue float() rejects gives absence rather than an error. */
  lemma CleanValueOfMalformedResidue(s: string, removeNegative: bool)
    requires IsResidue(s) && ParseFloat(s).None?
    ensures CleanValue(Text(s), removeNegative) == Absent
  {
  }

  /** A text with no digit, '.' or '-' at all ("N/A") cleans to absence. */
  lemma CleanValueOfNoResidue(removeNegative: bool)
    ensures CleanValue(Text("N/A"), removeNegative) == Absent
  {
    assert KeepNumericChars("N/A") == "" by {
      assert KeepNumericChars("A") == "";
      assert KeepNumericChars("/A") == "";
    }
  }
}
