/**
 One cell of the listings table. pandas marks a missing cell with NaN; here
 absence is a constructor of its own. A cell holds a number (an int or a
 finite float, both read as a real), a string, or negative infinity, which
 the discount back-fill produces for a positive price over an MRP of zero.
 Infinities from float() on a numeral too long for a double are not
 modelled: every parsed numeral is a finite real here.
 */
module Cells {

  datatype Cell = Absent | Num(x: real) | Text(s: string) | NegInf

  /** What a cleaned price, MRP, rating or count column holds: a non-negative number or nothing. */
  predicate IsCleanNumber(c: Cell) {
    c.Absent? || (c.Num? && c.x >= 0.0)
  }

  function Abs(x: real): (r: real)
    ensures r >= 0.0 && (r == x || r == -x)
  {
    if x < 0.0 then -x else x
  }
}
