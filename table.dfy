/**
 preprocess_data (script/preprocessing.py) on the whole table: the input
 is copied, then each step rewrites its columns in place, every row in
 turn, in the order the source runs them. Rows are never added, dropped or
 reordered, and the input array is left as it was.
 */
module Table {
  import opened Cells
  import opened Rows

  /** The cleaned table as a value: every row preprocessed, in order. */
  function PreprocessTable(rows: seq<Row>, log1p: real -> real): (out: seq<Row>)
    ensures |out| == |rows|
    ensures forall k :: 0 <= k < |rows| ==> out[k] == PreprocessRow(rows[k], log1p)
  {
    if rows == [] then [] else [PreprocessRow(rows[0], log1p)] + PreprocessTable(rows[1..], log1p)
  }

  /** Every row of a preprocessed table is clean. */
  lemma PreprocessTableClean(rows: seq<Row>, log1p: real -> real)
    ensures forall k :: 0 <= k < |rows| ==> IsCleanRow(PreprocessTable(rows, log1p)[k])
  {
  }

  /** Preprocessing the cleaned table again gives the same table. */
  lemma PreprocessTableIdempotent(rows: seq<Row>, log1p: real -> real)
    ensures PreprocessTable(PreprocessTable(rows, log1p), log1p) == PreprocessTable(rows, log1p)
  {
    var once := PreprocessTable(rows, log1p);
    forall k | 0 <= k < |rows|
      ensures PreprocessTable(once, log1p)[k] == once[k]
    {
      PreprocessRowIdempotent(rows[k], log1p);
    }
  }

  /**
   One column step over the table, in place: row k becomes f of what it
   was, for every k.
   */
  method ApplyToRows(t: array<Row>, f: Row --> Row)
    requires forall k :: 0 <= k < t.Length ==> f.requires(t[k])
    modifies t
    ensures forall k :: 0 <= k < t.Length ==> t[k] == f(old(t[k]))
  {
    for i := 0 to t.Length
      invariant forall k :: 0 <= k < i ==> t[k] == f(old(t[k]))
      invariant forall k :: i <= k < t.Length ==> t[k] == old(t[k])
    {
      t[i] := f(t[i]);
    }
  }

  /**
   Step 2.3, df.loc[mask, 'discount_percent'] = ...: only the rows the mask
   selects are written, and in them only a missing discount.
   */
  method BackfillDiscountColumn(t: array<Row>)
    requires forall k :: 0 <= k < t.Length ==> PricesClean(t[k])
    modifies t
    ensures forall k :: 0 <= k < t.Length ==> t[k] == BackfillDiscount(old(t[k]))
    ensures forall k :: 0 <= k < t.Length && !old(t[k]).discountPercent.Absent? ==> t[k] == old(t[k])
  {
    for i := 0 to t.Length
      invariant forall k :: 0 <= k < i ==> t[k] == BackfillDiscount(old(t[k]))
      invariant forall k :: i <= k < t.Length ==> t[k] == old(t[k])
    {
      if DiscountMask(t[i]) {
        t[i] := t[i].(discountPercent := Discount(t[i].price.x, t[i].mrp.x));
      }
      assert t[i] == BackfillDiscount(old(t[i]));
    }
  }

  /**
   Step 2.7, df.loc[mask, 'brand'] = ...: only the rows the mask selects are
   written, and in them only a missing brand.
   */
  method BackfillBrandColumn(t: array<Row>)
    modifies t
    ensures forall k :: 0 <= k < t.Length ==> t[k] == BackfillBrand(old(t[k]))
    ensures forall k :: 0 <= k < t.Length && !old(t[k]).brand.Absent? ==> t[k] == old(t[k])
  {
    for i := 0 to t.Length
      invariant forall k :: 0 <= k < i ==> t[k] == BackfillBrand(old(t[k]))
      invariant forall k :: i <= k < t.Length ==> t[k] == old(t[k])
    {
      if BrandMask(t[i]) {
        t[i] := t[i].(brand := BrandOf(t[i].productName));
      }
      assert t[i] == BackfillBrand(old(t[i]));
    }
  }

  /** Steps 2.1 to 2.7 in place: the base columns and the two back-fills. */
  method CleanBaseColumns(t: array<Row>)
    modifies t
    ensures forall k :: 0 <= k < t.Length ==> t[k] == CleanBase(old(t[k]))
    ensures forall k :: 0 <= k < t.Length ==> BaseClean(t[k])
  {
    ApplyToRows(t, CleanPrice);
    ApplyToRows(t, CleanMrp);
    assert forall k :: 0 <= k < t.Length ==> t[k] == CleanMrp(CleanPrice(old(t[k])));
    assert forall k :: 0 <= k < t.Length ==> PricesClean(t[k]);
    BackfillDiscountColumn(t);
    ApplyToRows(t, CleanProductRating);
    ApplyToRows(t, CleanNumRatings);
    ApplyToRows(t, CleanReviewRating);
    BackfillBrandColumn(t);
  }

  /** Steps 2.8 and 2.9 in place: the derived columns, then the categorical fill. */
  method DeriveColumns(t: array<Row>, log1p: real -> real)
    requires forall k :: 0 <= k < t.Length ==> BaseClean(t[k])
    modifies t
    ensures forall k :: 0 <= k < t.Length ==> t[k] == FillCategoricals(DeriveFeatures(old(t[k]), log1p))
  {
    ApplyToRows(t, (r: Row) requires BaseClean(r) => DeriveFeatures(r, log1p));
    ApplyToRows(t, FillCategoricals);
  }

  /** df.copy(): a new table with the same rows. */
  method Copy(df: array<Row>) returns (c: array<Row>)
    ensures fresh(c) && c[..] == df[..]
  {
    c := new Row[df.Length](k requires 0 <= k < df.Length reads df => df[k]);
  }

  /**
   preprocess_data: df.copy(), then the steps 2.1 to 2.9 column by column.
   np.log1p is the parameter log1p.
   */
  method Preprocess(df: array<Row>, log1p: real -> real) returns (clean: array<Row>)
    ensures fresh(clean) && clean.Length == df.Length
    ensures clean[..] == PreprocessTable(df[..], log1p)
    ensures df[..] == old(df[..])
  {
    clean := Copy(df);
    CleanBaseColumns(clean);
    DeriveColumns(clean, log1p);
    assert forall k :: 0 <= k < clean.Length ==> clean[k] == PreprocessRow(df[k], log1p);
  }
}
