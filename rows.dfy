/**
 One listing of the table and the steps preprocess_data applies to it
 (script/preprocessing.py), one function per step, in the order the
 steps run. Every step works on one row at a time and changes only the
 columns it names; the table pass applies them to every row in turn.
 */
module Rows {
  import opened Wrappers
  import opened Cells
  import opened NumericCleaner
  import opened RatingExtractor
  import opened CountExtractor
  import opened Words
  import opened Rounding

  /**
   The columns preprocess_data reads or writes, and the passthrough columns
   it leaves alone. The four derived columns are written by the pass; a
   value they hold on input is overwritten.
   */
  datatype Row = Row(
    productName: Cell, brand: Cell, platform: Cell, sellerName: Cell,
    price: Cell, mrp: Cell, discountPercent: Cell,
    productRating: Cell, numRatings: Cell, reviewRating: Cell, reviewText: Cell,
    priceMrpRatio: Cell, suspiciousPricing: Cell, hasReview: Cell, ratingQualityScore: Cell,
    others: seq<Cell>)

  /** A cleaned rating: nothing, or a number in [0, 5]. */
  predicate IsRating(c: Cell) {
    c.Absent? || (c.Num? && 0.0 <= c.x <= 5.0)
  }

  /** A cleaned count: nothing, or a whole non-negative number. */
  predicate IsCount(c: Cell) {
    c.Absent? || (c.Num? && c.x >= 0.0 && c.x.Floor as real == c.x)
  }

  /** An int column made from a boolean mask: 0 or 1, never absent. */
  predicate IsFlag(c: Cell) {
    c == Num(0.0) || c == Num(1.0)
  }

  /** A float result stored in a column; None is the NaN pandas stores. */
  function RealCell(o: Option<real>): (c: Cell)
    ensures c.Absent? <==> o.None?
    ensures o.Some? ==> c == Num(o.value)
  {
    match o
    case None => Absent
    case Some(v) => Num(v)
  }

  function CountCell(o: Option<nat>): (c: Cell)
    ensures IsCount(c)
    ensures c.Absent? <==> o.None?
    ensures o.Some? ==> c == Num(o.value as real)
  {
    match o
    case None => Absent
    case Some(n) => Num(n as real)
  }

  // 2.1 and 2.2: price and mrp through clean_numeric_column(remove_negative=True).

  function CleanPrice(r: Row): (c: Row)
    ensures IsCleanNumber(c.price)
    ensures c == r.(price := c.price)
  {
    r.(price := CleanValue(r.price, true))
  }

  function CleanMrp(r: Row): (c: Row)
    ensures IsCleanNumber(c.mrp)
    ensures c == r.(mrp := c.mrp)
  {
    r.(mrp := CleanValue(r.mrp, true))
  }

  predicate PricesClean(r: Row) {
    IsCleanNumber(r.price) && IsCleanNumber(r.mrp)
  }

  // 2.3: the discount back-fill.

  /**
   ((mrp - price) / mrp * 100).round(2) for a cleaned price and MRP. The
   mask does not exclude mrp = 0: then 0/0 is NaN (absent), and a positive
   price over 0 is -inf, which round() keeps.
   */
  function Discount(p: real, m: real): (d: Cell)
    requires p >= 0.0 && m >= 0.0
    ensures m > 0.0 ==> d.Num? && Dist(d.x, (m - p) / m * 100.0) <= 0.005
    ensures m == 0.0 ==> (d.Absent? <==> p == 0.0) && (d.NegInf? <==> p > 0.0)
    ensures d.Num? ==> d.x <= 100.0
  {
    if m > 0.0 then
      DiscountAtMostHundred(p, m);
      Num(Round2((m - p) / m * 100.0))
    else if p == 0.0 then Absent
    else NegInf
  }

  lemma DiscountAtMostHundred(p: real, m: real)
    requires p >= 0.0 && m > 0.0
    ensures Round2((m - p) / m * 100.0) <= 100.0
  {
    var y := (m - p) / m * 100.0;
    assert y <= 100.0 by {
      assert (m - p) / m <= 1.0;
    }
    var n := RoundHalfEven(y * 100.0);
    assert n as real <= 10000.5;
    assert n <= 10000;
    ScaleDown(n as real, 10000.0);
  }

  /** discount_percent.isna() & price.notna() & mrp.notna() */
  predicate DiscountMask(r: Row) {
    r.discountPercent.Absent? && !r.price.Absent? && !r.mrp.Absent?
  }

  function BackfillDiscount(r: Row): (c: Row)
    requires PricesClean(r)
    ensures c == r.(discountPercent := c.discountPercent)
    ensures !DiscountMask(r) ==> c == r
  {
    if DiscountMask(r) then r.(discountPercent := Discount(r.price.x, r.mrp.x)) else r
  }

  // 2.4 to 2.6: the ratings and the count.

  function CleanProductRating(r: Row): (c: Row)
    ensures IsRating(c.productRating)
    ensures c == r.(productRating := c.productRating)
  {
    r.(productRating := RealCell(ExtractRating(r.productRating)))
  }

  function CleanNumRatings(r: Row): (c: Row)
    ensures IsCount(c.numRatings)
    ensures c == r.(numRatings := c.numRatings)
  {
    r.(numRatings := CountCell(CleanCount(r.numRatings)))
  }

  function CleanReviewRating(r: Row): (c: Row)
    ensures IsRating(c.reviewRating)
    ensures c == r.(reviewRating := c.reviewRating)
  {
    r.(reviewRating := RealCell(ExtractRating(r.reviewRating)))
  }

  // 2.7: the brand back-fill.

  /**
   product_name.str.split().str[0] on one cell: the first word of a text, or
   NaN when the text is blank; `.str` gives NaN on a value that is not a string.
   */
  function BrandOf(name: Cell): (b: Cell)
    ensures b.Absent? || (b.Text? && IsWord(b.s))
    ensures b.Absent? <==> !name.Text? || IsBlank(name.s)
  {
    if name.Text? then
      match FirstWord(name.s)
      case None => Absent
      case Some(w) => Text(w)
    else Absent
  }

  /** brand.isna() & product_name.notna() */
  predicate BrandMask(r: Row) {
    r.brand.Absent? && !r.productName.Absent?
  }

  function BackfillBrand(r: Row): (c: Row)
    ensures c == r.(brand := c.brand)
    ensures !BrandMask(r) ==> c == r
  {
    if BrandMask(r) then r.(brand := BrandOf(r.productName)) else r
  }

  // 2.8: the derived columns.

  /** What the derived columns read: cleaned price, MRP, product rating and count. */
  predicate BaseClean(r: Row) {
    PricesClean(r) && IsRating(r.productRating) && IsCount(r.numRatings)
  }

  function Flag(b: bool): (c: Cell)
    ensures IsFlag(c)
    ensures c == Num(1.0) <==> b
  {
    if b then Num(1.0) else Num(0.0)
  }

  /** np.where(price.notna() & mrp.notna() & (mrp > 0), price / mrp, nan) on one row. */
  function PriceMrpRatio(price: Cell, mrp: Cell): (c: Cell)
    requires IsCleanNumber(price) && IsCleanNumber(mrp)
  {
    if !price.Absent? && !mrp.Absent? && mrp.x > 0.0 then Num(price.x / mrp.x) else Absent
  }

  /** np.where(product_rating.notna() & num_ratings.notna(), product_rating * log1p(num_ratings), nan). */
  function QualityScore(rating: Cell, count: Cell, log1p: real -> real): (c: Cell)
    requires IsRating(rating) && IsCount(count)
  {
    if !rating.Absent? && !count.Absent? then Num(rating.x * log1p(count.x)) else Absent
  }

  /**
   price_mrp_ratio, suspicious_pricing, has_review and rating_quality_score.
   np.log1p is the parameter log1p. NaN < 0.5 is false, so a missing ratio
   flags 0.
   */
  function DeriveFeatures(r: Row, log1p: real -> real): (c: Row)
    requires BaseClean(r)
    ensures c == r.(priceMrpRatio := c.priceMrpRatio, suspiciousPricing := c.suspiciousPricing,
                    hasReview := c.hasReview, ratingQualityScore := c.ratingQualityScore)
    ensures IsFlag(c.suspiciousPricing) && IsFlag(c.hasReview)
  {
    var ratio := PriceMrpRatio(r.price, r.mrp);
    r.(priceMrpRatio := ratio,
       suspiciousPricing := Flag(ratio.Num? && ratio.x < 0.5),
       hasReview := Flag(!r.reviewText.Absent?),
       ratingQualityScore := QualityScore(r.productRating, r.numRatings, log1p))
  }

  // 2.9: the categorical columns.

  /** fillna('Unknown') on one cell. */
  function FillUnknown(c: Cell): (d: Cell)
    ensures !d.Absent?
    ensures c.Absent? ==> d == Text("Unknown")
    ensures !c.Absent? ==> d == c
  {
    if c.Absent? then Text("Unknown") else c
  }

  function FillCategoricals(r: Row): (c: Row)
    ensures c == r.(platform := c.platform, sellerName := c.sellerName)
    ensures !c.platform.Absent? && !c.sellerName.Absent?
  {
    r.(platform := FillUnknown(r.platform), sellerName := FillUnknown(r.sellerName))
  }

  /** What every row of the cleaned table satisfies. */
  predicate IsCleanRow(r: Row) {
    && PricesClean(r)
    && IsRating(r.productRating) && IsRating(r.reviewRating) && IsCount(r.numRatings)
    && IsFlag(r.suspiciousPricing) && IsFlag(r.hasReview)
    && !r.platform.Absent? && !r.sellerName.Absent?
  }

  /** The steps up to the end of 2.7, where the derived columns read from. */
  function CleanBase(r: Row): (c: Row)
    ensures BaseClean(c) && IsRating(c.reviewRating)
  {
    var a := CleanMrp(CleanPrice(r));
    BackfillBrand(CleanReviewRating(CleanNumRatings(CleanProductRating(BackfillDiscount(a)))))
  }

  /**
   The two back-fills read only price, mrp, discount_percent, brand and
   product_name, so deferring both until after the three rating and count
   cleanings gives the same row as the code's order 2.1 to 2.7.
   */
  lemma BackfillsAfterBaseCleaning(r: Row)
    ensures var b := CleanReviewRating(CleanNumRatings(CleanProductRating(CleanMrp(CleanPrice(r)))));
            BackfillBrand(BackfillDiscount(b)) == CleanBase(r)
  {
    var a := CleanMrp(CleanPrice(r));
    var b := CleanReviewRating(CleanNumRatings(CleanProductRating(a)));
    assert PricesClean(b) && b.discountPercent == a.discountPercent;
    var d := BackfillDiscount(a);
    assert CleanReviewRating(CleanNumRatings(CleanProductRating(d))) == BackfillDiscount(b);
  }

  /** The whole of preprocess_data on one row. */
  function PreprocessRow(r: Row, log1p: real -> real): (c: Row)
    ensures IsCleanRow(c)
  {
    FillCategoricals(DeriveFeatures(CleanBase(r), log1p))
  }

  /** The cleaned base columns of the output, each from its own input column. */
  lemma PreprocessRowCleansColumns(r: Row, log1p: real -> real)
    ensures var c := PreprocessRow(r, log1p);
            && c.price == CleanValue(r.price, true)
            && c.mrp == CleanValue(r.mrp, true)
            && c.productRating == RealCell(ExtractRating(r.productRating))
            && c.numRatings == CountCell(CleanCount(r.numRatings))
            && c.reviewRating == RealCell(ExtractRating(r.reviewRating))
  {
  }

  /** product_name, review_text and every passthrough column come out as they went in. */
  lemma PreprocessRowKeepsPassthrough(r: Row, log1p: real -> real)
    ensures var c := PreprocessRow(r, log1p);
            c.productName == r.productName && c.reviewText == r.reviewText && c.others == r.others
  {
  }

  /**
   discount_percent is written only where it was absent and both cleaned
   price and MRP are present; a present value is kept even when it
   disagrees with them.
   */
  lemma PreprocessRowDiscount(r: Row, log1p: real -> real)
    ensures var c := PreprocessRow(r, log1p);
            var p := CleanValue(r.price, true);
            var m := CleanValue(r.mrp, true);
            && (!r.discountPercent.Absent? ==> c.discountPercent == r.discountPercent)
            && (r.discountPercent.Absent? && p.Num? && m.Num? ==> c.discountPercent == Discount(p.x, m.x))
            && (r.discountPercent.Absent? && (p.Absent? || m.Absent?) ==> c.discountPercent.Absent?)
  {
  }

  /**
   brand is written only where it was absent and product_name is present,
   and then it is the first word of the name; a blank or non-text name
   leaves it absent.
   */
  lemma PreprocessRowBrand(r: Row, log1p: real -> real)
    ensures var c := PreprocessRow(r, log1p);
            && (!r.brand.Absent? ==> c.brand == r.brand)
            && (r.brand.Absent? && r.productName.Text? && !IsBlank(r.productName.s) ==>
                  c.brand == Text(FirstWord(r.productName.s).value))
            && (r.brand.Absent? && (!r.productName.Text? || IsBlank(r.productName.s)) ==> c.brand.Absent?)
  {
  }

  /**
   The ratio exists exactly when price and MRP are present and MRP is
   positive, and is their quotient; the flag is 1 exactly when the ratio
   exists and is below 0.5, and 0 otherwise, never absent.
   */
  lemma DeriveFeaturesPricing(r: Row, log1p: real -> real)
    requires BaseClean(r)
    ensures var c := DeriveFeatures(r, log1p);
            && (c.priceMrpRatio.Num? <==> r.price.Num? && r.mrp.Num? && r.mrp.x > 0.0)
            && (c.priceMrpRatio.Num? ==> c.priceMrpRatio.x == r.price.x / r.mrp.x)
            && (c.suspiciousPricing == Num(1.0) <==> c.priceMrpRatio.Num? && c.priceMrpRatio.x < 0.5)
  {
  }

  /**
   has_review is 1 exactly when review_text is present; the score exists
   exactly when both the rating and the count do, and is the rating times
   log1p of the count.
   */
  lemma DeriveFeaturesReviews(r: Row, log1p: real -> real)
    requires BaseClean(r)
    ensures var c := DeriveFeatures(r, log1p);
            && (c.hasReview == Num(1.0) <==> !r.reviewText.Absent?)
            && (c.ratingQualityScore.Num? <==> r.productRating.Num? && r.numRatings.Num?)
            && (c.ratingQualityScore.Num? ==>
                  c.ratingQualityScore.x == r.productRating.x * log1p(r.numRatings.x))
            && (!c.ratingQualityScore.Num? ==> c.ratingQualityScore.Absent?)
  {
  }

  /** In the output row the derived columns are DeriveFeatures' of the cleaned columns beside them. */
  lemma PreprocessRowDerived(r: Row, log1p: real -> real)
    ensures var c := PreprocessRow(r, log1p);
            var d := DeriveFeatures(CleanBase(r), log1p);
            && c.price == d.price && c.mrp == d.mrp && c.reviewText == d.reviewText
            && c.productRating == d.productRating && c.numRatings == d.numRatings
            && c.priceMrpRatio == d.priceMrpRatio && c.suspiciousPricing == d.suspiciousPricing
            && c.hasReview == d.hasReview && c.ratingQualityScore == d.ratingQualityScore
  {
  }

  /** A missing platform or seller_name becomes "Unknown"; a present one is kept. */
  lemma PreprocessRowCategoricals(r: Row, log1p: real -> real)
    ensures var c := PreprocessRow(r, log1p);
            && c.platform == (if r.platform.Absent? then Text("Unknown") else r.platform)
            && c.sellerName == (if r.sellerName.Absent? then Text("Unknown") else r.sellerName)
  {
  }

  /** A cell that is already clean passes through its cleaner unchanged. */
  lemma CleanCellsAreFixed(c: Cell)
    ensures IsCleanNumber(c) ==> CleanValue(c, true) == c
    ensures IsRating(c) ==> RealCell(ExtractRating(c)) == c
    ensures IsCount(c) ==> CountCell(CleanCount(c)) == c
  {
  }

  /** A back-fill that would run again on the row yields nothing, so it writes nothing new. */
  predicate BackfillsSettled(r: Row)
    requires PricesClean(r)
  {
    && (DiscountMask(r) ==> Discount(r.price.x, r.mrp.x).Absent?)
    && (BrandMask(r) ==> BrandOf(r.productName).Absent?)
  }

  /** On a cleaned row whose back-fills are settled, the base steps change nothing. */
  lemma CleanBaseFixed(c: Row)
    requires IsCleanRow(c) && BackfillsSettled(c)
    ensures CleanBase(c) == c
  {
    CleanCellsAreFixed(c.price);
    CleanCellsAreFixed(c.mrp);
    CleanCellsAreFixed(c.productRating);
    CleanCellsAreFixed(c.numRatings);
    CleanCellsAreFixed(c.reviewRating);
    var a := CleanMrp(CleanPrice(c));
    assert a == c;
    assert BackfillDiscount(a) == c;
    assert CleanReviewRating(CleanNumRatings(CleanProductRating(c))) == c;
  }

  /** Where a back-fill was left undone by the pass, doing it again still yields nothing. */
  lemma PreprocessRowSettled(r: Row, log1p: real -> real)
    ensures BackfillsSettled(PreprocessRow(r, log1p))
  {
    PreprocessRowDiscount(r, log1p);
    PreprocessRowBrand(r, log1p);
    PreprocessRowCleansColumns(r, log1p);
    PreprocessRowKeepsPassthrough(r, log1p);
  }

  /** The derived columns depend only on the columns they are derived from. */
  lemma DeriveFeaturesStable(d: Row, log1p: real -> real)
    requires BaseClean(d)
    ensures DeriveFeatures(DeriveFeatures(d, log1p), log1p) == DeriveFeatures(d, log1p)
    ensures DeriveFeatures(FillCategoricals(d), log1p) == FillCategoricals(DeriveFeatures(d, log1p))
  {
    var e := DeriveFeatures(d, log1p);
    assert e.price == d.price && e.mrp == d.mrp && e.reviewText == d.reviewText;
    assert e.productRating == d.productRating && e.numRatings == d.numRatings;
  }

  /** Preprocessing a preprocessed row changes nothing. */
  lemma PreprocessRowIdempotent(r: Row, log1p: real -> real)
    ensures PreprocessRow(PreprocessRow(r, log1p), log1p) == PreprocessRow(r, log1p)
  {
    var d := DeriveFeatures(CleanBase(r), log1p);
    var c := PreprocessRow(r, log1p);
    assert c == FillCategoricals(d);
    PreprocessRowSettled(r, log1p);
    CleanBaseFixed(c);
    DeriveFeaturesStable(d, log1p);
    assert FillCategoricals(FillCategoricals(d)) == c;
  }

  /** price 80 and MRP 100 with no discount back-fill a discount of 20 and a ratio of 0.8, not flagged. */
  lemma PreprocessRowDiscountExample(r: Row, log1p: real -> real)
    requires r.price == Num(80.0) && r.mrp == Num(100.0) && r.discountPercent.Absent?
    ensures PreprocessRow(r, log1p).discountPercent == Num(20.0)
    ensures PreprocessRow(r, log1p).priceMrpRatio == Num(0.8)
    ensures PreprocessRow(r, log1p).suspiciousPricing == Num(0.0)
  {
    PreprocessRowDiscount(r, log1p);
    assert (100.0 - 80.0) / 100.0 * 100.0 == 2000 as real / 100.0;
    Round2OfHundredths(2000);
    PreprocessRowDerived(r, log1p);
    DeriveFeaturesPricing(CleanBase(r), log1p);
  }

  /** price 40 against MRP 100 is flagged; 60 against 100 is not. */
  lemma PreprocessRowSuspiciousExamples(r: Row, log1p: real -> real)
    requires r.mrp == Num(100.0)
    ensures r.price == Num(40.0) ==> PreprocessRow(r, log1p).suspiciousPricing == Num(1.0)
    ensures r.price == Num(60.0) ==> PreprocessRow(r, log1p).suspiciousPricing == Num(0.0)
  {
    PreprocessRowDerived(r, log1p);
    DeriveFeaturesPricing(CleanBase(r), log1p);
  }

  /** A missing price gives no ratio and the flag 0, not a missing flag. */
  lemma PreprocessRowMissingPriceExample(r: Row, log1p: real -> real)
    requires r.price.Absent?
    ensures PreprocessRow(r, log1p).priceMrpRatio.Absent?
    ensures PreprocessRow(r, log1p).suspiciousPricing == Num(0.0)
  {
    PreprocessRowDerived(r, log1p);
    DeriveFeaturesPricing(CleanBase(r), log1p);
  }

  /**
   An MRP of 0 passes the discount mask: a positive price back-fills -inf,
   a zero price leaves the discount absent; the ratio is absent either way.
   */
  lemma PreprocessRowZeroMrp(r: Row, log1p: real -> real)
    requires r.mrp == Num(0.0) && r.discountPercent.Absent?
    ensures r.price == Num(5.0) ==> PreprocessRow(r, log1p).discountPercent == NegInf
    ensures r.price == Num(0.0) ==> PreprocessRow(r, log1p).discountPercent.Absent?
    ensures PreprocessRow(r, log1p).priceMrpRatio.Absent?
  {
    PreprocessRowDiscount(r, log1p);
    PreprocessRowDerived(r, log1p);
    DeriveFeaturesPricing(CleanBase(r), log1p);
  }

  /** A listing named "Acme Widget 3" with no brand gets the brand "Acme". */
  lemma PreprocessRowBrandExample(r: Row, log1p: real -> real)
    requires r.brand.Absent? && r.productName == Text("Acme Widget 3")
    ensures PreprocessRow(r, log1p).brand == Text("Acme")
  {
    PreprocessRowBrand(r, log1p);
    FirstWordOfNameExample();
  }
}
