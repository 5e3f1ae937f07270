# Preprocessing of e-commerce grey-market listings, modelled in Dafny

This project models the cleaning core of `script/preprocessing.py`. The
raw table of listings has these columns: price, MRP, discount, product and
review ratings, rating count, brand, product name, review text, platform
and seller, plus any passthrough columns. `preprocess_data` copies the
table and normalises it column by column:

1. Price and MRP are turned into non-negative numbers or "missing".
2. A missing discount is back-filled from price and MRP.
3. The two rating columns are read out of free text and rescaled into [0, 5].
4. The rating count is read out of free text as a whole number.
5. A missing brand is back-filled with the first word of the product name.
6. Four derived columns are added: price/MRP ratio, suspicious-pricing
   flag, has-review flag and rating-quality score.
7. A missing platform or seller becomes `"Unknown"`.

The model has these parts:

- **Per-cell helpers**, as pure functions on a `Cell`:
  - `clean_value` is `NumericCleaner.CleanValue`.
  - `extract_rating_from_text` is `RatingExtractor.ExtractRating`.
  - `clean_rating` is `CountExtractor.CleanCount`.
  - A `Cell` is one of `Absent` (pandas' NaN), `Num`, `Text`, or `NegInf`.
    `NegInf` is the `-inf` the discount back-fill can produce.
- **Python and regex primitives they rely on**, as functions with their own
  specifications:
  - `float()` on the filtered residue: `FloatLiteral`.
  - the leftmost greedy match of `(\d+\.?\d*)`: `RatingExtractor.FindNumeral`,
    proved to satisfy the declarative `IsLeftmostMatch`.
  - `str.split()`: `Words`.
  - numpy's round-half-even `.round(2)`: `Rounding`.
- **Each step of `preprocess_data` on one row**, as a function in `Rows`
  that changes only its own columns. Together they make `PreprocessRow`.
- **The table pass** (`Table.Preprocess`), which is imperative:
  - it copies the input array;
  - it rewrites the copy in place, column step by column step, with loops;
  - the two back-fills are masked loops that write only the rows their
    mask selects.
  - It is proved equal to `PreprocessTable`, the row-wise map of
    `PreprocessRow`, and it leaves the input unchanged.

Decisions that affect what the contracts say:

- **An MRP of 0 with a missing discount passes the discount mask.** The code
  then divides by zero. `0/0` gives NaN, so the discount stays missing; a
  positive price over 0 gives `-inf`, which `.round(2)` keeps. The model
  states both cases (`Rows.Discount`, `Rows.PreprocessRowZeroMrp`).
- **A number given to the two text extractors is read through `str()`.**
  The pattern has no sign, so a rating reads as its absolute value. The
  digit run stops at the decimal point, so a count reads as the floor of
  its absolute value. `str(-inf)` has no digit.
- **`np.log1p` is a parameter** `log1p: real -> real` of the derived-feature
  step and of the whole pass.
- **The back-fills run as steps 2.3 and 2.7, between the base cleanings,**
  and the model keeps that order. `Rows.BackfillsAfterBaseCleaning` proves
  that running both after the rating and count cleanings gives the same row.

## Model

| member | source | states |
|---|---|---|
| NumericCleaner.KeepNumericChars | script/preprocessing.py:34 | the residue keeps exactly the characters of the input that are digits, '.' or '-', is no longer than the input, and is the input itself when nothing needs deleting |
| NumericCleaner.KeepNumericCharsAppend | script/preprocessing.py:34 | the character filter distributes over concatenation |
| NumericCleaner.CleanValue | script/preprocessing.py:26-41 | missing stays missing; the result is never text; with negatives removed it is missing or a number >= 0; a text whose residue is not a float literal gives missing |
| NumericCleaner.CleanValueOfNumber | script/preprocessing.py:29-30 | a number is kept when negatives are allowed or it is >= 0, and becomes missing when it is negative and negatives are removed |
| NumericCleaner.CleanValueOfText | script/preprocessing.py:32-41 | on the string path the result is a number exactly when float() of the residue succeeds and is not a removed negative, and then it is that float |
| NumericCleaner.CleanValueIgnoresNoise | script/preprocessing.py:32-34 | a text and its residue clean to the same value |
| NumericCleaner.CleanValueOfNatString | script/preprocessing.py:32-39 | the decimal text of every natural number n cleans to n |
| NumericCleaner.CleanValueIdempotent | script/preprocessing.py:26-41 | cleaning a cleaned cell again changes nothing |
| NumericCleaner.CleanValueOfMalformedResidue | script/preprocessing.py:35-41 | a residue float() rejects yields missing, not an error |
| NumericCleaner.CleanValueOfNoResidue | script/preprocessing.py:32-41 | "N/A" has an empty residue and cleans to missing |
| FloatLiteral.ParseUnsignedAccepts | script/preprocessing.py:36 | the unsigned reader succeeds exactly on digit strings with at most one '.' containing a digit |
| FloatLiteral.ParseFloat | script/preprocessing.py:36 | float() on a residue succeeds exactly on an optional '-' followed by an unsigned literal |
| FloatLiteral.ParseFloatOfDigits | script/preprocessing.py:36 | a digit string reads as its decimal value |
| FloatLiteral.ParseFloatOfNatToString | script/preprocessing.py:36 | the decimal text of n reads back as n |
| FloatLiteral.ParseFloatOfPointNumeral | script/preprocessing.py:36 | "w.f" reads as the value of w plus f over 10 to the length of f, including "12." and ".5" |
| FloatLiteral.ParseFloatOfNegation | script/preprocessing.py:36 | a leading '-' negates the value and fails exactly when the rest fails |
| FloatLiteral.MalformedResiduesWithoutDigits | script/preprocessing.py:35-41 | "", "-" and "." are rejected |
| FloatLiteral.MalformedTwoPoints | script/preprocessing.py:35-41 | "1.2.3" is rejected |
| FloatLiteral.MalformedInnerMinus | script/preprocessing.py:35-41 | "1-2" is rejected |
| FloatLiteral.MalformedDoubleMinus | script/preprocessing.py:35-41 | "--1" is rejected |
| RatingExtractor.FindNumeral | script/preprocessing.py:51-52 | re.search finds a match exactly when the text has a digit, and the match is well formed |
| RatingExtractor.FindNumeralIsLeftmostMatch | script/preprocessing.py:51 | the match found starts at the first digit, takes a maximal digit run, the following '.' if any, and a maximal digit run after it |
| RatingExtractor.ScanIsLeftmostMatch | script/preprocessing.py:51 | at a digit the scanned numeral is the leftmost greedy match |
| RatingExtractor.LeftmostMatchBehind | script/preprocessing.py:51 | a non-digit in front moves the leftmost match one place right and changes nothing else |
| RatingExtractor.FindNumeralOutOfFiveStars | script/preprocessing.py:51 | the match in "4.5 out of 5 stars" is "4.5" at the start, not the later "5" |
| RatingExtractor.FindNumeralAfterNonDigits | script/preprocessing.py:51 | text without digits in front of a string only shifts the match by its length |
| RatingExtractor.FloatOfNumeral | script/preprocessing.py:53 | the matched text is always a literal float() accepts, and it reads as the numeral's value |
| RatingExtractor.ExtractRating | script/preprocessing.py:45-58 | the result is missing or in [0, 5]; a missing cell gives missing |
| RatingExtractor.ExtractRatingOfText | script/preprocessing.py:47-58 | a text rates exactly when it has a digit and its first numeral is at most 50 |
| RatingExtractor.ExtractRatingCases | script/preprocessing.py:52-57 | a numeral up to 5 is kept, one in (5, 10] halved, one in (10, 50] divided by ten, one above 50 rejected |
| RatingExtractor.RescaleCases | script/preprocessing.py:54-57 | the rescale and range check of a non-negative value: kept up to 5, halved up to 10, divided by ten up to 50, rejected above |
| RatingExtractor.ExtractRatingOfFound | script/preprocessing.py:51-57 | the rating of a text is the rescale and range check of the value of its match |
| RatingExtractor.ExtractRatingIdempotent | script/preprocessing.py:45-58 | a rating read back from its own number is unchanged |
| RatingExtractor.ExtractRatingIgnoresSign | script/preprocessing.py:49-51 | a negative number rates as its absolute value |
| RatingExtractor.ExtractRatingAfterNonDigits | script/preprocessing.py:49-57 | characters without digits in front of the text, a sign among them, never change the rating |
| RatingExtractor.ExtractRatingOfNatString | script/preprocessing.py:51-57 | the text of n rates as the rescaled n when that lies in [0, 5] |
| RatingExtractor.ExtractRatingOfPointNumeral | script/preprocessing.py:51-57 | "w.f" followed by a non-digit rates as the rescaled value of w.f |
| RatingExtractor.ExtractRatingOutOfFiveStars | script/preprocessing.py:45-57 | "4.5 out of 5 stars" rates 4.5 |
| RatingExtractor.ExtractRatingUnsigned | script/preprocessing.py:49-57 | "-3" rates 3 |
| RatingExtractor.ExtractRatingHalvedExamples | script/preprocessing.py:55-57 | "9" rates 4.5 and "10" rates 5 |
| RatingExtractor.ExtractRatingTenthExample | script/preprocessing.py:55-57 | "50" rates 5 |
| RatingExtractor.ExtractRatingRejectedExample | script/preprocessing.py:55-57 | "95" becomes 9.5, is out of range, and gives missing |
| CountExtractor.RemoveSeparators | script/preprocessing.py:67-69 | deleting ',' and '-' never lengthens the text |
| CountExtractor.RemoveSeparatorsMembers | script/preprocessing.py:67-69 | exactly the characters other than ',' and '-' survive |
| CountExtractor.RemoveSeparatorsAppend | script/preprocessing.py:67-69 | the deletion distributes over concatenation |
| CountExtractor.RemoveSeparatorsKeepsDigits | script/preprocessing.py:67-70 | the text has a digit after the deletion exactly when it had one before |
| CountExtractor.RemoveSeparatorsAround | script/preprocessing.py:67-69 | one separator between two texts is deleted and the two texts are cleaned independently |
| CountExtractor.FirstRunValueOfDigits | script/preprocessing.py:70-72 | a digit run ended by a non-digit or the end is read whole, as its decimal value |
| CountExtractor.RemoveSeparatorsOfGroupedExample | script/preprocessing.py:67-68 | "12,345" loses its comma |
| CountExtractor.RemoveSeparatorsOfSignedExample | script/preprocessing.py:67-69 | "-1,000" loses its sign and its comma |
| CountExtractor.RemoveSeparatorsOfRangeExample | script/preprocessing.py:69 | "3-4" becomes "34" |
| CountExtractor.FirstRunValue | script/preprocessing.py:70-73 | the first digit run gives a value exactly when the text has a digit |
| CountExtractor.CleanCount | script/preprocessing.py:62-73 | missing and -inf give missing; a text gives a count exactly when it has a digit |
| CountExtractor.CleanCountOfNatString | script/preprocessing.py:62-73 | the decimal text of every natural number n counts n |
| CountExtractor.CleanCountIgnoresSign | script/preprocessing.py:69 | "-" in front of a text does not change its count |
| CountExtractor.CleanCountIdempotent | script/preprocessing.py:62-73 | a count read back from its own number is unchanged |
| CountExtractor.WithThousandsDigits | script/preprocessing.py:67 | n written with thousands separators loses exactly its commas and keeps the digits of n |
| CountExtractor.CleanCountOfGrouped | script/preprocessing.py:67-72 | every n written with thousands separators counts n |
| CountExtractor.CleanCountOfSeparated | script/preprocessing.py:67-72 | a text whose separators hide a digit string counts as those digits |
| CountExtractor.CleanCountOfGroupedExample | script/preprocessing.py:67-72 | "12,345" counts 12345 |
| CountExtractor.CleanCountOfSignedExample | script/preprocessing.py:67-72 | "-1,000" counts 1000 |
| CountExtractor.CleanCountOfRangeExample | script/preprocessing.py:67-72 | "3-4" counts 34, because the '-' is deleted before the run is read |
| CountExtractor.CleanCountOfNoDataExample | script/preprocessing.py:70-73 | "no data" gives missing |
| Words.Split | script/preprocessing.py:123 | str.split() returns only non-empty words without whitespace |
| Words.FirstWord | script/preprocessing.py:123 | `.str[0]` of the split exists exactly when the text is not all whitespace, and is a word |
| Words.SplitOfBlank | script/preprocessing.py:123 | the split is empty exactly when the text is all whitespace |
| Words.SplitAfterBlank | script/preprocessing.py:123 | leading whitespace does not change the words |
| Words.SplitOfWord | script/preprocessing.py:123 | a word followed by whitespace or nothing is split off as the first word |
| Words.SplitJoin | script/preprocessing.py:123 | splitting words joined by single spaces gives back the words |
| Words.FirstWordOf | script/preprocessing.py:123 | the first word of whitespace, a word, and then whitespace or nothing is that word |
| Words.FirstWordOfNameExample | script/preprocessing.py:123 | "Acme Widget 3" gives "Acme" |
| Words.FirstWordOfPaddedExample | script/preprocessing.py:123 | "  Acme" gives "Acme" |
| Rounding.RoundHalfEven | script/preprocessing.py:101 | the nearest integer, within 1/2, and the even one on a tie |
| Rounding.RoundHalfEvenNearest | script/preprocessing.py:101 | no integer is nearer the input than the rounded one |
| Rounding.RoundHalfEvenOfInteger | script/preprocessing.py:101 | an integer rounds to itself |
| Rounding.Round2 | script/preprocessing.py:101 | the result has at most two decimals and is within 0.005 of the input |
| Rounding.Round2OfHundredths | script/preprocessing.py:101 | a value with at most two decimals is unchanged |
| Rounding.Round2Idempotent | script/preprocessing.py:101 | rounding twice equals rounding once |
| Rounding.Round2Ties | script/preprocessing.py:101 | ties go to the even hundredth (0.125 to 0.12, 0.135 to 0.14) |
| Rows.CleanPrice | script/preprocessing.py:89 | price becomes missing or a number >= 0 and no other column changes |
| Rows.CleanMrp | script/preprocessing.py:95 | mrp becomes missing or a number >= 0 and no other column changes |
| Rows.Discount | script/preprocessing.py:101 | for mrp > 0 a number within 0.005 of (mrp - price) / mrp * 100 and at most 100; for mrp = 0 missing when price = 0 and -inf when price > 0 |
| Rows.DiscountAtMostHundred | script/preprocessing.py:101 | with a price >= 0 and mrp > 0 the rounded discount is at most 100 |
| Rows.BackfillDiscount | script/preprocessing.py:100-101 | only discount_percent can change, and nothing changes outside the mask |
| Rows.CleanProductRating | script/preprocessing.py:107 | product_rating becomes missing or in [0, 5] and no other column changes |
| Rows.CleanNumRatings | script/preprocessing.py:113 | num_ratings becomes missing or a whole number >= 0 and no other column changes |
| Rows.CleanReviewRating | script/preprocessing.py:118 | review_rating becomes missing or in [0, 5] and no other column changes |
| Rows.BrandOf | script/preprocessing.py:123 | the brand is missing exactly when the name is not a text or is blank, and otherwise is a single word |
| Rows.BackfillBrand | script/preprocessing.py:122-123 | only brand can change, and nothing changes outside the mask |
| Rows.DeriveFeatures | script/preprocessing.py:130-147 | only the four derived columns change; both flags are 0 or 1, never missing |
| Rows.FillUnknown | script/preprocessing.py:153-154 | a missing cell becomes "Unknown" and a present value is kept |
| Rows.FillCategoricals | script/preprocessing.py:153-154 | platform and seller_name are never missing afterwards, and no other column changes |
| Rows.CleanBase | script/preprocessing.py:86-123 | after steps 2.1 to 2.7 every column the derived columns read is clean |
| Rows.BackfillsAfterBaseCleaning | script/preprocessing.py:98-123 | deferring both back-fills until after the rating and count cleanings gives the same row as the code's order |
| Rows.PreprocessRow | script/preprocessing.py:77-154 | every output row is clean: prices, ratings, count, both flags and both categoricals |
| Rows.PreprocessRowCleansColumns | script/preprocessing.py:89-118 | each cleaned column is its cleaner applied to that same input column |
| Rows.PreprocessRowKeepsPassthrough | script/preprocessing.py:84-154 | product_name, review_text and the passthrough columns are unchanged |
| Rows.PreprocessRowDiscount | script/preprocessing.py:100-101 | a present discount is kept even when inconsistent; a missing one with price and mrp present is back-filled; otherwise it stays missing |
| Rows.PreprocessRowBrand | script/preprocessing.py:122-123 | a present brand is kept; a missing one takes the first word of a non-blank text name; otherwise it stays missing |
| Rows.DeriveFeaturesPricing | script/preprocessing.py:130-137 | the ratio exists exactly when price and mrp are present and mrp > 0, and is their quotient; the flag is 1 exactly when the ratio exists and is below 0.5 |
| Rows.DeriveFeaturesReviews | script/preprocessing.py:140-147 | has_review is 1 exactly when review_text is present; the score exists exactly when rating and count do, and is rating times log1p(count) |
| Rows.PreprocessRowDerived | script/preprocessing.py:126-147 | the derived columns of the output are computed from the cleaned columns |
| Rows.PreprocessRowCategoricals | script/preprocessing.py:153-154 | a missing platform or seller_name becomes "Unknown" and a present one is kept |
| Rows.CleanCellsAreFixed | script/preprocessing.py:89-118 | an already clean cell passes through its cleaner unchanged |
| Rows.CleanBaseFixed | script/preprocessing.py:86-123 | on a clean row whose back-fills are settled, steps 2.1 to 2.7 change nothing |
| Rows.PreprocessRowSettled | script/preprocessing.py:100-123 | after the pass, running either back-fill again would write nothing new |
| Rows.DeriveFeaturesStable | script/preprocessing.py:130-154 | deriving again or after the categorical fill gives the same columns |
| Rows.PreprocessRowIdempotent | script/preprocessing.py:77-168 | preprocessing a preprocessed row changes nothing |
| Rows.PreprocessRowDiscountExample | script/preprocessing.py:100-137 | price 80, mrp 100, no discount give discount 20, ratio 0.8 and flag 0 |
| Rows.PreprocessRowSuspiciousExamples | script/preprocessing.py:130-137 | price 40 against mrp 100 is flagged, 60 against 100 is not |
| Rows.PreprocessRowMissingPriceExample | script/preprocessing.py:130-137 | a missing price gives no ratio and flag 0, not a missing flag |
| Rows.PreprocessRowZeroMrp | script/preprocessing.py:100-134 | with mrp 0 a positive price back-fills -inf, a zero price leaves the discount missing, and the ratio is missing |
| Rows.PreprocessRowBrandExample | script/preprocessing.py:122-123 | a missing brand with product name "Acme Widget 3" becomes "Acme" |
| Table.PreprocessTable | script/preprocessing.py:77-168 | the cleaned table has as many rows as the input, row k being the preprocessed input row k |
| Table.PreprocessTableClean | script/preprocessing.py:77-168 | every row of the cleaned table is clean |
| Table.PreprocessTableIdempotent | script/preprocessing.py:77-168 | preprocessing the cleaned table again gives the same table |
| Table.ApplyToRows | script/preprocessing.py:89 | a column assignment rewrites every row k in place into f of its old value |
| Table.BackfillDiscountColumn | script/preprocessing.py:100-101 | the masked write leaves each row as BackfillDiscount of its old value, and a row with a present discount is untouched |
| Table.BackfillBrandColumn | script/preprocessing.py:122-123 | the masked write leaves each row as BackfillBrand of its old value, and a row with a present brand is untouched |
| Table.CleanBaseColumns | script/preprocessing.py:86-123 | steps 2.1 to 2.7 in place leave each row as CleanBase of its old value |
| Table.DeriveColumns | script/preprocessing.py:126-154 | steps 2.8 and 2.9 in place leave each row with its derived columns and categorical fill |
| Table.Copy | script/preprocessing.py:84 | df.copy() is a new array with the same rows |
| Table.Preprocess | script/preprocessing.py:77-168 | the returned table is new, has the input's length, equals PreprocessTable of the input, and the input is unchanged |

## Left out

- `load_data` and `save_processed_data` (script/preprocessing.py:12-22, 170-177) are left out because they are CSV input and output.
- The progress and summary printing in `preprocess_data` is left out because it is console output only. This covers missing counts, means, `describe` and `dtypes`, at script/preprocessing.py:79-81, 87-88, 90, 93-94, 96, 99, 102, 105-106, 108, 111-112, 114, 117, 121, 124, 127, 149, 152 and 157-166.
- `warnings.filterwarnings` (script/preprocessing.py:10) is left out because it only silences messages.
- `script/visualization.py` and `script/run_round2.py` are not part of this model: they are chart rendering and orchestration.
- Floating point is modelled by exact reals. The model captures no binary rounding in division, in `.round(2)` or in `price / mrp`, and no +inf or NaN arriving as an input number. The `-inf` that the discount back-fill creates from a positive price over an MRP of 0 is modelled, as `NegInf`.
- `float()` at script/preprocessing.py:36 returns ±inf for a numeral too long for a double; the model reads every numeral as a finite real. So the NaN or ±inf that such a price or MRP then causes at lines 101 and 132 is not modelled. An MRP of inf gives a NaN discount, not 100; a price of inf gives a discount of -inf, not a large negative number.
- `str()` of a float is modelled as its plain decimal numeral. Exponent notation such as `1e-05` is not modelled: there the code reads the mantissa's digits. The idempotence lemmas (RatingExtractor.ExtractRatingIdempotent, CountExtractor.CleanCountIdempotent, Rows.PreprocessRowIdempotent, Table.PreprocessTableIdempotent) depend on this: the text "0.00005" rates 5e-05, whose `str()` is "5e-05", and a second pass would rate that 5.
- `np.log1p` is an uninterpreted parameter. The model states only where it is applied and to what.
- `\d` and `str.isspace()` are restricted. `\d` covers ASCII digits only. The whitespace set is written out for the code points Python's `str.split()` treats as whitespace.
- `.str` on a product_name column that holds no strings at all raises in pandas; the model does not capture that error. On a mixed column `.str.split()` gives NaN for a cell that is not a string, and the model gives such a cell a missing brand.
- Boolean cells, and pandas' coercion of integer columns to float when NaN is present, are not modelled.
- Appending the derived columns at the end of the column order is not modelled. A row has named fields, so the model shows which columns exist but not their order. A derived column already present in the input is overwritten, as in the code.
- Rows.Discount: its contract bounds the rounded percentage to within 0.005 of the exact one instead of naming the rounding. The rounding itself is specified by Rounding.Round2 and its lemmas.
- Rows.PreprocessRowZeroMrp: the positive-price case is stated for price 5, as an example of the general rule that Rows.Discount states for every positive price.
