# Aurum Wealth batch scripts, modelled in Dafny

This project models the data-handling core of four pandas scripts from a
wealth-management learning repository:

- **the portfolio pipeline** (`day6_pipeline.py`). It builds a client table with
  messy investment amounts. `clean_data` strips thousands separators, coerces
  the amounts to numbers and fills the gaps with the median. `analyze_data`
  attaches a return rate per risk level and the projected profit. The report
  totals the profit per risk level, and the run lists the three most
  profitable clients.
- **the deposit-cleaning script** (`day4_cleaning.py`). It drops exact duplicate
  rows and cleans the amounts the same way. It parses the dates and drops the
  rows whose date does not parse, then title-cases the status column.
- **the aggregation script** (`day8_aggregation.py`). It computes:
  - per-client totals, sorted descending
  - per-(city, asset class) totals
  - a city × asset-class pivot with missing cells filled with 0
  - the completed transactions above 10,000
- **the quant script** (`day9_quant.py`). It computes:
  - a price path of 50,000 plus the running sum of the daily changes
  - its 20- and 50-day simple moving averages
  - a Bullish/Bearish signal from their crossover

Tables are sequences of row datatypes, and a column of mixed Python objects is
a sequence of `Cell` values (`Num`, `Text` or `NaN`). Missing numbers are
`Option<real>`, and group keys are sequences of strings.

The modules follow the scripts:
- `Pipeline`, `Cleaning`, `Aggregation` and `Quant` model the four scripts.
- `FrameOps` holds the generic data-frame operations: boolean-mask filter,
  `drop_duplicates`, descending sort, `nlargest` and row-wise map.
- `Numeric` handles comma stripping and `to_numeric`.
- `Stats` handles the median and `fillna`.
- `Text` handles `str.title`.
- `Grouping` holds the group-by sum shared by every aggregation.
- `Samples` holds the scripts' own hard-coded tables and the values the scripts
  compute from them.

Error behaviour, as the scripts have it:
- A risk level other than High, Medium or Low gets rate 0, because `np.select`
  defaults to 0. No error is raised for an unmapped category.

## Model

| member | source | states |
|---|---|---|
| Numeric.StripCommas | day6_pipeline.py:30 | the result has no comma; it keeps every other character in order; it is shorter by exactly the number of commas |
| Numeric.ParseNumber | day6_pipeline.py:31 | a string accepted as a number is non-empty and made only of sign, digit and point characters; a plain digit string reads as its decimal value |
| Numeric.UnsignedGrammar | day6_pipeline.py:31 | an unsigned string reads as a number exactly when it is a non-empty digit string, or digits, one point and digits with at least one digit in all |
| Numeric.ParseNumberGrammar | day6_pipeline.py:31 | a string reads as a number exactly when it is decimal text: an optional sign, then digits with at most one point and at least one digit; anything else reads as missing |
| Numeric.SampleMalformed | day6_pipeline.py:31 | "5-", "--5", "1.2.3" and "." each read as missing |
| Numeric.SignedValue | day6_pipeline.py:31 | a leading minus negates the value of the unsigned rest, a leading plus keeps it, and a signed non-number stays a non-number |
| Numeric.DecimalValue | day6_pipeline.py:31 | digits, a point and digits (either side may be empty, not both) read as the decimal value of that text |
| Numeric.DecimalOf | day6_pipeline.py:31 | the decimal value times ten to the number of decimals is all the digits read as one whole number |
| Numeric.DecimalParts | day6_pipeline.py:31 | the decimal value is the whole part plus the decimals over the matching power of ten |
| Numeric.SampleDecimal | day6_pipeline.py:31 | '12.5' reads as 12.5 |
| Numeric.SampleNegative | day6_pipeline.py:31 | '-5' reads as -5 |
| Numeric.ToNumeric | day6_pipeline.py:30-31 | a NaN cell stays missing, a number stays itself; text reads as a number exactly when, with its commas removed, it is decimal text, and then it holds only digits, signs, points and commas |
| Numeric.ThousandsRoundTrip | day6_pipeline.py:30-31 | any natural number written with thousands separators reads back, after comma stripping and coercion, as that number |
| Numeric.PlainRoundTrip | day6_pipeline.py:30-31 | any natural number written without separators reads back as that number |
| Numeric.NonNumericTextIsMissing | day6_pipeline.py:31 | text starting with a character that cannot begin a number is coerced to missing rather than raising |
| Numeric.Sample15000 | day6_pipeline.py:17 | the sample cell "15,000" reads as 15000 |
| Numeric.Sample20000 | day6_pipeline.py:17 | the sample cell "20000" reads as 20000 |
| Numeric.Sample12000 | day4_cleaning.py:10 | the sample cell "12,000" reads as 12000 |
| Numeric.SampleInvalid | day6_pipeline.py:31 | a word such as "Invalid_Date" in a numeric column is coerced to missing |
| Stats.Present | day6_pipeline.py:34 | a value is seen by the median exactly when some cell holds it, and there are exactly as many values as present cells |
| Stats.PresentIsDropna | day6_pipeline.py:34 | the values are the present cells themselves, in column order and with repeats |
| Stats.PresentSkipsOne | day6_pipeline.py:34 | with exactly one missing cell, the median sees every other value in order |
| Stats.Middle | day6_pipeline.py:34 | on descending values, the middle lies between the two middle values and exists iff there is a value |
| Stats.Median | day6_pipeline.py:34 | the median exists iff some value is present; it lies between the smallest and the largest value; with an odd count it is one of the values |
| Stats.MedianOrderFree | day6_pipeline.py:34 | the median depends only on the multiset of values, not on row order |
| Stats.MedianOfDescending | day6_pipeline.py:34 | on descending values the median is the middle value, or the mean of the two middle values for an even count |
| Stats.FillNa | day6_pipeline.py:35 | `fillna` leaves present cells unchanged and writes the fill value into every missing cell |
| Stats.CleanAmounts | day6_pipeline.py:30-35 | each cell that reads as a number keeps that number; each other cell gets the median of the numbers that were read |
| Stats.CleanAmountsComplete | day6_pipeline.py:33-35 | if one amount reads as a number, no amount is missing after filling; if none does, every amount stays missing |
| Stats.FillValueWithinRange | day6_pipeline.py:34-35 | the fill value lies between the smallest and the largest amount that was read |
| Pipeline.CleanData | day6_pipeline.py:23-37 | `clean_data` keeps the row count, the row order and the id, name and risk columns; it rewrites only the amount, as read or median-filled |
| Pipeline.CleanDataComplete | day6_pipeline.py:33-35 | after cleaning no amount is missing, provided one raw amount reads as a number |
| Pipeline.ReturnRate | day6_pipeline.py:46-55 | the rate is 0.15, 0.10 or 0.06 iff the risk level is exactly High, Medium or Low, and 0 iff it is none of them |
| Pipeline.AnalyzeData | day6_pipeline.py:40-60 | each row is kept in place and gains its level's rate; its profit is present iff its amount is, and equals amount × rate |
| Pipeline.ProfitEntries | day6_pipeline.py:75 | one (risk level, profit) entry per row; per level and overall the entries carry exactly that level's profit and the total profit |
| Pipeline.RiskSummary | day6_pipeline.py:75 | one row per distinct risk level in ascending order, each holding the summed profit of that level's rows; the rows add up to the total profit |
| Pipeline.RiskSummaryCoversLevels | day6_pipeline.py:75 | every risk level that occurs in the table has a summary row |
| Pipeline.TopThree | day6_pipeline.py:103 | `nlargest(3)` lists min(3, n) rows of the table: first the rows with a profit, largest first, with no row left out more profitable than one listed; then, if fewer than three rows have a profit, rows without one in table order |
| Pipeline.RunPipeline | day6_pipeline.py:95-103 | the full run keeps one analysed row per client, in order; the risk-level totals add up to the table's total profit; exactly min(3, n) rows of the table are listed |
| Pipeline.TopThreeFull | day6_pipeline.py:97-103 | when some amount reads as a number, every client has a profit and every listed row has one |
| Pipeline.CleanDataNoneParse | day6_pipeline.py:30-35 | when no amount reads as a number, the median is missing and every cleaned amount stays missing |
| Pipeline.TopThreeNoneParse | day6_pipeline.py:97-103 | when no amount reads as a number, no row has a profit and the listing is the first min(3, n) rows of the table |
| Pipeline.ProfitsComplete | day6_pipeline.py:33-58 | when some amount reads as a number, every analysed row has a profit |
| FrameOps.Filter | day8_aggregation.py:67 | a boolean mask keeps exactly the rows it selects, in their original order, and as many as it selects |
| FrameOps.FilterConcat | day8_aggregation.py:67 | a mask over a concatenation is the concatenation of the masked parts |
| FrameOps.MapRowsTwice | day4_cleaning.py:36-62 | two successive column rewrites equal the one combined rewrite |
| FrameOps.FilterMapRows | day4_cleaning.py:51-54 | selecting after a rewrite equals rewriting after selecting by the pulled-back condition |
| FrameOps.MapFilterMembers | day4_cleaning.py:51-62 | the rewritten selected rows are exactly the rewrites of the rows the condition selects |
| FrameOps.DropDuplicates | day4_cleaning.py:27 | the result is an order-preserving sub-sequence without repeats; it holds every input row and no other row |
| FrameOps.DropDuplicatesFromShape | day4_cleaning.py:27 | with some rows already seen, the kept rows are a sub-sequence of the input with no row twice |
| FrameOps.DropDuplicatesFromFirstOrder | day4_cleaning.py:27 | with some rows already seen, the kept rows come in the order of their first occurrences in the input |
| FrameOps.DropDuplicatesKeepsFirst | day4_cleaning.py:26-27 | each kept row stands at its first occurrence: the kept rows are in the order in which each first appears |
| FrameOps.DedupMapFilterMembers | day4_cleaning.py:27-37 | de-duplicating, selecting and rewriting yields the rewrite of every selected input row and nothing else |
| FrameOps.DropDuplicatesFromDistinct | day4_cleaning.py:27 | a table without repeats comes through `drop_duplicates` unchanged |
| FrameOps.DropDuplicatesIdempotent | day4_cleaning.py:27 | de-duplicating twice gives the same as de-duplicating once |
| FrameOps.DropDuplicatesFromConcat | day4_cleaning.py:27 | de-duplicating a concatenation handles the first part, then the second part with the first part's rows already seen |
| FrameOps.DropDuplicatesOneRepeat | day4_cleaning.py:26-27 | a single later copy of an earlier row is removed and nothing else changes |
| FrameOps.SortDesc | day8_aggregation.py:33 | the descending sort gives a permutation of its input in non-increasing key order |
| FrameOps.SortDescSumOf | day8_aggregation.py:33 | sorting does not change any column total |
| FrameOps.NLargest | day6_pipeline.py:103 | `nlargest(n)` returns min(n, |table|) rows of the table: the rows with a value first, in descending order, with no row with a value left out that is larger than one kept; the remaining places hold the rows without a value, in table order |
| FrameOps.NLargestAllMissing | day6_pipeline.py:103 | when no row has a value, `nlargest(n)` returns the first n rows unchanged |
| Text.ToUpper | day4_cleaning.py:62 | upper-casing turns a cased letter upper and leaves any other character alone; it agrees with lower-casing on case-insensitive equality |
| Text.CaseFolding | day4_cleaning.py:61-62 | letters that agree ignoring case upper-case to the same letter |
| Text.Title | day4_cleaning.py:62 | `str.title` keeps length and uncased characters; it upper-cases a letter that starts a word and lower-cases every other letter |
| Text.TitleIdempotent | day4_cleaning.py:62 | title-casing a title-cased string changes nothing |
| Text.TitleIgnoresCase | day4_cleaning.py:61-62 | strings equal up to case title-case to the same string, so 'active' and 'Active' become one category |
| Text.TitleExamples | day4_cleaning.py:11 | 'active' and 'Active' both become 'Active' |
| Cleaning.CleanDepositAmounts | day4_cleaning.py:36-42 | each deposit's amount becomes the cleaned amount of its position; name, date and status are untouched |
| Cleaning.CleanDeposits | day4_cleaning.py:27-62 | the result holds one row per de-duplicated row whose date parses; every row has a date; every status is title-cased |
| Cleaning.CleanDepositsFused | day4_cleaning.py:27-62 | the four steps equal one selection followed by one rewrite: the de-duplicated rows whose date parses, in order, each with its amount read or median-filled, its date parsed and its status title-cased |
| Cleaning.CleanDepositsRows | day4_cleaning.py:27-62 | every input row whose date parses appears rewritten in the output, and every output row is the rewrite of an input row whose date parses |
| Cleaning.DedupComparesRawCells | day4_cleaning.py:27-37 | two entries of one deposit whose amounts are written differently but read as the same number both survive de-duplication, and are identical once their amounts are cleaned |
| Grouping.InKeys | day8_aggregation.py:41 | a key is among the group keys iff some row carries it |
| Grouping.KeySumOfGroup | day8_aggregation.py:41 | in a grouped result, each row's amount is the total of all rows under its key |
| Grouping.AddTo | day8_aggregation.py:41 | adding one row's value to a grouped result adds it to its key's total, adds the key if new, and keeps the keys sorted |
| Grouping.GroupSum | day8_aggregation.py:41 | the grouped result has the same keys as the rows, in ascending order; each key's total is the sum of its rows; the totals add up to the overall total |
| Grouping.GroupKeysDistinct | day8_aggregation.py:41 | each key appears in exactly one row of a grouped result |
| Aggregation.ClientEntries | day8_aggregation.py:33 | one (client, amount) entry per transaction; each client's entries sum to that client's transactions |
| Aggregation.ClientSumStep | day8_aggregation.py:33 | taking one more transaction, its amount is added to its own client's sum and to no other client's |
| Aggregation.ClientTotals | day8_aggregation.py:33 | one row per client, in descending total order, each holding that client's summed amount; every client appears; the totals add up to the sum of all transactions |
| Aggregation.ClientGroup | day8_aggregation.py:33 | every client group has a one-column key and holds the sum of that client's amounts |
| Aggregation.ClientCovered | day8_aggregation.py:33 | every transaction's client has a group |
| Aggregation.SortedClientRows | day8_aggregation.py:33 | after sorting, every row still holds one client's summed amount |
| Aggregation.CellAmountIsGroupSum | day8_aggregation.py:41 | a (city, asset) cell's amount is the sum of the transactions in that city and asset class |
| Aggregation.CityAssetEntries | day8_aggregation.py:41 | one (city, asset) entry per transaction; each pair's entries sum to the cell amount |
| Aggregation.CityAsset | day8_aggregation.py:41 | the two-key group-by is in ascending key order; each row holds its pair's cell amount; the rows add up to the sum of all transactions |
| Aggregation.CityAssetGroup | day8_aggregation.py:41 | each grouped row's key is the city and asset of some transaction, and its amount is that pair's cell amount |
| Aggregation.CityAssetCovers | day8_aggregation.py:41 | every (city, asset) pair that occurs in a transaction has a grouped row |
| Aggregation.CityAssetKeyOrigin | day8_aggregation.py:41 | every key of the entries is some transaction's (city, asset) pair |
| Aggregation.Levels | day8_aggregation.py:49 | the pivot labels are strictly ascending and are exactly the values occurring in the column |
| Aggregation.LabelsOf | day8_aggregation.py:49 | the pivot's row or column labels are strictly ascending; every transaction's label is among them and each label comes from a transaction |
| Aggregation.PivotRow | day8_aggregation.py:49 | a pivot row has one cell per asset class, holding that (city, asset) cell amount; a pair with no transactions holds 0 |
| Aggregation.PivotTable | day8_aggregation.py:49 | the pivot's row labels are the cities and its column labels the asset classes, both sorted; it has one row per city |
| Aggregation.CityRowTotal | day8_aggregation.py:49 | summed over all asset classes, a city's cells give that city's transaction total |
| Aggregation.SumPivotRow | day8_aggregation.py:49 | a pivot row, over any list of asset classes, adds up to the city's amounts summed over those classes |
| Aggregation.CityTotalOverAssets | day8_aggregation.py:49 | summed over every asset class in the table, a city's cells give the sum of the city's amounts |
| Aggregation.PivotRowTotals | day8_aggregation.py:49 | each pivot row adds up to the one-key total of its city |
| Aggregation.PivotCell | day8_aggregation.py:49 | the pivot has one row per city and one column per asset class; each cell is the summed amount of its city and asset class |
| Aggregation.PivotMatchesCityAsset | day8_aggregation.py:41-49 | each row of the two-key group-by sits at a cell of the pivot and holds that cell's amount |
| Aggregation.HighValue | day8_aggregation.py:67 | the high-value filter keeps, in order, exactly the Completed transactions above 10,000 |
| Quant.PricePath | day9_quant.py:16 | each day's price is 50,000 plus the sum of the changes up to and including that day |
| Quant.PriceSteps | day9_quant.py:16 | the first price is 50,000 plus the first change, and consecutive prices differ by that day's change |
| Quant.WindowMean | day9_quant.py:37-40 | a w-day mean is missing exactly while fewer than w days have passed |
| Quant.RollingMean | day9_quant.py:37-40 | the sliding running sum computes, for every day, the mean of the last w prices, or missing before the window fills |
| Quant.Signals | day9_quant.py:44 | the signal has one value per day; it is Bullish iff both averages exist and the fast one is above the slow one |
| Quant.EarlySignalsBearish | day9_quant.py:37-44 | until the slow window has filled the signal is Bearish |
| Quant.LateSignals | day9_quant.py:37-44 | once both windows are full, the signal is Bullish iff the 20-day mean exceeds the 50-day mean |
| Quant.Strategy | day9_quant.py:15-44 | all derived columns have one value per day; the prices follow the running sum; both averages are their window means; the first 49 signals are Bearish; a signal is Bullish iff the fast average is above the slow one |
| Samples.NineSampleMedian | day6_pipeline.py:17 | the nine sample amounts that read as numbers have median 25000 |
| Samples.FillOfTen | day6_pipeline.py:17 | with the sample column's readings, the fill value is 25000 |
| Samples.SampleRahulFilled | day6_pipeline.py:14-35 | after `clean_data` on the sample table, Rahul's missing amount is 25000 |
| Samples.SampleDedup | day4_cleaning.py:8-27 | `drop_duplicates` on the sample deposits removes only the second Ankit row |
| Samples.FourSampleMedian | day4_cleaning.py:10 | the four sample deposit amounts that read as numbers have median 8500 |
| Samples.SampleDepositFill | day4_cleaning.py:7-42 | on the de-duplicated sample deposits, Priya's missing amount is filled with 8500 |
| Samples.SampleRawDuplicate | day4_cleaning.py:27-37 | a Sonal row with amount "12,000" and one with 12000 are both kept by `drop_duplicates` |

## Left out

- Printing, `df.info()`, plotting and saving charts (seaborn/matplotlib, `savefig`) are not modelled. The same goes for the file-existence check in `generate_report` and the `read_csv` calls whose result is immediately discarded. They are output or I/O with no effect on the data.
- The script that generates client rows is modelled only by its fixed table (`Samples.SampleClients`), and the deposit script's table by `Samples.SampleDeposits`. The twenty-row transaction table of the aggregation script is not reproduced; the aggregation lemmas hold for every table.
- Random number generation (`np.random.seed`, `np.random.normal`) is not modelled. The daily price changes are an input.
- The date index (`pd.date_range`, `set_index`) and the monthly `resample('M').mean()` are not modelled. The index carries no value that later steps use, and the monthly means feed only a print.
- A missing column makes pandas raise `KeyError` (day6_pipeline.py:30, 48, 75, 103). The model's row types always carry every column, so this error path is not represented.
- `clean_data` and `analyze_data` modify their DataFrame argument in place and return it, so `raw_df`, `clean_df` and `final_df` in the main block (day6_pipeline.py:97-99) are one object (day6_pipeline.py:30-35, 55-58). No later step reads an earlier name, so the model's value semantics, where each step returns a new table, give the same outputs.
- Floating point is modelled as exact real arithmetic. IEEE rounding and the order in which pandas sums are not represented.
- Numeric.ParseNumber: accepts only an optional sign followed by digits with an optional decimal part. Exponents, surrounding whitespace, and the strings "inf"/"nan" are not accepted as `to_numeric` would accept them. A numeric cell is assumed to survive `astype(str)` and read back as the same number.
- Text.Title: only ASCII letters are cased. Unicode case mapping is not modelled.
- Cleaning.CleanDeposits: `pd.to_datetime(errors='coerce')` is a parameter, a function from text to an optional date. Which formats parse (e.g. "01/02/2025") depends on the pandas version and is not fixed by the model.
- Quant.RollingMean: requires a window of at least 1, which is all the script uses. pandas' other window forms (`min_periods`, centred windows) are not modelled.
- Aggregation.ClientTotals: `sort_values` does not guarantee an order among equal totals. The contract states only the descending order and the permutation, and the model's particular tie order is not a claim.
- Pipeline.TopThree: on ties `nlargest` keeps the earlier row. The contract does not state which of several equal profits is listed.
- FrameOps.NLargest: likewise, among rows with equal values the contract does not state which are kept or in which order they are listed.
- Aggregation.PivotTable: the pivot is stated through `Aggregation.PivotCell` (cell = summed amount) and `Aggregation.PivotRowTotals`. Its integer dtype (the heatmap's `fmt="d"`) is not modelled.
