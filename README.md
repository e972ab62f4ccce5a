# Import/export dashboard: the filter-and-aggregate pipeline

This project models the data pipeline behind the import/export dashboard
script `app.py`. The script's steps, and where each is modelled:

- It loads the transaction table and parses its `Date` column with the
  day-first format `%d-%m-%Y` (`Dates`, `Transactions.ParseDates`).
- It draws a sample of 3000 rows (`Transactions.DrawSample`).
- It offers every distinct category, direction (`Import_Export`) and year
  of the sample as the sidebar defaults (`Selections.DefaultSelection`).
- It keeps the rows whose three keys are all selected (`Selections.Filter`).
- From the rows it keeps (the view), it computes what the charts are drawn
  from:
  - the 0.9-quantile of `Value` and the percentage of rows at or above it
    (`Quantiles`, `HighValue`);
  - the number of rows per shipping method (`ShippingCounts`);
  - the total `Value` per calendar month, in ascending month order
    (`MonthlyTrends`).
- `Dashboard` chains these steps. Three of the exceptions the script can
  raise become error values of the pipeline:
  - a malformed date: the conversion raises on the first cell that does
    not parse (`ParseDates`);
  - a dataset smaller than the sample: the script asks for exactly 3000
    rows and raises on a smaller dataset (`DrawSample`);
  - an empty view: it reaches `0 / 0` at line 50 and raises
    `ZeroDivisionError` (`Share`, `Render`). The scatter chart of lines
    40-45 is already drawn by then.

The script writes two columns in place: it overwrites `Date` with the parsed
dates (line 8) and adds a `Month` column to the view (line 95). Both writes
are modelled as derived values: `ParseDates` returns new rows carrying
their dates, and `MonthOf` computes each row's month. Everything else the
script computes is a fresh value. The model is therefore datatypes,
recursive functions and lemmas about them.

## Model

| member | source | states |
|---|---|---|
| Dates.DaysInMonth | app.py:8 | the month lengths the date check uses: 28 to 31 days, and 29 exactly for February of a leap year |
| Dates.Month | app.py:95 | the month of a parsed date is between 1 and 12 |
| Dates.ParseDate | app.py:8 | a string shorter than 8 or longer than 10 characters is a format mismatch; a parsed string has a dash just before its last four characters; `ParseSpelled` and `ParseDateSpellings` characterise it fully |
| Dates.ParseSpelled | app.py:8 | a `D-M-YYYY` string with one- or two-digit day and month: an out-of-range day or month is a format mismatch, a day the calendar lacks is out of range, and only a real date parses, to the numbers written |
| Dates.ParseSpelling | app.py:8 | every accepted spelling of a calendar date parses back to that date |
| Dates.ParsedIsSpelling | app.py:8 | whatever parses is one of the four accepted spellings of the date it yields |
| Dates.ParseDateSpellings | app.py:8 | a string parses to date `d` if and only if it is an accepted spelling of `d` |
| Transactions.YearOf | app.py:25-32 | the `Date.dt.year` key of every row is a year from 1 to 9999 |
| Transactions.MonthOf | app.py:95 | the `Month` key of every row is between 1 and 12 |
| Transactions.ParseDates | app.py:8 | the column converts if and only if every cell parses; the rows then keep their order and other fields and get their dates; otherwise the error is that of the first bad cell |
| Transactions.DrawSample | app.py:11 | fails exactly when the dataset has fewer than 3000 rows; otherwise 3000 rows, each the dataset row at the drawn position, and, as sampling is without replacement, no row more often than the dataset holds it |
| Transactions.PickSubMultiset | app.py:11 | rows taken at distinct positions form a sub-multiset of the dataset |
| Selections.Unique | app.py:17-25 | `unique()` keeps every value of the column, adds none, and repeats none |
| Selections.UniqueInFirstAppearanceOrder | app.py:17-25 | `unique()` lists values in order of first appearance |
| Selections.DefaultSelection | app.py:17-26 | the default selections keep every sample row, offer only values observed in the sample, and repeat none |
| Selections.Keep | app.py:30-32 | no contract of its own: `FilterKeepsAll`, `FilterIsIdentityIff` and `FilterMultiplicity` say which rows the mask lets through, and `EmptySelectionEmptiesView` that nothing passes once one selection is empty |
| Selections.Filter | app.py:29-33 | the view holds exactly the rows that pass all three `isin` tests (soundness and completeness) and is no longer than the sample |
| Selections.FilterConcat | app.py:29-33 | the mask is applied row by row: filtering a concatenation concatenates the filtered parts |
| Selections.FilterIsSubsequence | app.py:29-33 | the view keeps the sample's row order |
| Selections.FilterMultiplicity | app.py:29-33 | each passing row occurs in the view as often as in the sample, each failing row not at all |
| Selections.FilterKeepsAll | app.py:29-33 | a mask that every row passes returns the input unchanged |
| Selections.FilterIsIdentityIff | app.py:29-33 | the view is the whole input if and only if every row passes |
| Selections.DefaultSelectionKeepsSample | app.py:17-33 | with the widgets at their defaults, the view is the whole sample |
| Selections.EmptySelectionEmptiesView | app.py:29-33 | clearing any one widget gives an empty view, not an implicit "all" |
| Selections.FilterIdempotent | app.py:29-33 | filtering the view again with the same selections changes nothing |
| Selections.FilterNarrower | app.py:29-33 | narrower selections give the wider view filtered again, hence a subsequence of it |
| Quantiles.Min | app.py:49 | the minimum is a value of the list and no value is below it |
| Quantiles.Max | app.py:49 | the maximum is a value of the list and no value is above it |
| Quantiles.Sort | app.py:49 | the sorted copy is ascending and a permutation of the values |
| Quantiles.SortSorted | app.py:49 | sorting an ascending list leaves it unchanged |
| Quantiles.SortFirst | app.py:49 | the first sorted value is the minimum |
| Quantiles.SortLast | app.py:49 | the last sorted value is the maximum |
| Quantiles.Lower | app.py:49 | the lower interpolation index is the floor of the position and a valid index |
| Quantiles.Upper | app.py:49 | the upper interpolation index is at most one past the lower one, and it is the next index unless it is clamped to the last one |
| Quantiles.Position | app.py:49 | the fractional position `q * (n - 1)` lies between 0 and `n - 1` |
| Quantiles.Interpolate | app.py:49 | at a whole-number position the interpolation is exactly the sorted value there; `InterpolateBetween` and `InterpolateMonotone` bound it elsewhere |
| Quantiles.InterpolateBetween | app.py:49 | linear interpolation lies between the two neighbouring sorted values |
| Quantiles.Quantile | app.py:49 | the quantile lies between the minimum and the maximum of the values |
| Quantiles.QuantileInRange | app.py:49 | the interpolated quantile lies between the minimum and the maximum |
| Quantiles.QuantileZero | app.py:49 | the 0-quantile is the minimum |
| Quantiles.QuantileOne | app.py:49 | the 1-quantile is the maximum |
| Quantiles.QuantileMonotone | app.py:49 | a larger `q` never gives a smaller quantile |
| Quantiles.InterpolateMonotone | app.py:49 | interpolation further along an ascending list never decreases |
| HighValue.CountAtLeast | app.py:49 | the high-value count is at most the view's size; it is all rows if and only if every value reaches the threshold, and zero if and only if none does |
| HighValue.Share | app.py:50 | fails with a division by zero if and only if the view is empty; otherwise a percentage between 0 and 100 |
| HighValue.Percent | app.py:50 | the percentage `p` of `c` rows out of `n` satisfies `p * n = 100 * c` |
| HighValue.PercentBounds | app.py:50 | `c / n * 100` is between 0 and 100, is 100 exactly when `c = n`, and is 0 exactly when `c = 0` |
| HighValue.PercentMonotone | app.py:50 | a count that is no smaller never gives a smaller percentage |
| HighValue.Threshold | app.py:49 | the 0.9-quantile threshold lies between the smallest and the largest value of the view |
| HighValue.ShareInRange | app.py:49-50 | for any threshold within the view's values the share is above 0 and at most 100 |
| HighValue.ShareFullIff | app.py:49-50 | the share is 100 if and only if the threshold is at most the smallest value |
| HighValue.CountAtLeastMonotone | app.py:49 | raising the threshold never increases the count |
| HighValue.ShareMonotone | app.py:49-50 | raising the threshold never increases the share |
| HighValue.HighValueShareInRange | app.py:49-50 | the share the pie chart shows for any non-empty view is above 0 and at most 100 |
| HighValue.ConstantValuesAllHigh | app.py:49-50 | when every row has the same value, the share is 100 |
| ShippingCounts.Occurrences | app.py:64 | a count is at most the list's length and is zero if and only if the method is absent |
| ShippingCounts.MethodCounts | app.py:64 | `value_counts()` has distinct methods, each with its exact positive count, and lists the method of every row |
| ShippingCounts.OccurrencesInDistinct | app.py:64 | among distinct keys a method occurs once if present, otherwise not at all |
| ShippingCounts.SumCountsCovering | app.py:64 | counting a list over distinct keys that cover it adds up to the list's length |
| ShippingCounts.MethodCountsSumToRows | app.py:64 | the bar heights add up to the number of rows in the view |
| MonthlyTrends.TotalsFrom | app.py:96 | the groups for months `m` to 12 are strictly ascending, and each is a month with rows, holding that month's total |
| MonthlyTrends.TotalsFromComplete | app.py:96 | every month from `m` on that has rows has a group |
| MonthlyTrends.MonthlyTotals | app.py:95-96 | `groupby('Month').sum()`: strictly ascending months between 1 and 12, one group for each month with rows and none for other months, each holding that month's total |
| MonthlyTrends.MonthSumAbsent | app.py:96 | the total of a month without rows is zero |
| MonthlyTrends.TotalsFromSum | app.py:96 | the groups from month `m` on add up to the per-month totals from `m` on |
| MonthlyTrends.MonthlyTotalsPreserveSum | app.py:95-96 | the monthly totals add up to the view's total value |
| MonthlyTrends.OneMonthOneGroup | app.py:95-96 | a non-empty view within one month gives a single group with the whole total |
| Dashboard.LoadSample | app.py:7-11 | loading succeeds if and only if every date parses and the dataset has at least 3000 rows; a date error is reported as such, and a table whose dates parse but that has fewer than 3000 rows is reported as too small for the sample; the sample has 3000 rows of the parsed data and is `DrawSample` of the parsed rows, so no row appears more often than in the data |
| Dashboard.Render | app.py:29-96 | fails if and only if the view is empty; otherwise the charts show the filtered view, the 0.9-quantile threshold of its values, the share of rows at or above that threshold, its `value_counts()` entries and its monthly groups; hence a share above 0 and at most 100, monthly totals that add up to the view's total, and bars that add up to its row count |
| Dashboard.DefaultRenderShowsSample | app.py:17-50 | with the widgets at their defaults, a non-empty sample renders and charts the whole sample |
| Dashboard.EmptySelectionFails | app.py:29-50 | clearing any one widget makes the script fail at the share's division |
| Dashboard.LoadedSampleRenders | app.py:7-50 | for a table whose dates all parse and that has at least 3000 rows, the sample loads and the first page the script shows renders |
| Dashboard.NarrowerRendersSubsequence | app.py:29-50 | if narrower selections keep some row, both they and the wider ones render, and the wider view contains the narrower view in order |
| Scenarios.DatesAccepted | app.py:8 | `15-03-2023`, `5-3-2023` and the leap day `29-02-2024` parse to those dates |
| Scenarios.DatesRefused | app.py:8 | `29-02-2023` and `31-04-2023` are out of range; `15-13-2023` and the ISO form `2023-03-15` do not match the format |
| Scenarios.QuantileExample | app.py:49 | the 0.9-quantile of 10, 20, 90 and 100 is 97 |
| Scenarios.HighValueExample | app.py:49-50 | for values 10, 20, 90 and 100 the threshold is 97 and the share is 25 percent |
| Scenarios.MonthlyExample | app.py:95-96 | two March rows worth 5 and 7 give the single group (3, 12) |

## Left out

- Reading the CSV file (line 7) is I/O. The model starts from the rows read, keeping only the columns the script uses. A missing file or a missing column would raise, and neither is modelled. A file with no rows leads to the sample error.
- Missing cells (`NaN`) are not modelled: every row has all its fields.
- Floating point is not modelled. Values, quantiles and percentages are exact reals, so rounding in the interpolation and in `len(...) / len(...) * 100` is not captured.
- The random generator behind `random_state=42` is not modelled. The drawn positions are a parameter, constrained only to be 3000 distinct positions within the dataset.
- DrawSample: states which rows are drawn, given the positions. It says nothing about the uniform distribution or the reproducibility of the draw, because the generator is not modelled.
- The widgets, titles and charts (lines 14-26, 36-103) are left out. That covers the scatter plot, pie angles and `autopct` labels, the bar layout, the 30 histogram bins, the box plot and line styling. Their inputs are modelled: the view, the share, the counts and the monthly totals.
- Before `to_datetime` applies the format, pandas handles a few strings specially, and the model does not: `"now"` and `"today"` read the clock, and the not-a-time spellings `"NaT"`, `"nat"`, `"NAT"` and `"NAN"` become a missing date; `read_csv` keeps all of these as text. `ParseDate` refuses them all as format mismatches, so `ParseDateSpellings` holds for the format alone, not for these strings.
- The `%d` directive's space-padded alternative (` 5-03-2023`) and non-ASCII decimal digits are not modelled. Only ASCII digits and zero padding are.
- pandas' nanosecond timestamp range (years 1677 to 2262) is not modelled. Dates are checked against Python's calendar range, years 1 to 9999.
- The two in-place column writes (the parsed `Date` on line 8, the `Month` column on line 95) are modelled as derived values, not as updates to a shared table. So the model does not capture that `filtered_df` may be a copy of `sample` or share its storage.
- MethodCounts: the entries are produced in first-appearance order. The model does not state the descending-count order of `value_counts()`, because pandas breaks ties between equal counts in an unspecified way.
- `quantile(0.90)` on an empty view is not modelled, because that value is never used: the script then raises at the division on line 50, which the model reports as `EmptyView`.
