# CEO compensation dashboard: the loading and selection pipeline

The dashboard (`dashboard.py`) reads a spreadsheet of CEO pay records and shows charts of them. This project models the logic in front of the charts, and proves what that logic promises:

- **The loader `load_data`.**
  - It trims the header labels and renames eleven of them to canonical column names.
  - It cleans the six numeric columns as text. Thousands separators go in all six. Dollar signs go only in Salary and Median_Worker_Pay. A pay ratio keeps only the text before its first colon.
  - It coerces that text to a number; a cell that does not parse becomes missing.
  - It strips the four string columns.
  - It casts the pay level to a five-value ordered category.
  - It drops the rows whose salary is missing. A blank CEO name has already become the text `"nan"`, so it never drops a row.
- **The sidebar.** An industry multiselect and a pay-level multiselect filter the table one after the other. An empty selection filters nothing.
- **The reductions the tabs show over the filtered rows:**
  - the pay gap and the pay-ratio gap, each guarded against a zero minimum;
  - the top earners (`nlargest`) and the first highest- and lowest-paid rows;
  - the per-industry table of counts, largest and smallest salaries and largest ratio;
  - the rows the correlation matrix uses;
  - the "pay everyone the lowest salary" savings.

Modules, one concept each:

- `Wrappers`: Option and Result.
- `Text`: `strip`, `replace`, `split(':')[0]` and Python's string order.
- `Numerals`: the numeric grammar, and thousands-grouped numerals.
- `Levels`: the pay-level category.
- `Frame`: cells, rows, tables, column lookup by name, and order-preserving row selection.
- `Schema`: the header mapping and the column lists.
- `Loader`: `load_data`.
- `Filters`: the sidebar.
- `Reductions`: max, min, arg-max, arg-min, gap and savings over a list of amounts.
- `Ranking`: `nlargest`.
- `Views`: what the tabs compute from a table.

Data model:

- A sheet has a header and rows of raw cells. A raw cell is either blank or holds the text `astype(str)` would give for it.
- A table has a header and rows of cells. A cell is one of:
  - missing (`NaN`);
  - a string;
  - an exact `real`, standing for the float;
  - a pay level.
- The loader's cleaning loops are a method. Its loops visit the rewritten columns in the source's order, and its inner loop assigns a whole column (`df[col] = ...`).
  - `SetColumn` does that inner assignment.
  - `RewriteColumn` and `Categorise` are one pass each.
  - `CleanColumns` checks the loop against the function `CleanRows`, column by column, through the invariant `Stage`.
  - The loop that appends to the per-industry list is the method `Views.IndustryStats`.
  - The `dropna` loop is `Loader.DropIncomplete`.
- The filters, gaps, savings and rankings are pure expressions in the source, so they are functions with lemmas here.

Points where `dashboard.py` behaves differently from what a reader might expect, all of which the model follows:

- **The default selection does not show every row.** With every option selected, the industry filter is active. It then drops the rows whose industry is empty or the text `"nan"`, because those are never offered as options. The pay-level filter, also active, drops the rows whose level is missing. `Filters.DefaultSelection` and `Filters.DefaultShowsAll` state exactly which rows survive. When no row has a known industry there are no options, so the industry filter stays off.
- **`Ticker` is not stripped.** It is not among the string columns that `load_data` cleans.
- **A pay level outside the five categories becomes missing.** It does not become a sixth value.
- **A blank CEO name becomes the text `"nan"`.** The conversion to text happens before `dropna`, so such a row is kept.
- **Two failures are modelled as errors:**
  - a rewritten column that occurs twice after renaming (the frame then has no `.str` accessor, so the rewrite raises);
  - a missing `CEO_Name` or `Salary` column (the `dropna` subset raises a `KeyError`).

## Model

| member | source | states |
|---|---|---|
| Schema.Rename | dashboard.py:29-44 | A label outside the mapping is kept as it is; a mapped label becomes a canonical name. |
| Schema.Normalise | dashboard.py:26-44 | A label becomes a canonical name or its stripped self, and never has surrounding whitespace. |
| Schema.NormaliseHeader | dashboard.py:26-44 | One header per label, in order: each is the label stripped of its surrounding whitespace, then renamed through the mapping. |
| Schema.NormaliseCases | dashboard.py:26-44 | A label that strips to one of the eleven mapped labels becomes its canonical name. Any other label keeps its stripped text. The result never has surrounding whitespace. |
| Schema.NormaliseIdempotent | dashboard.py:26-44 | Normalising an already normalised header changes nothing. |
| Schema.NormalisePaddedLabel | dashboard.py:26-44 | Whitespace around a mapped label does not stop its rename. |
| Schema.MappingInjective | dashboard.py:29-41 | No two of the eleven mapped labels share a canonical name. A sheet with both a label and its canonical name ("CEO Name" and "CEO_Name") still gets that name twice, which `Loader.LoadCheck` reports as a duplicate. |
| Schema.CanonicalTrimmed | dashboard.py:29-41 | No canonical name starts or ends with whitespace. |
| Schema.RenameCanonical | dashboard.py:29-44 | A canonical name is renamed to itself. |
| Loader.LoadData | dashboard.py:20-80 | Loading fails exactly when a rewritten column occurs twice, or when CEO_Name or Salary is absent, and then reports which. Otherwise the result is the normalised header over the cleaned rows that pass `dropna`, in sheet order, and it satisfies the loaded-table invariant. |
| Loader.CleanColumns | dashboard.py:49-75 | The numeric and string cleaning loops followed by the category cast. They fail at the first rewritten column that occurs twice; otherwise every row equals its cell-by-cell cleaning. |
| Loader.RewriteColumn | dashboard.py:50-69 | One pass of a cleaning loop: only the named column changes, it is rewritten from the sheet's text, and a column the sheet lacks leaves every row unchanged. |
| Loader.SetColumn | dashboard.py:53-69 | The column assignment: column j of every row is replaced by the new values, and every other cell is unchanged. |
| Loader.Categorise | dashboard.py:72-75 | Only the Pay_Level column changes, cast to the category; with no such column nothing changes. |
| Loader.DropIncomplete | dashboard.py:78 | `dropna(subset=[CEO_Name, Salary])`: the rows with neither required cell missing, in their original order. |
| Loader.LoadedResult | dashboard.py:20-80 | A successful load has one cell per column in each row, has both required columns, and its salaries are all numbers. Numeric cells are numbers or missing, string cells are strings, and pay levels are categories or missing. |
| Loader.LoadCheckNone | dashboard.py:49-78 | Loading raises no error exactly when every rewritten column occurs at most once and both CEO_Name and Salary are present. |
| Loader.FirstDuplicateNone | dashboard.py:49-69 | No rewritten column is reported as duplicated exactly when none occurs twice. |
| Loader.FirstDuplicateAt | dashboard.py:49-69 | The error names the first rewritten column, in loop order, that occurs twice. |
| Loader.Missing | dashboard.py:78 | The missing required columns are exactly those of CEO_Name and Salary that the header lacks. |
| Loader.NumericText | dashboard.py:51-60 | The text a numeric cell is parsed from has no comma. In Salary and Median_Worker_Pay it has no dollar sign, and a ratio's has no colon. |
| Loader.CleanNumeric | dashboard.py:49-63 | A numeric cell becomes a number exactly when its cleaned text parses, and missing otherwise. |
| Loader.CleanString | dashboard.py:69 | A string cell becomes its text stripped, with a blank giving "nan". The result is no longer than the text and has no surrounding whitespace. |
| Loader.ToCategory | dashboard.py:72-75 | The cast gives a category or missing. A category it gives is the one whose label the text is. |
| Loader.CleanCell | dashboard.py:49-75 | A numeric column's cell becomes a number or missing, a pay level a category or missing, and another string column's cell a text. A column the loader does not rewrite keeps the sheet's cell. |
| Loader.StringCleaned | dashboard.py:66-69 | A string column other than Pay_Level is only stripped. |
| Loader.BlankString | dashboard.py:69 | A blank string cell becomes the text "nan". |
| Loader.LoadCheck | dashboard.py:49-78 | A reported duplicate is a rewritten column that occurs more than once. Reported missing columns are never an empty list, and are exactly the required columns the header lacks. |
| Loader.Loading | dashboard.py:20-80 | The table a successful load returns: the normalised header, no more rows than the sheet, and no row missing CEO_Name or Salary. |
| Loader.KeptRowsFit | dashboard.py:49-78 | Every cleaned row that passes `dropna` has one cell per column, each of its column's kind. |
| Loader.Coerce | dashboard.py:63 | `to_numeric(errors='coerce')` never fails: it gives a number exactly when the text parses, and a missing value otherwise. |
| Loader.CurrencyAmount | dashboard.py:55-57 | In Salary and Median_Worker_Pay, a dollar sign followed by a thousands-grouped amount reads back as that amount. |
| Loader.CurrencyExample | dashboard.py:55-57 | The salary text "$1,250,000" becomes 1250000. |
| Loader.RatioAmount | dashboard.py:51-54 | A pay ratio written as a grouped number, a colon and anything at all reads as the number before the colon. |
| Loader.RatioExample | dashboard.py:51-54 | The ratio text "1,447:1" becomes 1447. |
| Loader.GroupedNumber | dashboard.py:49-63 | In every numeric column, a thousands-grouped whole number reads back as itself. |
| Loader.DollarOutsideCurrency | dashboard.py:58-63 | In the non-currency numeric columns other than the ratio, only commas are removed, so a cell holding a dollar sign becomes missing. |
| Loader.NumericCells | dashboard.py:49-63 | A numeric column's cell becomes a number or missing, never an error, and a blank cell becomes missing. |
| Loader.PayLevelCleaning | dashboard.py:66-75 | A pay-level cell is stripped first, then cast to the category. |
| Loader.PayLevelCell | dashboard.py:66-75 | A pay-level cell becomes category l exactly when its stripped text is l's label; otherwise it is missing. |
| Loader.BlankPayLevel | dashboard.py:69-75 | A blank pay level, which the text conversion turns into "nan", becomes missing. |
| Loader.PaddedPayLevel | dashboard.py:66-75 | Whitespace around a level's label does not stop the cast. |
| Loader.NameNeverMissing | dashboard.py:66-69 | The name, company and industry cells are always strings after cleaning; a blank one becomes the text "nan". |
| Loader.TickerUnstripped | dashboard.py:66-69 | Ticker is not among the cleaned columns, so its cell keeps the sheet's text, surrounding whitespace included. |
| Loader.KeptIffSalary | dashboard.py:69-78 | `dropna` keeps a row exactly when its salary cleaned to a number; a blank name never drops a row. |
| Loader.CleanCellFits | dashboard.py:49-75 | Every cleaned cell is of the kind its column promises; a salary is a number or missing. |
| Loader.CompleteRowFits | dashboard.py:49-78 | A cleaned row that passes `dropna` satisfies the per-column kinds, with every salary a number. |
| Loader.StageStep | dashboard.py:49-69 | Each loop pass rewrites exactly the column it visits and leaves the others at their previous stage. |
| Loader.StageFinal | dashboard.py:49-75 | After both loops and the category cast, every cell is its cleaned value. |
| Numerals.ParseNumber | dashboard.py:63 | In the numeric grammar, text that parses consists of digits and '.', with at most a leading sign. |
| Numerals.ParseDigits | dashboard.py:63 | A non-empty run of digits parses to its value. |
| Numerals.ParseDecimal | dashboard.py:63 | Digits, a point and digits parse to the whole part plus the fraction. |
| Numerals.ParseNegative | dashboard.py:63 | A leading minus negates the value. |
| Numerals.ParsePositive | dashboard.py:63 | A leading plus keeps the value. |
| Numerals.ParseFraction | dashboard.py:63 | A point followed by digits, with no whole part, parses to the fraction. |
| Numerals.ParseNegativeDecimal | dashboard.py:63 | A minus before digits, a point and digits negates their decimal value. |
| Numerals.ParseUnsigned | dashboard.py:63 | Text that parses as an unsigned decimal is non-empty and holds only digits and '.'. |
| Numerals.UngroupedValue | dashboard.py:53-60 | Removing the commas from a thousands-grouped number leaves a numeral with the same value. |
| Numerals.DigitsValue | dashboard.py:63 | A number's digit string reads back as that number. |
| Levels.Parse | dashboard.py:72-75 | A label that casts gives the category whose label it is. |
| Levels.Rank | dashboard.py:74 | Each category's position in the declared list. |
| Levels.ParseName | dashboard.py:72-75 | Each category's label casts back to that category. |
| Levels.NameInjective | dashboard.py:72-75 | Different categories have different labels. |
| Levels.ParseDomain | dashboard.py:72-75 | The cast succeeds exactly on the five labels. |
| Levels.AtMostTotalOrder | dashboard.py:72-75 | The ordered categorical's order is reflexive, antisymmetric, transitive and total. |
| Levels.CategoriesSorted | dashboard.py:72-75 | The declared category list is strictly increasing in that order and holds every level. |
| Text.TrimLeft | dashboard.py:26 | The leading cut keeps a suffix of the input that does not start with whitespace, and everything cut is whitespace. |
| Text.TrimRight | dashboard.py:26 | The trailing cut keeps a prefix of the input that does not end with whitespace, and everything cut is whitespace. |
| Text.Strip | dashboard.py:26 | `strip()` returns nothing longer than the input, and the result neither starts nor ends with whitespace. |
| Text.StripIdempotent | dashboard.py:26 | Stripping twice is stripping once. |
| Text.StripPadded | dashboard.py:26 | Stripping removes exactly the surrounding whitespace of a trimmed text. |
| Text.RemoveAll | dashboard.py:53-60 | `replace(c, '')` leaves no c and adds no characters. |
| Text.RemoveAllConcat | dashboard.py:53-60 | Removing a character from a concatenation removes it from each part. |
| Text.RemoveAllKeeps | dashboard.py:53-60 | Removing one character keeps every other character that occurs. |
| Text.Before | dashboard.py:54 | `split(':')[0]` is the longest prefix without a colon, and it stops at the first colon. |
| Text.BeforeConcat | dashboard.py:54 | The text before the first colon of `a + ':' + b` is a, when a has no colon. |
| Text.BelowTransitive | dashboard.py:101 | Python's string order, used by `sorted`, is transitive. |
| Text.BelowTotal | dashboard.py:101 | Any two strings are equal or ordered one way or the other. |
| Frame.IndexOf | dashboard.py:100 | A column lookup by name finds the first column with that name, and finds none exactly when the name is absent. |
| Frame.Column | dashboard.py:101 | A column's cells, top to bottom; none exactly when the table lacks the column. |
| Frame.Numbers | dashboard.py:157 | `Series.dropna()` on a numeric column keeps exactly its numbers. |
| Frame.Distinct | dashboard.py:297 | `unique()` holds the same values as the column, each once, in the order of their first appearance. |
| Frame.KeptIndicesSelect | dashboard.py:106-124 | A selection is the table read at the kept positions. |
| Frame.KeepAll | dashboard.py:106-124 | A selection changes nothing exactly when every row passes. |
| Frame.KeepCongruent | dashboard.py:106-124 | Two conditions that agree on every row select the same rows. |
| Frame.KeepMember | dashboard.py:78 | A row survives a selection exactly when it was there and passes. |
| Frame.KeepKeep | dashboard.py:106-124 | Selecting twice is selecting once by both conditions. |
| Frame.KeptIndicesIncrease | dashboard.py:106-124 | A selection keeps rows at increasing positions. |
| Frame.KeptIndicesComplete | dashboard.py:106-124 | A selection keeps exactly the positions whose row passes. |
| Filters.IndustryOptions | dashboard.py:101 | The industry options are strictly sorted, so free of duplicates. They are exactly the industries some row has, excluding "" and "nan", and there are none without an Industry column. |
| Filters.SortedUnique | dashboard.py:101 | `sorted` over the distinct values: strictly increasing, with the same members. |
| Filters.StrictlySortedDistinct | dashboard.py:101 | A strictly sorted option list names no industry twice. |
| Filters.PayLevelOptions | dashboard.py:115-117 | All five levels are offered whenever the column exists, and none otherwise. |
| Filters.KnownTexts | dashboard.py:101 | Exactly the industries of the column other than "" and "nan". |
| Filters.IndustryFilter | dashboard.py:100-112 | The industry filter returns rows of the table under the same header. With no selection or no Industry column it returns the table unchanged. |
| Filters.PayLevelFilter | dashboard.py:115-124 | The pay-level filter returns rows of the table under the same header. With no selection or no Pay_Level column it returns the table unchanged. |
| Filters.ApplyFilters | dashboard.py:100-124 | The filtered table keeps the header and holds only rows of the table. |
| Filters.IndustryDefault | dashboard.py:101-110 | With every industry option selected, a row passes the industry filter exactly when its industry is known, or when no industry is offered. |
| Filters.LevelDefault | dashboard.py:115-124 | With every level selected, a row passes the pay-level filter exactly when its level is present. |
| Filters.IndustryFilterKeeps | dashboard.py:100-110 | The industry filter keeps the rows whose industry is selected, and with no selection or no column it keeps every row. |
| Filters.PayLevelFilterKeeps | dashboard.py:113-124 | The pay-level filter keeps the rows whose level is selected, a missing level never matching; with no selection or no column it keeps every row. |
| Filters.FiltersIntersect | dashboard.py:100-124 | Applying both filters keeps exactly, and in order, the rows that pass both selections. |
| Filters.FilterSubsequence | dashboard.py:100-124 | The filtered table is the table read at increasing positions, a position being kept exactly when its row passes both active selections. The header is unchanged. |
| Filters.EmptySelections | dashboard.py:106-124 | With nothing selected in either box, the table is unchanged. |
| Filters.FilterLoaded | dashboard.py:100-124 | Filtering a loaded table gives a loaded table. |
| Filters.FilterIdempotent | dashboard.py:100-124 | Filtering twice with the same selections is the same as filtering once. |
| Filters.DefaultRow | dashboard.py:101-124 | With every option selected, a row passes exactly when it has a known industry and a present pay level. The industry condition applies only when some industry is offered. |
| Filters.DefaultSelection | dashboard.py:101-124 | The default view keeps exactly the table's rows with a known industry and a present pay level. |
| Filters.DefaultShowsAll | dashboard.py:101-124 | The default view is the whole table exactly when every row has a known industry and a present pay level. |
| Reductions.Max | dashboard.py:150 | `max()` is an element and bounds every element. |
| Reductions.Min | dashboard.py:151 | `min()` is an element and is bounded by every element. |
| Reductions.ArgMax | dashboard.py:229 | `idxmax()` is the first position holding the largest amount. |
| Reductions.ArgMin | dashboard.py:230 | `idxmin()` is the first position holding the smallest amount. |
| Reductions.Gap | dashboard.py:152-161 | With a positive smallest amount, the gap times the smallest is the largest. Otherwise the gap is 0. |
| Reductions.GapAtLeastOne | dashboard.py:152-161 | With 0 < smallest <= largest, the gap is at least 1. |
| Reductions.GapOne | dashboard.py:152-161 | With a positive smallest amount, the gap is 1 exactly when largest and smallest agree. |
| Reductions.PayGap | dashboard.py:148-152 | The pay gap is absent exactly when there are no rows, which is the "no data" warning. |
| Reductions.PayGapCases | dashboard.py:150-152 | With a positive minimum, the gap times the minimum is the maximum, and the gap is at least 1. The gap is 0 exactly when the minimum is not positive. |
| Reductions.PayGapOne | dashboard.py:150-152 | With a positive minimum, the gap is 1 exactly when all amounts are equal. |
| Reductions.Savings | dashboard.py:504-509 | The savings are absent exactly when there are no rows. |
| Reductions.SavingsExcess | dashboard.py:504-509 | The savings, the total less the lowest salary times the count, equal the sum of what each salary exceeds the lowest by. |
| Reductions.SavingsNonNegative | dashboard.py:504-509 | The savings are never negative, and are zero exactly when everybody earns the lowest salary. |
| Reductions.SavingsExample | dashboard.py:504-509 | Salaries 10, 20 and 30 give savings of 30. |
| Reductions.ExcessNonNegative | dashboard.py:504-509 | The excess over a lower bound is never negative, and is zero exactly when every amount equals the bound. |
| Ranking.Ranks | dashboard.py:204 | A stable descending order of the positions: a permutation of them, larger amounts first, equal amounts in their original order. |
| Ranking.TopIndices | dashboard.py:204 | `nlargest(n)` returns n positions, or all of them when there are fewer. |
| Ranking.TopOrdered | dashboard.py:204 | The positions kept are distinct and their amounts do not increase; equal amounts keep their original order (`keep='first'`). |
| Ranking.TopExcluded | dashboard.py:204 | No position left out has a larger amount than one kept, and one with an equal amount comes later. Asking for at least as many as there are keeps them all. |
| Views.Salaries | dashboard.py:150-151 | The salary column is a number in every row of a loaded table. |
| Views.RatioSpread | dashboard.py:155-165 | All zero when the ratio column is absent or holds no ratio. Otherwise the largest and smallest present ratios bound every present ratio, and the gap follows the same zero-guarded rule as the pay gap. |
| Views.TopPaid | dashboard.py:204 | The chart gets the smaller of n and the row count, so never more than n rows. |
| Views.TopPaidFacts | dashboard.py:204 | The chart's rows are rows of the table at distinct positions, with non-increasing salaries. No row left out earns more than a row shown, and a left-out row earning the same comes later. |
| Views.HighestPaid | dashboard.py:229 | The first row with the largest salary; none exactly when the table is empty. |
| Views.LowestPaid | dashboard.py:230 | The first row with the smallest salary; none exactly when the table is empty. |
| Views.IndustryRows | dashboard.py:299 | A row is selected exactly when it is a row of the table whose industry cell is exactly that industry. The header is unchanged. |
| Views.IndustryRowsOrder | dashboard.py:299 | The selected rows are the table's rows at increasing positions, and a position is taken exactly when its row has that industry, so `len(ind_data)` counts the industry's rows. |
| Views.IndustryRowsLoaded | dashboard.py:299 | The rows of one industry of a loaded table form a loaded table. |
| Views.IndustryRowsNonEmpty | dashboard.py:297-299 | An industry some row has selects at least one row, and the selection is still a loaded table. |
| Views.IndustryTop | dashboard.py:389 | The industry's top ten has ten rows, or all of the industry's rows when it has fewer. Every one is a row of the table with that industry. |
| Views.IndustryRanks | dashboard.py:389 | One position among the industry's rows for each row of its top ten. |
| Views.IndustryTopAt | dashboard.py:389 | Each row of the top ten is the industry's row at its rank, and has that row's salary. |
| Views.IndustryTopDescending | dashboard.py:389 | Salaries do not increase down the top ten. |
| Views.IndustryTopStable | dashboard.py:389 | The top ten lists distinct rows of the industry. Rows earning the same appear in their order among the industry's rows, which is sheet order (`keep='first'`). |
| Views.IndustryTopExcluded | dashboard.py:389 | No row of the industry left out of the top ten earns more than a row in it. |
| Views.ExcludedRow | dashboard.py:389 | The same for one left-out row and one listed row. |
| Views.MaxRatio | dashboard.py:309-313 | The largest present ratio; none exactly when the column is absent or holds no ratio. |
| Views.LineFacts | dashboard.py:296-313 | An industry's line counts its rows, at least one. It gives the largest and smallest salary among them, both of which are salaries of those rows, and the largest ratio when one is present. |
| Views.ListedIndustries | dashboard.py:297-298 | The loop visits every known industry some row has, each once, nothing else, in the order of first appearance in the column. |
| Views.Line | dashboard.py:299-315 | An industry's line names that industry and counts the rows that have it. |
| Views.Summary | dashboard.py:301-313 | For a non-empty set of rows: the row count, a largest and a smallest salary that are salaries of those rows and bound all of them, and the largest present ratio. |
| Views.Lines | dashboard.py:296-315 | One line per industry name, in the order of the names, each naming its industry and counting its rows. |
| Views.LinesAppend | dashboard.py:315 | Appending an industry's line extends the table by exactly that line. |
| Views.KnownTextsDistinct | dashboard.py:297-298 | Distinct cells give distinct known industries. |
| Views.KnownTextsOrder | dashboard.py:297-298 | Known industries keep the order in which they first appear in the column. |
| Views.IndustryStats | dashboard.py:293-315 | The loop appends one line per distinct known industry, in order of first appearance. There is no table without an Industry column. |
| Views.LinesNamed | dashboard.py:296-315 | Each line names the industry it was built for and counts at least one row. |
| Views.IndustryTableDistinct | dashboard.py:296-315 | The industry table names each industry at most once, and every line counts at least one row. |
| Views.IndustryTableCovers | dashboard.py:296-315 | A known industry that some row has gets a line exactly when it is in the table, and no other name gets one. |
| Views.CorrelationColumns | dashboard.py:473-481 | Salary first, then exactly those of market cap, employees, tenure and pay ratio that the table has. |
| Views.CompleteCases | dashboard.py:483-484 | The rows of `dropna` on the correlation columns: exactly the table's rows with a number in every one of them. |
| Views.CorrelationShown | dashboard.py:483-486 | The matrix is drawn exactly when the table has one of market cap, employees, tenure and pay ratio and more than one complete row remains. |

## Left out

- Reading the sheet (`pd.read_excel`) is outside the model. The sheet arrives as a header of strings and rows of raw cells, each blank or holding the text `astype(str)` would give. A numeric spreadsheet cell is assumed to reach the model as that text.
- `Loader.LoadData`: the model requires a rectangular sheet, which `read_excel` always produces.
- Header labels that are not strings are outside the model. In a header that mixes strings and non-strings, `Index.str.strip` turns each non-string label into NaN. It raises only when no label is a string.
- The error path that logs the exception and stops the page, and the `@st.cache_data` memoisation, are framework behaviour.
- Streamlit widgets, metrics, tabs, warnings and the Plotly charts are rendering. The model represents the "no data" warnings by absent (None) results.
- `Loader.Coerce`: parses a restricted grammar, an optional sign then digits with an optional fraction. Whitespace, exponents, `inf`, `nan` and the rest of pandas' `to_numeric` grammar become missing. Numbers are exact reals, so float rounding is not modelled.
- Reading an Excel number as text is taken to give its decimal digits, as in `"1250000.0"`; `Numerals.ParseDecimal` covers that form.
- Means, and the `:.1f`, `:.0f` and `$...M` display formatting, are left out: they are float rounding and presentation. `IndustryLine` therefore has no mean columns.
- The Pearson correlation itself is floating-point numerics. Only the selection of its columns and complete rows is modelled.
- The number of industries shown as a metric (`nunique`, line 167) is display only.
- The ascending re-sort of the top twenty before charting is display only.
- The pay-level counts and groupbys behind the charts are not modelled.
- `Views.TopPaid`: its contract states the count; the ordering and exclusion properties are in `Views.TopPaidFacts`. The top twenty is `TopPaid(t, 20)`.
- `Views.IndustryTop`: its contract states the count and that the rows belong to the industry. The order, stability and exclusion properties are in `Views.IndustryTopDescending`, `Views.IndustryTopStable` and `Views.IndustryTopExcluded`.
- The salary tab's histogram and the industry tab's charts are rendering calls.
