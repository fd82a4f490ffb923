# NumberCruncher cleanup and income aggregation, modelled in Dafny

NumberCruncher is a small Tk desktop tool. It loads a CSV export of rental
transactions, shows summaries, and draws a bar chart of income per category.
Two parts of `main.py` hold its domain logic, and this project models both:

- **Cleanup after loading** (`load_csv`). Rows whose cells are all missing are
  dropped, and then columns whose cells are all missing. The numeric columns
  `Qty`, `Purchase Costs`, `Hours`, `Times Out` and `Income` are coerced: a
  value that does not parse becomes missing. The text columns `Category`,
  `Item Key` and `Name` are stripped of surrounding whitespace. Any exception
  makes the function return `None`.
- **Grouping and aggregation for the chart** (`plot_aggregation`). It works on
  a copy of the frame. It optionally relabels every category containing
  "Trade Show" as "Trade Show", and then, on the already rewritten values,
  every category containing "Tent" as "Tent". It sums `Income` per category,
  sorts the sums in descending order and builds the chart title from the two
  flags.

Modules:

- `Optional` (optional.dfy): Some/None, for a missing cell or label.
- `Text` (text.dfy): Python's `str.strip()` (with the full `str.isspace()`
  character set) and the substring test `needle in s`.
- `Frame` (frame.dfy): the data frame, which has named columns and rows of
  cells. Each cell is `Missing`, `Text` or `Number`.
- `Cleanup` (cleanup.dfy): `load_csv`. The two `for col in ...` loops are
  methods with loop invariants. The numeric loop is proved to coerce exactly
  the listed columns cell by cell (`CoerceCell`), and the text loop to strip
  exactly the listed columns cell by cell (`StripCell`). `CleanColumns` proves
  the two loops together equal to `Clean`, which applies the cell-by-cell
  definition `CleanCell`.
- `Grouping` (grouping.dfy): the two relabelling passes. They are a method
  with the two `if` blocks of the source, proved equal to a precedence rule,
  `Grouped`.
- `Aggregation` (aggregation.dfy): group-by-sum and the descending sort.
- `Plot` (plot.dfy): `plot_aggregation` minus the drawing, plus the title.
- `Scenario` (scenario.dfy): a worked example of the grouping and the
  aggregation.

The model works on values, so `plot_df = df.copy()` is implicit.
`PlotAggregation` has no `modifies` clause, so the caller's frame cannot
change.

Incomes are `real`, so sums are exact. Number parsing (`pd.read_csv` with
`thousands=','`, then `pd.to_numeric`) is a parameter
`parse: string -> Option<real>`. The result of `pd.read_csv` is a parameter
`read: Option<Table>`, where `None` means it raised.

Behaviour the proofs make explicit:

- The "no all-missing row" property holds right after
  `dropna(...).dropna(axis=1, ...)` (`DropEmpty`). It does not hold for the
  frame `load_csv` returns. Coercion runs later and can turn a row's only
  value into a missing cell (`CoercionCanEmptyRow`). The same happens to a
  column whose values are all unparseable.
- `df[col].str.strip()` raises when the column holds no string at all:
  pandas then gives it a numeric dtype. `load_csv` catches that and returns
  `None`. `StripColumn` and `LoadCsv` model this failure.
- With both flags set, "Trade Show Tent" ends as "Trade Show": the rewritten
  label no longer contains "Tent". With only the tent flag set, it ends as
  "Tent" (`TradeShowTentExample`).

## Model

| member | source | states |
|---|---|---|
| `Text.Strip` | main.py:38 | the stripped string has no whitespace at either end, and it is the slice of the input between a run of leading and a run of trailing whitespace |
| `Text.StripIdempotent` | main.py:38 | stripping twice gives the same string as stripping once |
| `Cleanup.DropEmptyRows` | main.py:26 | a row survives `dropna(how='all')` if and only if it has at least one non-missing cell |
| `Cleanup.DropEmptyRowsAppend` | main.py:26 | dropping distributes over concatenation, so surviving rows keep their relative order |
| `Cleanup.DropEmptyRowsIdempotent` | main.py:26 | a second row drop removes nothing |
| `Cleanup.KeptColumns` | main.py:26 | the kept column positions are exactly those with a value in some row, in strictly ascending order |
| `Cleanup.DropEmptyColumns` | main.py:26 | a column is kept if and only if it holds a value; kept columns keep their original order and, looked up by name, their cells; so no column is all missing and a row that had a value still has one |
| `Cleanup.DropEmpty` | main.py:26 | after both drops, row `i` is row `i` of `DropEmptyRows`, restricted to the columns that hold a value among those rows (if and only if), in original column order and with their cells looked up by name; no row and no column is all missing |
| `Cleanup.CoerceCell` | main.py:32 | coercion leaves no text: parseable text becomes the parsed number, other text becomes missing, and numbers and missing cells are kept |
| `Cleanup.StripCell` | main.py:38 | text becomes its `Strip`, a trimmed slice of the original; a missing cell stays missing and a non-string becomes missing |
| `Cleanup.CleanCell` | main.py:28-38 | a numeric column's cell is coerced (so holds no text), a text column's cell is stripped (so is missing or trimmed text), other columns are unchanged, and a missing cell stays missing |
| `Cleanup.CleanCellIdempotent` | main.py:28-38 | cleaning a cleaned cell changes nothing: trimming again changes nothing and missing stays missing |
| `Cleanup.CoercionCanEmptyRow` | main.py:26-32 | a row with a value before coercion can be all missing after it, because the row drop runs first |
| `Cleanup.CoerceColumn` | main.py:31-32 | the named column, if present, is coerced cell by cell, and every other cell is unchanged |
| `Cleanup.StripColumn` | main.py:37-38 | stripping fails exactly when the named column is present and holds no string; otherwise that column is stripped and nothing else changes |
| `Cleanup.CoerceStep` | main.py:30-32 | one iteration of the numeric loop extends the set of coerced columns by the current name |
| `Cleanup.CoerceNumericColumns` | main.py:29-32 | after the numeric loop, exactly the columns named in the numeric list are coerced |
| `Cleanup.StripStepFails` | main.py:36-38 | an iteration of the text loop that raises does so on a present text column holding no string |
| `Cleanup.StripStepKeeps` | main.py:36-38 | an iteration of the text loop that succeeds adds the current name to the stripped columns, and that column holds some string |
| `Cleanup.StripTextColumns` | main.py:35-38 | the text loop fails exactly when a present text column holds no string; otherwise exactly the text columns are stripped |
| `Cleanup.NoTextInNumericCols` | main.py:29-35 | no column name is in both the numeric list and the text list |
| `Cleanup.Clean` | main.py:28-38 | the cleaned frame has the same shape and names, and each cell is its original cleaned by `CleanCell` for its column; so numeric columns hold no text, text columns hold only missing cells or trimmed text, missing cells stay missing and other columns are untouched |
| `Cleanup.CleanIdempotent` | main.py:28-38 | cleaning a cleaned frame again gives the same frame, and it fails exactly when the first cleaning failed |
| `Cleanup.CleanCellSteps` | main.py:28-38 | coercing and then stripping, as the two loops do, equals the cell-by-cell definition |
| `Cleanup.CleanColumns` | main.py:28-44 | the two loops give None exactly when a text column holds no string, and otherwise the frame cleaned cell by cell |
| `Cleanup.LoadCsv` | main.py:13-44 | a failed read gives None; otherwise the result is None exactly when stripping fails, and else it is the dropped frame cleaned cell by cell |
| `Frame.IndexOf` | main.py:31 | `col in df.columns` holds exactly when a position is found, and the column at that position has that name |
| `Aggregation.Keys` | main.py:135 | the group keys are each distinct non-missing category exactly once |
| `Aggregation.DistinctCard` | main.py:135 | a list of distinct keys has as many elements as its set, so there is one group per category |
| `Aggregation.InsertSorted` | main.py:135 | inserting into a descending list keeps it descending |
| `Aggregation.InsertSum` | main.py:135 | inserting adds the bar's income to the total |
| `Aggregation.InsertPermutes` | main.py:135 | inserting adds exactly one copy of the bar |
| `Aggregation.SortDesc` | main.py:135 | the sorted bars are in non-increasing income order, with the same bars, length and total |
| `Aggregation.SortDescPermutes` | main.py:135 | sorting is a permutation, as multisets |
| `Aggregation.InsertDistinct` | main.py:135 | inserting a bar of a new category keeps one bar per category |
| `Aggregation.SortDescDistinct` | main.py:135 | sorting keeps one bar per category |
| `Aggregation.SplitFirst` | main.py:135 | the first row adds its income to the per-category totals once, exactly when its category is a key |
| `Aggregation.SumMakeBars` | main.py:135 | summed over keys that cover every category, the per-category totals equal the income of all categorised rows |
| `Aggregation.Aggregate` | main.py:135 | one bar per distinct non-missing category, whose income is that category's summed income with missing income as 0; rows with a missing category are left out; bars in non-increasing order; the bars add up to the income of all categorised rows |
| `Grouping.Relabel` | main.py:124 | a category containing the target becomes exactly the target; any other category, and a missing one, is left as it is |
| `Grouping.RelabelColumn` | main.py:124-128 | one `.apply` pass relabels every row's category by `Relabel` and keeps the row count and every income |
| `Grouping.TentNotInTradeShow` | main.py:123-129 | "Trade Show" does not contain "Tent", so the tent pass leaves a trade-show label alone |
| `Grouping.GroupCategories` | main.py:119-129 | the two flag-guarded passes, in source order, give each row the category `Grouped` defines (trade show wins, tent applies otherwise, anything else is kept) and keep its income |
| `Grouping.GroupedIdempotent` | main.py:123-129 | grouping an already grouped category changes nothing |
| `Grouping.TradeShowTentExample` | main.py:123-129 | "Trade Show Tent" ends as "Trade Show" with both flags or only the trade flag, and as "Tent" with only the tent flag |
| `Grouping.ImageCard` | main.py:131 | relabelling a set of categories gives no more labels than categories |
| `Grouping.SubsetCard` | main.py:131 | a subset of categories is no larger than the set |
| `Grouping.GroupingNeverAddsCategories` | main.py:119-132 | the number of distinct categories after grouping is never greater than before |
| `Grouping.GroupingKeepsIncome` | main.py:123-135 | grouping leaves the total income of categorised rows unchanged |
| `Plot.Title` | main.py:140-144 | the title is exactly as long as the base text plus the selected suffixes, starts with the base text and ends with " - Tents Grouped" when tents are grouped |
| `Plot.TitleSpec` | main.py:140-144 | the title starts with the base text; it has " - Trade Shows Grouped" right after the base exactly when the trade flag is set; it ends with " - Tents Grouped" exactly when the tent flag is set; its length is exactly the base plus the suffixes selected, so nothing else is in it; different flags give different titles |
| `Plot.LoadedIsPlotReady` | main.py:29-38 | every frame `load_csv` returns has no number under Category and no text under Income, which is what the plot reads |
| `Plot.Entries` | main.py:120-135 | the plot sees one Category/Income pair per row of the frame |
| `Plot.PlotAggregation` | main.py:110-155 | the outcome is nothing exactly when the frame is None, KeyError on Category exactly when that column is absent, KeyError on Income exactly when Category is present and Income absent, and a chart exactly when both are present; the chart is the aggregate of the grouped copy, with the title the flags select, no more bars than distinct categories before grouping, and a grand total equal to the income of every categorised row |
| `Scenario.RentalsGrouped` | main.py:127-128 | with only tent grouping, "Tent - 20x20" and "Tent - Frame" become "Tent" and "Audio" stays |
| `Scenario.GroupedRentalsTotals` | main.py:135 | in the worked example, Tent sums to 1500 and Audio to 2000 |
| `Scenario.TentScenario` | main.py:127-135 | the worked example aggregates to exactly [Audio 2000, Tent 1500] |

## Left out

- Reading the CSV (`pd.read_csv` with `skiprows=[1]`, quoting, thousands separators and `na_values`) is not modelled. Its result is the parameter `read`, and `None` stands for any exception it raises. Number parsing is the abstract parameter `parse`.
- `Frame.WellFormed` takes distinct column names as given, because `pd.read_csv` renames repeated headers. The model does not derive this.
- The drop, coercion and strip steps are modelled only on the cell kinds missing, text and number. Other pandas dtypes (booleans, dates) and `pd.to_numeric` raising are not modelled.
- `PlotAggregation` requires `PlotReady`: no number under Category and no text under Income. `load_csv`, its only caller's source of frames, guarantees this (`LoadedIsPlotReady`). pandas behaviour on other frames (numeric group keys, string sums) is not modelled.
- `Aggregation.SortDesc` is an insertion sort. `sort_values` uses an unstable quicksort, so the model promises nothing about the order of equal incomes. Only the properties in the table are claimed.
- Floating-point rounding in the income sums is not modelled: incomes are exact `real`s.
- `visualize_data` is left out: text summaries, `df.info`/`describe`, the matplotlib table and the MD5 fingerprint are display code, and the MD5 is a foreign hash.
- The chart drawing, canvas clearing, Tk widgets, `create_ui`, the file dialogs and `export_csv` are UI and file I/O, and are left out.
- All `print` calls are left out, including the unique-category counts at lines 120-132 and the grand total at line 155. Their values are stated by `GroupingNeverAddsCategories` and `PlotAggregation` instead.
