# US vs China trade dominance: the data pipeline under the dashboard

The dashboard (`app.py`) reads a table of trade volumes with the US and China per
country for 2000 and 2024. It cleans the two volume columns, labels each
country with its dominant partner, resolves an ISO alpha-3 code per country,
adds "United States" and "China" self-rows to each year, and then derives
dominance counts, volume totals and the sorted country column of the
side-by-side table. This project models that pipeline in Dafny. It leaves out
the rendering.

Modules, in pipeline order:

- `Wrappers`: `Option`, the model's NaN / `None`.
- `Text`: Python's `str.strip()` (with `str.isspace`'s character set) and
  pandas' literal `str.replace(c, '')`.
- `Numeric`: the cell cleaner (`"-"`, `""`, `" "` markers, then quote and comma
  removal, strip, parse). `pd.to_numeric(errors='coerce')` is a plain decimal
  grammar returning `Option<real>`. Volumes are exact `real`s, not floats.
- `Loader`: the per-year split, `Dominance` (`US` | `China`) and the
  `fillna(0)` comparison rule.
- `CountryCodes`: `get_iso3`. The country database is a function parameter
  `lookup: string -> LookupOutcome` (`Found(code)`, `NotFound` or `Raised`). The
  override dictionary is a literal map.
- `SelfRows`: ISO resolution of each row, then the US step and the China step.
  Each step appends a self-row or forces the label and code on existing rows.
- `StringOrder`: Python's `<` on strings (code-point lexicographic), the order
  `sorted()` uses.
- `Summary`: dominance counts, NaN-skipping totals in billions, the present-name
  list and `sorted(set(...))`.
- `Dashboard`: the whole run, and the figures handed to the rendering layer.

Behaviour of the code worth knowing:

- No deduplication. The code never makes countries unique per year, so there is
  no one-row-per-country invariant.
- Missing markers. The code matches only the exact strings `"-"`, `""` and
  `" "`. Any other whitespace-only cell still ends up missing, because it strips
  to `""` and fails to parse (`Numeric.MarkerCheckRedundant`).
- Database errors. A lookup that raises yields no code even for a name in the
  override table. The code catches the exception around both steps.

## Model

| member | source | states |
|---|---|---|
| Text.Strip | app.py:32 | the stripped text has no whitespace at either end and is no longer than the input |
| Text.StripExact | app.py:32 | for any split of a cell into whitespace, a core with no whitespace at its ends, and whitespace, stripping returns exactly that core |
| Text.Delete | app.py:32 | after removing a character, none of it is left |
| Text.DeleteContents | app.py:32 | removing a character keeps every other character: the multiset of the result is the input's with that character's count set to zero |
| Text.DeleteAppend | app.py:32 | character removal distributes over concatenation |
| Numeric.ParseDecimal | app.py:34 | the decimal reader behind `pd.to_numeric(..., errors='coerce')`: an optional sign, digits, an optional point and fraction digits, at least one digit, anything else missing; specified by `Numeric.ParseRender` and `Numeric.ParseSound` |
| Numeric.Normalize | app.py:32 | quote marks, then commas, removed, then whitespace stripped; the result has no whitespace at either end and is no longer than the cell (`Text.DeleteContents`, `Text.StripExact` say what is kept) |
| Numeric.ParseRender | app.py:34 | every well-formed decimal literal (optional sign, digits, optional point and fraction, at least one digit) parses to the value it denotes |
| Numeric.ParseSound | app.py:34 | conversely, whatever the parser accepts is the rendering of a well-formed literal, and the number returned is that literal's value |
| Numeric.CleanCell | app.py:28-34 | the three marker strings `"-"`, `""`, `" "` clean to missing; cleaning is total, so a bad cell never aborts |
| Numeric.CleanSound | app.py:32-34 | a present value is the value of a well-formed literal that spells the whole normalized cell: anything that does not parse gives missing |
| Numeric.MarkerCheckRedundant | app.py:30-34 | cleaning equals parse-after-normalize on every input: each marker normalizes to text the grammar rejects |
| Numeric.CleanGroupedRoundTrip | app.py:32-34 | every thousands-grouped natural number, quoted or not and padded with any whitespace, cleans back to that number (e.g. `"  5,000  "` gives 5000) |
| Numeric.CleanExamples | app.py:30-34 | `"1,234"` cleans to 1234, and `"-"`, `""`, `" "` clean to missing |
| Numeric.DeleteGroup | app.py:32 | removing commas from a grouped digit string gives back the digits |
| Loader.CleanField | app.py:28-34 | one volume field: an empty field becomes the text "nan", then `Numeric.CleanCell` applies; an empty field is missing (`Loader.BlankFieldMissing`) |
| Loader.LoadRow | app.py:14-39 | one source line for one year: that year's country, the two cleaned volumes, the year number, and the label `Loader.Classify` gives (`Loader.LoadDominanceRule`) |
| Loader.Load | app.py:14-41 | both year tables of the source; specified by `Loader.LoadYear` and `Loader.LoadDominanceRule` |
| Loader.Classify | app.py:38-39 | the label is China exactly when China's volume, missing read as 0, is strictly greater than the US volume, missing read as 0 |
| Loader.LoadYear | app.py:14-36 | a year table has one row per source line, in order, carrying that year's country, cleaned US and China cells and year number |
| Loader.LoadDominanceRule | app.py:28-39 | every loaded row of both years follows the rule on its own stored volumes, and all four volume columns hold exactly the cleaned cells, so a missing volume is stored as missing, not as 0 |
| Loader.ClassifyTies | app.py:38-39 | a tie, including both volumes missing, is US; a missing volume compares exactly like a zero |
| Loader.ClassifySwap | app.py:38-39 | when the two volumes differ, swapping them swaps the label |
| Loader.BlankFieldMissing | app.py:28-34 | an empty CSV field, which becomes the text "nan", cleans to missing |
| Loader.GermanyScenario | app.py:25-39 | Germany 2000 with US "100,000" and China "50,000" loads as 100000 / 50000, US-dominant |
| Loader.BrazilScenario | app.py:25-39 | Brazil 2024 with US "-" and China "20,000" loads as missing / 20000, China-dominant |
| CountryCodes.GetIso3 | app.py:43-59 | a code is returned only for a present name whose lookup did not raise |
| CountryCodes.GetIso3Cases | app.py:44-59 | both directions: a code comes from the lookup, or, only when the lookup finds nothing, from the override table; no code iff the lookup raises or the name is in neither |
| CountryCodes.LookupWins | app.py:45-47 | the lookup's code takes precedence over an override entry for the same name |
| CountryCodes.RaiseMasksOverrides | app.py:58-59 | a raising lookup yields no code, even for a name in the override table |
| CountryCodes.OverrideExamples | app.py:49-57 | when the lookup misses, "Burma" and "Myanmar" give MMR and "Taiwan" gives TWN |
| CountryCodes.OverridesWellFormed | app.py:49-56 | every override code is three upper-case letters |
| SelfRows.Resolve | app.py:64-65 | resolution keeps every row's fields and adds the code of its country name |
| SelfRows.EnsureSelfRow | app.py:67-95 | one self-row step, append when absent or relabel when present; specified by `SelfRows.EnsureSelfRowSpec` and `SelfRows.EnsureSelfRowFrame` |
| SelfRows.InjectSelfRows | app.py:67-125 | the US step, then the China step; specified by `SelfRows.InjectSelfRowsSpec` and `SelfRows.InjectSelfRowsIdempotent` |
| SelfRows.Appended | app.py:67-125 | the rows the two steps add: the US row when "United States" is absent, then the China row when "China" is absent, so at most two |
| SelfRows.USStepKeepsChina | app.py:67-112 | after the US step the table names "China" exactly when it did before, so the China step decides on the original table |
| SelfRows.ForceLabels | app.py:79-80 | forcing keeps the length, relabels each row of the named country and leaves every other row as it was |
| SelfRows.EnsureSelfRowSpec | app.py:67-95 | if the country is absent, exactly one synthetic row is appended after the unchanged table; if present, that country's rows get the label and code with their data kept and other rows are unchanged; either way the country is then present and labelled |
| SelfRows.EnsureSelfRowFrame | app.py:67-80 | one step adds at most one row, changes no existing row's data, and touches only rows of its own country |
| SelfRows.EnsureSelfRowKeepsLabels | app.py:98-110 | the China step keeps the US rows' forced label and code, and their presence |
| SelfRows.InjectSelfRowsSpec | app.py:67-125 | after both steps the table has a "United States" row and a "China" row, every such row carries US/USA or China/CHN, other countries' rows are untouched, and the rows after the original ones are exactly `SelfRows.Appended`: the self-rows of the absent countries, US first |
| SelfRows.ForceLabelsIdentity | app.py:79-80 | forcing labels on rows that already carry them changes nothing |
| SelfRows.InjectSelfRowsIdempotent | app.py:67-125 | running the injection again on its output changes nothing |
| SelfRows.SyntheticRowsAndRule | app.py:68-106 | the appended US row agrees with the dominance rule (a 0-0 tie); the appended China row contradicts it, being labelled by fiat |
| Summary.CountDominance | app.py:184-187 | a label count never exceeds the row count |
| Summary.CountPartition | app.py:183-187 | the US-dominant count plus the China-dominant count equals the number of rows |
| Summary.CountPositive | app.py:184-187 | a table with a row of some label counts at least one such row |
| Summary.SumPresent | app.py:177-180 | a column sum that skips missing values; equal to the zero-filled sum by `Summary.SumPresentIsZeroFilledSum` |
| Summary.TotalBillions | app.py:177-180 | a column total in billions, the sum divided by 1000; the self-rows leave it unchanged by `Summary.InjectionKeepsTotals` |
| Summary.SumPresentIsZeroFilledSum | app.py:177-180 | summing with missing values skipped equals summing with missing values read as 0 |
| Summary.SumPresentAppend | app.py:177-180 | appending a value adds it to the sum, a missing one adds nothing |
| Summary.InjectionKeepsTotals | app.py:177-180 | the self-rows add nothing to a year's US or China total |
| Summary.InjectionCountsPositive | app.py:184-187 | after the self-rows, each label is held by at least one row of the year |
| Summary.Names | app.py:260-261 | a name is listed exactly when some row carries it as a present country |
| Summary.Insert | app.py:262 | insertion into a strictly sorted list keeps it strictly sorted and adds exactly the new element |
| Summary.SortedKeys | app.py:262 | the result is strictly sorted (so duplicate-free) and holds exactly the input's elements |
| Summary.SortedUnique | app.py:262 | two strictly sorted lists with the same elements are equal, so the key list is the only possible one |
| Summary.ComparisonKeys | app.py:260-262 | the key list is strictly sorted and a name is in it exactly when it is a present country of either year |
| StringOrder.LessIrreflexive | app.py:262 | no name sorts before itself |
| StringOrder.LessTransitive | app.py:262 | the name order is transitive |
| StringOrder.LessTotal | app.py:262 | any two different names are ordered one way or the other |
| StringOrder.StrictlySortedNoDuplicates | app.py:262 | a strictly sorted list has no repeated name |
| Dashboard.Summarize | app.py:177-187 | the counts are the numbers of US-labelled and China-labelled rows and add up to the row count; each total is the column's sum with missing volumes read as 0, divided by 1000 |
| Dashboard.BuildYear | app.py:14-125 | one year table: load, resolve codes, add the self-rows; specified by `Dashboard.BuildYearSpec` |
| Dashboard.BuildYearFollowsSource | app.py:14-125 | the first rows of a finished year table are the source lines in order, with that year's country, cleaned volumes and year; each that is not a self-row carries the code resolved for its name; after them come exactly the self-rows of the countries no source line names, US first |
| Dashboard.ResolvedHas | app.py:64-67 | the resolved table names a country exactly when some source line of that year does |
| Dashboard.InjectionKeepsRule | app.py:67-125 | if every row follows the dominance rule before the self-rows are added, every row that is not a self-row still follows it after |
| Dashboard.BuildYearRule | app.py:36-125 | in a finished year table every row that is not a self-row follows the dominance rule |
| Dashboard.BuildYearTotals | app.py:177-180 | a year's totals equal the zero-filled sums of the cleaned source columns over 1000: the self-rows add nothing |
| Dashboard.BuildYearSpec | app.py:14-125 | a finished year table follows the source lines as above (including exactly which self-rows are appended), has both self-rows with their forced labels, every other row follows the dominance rule, it is 0 to 2 rows longer than the source, and both labels occur |
| Dashboard.Run | app.py:14-187 | both tables follow the source lines and carry the self-rows, the rule holds off the self-rows, each year's counts are its label counts, cover its rows and are never zero, and each total is the zero-filled sum of the cleaned source column over 1000 |
| Dashboard.RunKeys | app.py:260-262 | the comparison keys are strictly sorted, include "United States" and "China", and are exactly the present names of both years |
| Dashboard.KeysAreSortedNameSet | app.py:260-262 | any strictly sorted list of exactly the present names of both years is the key list |

## Left out

- Streamlit page setup, metrics, columns, captions and dataframe display
  (app.py:6-8, 128-311). These are user-interface calls.
- Plotly choropleths and pie charts (app.py:132-174, 218-254), and the cell
  styling callback (app.py:294-308). These are rendering.
- `pd.read_csv` and the `@st.cache_data` memoisation (app.py:10-12). These are
  file I/O and caching. The source table is a parameter `seq<CsvRow>`, and a
  missing file is not modelled. Numeric cells are taken as text; a column that
  the CSV reader parses as floats would turn into text such as "100.0" under
  `astype(str)`.
- The country database (pycountry). It is a foreign library, kept as the
  uninterpreted `lookup` parameter.
- The full `pd.to_numeric` grammar (exponents, `inf`, `nan` strings, etc.).
  The model accepts only an optional sign, digits, and an optional point with
  fraction. An empty CSV field becomes "nan", which the grammar rejects, so it
  is still missing, as in pandas.
- Binary floating point. Volumes are exact reals, so rounding in sums and the
  division by 1000 is not modelled.
- The left merges that build the comparison table (app.py:268-273), their row
  multiplication when a name repeats, and the `"$x,.1f"` / empty-string
  currency formatting (app.py:275-277). Only the table's country column is
  modelled.
- Percentages (app.py:206-211). `Dashboard.Run` does show that each year's row
  count is at least two, so their divisions are defined.
- The hard-coded narrative text (app.py:189-190) and the debug `print`
  (app.py:284).
- Numeric.CleanCell: column types are not modelled. The replace at app.py:30 can turn a
  column whose every cell is a marker into an all-NaN float column, and the string
  operations at app.py:32 then raise, so such a column aborts loading. The model cleans
  each such cell to missing instead.
- Numeric.CleanExamples: the padded example `"  5,000  "` is not stated on the
  literal. It is the instance `pre = post = "  "` of
  `Numeric.CleanGroupedRoundTrip`.
- CountryCodes.OverridesWellFormed: does not state that the table has 22
  distinct names, only that every code is three upper-case letters.
