# Wine API backend: table logic

A model of the table logic behind a small read-only wine-review API. Four
per-type tables (red, rose, sparkling, white) are merged at start-up into one
wine table. The `/top-wines` request sorts that table and returns its
top-rated rows. The three filter functions are part of the model as well,
though no endpoint of the backend's `main.py` calls them.

A table is a `seq<Row>`. A `Row` maps column names to cells. A cell is text,
an integer, a real, or missing (pandas' NaN / `<NA>`). Columns are chosen by
name, as in the source. A column that a row lacks reads as missing, which is
what `pd.concat` produces for tables with different columns.

Modules, one per source concern:

- `Text` (`text.dfy`): ASCII case folding, literal substring search, and the
  decimal rendering (`str(int)`) and parsing (integer `pd.to_numeric`) of
  integers. Parsing the rendering gives the integer back.
- `Frames` (`frames.dfy`): cells, rows, pandas' elementwise `==`, the errors
  pandas raises on the modelled paths, the `DataFrame` class for tables
  changed in place, and order-preserving subsequences.
- `FilterFunctions` (`filters.dfy`): `filter_dataframe`, `filter_contains` and
  `filter_range`. Each is a boolean `Mask` applied by `Select`. The year
  conversion of `filter_range` is a method that overwrites the caller's table.
- `Utils` (`utils.dfy`): `top_wines_by_rating`. It sorts by rating (highest
  first, missing last) with an insertion sort, then applies pandas' `head`.
- `Backend` (`backend.dfy`): start-up tagging and concatenation, and the
  `/top-wines` handler.

The CSV loading is not part of the model. The four tables are parameters of
`Backend.Startup`, and the wine table is a parameter of the handler. The
handler's JSON encoding is not modelled either.

The inputs of `top_wines_by_rating` and `/top-wines` are never changed. Both
are functions of the table value, matching `sort_values`, which returns a new
table. Two operations change a table in place, and each is a method that
takes a `DataFrame`. At start-up, `Backend.AssignType` (called by
`Backend.Startup`) writes the `type` column into each of the four tables.
Of the filter functions, which no shown endpoint calls, `filter_range` on
`year` is the one that changes its input.

Where the docstring of `filter_range` says the year path is an "exact match",
the code is a range test on the converted integers. The model follows the
code.

## Model

| member | source | states |
|---|---|---|
| `FilterFunctions.Select` | backend/app/mymodules/filter_functions.py:15 | boolean indexing keeps exactly the rows the mask holds of, each as often as it occurs, as an order-preserving subsequence of the input |
| `FilterFunctions.FilterDataframe` | backend/app/mymodules/filter_functions.py:15 | exactly the rows whose column equals the value (text to text, number to number, missing never), in input order |
| `FilterFunctions.FilterDataframeIdempotent` | backend/app/mymodules/filter_functions.py:15 | filtering the result again by the same column and value returns the same rows |
| `FilterFunctions.FilterContains` | backend/app/mymodules/filter_functions.py:29-34 | on `year`, exact equality with the text `str(value)`; elsewhere, the rows whose text cell contains the pattern with case ignored, with non-text and missing cells never kept; a non-string pattern raises; the result is a subsequence |
| `FilterFunctions.FilterContainsCaseInsensitive` | backend/app/mymodules/filter_functions.py:34 | upper-casing the pattern does not change the result |
| `FilterFunctions.YearContainsIsExact` | backend/app/mymodules/filter_functions.py:29-34 | a "2015" year is not found by the pattern "01", while the same text in another column is |
| `FilterFunctions.RangeRows` | backend/app/mymodules/filter_functions.py:52 | raises exactly when a cell of the column is text; otherwise keeps exactly the rows whose number lies in `[min, max]`, both ends included, as a subsequence |
| `FilterFunctions.RangeInvertedIsEmpty` | backend/app/mymodules/filter_functions.py:52 | with `min > max` no row is returned |
| `FilterFunctions.ToNumeric` | backend/app/mymodules/filter_functions.py:51 | a converted year is a 64-bit integer or missing; a number keeps its value |
| `FilterFunctions.CoerceYears` | backend/app/mymodules/filter_functions.py:51 | the converted table has the same length and order; a numeric year keeps its value, year text becomes the integer it spells (via `Text.ParseInteger`) or missing, a missing year stays missing; every other column is unchanged |
| `FilterFunctions.FilterRange` | backend/app/mymodules/filter_functions.py:49-52 | on `year` the caller's rows become their converted form before the range test, or stay unchanged when the cast raises (a fractional year, or one outside the 64-bit range); on other columns the table is untouched |
| `FilterFunctions.YearRangeNeverRaises` | backend/app/mymodules/filter_functions.py:51-52 | after the conversion the year range test never meets text |
| `FilterFunctions.NonVintageNeverInRange` | backend/app/mymodules/filter_functions.py:49-52 | a non-vintage year becomes missing and that row is never returned |
| `FilterFunctions.VintageInRange` | backend/app/mymodules/filter_functions.py:29-52 | a year written as the decimal text of `y` becomes the integer `y`, is returned exactly when `min <= y <= max`, and is also found by the contains filter with `y` |
| `FilterFunctions.SelectCommutes` | backend/app/mymodules/filter_functions.py:15 | two masks applied in sequence select the same rows in either order; the filter functions do not all commute (next two rows) |
| `FilterFunctions.RangeRaisesBeforeNotAfter` | backend/app/mymodules/filter_functions.py:15-52 | `filter_range` raises on a text cell that an earlier `filter_dataframe` removes, so their order matters |
| `FilterFunctions.YearRangeThenContainsFindsNothing` | backend/app/mymodules/filter_functions.py:31-51 | after `filter_range` on `year` rewrites the years to integers, `filter_contains` on `year` finds nothing where it found the row before |
| `FilterFunctions.CoerceYearsIdempotent` | backend/app/mymodules/filter_functions.py:51 | converting an already converted table changes nothing, so a second year range filter on the same table sees the same years |
| `FilterFunctions.ChainedFiltersNarrow` | backend/app/mymodules/filter_functions.py:15 | two masks applied in sequence give an order-preserving subsequence of the input, never longer; the range filter on `year` is not such a mask, since its rows carry converted years |
| `Text.ParseDecimalString` | backend/app/mymodules/filter_functions.py:31-51 | `Text.ParseInteger`, the model of the integer case of `pd.to_numeric`, gives `n` back from `str(n)`, so the year text and its conversion agree |
| `Text.NonVintageIsNotANumber` | backend/app/mymodules/filter_functions.py:51 | the non-vintage marker "N.V." does not convert to a number |
| `Text.ContainsCaseInsensitive` | backend/app/mymodules/filter_functions.py:34 | a pattern matches exactly when its upper-cased form does |
| `Text.EmptyNeedleMatches` | backend/app/mymodules/filter_functions.py:34 | the empty pattern matches every text cell |
| `Frames.SubsequenceTransitive` | backend/app/mymodules/filter_functions.py:15 | a subsequence of a subsequence is a subsequence of the original |
| `Utils.SortByRating` | backend/app/mymodules/utils.py:3 | the sorted table is a permutation of the input, sorted by rating from highest to lowest with missing ratings last |
| `Utils.InsertSorted` | backend/app/mymodules/utils.py:3 | inserting a row into a sorted table keeps it sorted |
| `Utils.Head` | backend/app/mymodules/utils.py:4 | `head(n)` is the prefix of length `min(n, len)`, or `len + n` rows (at least none) when `n` is negative |
| `Utils.TopWinesByRating` | backend/app/mymodules/utils.py:2-4 | the result is sorted by rating, a sub-multiset of the input, and has `min(limit, n)` rows for `limit >= 0` |
| `Utils.TopWinesDominate` | backend/app/mymodules/utils.py:3-4 | every row left out ranks no higher than any row returned |
| `Utils.TopWinesRatedFirst` | backend/app/mymodules/utils.py:3-4 | no returned row is unrated or rated lower while a rated row is left out with a higher rating |
| `Utils.TopWinesFirstIsBest` | backend/app/mymodules/utils.py:3-4 | the first row returned ranks at or above every row of the table |
| `Utils.TopWinesNegativeLimit` | backend/app/mymodules/utils.py:4 | a negative limit drops that many rows from the end of the sorted table |
| `Utils.TopWinesDefaultLimit` | backend/app/mymodules/utils.py:2 | with no limit given, `min(10, n)` rows come back |
| `Backend.Tagged` | backend/app/main.py:23-26 | each row gets `type` set to the table's type name, and every other column keeps its presence and its cell |
| `Backend.AssignType` | backend/app/main.py:23-26 | the column assignment replaces the table's rows with their tagged form |
| `Backend.Startup` | backend/app/main.py:23-28 | each of the four tables is tagged in place, and the wine table is their concatenation in the order red, rose, sparkling, white |
| `Backend.MergeLength` | backend/app/main.py:28 | the wine table built by `Backend.Merge`, the model of `pd.concat`, has the sum of the four lengths |
| `Backend.MergeBlocks` | backend/app/main.py:23-28 | in `Backend.Merge`, the red rows come first, then rose, sparkling and white, each block in input order, and each row differs from its source only in `type` |
| `Backend.MergeTypes` | backend/app/main.py:23-28 | every row of the wine table has one of the four type names |
| `Backend.MergeKeepsRatings` | backend/app/main.py:23-28 | tagging leaves the ratings alone, so the wine table can be sorted whenever the four tables can |
| `Backend.GetMostRatedWines` | backend/app/main.py:30-41 | `/top-wines` returns `top_wines_by_rating` of the wine table, sorted and drawn from it, with at most 10 rows (`min(10, n)`) unless a limit is given |
| `Backend.TopWinesOfMerge` | backend/app/main.py:28-40 | the `/top-wines` result is sorted by rating and every row in it has one of the four type names |

## Left out

- CSV loading (`pd.read_csv`), FastAPI routing, `JSONResponse`, `read_root` and the clock-reading `get_date`: these are I/O and framework code. The four tables are parameters.
- The frontend: it is network calls, form declarations and page rendering.
- Endpoints the shown backend does not define (`/advanced-search`, `/most-recent-wines`, `/least-recent-wines`, `/countries`, `/types`) are not modelled. The backend's tests name them, but no source for them is present.
- A column missing from the whole table raises `KeyError` in pandas. A `seq<Row>` has no header, so the model reads such a column as missing.
- `FilterFunctions.FilterContains`: the pattern is a literal substring, not a regular expression, and case folding is ASCII only.
- `FilterFunctions.FilterContains`: the `AttributeError` pandas raises when the column holds no strings at all is not modelled. Non-text cells simply never match.
- `FilterFunctions.FilterContains`: the value is a string or an integer. Float and other values, whose `str` rendering the model does not define, are left out.
- `FilterFunctions.ToNumeric`: text parses only as an optional sign followed by ASCII digits. Text in float syntax, with an exponent or with surrounding spaces, which `pd.to_numeric` also accepts, becomes missing here.
- `FilterFunctions.ToNumeric`: integer years within the 64-bit range are converted exactly. When the year column also holds non-vintage entries, pandas converts through float64 and would round years above 2^53; that rounding is not modelled.
- Floating point: ratings, prices and range bounds are exact reals, with no NaN or rounding.
- `Utils.TopWinesByRating`: requires that no rating cell is text. pandas sorts an all-text column as strings and raises on a mixed one; neither is modelled.
- `Utils.TopWinesByRating`: the source does not agree with itself on the case of column names. `top_wines_by_rating` sorts by `"Rating"`, the filters use lowercase `"year"`, and the backend tests expect a `"rating"` key. When the table has no `Rating` column, pandas raises `KeyError`; the model instead reads every rating as missing, and the top-k contracts then hold trivially.
- `Utils.SortByRating`: the order of equal ratings is not specified, since pandas' default sort is not stable. The insertion sort picks one order, and no contract depends on it.
- `Backend.Startup`: requires the four tables to be distinct objects, as the four separate `read_csv` calls make them.
- The row index that `pd.concat` keeps (it repeats across the four blocks) is not modelled. No modelled operation reads it.
