# London MSOA pipeline in Dafny

A model of the data pipeline behind a map of London's Middle layer Super
Output Areas (MSOAs). The map shows each area's Black population share,
mean income and median house price. The model has one module per stage:

- `Base`: `Option`, `Result` and the Python exception kinds that the
  pipeline raises.
- `Strings`: ASCII lower-casing and the prefix, suffix and substring tests.
- `Records`: one datatype per table. Every table is keyed by the MSOA code
  `msoa`.
- `Frames`: the pandas operations the stages use:
  - group-by-sum (`GroupSum`);
  - the inner merge of two such sums (`MergeCounts`);
  - the generic left merge (`LeftJoin`).
- `CensusLocal` (`process_census_data`):
  - keeps census rows whose code starts with `E02`;
  - sums every ethnic category into `population`;
  - sums the categories whose label starts with the Black prefix into
    `black_count`;
  - inner-merges the two sums.
- `CensusApi` (`process_observations`):
  - keeps only "All persons" observations, as `(id, label, int(value))`;
  - takes the exact-label "All ethnic groups" and "Black, ..." rows;
  - inner-merges them.
- `Boundaries`:
  - shapefile member choice (`_search_shp_member`);
  - code/name column choice (`_identify_msoa_columns`);
  - the projection in `load_london_shapes`.
- `Loaders`:
  - the income projection;
  - `black_share = black_count / population`;
  - the housing loader's numeric coercion and row drop.
- `Join` (`load_all_data`):
  - three left merges on `msoa`;
  - the `dropna` on share, income and price;
  - the count of dropped rows.
- `Stats`:
  - `Series.mean`;
  - `Series.quantile` with the default linear rule;
  - `calculate_global_stats`;
  - the unused `classify_middle_class`.
- `Filter`:
  - the sidebar thresholds;
  - the row-wise membership mask and its count;
  - the `is_filtered` 0/1 column;
  - the highlighted layer's `style_function`.

Each stage is a pure function over `seq`s of records. The one algorithm
with a loop is a `method`: the API aggregation with its observation loop.
The shapefile search is a method too. Most operations are paired with a
reference definition or an invariant, and lemmas connect the two:

- Group sums are compared with a per-key sum over the input.
- Merges are compared with a relational description of which pairs meet.
- The housing filter is compared with its count and with concatenation.
- The quantile is compared with the sorted order statistics it
  interpolates: at q = k / (n - 1) it is exactly the k-th smallest value.
- The filter's mask is compared with the three comparisons against the
  thresholds each sidebar mode selects.
- The mask count is compared with the set of true positions.

## Model

| member | source | states |
|---|---|---|
| Frames.GroupSum | process_census_data.py:49 | the groups have distinct keys, a key has a group exactly when it occurs in the input, and each group's value is the sum of that key's input values |
| Frames.GroupSumEntries | process_census_data.py:58 | every row of a group-by-sum carries the total of its own key over the input |
| Frames.MergeCounts | process_census_data.py:62 | a merged row exists exactly for a pair of a left and a right row with the same key, and carries the left value as black count and the right value as population |
| Frames.NoMatchNoCounts | process_census_data.py:62 | a left row whose key is absent on the right produces no output row (inner merge) |
| Frames.MergeCountsDistinct | process_census_data.py:49-62 | merging two tables with unique keys yields at most one row per area |
| Frames.LeftJoin | streamlit_app.py:47-49 | every pair in a left merge joins rows with equal keys, every matching pair is present, and a left row without partner is kept with a missing right side |
| Frames.LeftJoinUniqueKeepsRows | streamlit_app.py:47-49 | with unique right-hand keys a left merge keeps exactly the left rows, in order |
| CensusLocal.ProcessCensusData | process_census_data.py:34-65 | every output code starts with E02; population is the sum over all of that area's rows; black_count is the sum over its Black-prefixed rows; codes are unique; an area is present exactly when it has a Black-prefixed E02 row |
| CensusLocal.WhereWhere | process_census_data.py:46-56 | filtering E02 rows and then Black-prefixed rows is one filter on both conditions |
| CensusLocal.ProcessIgnoresNonMsoaRows | process_census_data.py:46 | inserting a row whose code does not start with E02 leaves the output unchanged |
| CensusLocal.BlackCountAtMostPopulation | process_census_data.py:49-58 | with non-negative observations every output row has 0 <= black_count <= population |
| CensusLocal.ExampleAfricanAndWhite | process_census_data.py:46-62 | an African row of 50 and a White row of 450 for one area give population 500 and black_count 50 |
| CensusLocal.ExampleLabelWithoutColon | process_census_data.py:53-55 | a Black label without the trailing colon is not counted, so its area is absent |
| CensusApi.Truncate | download_census_data.py:117 | `int()` truncates towards zero: the result is the integer part, for negative values too |
| CensusApi.KeptRecordsMeaning | download_census_data.py:109-118 | a record is kept exactly when it is the (id, label, int(value)) of an "All persons" observation |
| CensusApi.KeptRecordsEmpty | download_census_data.py:107-120 | the frame is empty exactly when no observation is for "All persons" |
| CensusApi.Labelled | download_census_data.py:123-130 | the selected rows are exactly the records whose label equals the given label, with no prefix match and no summing |
| CensusApi.MergedSound | download_census_data.py:123-133 | every output row pairs a kept Black row with a kept total row of the same area |
| CensusApi.MergedComplete | download_census_data.py:123-133 | every such pair of rows appears in the output |
| CensusApi.MergedDistinct | download_census_data.py:133 | with at most one Black and one total row per area, each area appears at most once |
| CensusApi.ProcessObservations | download_census_data.py:105-133 | fails with KeyError('ethnic_group') exactly when no observation is for "All persons"; otherwise the output rows are exactly the matching Black/total pairs, unique per area when each label occurs once per area |
| Boundaries.SearchShpMember | london_black_income_map.py:93-99 | fails with the "not found" RuntimeError exactly when no name ends with .shp and contains msoa and london (case-insensitively); otherwise returns a shortest candidate, the earliest among equal lengths |
| Boundaries.ChosenMemberUnique | london_black_income_map.py:97 | the selection rule singles out one archive member |
| Boundaries.FirstWhere | london_black_income_map.py:102-104 | returns the first index satisfying the rule, or nothing when no column does |
| Boundaries.IdentifyMsoaColumns | london_black_income_map.py:101-107 | fails with the KeyError exactly when no column is a code column or none is a name column; otherwise returns the first column of each kind |
| Boundaries.ExampleColumns | london_black_income_map.py:102-104 | among OBJECTID, MSOA11CD, MSOA11NM and geometry the code column is MSOA11CD and the name column MSOA11NM |
| Boundaries.ProjectShapes | london_black_income_map.py:167-168 | the projection succeeds exactly when both columns are found and differ; then each feature becomes (code value, name value, geometry) in order; a failed column search propagates its error, and a column that is both code and name gives KeyError('msoa') |
| Loaders.LoadIncome | london_black_income_map.py:118-122 | one output row per sheet row, holding its code and income cell and nothing else |
| Loaders.LoadBlackPopulation | london_black_income_map.py:124-128 | each row keeps its code and counts and gains a share with share * population = black_count |
| Loaders.SharesInUnitInterval | london_black_income_map.py:127 | when 0 <= black_count <= population and population > 0, every share lies in [0, 1] |
| Loaders.CensusSharesInUnitInterval | london_black_income_map.py:127 | shares computed from the census aggregation's output with non-negative observations lie in [0, 1] |
| Loaders.ExampleShare | london_black_income_map.py:127 | 50 Black residents out of 500 give a share of 0.1 |
| Loaders.LoadHousingAffordability | london_black_income_map.py:141-158 | the kept rows are exactly the numeric-price rows, projected onto code, name and price; the drop count is the number of non-numeric rows, equal to rows before minus rows after |
| Loaders.NumericRowsCount | london_black_income_map.py:151-154 | kept rows plus dropped rows equal the original row count |
| Loaders.HousingKeepsOrder | london_black_income_map.py:149-158 | the loader commutes with concatenation, so it keeps the original order |
| Join.DropIncomplete | streamlit_app.py:53 | every surviving row comes from a merged row with share, income and price present, and every such merged row survives |
| Join.DropIncompleteCount | streamlit_app.py:52-55 | surviving rows plus removed rows equal the merged row count |
| Join.MergedSound | streamlit_app.py:47-53 | a complete merged row is built from a boundary row, an income row, a Black row and a housing row that all carry its code |
| Join.MergedComplete | streamlit_app.py:47-53 | every such combination of four rows produces a complete merged row |
| Join.LoadAllData | streamlit_app.py:33-57 | a record is in the result exactly when its code occurs in all four tables with those values; the reported removed count is merged rows minus surviving rows |
| Join.UniqueKeysKeepEveryArea | streamlit_app.py:47-55 | with unique codes in the three right-hand tables the merges keep one row per boundary row, so surviving plus removed rows equal the boundary row count |
| Join.JoinedDistinct | streamlit_app.py:47-53 | with unique codes in every table, the surviving rows have unique codes |
| Join.JoinedCodesInTables | streamlit_app.py:47-53 | every surviving code occurs in the income, Black and housing tables |
| Join.JoinedAtMostSmallestTable | streamlit_app.py:47-55 | with unique codes in every table, the joined table is no longer than any input table |
| Stats.Sort | streamlit_app.py:65 | the order statistics are a sorted permutation of the prices |
| Stats.MeanWithinRange | streamlit_app.py:64 | the mean lies between the minimum and maximum, so some row is at or above it and some at or below it |
| Stats.MeanOfConstant | streamlit_app.py:64 | the mean of a constant column is that constant |
| Stats.Mean | streamlit_app.py:64 | the mean times the number of rows is the column's sum |
| Stats.Quantile | streamlit_app.py:65 | with h = (n-1)q, the q quantile is the linear interpolation a + g(b - a) between the sorted elements a at floor(h) and b at the next position (clipped to the last), with g = h - floor(h); so it lies between a and b |
| Stats.QuantileAtOrderStatistic | streamlit_app.py:65 | at q = k / (n - 1) the quantile is exactly the k-th smallest value, with no interpolation |
| Stats.QuantileWithinRange | streamlit_app.py:65 | every quantile lies between the minimum and the maximum |
| Stats.QuantileExtremes | streamlit_app.py:65 | the 0 quantile is the minimum and the 1 quantile the maximum |
| Stats.QuantileMonotone | streamlit_app.py:65 | a larger q never gives a smaller quantile |
| Stats.QuantileCoverage | streamlit_app.py:65 | at least floor((n-1)q) + 1 values lie at or below the q quantile |
| Stats.SixtyFifthPercentileExample | streamlit_app.py:65 | for prices 1 and 2 the 0.65 quantile is 1.65 and only one of the two rows lies at or below it |
| Stats.CalculateGlobalStats | streamlit_app.py:62-66 | returns the mean income and the 0.65 quantile of the prices, the first within the income range and the second within the price range |
| Stats.ClassifyMiddleClass | london_black_income_map.py:174-177 | a percentile outside 0..100 raises ValueError; otherwise one flag per income, true exactly when it lies between the low and high quantiles inclusive |
| Stats.FullRangeClassifiesAll | london_black_income_map.py:174-177 | with band 0..100 every income is marked |
| Stats.WiderBandKeepsMembers | london_black_income_map.py:174-177 | widening the band never unmarks an income |
| Stats.DefaultBandCanBeEmpty | london_black_income_map.py:174-177 | with incomes 1 and 2 the default 40..60 band marks neither |
| Filter.BlackShareThreshold | streamlit_app.py:74-81 | the threshold lies in [0, 1] and times 100 gives back the slider's percentage |
| Filter.IncomeThreshold | streamlit_app.py:88-98 | "Above Mean" uses the table's mean income; "Custom Value" uses the typed amount |
| Filter.HousingThreshold | streamlit_app.py:105-115 | "Below 65th Percentile" uses the table's 0.65 price quantile; "Custom Value" uses the typed amount |
| Filter.GlobalStats | streamlit_app.py:68 | the statistics of the joined table are the mean of its income column and the 0.65 quantile of its price column |
| Filter.SelectCriteria | streamlit_app.py:74-115 | the share threshold times 100 is the slider value, the income threshold is the mode's choice from the table's mean income, and the price ceiling is the mode's choice from the table's 0.65 price quantile |
| Filter.FilterMask | streamlit_app.py:119-123 | one entry per row, true exactly when share >= share threshold, income >= income threshold and price <= price ceiling |
| Filter.CountTrue | streamlit_app.py:125 | `mask.sum()` counts at most one per row |
| Filter.CountTrueIsTrueIndices | streamlit_app.py:125 | the displayed count is the number of positions where the mask is true |
| Filter.StricterCriteriaShrinkMask | streamlit_app.py:119-123 | raising the share or income threshold or lowering the ceiling never turns an entry true, and never raises the count |
| Filter.AllMatchCountsAll | streamlit_app.py:119-125 | when every row meets the criteria the count is the table size |
| Filter.ThreeAreaExample | streamlit_app.py:119-125 | areas (0.20, 50000, 300000), (0.05, 60000, 200000), (0.30, 40000, 500000) against 0.15, 45000, 400000 give mask [true, false, false] and count 1 |
| Filter.CurrentFilter | streamlit_app.py:83-125 | on an empty table a custom income or price raises ValueError (`int()` of the NaN column maximum), and otherwise the result is an empty mask with count 0; on any other table the mask is `FilterMask` under `SelectCriteria`: row i is true exactly when share times 100 reaches the slider value, income reaches the mode's income threshold and price is at most the mode's price ceiling; the count is the number of true positions |
| Filter.HigherIncomeFloorFindsFewer | streamlit_app.py:91-125 | typing a higher custom minimum income never increases the number of areas found |
| Filter.AboveMeanSomeIncomePasses | streamlit_app.py:88-89 | in Above Mean mode at least one area passes the income test |
| Filter.BelowPercentileSomePricePasses | streamlit_app.py:105-106 | in 65th percentile mode at least one area passes the price test |
| Filter.FlagColumn | streamlit_app.py:225 | `is_filtered` is 1 exactly when the mask is true and 0 exactly when it is false |
| Filter.FlagSumIsCount | streamlit_app.py:225 | the flags sum to the mask's count |
| Filter.StyleFor | streamlit_app.py:227-235 | a non-zero flag gives the highlighted style and zero the hidden one |
| Filter.StyleFollowsMask | streamlit_app.py:225-235 | a feature is highlighted (fill #00CCFF, black, weight 1, opacity 0.7) exactly when its mask entry is true, and hidden (transparent, weight 0, opacity 0) otherwise |

## Left out

- HTTP access to the census API: the retry loop with `2**attempt` back-off, pagination, and JSON decoding in download_census_data.py. Observations enter the model already decoded.
- File and archive I/O: CSV and Excel parsing, zip extraction, `gpd.read_file`, `check_data_files`, and the `main()` functions that write CSVs. Each loader is modelled from the moment its table is in memory. The income and housing sheets are rows with the cells the loaders read.
- Geometry is an opaque pass-through value.
- Map rendering: `make_map`, the choropleth layers, the legend HTML, `remove_folium_choropleth_legend`, the popups, the widgets, `st.cache_data` and logging. The logged counts are returned as values instead.
- IEEE floats. All arithmetic is exact `real`. NaN, infinity and float rounding are not modelled. A numeric cell is an `Option<real>`, so the string-to-number coercion is not modelled.
- CensusLocal.ProcessCensusData: rows come out in first-appearance order of their codes, while pandas' `groupby` sorts by code. The contract states the set of rows and each row's values but no order.
- Frames.GroupSum: emits groups in first-appearance order rather than pandas' sorted order, for the same reason.
- Strings.Lower: lower-cases ASCII letters only. Python's `str.lower` also folds non-ASCII letters.
- CensusApi.Truncate: takes the observation as an exact real, so a float value is truncated without rounding error. `int()` of a string, such as `int("12")`, is not modelled.
- Loaders.LoadBlackPopulation: requires a non-zero population. Dividing by zero in pandas gives infinity or NaN, and floats are outside the model.
- Stats.Mean: requires a non-empty column. pandas returns NaN for an empty column.
- Stats.Quantile: requires a non-empty column. pandas returns NaN for an empty column.
- Stats.CalculateGlobalStats: requires a non-empty table for the same reason. Filter.CurrentFilter handles the empty table separately, as the page does: either custom input raises ValueError, and otherwise the mask is empty with count 0.
- Filter.CurrentFilter: the custom income and price inputs are plain integers. The widget's own bounds (0 up to the column maximum, steps of 1000) are not modelled.
- Frames.LeftJoin: is a full relational join, so duplicate right-hand codes multiply rows as pandas does. Row order within one left row's matches is the right table's order.
- Join.JoinedAtMostSmallestTable: needs unique codes in every table. Without them a merge can multiply rows.
- No step of `process_census_data` rejects a result with zero areas. An empty input simply gives an empty table, and the model does the same.
- The column search in `_identify_msoa_columns` takes the first matching column and does not reject ambiguous columns. The model follows that.
- Boundaries.ProjectShapes: requires every feature to carry every listed column, which `read_file` guarantees. When one column is both the code and the name column, the rename keeps only the name. The model reports that case at the projection, as the `KeyError('msoa')` that the first merge raises later.
- The 65th percentile does not guarantee that 65% of areas are at or below it. `Stats.QuantileCoverage` states what the quantile does guarantee. `Stats.SixtyFifthPercentileExample` shows a case where only half the areas are at or below it.
