# Air-quality forecasting core, modelled in Dafny

This project models the data pipeline and risk logic of an air-quality
forecasting system for Indian cities:

- the **normaliser** cleans raw per-source CSV files into one canonical table
  of `(city, date)` observations;
- the **feature builder** adds calendar features, per-city lag features and a
  trailing 7-row mean of `aqi`, then drops every incomplete row;
- three consumers prepare that feature table the same way: the **training
  script**, the **prediction service** and the **stand-alone prediction
  script**. Each sorts it by `(city, date)`, one-hot encodes the city with
  `drop_first`, drops the leakage columns and removes `aqi`;
- the **health-risk model** turns a predicted AQI into a category, a
  normalised risk score, an asthma-adjusted score and an advisory text;
- the **dashboard** has its own colour and label helpers for an AQI.

One module per source file, plus shared modules:

| module | file | models |
|---|---|---|
| `Wrappers` | wrappers.dfy | `Option` and `Result` |
| `Strings` | strings.dfy | Python's string order, `Distinct`, `unique()` in order of appearance |
| `Table` | table.dfy | the canonical `Record`, the `(city, date)` key, `sort_values` as a stable insertion sort, subsequences |
| `Calendar` | calendar.dfy | the proleptic Gregorian calendar on day numbers (`.dt.month`, `.dt.dayofweek`, `.dt.dayofyear`) |
| `RiskModel` | risk_model.dfy | `HealthRiskModel` |
| `Assessment` | assessment.dfy | the result composition shared by the service and the script, with `round(x, 2)` |
| `CleanAndMerge` | clean_and_merge.dfy | `clean_single_file` and `merge_all_files` |
| `BuildFeatures` | build_features.dfy | `create_time_features`, `create_lag_features`, `create_rolling_features`, `main` |
| `Encoding` | encoding.dfy | `get_dummies(drop_first=True)`, column drops, row masks, the model-input layout |
| `Train` | train.dfy | the training script's preprocessing |
| `Predictor` | predictor.dfy | the service's setup and `predict_latest` |
| `PredictPipeline` | predict_pipeline.dfy | the stand-alone prediction script |
| `Consistency` | consistency.dfy | training, service and script agree on the model-input layout |
| `Frontend` | frontend.dfy | `getAQIColor` and `getCategory` of the dashboard |

How the model represents things:

- **Dates** are day numbers since 1970-01-01.
- **Missing values** (pandas NaN) are `None`.
- **Data frames** are an ordered list of columns and a sequence of rows. Each
  row is a map from columns to cells.
- **Column names** form the datatype `Encoding.Col`. `Encoding.Name` gives
  each column's pandas name.
- **The regressor** is a function `Frame -> real`, and nothing is assumed
  about it.

The feature builder's `create_*` functions write columns into the frame they
are given. They are modelled as methods over an `array` of feature rows. Each
method is proved to fill in the values that the pure functions `GroupShift`
and `GroupRolling` define. `merge_all_files` is a method whose loop builds the
list of cleaned files. Everything else is functions and lemmas, as in the
source.

## Model

| member | source | states |
|---|---|---|
| RiskModel.FindCategory | models/health_risk/risk_model.py:13-17 | "Unknown" when no band holds the AQI; otherwise the label of the first band in list order that holds it |
| RiskModel.GetCategory | models/health_risk/risk_model.py:13-17 | `get_category` over the six bands; `GetCategoryIff`, `GetCategoryUnknownIff` and `IntegerCoverage` establish that it is a band's label exactly when the AQI lies in that band, and "Unknown" exactly outside all bands |
| RiskModel.BandsDisjoint | models/health_risk/risk_model.py:4-11 | no real AQI lies in two bands |
| RiskModel.LabelsDistinct | models/health_risk/risk_model.py:4-11 | the six labels differ from each other and from "Unknown" |
| RiskModel.GetCategoryIff | models/health_risk/risk_model.py:13-17 | `get_category` returns band i's label exactly when the AQI lies in band i's closed interval |
| RiskModel.CoveredIff | models/health_risk/risk_model.py:4-11 | an AQI lies in some band exactly when it is in [0,50], [51,100], [101,200], [201,300], [301,400] or [401,1000] |
| RiskModel.GetCategoryUnknownIff | models/health_risk/risk_model.py:13-17 | "Unknown" exactly for AQI < 0, AQI > 1000, and the open gaps between consecutive bands |
| RiskModel.IntegerCoverage | models/health_risk/risk_model.py:4-17 | every integer AQI in [0, 1000] lies in exactly one band and never gets "Unknown" |
| RiskModel.CategoryExamples | models/health_risk/risk_model.py:13-17 | 0 and 50 give "Low", 51 "Moderate", 180 "Unhealthy for Sensitive Groups", 245 "Poor", 1000 "Severe" |
| RiskModel.UnknownExamples | models/health_risk/risk_model.py:13-17 | -1, 1001, 50.5 and 100.5 give "Unknown" |
| RiskModel.GetRiskScore | models/health_risk/risk_model.py:19-22 | the score never exceeds 1; it is 1 for AQI >= 500, AQI/500 for AQI <= 500, and non-negative for a non-negative AQI |
| RiskModel.RiskScoreMonotone | models/health_risk/risk_model.py:19-22 | a higher AQI never gets a lower score |
| RiskModel.Weight | models/health_risk/risk_model.py:27-34 | every group's weight, the 1.0 default included, is at least 1 |
| RiskModel.PopulationAdjustedRisk | models/health_risk/risk_model.py:24-37 | the adjusted risk never exceeds 1; it equals score times weight when that product is at most 1, and is 1 otherwise |
| RiskModel.UnknownGroupIsBase | models/health_risk/risk_model.py:34 | an unrecognised group, like the default "general", gets exactly the base score |
| RiskModel.GroupOrdering | models/health_risk/risk_model.py:27-35 | for AQI >= 0: base <= general <= children <= elderly <= asthma |
| RiskModel.BandLabels | models/health_risk/risk_model.py:4-11 | a string is a band label exactly when some band carries it |
| RiskModel.CategoryIsLabel | models/health_risk/risk_model.py:13-17 | a category is a band label exactly when it is not "Unknown" |
| RiskModel.AdvisoryFallback | models/health_risk/risk_model.py:39-49 | the fallback "No advisory available." comes back exactly for strings that are not band labels, "Unknown" among them |
| RiskModel.AdvisoryDistinct | models/health_risk/risk_model.py:39-49 | different band labels get different advice |
| RiskModel.AdvisoryMessage | models/health_risk/risk_model.py:39-49 | `advisory_message`; `AdvisoryFallback` and `AdvisoryDistinct` establish one distinct fixed text per band label and the fallback text for every other string |
| RiskModel.WorkedExample | models/health_risk/risk_model.py:54-59 | AQI 245: "Poor", score 0.49, asthma risk 0.735, the "Poor" advice |
| Assessment.Round2 | backend/services/predictor.py:57-60 | the result has at most two decimals and lies within 0.005 of the input |
| Assessment.RoundHalfEven | backend/services/predictor.py:57-60 | the result is an integer within 0.5 of the input, its floor or one above |
| Assessment.Round2Nearest | backend/services/predictor.py:57-60 | no multiple of 0.01 is closer to the input than the rounded value |
| Assessment.Round2Exact | backend/services/predictor.py:57-60 | a value with at most two decimals is unchanged |
| Assessment.Round2Monotone | backend/services/predictor.py:57-60 | rounding never reverses an order |
| Assessment.Round2Tie | models/health_risk/risk_model.py:64 | 0.735 is a tie and, on exact decimals, rounds to the even 0.74 |
| Assessment.AssessScores | backend/services/predictor.py:51-62 | the rounded risk and asthma risk are at most 1; for AQI >= 0 they satisfy 0 <= risk <= asthma risk |
| Assessment.AssessAdvisory | backend/services/predictor.py:51-62 | the category is "Unknown" exactly when the AQI is in no band, which is exactly when the advisory is the fallback text |
| Assessment.Assess | backend/services/predictor.py:51-62 | the response of one prediction; `AssessScores`, `AssessAdvisory` and `Forecast180` establish that the scores are in [0, 1] and ordered, that category and advisory agree on "Unknown", and the full response of a worked input |
| Assessment.Forecast180 | backend/services/predictor.py:51-62 | the full result for a prediction of 180 |
| Assessment.Forecast245 | models/predict_pipeline.py:37-45 | the full result for a prediction of 245 |
| Calendar.YearOrdinalFrom | features/build_features.py:9-11 | the year and zero-based day-in-year found for a day number add back up to that day |
| Calendar.Ordinal | features/build_features.py:11 | the day within the year lies in [0, days in year) and adds back to the day number |
| Calendar.MonthOf | features/build_features.py:9 | the month lies in 1..12 and its first day is at or before the given day, which comes before the next month's first day |
| Calendar.Month | features/build_features.py:9 | `.dt.month` lies in 1..12 |
| Calendar.DayOfMonth | features/build_features.py:9 | the day of the month lies between 1 and the month's length |
| Calendar.DayOfWeek | features/build_features.py:10 | `.dt.dayofweek` lies in 0..6 |
| Calendar.DayOfWeekNext | features/build_features.py:10 | consecutive days have consecutive weekdays, modulo 7 |
| Calendar.DayOfYear | features/build_features.py:11 | `.dt.dayofyear` lies in 1..366, and is 366 only in a leap year |
| Calendar.CivilRoundTrip | features/build_features.py:9-11 | day number to calendar date and back is the identity |
| Calendar.CivilFromDays | features/build_features.py:9-11 | calendar date to day number and back is the identity on valid dates |
| Calendar.EpochDate | features/build_features.py:9-11 | day 0 is Thursday 1970-01-01, day 1 of its year |
| Calendar.DayBeforeEpoch | features/build_features.py:9-11 | day -1 is Wednesday 1969-12-31, day 365 of its year |
| Table.SortBy | features/build_features.py:39 | the sorted table is a permutation of its input |
| Table.SortSorted | features/build_features.py:39 | the sorted table is in non-decreasing `(city, date)` order |
| Table.SortStable | backend/services/predictor.py:14 | rows with equal keys keep their input order |
| Table.SortOfSorted | features/clean_and_merge.py:51 | sorting a sorted table changes nothing |
| Table.Contiguous | backend/services/predictor.py:14 | in a sorted table the rows of one city are contiguous |
| Strings.Unique | backend/services/predictor.py:29 | `unique()` yields each value once and holds exactly the values of its input |
| Strings.UniqueOfSortedIsStrictlySorted | backend/services/predictor.py:29 | `unique()` of a sorted column is strictly increasing |
| CleanAndMerge.StripStart | features/clean_and_merge.py:18 | the result is a suffix of the input with no leading whitespace; everything removed is whitespace |
| CleanAndMerge.StripEnd | features/clean_and_merge.py:18 | the result is a prefix of the input with no trailing whitespace; everything removed is whitespace |
| CleanAndMerge.StripSlice | features/clean_and_merge.py:18 | `strip()` gives a slice of the name with no whitespace at either end |
| CleanAndMerge.Lower | features/clean_and_merge.py:19 | each character is lowered in place and the length is unchanged |
| CleanAndMerge.LowerCharFacts | features/clean_and_merge.py:19 | a lowered character is never a capital; it is a dot or whitespace exactly when the original was |
| CleanAndMerge.RemoveCharMembers | features/clean_and_merge.py:20 | the result holds exactly the other characters of the name |
| CleanAndMerge.RemoveOne | features/clean_and_merge.py:20 | removing the only `.` joins the parts on either side |
| CleanAndMerge.ReplaceChar | features/clean_and_merge.py:21 | each `' '` becomes `'_'` in place and nothing else changes |
| CleanAndMerge.CleanHeader | features/clean_and_merge.py:16-22 | every column name is cleaned, in place |
| CleanAndMerge.CleanName | features/clean_and_merge.py:16-22 | one column name's normalisation; `CleanNameShape`, `CleanNameTrimmed` and `Pm25Name` establish no `.`, space or capital, no edge whitespace for a dot-free name, and `"PM2.5"` to `"pm25"` |
| CleanAndMerge.CleanNameShape | features/clean_and_merge.py:16-22 | a cleaned name holds no `.`, no space and no ASCII capital |
| CleanAndMerge.CleanNameTrimmed | features/clean_and_merge.py:16-22 | a name without `.` cleans to one with no whitespace at either end |
| CleanAndMerge.DotExposesSpace | features/clean_and_merge.py:18-20 | `".\tx"` cleans to `"\tx"`, which starts with whitespace |
| CleanAndMerge.Pm25Name | features/clean_and_merge.py:16-22 | `"PM2.5"` cleans to `"pm25"` |
| CleanAndMerge.RenameNeverFires | features/clean_and_merge.py:24-25 | no cleaned header holds `"pm2.5"`, so the rename never changes it |
| CleanAndMerge.ParseDatesMembers | features/clean_and_merge.py:27-29 | a row survives exactly when its date text parses, and it then carries the parsed date |
| CleanAndMerge.DropDuplicatesKeys | features/clean_and_merge.py:30 | de-duplication keeps every `(city, date)` key and adds none |
| CleanAndMerge.DropDuplicatesUnique | features/clean_and_merge.py:30 | after de-duplication no two rows share a key |
| CleanAndMerge.DropDuplicatesFirst | features/clean_and_merge.py:30 | a row is kept exactly when it is the first of its key in file order |
| CleanAndMerge.DropDuplicatesSubseq | features/clean_and_merge.py:30 | de-duplication keeps the file order |
| CleanAndMerge.DropMissingAqiMembers | features/clean_and_merge.py:33 | a row survives exactly when it carries `aqi` |
| CleanAndMerge.DropMissingAqiSubseq | features/clean_and_merge.py:33 | the `aqi` filter keeps the row order |
| CleanAndMerge.PermutationUniqueKeys | features/clean_and_merge.py:31 | reordering rows keeps their keys distinct |
| CleanAndMerge.CleanedFile | features/clean_and_merge.py:27-34 | a cleaned file is sorted by `(city, date)`, has one row per key and carries `aqi` in every row |
| CleanAndMerge.CleanedRows | features/clean_and_merge.py:27-34 | the rows of a cleaned file are exactly the parsed rows that are first of their key and carry `aqi` |
| CleanAndMerge.CleanSingleFile | features/clean_and_merge.py:27-34 | the row part of `clean_single_file`; `CleanedFile` and `CleanedRows` establish a sorted, key-unique, `aqi`-complete output made of exactly the first parsed rows of each key that carry `aqi` |
| CleanAndMerge.FirstRowDecides | features/clean_and_merge.py:30-33 | when the first row of a key lacks `aqi`, the key disappears even if a later duplicate has it |
| CleanAndMerge.CleanAll | features/clean_and_merge.py:43-46 | one cleaned file per input file, in order |
| CleanAndMerge.MergeAllFiles | features/clean_and_merge.py:36-53 | the loop's result is the merge of the cleaned files, or the error when there are none |
| CleanAndMerge.ConcatMembers | features/clean_and_merge.py:48 | the concatenation holds exactly the rows of its parts |
| CleanAndMerge.MergeRaisesIffEmpty | features/clean_and_merge.py:39-40 | the merge fails exactly when there is no file, with the source's message |
| CleanAndMerge.MergedTable | features/clean_and_merge.py:48-51 | the merged table is sorted by `(city, date)`, carries `aqi` in every row, and holds exactly the rows of the cleaned files |
| CleanAndMerge.Merged | features/clean_and_merge.py:36-53 | `merge_all_files`; `MergeRaisesIffEmpty`, `MergedTable` and `MergeKeepsDuplicates` establish the error exactly on no file, a sorted output holding exactly the cleaned files' rows, and no de-duplication across files |
| CleanAndMerge.ConcatCount | features/clean_and_merge.py:48 | a row present in two parts occurs twice in the concatenation |
| CleanAndMerge.MergeKeepsDuplicates | features/clean_and_merge.py:48-51 | a row that two cleaned files share appears twice in the merged table, so its keys are not unique |
| BuildFeatures.WithTime | features/build_features.py:8-12 | month in 1..12, day of week in 0..6 and day of year in 1..366, from the row's own date, with the record unchanged |
| BuildFeatures.CreateTimeFeatures | features/build_features.py:8-12 | each row of the array gets the time features of its own date |
| BuildFeatures.ShiftIsPositional | features/build_features.py:18-20 | on the sorted table, lag k of row i is the value of row i - k when that row has the same city, otherwise missing; the first k rows of each city get no lag |
| BuildFeatures.ShiftFromSameCity | features/build_features.py:19-20 | in any row order, a lag value comes from an earlier row of the same city |
| BuildFeatures.PositionalNotCalendar | features/build_features.py:19 | with a five-day gap, lag 1 is the previous observation |
| BuildFeatures.NoLagAcrossCities | features/build_features.py:19 | a city's first row gets no lag from the city before it |
| BuildFeatures.GroupShift | features/build_features.py:19-20 | `groupby("city").shift(k)` at one row; `ShiftIsPositional` and `ShiftFromSameCity` establish the value of the row k positions earlier in the same city, or missing |
| BuildFeatures.ShiftColumn | features/build_features.py:19-20 | the grouped shift, computed in one pass that keeps each city's rows seen so far, equals the per-city shift at every row |
| BuildFeatures.AssignLag | features/build_features.py:19-20 | the lag-k columns are written in place from the shifted columns |
| BuildFeatures.CreateLagFeatures | features/build_features.py:15-22 | after the loop over lags 1, 3 and 7, every row carries its six lag values |
| BuildFeatures.LagsThroughAll | features/build_features.py:18-20 | the three passes together set all six lag columns |
| BuildFeatures.AqiSum | features/build_features.py:29 | the window sum is defined exactly when every row in it carries `aqi` |
| BuildFeatures.RollingIsTrailingWindow | features/build_features.py:25-31 | on the sorted table, the rolling value of row i is the mean over rows i-6..i when they all belong to i's city, otherwise missing |
| BuildFeatures.RollingColumn | features/build_features.py:26-31 | the grouped rolling mean, computed in one pass, equals the per-city rolling mean at every row |
| BuildFeatures.WindowOfGroup | features/build_features.py:27-29 | the mean read from the city's rows seen so far is the rolling mean of row i |
| BuildFeatures.GroupRolling | features/build_features.py:26-31 | `groupby("city").rolling(7).mean()` at one row; `RollingIsTrailingWindow` establishes the mean of rows i-6..i when they are all of i's city, otherwise missing |
| BuildFeatures.CreateRollingFeatures | features/build_features.py:25-33 | each row gets the rolling mean of its own position, aligned back by index |
| BuildFeatures.DropNa | features/build_features.py:46 | a row is in the output exactly when it is an input row with no missing column, and the input order is kept |
| BuildFeatures.DropNaCount | features/build_features.py:46 | every occurrence of a complete row is kept and no occurrence of an incomplete one, so the output is exactly the complete rows in order |
| BuildFeatures.SurvivorHasHistory | features/build_features.py:19-20 | a row that survives `dropna()` has at least 7 earlier rows of its city, which are the 7 rows just before it |
| BuildFeatures.FeatureTableShape | features/build_features.py:39-46 | the builder adds no rows; its output is a subsequence of the derived sorted input, complete, sorted, and made of the input's records; every complete derived row is kept |
| BuildFeatures.Featurize | features/build_features.py:41-43 | one derived row per sorted row; `FeaturizeSorted` establishes that it keeps the sorted order |
| BuildFeatures.FeatureTable | features/build_features.py:39-46 | what `main` writes; `FeatureTableShape` and `SurvivorHasHistory` establish a complete, sorted subsequence of the derived rows that keeps every complete one, each survivor with 7 earlier rows of its city |
| BuildFeatures.BuildFeatures | features/build_features.py:36-46 | sort, the three `create_*` steps in place and `dropna()` produce the specified feature table |
| Encoding.NamePrefix | backend/services/predictor.py:42 | a column name starts with `city_` exactly when the column is an indicator |
| Encoding.CitiesMembers | backend/services/predictor.py:15 | a city is in the sorted city column exactly when some table row has it |
| Encoding.CategoriesFacts | backend/services/predictor.py:15 | the categories are the table's distinct cities in strictly increasing order; the first is the smallest city |
| Encoding.CategoriesOfSorted | backend/services/predictor.py:14-15 | sorting first does not change the categories |
| Encoding.UniqueIsCategories | backend/services/predictor.py:29 | on a sorted table, `unique()` of the city column lists the categories |
| Encoding.DummyColumns | backend/services/predictor.py:15 | one indicator per category except the first (`drop_first`), in category order |
| Encoding.PreparedColumns | backend/services/predictor.py:15-27 | dropping the leakage columns leaves `aqi`, then the derived columns, then the indicators |
| Encoding.InputColumnsAfterDrops | models/xgboost/train.py:36-39 | dropping the leakage columns and then `aqi` yields the model-input layout |
| Encoding.InputColumnsClean | backend/services/predictor.py:17-27 | no model-input column is `aqi` or a leakage column, and its `city_` columns are exactly the indicators |
| Encoding.ReferenceIndicator | backend/services/predictor.py:37-40 | a category has an indicator column exactly when it is not the first category |
| Encoding.IndicatorsOfRow | backend/services/predictor.py:15 | an encoded row sets exactly its own city's indicator; no indicator is set exactly on rows of the first category |
| Encoding.IndicatorCell | backend/services/predictor.py:45 | in a prepared row, a non-first category's indicator is set exactly when the row is of that city |
| Encoding.NoIndicatorCell | backend/services/predictor.py:41-42 | a prepared row has no `city_` cell set exactly when it is of the first category |
| Encoding.EncodeRowBase | backend/services/predictor.py:15 | the non-city cells of an encoded row are the row's own values |
| Encoding.EncodeRowKeys | backend/services/predictor.py:15 | an encoded row has a cell for every non-city column and every indicator |
| Encoding.GetDummiesWellFormed | backend/services/predictor.py:15 | the encoded frame has distinct columns, one row per table row, and every row holds exactly the frame's columns |
| Encoding.GetDummies | backend/services/predictor.py:15 | `get_dummies(drop_first=True)`; `GetDummiesWellFormed`, `IndicatorsOfRow` and `EncodeRowBase` establish a well-formed frame, one row per input row, each row's own values and its own city's indicator only |
| Encoding.Prepared | backend/services/predictor.py:13-27 | the sorted, encoded, leakage-free frame; `Predictor.PreparedShape` and `Predictor.PreparedRows` establish columns `aqi` then the model-input layout, and row i the encoded i-th sorted row |
| Encoding.DropWellFormed | backend/services/predictor.py:27 | dropping columns keeps a frame well formed |
| Encoding.Restrict | backend/services/predictor.py:27 | a row without the dropped columns keeps every other cell unchanged |
| Encoding.FilterRows | models/xgboost/train.py:22-23 | a boolean mask keeps exactly the rows that pass |
| Encoding.CityColumns | backend/services/predictor.py:42 | the list comprehension keeps exactly the columns whose name starts with `city_` |
| Train.RowsBefore | models/xgboost/train.py:22 | the training rows are exactly the rows dated before the split date |
| Train.RowsFrom | models/xgboost/train.py:23 | the test rows are exactly the rows dated on or after the split date |
| Train.SplitPartition | models/xgboost/train.py:22-23 | together the two parts hold every row exactly as often as the table does |
| Train.SplitKeepsOrder | models/xgboost/train.py:22-23 | each part is a subsequence of the table |
| Train.SplitDates | models/xgboost/train.py:22-23 | every training date is strictly before every test date, and both parts of a sorted table are sorted |
| Train.FilterEncoded | models/xgboost/train.py:18-23 | masking the encoded rows by date encodes the rows of that side |
| Train.PreprocessRows | models/xgboost/train.py:14-43 | `X_train` and `X_test` have the model-input layout, one input per row of their side; `y_train` and `y_test` are those rows' `aqi` values, row-aligned |
| Train.InputsHaveNoLeakage | models/xgboost/train.py:26-43 | no training or test input holds `aqi` or a leakage column, as a column or as a cell |
| Train.EachRowOnce | models/xgboost/train.py:22-23 | each row lands in training exactly when dated before the split date, and in test otherwise |
| Train.Preprocess | models/xgboost/train.py:14-43 | the training preprocessing; `PreprocessRows`, `InputsHaveNoLeakage` and `SplitDates` establish the model-input layout, row-aligned targets, no leakage, and a date split |
| Predictor.LastIndex | backend/services/predictor.py:41-45 | `.iloc[-1:]` of a masked frame picks the last row that passes, or none when no row passes |
| Predictor.Load | backend/services/predictor.py:13-29 | the module-level setup; `LoadedCities` and `LoadIsLoadedFrom` establish that the city list equals the categories, the frame is the prepared table, and the model is the one given |
| Predictor.PredictLatest | backend/services/predictor.py:32-62 | `predict_latest`; `UnknownCity`, `KnownCityAnswers` and `LatestRow` establish the error dictionary exactly for unknown cities and, for a known city, the answer from its latest row |
| Predictor.UnknownCity | backend/services/predictor.py:34-35 | an unknown city gets an error dictionary that starts with the fixed message and quotes every available city; the model is not used |
| Predictor.ListMessage | backend/services/predictor.py:35 | the message starts with its prefix and contains every listed city in quotes |
| Predictor.LoadedCities | backend/services/predictor.py:13-29 | the service's city list is the categories; the prepared frame has `aqi` then the model-input columns, and one row per table row |
| Predictor.ReferenceBranch | backend/services/predictor.py:37-40 | for a known city, the no-indicator branch is taken exactly when it is the first city in the list, the lexicographically smallest of the table |
| Predictor.SelectorMatchesCity | backend/services/predictor.py:40-45 | for a known city, a prepared row passes the mask exactly when its row in the sorted table is of that city |
| Predictor.LastOfCity | backend/services/predictor.py:40-45 | for a known city, the mask selects a row, and it is the city's last row in the sorted table |
| Predictor.LastIsLatest | backend/services/predictor.py:14 | the last row of a city in the sorted table carries the city's latest date |
| Predictor.LatestRow | backend/services/predictor.py:32-62 | for a known city the answer scores the city's last, latest-dated row, given to the model in the training layout |
| Predictor.DropTargetOfPrepared | backend/services/predictor.py:47 | dropping `aqi` from a prepared row leaves that row's model input |
| Predictor.InputHasNoLeakage | backend/services/predictor.py:47 | the model input holds neither `aqi` nor a leakage column |
| Predictor.KnownCityAnswers | backend/services/predictor.py:32-62 | a known city never makes `predict_latest` raise; it is answered from the city's latest row |
| PredictPipeline.SampleColumns | models/predict_pipeline.py:10-32 | the sample has the model-input columns, and one row exactly when the table is non-empty |
| PredictPipeline.SampleIsLastRow | models/predict_pipeline.py:11-32 | the sample is the model input of the last row of the sorted table |
| PredictPipeline.LastRowIsGreatest | models/predict_pipeline.py:11-32 | that last row belongs to the lexicographically greatest city and carries that city's latest date |
| PredictPipeline.SampleHasNoLeakage | models/predict_pipeline.py:16-32 | the sample holds neither `aqi` nor a leakage column |
| PredictPipeline.PipelineRaisesIffEmpty | models/predict_pipeline.py:32-33 | the script fails exactly on an empty table |
| PredictPipeline.RunPipeline | models/predict_pipeline.py:10-40 | the script; `PipelineRaisesIffEmpty` and `PipelineIsServiceForLastCity` establish failure exactly on an empty table and otherwise the service's answer for the last row's city |
| PredictPipeline.PipelineIsServiceForLastCity | models/predict_pipeline.py:32-40 | on a non-empty table, the script's result is what `predict_latest` answers for the last row's city: the same input and the same assessment |
| Consistency.FeatureInputKeys | models/xgboost/train.py:39 | a model-input row holds exactly the cells of the model-input columns |
| Consistency.TrainServeLayout | models/xgboost/train.py:14-39 | on the same table, `X_test` has the columns of `X_train` in the same order, and the service feeds the model the city's latest row in that layout |
| Consistency.PipelineTrainLayout | models/predict_pipeline.py:10-32 | on the same table, the script's sample has the columns of `X_train` in the same order |
| Consistency.InputRowsMatchLayout | models/xgboost/train.py:39-42 | every row of `X_train`, `X_test` and the script's sample holds exactly the layout's columns |
| Frontend.BandIndex | frontend/src/App.jsx:44-60 | the band index lies in 0..5; every threshold below it is exceeded, and the value is at most the band's own threshold |
| Frontend.GetAQIColor | frontend/src/App.jsx:44-51 | `getAQIColor`; `HelpersAgree` and `BandIndexMonotone` establish the colour of the band index, monotone in the AQI |
| Frontend.GetCategory | frontend/src/App.jsx:53-60 | `getCategory`; `HelpersAgree`, `CategoryTotal` and `Boundaries` establish the label of the same band index, total, with inclusive upper bounds |
| Frontend.HelpersAgree | frontend/src/App.jsx:44-60 | colour and label are read from the same band index for every AQI |
| Frontend.BandIndexMonotone | frontend/src/App.jsx:44-60 | a higher AQI never gets a lower band |
| Frontend.CategoryTotal | frontend/src/App.jsx:53-60 | every number gets one of the six labels and never "Unknown" |
| Frontend.Boundaries | frontend/src/App.jsx:53-60 | "Good" exactly at or below 50, negatives included; "Severe" exactly above 400, beyond 1000 included; 50.5 is "Moderate" |
| Frontend.AgreesWithBackendOnIntegers | frontend/src/App.jsx:53-60 | on integers in [0, 1000], the dashboard's band index is the backend band that holds the value |
| Frontend.DiffersFromBackendInGaps | frontend/src/App.jsx:53-60 | 50.5, 1200 and -5 get a dashboard label while the backend gives "Unknown" |

## Left out

- Reading and writing CSV files, `glob`, `os.makedirs`, the prints and the
  module-level script at features/clean_and_merge.py:72-78 are I/O. The
  cleaned and merged tables are return values.
- `dropna(axis=1, how="all")` (features/clean_and_merge.py:13) is not
  modelled. It acts on the untyped raw columns. The model starts from raw
  rows whose fields are already named, so the mapping from CSV cells to
  `RawRecord` fields is also not modelled. The model therefore does not
  capture these error paths: a raw file without a `city`, `date` or `aqi`
  column raises `KeyError`; an all-empty `aqi` column is removed at line 13,
  after which line 33 raises; `drop(columns=...)` raises when a pollutant
  column is absent (backend/services/predictor.py:27,
  models/xgboost/train.py:36-37, models/predict_pipeline.py:26); and a
  missing city cannot be represented, since `RawRecord.city` is a string.
- Date parsing with `%d/%m/%y` is a parameter `parse: string -> Option<Date>`.
  `None` stands for a date that does not parse.
- `CleanAndMerge.Lower`: lowers only ASCII capitals, not all of Unicode.
  `IsSpace` is Python's whitespace set for `strip()`.
- `CleanAndMerge.CleanNameTrimmed`: holds only for names without `.`.
  Removing a dot after `strip()` can expose whitespace, as
  `DotExposesSpace` shows for `".\tx"`. The unconditional claim is false.
- The regressor (`joblib.load`, `XGBRegressor`, `predict`) is an
  uninterpreted function `Frame -> real`. Fitting, mlflow logging, the
  metrics and saving the model are left out as foreign calls.
- The split date `df["date"].quantile(0.8)` (models/xgboost/train.py:20) is
  a parameter of `Train.Preprocess`.
- `Assessment.Round2`: rounds the exact decimal value half-to-even, not
  the binary float. Python rounds the float 0.735 to 0.73 because that
  float lies just below 0.735, while the model gives 0.74 (`Round2Tie`).
  Floating point and NaN arithmetic are not modelled. A prediction is an
  exact real, and a missing value is `None`.
- `Predictor.Quote`: renders a city as `'city'`. This is Python's `repr`
  only for names without quotes or backslashes.
- The service's state is a value built once by `Predictor.Load` and only
  read afterwards. `PredictLatest` is a function of it, so it cannot change
  the frame, the city list or the model.
- `Predictor.PredictLatest` has a `Raises` result for a selection that
  finds no row. `KnownCityAnswers` proves that a loaded service never
  returns it.
- The sort is a stable insertion sort. It agrees with pandas' default sort
  on the order of every key. Among rows with equal `(city, date)` it keeps
  input order, which pandas does not promise.
- The calendar features use a proleptic Gregorian calendar on day numbers.
  pandas' own date range limits are not modelled.
- models/xgboost/explain.py, backend/main.py and the React side of
  App.jsx (state, fetch, charts) are not part of this model. The dashboard
  calls `/forecast7/{city}`, which the backend does not serve.
- The canonical table is described as unique on `(city, date)`. The code
  de-duplicates only within each file, and `merge_all_files` never
  de-duplicates across files. The model follows the code, and
  `MergeKeepsDuplicates` states the consequence.
