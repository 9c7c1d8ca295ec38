# EcoAQI core, modelled in Dafny

EcoAQI is a small air-quality dashboard. An offline script cleans two raw CSV tables
(ground-station AQI readings and weather readings) into a feature matrix X
(temperature, humidity, wind speed) and a target vector y. A linear model is trained on
them. A web page then predicts AQI for user inputs, maps the prediction to a category
with a health impact and an action, shows safety cards for the inputs, appends each
prediction to `aqi_history.csv`, and shows the records of one chosen date.

This project models the deterministic logic of that system:

- `aqi_logic.dfy` (module `AqiLogic`): the five AQI bands of `aqi_details` with inclusive
  upper bounds 50, 100, 200 and 300, their fixed category, emoji, impact and action texts,
  and the SAFE/UNSAFE check of the status cards with limits 35, 80 and 6.
- `action_recommendation.dfy` (module `ActionRecommendation`): `aqi_action`, with its own
  if/elif chain, proved to agree band for band with `aqi_details`.
- `column_names.dfy` (module `ColumnNames`): `str.lower`, `str.strip` and the substring
  test used on the CSV headers.
- `preprocessing.dfy` (module `Preprocessing`): the whole preprocessing script as a function
  `Preprocess` from two tables to a `Dataset` or an error. The two loops of the script
  (the first-match scan for the AQI column and the in-place synonym rename) are also
  written as methods with loop invariants, proved equal to the functions the pipeline uses.
- `history.dfy` (module `History`): the history file as a class `HistoryFile` whose methods
  create it and append one record per prediction, and the pure date filter and table view.
- `sequences.dfy` and `wrappers.dfy`: the order-preserving selection shared by `dropna`,
  `pd.to_numeric(errors="coerce")` with `dropna`, and boolean-mask filtering, and the
  `Option`/`Result` types.

Modelling choices:

- AQI and sensor values are `real`. Only comparisons are involved, so no floating point is needed.
- A table is a header plus rows of `Option` cells. `None` stands for NaN. A row shorter
  than the header reads as NaN in its missing cells, as `read_csv` pads it. The numeric
  parse of `pd.to_numeric` is a parameter `parse: string -> Option<real>`.
- Python's `str.strip()` is modelled with Python's full whitespace set.
- `round(x, 2)`, applied to the stored AQI and to the three card readings, is a parameter `round2: real -> real`. The clock is a `Timestamp`
  parameter whose calendar date is `DateOf`.
- The history file is held in memory. Reading it back with `read_csv` is taken to return
  exactly the records that were appended.

How the code behaves at its edges (the model follows the code):

- Feature width. After the rename, `weather_df[["temperature", "humidity", "wind_speed"]]`
  returns every column carrying one of those names. A weather file with both `temp` and
  `temperature` columns therefore yields a matrix with four columns, not three.
  `FeatureRowWidth` proves that rows have exactly three entries if and only if each
  required name occurs exactly once in the renamed header.
- Duplicate AQI names. When several station columns share the selected name,
  `aqi_df[aqi_col]` is a DataFrame and `.iloc[:, 0]` takes its first column. No column
  before the first match has that name (`FirstAqiColumn`), so the first column is the matched one.
- Fractional boundaries. The bands are intervals of reals, so 50.5 is Moderate. No value
  falls between the integer ranges 0–50 and 51–100.
- Rounding. The category, impact and action of a record come from the unrounded prediction.
  The stored AQI is the rounded one. `PredictionRecord` states this.

## Model

| member | source | states |
|---|---|---|
| `AqiLogic.BandOf` | app.py:65-74 | the band the if/elif chain picks is one whose interval holds the value |
| `AqiLogic.DetailsOf` | app.py:66-74 | each band's tuple carries the category label, the health-impact text and the action text at the band's rank in the five-entry lists of app.py:66-74 |
| `AqiLogic.AqiDetails` | app.py:64-74 | the category, impact and action `aqi_details` returns are the entries of the five-entry lists at the rank of the value's band, and the category is one of the five labels |
| `AqiLogic.ModerateExample` | app.py:67-68 | a predicted 85.0 gives Moderate, 🟡, "Minor discomfort to sensitive groups." and "Limit prolonged outdoor activity." |
| `AqiLogic.BandPartition` | app.py:64-74 | a value lies in band b's interval iff b is the band the chain picks, so the five bands form a total, non-overlapping partition of the reals |
| `AqiLogic.RankCountsBounds` | app.py:65-73 | the rank of the chosen band equals the number of the thresholds 50, 100, 200, 300 that the value strictly exceeds |
| `AqiLogic.CountBelowMonotone` | app.py:65-73 | the number of thresholds a value exceeds never decreases as the value grows |
| `AqiLogic.BandMonotone` | app.py:64-74 | a <= b implies rank(band(a)) <= rank(band(b)) |
| `AqiLogic.CategoryBoundaries` | app.py:64-74 | the category is one of the five labels, the one at its band's rank; v <= 50 gives Good, 50 < v <= 100 Moderate, 100 < v <= 200 Unhealthy, 200 < v <= 300 Very Unhealthy, v > 300 Hazardous, each as an iff |
| `AqiLogic.CategoryDeterminesDetails` | app.py:66-74 | two values share a category iff they share a band, and then they get the same emoji, impact and action |
| `AqiLogic.StatusOf` | app.py:76-77 | a card is safe iff its value does not exceed its limit |
| `AqiLogic.StatusLabel` | app.py:80 | the label is SAFE or UNSAFE, and SAFE exactly for a safe card |
| `AqiLogic.SafetyCards` | app.py:129-131 | the temperature, humidity and wind cards are SAFE iff the reading rounded to two decimals is at most 35, 80 and 6 respectively, and the label reads SAFE exactly for a safe card |
| `AqiLogic.StatusMonotone` | app.py:76-80 | a reading below a safe one is safe, and a reading above an unsafe one is unsafe |
| `ActionRecommendation.AqiAction` | src/action_recommendation.py:1-11 | the advice is always one of the five texts, namely the one at the rank of the band `aqi_details` chooses, so the two chains use the same thresholds |
| `ActionRecommendation.AdviceDistinct` | src/action_recommendation.py:3-11 | the five advice texts are pairwise different |
| `ActionRecommendation.ActionAgreesWithDetails` | src/action_recommendation.py:1-11 | two values get the same advice iff `aqi_details` puts them in the same band, iff it gives them the same category |
| `ActionRecommendation.ActionMonotone` | src/action_recommendation.py:2-11 | for a <= b, the advice for a stands no later in the severity order than the advice for b |
| `ActionRecommendation.ActionExamples` | src/action_recommendation.py:7-16 | 180 gives the Unhealthy advice of the sample; 300 gives the very-unhealthy advice; anything above 300 gives the hazardous advice |
| `ColumnNames.LowerChar` | src/preprocessing.py:15-16 | an upper-case letter becomes the lower-case letter at the same alphabet position, any other character is unchanged, the result is never upper case, and lowering neither creates nor removes whitespace |
| `ColumnNames.Lower` | src/preprocessing.py:15-16 | lowering keeps the length, replaces each upper-case letter by the lower-case letter at the same alphabet position, keeps every other character, and leaves no upper-case letter |
| `ColumnNames.LowerIgnoresCase` | src/preprocessing.py:15-16 | two names lower to the same string iff they agree character by character up to ASCII case |
| `ColumnNames.TrimStart` | src/preprocessing.py:15-16 | the result is a suffix of the input, everything dropped is whitespace, and the result does not start with whitespace |
| `ColumnNames.TrimEnd` | src/preprocessing.py:15-16 | the result is a prefix of the input, everything dropped is whitespace, and the result does not end with whitespace |
| `ColumnNames.Strip` | src/preprocessing.py:15-16 | the result is a contiguous part of the input with only whitespace cut from both ends, and it neither starts nor ends with whitespace |
| `ColumnNames.StripUnique` | src/preprocessing.py:15-16 | that description admits only one string, so it fully specifies `str.strip()` |
| `ColumnNames.NormaliseName` | src/preprocessing.py:15-16 | the normalised name is what `str.strip()` leaves of the lower-cased name |
| `ColumnNames.NormaliseIgnoresCase` | src/preprocessing.py:15-16 | names that agree up to ASCII case get the same normalised name |
| `ColumnNames.StripOfCut` | src/preprocessing.py:15-16 | any cut meeting the strip description is the result of `str.strip()` |
| `ColumnNames.NormaliseAqiExample` | src/preprocessing.py:15 | the header " AQI " normalises to "aqi" |
| `ColumnNames.NormaliseTempExample` | src/preprocessing.py:16 | the header " Temp " normalises to "temp" |
| `ColumnNames.NormalisedIsLower` | src/preprocessing.py:15-16 | a normalised name is the stripped lower-cased name and contains no upper-case letter |
| `ColumnNames.NormaliseIdempotent` | src/preprocessing.py:15-16 | normalising a normalised name changes nothing |
| `ColumnNames.NormaliseColumns` | src/preprocessing.py:15-16 | the normalised header has as many names as the input, each the normalised input name at the same position |
| `ColumnNames.NormaliseColumnsIdempotent` | src/preprocessing.py:15-16 | normalising the header twice gives the header normalised once |
| `ColumnNames.Contains` | src/preprocessing.py:25 | the empty pattern is in every string, a pattern is in itself, and a pattern found in a string is no longer than it |
| `ColumnNames.OccurrenceOfCut` | src/preprocessing.py:15-25 | an occurrence inside the stripped part is an occurrence in the whole name |
| `ColumnNames.OccurrenceInCut` | src/preprocessing.py:15-25 | an occurrence of a pattern without whitespace lies inside the stripped part |
| `ColumnNames.StripKeepsOccurrences` | src/preprocessing.py:15-25 | a non-empty pattern without whitespace is in the stripped name iff it is in the name |
| `ColumnNames.NormalisedContainsAqi` | src/preprocessing.py:15-25 | a normalised header name contains "aqi" iff the lower-cased name does, so surrounding whitespace never hides or creates a match |
| `Preprocessing.Cell` | src/preprocessing.py:34-38 | the cell of a row at a position inside the row is the row's entry there, and NaN past the end of a short row |
| `Preprocessing.FirstAqiColumnFrom` | src/preprocessing.py:23-27 | the result is the first position at or after the start whose name contains "aqi", or none when no position from there on has one |
| `Preprocessing.FirstAqiColumn` | src/preprocessing.py:23-30 | the selected column contains "aqi" and no earlier one does, so no earlier column has the same name either; there is no selection iff no column name contains "aqi" |
| `Preprocessing.FindAqiColumn` | src/preprocessing.py:23-27 | the scan loop with `break` returns the first index whose name contains "aqi", or none when no name does, and agrees with `FirstAqiColumn` |
| `Preprocessing.ColumnCells` | src/preprocessing.py:34-38 | the selected series has one entry per row, the row's cell in that column, NaN for a short row |
| `Preprocessing.ParseCell` | src/preprocessing.py:40 | a missing entry coerces to NaN, and a present one to whatever the numeric parse gives |
| `Preprocessing.CoerceNumeric` | src/preprocessing.py:40-41 | the coerced series is no longer than the input, and exactly as long when every entry parses |
| `Preprocessing.CoerceKeepsParsed` | src/preprocessing.py:40-41 | the output is the parsed values of exactly the entries that parse, in their original order |
| `Preprocessing.TargetsAreFixed` | src/preprocessing.py:46-53 | every synonym target is itself a key of `weather_map` that maps to itself |
| `Preprocessing.RenameColumn` | src/preprocessing.py:46-57 | a key of `weather_map` gets its mapped name, any other name is kept, and a name that is a key after renaming maps to itself |
| `Preprocessing.RenameColumns` | src/preprocessing.py:55-57 | renaming keeps the number of columns |
| `Preprocessing.RenameIdempotent` | src/preprocessing.py:46-57 | renaming an already renamed header changes nothing |
| `Preprocessing.RenameAll` | src/preprocessing.py:57 | one `rename` keeps the number of columns |
| `Preprocessing.RenameWeatherColumns` | src/preprocessing.py:55-57 | after the in-place rename loop, each column whose name is a key of `weather_map` carries the mapped name, every other column keeps its name, and the result equals `RenameColumns` |
| `Preprocessing.Positions` | src/preprocessing.py:60 | every listed position carries the requested name |
| `Preprocessing.PositionsComplete` | src/preprocessing.py:60 | every column carrying the name is listed |
| `Preprocessing.PositionsIncreasing` | src/preprocessing.py:60 | the positions are listed in header order |
| `Preprocessing.PresentIffOccurs` | src/preprocessing.py:59-60 | a name is in the header iff it occurs at least once |
| `Preprocessing.ProjectionPositions` | src/preprocessing.py:60 | the projected positions are all valid column positions |
| `Preprocessing.MissingNames` | src/preprocessing.py:59-60 | the list of missing required names is empty iff every required name is in the header |
| `Preprocessing.ProjectRow` | src/preprocessing.py:60 | a projected row has one cell per projected position, the row's cell there |
| `Preprocessing.CompleteRow` | src/preprocessing.py:60 | a row that survives `dropna` has one value per projected position |
| `Preprocessing.CompleteRowKeepsValues` | src/preprocessing.py:60 | a row survives `dropna` iff every projected cell is present, and then it becomes exactly those cells' values |
| `Preprocessing.SelectRequired` | src/preprocessing.py:59-60 | the projection fails iff a required column is absent, and then the error lists the absent names; otherwise at most as many rows are kept as there were |
| `Preprocessing.SelectRequiredKeepsCompleteRows` | src/preprocessing.py:59-60 | with the three required names in the header the projection succeeds, and the kept rows are exactly the rows with every projected cell present, in order, each reduced to its projected values |
| `Preprocessing.ProjectionWidth` | src/preprocessing.py:59-60 | the projection takes the temperature, humidity and wind_speed columns in that order, and gives three columns iff each of the three names occurs exactly once |
| `Preprocessing.Min` | src/preprocessing.py:63 | the minimum is at most both arguments and equals one of them |
| `Preprocessing.Align` | src/preprocessing.py:63-65 | both outputs have length min(len(y), len(X)), each is a prefix of its input, and one of them is its whole input |
| `Preprocessing.CleanTarget` | src/preprocessing.py:15-41 | the station side fails with the no-AQI-column error iff no normalised column name contains "aqi"; otherwise it has at most one value per row |
| `Preprocessing.WeatherColumns` | src/preprocessing.py:16-57 | the renamed weather header has as many names as the raw header |
| `Preprocessing.CleanFeatures` | src/preprocessing.py:44-60 | the cleaned weather side has at most as many rows as the raw table |
| `Preprocessing.Preprocess` | src/preprocessing.py:10-70 | on success X and y are equally long; the AQI-column error comes from the station side, and the missing-column error comes only when the station side succeeded and the weather side did not |
| `Preprocessing.PreprocessAligned` | src/preprocessing.py:63-65 | on success y and X have length min of the cleaned lengths, and each is a prefix of its cleaned side |
| `Preprocessing.FeatureRowWidth` | src/preprocessing.py:59-70 | every cleaned weather row has one entry per projected column, which is three iff each required name occurs exactly once |
| `Preprocessing.PreprocessShape` | src/preprocessing.py:63-70 | on success X and y are equally long and every row of X has the projection's width |
| `Preprocessing.CleanTargetKeepsAll` | src/preprocessing.py:40-41 | when every AQI entry parses, no station row is dropped |
| `Preprocessing.CleanFeaturesKeepsAll` | src/preprocessing.py:60 | a rectangular weather table without missing values loses no row |
| `Preprocessing.CleanInputsKeepAllRows` | src/preprocessing.py:40-65 | with N parseable station rows and M complete weather rows, the output has min(N, M) rows |
| `Sequences.FilterMap` | src/preprocessing.py:40-41 | the shared selection of `dropna` and of the date mask is never longer than its input, is as long when every entry is kept, and is empty iff no entry is kept |
| `Sequences.FilterMapSelects` | src/preprocessing.py:60 | the selection keeps exactly the entries the test accepts, with their values, in their original order |
| `Sequences.AllPresent` | src/preprocessing.py:60 | a row of cells yields its values iff no cell is missing, and then the values are the cells' contents |
| `History.DateOf` | app.py:187-197 | the calendar date of a timestamp is its date part |
| `History.PredictionRecord` | app.py:168-177 | the appended record holds the timestamp, the three inputs and the rounded AQI, with the category, impact and action `aqi_details` gives for the unrounded AQI |
| `History.HistoryFile.LineCount` | app.py:100-105 | the file has no lines iff it is absent; otherwise it has the header line plus one line per record |
| `History.HistoryFile.constructor` | app.py:100-101 | before the first run there is no file and no record |
| `History.HistoryFile.EnsureCreated` | app.py:100-105 | afterwards the file exists with header `Time,Temperature,Humidity,Wind Speed,AQI,Category,Health Impact,Action`; an existing file keeps its records; an absent one is created with no record, one line |
| `History.HistoryFile.RecordPrediction` | app.py:167-177 | the header is kept; the log becomes the old log plus exactly one record, that prediction's record, so earlier records are unchanged and the line count grows by one |
| `History.OnDate` | app.py:197 | the mask keeps a record iff its date is the selected one, and keeps it unchanged |
| `History.FilterByDate` | app.py:197 | the filtered table is no longer than the log, and it is empty iff no record has the selected date |
| `History.FilterByDateSelects` | app.py:197 | the filtered table is an order-preserving subsequence of the log holding exactly the records of the selected date |
| `History.FilterAfterAppend` | app.py:168-197 | appending a record extends the table of its own date by exactly that record and leaves every other date's table unchanged |
| `History.SelectedDate` | app.py:193-196 | the date shown is the user's choice, or by default the date of the last record |
| `History.HistoryView` | app.py:184-197 | no table is shown iff the log is empty; otherwise the table is the filter at the selected date |
| `History.DefaultViewShowsLatest` | app.py:193-197 | with the default date, that of the last record, the table is non-empty and ends with the latest record |

## Left out

- The Streamlit page (page setup, styling, sliders, buttons, the HTML of the cards, charts,
  download): presentation only.
- Training, evaluation and prediction (src/model.py, `model.predict` at app.py:146): library
  calls on floats. The prediction enters the model as an arbitrary `aqi: real`.
- Persistence (`joblib`, `np.save`, `read_csv`, `to_csv`) and the file system: the history
  file is an in-memory class, and the pipeline returns its arrays instead of writing them.
- `round(x, 2)` (of the AQI and of the three card readings), `datetime.now()` and
  `pd.to_datetime`: they are parameters (`round2`, `now`) and `DateOf`.
- src/explain.py (coefficient printing) and main.py (running the scripts in sequence) are
  not part of this model.
- Concurrent sessions appending at the same time are not modelled.
- ColumnNames.Lower: lowers only the ASCII letters A–Z. Python's `str.lower` also lowers other
  Unicode letters, and a few of them become two characters.
- Preprocessing.CoerceNumeric: which strings `pd.to_numeric` accepts is left to the `parse`
  parameter. A value that parses to NaN must be reported as `None` by `parse`.
- Preprocessing.Preprocess: infinite values are not modelled. `pd.to_numeric` turns "inf" and
  "-inf" into infinities, and `dropna` keeps them, as it keeps infinite weather readings.
  A `real` has no infinity, so the model covers inputs without infinite values only. A `parse`
  that answered `None` for them would drop rows the source keeps, and so shift the positional
  alignment of y against X.
- Preprocessing.CleanFeatures: weather cells are numbers or missing. A non-numeric weather
  string would make `to_numpy(dtype=float)` raise, and that error is not modelled.
- History.HistoryFile.RecordPrediction: requires that the file exists. The script creates
  it at the top of every run (app.py:101-105), before any append.
