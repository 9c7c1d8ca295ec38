/** The preprocessing pipeline of src/preprocessing.py: from the raw station and weather
    tables to the feature matrix X (temperature, humidity, wind speed) and the AQI target y. */
module Preprocessing {
  import opened Wrappers
  import opened Sequences
  import opened ColumnNames

  /** A table as pandas reads it from CSV: the header and the rows of cells.
      None marks a missing value (NaN). */
  datatype Table<T> = Table(columns: seq<string>, rows: seq<seq<Option<T>>>)

  /** Cell k of a row; a row shorter than the header reads as missing there. */
  function Cell<T>(row: seq<Option<T>>, k: nat): (c: Option<T>)
    ensures k < |row| ==> c == row[k]
    ensures k >= |row| ==> c.None?
  {
    if k < |row| then row[k] else None
  }

  /** The two errors the pipeline raises. */
  datatype PreprocessError =
    | NoAqiColumn                        // ValueError: no column name contains "aqi"
    | MissingColumns(names: seq<string>) // KeyError: required weather columns absent

  const AQI_MARKER: string := "aqi"

  // ---------------------------------------------------------------- AQI column scan

  /** The first position at or after `from` whose name contains "aqi". */
  function FirstAqiColumnFrom(cols: seq<string>, from: nat): (r: Option<nat>)
    decreases |cols| - from
    ensures r.Some? ==> from <= r.value < |cols| && Contains(cols[r.value], AQI_MARKER)
    ensures r.Some? ==> forall j :: from <= j < r.value ==> !Contains(cols[j], AQI_MARKER)
    ensures r.None? ==> forall j :: from <= j < |cols| ==> !Contains(cols[j], AQI_MARKER)
  {
    if from >= |cols| then None
    else if Contains(cols[from], AQI_MARKER) then Some(from)
    else FirstAqiColumnFrom(cols, from + 1)
  }

  /** The column the scan selects: the first, in header order, whose name contains "aqi";
      None when there is none. No earlier column has the same name, so selecting the
      column by name and taking the first match (iloc[:, 0]) picks this very column. */
  function FirstAqiColumn(cols: seq<string>): (r: Option<nat>)
    ensures r.Some? ==> r.value < |cols| && Contains(cols[r.value], AQI_MARKER)
    ensures r.Some? ==> forall j :: 0 <= j < r.value ==> !Contains(cols[j], AQI_MARKER)
    ensures r.Some? ==> forall j :: 0 <= j < r.value ==> cols[j] != cols[r.value]
    ensures r.None? <==> forall j :: 0 <= j < |cols| ==> !Contains(cols[j], AQI_MARKER)
  {
    FirstAqiColumnFrom(cols, 0)
  }

  /** The loop of src/preprocessing.py:23-27: scan the header, stop at the first name containing "aqi". */
  method FindAqiColumn(cols: seq<string>) returns (aqiCol: Option<nat>)
    ensures aqiCol.Some? ==> aqiCol.value < |cols| && Contains(cols[aqiCol.value], AQI_MARKER)
    ensures aqiCol.Some? ==> forall j :: 0 <= j < aqiCol.value ==> !Contains(cols[j], AQI_MARKER)
    ensures aqiCol.None? ==> forall j :: 0 <= j < |cols| ==> !Contains(cols[j], AQI_MARKER)
    ensures aqiCol == FirstAqiColumn(cols)
  {
    aqiCol := None;
    var i := 0;
    while i < |cols|
      invariant 0 <= i <= |cols|
      invariant aqiCol == None
      invariant forall j :: 0 <= j < i ==> !Contains(cols[j], AQI_MARKER)
    {
      if Contains(cols[i], AQI_MARKER) {
        aqiCol := Some(i);
        break;
      }
      i := i + 1;
    }
  }

  // ---------------------------------------------------------------- numeric coercion

  /** pd.to_numeric(errors="coerce") on one cell: None (NaN) when missing or unparsable. */
  function ParseCell(parse: string -> Option<real>): (f: Option<string> -> Option<real>)
    ensures f(None).None?
    ensures forall v :: f(Some(v)) == parse(v)
  {
    (c: Option<string>) => if c.Some? then parse(c.value) else None
  }

  /** Column k of the rows, as a series. */
  function ColumnCells<T>(rows: seq<seq<Option<T>>>, k: nat): (cells: seq<Option<T>>)
    ensures |cells| == |rows|
    ensures forall i :: 0 <= i < |rows| ==> cells[i] == Cell(rows[i], k)
  {
    seq(|rows|, i requires 0 <= i < |rows| => Cell(rows[i], k))
  }

  /** pd.to_numeric(errors="coerce") followed by dropna(): the parsed values, in order. */
  function CoerceNumeric(cells: seq<Option<string>>, parse: string -> Option<real>): (r: seq<real>)
    ensures |r| <= |cells|
    ensures (forall i :: 0 <= i < |cells| ==> ParseCell(parse)(cells[i]).Some?) ==> |r| == |cells|
  {
    FilterMap(cells, ParseCell(parse))
  }

  /** The coercion keeps exactly the entries that parse, with their parsed values, in their original order. */
  lemma CoerceKeepsParsed(cells: seq<Option<string>>, parse: string -> Option<real>) returns (idx: seq<nat>)
    ensures var r := CoerceNumeric(cells, parse);
      && |idx| == |r|
      && (forall k :: 0 <= k < |idx| ==> idx[k] < |cells| && cells[idx[k]].Some? && parse(cells[idx[k]].value) == Some(r[k]))
      && (forall k, l :: 0 <= k < l < |idx| ==> idx[k] < idx[l])
      && (forall j :: 0 <= j < |cells| && cells[j].Some? && parse(cells[j].value).Some? ==> j in idx)
  {
    idx := FilterMapSelects(cells, ParseCell(parse));
  }

  // ---------------------------------------------------------------- weather synonyms

  /** The synonym table weather_map. */
  const WEATHER_MAP: map<string, string> := map[
    "temp" := "temperature",
    "temperature" := "temperature",
    "humidity" := "humidity",
    "wind_speed" := "wind_speed",
    "wind-speed" := "wind_speed",
    "windspeed" := "wind_speed"
  ]

  /** Every synonym target is itself a key that maps to itself. */
  lemma TargetsAreFixed(c: string)
    requires c in WEATHER_MAP
    ensures WEATHER_MAP[c] in WEATHER_MAP && WEATHER_MAP[WEATHER_MAP[c]] == WEATHER_MAP[c]
  {
  }

  /** The name a column ends up with: its synonym target if it has one, else itself. */
  function RenameColumn(c: string): (r: string)
    ensures c in WEATHER_MAP ==> r == WEATHER_MAP[c]
    ensures c !in WEATHER_MAP ==> r == c
    ensures r in WEATHER_MAP ==> WEATHER_MAP[r] == r
  {
    if c in WEATHER_MAP then WEATHER_MAP[c] else c
  }

  /** The renamed header, as a value. */
  function RenameColumns(cols: seq<string>): (r: seq<string>)
    ensures |r| == |cols|
  {
    seq(|cols|, i requires 0 <= i < |cols| => RenameColumn(cols[i]))
  }

  /** Renaming twice is renaming once: renamed columns are never renamed again. */
  lemma RenameIdempotent(cols: seq<string>)
    ensures RenameColumns(RenameColumns(cols)) == RenameColumns(cols)
  {
    forall i | 0 <= i < |cols| && cols[i] in WEATHER_MAP
      ensures RenameColumn(RenameColumn(cols[i])) == RenameColumn(cols[i])
    {
      TargetsAreFixed(cols[i]);
    }
  }

  /** DataFrame.rename(columns={from: to}): every column named `from` gets the name `to`. */
  function RenameAll(cols: seq<string>, from: string, to: string): (r: seq<string>)
    ensures |r| == |cols|
  {
    seq(|cols|, k requires 0 <= k < |cols| => if cols[k] == from then to else cols[k])
  }

  /** After the first `i` names of the snapshot have been handled, exactly the columns whose
      original name is among them carry their synonym target. */
  ghost predicate RenamedUpTo(snapshot: seq<string>, renamed: seq<string>, i: nat)
    requires i <= |snapshot|
  {
    && |renamed| == |snapshot|
    && forall k :: 0 <= k < |snapshot| ==>
         renamed[k] == if snapshot[k] in snapshot[..i] then RenameColumn(snapshot[k]) else snapshot[k]
  }

  /** One iteration of the renaming loop handles one more name of the snapshot. */
  lemma RenameStep(snapshot: seq<string>, renamed: seq<string>, i: nat)
    requires i < |snapshot| && RenamedUpTo(snapshot, renamed, i)
    ensures var col := snapshot[i];
      RenamedUpTo(snapshot, if col in WEATHER_MAP then RenameAll(renamed, col, WEATHER_MAP[col]) else renamed, i + 1)
  {
    var col := snapshot[i];
    assert snapshot[..i + 1] == snapshot[..i] + [col];
    if col in WEATHER_MAP {
      TargetsAreFixed(col);
      var after := RenameAll(renamed, col, WEATHER_MAP[col]);
      forall k | 0 <= k < |snapshot|
        ensures after[k] == if snapshot[k] in snapshot[..i + 1] then RenameColumn(snapshot[k]) else snapshot[k]
      {
        if snapshot[k] in snapshot[..i] && snapshot[k] in WEATHER_MAP {
          TargetsAreFixed(snapshot[k]);
        }
      }
    }
  }

  /** The loop of src/preprocessing.py:55-57: walk a snapshot of the header and, for each name that is a
      key of weather_map, rename in place every column carrying that name. Only the keys
      of weather_map change, each to its mapped value. */
  method RenameWeatherColumns(cols: seq<string>) returns (renamed: seq<string>)
    ensures |renamed| == |cols|
    ensures forall i :: 0 <= i < |cols| && cols[i] in WEATHER_MAP ==> renamed[i] == WEATHER_MAP[cols[i]]
    ensures forall i :: 0 <= i < |cols| && cols[i] !in WEATHER_MAP ==> renamed[i] == cols[i]
    ensures renamed == RenameColumns(cols)
  {
    var snapshot := cols;
    renamed := cols;
    for i := 0 to |snapshot|
      invariant RenamedUpTo(snapshot, renamed, i)
    {
      var col := snapshot[i];
      RenameStep(snapshot, renamed, i);
      if col in WEATHER_MAP {
        renamed := RenameAll(renamed, col, WEATHER_MAP[col]);
      }
    }
    assert snapshot[..|snapshot|] == snapshot;
  }

  // ---------------------------------------------------------------- required columns

  const REQUIRED_COLUMNS: seq<string> := ["temperature", "humidity", "wind_speed"]

  /** The positions at or after `from` of the columns named `name`, in increasing order. */
  function Positions(cols: seq<string>, name: string, from: nat): (ps: seq<nat>)
    decreases |cols| - from
    ensures forall k :: 0 <= k < |ps| ==> from <= ps[k] < |cols| && cols[ps[k]] == name
  {
    if from >= |cols| then []
    else (if cols[from] == name then [from] else []) + Positions(cols, name, from + 1)
  }

  /** Every column with the name is among the positions. */
  lemma {:induction false} PositionsComplete(cols: seq<string>, name: string, from: nat, p: nat)
    requires from <= p < |cols| && cols[p] == name
    ensures p in Positions(cols, name, from)
    decreases |cols| - from
  {
    if p > from {
      PositionsComplete(cols, name, from + 1, p);
    }
  }

  /** The positions come in increasing order, as the header does. */
  lemma {:induction false} PositionsIncreasing(cols: seq<string>, name: string, from: nat)
    ensures forall k, l :: 0 <= k < l < |Positions(cols, name, from)| ==>
      Positions(cols, name, from)[k] < Positions(cols, name, from)[l]
    decreases |cols| - from
  {
    if from < |cols| {
      PositionsIncreasing(cols, name, from + 1);
      var head: seq<nat> := if cols[from] == name then [from] else [];
      var tail := Positions(cols, name, from + 1);
      var ps := head + tail;
      assert Positions(cols, name, from) == ps;
      forall k, l | 0 <= k < l < |ps|
        ensures ps[k] < ps[l]
      {
        assert ps[l] == tail[l - |head|];
        assert from + 1 <= tail[l - |head|];
        if k >= |head| {
          assert ps[k] == tail[k - |head|];
          assert tail[k - |head|] < tail[l - |head|];
        } else {
          assert ps[k] == from;
        }
      }
    }
  }

  /** How many columns carry the name. */
  function Occurrences(cols: seq<string>, name: string): nat
  {
    |Positions(cols, name, 0)|
  }

  lemma PresentIffOccurs(cols: seq<string>, name: string)
    ensures name in cols <==> Occurrences(cols, name) >= 1
  {
    var ps := Positions(cols, name, 0);
    if name in cols {
      var p :| 0 <= p < |cols| && cols[p] == name;
      PositionsComplete(cols, name, 0, p);
    }
    if |ps| >= 1 {
      assert cols[ps[0]] == name;
    }
  }

  /** The column positions df[names] selects: for each name in turn, all columns of that name.
      With unique names this is one position per name. */
  function ProjectionPositions(cols: seq<string>, names: seq<string>): (ps: seq<nat>)
    ensures forall k :: 0 <= k < |ps| ==> ps[k] < |cols|
  {
    if names == [] then [] else Positions(cols, names[0], 0) + ProjectionPositions(cols, names[1..])
  }

  function AbsentFrom(cols: seq<string>): string -> Option<string>
  {
    (n: string) => if n in cols then None else Some(n)
  }

  /** The requested names the header lacks, in request order. */
  function MissingNames(cols: seq<string>, names: seq<string>): (m: seq<string>)
    ensures m == [] <==> forall j :: 0 <= j < |names| ==> names[j] in cols
  {
    FilterMap(names, AbsentFrom(cols))
  }

  /** The cells of a row at the given positions. */
  function ProjectRow<T>(row: seq<Option<T>>, ps: seq<nat>): (cells: seq<Option<T>>)
    ensures |cells| == |ps|
    ensures forall c :: 0 <= c < |ps| ==> cells[c] == Cell(row, ps[c])
  {
    seq(|ps|, c requires 0 <= c < |ps| => Cell(row, ps[c]))
  }

  /** A projected row survives dropna() when none of its cells is missing. */
  function CompleteRow(ps: seq<nat>): (f: seq<Option<real>> -> Option<seq<real>>)
    ensures forall row :: f(row).Some? ==> |f(row).value| == |ps|
  {
    (row: seq<Option<real>>) => AllPresent(ProjectRow(row, ps))
  }

  /** A row survives exactly when every projected cell is present, and then it becomes the
      values of those cells. */
  lemma CompleteRowKeepsValues(ps: seq<nat>, row: seq<Option<real>>)
    ensures CompleteRow(ps)(row).Some? <==> forall c :: 0 <= c < |ps| ==> Cell(row, ps[c]).Some?
    ensures CompleteRow(ps)(row).Some? ==>
      forall c :: 0 <= c < |ps| ==> Cell(row, ps[c]) == Some(CompleteRow(ps)(row).value[c])
  {
    var cells := ProjectRow(row, ps);
    assert forall c :: 0 <= c < |ps| ==> cells[c] == Cell(row, ps[c]);
  }

  /** weather_df[required_weather_cols].dropna(), on the renamed header. */
  function SelectRequired(cols: seq<string>, rows: seq<seq<Option<real>>>): (r: Result<seq<seq<real>>, PreprocessError>)
    ensures r.Err? <==> exists j :: 0 <= j < |REQUIRED_COLUMNS| && REQUIRED_COLUMNS[j] !in cols
    ensures r.Err? ==> r.error == MissingColumns(MissingNames(cols, REQUIRED_COLUMNS)) && r.error.names != []
    ensures r.Ok? ==> |r.value| <= |rows|
  {
    var missing := MissingNames(cols, REQUIRED_COLUMNS);
    if missing != [] then Err(MissingColumns(missing))
    else Ok(FilterMap(rows, CompleteRow(ProjectionPositions(cols, REQUIRED_COLUMNS))))
  }

  /** The projection keeps exactly the rows with all required cells present, in order,
      each reduced to its cells at the projected positions. */
  lemma SelectRequiredKeepsCompleteRows(cols: seq<string>, rows: seq<seq<Option<real>>>) returns (idx: seq<nat>)
    requires "temperature" in cols && "humidity" in cols && "wind_speed" in cols
    ensures SelectRequired(cols, rows).Ok?
    ensures var ps, out := ProjectionPositions(cols, REQUIRED_COLUMNS), SelectRequired(cols, rows).value;
      && |idx| == |out|
      && (forall k :: 0 <= k < |idx| ==> idx[k] < |rows| && |out[k]| == |ps|)
      && (forall k, c :: 0 <= k < |idx| && 0 <= c < |ps| ==> Cell(rows[idx[k]], ps[c]) == Some(out[k][c]))
      && (forall k, l :: 0 <= k < l < |idx| ==> idx[k] < idx[l])
      && (forall j :: 0 <= j < |rows| && (forall c :: 0 <= c < |ps| ==> Cell(rows[j], ps[c]).Some?) ==> j in idx)
  {
    assert forall j :: 0 <= j < |REQUIRED_COLUMNS| ==> REQUIRED_COLUMNS[j] in cols;
    var ps := ProjectionPositions(cols, REQUIRED_COLUMNS);
    idx := FilterMapSelects(rows, CompleteRow(ps));
    var out := SelectRequired(cols, rows).value;
    forall k | 0 <= k < |idx|
      ensures |out[k]| == |ps| && forall c :: 0 <= c < |ps| ==> Cell(rows[idx[k]], ps[c]) == Some(out[k][c])
    {
      assert CompleteRow(ps)(rows[idx[k]]) == Some(out[k]);
    }
  }

  /** df[["temperature", "humidity", "wind_speed"]] takes the columns in that order, and
      yields three columns exactly when each of the three names occurs once. */
  lemma ProjectionWidth(cols: seq<string>)
    ensures ProjectionPositions(cols, REQUIRED_COLUMNS)
      == Positions(cols, "temperature", 0) + Positions(cols, "humidity", 0) + Positions(cols, "wind_speed", 0)
    ensures MissingNames(cols, REQUIRED_COLUMNS) == [] ==>
      (|ProjectionPositions(cols, REQUIRED_COLUMNS)| == 3 <==>
        Occurrences(cols, "temperature") == 1 && Occurrences(cols, "humidity") == 1 && Occurrences(cols, "wind_speed") == 1)
  {
    var t, h, w := Positions(cols, "temperature", 0), Positions(cols, "humidity", 0), Positions(cols, "wind_speed", 0);
    assert ProjectionPositions(cols, ["wind_speed"]) == w by {
      assert ["wind_speed"][1..] == [];
    }
    assert ProjectionPositions(cols, ["humidity", "wind_speed"]) == h + w by {
      assert ["humidity", "wind_speed"][1..] == ["wind_speed"];
    }
    assert ProjectionPositions(cols, REQUIRED_COLUMNS) == t + (h + w) by {
      assert REQUIRED_COLUMNS[1..] == ["humidity", "wind_speed"];
    }
    assert t + (h + w) == t + h + w;
    if MissingNames(cols, REQUIRED_COLUMNS) == [] {
      assert REQUIRED_COLUMNS[0] in cols && REQUIRED_COLUMNS[1] in cols && REQUIRED_COLUMNS[2] in cols;
      PresentIffOccurs(cols, "temperature");
      PresentIffOccurs(cols, "humidity");
      PresentIffOccurs(cols, "wind_speed");
    }
  }

  // ---------------------------------------------------------------- alignment

  function Min(a: nat, b: nat): (m: nat)
    ensures m <= a && m <= b && (m == a || m == b)
  {
    if a <= b then a else b
  }

  /** Truncate both sides to the shorter length: the longest equal-length prefixes. */
  function Align(target: seq<real>, features: seq<seq<real>>): (r: (seq<real>, seq<seq<real>>))
    ensures |r.0| == |r.1| == Min(|target|, |features|)
    ensures r.0 == target[..|r.0|] && r.1 == features[..|r.1|]
    ensures r.0 == target || r.1 == features
  {
    var n := Min(|target|, |features|);
    (target[..n], features[..n])
  }

  // ---------------------------------------------------------------- the pipeline

  /** The arrays written to X_train.npy and y_train.npy. */
  datatype Dataset = Dataset(features: seq<seq<real>>, target: seq<real>)

  /** The station side: normalise the header, find the AQI column, coerce it and drop NaN. */
  function CleanTarget(stations: Table<string>, parse: string -> Option<real>): (r: Result<seq<real>, PreprocessError>)
    ensures r.Err? <==> forall j :: 0 <= j < |stations.columns| ==> !Contains(NormaliseName(stations.columns[j]), AQI_MARKER)
    ensures r.Err? ==> r.error == NoAqiColumn
    ensures r.Ok? ==> |r.value| <= |stations.rows|
  {
    var cols := NormaliseColumns(stations.columns);
    match FirstAqiColumn(cols)
    case None => Err(NoAqiColumn)
    case Some(k) => Ok(CoerceNumeric(ColumnCells(stations.rows, k), parse))
  }

  /** The weather header after normalisation and synonym renaming. */
  function WeatherColumns(weather: Table<real>): (cols: seq<string>)
    ensures |cols| == |weather.columns|
  {
    RenameColumns(NormaliseColumns(weather.columns))
  }

  /** The weather side: normalise, rename, project on the required columns, drop incomplete rows. */
  function CleanFeatures(weather: Table<real>): (r: Result<seq<seq<real>>, PreprocessError>)
    ensures r.Ok? ==> |r.value| <= |weather.rows|
  {
    SelectRequired(WeatherColumns(weather), weather.rows)
  }

  /** The whole script: the AQI column check comes first, then the weather projection,
      then both sides are truncated to the shorter one. */
  function Preprocess(stations: Table<string>, weather: Table<real>, parse: string -> Option<real>): (r: Result<Dataset, PreprocessError>)
    ensures r.Ok? ==> |r.value.features| == |r.value.target|
    ensures r == Err(NoAqiColumn) <==> CleanTarget(stations, parse).Err?
    ensures r.Err? && r.error.MissingColumns? <==> CleanTarget(stations, parse).Ok? && CleanFeatures(weather).Err?
  {
    match CleanTarget(stations, parse)
    case Err(e) => Err(e)
    case Ok(y) =>
      match CleanFeatures(weather)
      case Err(e) => Err(e)
      case Ok(x) =>
        var aligned := Align(y, x);
        Ok(Dataset(aligned.1, aligned.0))
  }

  /** On success, X and y are the longest equal-length prefixes of the two cleaned sides. */
  lemma PreprocessAligned(stations: Table<string>, weather: Table<real>, parse: string -> Option<real>)
    ensures Preprocess(stations, weather, parse).Ok? ==>
      && CleanTarget(stations, parse).Ok? && CleanFeatures(weather).Ok?
      && |Preprocess(stations, weather, parse).value.target| == |Preprocess(stations, weather, parse).value.features|
         == Min(|CleanTarget(stations, parse).value|, |CleanFeatures(weather).value|)
      && Preprocess(stations, weather, parse).value.target
         == CleanTarget(stations, parse).value[..|Preprocess(stations, weather, parse).value.target|]
      && Preprocess(stations, weather, parse).value.features
         == CleanFeatures(weather).value[..|Preprocess(stations, weather, parse).value.features|]
  {
  }

  /** Every cleaned weather row has one entry per projected column; that is three entries
      exactly when each required name occurs once in the renamed weather header. */
  lemma FeatureRowWidth(weather: Table<real>)
    ensures CleanFeatures(weather).Ok? ==> forall k :: 0 <= k < |CleanFeatures(weather).value| ==>
      |CleanFeatures(weather).value[k]| == |ProjectionPositions(WeatherColumns(weather), REQUIRED_COLUMNS)|
    ensures CleanFeatures(weather).Ok? ==> (|ProjectionPositions(WeatherColumns(weather), REQUIRED_COLUMNS)| == 3 <==>
      && Occurrences(WeatherColumns(weather), "temperature") == 1
      && Occurrences(WeatherColumns(weather), "humidity") == 1
      && Occurrences(WeatherColumns(weather), "wind_speed") == 1)
  {
    var cols := WeatherColumns(weather);
    if SelectRequired(cols, weather.rows).Ok? {
      assert "temperature" in cols && "humidity" in cols && "wind_speed" in cols by {
        assert REQUIRED_COLUMNS[0] == "temperature" && REQUIRED_COLUMNS[1] == "humidity" && REQUIRED_COLUMNS[2] == "wind_speed";
      }
      var idx := SelectRequiredKeepsCompleteRows(cols, weather.rows);
      ProjectionWidth(cols);
    }
  }

  /** On success every row of X has the width of the projection, and X has as many rows as y. */
  lemma PreprocessShape(stations: Table<string>, weather: Table<real>, parse: string -> Option<real>)
    ensures Preprocess(stations, weather, parse).Ok? ==>
      && |Preprocess(stations, weather, parse).value.features| == |Preprocess(stations, weather, parse).value.target|
      && forall k :: 0 <= k < |Preprocess(stations, weather, parse).value.features| ==>
           |Preprocess(stations, weather, parse).value.features[k]| == |ProjectionPositions(WeatherColumns(weather), REQUIRED_COLUMNS)|
  {
    if Preprocess(stations, weather, parse).Ok? {
      PreprocessAligned(stations, weather, parse);
      var x := CleanFeatures(weather).value;
      var d := Preprocess(stations, weather, parse).value;
      FeatureRowWidth(weather);
      assert d.features == x[..|d.features|];
      forall k | 0 <= k < |d.features|
        ensures |d.features[k]| == |ProjectionPositions(WeatherColumns(weather), REQUIRED_COLUMNS)|
      {
        assert d.features[k] == x[k];
      }
    }
  }

  /** Every AQI entry of the selected station column parses. */
  ghost predicate AllAqiEntriesParse(stations: Table<string>, parse: string -> Option<real>)
  {
    var sel := FirstAqiColumn(NormaliseColumns(stations.columns));
    sel.Some? && forall i :: 0 <= i < |stations.rows| ==> ParseCell(parse)(Cell(stations.rows[i], sel.value)).Some?
  }

  /** The weather table is rectangular and has no missing value. */
  ghost predicate CompleteWeather(weather: Table<real>)
  {
    && (forall i :: 0 <= i < |weather.rows| ==> |weather.rows[i]| == |weather.columns|)
    && (forall i, c :: 0 <= i < |weather.rows| && 0 <= c < |weather.rows[i]| ==> weather.rows[i][c].Some?)
  }

  /** A station table whose every AQI entry parses loses no row. */
  lemma CleanTargetKeepsAll(stations: Table<string>, parse: string -> Option<real>)
    ensures AllAqiEntriesParse(stations, parse) ==>
      CleanTarget(stations, parse).Ok? && |CleanTarget(stations, parse).value| == |stations.rows|
  {
    if AllAqiEntriesParse(stations, parse) {
      var k := FirstAqiColumn(NormaliseColumns(stations.columns)).value;
      var cells := ColumnCells(stations.rows, k);
      assert forall i :: 0 <= i < |cells| ==> ParseCell(parse)(cells[i]).Some?;
    }
  }

  /** A row with no missing value inside the header survives any projection on that header. */
  lemma FullRowIsComplete(row: seq<Option<real>>, ps: seq<nat>)
    requires forall c :: 0 <= c < |row| ==> row[c].Some?
    requires forall k :: 0 <= k < |ps| ==> ps[k] < |row|
    ensures CompleteRow(ps)(row).Some?
  {
    var cells := ProjectRow(row, ps);
    assert forall c :: 0 <= c < |ps| ==> cells[c].Some?;
  }

  /** A rectangular weather table with no missing value loses no row. */
  lemma CleanFeaturesKeepsAll(weather: Table<real>)
    ensures CleanFeatures(weather).Ok? && CompleteWeather(weather) ==> |CleanFeatures(weather).value| == |weather.rows|
  {
    var cols := WeatherColumns(weather);
    if SelectRequired(cols, weather.rows).Ok? && CompleteWeather(weather) {
      var ps := ProjectionPositions(cols, REQUIRED_COLUMNS);
      forall i | 0 <= i < |weather.rows|
        ensures CompleteRow(ps)(weather.rows[i]).Some?
      {
        FullRowIsComplete(weather.rows[i], ps);
      }
      assert SelectRequired(cols, weather.rows).value == FilterMap(weather.rows, CompleteRow(ps));
    }
  }

  /** With N station rows whose AQI entries all parse and M complete weather rows,
      the output has min(N, M) rows. */
  lemma CleanInputsKeepAllRows(stations: Table<string>, weather: Table<real>, parse: string -> Option<real>)
    ensures Preprocess(stations, weather, parse).Ok? && AllAqiEntriesParse(stations, parse) && CompleteWeather(weather) ==>
      |Preprocess(stations, weather, parse).value.target| == Min(|stations.rows|, |weather.rows|)
  {
    PreprocessAligned(stations, weather, parse);
    CleanTargetKeepsAll(stations, parse);
    CleanFeaturesKeepsAll(weather);
  }
}
