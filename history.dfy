/** The prediction history of the dashboard (app.py, "HISTORY FILE", "Save history" and
    the date-filtered table): an append-only log of 8-field records under a fixed header. */
module History {
  import opened Wrappers
  import opened Sequences
  import opened AqiLogic

  /** A calendar date and a timestamp, standing for datetime values. */
  datatype Date = Date(year: int, month: int, day: int)
  datatype Timestamp = Timestamp(date: Date, hour: int, minute: int, second: int)

  /** The calendar date of a timestamp (dt.date). */
  function DateOf(t: Timestamp): (d: Date)
    ensures d == t.date
  {
    t.date
  }

  /** One row of aqi_history.csv. */
  datatype Record = Record(
    time: Timestamp,
    temperature: real,
    humidity: real,
    windSpeed: real,
    aqi: real,
    category: string,
    impact: string,
    action: string)

  /** The header the file is created with. */
  const HEADER: seq<string> := ["Time", "Temperature", "Humidity", "Wind Speed", "AQI", "Category", "Health Impact", "Action"]

  /** The record one prediction appends: the inputs, the AQI as `round2` rounds it, and
      the category, impact and action aqi_details gives for the unrounded AQI. */
  function PredictionRecord(now: Timestamp, temperature: real, humidity: real, windSpeed: real,
                            aqi: real, round2: real -> real): (r: Record)
    ensures r.time == now && r.aqi == round2(aqi)
    ensures r.temperature == temperature && r.humidity == humidity && r.windSpeed == windSpeed
    ensures r.category == AqiDetails(aqi).category
    ensures r.impact == AqiDetails(aqi).impact && r.action == AqiDetails(aqi).action
  {
    var d := AqiDetails(aqi);
    Record(now, temperature, humidity, windSpeed, round2(aqi), d.category, d.impact, d.action)
  }

  /** The history file. `present` says whether it exists; an absent file holds nothing,
      and an existing one starts with the header line HEADER. */
  class HistoryFile {
    var present: bool
    var header: seq<string>
    var records: seq<Record>

    predicate Valid()
      reads this
    {
      && (!present ==> header == [] && records == [])
      && (present ==> header == HEADER)
    }

    /** Lines in the file: the header and one line per record, none when absent. */
    function LineCount(): (n: nat)
      reads this
      requires Valid()
      ensures n == 0 <==> !present
    {
      if present then 1 + |records| else 0
    }

    /** Before the first run there is no file. */
    constructor ()
      ensures Valid() && !present && header == [] && records == []
    {
      present := false;
      header := [];
      records := [];
    }

    /** app.py:101-105: create the file with the header and no rows, unless it exists. */
    method EnsureCreated()
      requires Valid()
      modifies this
      ensures Valid() && present && header == HEADER
      ensures old(present) ==> records == old(records)
      ensures !old(present) ==> records == []
      ensures LineCount() == if old(present) then old(LineCount()) else 1
    {
      if !present {
        present := true;
        header := HEADER;
        records := [];
      }
    }

    /** app.py:168-177: append exactly one record; earlier records are unchanged. */
    method RecordPrediction(now: Timestamp, temperature: real, humidity: real, windSpeed: real,
                            aqi: real, round2: real -> real)
      requires Valid() && present
      modifies this
      ensures Valid() && present && header == old(header) == HEADER
      ensures records == old(records) + [PredictionRecord(now, temperature, humidity, windSpeed, aqi, round2)]
      ensures |records| == |old(records)| + 1 && records[..|old(records)|] == old(records)
      ensures LineCount() == old(LineCount()) + 1
    {
      records := records + [PredictionRecord(now, temperature, humidity, windSpeed, aqi, round2)];
    }
  }

  /** The row mask of the filtered table: a record is kept when its date is d. */
  function OnDate(d: Date): (keep: Record -> Option<Record>)
    ensures forall r :: keep(r).Some? <==> DateOf(r.time) == d
    ensures forall r :: keep(r).Some? ==> keep(r).value == r
  {
    (r: Record) => if DateOf(r.time) == d then Some(r) else None
  }

  /** df[df["Time"].dt.date == selected_date]: the records of one date, in log order. */
  function FilterByDate(records: seq<Record>, d: Date): (r: seq<Record>)
    ensures |r| <= |records|
    ensures r == [] <==> forall j :: 0 <= j < |records| ==> DateOf(records[j].time) != d
  {
    FilterMap(records, OnDate(d))
  }

  /** The filtered table is an order-preserving subsequence holding exactly the records of date d. */
  lemma FilterByDateSelects(records: seq<Record>, d: Date) returns (idx: seq<nat>)
    ensures |idx| == |FilterByDate(records, d)|
    ensures forall k :: 0 <= k < |idx| ==> idx[k] < |records| && FilterByDate(records, d)[k] == records[idx[k]]
    ensures forall k :: 0 <= k < |idx| ==> DateOf(FilterByDate(records, d)[k].time) == d
    ensures forall k, l :: 0 <= k < l < |idx| ==> idx[k] < idx[l]
    ensures forall j :: 0 <= j < |records| && DateOf(records[j].time) == d ==> j in idx
  {
    idx := FilterMapSelects(records, OnDate(d));
  }

  /** Appending a record extends the table of its date by that record and leaves the tables of other dates as they were. */
  lemma FilterAfterAppend(records: seq<Record>, rec: Record, d: Date)
    ensures FilterByDate(records + [rec], d) == FilterByDate(records, d) + (if DateOf(rec.time) == d then [rec] else [])
  {
    FilterMapAppend(records, [rec], OnDate(d));
    assert [rec][1..] == [];
  }

  /** The date the picker shows: the user's choice, or else the date of the last record. */
  function SelectedDate(records: seq<Record>, choice: Option<Date>): (d: Date)
    requires records != []
    ensures choice.Some? ==> d == choice.value
    ensures choice.None? ==> d == DateOf(records[|records| - 1].time)
  {
    if choice.Some? then choice.value else DateOf(records[|records| - 1].time)
  }

  /** app.py:184-197: no table at all for an empty log; otherwise the records of the selected date. */
  function HistoryView(records: seq<Record>, choice: Option<Date>): (v: Option<seq<Record>>)
    ensures v.None? <==> records == []
    ensures v.Some? ==> v.value == FilterByDate(records, SelectedDate(records, choice))
  {
    if records == [] then None
    else Some(FilterByDate(records, SelectedDate(records, choice)))
  }

  /** With the default date, the table is never empty and ends with the latest record. */
  lemma DefaultViewShowsLatest(records: seq<Record>)
    requires records != []
    ensures HistoryView(records, None).Some?
    ensures var v := HistoryView(records, None).value;
      v != [] && v[|v| - 1] == records[|records| - 1]
  {
    var n := |records| - 1;
    var last := records[n];
    assert records == records[..n] + [last];
    FilterAfterAppend(records[..n], last, DateOf(last.time));
  }
}
