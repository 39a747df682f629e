/**
 * The CoCoRaHS station helper (scripts/cocorahs_stations.py): the rule that turns the rows of
 * the scraped station grid into station records, and the station timeline, which groups a
 * daily-report file by station, keeps the stations of the scraped list, and sorts them.
 */
module Cocorahs {
  import opened Wrappers
  import opened Seqs
  import opened Order
  import opened Utils
  import opened Schema

  /** `STATION_COL_CANDIDATES`. */
  const StationColCandidates: seq<string> := ["stationnumber", "StationID", "station", "station_id", "Station_ID"]

  /** `DATE_COL_CANDIDATES`. */
  const DateColCandidates: seq<string> := ["reportdate", "date", "ReportDate", "Date"]

  // ----- The scraped station list -----

  /** One record of `rows_all`; `state` is the state that was searched for. */
  datatype Station = Station(stationId: string, name: string, county: string, state: string)

  /** A grid row gives a record when it has at least three cells and its first cell is not blank. */
  predicate Qualifies(cells: seq<string>) {
    |cells| >= 3 && Strip(cells[0]) != ""
  }

  /** Lines 133-141: the record of one grid row (the texts of its cells), its first three cells stripped. */
  function ExtractRow(cells: seq<string>, stateName: string): Option<Station> {
    if Qualifies(cells) then Some(Station(Strip(cells[0]), Strip(cells[1]), Strip(cells[2]), stateName))
    else None
  }

  function ExtractRowIn(stateName: string): seq<string> -> Option<Station> {
    cells => ExtractRow(cells, stateName)
  }

  /**
   * A row gives a record exactly when it has three cells or more and its first cell is not all
   * whitespace; the record's id is then non-empty, its texts carry no surrounding whitespace,
   * and its state is the state searched for.
   */
  lemma ExtractRowSpec(cells: seq<string>, stateName: string)
    ensures ExtractRow(cells, stateName).Some? <==> |cells| >= 3 && !AllSpace(cells[0])
    ensures ExtractRow(cells, stateName).Some? ==>
      var st := ExtractRow(cells, stateName).value;
      && st.stationId != "" && Trimmed(st.stationId) && Trimmed(st.name) && Trimmed(st.county)
      && st.state == stateName
      && st.stationId == Strip(cells[0]) && st.name == Strip(cells[1]) && st.county == Strip(cells[2])
  {
    if |cells| >= 3 {
      StripEmpty(cells[0]);
    }
  }

  /** The records of a sequence of grid rows, in row order. */
  function Extracted(trs: seq<seq<string>>, stateName: string): seq<Station> {
    FilterMap(trs, ExtractRowIn(stateName))
  }

  /** Lines 132-141: append the records of one page's grid rows to `rows_all`. */
  method ExtractPage(trs: seq<seq<string>>, stateName: string, rowsAll: seq<Station>) returns (rowsAll': seq<Station>)
    ensures rowsAll' == rowsAll + Extracted(trs, stateName)
  {
    rowsAll' := rowsAll;
    ghost var f := ExtractRowIn(stateName);
    var k := 0;
    while k < |trs|
      invariant k <= |trs|
      invariant rowsAll' == rowsAll + Extracted(trs[..k], stateName)
    {
      FilterMapSnoc(trs, k, f);
      var tds := trs[k];
      if |tds| >= 3 {
        var stationId := Strip(tds[0]);
        var name := Strip(tds[1]);
        var county := Strip(tds[2]);
        if stationId != "" {
          assert f(tds) == Some(Station(stationId, name, county, stateName));
          rowsAll' := rowsAll' + [Station(stationId, name, county, stateName)];
        } else {
          assert f(tds) == None;
        }
      } else {
        assert f(tds) == None;
      }
      k := k + 1;
    }
    assert trs[..k] == trs;
  }

  /** Extracting page after page is extracting all the rows at once. */
  lemma ExtractedPages(a: seq<seq<string>>, b: seq<seq<string>>, stateName: string)
    ensures Extracted(a + b, stateName) == Extracted(a, stateName) + Extracted(b, stateName)
  {
    FilterMapAppend(a, b, ExtractRowIn(stateName));
  }

  /**
   * One record per qualifying row; every record is the record of some row, so it has a
   * non-empty, stripped id and the searched state; and every qualifying row's record is there.
   */
  lemma ExtractedSpec(trs: seq<seq<string>>, stateName: string)
    ensures |Extracted(trs, stateName)| == Count(trs, Qualifies)
    ensures forall j :: 0 <= j < |Extracted(trs, stateName)| ==>
      var st := Extracted(trs, stateName)[j];
      st.stationId != "" && Trimmed(st.stationId) && st.state == stateName
    ensures forall i :: 0 <= i < |trs| && Qualifies(trs[i]) ==>
      ExtractRow(trs[i], stateName).value in Extracted(trs, stateName)
  {
    var f := ExtractRowIn(stateName);
    FilterMapSpec(trs, f);
    FilterCongruent(trs, Defined(f), Qualifies);
    var out := Extracted(trs, stateName);
    forall j | 0 <= j < |out|
      ensures out[j].stationId != "" && Trimmed(out[j].stationId) && out[j].state == stateName
    {
      var i :| 0 <= i < |trs| && f(trs[i]) == Some(out[j]);
      ExtractRowSpec(trs[i], stateName);
    }
  }

  /** Line 162: `rows_all` as a table, exact duplicate records removed, first occurrences kept in order. */
  function StationList(trs: seq<seq<string>>, stateName: string): seq<Station> {
    Dedup(Extracted(trs, stateName))
  }

  /**
   * The station list has no record twice, holds exactly the extracted records in the order of
   * their first extraction, and its ids are already stripped, so stripping them again at
   * line 193 changes nothing.
   */
  lemma StationListSpec(trs: seq<seq<string>>, stateName: string)
    ensures Distinct(StationList(trs, stateName))
    ensures forall st :: st in StationList(trs, stateName) <==> st in Extracted(trs, stateName)
    ensures forall i, j :: 0 <= i < j < |StationList(trs, stateName)| ==>
      FirstIndex(Extracted(trs, stateName), StationList(trs, stateName)[i])
      < FirstIndex(Extracted(trs, stateName), StationList(trs, stateName)[j])
    ensures forall j :: 0 <= j < |StationList(trs, stateName)| ==>
      var st := StationList(trs, stateName)[j];
      st.stationId != "" && Strip(st.stationId) == st.stationId && st.state == stateName
  {
    ExtractedSpec(trs, stateName);
    DedupOrder(Extracted(trs, stateName));
    var list := StationList(trs, stateName);
    var ex := Extracted(trs, stateName);
    forall j | 0 <= j < |list|
      ensures list[j].stationId != "" && Strip(list[j].stationId) == list[j].stationId && list[j].state == stateName
    {
      var i :| 0 <= i < |ex| && ex[i] == list[j];
      TrimmedStrip(list[j].stationId);
    }
  }

  // ----- Column choice -----

  /** `choose_col`: the first candidate, in list order, that is exactly one of the columns. */
  function ChooseCol(columns: seq<string>, candidates: seq<string>): Option<string> {
    if candidates == [] then None
    else if candidates[0] in columns then Some(candidates[0])
    else ChooseCol(columns, candidates[1..])
  }

  /**
   * `choose_col` finds nothing exactly when no candidate is a column; otherwise it returns
   * candidate `i`, which is a column while none before it is.
   */
  lemma {:induction false} ChooseColSpec(columns: seq<string>, candidates: seq<string>) returns (i: nat)
    ensures ChooseCol(columns, candidates).None? <==> forall j :: 0 <= j < |candidates| ==> candidates[j] !in columns
    ensures ChooseCol(columns, candidates).Some? ==>
      i < |candidates| && ChooseCol(columns, candidates).value == candidates[i] && candidates[i] in columns
      && forall j :: 0 <= j < i ==> candidates[j] !in columns
  {
    i := 0;
    if candidates != [] && candidates[0] !in columns {
      var i' := ChooseColSpec(columns, candidates[1..]);
      i := i' + 1;
      assert forall j :: 1 <= j < |candidates| ==> candidates[j] == candidates[1..][j - 1];
    }
  }

  /**
   * `choose_col` is the case-sensitive sibling of `pick_first_col`: whenever it finds a column,
   * so does the case-insensitive lookup.
   */
  lemma ChooseColWeaker(columns: seq<string>, candidates: seq<string>)
    ensures ChooseCol(columns, candidates).Some? ==> PickFirstCol(columns, candidates).Some?
  {
    if ChooseCol(columns, candidates).Some? {
      var i := ChooseColSpec(columns, candidates);
      var c := candidates[i];
      var k :| 0 <= k < |columns| && columns[k] == c;
      assert Lower(columns[k]) == Lower(c);
      assert Resolves(columns, c);
      PickFirstColSpec(columns, candidates);
    }
  }

  // ----- The timeline -----

  /** One dated report: a station id (stripped) and a date. */
  datatype Observation = Observation(station: string, date: Date)

  /**
   * Lines 188-190: a report row counts when its station cell is present and its date cell
   * parses (`to_datetime(..., errors="coerce")` gives `NaT` otherwise); the id is stripped.
   */
  function ObservationOf(row: RawRow, stCol: string, dtCol: string, parseDate: string -> Option<Date>): Option<Observation> {
    var st := Cell(row, stCol);
    var dt := Cell(row, dtCol);
    if st.Present? && dt.Present? && parseDate(dt.text).Some? then
      Some(Observation(Strip(st.text), parseDate(dt.text).value))
    else None
  }

  function ObservationIn(stCol: string, dtCol: string, parseDate: string -> Option<Date>): RawRow -> Option<Observation> {
    row => ObservationOf(row, stCol, dtCol, parseDate)
  }

  /** The report rows that survive `dropna`, in row order. */
  function Observations(rows: seq<RawRow>, stCol: string, dtCol: string, parseDate: string -> Option<Date>): seq<Observation> {
    FilterMap(rows, ObservationIn(stCol, dtCol, parseDate))
  }

  /** Lines 188-190, row by row: drop the rows with a missing id or date, strip the ids. */
  method CollectObservations(rows: seq<RawRow>, stCol: string, dtCol: string, parseDate: string -> Option<Date>)
    returns (obs: seq<Observation>)
    ensures obs == Observations(rows, stCol, dtCol, parseDate)
  {
    obs := [];
    var k := 0;
    while k < |rows|
      invariant k <= |rows|
      invariant obs == Observations(rows[..k], stCol, dtCol, parseDate)
    {
      assert rows[..k + 1][..k] == rows[..k];
      var st := Cell(rows[k], stCol);
      var dt := Cell(rows[k], dtCol);
      if st.Present? && dt.Present? {
        var when := parseDate(dt.text);
        if when.Some? {
          obs := obs + [Observation(Strip(st.text), when.value)];
        }
      }
      k := k + 1;
    }
    assert rows[..k] == rows;
  }

  /**
   * Every observation comes from a row whose station cell is present and whose date cell
   * parses, and carries that row's stripped id and parsed date; every such row gives one.
   */
  lemma ObservationsSpec(rows: seq<RawRow>, stCol: string, dtCol: string, parseDate: string -> Option<Date>)
    ensures forall j :: 0 <= j < |Observations(rows, stCol, dtCol, parseDate)| ==>
      var o := Observations(rows, stCol, dtCol, parseDate)[j];
      exists i :: 0 <= i < |rows| && Cell(rows[i], stCol).Present? && Cell(rows[i], dtCol).Present?
        && o.station == Strip(Cell(rows[i], stCol).text) && parseDate(Cell(rows[i], dtCol).text) == Some(o.date)
    ensures forall i :: (0 <= i < |rows| && Cell(rows[i], stCol).Present? && Cell(rows[i], dtCol).Present?
        && parseDate(Cell(rows[i], dtCol).text).Some?) ==>
      Observation(Strip(Cell(rows[i], stCol).text), parseDate(Cell(rows[i], dtCol).text).value)
        in Observations(rows, stCol, dtCol, parseDate)
  {
    var f := ObservationIn(stCol, dtCol, parseDate);
    FilterMapSpec(rows, f);
    var obs := Observations(rows, stCol, dtCol, parseDate);
    forall j | 0 <= j < |obs|
      ensures exists i :: (0 <= i < |rows| && Cell(rows[i], stCol).Present? && Cell(rows[i], dtCol).Present?
        && obs[j].station == Strip(Cell(rows[i], stCol).text) && parseDate(Cell(rows[i], dtCol).text) == Some(obs[j].date))
    {
      var i :| 0 <= i < |rows| && f(rows[i]) == Some(obs[j]);
      assert Cell(rows[i], stCol).Present? && Cell(rows[i], dtCol).Present?;
    }
    forall i | 0 <= i < |rows| && Cell(rows[i], stCol).Present? && Cell(rows[i], dtCol).Present?
        && parseDate(Cell(rows[i], dtCol).text).Some?
      ensures Observation(Strip(Cell(rows[i], stCol).text), parseDate(Cell(rows[i], dtCol).text).value) in obs
    {
      assert f(rows[i]) == Some(Observation(Strip(Cell(rows[i], stCol).text), parseDate(Cell(rows[i], dtCol).text).value));
    }
  }

  /** The first and last date of one station. */
  datatype Span = Span(earliest: Date, latest: Date)

  /** A span stretched to cover one more date. */
  function Widen(s: Span, d: Date): Span {
    Span(if d < s.earliest then d else s.earliest, if d > s.latest then d else s.latest)
  }

  /** Line 195, `groupby(st_col)[dt_col].agg(earliest="min", latest="max")`: each station's span. */
  function Spans(obs: seq<Observation>): map<string, Span> {
    if obs == [] then map[]
    else
      var m := Spans(obs[..|obs| - 1]);
      var o := obs[|obs| - 1];
      m[o.station := if o.station in m then Widen(m[o.station], o.date) else Span(o.date, o.date)]
  }

  /** Line 195, one observation at a time. */
  method GroupSpans(obs: seq<Observation>) returns (spans: map<string, Span>)
    ensures spans == Spans(obs)
  {
    spans := map[];
    var k := 0;
    while k < |obs|
      invariant k <= |obs|
      invariant spans == Spans(obs[..k])
    {
      assert obs[..k + 1][..k] == obs[..k];
      var o := obs[k];
      if o.station in spans {
        spans := spans[o.station := Widen(spans[o.station], o.date)];
      } else {
        spans := spans[o.station := Span(o.date, o.date)];
      }
      k := k + 1;
    }
    assert obs[..k] == obs;
  }

  /** The groups are exactly the stations that have an observation. */
  lemma {:induction false} SpansKeys(obs: seq<Observation>)
    ensures forall id :: id in Spans(obs) <==> exists i :: 0 <= i < |obs| && obs[i].station == id
  {
    if obs != [] {
      var n := |obs| - 1;
      SpansKeys(obs[..n]);
      assert forall i :: 0 <= i < n ==> obs[..n][i] == obs[i];
    }
  }

  /** Every date of a station lies within its span. */
  lemma {:induction false} SpansBound(obs: seq<Observation>)
    ensures forall i :: 0 <= i < |obs| ==>
      obs[i].station in Spans(obs)
      && Spans(obs)[obs[i].station].earliest <= obs[i].date <= Spans(obs)[obs[i].station].latest
  {
    if obs != [] {
      var n := |obs| - 1;
      SpansBound(obs[..n]);
      assert forall i :: 0 <= i < n ==> obs[..n][i] == obs[i];
    }
  }

  /** Both ends of every span are dates the station actually has: `earliest` is the minimum, `latest` the maximum. */
  lemma {:induction false} SpansAttained(obs: seq<Observation>)
    ensures forall id :: id in Spans(obs) ==>
      (exists i :: 0 <= i < |obs| && obs[i].station == id && obs[i].date == Spans(obs)[id].earliest)
      && (exists i :: 0 <= i < |obs| && obs[i].station == id && obs[i].date == Spans(obs)[id].latest)
  {
    if obs != [] {
      var n := |obs| - 1;
      SpansAttained(obs[..n]);
      assert forall i :: 0 <= i < n ==> obs[..n][i] == obs[i];
    }
  }

  /** Every span starts no later than it ends. */
  lemma SpansOrdered(obs: seq<Observation>)
    ensures forall id :: id in Spans(obs) ==> Spans(obs)[id].earliest <= Spans(obs)[id].latest
  {
    SpansAttained(obs);
    SpansBound(obs);
    forall id | id in Spans(obs)
      ensures Spans(obs)[id].earliest <= Spans(obs)[id].latest
    {
      var i :| 0 <= i < |obs| && obs[i].station == id && obs[i].date == Spans(obs)[id].earliest;
    }
  }

  /** One row of the timeline, in the output column order. */
  datatype TimelineRow = TimelineRow(stationId: string, name: string, county: string, state: string, earliest: Date, latest: Date)

  /**
   * Lines 193 and 196-198 for one station record: its stripped id matched against the groups,
   * giving one row when the station has a group and none otherwise (an inner join).
   */
  function JoinStation(st: Station, spans: map<string, Span>): Option<TimelineRow> {
    var id := Strip(st.stationId);
    if id in spans then Some(TimelineRow(id, st.name, st.county, st.state, spans[id].earliest, spans[id].latest))
    else None
  }

  function JoinWith(spans: map<string, Span>): Station -> Option<TimelineRow> {
    st => JoinStation(st, spans)
  }

  /** The inner join, in station-list order. */
  function Join(stations: seq<Station>, spans: map<string, Span>): seq<TimelineRow> {
    FilterMap(stations, JoinWith(spans))
  }

  /** Lines 192-198, station by station. */
  method JoinStations(stations: seq<Station>, spans: map<string, Span>) returns (joined: seq<TimelineRow>)
    ensures joined == Join(stations, spans)
  {
    joined := [];
    var k := 0;
    while k < |stations|
      invariant k <= |stations|
      invariant joined == Join(stations[..k], spans)
    {
      assert stations[..k + 1][..k] == stations[..k];
      var st := stations[k];
      var id := Strip(st.stationId);
      if id in spans {
        joined := joined + [TimelineRow(id, st.name, st.county, st.state, spans[id].earliest, spans[id].latest)];
      }
      k := k + 1;
    }
    assert stations[..k] == stations;
  }

  /** The sort key of line 199: `earliest` first, then the station id. */
  datatype SortKey = SortKey(earliest: Date, stationId: string)

  function RowKey(r: TimelineRow): SortKey {
    SortKey(r.earliest, r.stationId)
  }

  function KeyLt(a: SortKey, b: SortKey): bool {
    a.earliest < b.earliest || (a.earliest == b.earliest && StrLt(a.stationId, b.stationId))
  }

  /** Ordering by `(earliest, StationID)` is a strict total order on sort keys. */
  lemma KeyLtStrictTotal()
    ensures StrictTotalOrder(KeyLt)
  {
    StrLtStrictTotal();
  }

  /** Why the timeline is not produced. */
  datatype TimelineError =
    | MissingColumns          // line 186: no station-id column or no date column in the report file
    | NoStationIdColumn       // line 193: the station list has no `StationID` column
    | SortKeyDropped          // line 199: line 198 dropped the only `StationID` column

  /**
   * `make_timeline`, with the evident intent for an empty station list and for a report file
   * whose station column is `StationID`: the stations of the list that have dated reports,
   * with their first and last report dates, sorted by `(earliest, StationID)`.
   */
  function Timeline(stations: seq<Station>, table: RawTable, parseDate: string -> Option<Date>): Result<seq<TimelineRow>, TimelineError> {
    var stCol := ChooseCol(table.columns, StationColCandidates);
    var dtCol := ChooseCol(table.columns, DateColCandidates);
    if stCol.None? || dtCol.None? then Err(MissingColumns)
    else
      var spans := Spans(Observations(table.rows, stCol.value, dtCol.value, parseDate));
      Ok(SortBy(Join(stations, spans), RowKey, KeyLt))
  }

  /**
   * `make_timeline` as written. A station list scraped from an empty grid is `pd.DataFrame([])`,
   * a table without columns, so line 193 raises `KeyError` instead of giving an empty timeline.
   * When the report file's station column is itself `StationID`, the merge at line 197 joins on
   * two columns of the same name and keeps one; line 198 drops it, and the sort at line 199
   * raises `KeyError`.
   */
  function TimelineAsWritten(stations: seq<Station>, table: RawTable, parseDate: string -> Option<Date>): Result<seq<TimelineRow>, TimelineError> {
    match Timeline(stations, table, parseDate)
    case Err(e) => Err(e)
    case Ok(rows) =>
      if stations == [] then Err(NoStationIdColumn)
      else if ChooseCol(table.columns, StationColCandidates) == Some("StationID") then Err(SortKeyDropped)
      else Ok(rows)
  }

  /** `make_timeline` (lines 181-202), the report file given as a table. */
  method MakeTimeline(stations: seq<Station>, table: RawTable, parseDate: string -> Option<Date>)
    returns (r: Result<seq<TimelineRow>, TimelineError>)
    ensures r == TimelineAsWritten(stations, table, parseDate)
  {
    var stCol := ChooseCol(table.columns, StationColCandidates);
    var dtCol := ChooseCol(table.columns, DateColCandidates);
    if stCol.None? || dtCol.None? {
      return Err(MissingColumns);
    }
    var obs := CollectObservations(table.rows, stCol.value, dtCol.value, parseDate);
    if stations == [] {
      return Err(NoStationIdColumn);
    }
    var spans := GroupSpans(obs);
    var joined := JoinStations(stations, spans);
    if stCol.value == "StationID" {
      return Err(SortKeyDropped);
    }
    r := Ok(SortBy(joined, RowKey, KeyLt));
  }

  /**
   * The timeline fails exactly when the report file has no station-id candidate column or no
   * date candidate column; the as-written version fails in those cases and, besides, exactly
   * when the station list is empty or the report's station column is `StationID`.
   */
  lemma TimelineErrors(stations: seq<Station>, table: RawTable, parseDate: string -> Option<Date>)
    ensures Timeline(stations, table, parseDate).Err? <==>
      (forall j :: 0 <= j < |StationColCandidates| ==> StationColCandidates[j] !in table.columns)
      || (forall j :: 0 <= j < |DateColCandidates| ==> DateColCandidates[j] !in table.columns)
    ensures Timeline(stations, table, parseDate).Err? ==> Timeline(stations, table, parseDate).error == MissingColumns
    ensures TimelineAsWritten(stations, table, parseDate).Err? <==>
      Timeline(stations, table, parseDate).Err? || stations == []
      || ("StationID" in table.columns && "stationnumber" !in table.columns)
  {
    var i := ChooseColSpec(table.columns, StationColCandidates);
    var j := ChooseColSpec(table.columns, DateColCandidates);
  }

  /** An empty station list with a usable report file: an empty timeline is meant, a `KeyError` is what happens. */
  lemma EmptyStationListFails(table: RawTable, parseDate: string -> Option<Date>)
    requires "StationID" in table.columns && "date" in table.columns
    ensures Timeline([], table, parseDate) == Ok([])
    ensures TimelineAsWritten([], table, parseDate) == Err(NoStationIdColumn)
  {
    assert StationColCandidates[1] == "StationID" && DateColCandidates[1] == "date";
    var i := ChooseColSpec(table.columns, StationColCandidates);
    var j := ChooseColSpec(table.columns, DateColCandidates);
  }

  /**
   * A report file whose station column is `StationID`, and a station list that is not empty: the
   * intended timeline exists, the code as written raises `KeyError` at the sort.
   */
  lemma DroppedKeyFails(stations: seq<Station>, table: RawTable, parseDate: string -> Option<Date>)
    requires stations != []
    requires "StationID" in table.columns && "stationnumber" !in table.columns && "date" in table.columns
    ensures Timeline(stations, table, parseDate).Ok?
    ensures TimelineAsWritten(stations, table, parseDate) == Err(SortKeyDropped)
  {
    assert StationColCandidates[1] == "StationID" && DateColCandidates[1] == "date";
    var i := ChooseColSpec(table.columns, StationColCandidates);
    var j := ChooseColSpec(table.columns, DateColCandidates);
  }

  /** Away from those two inputs, both versions agree. */
  lemma TimelineAgrees(stations: seq<Station>, table: RawTable, parseDate: string -> Option<Date>)
    requires stations != []
    requires "stationnumber" in table.columns || "StationID" !in table.columns
    ensures TimelineAsWritten(stations, table, parseDate) == Timeline(stations, table, parseDate)
  {
    var i := ChooseColSpec(table.columns, StationColCandidates);
  }

  /** The timeline is sorted by `(earliest, StationID)` and holds exactly the joined rows. */
  lemma TimelineSorted(stations: seq<Station>, table: RawTable, parseDate: string -> Option<Date>)
    ensures Timeline(stations, table, parseDate).Ok? ==>
      var stCol := ChooseCol(table.columns, StationColCandidates).value;
      var dtCol := ChooseCol(table.columns, DateColCandidates).value;
      var rows := Timeline(stations, table, parseDate).value;
      && SortedBy(rows, RowKey, KeyLt)
      && multiset(rows) == multiset(Join(stations, Spans(Observations(table.rows, stCol, dtCol, parseDate))))
  {
    if Timeline(stations, table, parseDate).Ok? {
      var stCol := ChooseCol(table.columns, StationColCandidates).value;
      var dtCol := ChooseCol(table.columns, DateColCandidates).value;
      var joined := Join(stations, Spans(Observations(table.rows, stCol, dtCol, parseDate)));
      KeyLtStrictTotal();
      SortBySorted(joined, RowKey, KeyLt);
    }
  }

  /**
   * The inner join: a row per station record whose stripped id has a group, carrying the
   * record's name, county and state and the group's span; every row is such a row.
   */
  lemma JoinSpec(stations: seq<Station>, spans: map<string, Span>)
    ensures |Join(stations, spans)| == Count(stations, Defined(JoinWith(spans)))
    ensures forall j :: 0 <= j < |Join(stations, spans)| ==>
      var r := Join(stations, spans)[j];
      exists i :: 0 <= i < |stations| && r.stationId == Strip(stations[i].stationId) && r.stationId in spans
        && r.name == stations[i].name && r.county == stations[i].county && r.state == stations[i].state
        && r.earliest == spans[r.stationId].earliest && r.latest == spans[r.stationId].latest
    ensures forall i :: 0 <= i < |stations| && Strip(stations[i].stationId) in spans ==>
      JoinStation(stations[i], spans).value in Join(stations, spans)
  {
    var f := JoinWith(spans);
    FilterMapSpec(stations, f);
    var out := Join(stations, spans);
    forall j | 0 <= j < |out|
      ensures exists i :: (0 <= i < |stations| && out[j].stationId == Strip(stations[i].stationId) && out[j].stationId in spans
        && out[j].name == stations[i].name && out[j].county == stations[i].county && out[j].state == stations[i].state
        && out[j].earliest == spans[out[j].stationId].earliest && out[j].latest == spans[out[j].stationId].latest)
    {
      var i :| 0 <= i < |stations| && f(stations[i]) == Some(out[j]);
    }
  }

  /** The span of one station: it is ordered, both ends are dates of the station, and it covers them all. */
  lemma SpanOf(obs: seq<Observation>, id: string)
    requires id in Spans(obs)
    ensures Spans(obs)[id].earliest <= Spans(obs)[id].latest
    ensures exists i :: 0 <= i < |obs| && obs[i].station == id && obs[i].date == Spans(obs)[id].earliest
    ensures exists i :: 0 <= i < |obs| && obs[i].station == id && obs[i].date == Spans(obs)[id].latest
    ensures forall i :: 0 <= i < |obs| && obs[i].station == id ==> Spans(obs)[id].earliest <= obs[i].date <= Spans(obs)[id].latest
  {
    SpansOrdered(obs);
    SpansAttained(obs);
    SpansBound(obs);
  }

  /**
   * Row `r` is a listed station (its id stripped) that has reports, `earliest` is the first and
   * `latest` the last of that station's report dates, and so `earliest <= latest`.
   */
  ghost predicate Attested(r: TimelineRow, stations: seq<Station>, obs: seq<Observation>) {
    && r.earliest <= r.latest
    && (exists i :: 0 <= i < |stations| && Strip(stations[i].stationId) == r.stationId)
    && (exists i :: 0 <= i < |obs| && obs[i].station == r.stationId && obs[i].date == r.earliest)
    && (exists i :: 0 <= i < |obs| && obs[i].station == r.stationId && obs[i].date == r.latest)
    && (forall i :: 0 <= i < |obs| && obs[i].station == r.stationId ==> r.earliest <= obs[i].date <= r.latest)
  }

  /** Every joined row is attested by the station list and the reports. */
  lemma JoinedRow(stations: seq<Station>, obs: seq<Observation>, r: TimelineRow)
    requires r in Join(stations, Spans(obs))
    ensures Attested(r, stations, obs)
  {
    var spans := Spans(obs);
    var i := FilterMapFrom(stations, JoinWith(spans), r);
    assert JoinStation(stations[i], spans) == Some(r);
    SpanOf(obs, r.stationId);
  }

  /**
   * Every timeline row is a listed station (its id stripped) that has reports: its `earliest`
   * is the first and its `latest` the last of that station's report dates, so
   * `earliest <= latest`.
   */
  lemma TimelineRows(stations: seq<Station>, table: RawTable, parseDate: string -> Option<Date>)
    ensures Timeline(stations, table, parseDate).Ok? ==>
      var stCol := ChooseCol(table.columns, StationColCandidates).value;
      var dtCol := ChooseCol(table.columns, DateColCandidates).value;
      forall r :: r in Timeline(stations, table, parseDate).value ==>
        Attested(r, stations, Observations(table.rows, stCol, dtCol, parseDate))
  {
    if Timeline(stations, table, parseDate).Ok? {
      var stCol := ChooseCol(table.columns, StationColCandidates).value;
      var dtCol := ChooseCol(table.columns, DateColCandidates).value;
      var obs := Observations(table.rows, stCol, dtCol, parseDate);
      var rows := Timeline(stations, table, parseDate).value;
      TimelineSorted(stations, table, parseDate);
      forall r | r in rows
        ensures Attested(r, stations, obs)
      {
        assert r in multiset(rows);
        JoinedRow(stations, obs, r);
      }
    }
  }

  /** Every listed station that has at least one dated report appears in the timeline. */
  lemma TimelineComplete(stations: seq<Station>, table: RawTable, parseDate: string -> Option<Date>, i: nat)
    ensures Timeline(stations, table, parseDate).Ok? && i < |stations| ==>
      var stCol := ChooseCol(table.columns, StationColCandidates).value;
      var dtCol := ChooseCol(table.columns, DateColCandidates).value;
      var obs := Observations(table.rows, stCol, dtCol, parseDate);
      (exists k :: 0 <= k < |obs| && obs[k].station == Strip(stations[i].stationId)) ==>
        exists r :: r in Timeline(stations, table, parseDate).value && r.stationId == Strip(stations[i].stationId)
          && r.name == stations[i].name && r.county == stations[i].county && r.state == stations[i].state
  {
    if Timeline(stations, table, parseDate).Ok? && i < |stations| {
      var stCol := ChooseCol(table.columns, StationColCandidates).value;
      var dtCol := ChooseCol(table.columns, DateColCandidates).value;
      var obs := Observations(table.rows, stCol, dtCol, parseDate);
      var spans := Spans(obs);
      SpansKeys(obs);
      if Strip(stations[i].stationId) in spans {
        JoinSpec(stations, spans);
        TimelineSorted(stations, table, parseDate);
        var r := JoinStation(stations[i], spans).value;
        assert r in multiset(Join(stations, spans));
        assert r in multiset(Timeline(stations, table, parseDate).value);
      }
    }
  }
}
