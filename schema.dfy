/**
 * The canonical schema (src/schema.py) and the shapes of the tables the pipeline works on:
 * raw rows keyed by an agency's own column names, and canonical records.
 */
module Schema {
  import opened Wrappers
  import opened Utils

  /** The ten canonical fields, in declaration order (`StandardColumns`). */
  datatype Field = SiteId | Operator | Name | Lat | Lon | Datum | Status | StartDate | EndDate | Url

  /** `STD.<field>`: each field's column name is the field's own name. */
  function ColumnName(f: Field): string {
    match f
    case SiteId => "site_id"
    case Operator => "operator"
    case Name => "name"
    case Lat => "lat"
    case Lon => "lon"
    case Datum => "datum"
    case Status => "status"
    case StartDate => "start_date"
    case EndDate => "end_date"
    case Url => "url"
  }

  /** The provenance column every standardized row carries. */
  const SourceFile: string := "source_file"

  /** `MASTER_COL_ORDER`. */
  const MasterColOrder: seq<string> := [
    ColumnName(SiteId), ColumnName(Operator), ColumnName(Name), ColumnName(Lat), ColumnName(Lon),
    ColumnName(Datum), ColumnName(Status), ColumnName(StartDate), ColumnName(EndDate), ColumnName(Url)
  ]

  /** The master table's header: the canonical columns, then the provenance column. */
  const MasterHeader: seq<string> := MasterColOrder + [SourceFile]

  /** Distinct fields have distinct column names. */
  lemma ColumnNameInjective(f: Field, g: Field)
    requires ColumnName(f) == ColumnName(g)
    ensures f == g
  {
  }

  /**
   * The header lists ten canonical names, in the declared field order, then `source_file`,
   * which is none of them.
   */
  lemma MasterHeaderSpec()
    ensures |MasterColOrder| == 10 && |MasterHeader| == 11
    ensures MasterColOrder == [
      "site_id", "operator", "name", "lat", "lon", "datum", "status", "start_date", "end_date", "url"]
    ensures forall f: Field :: ColumnName(f) in MasterColOrder
    ensures SourceFile !in MasterColOrder
  {
    assert forall i :: 0 <= i < |MasterColOrder| ==> |MasterColOrder[i]| != |SourceFile|;
  }

  /** No name occurs twice in the master header. */
  lemma MasterHeaderDistinct()
    ensures forall i, j :: 0 <= i < j < |MasterHeader| ==> MasterHeader[i] != MasterHeader[j]
  {
  }

  /** How a field's cells are normalized. */
  datatype Kind = Identifier | Text | Coordinate | Calendar

  function KindOf(f: Field): Kind {
    match f
    case SiteId => Identifier
    case Lat | Lon => Coordinate
    case StartDate | EndDate => Calendar
    case _ => Text
  }

  /** One canonical cell. */
  datatype Value = Str(str: string) | Num(num: Option<real>) | When(date: Option<Date>)

  /** A row of the master table, its fields in `MasterHeader` order. */
  datatype Record = Record(
    siteId: string, operator: string, name: string, lat: Option<real>, lon: Option<real>,
    datum: string, status: string, startDate: Option<Date>, endDate: Option<Date>, url: string,
    sourceFile: string)

  /** The cell of `r` under field `f`. */
  function Get(r: Record, f: Field): Value {
    match f
    case SiteId => Str(r.siteId)
    case Operator => Str(r.operator)
    case Name => Str(r.name)
    case Lat => Num(r.lat)
    case Lon => Num(r.lon)
    case Datum => Str(r.datum)
    case Status => Str(r.status)
    case StartDate => When(r.startDate)
    case EndDate => When(r.endDate)
    case Url => Str(r.url)
  }

  /** A raw row: an agency's column names to cells. */
  type RawRow = map<string, RawCell>

  /** A table as read from one input file: its header and its rows. */
  datatype RawTable = RawTable(columns: seq<string>, rows: seq<RawRow>)

  /** `df[col]` at one row; a name the row lacks reads as missing. */
  function Cell(row: RawRow, col: string): RawCell {
    if col in row then row[col] else Missing
  }
}
