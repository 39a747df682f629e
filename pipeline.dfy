/**
 * The per-source standardizer and the merge (src/pipeline.py): each agency table is mapped
 * onto the canonical schema, rows without an id are dropped, the selected input files are
 * merged in order, and the QA and duplicate reports are derived from the master table.
 */
module Pipeline {
  import opened Wrappers
  import opened Seqs
  import opened Order
  import opened Utils
  import opened Schema
  import opened Qa

  /**
   * Why a run stops: a canonical column with no candidate list in the configuration (the
   * `KeyError` of `cands[...]`), no input file at all, or a file `read_any` does not read.
   */
  datatype Error = MissingCandidates(key: string) | NoInputFiles | UnsupportedFile(name: string)

  /** `cfg["column_candidates"]`: for each canonical column name, the source names to try. */
  type Candidates = map<string, seq<string>>

  /** Position of the first of `keys` with no candidate list, or `|keys|` when every one has one. */
  function FirstMissing(cands: Candidates, keys: seq<string>): (i: nat)
    ensures i <= |keys|
    ensures forall j :: 0 <= j < i ==> keys[j] in cands
    ensures i < |keys| ==> keys[i] !in cands
  {
    if keys == [] then 0
    else if keys[0] !in cands then 0
    else 1 + FirstMissing(cands, keys[1..])
  }

  /**
   * The column used for field `f`: `pick_first_col` over the field's candidates, kept only
   * when it is truthy (`if site_id_col`), so a column named `""` counts as none.
   */
  function ColumnFor(columns: seq<string>, cands: Candidates, f: Field): Option<string> {
    var key := ColumnName(f);
    if key !in cands then None
    else
      match PickFirstCol(columns, cands[key])
      case Some(c) => if c != "" then Some(c) else None
      case None => None
  }

  /** The column each field resolves to in one table (lines 23-32). */
  function Resolve(columns: seq<string>, cands: Candidates): Field -> Option<string> {
    f => ColumnFor(columns, cands, f)
  }

  /** The normalizer a resolved column's cells go through, chosen by the field's kind. */
  function Normalize(f: Field, x: RawCell, parsers: Parsers): Value {
    match KindOf(f)
    case Identifier => Str(NormalizeSiteId(x))
    case Text => Str(CleanStr(x))
    case Coordinate => Num(ToFloat(x, parsers.number))
    case Calendar => When(ToDate(x, parsers.date))
  }

  /** The value a field takes when no column resolves: `""`, `None` or `NaT`. */
  function EmptyValue(f: Field): Value {
    match KindOf(f)
    case Identifier | Text => Str("")
    case Coordinate => Num(None)
    case Calendar => When(None)
  }

  /** The canonical value of field `f` in one raw row, given the resolved columns `cols`. */
  function FieldValue(row: RawRow, cols: Field -> Option<string>, parsers: Parsers, f: Field): Value {
    match cols(f)
    case Some(c) => Normalize(f, Cell(row, c), parsers)
    case None => EmptyValue(f)
  }

  function TextOf(v: Value): string {
    if v.Str? then v.str else ""
  }

  function NumberOf(v: Value): Option<real> {
    if v.Num? then v.num else None
  }

  function DateOf(v: Value): Option<Date> {
    if v.When? then v.date else None
  }

  /** One row of `out` before the empty ids are dropped (lines 34-46). */
  function StandardizeRow(row: RawRow, cols: Field -> Option<string>, parsers: Parsers, sourceName: string): Record {
    var v := (f: Field) => FieldValue(row, cols, parsers, f);
    Record(
      TextOf(v(SiteId)), TextOf(v(Operator)), TextOf(v(Name)), NumberOf(v(Lat)), NumberOf(v(Lon)),
      TextOf(v(Datum)), TextOf(v(Status)), DateOf(v(StartDate)), DateOf(v(EndDate)), TextOf(v(Url)),
      sourceName)
  }

  /**
   * Each cell of a standardized row is its field's normalizer applied to the row's cell in
   * the resolved column, or the field's empty value when no column resolves, and
   * `source_file` is the source's name.
   */
  lemma StandardizeRowFields(row: RawRow, cols: Field -> Option<string>, parsers: Parsers, sourceName: string, f: Field)
    ensures var r := StandardizeRow(row, cols, parsers, sourceName);
      && r.sourceFile == sourceName
      && Get(r, f) == match cols(f)
                      case Some(c) => Normalize(f, Cell(row, c), parsers)
                      case None => EmptyValue(f)
  {
    match f
    case SiteId =>
    case Operator =>
    case Name =>
    case Lat =>
    case Lon =>
    case Datum =>
    case Status =>
    case StartDate =>
    case EndDate =>
    case Url =>
  }

  /** One raw row's standardized row, as a function of the row. */
  function RowOf(cols: Field -> Option<string>, parsers: Parsers, sourceName: string): RawRow -> Record {
    row => StandardizeRow(row, cols, parsers, sourceName)
  }

  /** All the rows of `out`, one per input row, in input order. */
  function StandardizeRows(rows: seq<RawRow>, cols: Field -> Option<string>, parsers: Parsers, sourceName: string): seq<Record> {
    Map(rows, RowOf(cols, parsers, sourceName))
  }

  /** A row survives lines 49-50 when its id is not empty. */
  predicate HasId(r: Record) {
    r.siteId != ""
  }

  /**
   * `standardize_one`: the `KeyError` of the first canonical column without candidates, or
   * the standardized rows whose id is not empty, in input order.
   */
  function Standardize(table: RawTable, cands: Candidates, parsers: Parsers, sourceName: string): Result<seq<Record>, Error> {
    var i := FirstMissing(cands, MasterColOrder);
    if i < |MasterColOrder| then Err(MissingCandidates(MasterColOrder[i]))
    else Ok(Filter(StandardizeRows(table.rows, Resolve(table.columns, cands), parsers, sourceName), HasId))
  }

  /** Lines 21-32: look the canonical columns' candidate lists up in schema order, up to the first one missing. */
  method LookUpCandidates(cands: Candidates) returns (i: nat)
    ensures i == FirstMissing(cands, MasterColOrder)
  {
    i := 0;
    while i < |MasterColOrder|
      invariant i <= |MasterColOrder|
      invariant forall j :: 0 <= j < i ==> MasterColOrder[j] in cands
    {
      if MasterColOrder[i] !in cands {
        assert FirstMissing(cands, MasterColOrder) == i;
        return;
      }
      i := i + 1;
    }
    assert FirstMissing(cands, MasterColOrder) == |MasterColOrder|;
  }

  /** Lines 34-46: one output row per input row. */
  method BuildRows(rows: seq<RawRow>, cols: Field -> Option<string>, parsers: Parsers, sourceName: string)
    returns (out: seq<Record>)
    ensures out == StandardizeRows(rows, cols, parsers, sourceName)
  {
    out := [];
    var k := 0;
    while k < |rows|
      invariant k <= |rows|
      invariant out == StandardizeRows(rows[..k], cols, parsers, sourceName)
    {
      assert rows[..k + 1][..k] == rows[..k];
      out := out + [StandardizeRow(rows[k], cols, parsers, sourceName)];
      assert RowOf(cols, parsers, sourceName)(rows[k]) == out[k];
      k := k + 1;
    }
    assert rows[..k] == rows;
  }

  /** Lines 48-50: drop the rows whose id is empty. */
  method DropEmptyIds(out: seq<Record>) returns (kept: seq<Record>)
    ensures kept == Filter(out, HasId)
  {
    kept := [];
    var k := 0;
    while k < |out|
      invariant k <= |out|
      invariant kept == Filter(out[..k], HasId)
    {
      assert out[..k + 1][..k] == out[..k];
      if out[k].siteId != "" {
        kept := kept + [out[k]];
      }
      k := k + 1;
    }
    assert out[..k] == out;
  }

  /**
   * `standardize_one`: resolve the ten columns in schema order, build one output row per input
   * row, then drop the rows whose id is empty.
   */
  method StandardizeOne(table: RawTable, cands: Candidates, parsers: Parsers, sourceName: string)
    returns (r: Result<seq<Record>, Error>)
    ensures r == Standardize(table, cands, parsers, sourceName)
  {
    var i := LookUpCandidates(cands);
    if i < |MasterColOrder| {
      return Err(MissingCandidates(MasterColOrder[i]));
    }
    var cols := Resolve(table.columns, cands);
    var out := BuildRows(table.rows, cols, parsers, sourceName);
    var kept := DropEmptyIds(out);
    r := Ok(kept);
  }

  /**
   * Standardizing fails exactly when some canonical column has no candidate list, whatever
   * the table, and the error names the first such column in schema order.
   */
  lemma StandardizeFails(table: RawTable, cands: Candidates, parsers: Parsers, sourceName: string)
    ensures Standardize(table, cands, parsers, sourceName).Err? <==>
      exists i :: 0 <= i < |MasterColOrder| && MasterColOrder[i] !in cands
    ensures Standardize(table, cands, parsers, sourceName).Err? ==>
      exists i :: 0 <= i < |MasterColOrder| && (forall j :: 0 <= j < i ==> MasterColOrder[j] in cands)
        && Standardize(table, cands, parsers, sourceName).error == MissingCandidates(MasterColOrder[i])
  {
    var i := FirstMissing(cands, MasterColOrder);
    if i < |MasterColOrder| {
      assert MasterColOrder[i] !in cands;
    }
  }

  /** A property every element has, every element that survives a filter has. */
  lemma {:induction false} FilterAll<T>(s: seq<T>, p: T -> bool, q: T -> bool)
    requires forall i :: 0 <= i < |s| ==> q(s[i])
    ensures forall i :: 0 <= i < |Filter(s, p)| ==> q(Filter(s, p)[i])
  {
    if s != [] {
      FilterAll(s[..|s| - 1], p, q);
    }
  }

  /** Every standardized row carries the source's name as its `source_file`. */
  lemma StandardizeProvenance(table: RawTable, cands: Candidates, parsers: Parsers, sourceName: string)
    ensures var r := Standardize(table, cands, parsers, sourceName);
      r.Ok? ==> forall k :: 0 <= k < |r.value| ==> r.value[k].sourceFile == sourceName
  {
    var out := StandardizeRows(table.rows, Resolve(table.columns, cands), parsers, sourceName);
    assert forall i :: 0 <= i < |out| ==> out[i].sourceFile == sourceName;
    FilterAll(out, HasId, (x: Record) => x.sourceFile == sourceName);
  }

  /** No standardized row has an empty id, and no id contains whitespace, not even inside. */
  lemma StandardizeIds(table: RawTable, cands: Candidates, parsers: Parsers, sourceName: string)
    ensures var r := Standardize(table, cands, parsers, sourceName);
      r.Ok? ==> forall k :: 0 <= k < |r.value| ==> r.value[k].siteId != "" && NoSpace(r.value[k].siteId)
  {
    var cols := Resolve(table.columns, cands);
    var out := StandardizeRows(table.rows, cols, parsers, sourceName);
    forall i | 0 <= i < |out|
      ensures NoSpace(out[i].siteId)
    {
      StandardizeRowFields(table.rows[i], cols, parsers, sourceName, SiteId);
    }
    FilterAll(out, HasId, (x: Record) => NoSpace(x.siteId));
  }

  /** Whether a raw row yields a non-empty id: its cell in the resolved id column normalizes to something. */
  function KeepsRow(cols: Field -> Option<string>): RawRow -> bool {
    (row: RawRow) =>
      match cols(SiteId)
      case Some(c) => NormalizeSiteId(Cell(row, c)) != ""
      case None => false
  }

  /** A row is kept exactly when its raw id cell is present and not all whitespace. */
  lemma KeepsRowSpec(cols: Field -> Option<string>, row: RawRow)
    ensures KeepsRow(cols)(row) <==>
      cols(SiteId).Some? && Cell(row, cols(SiteId).value).Present? && !AllSpace(Cell(row, cols(SiteId).value).text)
  {
  }

  lemma StandardizeRowsCount(rows: seq<RawRow>, cols: Field -> Option<string>, parsers: Parsers, sourceName: string)
    ensures Count(StandardizeRows(rows, cols, parsers, sourceName), HasId) == Count(rows, KeepsRow(cols))
  {
    forall i | 0 <= i < |rows|
      ensures HasId(RowOf(cols, parsers, sourceName)(rows[i])) == KeepsRow(cols)(rows[i])
    {
      StandardizeRowFields(rows[i], cols, parsers, sourceName, SiteId);
    }
    CountMap(rows, RowOf(cols, parsers, sourceName), HasId, KeepsRow(cols));
  }

  lemma {:induction false} NoneKept<T>(s: seq<T>, p: T -> bool)
    requires forall i :: 0 <= i < |s| ==> !p(s[i])
    ensures Count(s, p) == 0
  {
    if s != [] {
      NoneKept(s[..|s| - 1], p);
    }
  }

  /**
   * The output has one row per input row whose id normalizes to a non-empty string; in
   * particular, when no id column resolves, the output is empty.
   */
  lemma StandardizeCount(table: RawTable, cands: Candidates, parsers: Parsers, sourceName: string)
    ensures var r := Standardize(table, cands, parsers, sourceName);
      r.Ok? ==> |r.value| == Count(table.rows, KeepsRow(Resolve(table.columns, cands)))
    ensures var r := Standardize(table, cands, parsers, sourceName);
      r.Ok? && ColumnFor(table.columns, cands, SiteId).None? ==> r.value == []
  {
    var cols := Resolve(table.columns, cands);
    StandardizeRowsCount(table.rows, cols, parsers, sourceName);
    if cols(SiteId).None? {
      NoneKept(table.rows, KeepsRow(cols));
    }
  }

  /**
   * Standardizing the rows of two tables with the same header one after the other is
   * standardizing each: surviving rows keep their relative order.
   */
  lemma StandardizeAppend(columns: seq<string>, a: seq<RawRow>, b: seq<RawRow>, cands: Candidates,
                          parsers: Parsers, sourceName: string)
    ensures Standardize(RawTable(columns, a + b), cands, parsers, sourceName).Ok? ==>
      Standardize(RawTable(columns, a + b), cands, parsers, sourceName).value
      == Standardize(RawTable(columns, a), cands, parsers, sourceName).value
         + Standardize(RawTable(columns, b), cands, parsers, sourceName).value
  {
    var cols := Resolve(columns, cands);
    MapAppend(a, b, RowOf(cols, parsers, sourceName));
    FilterAppend(StandardizeRows(a, cols, parsers, sourceName), StandardizeRows(b, cols, parsers, sourceName), HasId);
  }

  /** A one-row table yields its standardized row exactly when that row's id is not empty. */
  lemma StandardizeSingle(columns: seq<string>, row: RawRow, cands: Candidates, parsers: Parsers, sourceName: string)
    ensures var r := Standardize(RawTable(columns, [row]), cands, parsers, sourceName);
      var rec := StandardizeRow(row, Resolve(columns, cands), parsers, sourceName);
      r.Ok? ==> r.value == if rec.siteId != "" then [rec] else []
  {
    var out := StandardizeRows([row], Resolve(columns, cands), parsers, sourceName);
    assert out[..0] == [];
  }

  // ----- Input files -----

  /** A path as its parts; Python orders paths by comparing their parts. */
  type Path = seq<string>

  /** `Path.name`: the last part. */
  function FileName(p: Path): string {
    if p == [] then "" else p[|p| - 1]
  }

  /** Position of the last `.` in `name` (`str.rfind`), or -1. */
  function LastDot(name: string): (i: int)
    ensures -1 <= i < |name|
    ensures i >= 0 ==> name[i] == '.'
    ensures forall j :: i < j < |name| ==> name[j] != '.'
  {
    if name == [] then -1
    else if name[|name| - 1] == '.' then |name| - 1
    else LastDot(name[..|name| - 1])
  }

  /**
   * `PurePath.suffix`: from the last dot on, unless that dot starts the name (a hidden file)
   * or ends it.
   */
  function Suffix(name: string): string {
    var i := LastDot(name);
    if 0 < i < |name| - 1 then name[i..] else ""
  }

  /**
   * A suffix is empty or a proper ending of the name that starts with its only dot and has
   * something after it; it is empty exactly when the last dot starts or ends the name or
   * there is none.
   */
  lemma SuffixSpec(name: string)
    ensures var s := Suffix(name);
      && (s != "" ==> 2 <= |s| < |name| && s == name[|name| - |s|..] && s[0] == '.'
                      && (forall j :: 0 < j < |s| ==> s[j] != '.'))
      && (s == "" <==> LastDot(name) <= 0 || LastDot(name) == |name| - 1)
  {
  }

  /** `station.csv` has the suffix `.csv`; a bare `.csv` is a hidden file with none; `a.tar.xlsx` ends in `.xlsx`. */
  lemma SuffixExamples()
    ensures Suffix("station.csv") == ".csv"
    ensures Suffix(".csv") == ""
    ensures Suffix("a.tar.xlsx") == ".xlsx"
    ensures Suffix("notes.") == ""
  {
    assert LastDot("station.csv") == 7 by {
      assert "station.csv"[..10] == "station.cs";
      assert "station.cs"[..9] == "station.c";
      assert "station.c"[..8] == "station.";
    }
    assert LastDot("a.tar.xlsx") == 5 by {
      assert "a.tar.xlsx"[..9] == "a.tar.xls";
      assert "a.tar.xls"[..8] == "a.tar.xl";
      assert "a.tar.xl"[..7] == "a.tar.x";
      assert "a.tar.x"[..6] == "a.tar.";
    }
    assert LastDot(".csv") == 0 by {
      assert ".csv"[..3] == ".cs";
      assert ".cs"[..2] == ".c";
      assert ".c"[..1] == ".";
    }
  }

  /** `SUPPORTED`. */
  const Supported: set<string> := {".csv", ".xlsx"}

  /** The lower-cased suffix is one `read_any` reads. */
  predicate IsSupported(p: Path) {
    Lower(Suffix(FileName(p))) in Supported
  }

  datatype FileKind = Csv | Xlsx

  /**
   * `read_any`: the suffix, lower-cased, picks the reader; `read` stands for `pd.read_csv`
   * and `pd.read_excel` on the first sheet.
   */
  function ReadAny(p: Path, read: (Path, FileKind) -> RawTable): Result<RawTable, Error> {
    var suffix := Lower(Suffix(FileName(p)));
    if suffix == ".csv" then Ok(read(p, Csv))
    else if suffix == ".xlsx" then Ok(read(p, Xlsx))
    else Err(UnsupportedFile(FileName(p)))
  }

  /** `read_any` reads a file exactly when its suffix is supported, and otherwise names the file. */
  lemma ReadAnySpec(p: Path, read: (Path, FileKind) -> RawTable)
    ensures ReadAny(p, read).Ok? <==> IsSupported(p)
    ensures ReadAny(p, read).Err? ==> ReadAny(p, read).error == UnsupportedFile(FileName(p))
    ensures ReadAny(p, read).Ok? ==>
      ReadAny(p, read).value == read(p, if Lower(Suffix(FileName(p))) == ".csv" then Csv else Xlsx)
  {
  }

  function PathKey(p: Path): Path {
    p
  }

  /** `sorted(input_dir.glob(g))`: one pattern's matches in path order; `glob` stands for the directory listing. */
  function Matches(glob: string -> seq<Path>, g: string): seq<Path> {
    SortBy(glob(g), PathKey, StrsLt)
  }

  /** One pattern's matches are exactly the listed paths, each as often as listed, in ascending path order. */
  lemma MatchesSpec(glob: string -> seq<Path>, g: string)
    ensures multiset(Matches(glob, g)) == multiset(glob(g))
    ensures SortedBy(Matches(glob, g), PathKey, StrsLt)
  {
    StrsLtStrictTotal();
    SortBySorted(glob(g), PathKey, StrsLt);
  }

  /** Lines 66-68: the matches of each pattern, pattern after pattern. */
  function Discovered(globs: seq<string>, glob: string -> seq<Path>): seq<Path> {
    if globs == [] then []
    else Discovered(globs[..|globs| - 1], glob) + Matches(glob, globs[|globs| - 1])
  }

  /** Line 70: the discovered paths with a supported suffix; the others are skipped, not refused. */
  function SelectedPaths(globs: seq<string>, glob: string -> seq<Path>): seq<Path> {
    Filter(Discovered(globs, glob), IsSupported)
  }

  /** Every selected path is one `read_any` reads, so its `ValueError` cannot be raised by a run. */
  lemma SelectedReadable(globs: seq<string>, glob: string -> seq<Path>, read: (Path, FileKind) -> RawTable)
    ensures forall k :: 0 <= k < |SelectedPaths(globs, glob)| ==> ReadAny(SelectedPaths(globs, glob)[k], read).Ok?
  {
  }

  /** A path is selected as often as it is discovered when its suffix is supported, and never otherwise. */
  lemma SelectedSpec(globs: seq<string>, glob: string -> seq<Path>, p: Path)
    ensures multiset(SelectedPaths(globs, glob))[p] == if IsSupported(p) then multiset(Discovered(globs, glob))[p] else 0
  {
    FilterMultiset(Discovered(globs, glob), IsSupported);
  }

  // ----- The run -----

  /**
   * The part of the configuration the core reads: `input_globs` (absent means the default),
   * the candidate lists, and the `flag_if_coords_outside_az` rule.
   */
  datatype Config = Config(inputGlobs: Option<seq<string>>, candidates: Candidates, bboxRule: Option<bool>)

  const DefaultGlobs: seq<string> := ["*.csv", "*.xlsx"]

  function Globs(cfg: Config): seq<string> {
    cfg.inputGlobs.GetOr(DefaultGlobs)
  }

  /** What the run sees of the outside world: the directory listing, the file readers, the parsers. */
  datatype Env = Env(glob: string -> seq<Path>, read: (Path, FileKind) -> RawTable, parsers: Parsers)

  /** One file's contribution: read it, then standardize it under its file name. */
  function Part(p: Path, cfg: Config, env: Env): Result<seq<Record>, Error> {
    match ReadAny(p, env.read)
    case Err(e) => Err(e)
    case Ok(t) => Standardize(t, cfg.candidates, env.parsers, FileName(p))
  }

  function PartOf(cfg: Config, env: Env): Path -> Result<seq<Record>, Error> {
    p => Part(p, cfg, env)
  }

  /** Lines 75-79: the parts in path order, or the error of the first file that raises. */
  function Parts(paths: seq<Path>, cfg: Config, env: Env): Result<seq<seq<Record>>, Error> {
    MapResult(paths, PartOf(cfg, env))
  }

  /** The counts `run_pipeline` returns, with the tables they count. */
  datatype Summary = Summary(
    header: seq<string>, master: seq<Record>, qa: seq<Finding>, duplicates: seq<Record>,
    rowsMaster: nat, rowsDuplicates: nat, qaRows: nat)

  /** `run_pipeline` without its file writes: select, standardize, merge, reorder, check. */
  function Run(cfg: Config, env: Env): Result<Summary, Error> {
    var paths := SelectedPaths(Globs(cfg), env.glob);
    if paths == [] then Err(NoInputFiles)
    else
      match Parts(paths, cfg, env)
      case Err(e) => Err(e)
      case Ok(parts) =>
        var master := Concat(parts);
        var qa := QaReport(master, FlagBbox(cfg.bboxRule));
        var dups := FindDuplicates(master);
        Ok(Summary(MasterHeader, master, qa, dups, |master|, |dups|, |qa|))
  }

  /**
   * Lines 84-86: each canonical column the table lacks is added, in schema order, after the
   * columns it has; a table that has them all is left as it is.
   */
  method FillMissingColumns(columns: seq<string>) returns (filled: seq<string>)
    ensures |columns| <= |filled| && filled[..|columns|] == columns
    ensures forall c :: c in MasterColOrder ==> c in filled
    ensures forall i :: |columns| <= i < |filled| ==> filled[i] in MasterColOrder && filled[i] !in columns
    ensures (forall c :: c in MasterColOrder ==> c in columns) ==> filled == columns
  {
    filled := columns;
    var i := 0;
    while i < |MasterColOrder|
      invariant i <= |MasterColOrder|
      invariant |columns| <= |filled| && filled[..|columns|] == columns
      invariant forall j :: 0 <= j < i ==> MasterColOrder[j] in filled
      invariant forall k :: |columns| <= k < |filled| ==> filled[k] in MasterColOrder && filled[k] !in columns
      invariant (forall c :: c in MasterColOrder ==> c in columns) ==> filled == columns
    {
      var col := MasterColOrder[i];
      if col !in filled {
        filled := filled + [col];
      }
      i := i + 1;
    }
  }

  /** Line 87, `master[wanted]`: the columns in the wanted order, or `None` (a `KeyError`) when one is absent. */
  method ProjectColumns(columns: seq<string>, wanted: seq<string>) returns (r: Option<seq<string>>)
    ensures r.Some? <==> forall i :: 0 <= i < |wanted| ==> wanted[i] in columns
    ensures r.Some? ==> r.value == wanted
  {
    var selected: seq<string> := [];
    var i := 0;
    while i < |wanted|
      invariant i <= |wanted|
      invariant selected == wanted[..i]
      invariant forall j :: 0 <= j < i ==> wanted[j] in columns
    {
      if wanted[i] !in columns {
        return None;
      }
      selected := selected + [wanted[i]];
      i := i + 1;
    }
    assert wanted[..i] == wanted;
    r := Some(selected);
  }

  /** The columns of a standardized part: the ten canonical ones, then `source_file`. */
  const PartColumns: seq<string> := MasterColOrder + [SourceFile]

  /** Lines 66-68: extend the path list with each pattern's sorted matches, pattern after pattern. */
  method DiscoverPaths(globs: seq<string>, glob: string -> seq<Path>) returns (found: seq<Path>)
    ensures found == Discovered(globs, glob)
  {
    found := [];
    var g := 0;
    while g < |globs|
      invariant g <= |globs|
      invariant found == Discovered(globs[..g], glob)
    {
      assert globs[..g + 1][..g] == globs[..g];
      found := found + SortBy(glob(globs[g]), PathKey, StrsLt);
      g := g + 1;
    }
    assert globs[..g] == globs;
  }

  /** Lines 77-78 for one path. */
  method ReadAndStandardize(p: Path, cfg: Config, env: Env) returns (r: Result<seq<Record>, Error>)
    ensures r == Part(p, cfg, env)
  {
    var table := ReadAny(p, env.read);
    if table.Err? {
      return Err(table.error);
    }
    r := StandardizeOne(table.value, cfg.candidates, env.parsers, FileName(p));
  }

  /** Lines 75-79: standardize the files in order, stopping at the first that raises. */
  method StandardizeAll(paths: seq<Path>, cfg: Config, env: Env) returns (r: Result<seq<seq<Record>>, Error>)
    ensures r == Parts(paths, cfg, env)
  {
    var parts: seq<seq<Record>> := [];
    ghost var f := PartOf(cfg, env);
    var k := 0;
    while k < |paths|
      invariant k <= |paths|
      invariant MapResult(paths[..k], f) == Ok(parts)
    {
      var std := ReadAndStandardize(paths[k], cfg, env);
      assert f(paths[k]) == std;
      MapResultStep(paths, k, f, parts);
      if std.Err? {
        return Err(std.error);
      }
      parts := parts + [std.value];
      k := k + 1;
    }
    assert paths[..k] == paths;
    r := Ok(parts);
  }

  /** `run_pipeline`: select the files, standardize each, merge, reorder, and build both reports. */
  method RunPipeline(cfg: Config, env: Env) returns (r: Result<Summary, Error>)
    ensures r == Run(cfg, env)
  {
    var globs := cfg.inputGlobs.GetOr(DefaultGlobs);
    var found := DiscoverPaths(globs, env.glob);
    var paths := Filter(found, IsSupported);
    if paths == [] {
      return Err(NoInputFiles);
    }
    var parts := StandardizeAll(paths, cfg, env);
    if parts.Err? {
      return Err(parts.error);
    }
    var master := Concat(parts.value);

    var columns := FillMissingColumns(PartColumns);
    assert SourceFile == columns[|PartColumns| - 1];
    var projected := ProjectColumns(columns, MasterColOrder + [SourceFile]);
    assert projected.Some?;
    var header := projected.value;

    var qa := BuildQaReport(master, cfg.bboxRule);
    var dups := FindDuplicates(master);
    r := Ok(Summary(header, master, qa, dups, |master|, |dups|, |qa|));
  }

  /**
   * A run stops with "no input files" exactly when no discovered path has a supported
   * suffix; it never stops on an unsupported file; and otherwise it stops only when a
   * canonical column has no candidate list.
   */
  lemma RunErrors(cfg: Config, env: Env)
    ensures Run(cfg, env) == Err(NoInputFiles) <==> SelectedPaths(Globs(cfg), env.glob) == []
    ensures Run(cfg, env).Err? ==> !Run(cfg, env).error.UnsupportedFile?
    ensures Run(cfg, env).Err? <==>
      SelectedPaths(Globs(cfg), env.glob) == []
      || exists i :: 0 <= i < |MasterColOrder| && MasterColOrder[i] !in cfg.candidates
  {
    var paths := SelectedPaths(Globs(cfg), env.glob);
    if paths != [] {
      SelectedReadable(Globs(cfg), env.glob, env.read);
      var k := MapResultErr(paths, PartOf(cfg, env));
      var k0 := if Parts(paths, cfg, env).Err? then k else 0;
      var t := ReadAny(paths[k0], env.read).value;
      StandardizeFails(t, cfg.candidates, env.parsers, FileName(paths[k0]));
      assert PartOf(cfg, env)(paths[k0]) == Standardize(t, cfg.candidates, env.parsers, FileName(paths[k0]));
    }
  }

  /**
   * A successful run's master table is the parts one after the other, each the standardized
   * rows of one selected file in selection order; it has the master header; every row has a
   * non-empty id and comes from a selected file; the reports are those of the master table;
   * and the returned counts are the tables' lengths.
   */
  lemma RunMaster(cfg: Config, env: Env)
    ensures var r := Run(cfg, env);
      var paths := SelectedPaths(Globs(cfg), env.glob);
      r.Ok? ==>
        && Parts(paths, cfg, env).Ok?
        && |Parts(paths, cfg, env).value| == |paths|
        && (forall k :: 0 <= k < |paths| ==> Part(paths[k], cfg, env) == Ok(Parts(paths, cfg, env).value[k]))
        && r.value.master == Concat(Parts(paths, cfg, env).value)
        && |r.value.master| == TotalLength(Parts(paths, cfg, env).value)
        && r.value.header == MasterColOrder + [SourceFile]
        && (forall i :: 0 <= i < |r.value.master| ==> r.value.master[i].siteId != "")
        && (forall i :: 0 <= i < |r.value.master| ==> r.value.master[i].sourceFile in FileNames(paths))
        && r.value.qa == QaReport(r.value.master, FlagBbox(cfg.bboxRule))
        && r.value.duplicates == FindDuplicates(r.value.master)
        && r.value.rowsMaster == |r.value.master| && r.value.rowsDuplicates == |r.value.duplicates|
        && r.value.qaRows == |r.value.qa| >= 1
  {
    var r := Run(cfg, env);
    var paths := SelectedPaths(Globs(cfg), env.glob);
    if r.Ok? {
      var parts: seq<seq<Record>> := Parts(paths, cfg, env).value;
      MapResultOk(paths, PartOf(cfg, env));
      SelectedReadable(Globs(cfg), env.glob, env.read);
      forall k | 0 <= k < |paths|
        ensures Part(paths[k], cfg, env) == Ok(parts[k])
      {
        assert PartOf(cfg, env)(paths[k]) == Ok(parts[k]);
      }
      forall k, j | 0 <= k < |parts| && 0 <= j < |parts[k]|
        ensures parts[k][j].siteId != "" && parts[k][j].sourceFile in FileNames(paths)
      {
        var t := ReadAny(paths[k], env.read).value;
        StandardizeIds(t, cfg.candidates, env.parsers, FileName(paths[k]));
        StandardizeProvenance(t, cfg.candidates, env.parsers, FileName(paths[k]));
      }
      ConcatAll(parts, HasId);
      ConcatAll(parts, (x: Record) => x.sourceFile in FileNames(paths));
      QaReportSpec(r.value.master, FlagBbox(cfg.bboxRule));
    }
  }

  /** The names of the files on a list of paths. */
  function FileNames(paths: seq<Path>): set<string> {
    set k | 0 <= k < |paths| :: FileName(paths[k])
  }
}
