/**
 * The QA engine and the duplicate detector (src/qa.py): counting checks over the master table
 * and the rows whose `site_id` is shared.
 */
module Qa {
  import opened Wrappers
  import opened Seqs
  import opened Order
  import opened Utils
  import opened Schema

  /** `in_arizona_bbox`: the rough rectangle around Arizona, edges included. */
  predicate InArizonaBbox(lat: Option<real>, lon: Option<real>) {
    lat.Some? && lon.Some? && 31.0 <= lat.value <= 37.5 && -115.2 <= lon.value <= -108.7
  }

  /**
   * A missing coordinate is never inside; the four corners of the box are inside, since the
   * edges are included; points just beyond an edge are outside.
   */
  lemma BboxSpec(lat: Option<real>, lon: Option<real>)
    ensures !InArizonaBbox(None, lon) && !InArizonaBbox(lat, None)
    ensures InArizonaBbox(Some(31.0), Some(-115.2)) && InArizonaBbox(Some(37.5), Some(-108.7))
    ensures InArizonaBbox(Some(31.0), Some(-108.7)) && InArizonaBbox(Some(37.5), Some(-115.2))
    ensures !InArizonaBbox(Some(30.9), Some(-110.0)) && !InArizonaBbox(Some(37.6), Some(-110.0))
    ensures !InArizonaBbox(Some(33.0), Some(-115.3)) && !InArizonaBbox(Some(33.0), Some(-108.6))
  {
  }

  /** Every point on an edge of the box is inside. */
  lemma BboxEdges(a: real, o: real)
    requires 31.0 <= a <= 37.5 && -115.2 <= o <= -108.7
    ensures InArizonaBbox(Some(a), Some(-115.2)) && InArizonaBbox(Some(a), Some(-108.7))
    ensures InArizonaBbox(Some(31.0), Some(o)) && InArizonaBbox(Some(37.5), Some(o))
  {
  }

  /** Every point beyond an edge is outside. */
  lemma BboxBeyond(a: real, o: real)
    requires a < 31.0 || a > 37.5 || o < -115.2 || o > -108.7
    ensures !InArizonaBbox(Some(a), Some(o))
  {
  }

  /** The box is a rectangle: a point between two inside points, coordinate by coordinate, is inside. */
  lemma BboxConvex(a1: real, o1: real, a2: real, o2: real, a: real, o: real)
    requires InArizonaBbox(Some(a1), Some(o1)) && InArizonaBbox(Some(a2), Some(o2))
    requires a1 <= a <= a2 && o1 <= o <= o2
    ensures InArizonaBbox(Some(a), Some(o))
  {
  }

  predicate MissingCoords(r: Record) { r.lat.None? || r.lon.None? }

  predicate HasCoords(r: Record) { r.lat.Some? && r.lon.Some? }

  predicate NotInAz(r: Record) { !InArizonaBbox(r.lat, r.lon) }

  predicate OutsideBbox(r: Record) { HasCoords(r) && NotInAz(r) }

  /** `operator` is empty once stripped (`fillna("").str.strip() == ""`). */
  predicate BlankOperator(r: Record) { Strip(r.operator) == "" }

  predicate BlankName(r: Record) { Strip(r.name) == "" }

  /** The vocabulary of the QA report. */
  datatype Check = MissingCoordsCheck | CoordsOutsideAzBbox | MissingOperator | MissingName | NoIssuesFound

  function CheckName(c: Check): string {
    match c
    case MissingCoordsCheck => "missing_coords"
    case CoordsOutsideAzBbox => "coords_outside_az_bbox"
    case MissingOperator => "missing_operator"
    case MissingName => "missing_name"
    case NoIssuesFound => "no_issues_found"
  }

  /** The order in which the checks run and their findings are appended. */
  function Rank(c: Check): nat {
    match c
    case MissingCoordsCheck => 0
    case CoordsOutsideAzBbox => 1
    case MissingOperator => 2
    case MissingName => 3
    case NoIssuesFound => 4
  }

  /** One row of the QA report: `{"check": ..., "count": ...}`. */
  datatype Finding = Finding(check: Check, count: nat)

  /**
   * The number of offending rows a check finds. The bounding-box check looks only at the rows
   * left after dropping those with a missing coordinate.
   */
  function IssueCount(master: seq<Record>, c: Check): (n: nat)
    ensures n <= |master|
  {
    match c
    case MissingCoordsCheck => Count(master, MissingCoords)
    case CoordsOutsideAzBbox => Count(Filter(master, HasCoords), NotInAz)
    case MissingOperator => Count(master, BlankOperator)
    case MissingName => Count(master, BlankName)
    case NoIssuesFound => 0
  }

  /** `rules.get("flag_if_coords_outside_az", True)`: the bounding-box check is on unless configured off. */
  function FlagBbox(rule: Option<bool>): bool {
    rule.GetOr(true)
  }

  /** The checks that run: all four issue checks, the bounding-box one only when its rule is on. */
  predicate Enabled(c: Check, flagBbox: bool) {
    c != NoIssuesFound && (c == CoordsOutsideAzBbox ==> flagBbox)
  }

  /** The count every check reports on `master`. */
  function Counts(master: seq<Record>): Check -> nat {
    c => IssueCount(master, c)
  }

  /** The finding check `c` contributes when it runs: one row when its count is nonzero. */
  function Issue(count: Check -> nat, c: Check, runs: bool): seq<Finding> {
    if runs && count(c) > 0 then [Finding(c, count(c))] else []
  }

  /** The findings of the enabled checks with a nonzero count, in the order the checks run. */
  function Flagged(count: Check -> nat, flagBbox: bool): seq<Finding> {
    Issue(count, MissingCoordsCheck, true) + Issue(count, CoordsOutsideAzBbox, flagBbox)
    + Issue(count, MissingOperator, true) + Issue(count, MissingName, true)
  }

  /** The report built from the counts: the flagged findings, or the fallback row when there are none. */
  function Report(count: Check -> nat, flagBbox: bool): seq<Finding> {
    var flagged := Flagged(count, flagBbox);
    if flagged == [] then [Finding(NoIssuesFound, 0)] else flagged
  }

  /** The report `build_qa_report` returns for `master`. */
  function QaReport(master: seq<Record>, flagBbox: bool): seq<Finding> {
    Report(Counts(master), flagBbox)
  }

  /**
   * `rows` is what the checks ranked below `k` leave behind: one finding per such enabled
   * check with a nonzero count, carrying that count, in rank order.
   */
  ghost predicate ReportedUpTo(rows: seq<Finding>, count: Check -> nat, flagBbox: bool, k: nat) {
    && (forall i :: 0 <= i < |rows| ==>
          Enabled(rows[i].check, flagBbox) && Rank(rows[i].check) < k && 0 < rows[i].count == count(rows[i].check))
    && (forall i, j :: 0 <= i < j < |rows| ==> Rank(rows[i].check) < Rank(rows[j].check))
    && (forall c :: Enabled(c, flagBbox) && Rank(c) < k ==> (count(c) > 0 <==> Finding(c, count(c)) in rows))
  }

  /** Running the check of rank `k` extends a report of the checks below it to one of the checks up to it. */
  lemma ReportedStep(rows: seq<Finding>, count: Check -> nat, flagBbox: bool, c: Check, k: nat, runs: bool)
    requires c != NoIssuesFound && Rank(c) == k && runs == Enabled(c, flagBbox)
    requires ReportedUpTo(rows, count, flagBbox, k)
    ensures ReportedUpTo(rows + Issue(count, c, runs), count, flagBbox, k + 1)
  {
    var rows' := rows + Issue(count, c, runs);
    forall c' | Enabled(c', flagBbox) && Rank(c') < k + 1
      ensures count(c') > 0 <==> Finding(c', count(c')) in rows'
    {
      if c' != c {
        assert Finding(c', count(c')) in rows' <==> Finding(c', count(c')) in rows;
      }
    }
  }

  /** The finding of the first check is the report of the checks ranked below 1. */
  lemma FirstReported(count: Check -> nat, flagBbox: bool)
    ensures ReportedUpTo(Issue(count, MissingCoordsCheck, true), count, flagBbox, 1)
  {
    if count(MissingCoordsCheck) > 0 {
      assert Issue(count, MissingCoordsCheck, true) == [Finding(MissingCoordsCheck, count(MissingCoordsCheck))];
    } else {
      assert Issue(count, MissingCoordsCheck, true) == [];
    }
  }

  /** The findings of the two coordinate checks are the report of the checks ranked below 2. */
  lemma CoordinatesReported(count: Check -> nat, flagBbox: bool)
    ensures ReportedUpTo(Issue(count, MissingCoordsCheck, true) + Issue(count, CoordsOutsideAzBbox, flagBbox),
                         count, flagBbox, 2)
  {
    FirstReported(count, flagBbox);
    ReportedStep(Issue(count, MissingCoordsCheck, true), count, flagBbox, CoordsOutsideAzBbox, 1, flagBbox);
  }

  /** The findings of the first three checks are the report of the checks ranked below 3. */
  lemma ThreeReported(count: Check -> nat, flagBbox: bool)
    ensures ReportedUpTo(Issue(count, MissingCoordsCheck, true) + Issue(count, CoordsOutsideAzBbox, flagBbox)
                         + Issue(count, MissingOperator, true), count, flagBbox, 3)
  {
    CoordinatesReported(count, flagBbox);
    var r2 := Issue(count, MissingCoordsCheck, true) + Issue(count, CoordsOutsideAzBbox, flagBbox);
    ReportedStep(r2, count, flagBbox, MissingOperator, 2, true);
  }

  /** The flagged findings are the report of all four checks. */
  lemma FlaggedReported(count: Check -> nat, flagBbox: bool)
    ensures ReportedUpTo(Flagged(count, flagBbox), count, flagBbox, 4)
  {
    ThreeReported(count, flagBbox);
    var r3 := Issue(count, MissingCoordsCheck, true) + Issue(count, CoordsOutsideAzBbox, flagBbox)
      + Issue(count, MissingOperator, true);
    ReportedStep(r3, count, flagBbox, MissingName, 3, true);
  }

  /**
   * Whatever the counts, the report has one finding per enabled check with a nonzero count,
   * in the fixed order, each carrying its count, and is `[("no_issues_found", 0)]` exactly
   * when there is none.
   */
  lemma ReportSpec(count: Check -> nat, flagBbox: bool)
    ensures var report := Report(count, flagBbox);
      && |report| >= 1
      && (report == [Finding(NoIssuesFound, 0)] <==>
            forall c :: Enabled(c, flagBbox) ==> count(c) == 0)
      && (forall i :: 0 <= i < |report| && report[i].check == NoIssuesFound ==>
            report == [Finding(NoIssuesFound, 0)])
      && (forall c :: Enabled(c, flagBbox) ==>
            (count(c) > 0 <==> Finding(c, count(c)) in report))
      && (forall i :: 0 <= i < |report| && report[i].check != NoIssuesFound ==>
            Enabled(report[i].check, flagBbox) && 0 < report[i].count == count(report[i].check))
      && (forall i, j :: 0 <= i < j < |report| ==> Rank(report[i].check) < Rank(report[j].check))
  {
    var flagged := Flagged(count, flagBbox);
    FlaggedReported(count, flagBbox);
    if flagged != [] {
      assert Enabled(flagged[0].check, flagBbox) && count(flagged[0].check) > 0;
    }
  }

  /**
   * The report on `master` has one finding per enabled check with a nonzero count, in the
   * fixed order, each carrying that count (never more than the number of rows), and exactly
   * `[("no_issues_found", 0)]` when there is none.
   */
  lemma QaReportSpec(master: seq<Record>, flagBbox: bool)
    ensures var report := QaReport(master, flagBbox);
      && |report| >= 1
      && (report == [Finding(NoIssuesFound, 0)] <==>
            forall c :: Enabled(c, flagBbox) ==> IssueCount(master, c) == 0)
      && (forall i :: 0 <= i < |report| && report[i].check == NoIssuesFound ==>
            report == [Finding(NoIssuesFound, 0)])
      && (forall c :: Enabled(c, flagBbox) ==>
            (IssueCount(master, c) > 0 <==> Finding(c, IssueCount(master, c)) in report))
      && (forall i :: 0 <= i < |report| && report[i].check != NoIssuesFound ==>
            Enabled(report[i].check, flagBbox) && 0 < report[i].count == IssueCount(master, report[i].check))
      && (forall i :: 0 <= i < |report| ==> report[i].count <= |master|)
      && (forall i, j :: 0 <= i < j < |report| ==> Rank(report[i].check) < Rank(report[j].check))
  {
    ReportSpec(Counts(master), flagBbox);
  }

  /** Appends the finding of a check that counted `n` offending rows, when `n` is nonzero. */
  method AppendFinding(rows: seq<Finding>, c: Check, n: nat, ghost count: Check -> nat) returns (rows': seq<Finding>)
    requires n == count(c)
    ensures rows' == rows + Issue(count, c, true)
  {
    rows' := rows;
    if n > 0 {
      rows' := rows' + [Finding(c, n)];
    } else {
      assert rows' == rows + [];
    }
  }

  /** `build_qa_report`: the checks run in order, each appending its finding when its count is nonzero. */
  method BuildQaReport(master: seq<Record>, bboxRule: Option<bool>) returns (report: seq<Finding>)
    ensures report == QaReport(master, FlagBbox(bboxRule))
  {
    var flagBbox := bboxRule.GetOr(true);
    ghost var count := Counts(master);
    var rows: seq<Finding> := [];
    var missingCoords := IssueCount(master, MissingCoordsCheck);
    rows := AppendFinding(rows, MissingCoordsCheck, missingCoords, count);
    assert rows == Issue(count, MissingCoordsCheck, true);
    if flagBbox {
      var outside := IssueCount(master, CoordsOutsideAzBbox);
      rows := AppendFinding(rows, CoordsOutsideAzBbox, outside, count);
    } else {
      assert rows == rows + Issue(count, CoordsOutsideAzBbox, flagBbox);
    }
    var missingOperator := IssueCount(master, MissingOperator);
    rows := AppendFinding(rows, MissingOperator, missingOperator, count);
    var missingName := IssueCount(master, MissingName);
    rows := AppendFinding(rows, MissingName, missingName, count);
    if rows == [] {
      rows := rows + [Finding(NoIssuesFound, 0)];
    }
    report := rows;
  }

  /**
   * The coordinate checks split the table: every row lacks a coordinate or has both, and
   * the bounding-box count is the number of rows with both coordinates outside the box.
   */
  lemma {:induction false} CoordinateCounts(master: seq<Record>)
    ensures IssueCount(master, MissingCoordsCheck) + Count(master, HasCoords) == |master|
    ensures IssueCount(master, CoordsOutsideAzBbox) == Count(master, OutsideBbox)
    ensures IssueCount(master, CoordsOutsideAzBbox) <= Count(master, HasCoords)
  {
    if master != [] {
      var m' := master[..|master| - 1];
      CoordinateCounts(m');
      var last := master[|master| - 1];
      CountAppend(Filter(m', HasCoords), if HasCoords(last) then [last] else [], NotInAz);
    }
  }

  /** For text that is already stripped, as every standardized cell is, "blank" means empty. */
  lemma BlankMeansEmpty(s: string)
    requires Trimmed(s)
    ensures Strip(s) == "" <==> s == ""
  {
    TrimmedStrip(s);
  }

  function HasSiteId(id: string): Record -> bool {
    (r: Record) => r.siteId == id
  }

  /** How many rows of `master` carry `id`. */
  function Occurrences(master: seq<Record>, id: string): nat {
    Count(master, HasSiteId(id))
  }

  /** `master[site_id].duplicated(keep=False)`: the row's id occurs at least twice in the table. */
  function RepeatedIn(master: seq<Record>): Record -> bool {
    (r: Record) => Occurrences(master, r.siteId) >= 2
  }

  /** The sort key of the duplicates table. */
  function DupKey(r: Record): seq<string> {
    [r.siteId, r.operator, r.sourceFile]
  }

  /** `find_duplicates`: every row whose id is shared, sorted by (site_id, operator, source_file). */
  function FindDuplicates(master: seq<Record>): seq<Record> {
    var d := Filter(master, RepeatedIn(master));
    if |d| == 0 then d else SortBy(d, DupKey, StrsLt)
  }

  /**
   * The duplicates are exactly the rows of `master` whose id occurs at least twice, each with
   * its multiplicity, and they come sorted by (site_id, operator, source_file).
   */
  lemma FindDuplicatesSpec(master: seq<Record>)
    ensures forall r {:trigger multiset(FindDuplicates(master))[r]} ::
      multiset(FindDuplicates(master))[r] == if Occurrences(master, r.siteId) >= 2 then multiset(master)[r] else 0
    ensures SortedBy(FindDuplicates(master), DupKey, StrsLt)
  {
    var d := Filter(master, RepeatedIn(master));
    FilterMultiset(master, RepeatedIn(master));
    StrsLtStrictTotal();
    SortBySorted(d, DupKey, StrsLt);
  }

  /** A shared id brings in at least two rows, so the duplicates table never has exactly one row. */
  lemma FindDuplicatesNeverSingle(master: seq<Record>)
    ensures |FindDuplicates(master)| != 1
  {
    var d := Filter(master, RepeatedIn(master));
    if |d| == 1 {
      var id := d[0].siteId;
      CountFilterKeeps(master, RepeatedIn(master), HasSiteId(id));
    }
  }

  /** There are no duplicates exactly when no two rows share an id. */
  lemma FindDuplicatesEmpty(master: seq<Record>)
    ensures FindDuplicates(master) == [] <==>
      forall i, j :: 0 <= i < j < |master| ==> master[i].siteId != master[j].siteId
  {
    var d := Filter(master, RepeatedIn(master));
    CountPositive(master, RepeatedIn(master));
    if exists i, j :: 0 <= i < j < |master| && master[i].siteId == master[j].siteId {
      var i, j :| 0 <= i < j < |master| && master[i].siteId == master[j].siteId;
      TwoCounted(master, HasSiteId(master[i].siteId), i, j);
      assert RepeatedIn(master)(master[i]);
    } else if d != [] {
      var k :| 0 <= k < |master| && RepeatedIn(master)(master[k]);
      var i, j := TwoWitnesses(master, HasSiteId(master[k].siteId));
    }
  }
}
