/**
 * The rows of the tables the statistical analysis consumes: cohort
 * stays, clinical events, and the group keys the outcome tables are
 * indexed by.
 */
module Records {
  import opened Tables
  import opened Dates

  /** A value of a free-form column of a cohort row; `Null` is polars' null. */
  datatype Cell = Null | IntCell(i: int) | StrCell(s: string)

  /**
   * One qualifying hospital stay. `dims` holds the remaining columns by
   * name (care_site_id, stay_type, CMD, CMD_code, MCD, ...), of which the
   * sensitivity variables are a selection.
   */
  datatype CohortRow = CohortRow(
    visitCohortId: int,
    personId: int,
    stayStart: Date,
    stayEnd: Date,
    subCohort: Date,
    dims: map<string, Cell>)

  /**
   * One clinical event. `date` is the event-date column (`col_date`),
   * nullable; `attrs` holds the textual columns a regular expression may
   * be applied to (note_type, condition code, ...), nullable.
   */
  datatype EventRow = EventRow(
    visitOccurrenceId: int,
    personId: int,
    careSiteId: Option<int>,
    detailCareSiteId: Option<int>,
    detailCareSiteLevel: Option<string>,
    date: Option<Date>,
    attrs: map<string, Option<string>>)

  /** An event table; whether it carries a `detail_care_site_level` column. */
  datatype EventTable = EventTable(hasDetailLevel: bool, rows: seq<EventRow>)

  /** The values of the sensitivity variables and the time bucket of a row. */
  datatype GroupKey = GroupKey(dims: seq<Cell>, subCohort: Date)

  /** Every cohort row has every named column. */
  predicate HasColumns(cohort: seq<CohortRow>, vars: seq<string>)
  {
    forall r, v :: r in cohort && v in vars ==> v in r.dims
  }

  function Project(r: CohortRow, vars: seq<string>): (d: seq<Cell>)
    ensures |d| == |vars|
  {
    seq(|vars|, i requires 0 <= i < |vars| => if vars[i] in r.dims then r.dims[vars[i]] else Null)
  }

  /** The group key `sensibility_variables + ["sub_cohort"]` of a cohort row. */
  function Key(r: CohortRow, vars: seq<string>): GroupKey
  {
    GroupKey(Project(r, vars), r.subCohort)
  }

  function Keys(cohort: seq<CohortRow>, vars: seq<string>): (ks: seq<GroupKey>)
    ensures |ks| == |cohort|
    ensures forall i :: 0 <= i < |cohort| ==> ks[i] == Key(cohort[i], vars)
  {
    seq(|cohort|, i requires 0 <= i < |cohort| => Key(cohort[i], vars))
  }

  function VisitIds(events: seq<EventRow>): set<int>
  {
    set e | e in events :: e.visitOccurrenceId
  }

  function CohortIds(cohort: seq<CohortRow>): (ids: seq<int>)
    ensures |ids| == |cohort|
    ensures forall i :: 0 <= i < |cohort| ==> ids[i] == cohort[i].visitCohortId
  {
    seq(|cohort|, i requires 0 <= i < |cohort| => cohort[i].visitCohortId)
  }

  /** `rate = n_events / n_total`, exactly. */
  function Rate(nEvents: nat, nTotal: nat): (r: real)
    requires nTotal > 0
    ensures nEvents <= nTotal ==> 0.0 <= r <= 1.0
  {
    nEvents as real / nTotal as real
  }
}
