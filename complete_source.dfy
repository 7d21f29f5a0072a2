/**
 * Complete-source-only filtering: selecting the completeness estimates
 * of one care-site level and stratification, labelling each estimate
 * `stable_cs` for an observation window and a pair of stringency
 * thresholds, pushing the labels down to visits (a visit is stable only
 * if every care site it touches is), and keeping the events of stable
 * visits. Also the estimator of the threshold grid.
 */
module CompleteSource {
  import opened Tables
  import opened Dates
  import opened Records

  const UF: string := "Unité Fonctionnelle (UF)"
  const UH: string := "Unité d’hébergement (UH)"
  const Hospital: string := "Hôpital"

  /** The stratification columns an estimate table may carry. */
  datatype Stratum = NoteType | StayType | SpecialtiesSet | DiagType | SourceSystem | ConditionType

  /** The order in which the stratification filters are applied. */
  const FilterOrder: seq<Stratum> :=
    [NoteType, StayType, SpecialtiesSet, DiagType, SourceSystem, ConditionType]

  /**
   * One fitted completeness model: a care site (at a level) and a
   * stratification, its activation date `t_0`, plateau completeness
   * `c_0`, fit residual `error` and, for bounded models, `t_1`.
   * A stratum absent from `strata` is null in that row.
   */
  datatype EstimateRow = EstimateRow(
    careSiteId: int,
    careSiteLevel: string,
    t0: Date,
    c0: real,
    error: real,
    t1: Option<Date>,
    strata: map<Stratum, string>)

  /** An estimate table: its stratification columns and whether it has a `t_1` column. */
  datatype Estimates = Estimates(columns: set<Stratum>, hasT1: bool, rows: seq<EstimateRow>)

  /** The name the care-site identifier column goes by. */
  datatype SiteColumn = CareSiteIdColumn | DetailCareSiteIdColumn

  datatype FilteredEstimates = FilteredEstimates(idColumn: SiteColumn, hasT1: bool, rows: seq<EstimateRow>)

  /**
   * The keyword filters `note_type`, `stay_type`, ...: a stratum absent
   * from the map was passed as `None`.
   */
  type StrataFilter = map<Stratum, string>

  /** A filter is applied only when its value is truthy (not `None`, not empty). */
  predicate Active(filters: StrataFilter, s: Stratum)
  {
    s in filters && filters[s] != ""
  }

  function StratumValue(r: EstimateRow, s: Stratum): Option<string>
  {
    if s in r.strata then Some(r.strata[s]) else None
  }

  /** `r` passes the filter on stratum `s` (a null value never equals the filter). */
  predicate PassesStratum(r: EstimateRow, filters: StrataFilter, s: Stratum)
  {
    Active(filters, s) ==> StratumValue(r, s) == Some(filters[s])
  }

  predicate MatchesFilters(r: EstimateRow, filters: StrataFilter)
  {
    forall s :: PassesStratum(r, filters, s)
  }

  predicate IsDetailLevel(level: string)
  {
    level == UF || level == UH
  }

  /** The levels the stabiliser knows; any other is a configuration error. */
  predicate ValidLevel(level: string)
  {
    level == UF || level == UH || level == Hospital
  }

  /** The truthy filters applied one after the other, in `order`. */
  function ApplyFilters(rows: seq<EstimateRow>, filters: StrataFilter, order: seq<Stratum>): (r: seq<EstimateRow>)
    ensures forall x :: x in r <==> x in rows && forall s :: s in order ==> PassesStratum(x, filters, s)
    decreases |order|
  {
    if order == [] then rows
    else
      var s := order[0];
      var step := if Active(filters, s)
                  then Filter(rows, (x: EstimateRow) => StratumValue(x, s) == Some(filters[s]))
                  else rows;
      assert forall x :: x in step <==> x in rows && PassesStratum(x, filters, s);
      assert forall t :: t in order <==> t == s || t in order[1..];
      ApplyFilters(step, filters, order[1..])
  }

  /** Rows at `level` passing every truthy filter; the id column renamed for sub-hospital levels. */
  function FilterEstimates(est: Estimates, level: string, filters: StrataFilter, renaming: bool): (r: Result<FilteredEstimates>)
    ensures r.Err? <==> exists s :: Active(filters, s) && s !in est.columns
    ensures r.Err? ==> r.error == ColumnNotFound
    ensures r.Ok? ==> forall x :: x in r.value.rows <==>
      x in est.rows && x.careSiteLevel == level && MatchesFilters(x, filters)
    ensures r.Ok? ==> r.value.hasT1 == est.hasT1
    ensures r.Ok? ==> (r.value.idColumn == DetailCareSiteIdColumn <==> renaming && IsDetailLevel(level))
  {
    if exists s :: Active(filters, s) && s !in est.columns then Err(ColumnNotFound)
    else
      var atLevel := Filter(est.rows, (x: EstimateRow) => x.careSiteLevel == level);
      var rows := ApplyFilters(atLevel, filters, FilterOrder);
      assert forall s :: s in FilterOrder by {
        forall s
          ensures s in FilterOrder
        {
          assert s == FilterOrder[0] || s == FilterOrder[1] || s == FilterOrder[2]
              || s == FilterOrder[3] || s == FilterOrder[4] || s == FilterOrder[5];
        }
      }
      var idColumn := if renaming && IsDetailLevel(level) then DetailCareSiteIdColumn else CareSiteIdColumn;
      Ok(FilteredEstimates(idColumn, est.hasT1, rows))
  }

  /** Every row kept by `FilterEstimates` is an input row, kept at most as often. */
  lemma FilterEstimatesSubset(est: Estimates, level: string, filters: StrataFilter, renaming: bool, x: EstimateRow)
    requires FilterEstimates(est, level, filters, renaming).Ok?
    ensures multiset(FilterEstimates(est, level, filters, renaming).value.rows)[x] <= multiset(est.rows)[x]
  {
    var atLevel := Filter(est.rows, (y: EstimateRow) => y.careSiteLevel == level);
    FilterMultiset(est.rows, (y: EstimateRow) => y.careSiteLevel == level, x);
    ApplyFiltersSubset(atLevel, filters, FilterOrder, x);
  }

  lemma {:induction false} ApplyFiltersSubset(rows: seq<EstimateRow>, filters: StrataFilter, order: seq<Stratum>, x: EstimateRow)
    ensures multiset(ApplyFilters(rows, filters, order))[x] <= multiset(rows)[x]
    decreases |order|
  {
    if order != [] {
      var s := order[0];
      if Active(filters, s) {
        var p := (y: EstimateRow) => StratumValue(y, s) == Some(filters[s]);
        FilterMultiset(rows, p, x);
        ApplyFiltersSubset(Filter(rows, p), filters, order[1..], x);
      } else {
        ApplyFiltersSubset(rows, filters, order[1..], x);
      }
    }
  }

  /** Renaming and selection commute: the same rows are kept whatever `renaming` is. */
  lemma RenamingKeepsRows(est: Estimates, level: string, filters: StrataFilter)
    ensures FilterEstimates(est, level, filters, true).Err? == FilterEstimates(est, level, filters, false).Err?
    ensures FilterEstimates(est, level, filters, true).Ok? ==>
      FilterEstimates(est, level, filters, true).value.rows == FilterEstimates(est, level, filters, false).value.rows
  {
  }

  // ---------------------------------------------------------------------
  // Stability of estimate rows

  datatype Labeled = Labeled(row: EstimateRow, stable: bool)

  /** `x <= bound` where a null bound (an undefined quantile) makes the test false. */
  predicate AtMost(x: real, bound: Option<real>)
  {
    bound.Some? && x <= bound.value
  }

  predicate AtLeast(x: real, bound: Option<real>)
  {
    bound.Some? && x >= bound.value
  }

  /** The three-way stability test of one row. */
  predicate StableRow(r: EstimateRow, start: Date, maxError: Option<real>, minC0: Option<real>)
  {
    Le(r.t0, start) && AtMost(r.error, maxError) && AtLeast(r.c0, minC0)
  }

  /** The extra test of a bounded model: still active at the end date (a null `t_1` fails). */
  predicate ActiveAtEnd(r: EstimateRow, endDate: Date)
  {
    r.t1.Some? && Le(endDate, r.t1.value)
  }

  /**
   * `stable_cs` for every estimate row: the row count and the rows are
   * unchanged, and a row is stable iff it passes the three-way test and,
   * when the table has `t_1` and an end date is given, is still active then.
   */
  function FilterUnstableCsFromEstimates(est: FilteredEstimates, start: Date, maxError: Option<real>,
                                         minC0: Option<real>, endDate: Option<Date>): (r: seq<Labeled>)
    ensures |r| == |est.rows|
    ensures forall i :: 0 <= i < |r| ==> r[i].row == est.rows[i]
    ensures forall i :: 0 <= i < |r| ==>
      (r[i].stable <==> StableRow(est.rows[i], start, maxError, minC0)
                        && (est.hasT1 && endDate.Some? ==> ActiveAtEnd(est.rows[i], endDate.value)))
  {
    var labeled := seq(|est.rows|, i requires 0 <= i < |est.rows| =>
      Labeled(est.rows[i], StableRow(est.rows[i], start, maxError, minC0)));
    if est.hasT1 && endDate.Some? then
      seq(|labeled|, i requires 0 <= i < |labeled| =>
        Labeled(labeled[i].row, labeled[i].stable && ActiveAtEnd(labeled[i].row, endDate.value)))
    else labeled
  }

  /** Stringency ordering of a maximum: `tight` accepts no value that `loose` rejects. */
  predicate TighterMax(tight: Option<real>, loose: Option<real>)
  {
    tight.None? || (loose.Some? && tight.value <= loose.value)
  }

  predicate TighterMin(tight: Option<real>, loose: Option<real>)
  {
    tight.None? || (loose.Some? && tight.value >= loose.value)
  }

  /**
   * Lowering `max_error`, raising `min_c_0`, moving the observation start
   * earlier or supplying an end date never turns an unstable row stable.
   */
  lemma StabilityMonotone(est: FilteredEstimates, start: Date, maxError: Option<real>, minC0: Option<real>, endDate: Option<Date>,
                          start': Date, maxError': Option<real>, minC0': Option<real>, endDate': Option<Date>, i: int)
    requires 0 <= i < |est.rows|
    requires Le(start', start) && TighterMax(maxError', maxError) && TighterMin(minC0', minC0)
    requires endDate.Some? ==> endDate' == endDate
    ensures FilterUnstableCsFromEstimates(est, start', maxError', minC0', endDate')[i].stable
        ==> FilterUnstableCsFromEstimates(est, start, maxError, minC0, endDate)[i].stable
  {
    var r := est.rows[i];
    if StableRow(r, start', maxError', minC0') {
      LeTrans(r.t0, start', start);
    }
  }

  /** Ids of the care sites with at least one stable row. */
  function StableIds(labels: seq<Labeled>): (ids: seq<int>)
    ensures forall id :: id in ids <==> exists l :: l in labels && l.stable && l.row.careSiteId == id
  {
    var stable := Filter(labels, (l: Labeled) => l.stable);
    var ids := seq(|stable|, i requires 0 <= i < |stable| => stable[i].row.careSiteId);
    assert forall id :: id in ids ==> exists l :: l in labels && l.stable && l.row.careSiteId == id by {
      forall id | id in ids
        ensures exists l :: l in labels && l.stable && l.row.careSiteId == id
      {
        var i :| 0 <= i < |ids| && ids[i] == id;
        assert stable[i] in stable;
      }
    }
    assert forall l :: l in labels && l.stable ==> l.row.careSiteId in ids by {
      forall l | l in labels && l.stable
        ensures l.row.careSiteId in ids
      {
        var i :| 0 <= i < |stable| && stable[i] == l;
        assert ids[i] == l.row.careSiteId;
      }
    }
    ids
  }

  /** `stable_cs_count`: the number of distinct care sites with a stable row. */
  function StableCount(labels: seq<Labeled>): nat
  {
    NUnique(StableIds(labels))
  }

  /** Tightening the thresholds (see `StabilityMonotone`) never increases `stable_cs_count`. */
  lemma StableCountMonotone(est: FilteredEstimates, start: Date, maxError: Option<real>, minC0: Option<real>, endDate: Option<Date>,
                            start': Date, maxError': Option<real>, minC0': Option<real>, endDate': Option<Date>)
    requires Le(start', start) && TighterMax(maxError', maxError) && TighterMin(minC0', minC0)
    requires endDate.Some? ==> endDate' == endDate
    ensures StableCount(FilterUnstableCsFromEstimates(est, start', maxError', minC0', endDate'))
         <= StableCount(FilterUnstableCsFromEstimates(est, start, maxError, minC0, endDate))
  {
    var tight := FilterUnstableCsFromEstimates(est, start', maxError', minC0', endDate');
    var loose := FilterUnstableCsFromEstimates(est, start, maxError, minC0, endDate);
    forall id | id in StableIds(tight)
      ensures id in StableIds(loose)
    {
      var l :| l in tight && l.stable && l.row.careSiteId == id;
      var i :| 0 <= i < |tight| && tight[i] == l;
      StabilityMonotone(est, start, maxError, minC0, endDate, start', maxError', minC0', endDate', i);
      assert loose[i] in loose;
    }
    NUniqueMono(StableIds(tight), StableIds(loose));
  }

  // ---------------------------------------------------------------------
  // Pushing stability down to visits

  /** The care-site column of an event used for the join. */
  function SiteOf(e: EventRow, col: SiteColumn): Option<int>
  {
    if col == CareSiteIdColumn then e.careSiteId else e.detailCareSiteId
  }

  function JoinColumn(level: string): SiteColumn
  {
    if IsDetailLevel(level) then DetailCareSiteIdColumn else CareSiteIdColumn
  }

  /**
   * A care site is stable for the join when it has estimate rows and all
   * of them are stable; a null site or a site without estimates is not.
   */
  predicate SiteStable(labels: seq<Labeled>, site: Option<int>)
  {
    site.Some?
    && (exists l :: l in labels && l.row.careSiteId == site.value)
    && (forall l :: l in labels && l.row.careSiteId == site.value ==> l.stable)
  }

  /** Every care site touched by visit `v` in `events` is stable. */
  predicate VisitStable(events: seq<EventRow>, labels: seq<Labeled>, col: SiteColumn, v: int)
  {
    forall e :: e in events && e.visitOccurrenceId == v ==> SiteStable(labels, SiteOf(e, col))
  }

  /** The events the join sees: at UF/UH level, only the events of that level when the table says. */
  function LevelEvents(events: EventTable, level: string): (r: seq<EventRow>)
    ensures forall e :: e in r <==>
      (e in events.rows && (IsDetailLevel(level) && events.hasDetailLevel ==> e.detailCareSiteLevel == Some(level)))
  {
    if IsDetailLevel(level) && events.hasDetailLevel
    then Filter(events.rows, (e: EventRow) => e.detailCareSiteLevel == Some(level))
    else events.rows
  }

  datatype VisitSite = VisitSite(visit: int, site: Option<int>)

  datatype VisitFlag = VisitFlag(visit: int, stable: bool)

  /** `select([visit_col, col_care_site])` of the events. */
  function VisitSites(events: seq<EventRow>, col: SiteColumn): (ps: seq<VisitSite>)
    ensures |ps| == |events|
    ensures forall i :: 0 <= i < |events| ==> ps[i] == VisitSite(events[i].visitOccurrenceId, SiteOf(events[i], col))
  {
    seq(|events|, i requires 0 <= i < |events| => VisitSite(events[i].visitOccurrenceId, SiteOf(events[i], col)))
  }

  /** Estimate rows joining a care site (none for a null site). */
  function Matching(labels: seq<Labeled>, site: Option<int>): (ms: seq<Labeled>)
    ensures forall l :: l in ms <==> site.Some? && l in labels && l.row.careSiteId == site.value
  {
    if site.None? then [] else Filter(labels, (l: Labeled) => l.row.careSiteId == site.value)
  }

  /** The left join of one (visit, site) pair, `stable_cs` null-filled with false. */
  function Expand(p: VisitSite, labels: seq<Labeled>): (fs: seq<VisitFlag>)
    ensures fs != []
    ensures forall f :: f in fs ==> f.visit == p.visit
    ensures VisitFlag(p.visit, false) in fs <==> !SiteStable(labels, p.site)
  {
    var ms := Matching(labels, p.site);
    if ms == [] then [VisitFlag(p.visit, false)]
    else
      var fs := seq(|ms|, i requires 0 <= i < |ms| => VisitFlag(p.visit, ms[i].stable));
      assert fs[0] in fs;
      assert VisitFlag(p.visit, false) in fs ==> !SiteStable(labels, p.site) by {
        if VisitFlag(p.visit, false) in fs {
          var i :| 0 <= i < |fs| && fs[i] == VisitFlag(p.visit, false);
          assert ms[i] in ms;
        }
      }
      assert !SiteStable(labels, p.site) ==> VisitFlag(p.visit, false) in fs by {
        if !SiteStable(labels, p.site) {
          var l :| l in labels && l.row.careSiteId == p.site.value && !l.stable;
          assert l in ms;
          var i :| 0 <= i < |ms| && ms[i] == l;
          assert fs[i] == VisitFlag(p.visit, false);
        }
      }
      fs
  }

  /** The left join of all pairs with the stability labels. */
  function LeftJoin(ps: seq<VisitSite>, labels: seq<Labeled>): seq<VisitFlag>
    decreases |ps|
  {
    if ps == [] then [] else LeftJoin(ps[..|ps| - 1], labels) + Expand(ps[|ps| - 1], labels)
  }

  /** Every pair is represented in the join (a left join never loses a left row). */
  lemma {:induction false} LeftJoinCovers(ps: seq<VisitSite>, labels: seq<Labeled>, p: VisitSite)
    requires p in ps
    ensures exists b :: VisitFlag(p.visit, b) in LeftJoin(ps, labels)
    decreases |ps|
  {
    var front := ps[..|ps| - 1];
    var last := ps[|ps| - 1];
    assert ps == front + [last];
    if p in front {
      LeftJoinCovers(front, labels, p);
      var b :| VisitFlag(p.visit, b) in LeftJoin(front, labels);
      assert VisitFlag(p.visit, b) in LeftJoin(ps, labels);
    } else {
      var f := Expand(last, labels)[0];
      assert f in LeftJoin(ps, labels);
      assert VisitFlag(p.visit, f.stable) == f;
    }
  }

  /** The join holds a false flag for visit `v` iff some pair of `v` has an unstable site. */
  lemma {:induction false} LeftJoinUnstable(ps: seq<VisitSite>, labels: seq<Labeled>, v: int)
    ensures VisitFlag(v, false) in LeftJoin(ps, labels)
        <==> exists p :: p in ps && p.visit == v && !SiteStable(labels, p.site)
    decreases |ps|
  {
    if ps != [] {
      var front := ps[..|ps| - 1];
      var last := ps[|ps| - 1];
      assert ps == front + [last];
      LeftJoinUnstable(front, labels, v);
      var e := Expand(last, labels);
      assert VisitFlag(v, false) in e <==> last.visit == v && !SiteStable(labels, last.site);
    }
  }

  /** `groupby(visit).agg(min(stable_cs))`: per visit, the AND of its flags. */
  function MinPerVisit(js: seq<VisitFlag>): (m: map<int, bool>)
    ensures forall v :: v in m <==> exists b :: VisitFlag(v, b) in js
    ensures forall v :: v in m ==> (m[v] <==> VisitFlag(v, false) !in js)
    decreases |js|
  {
    if js == [] then map[]
    else
      var front := js[..|js| - 1];
      var last := js[|js| - 1];
      assert js == front + [last];
      var m := MinPerVisit(front);
      var m' := m[last.visit := if last.visit in m then m[last.visit] && last.stable else last.stable];
      assert forall v :: v in m' <==> exists b :: VisitFlag(v, b) in js by {
        forall v
          ensures v in m' <==> exists b :: VisitFlag(v, b) in js
        {
          if v == last.visit {
            assert VisitFlag(v, last.stable) == last;
          }
        }
      }
      m'
  }

  /**
   * The events of visits all of whose care sites are stable: the join,
   * null-fill, per-visit minimum and inner join of the source.
   */
  function StableVisitEvents(evs: seq<EventRow>, labels: seq<Labeled>, col: SiteColumn): (kept: seq<EventRow>)
    ensures forall e :: e in kept <==> e in evs && VisitStable(evs, labels, col, e.visitOccurrenceId)
  {
    var ps := VisitSites(evs, col);
    var m := MinPerVisit(LeftJoin(ps, labels));
    var kept := Filter(evs, (e: EventRow) => e.visitOccurrenceId in m && m[e.visitOccurrenceId]);
    assert forall e :: e in evs ==> (e.visitOccurrenceId in m && m[e.visitOccurrenceId]
                                     <==> VisitStable(evs, labels, col, e.visitOccurrenceId)) by {
      forall e | e in evs
        ensures e.visitOccurrenceId in m && m[e.visitOccurrenceId]
            <==> VisitStable(evs, labels, col, e.visitOccurrenceId)
      {
        StableVisitFlag(evs, labels, col, e);
      }
    }
    kept
  }

  /** Per event, the per-visit minimum of the joined flags is the visit's stability. */
  lemma StableVisitFlag(evs: seq<EventRow>, labels: seq<Labeled>, col: SiteColumn, e: EventRow)
    requires e in evs
    ensures var m := MinPerVisit(LeftJoin(VisitSites(evs, col), labels));
      e.visitOccurrenceId in m && (m[e.visitOccurrenceId] <==> VisitStable(evs, labels, col, e.visitOccurrenceId))
  {
    var ps := VisitSites(evs, col);
    var v := e.visitOccurrenceId;
    var i :| 0 <= i < |evs| && evs[i] == e;
    assert ps[i] in ps;
    LeftJoinCovers(ps, labels, ps[i]);
    LeftJoinUnstable(ps, labels, v);
    if !VisitStable(evs, labels, col, v) {
      var e' :| e' in evs && e'.visitOccurrenceId == v && !SiteStable(labels, SiteOf(e', col));
      var j :| 0 <= j < |evs| && evs[j] == e';
      assert ps[j] in ps;
    } else {
      forall p | p in ps && p.visit == v
        ensures SiteStable(labels, p.site)
      {
        var j :| 0 <= j < |ps| && ps[j] == p;
        assert evs[j] in evs;
      }
    }
  }

  /** The stability labels of one grid cell (empty when the estimates cannot be filtered). */
  function CellLabels(est: Estimates, level: string, filters: StrataFilter, start: Date,
                      maxError: Option<real>, minC0: Option<real>, endDate: Option<Date>): seq<Labeled>
  {
    match FilterEstimates(est, level, filters, true)
    case Ok(f) => FilterUnstableCsFromEstimates(f, start, maxError, minC0, endDate)
    case Err(_) => []
  }

  /**
   * The complete-source-only filter: the number of stable care sites and
   * the events of the stable visits; an unknown level yields an error value.
   */
  function FilterUnstableCsFromEventDf(events: EventTable, est: Estimates, start: Date, level: string,
                                       maxError: Option<real>, minC0: Option<real>, filters: StrataFilter,
                                       endDate: Option<Date>): (r: Result<(nat, seq<EventRow>)>)
    ensures r.Err? <==> FilterEstimates(est, level, filters, true).Err? || !ValidLevel(level)
    ensures r.Err? && FilterEstimates(est, level, filters, true).Ok? ==> r.error == InvalidCareSiteLevel
    ensures r.Ok? ==> r.value.0 == StableCount(CellLabels(est, level, filters, start, maxError, minC0, endDate))
    ensures r.Ok? ==> forall e :: e in r.value.1 <==>
      e in LevelEvents(events, level)
      && VisitStable(LevelEvents(events, level), CellLabels(est, level, filters, start, maxError, minC0, endDate),
                     JoinColumn(level), e.visitOccurrenceId)
  {
    match FilterEstimates(est, level, filters, true)
    case Err(e) => Err(e)
    case Ok(f) =>
      var labels := FilterUnstableCsFromEstimates(f, start, maxError, minC0, endDate);
      if !ValidLevel(level) then Err(InvalidCareSiteLevel)
      else
        var evs := LevelEvents(events, level);
        Ok((StableCount(labels), StableVisitEvents(evs, labels, JoinColumn(level))))
  }

  /** The event survives the `detail_care_site_level` restriction of `level`. */
  predicate LevelKeeps(events: EventTable, level: string, e: EventRow)
  {
    IsDetailLevel(level) && events.hasDetailLevel ==> e.detailCareSiteLevel == Some(level)
  }

  /**
   * The filtered events are input events, none duplicated: each kept row
   * (of the level, in a stable visit) occurs as often as in the input,
   * every other row not at all.
   */
  lemma StabilisedEventsSubset(events: EventTable, est: Estimates, start: Date, level: string,
                               maxError: Option<real>, minC0: Option<real>, filters: StrataFilter,
                               endDate: Option<Date>, e: EventRow)
    requires FilterUnstableCsFromEventDf(events, est, start, level, maxError, minC0, filters, endDate).Ok?
    ensures multiset(FilterUnstableCsFromEventDf(events, est, start, level, maxError, minC0, filters, endDate).value.1)[e]
         <= multiset(events.rows)[e]
    ensures var labels := CellLabels(est, level, filters, start, maxError, minC0, endDate);
      multiset(FilterUnstableCsFromEventDf(events, est, start, level, maxError, minC0, filters, endDate).value.1)[e]
      == if LevelKeeps(events, level, e)
            && VisitStable(LevelEvents(events, level), labels, JoinColumn(level), e.visitOccurrenceId)
         then multiset(events.rows)[e] else 0
  {
    var labels := CellLabels(est, level, filters, start, maxError, minC0, endDate);
    var evs := LevelEvents(events, level);
    var col := JoinColumn(level);
    if IsDetailLevel(level) && events.hasDetailLevel {
      FilterMultiset(events.rows, (x: EventRow) => x.detailCareSiteLevel == Some(level), e);
    }
    var js := LeftJoin(VisitSites(evs, col), labels);
    var m := MinPerVisit(js);
    FilterMultiset(evs, (x: EventRow) => x.visitOccurrenceId in m && m[x.visitOccurrenceId], e);
    if e in evs {
      StableVisitFlag(evs, labels, col, e);
    }
  }

  /**
   * Conservative default: an event whose care site is null or has no
   * estimate row removes its whole visit from the result.
   */
  lemma UnknownSiteDropsVisit(events: EventTable, est: Estimates, start: Date, level: string,
                              maxError: Option<real>, minC0: Option<real>, filters: StrataFilter,
                              endDate: Option<Date>, e: EventRow, e': EventRow)
    requires FilterUnstableCsFromEventDf(events, est, start, level, maxError, minC0, filters, endDate).Ok?
    requires e in LevelEvents(events, level)
    requires var s := SiteOf(e, JoinColumn(level));
      s.None? || forall x :: x in est.rows ==> x.careSiteId != s.value
    requires e'.visitOccurrenceId == e.visitOccurrenceId
    ensures e' !in FilterUnstableCsFromEventDf(events, est, start, level, maxError, minC0, filters, endDate).value.1
  {
    var labels := CellLabels(est, level, filters, start, maxError, minC0, endDate);
    var f := FilterEstimates(est, level, filters, true).value;
    assert forall l :: l in labels ==> l.row in est.rows by {
      forall l | l in labels
        ensures l.row in est.rows
      {
        var i :| 0 <= i < |labels| && labels[i] == l;
        assert f.rows[i] in f.rows;
      }
    }
    assert !SiteStable(labels, SiteOf(e, JoinColumn(level)));
  }

  /**
   * AND semantics: when a visit touches a stable and an unstable care
   * site, none of its events is kept; when every site it touches is
   * stable, all of them are.
   */
  lemma MultiSiteVisit(events: EventTable, est: Estimates, start: Date, level: string,
                       maxError: Option<real>, minC0: Option<real>, filters: StrataFilter,
                       endDate: Option<Date>, e: EventRow)
    requires FilterUnstableCsFromEventDf(events, est, start, level, maxError, minC0, filters, endDate).Ok?
    requires e in LevelEvents(events, level)
    ensures var labels := CellLabels(est, level, filters, start, maxError, minC0, endDate);
      var kept := FilterUnstableCsFromEventDf(events, est, start, level, maxError, minC0, filters, endDate).value.1;
      (e in kept <==> forall x :: x in LevelEvents(events, level) && x.visitOccurrenceId == e.visitOccurrenceId
                              ==> SiteStable(labels, SiteOf(x, JoinColumn(level))))
  {
  }

  /** The stable sites counted per cell are among the active sites counted once for the grid. */
  lemma StableCountAtMostActive(est: Estimates, level: string, filters: StrataFilter, start: Date,
                                maxError: Option<real>, minC0: Option<real>, endDate: Option<Date>)
    requires FilterEstimates(est, level, filters, false).Ok?
    ensures StableCount(CellLabels(est, level, filters, start, maxError, minC0, endDate))
         <= NUnique(SiteIds(FilterEstimates(est, level, filters, false).value.rows))
  {
    RenamingKeepsRows(est, level, filters);
    var f := FilterEstimates(est, level, filters, true).value;
    var labels := FilterUnstableCsFromEstimates(f, start, maxError, minC0, endDate);
    assert CellLabels(est, level, filters, start, maxError, minC0, endDate) == labels;
    StableSitesAmong(f.rows, labels);
    NUniqueMono(StableIds(labels), SiteIds(f.rows));
  }

  /** The stable sites of a labelling of some rows are sites of those rows. */
  lemma StableSitesAmong(rows: seq<EstimateRow>, labels: seq<Labeled>)
    requires |labels| == |rows| && forall i :: 0 <= i < |labels| ==> labels[i].row == rows[i]
    ensures forall id :: id in StableIds(labels) ==> id in SiteIds(rows)
  {
    forall id | id in StableIds(labels)
      ensures id in SiteIds(rows)
    {
      var l :| l in labels && l.stable && l.row.careSiteId == id;
      var i :| 0 <= i < |labels| && labels[i] == l;
      assert rows[i] in rows;
    }
  }

  // ---------------------------------------------------------------------
  // The threshold grid

  function SiteIds(rows: seq<EstimateRow>): (ids: seq<int>)
    ensures forall id :: id in ids <==> exists r :: r in rows && r.careSiteId == id
  {
    var ids := seq(|rows|, i requires 0 <= i < |rows| => rows[i].careSiteId);
    assert forall r :: r in rows ==> r.careSiteId in ids by {
      forall r | r in rows
        ensures r.careSiteId in ids
      {
        var i :| 0 <= i < |rows| && rows[i] == r;
        assert ids[i] == r.careSiteId;
      }
    }
    ids
  }

  datatype Parameters = Parameters(activeCsCount: nat, maxErrors: seq<Option<real>>, minC0s: seq<Option<real>>)

  /** `col.quantile(q)`: null on an empty column, otherwise the library's estimate. */
  function QuantileOf(xs: seq<real>, q: real, quantile: (seq<real>, real) -> real): (r: Option<real>)
    ensures r.None? <==> xs == []
    ensures r.Some? ==> r.value == quantile(xs, q)
  {
    if xs == [] then None else Some(quantile(xs, q))
  }

  /**
   * A threshold grid: the pass-through value `first`, then the quantiles
   * of `xs` at `q1`, `q2`, `q3`; the quantiles of an empty column are null.
   */
  function QuantileGrid(first: real, xs: seq<real>, q1: real, q2: real, q3: real,
                        quantile: (seq<real>, real) -> real): (g: seq<Option<real>>)
    ensures |g| == 4 && g[0] == Some(first)
    ensures forall i :: 1 <= i < 4 ==> (g[i].None? <==> xs == [])
    ensures xs != [] ==> g[1..] == [Some(quantile(xs, q1)), Some(quantile(xs, q2)), Some(quantile(xs, q3))]
  {
    [Some(first), QuantileOf(xs, q1, quantile), QuantileOf(xs, q2, quantile), QuantileOf(xs, q3, quantile)]
  }

  function ErrorColumn(rows: seq<EstimateRow>): (xs: seq<real>)
    ensures |xs| == |rows|
    ensures forall i :: 0 <= i < |rows| ==> xs[i] == rows[i].error
  {
    seq(|rows|, i requires 0 <= i < |rows| => rows[i].error)
  }

  function C0Column(rows: seq<EstimateRow>): (xs: seq<real>)
    ensures |xs| == |rows|
    ensures forall i :: 0 <= i < |rows| ==> xs[i] == rows[i].c0
  {
    seq(|rows|, i requires 0 <= i < |rows| => rows[i].c0)
  }

  /**
   * The number of active care sites, and the grids of maximal errors
   * (`1.0`, then the 0.75 / 0.5 / 0.25 quantiles) and minimal `c_0`
   * (`0.0`, then the 0.25 / 0.5 / 0.75 quantiles) of the estimates.
   */
  function EstimateParameters(est: Estimates, level: string, filters: StrataFilter,
                              quantile: (seq<real>, real) -> real): (r: Result<Parameters>)
    ensures r.Err? <==> FilterEstimates(est, level, filters, false).Err?
    ensures r.Ok? ==>
      var rows := FilterEstimates(est, level, filters, false).value.rows;
      && r.value.activeCsCount == NUnique(SiteIds(rows))
      && |r.value.maxErrors| == 4 && |r.value.minC0s| == 4
      && r.value.maxErrors[0] == Some(1.0) && r.value.minC0s[0] == Some(0.0)
      && (forall i :: 1 <= i < 4 ==> (r.value.maxErrors[i].None? <==> rows == []))
      && (forall i :: 1 <= i < 4 ==> (r.value.minC0s[i].None? <==> rows == []))
    ensures r.Ok? ==>
      var rows := FilterEstimates(est, level, filters, false).value.rows;
      var errors, c0s := ErrorColumn(rows), C0Column(rows);
      rows != [] ==>
        && r.value.maxErrors[1..] == [Some(quantile(errors, 0.75)), Some(quantile(errors, 0.5)), Some(quantile(errors, 0.25))]
        && r.value.minC0s[1..] == [Some(quantile(c0s, 0.25)), Some(quantile(c0s, 0.5)), Some(quantile(c0s, 0.75))]
  {
    match FilterEstimates(est, level, filters, false)
    case Err(e) => Err(e)
    case Ok(f) =>
      Ok(Parameters(
        NUnique(SiteIds(f.rows)),
        QuantileGrid(1.0, ErrorColumn(f.rows), 0.75, 0.5, 0.25, quantile),
        QuantileGrid(0.0, C0Column(f.rows), 0.25, 0.5, 0.75, quantile)))
  }

  ghost predicate MonotoneQuantile(quantile: (seq<real>, real) -> real)
  {
    forall xs: seq<real>, p: real, q: real :: p <= q ==> quantile(xs, p) <= quantile(xs, q)
  }

  /**
   * With a quantile that grows with `q`, the grids run from the least to
   * the most strict: the maximal errors decrease and the minimal `c_0`
   * increase after the pass-through first value.
   */
  lemma GridOrdered(est: Estimates, level: string, filters: StrataFilter, quantile: (seq<real>, real) -> real)
    requires MonotoneQuantile(quantile)
    requires EstimateParameters(est, level, filters, quantile).Ok?
    requires FilterEstimates(est, level, filters, false).value.rows != []
    ensures var p := EstimateParameters(est, level, filters, quantile).value;
      && p.maxErrors[1].value >= p.maxErrors[2].value >= p.maxErrors[3].value
      && p.minC0s[1].value <= p.minC0s[2].value <= p.minC0s[3].value
  {
    var f := FilterEstimates(est, level, filters, false).value;
    var errors := ErrorColumn(f.rows);
    var c0s := C0Column(f.rows);
    assert quantile(errors, 0.5) <= quantile(errors, 0.75);
    assert quantile(errors, 0.25) <= quantile(errors, 0.5);
    assert quantile(c0s, 0.25) <= quantile(c0s, 0.5);
    assert quantile(c0s, 0.5) <= quantile(c0s, 0.75);
  }
}
