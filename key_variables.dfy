/**
 * The three key functions that turn a cohort and an event table into an
 * outcome table indexed by the sensitivity variables and `sub_cohort`:
 * events during the cohort stay, time to the next event after the stay,
 * and weekly incidence with its per-school-year peak.
 */
module KeyVariables {
  import opened Tables
  import opened Dates
  import opened Strings
  import opened Records

  /** One row of an outcome table. */
  datatype KeyRow =
    | DuringRow(key: GroupKey, nEvents: nat, nTotal: nat, rate: real)
    | DurationRow(key: GroupKey, threshold: string, nEvents: nat, nTotal: nat, rate: real)
    | IncidenceRow(key: GroupKey, nEvents: nat, schoolYears: int, maxEvents: Option<nat>)

  /** The registered key functions. */
  datatype KeyFunction = EventDuringCohortStay | DurationAfterEvent | ConditionIncidence

  /** The cohort rows of group `k`. */
  function GroupRows(cohort: seq<CohortRow>, vars: seq<string>, k: GroupKey): (g: seq<CohortRow>)
    ensures forall r :: r in g <==> r in cohort && Key(r, vars) == k
  {
    Filter(cohort, (r: CohortRow) => Key(r, vars) == k)
  }

  lemma GroupRowsNonEmpty(cohort: seq<CohortRow>, vars: seq<string>, k: GroupKey)
    requires k in Keys(cohort, vars)
    ensures GroupRows(cohort, vars, k) != []
  {
    var i :| 0 <= i < |cohort| && Keys(cohort, vars)[i] == k;
    assert cohort[i] in GroupRows(cohort, vars, k);
  }

  /** A visit id of a filtered cohort is a visit id of the cohort. */
  lemma CohortIdsFilterIn(cohort: seq<CohortRow>, p: CohortRow -> bool, id: int)
    requires id in CohortIds(Filter(cohort, p))
    ensures id in CohortIds(cohort)
  {
    var f := Filter(cohort, p);
    var k :| 0 <= k < |f| && CohortIds(f)[k] == id;
    assert f[k] in cohort;
    var m :| 0 <= m < |cohort| && cohort[m] == f[k];
    assert CohortIds(cohort)[m] == id;
  }

  /** Distinct ids stay distinct with one more id in front that none of them equals. */
  lemma NoDupCons(x: int, ys: seq<int>)
    requires x !in ys && NoDup(ys)
    ensures NoDup([x] + ys)
  {
    var s := [x] + ys;
    forall i, j | 0 <= i < j < |s|
      ensures s[i] != s[j]
    {
      assert s[j] == ys[j - 1];
      if i > 0 {
        assert s[i] == ys[i - 1];
      }
    }
  }

  /** A filter keeps distinct visit ids distinct. */
  lemma {:induction false} CohortIdsFilterNoDup(cohort: seq<CohortRow>, p: CohortRow -> bool)
    requires NoDup(CohortIds(cohort))
    ensures NoDup(CohortIds(Filter(cohort, p)))
    decreases |cohort|
  {
    if cohort != [] {
      var rest := cohort[1..];
      var ids := CohortIds(cohort);
      assert CohortIds(rest) == ids[1..];
      CohortIdsFilterNoDup(rest, p);
      if p(cohort[0]) {
        var f := Filter(cohort, p);
        assert f == [cohort[0]] + Filter(rest, p);
        assert CohortIds(f) == [ids[0]] + CohortIds(Filter(rest, p));
        if ids[0] in CohortIds(Filter(rest, p)) {
          CohortIdsFilterIn(rest, p, ids[0]);
        }
        NoDupCons(ids[0], CohortIds(Filter(rest, p)));
      }
    }
  }

  // ---------------------------------------------------------------------
  // Events during the cohort stay

  /** A cohort stay has an event when some event row belongs to the same visit. */
  function HasEvent(ids: set<int>): CohortRow -> bool
  {
    (r: CohortRow) => r.visitCohortId in ids
  }

  /**
   * `row` is the during-stay row of its group: the number of the group's
   * stays that have an event, and the number of its distinct stays.
   */
  predicate IsDuringRow(events: seq<EventRow>, cohort: seq<CohortRow>, vars: seq<string>, row: KeyRow)
  {
    && row.DuringRow?
    && row.nEvents == Count(GroupRows(cohort, vars, row.key), HasEvent(VisitIds(events)))
    && row.nTotal == NUnique(CohortIds(GroupRows(cohort, vars, row.key)))
    && row.nTotal >= 1
    && row.rate == row.nEvents as real / row.nTotal as real
  }

  function DuringRowOf(events: seq<EventRow>, cohort: seq<CohortRow>, vars: seq<string>, k: GroupKey): (row: KeyRow)
    requires k in Keys(cohort, vars)
    ensures row.key == k && IsDuringRow(events, cohort, vars, row)
  {
    var g := GroupRows(cohort, vars, k);
    GroupRowsNonEmpty(cohort, vars, k);
    NUniquePositive(CohortIds(g));
    var nEvents := Count(g, HasEvent(VisitIds(events)));
    var nTotal := NUnique(CohortIds(g));
    DuringRow(k, nEvents, nTotal, Rate(nEvents, nTotal))
  }

  function DuringRows(events: seq<EventRow>, cohort: seq<CohortRow>, vars: seq<string>, keys: seq<GroupKey>): (rows: seq<KeyRow>)
    requires forall k :: k in keys ==> k in Keys(cohort, vars)
    ensures |rows| == |keys|
    ensures forall i :: 0 <= i < |rows| ==> rows[i].key == keys[i] && IsDuringRow(events, cohort, vars, rows[i])
  {
    seq(|keys|, i requires 0 <= i < |keys| => DuringRowOf(events, cohort, vars, keys[i]))
  }

  /**
   * One row per distinct (sensitivity variables, `sub_cohort`) of the
   * cohort, in first-appearance order: the number of its stays with an
   * event and its number of distinct stays.
   */
  function ComputeEventDuringCohortStay(events: seq<EventRow>, cohort: seq<CohortRow>, vars: seq<string>): (r: Result<seq<KeyRow>>)
    ensures r.Err? <==> !HasColumns(cohort, vars)
    ensures r.Err? ==> r.error == ColumnNotFound
    ensures r.Ok? ==> forall i, j :: 0 <= i < j < |r.value| ==> r.value[i].key != r.value[j].key
    ensures r.Ok? ==> forall k :: k in Keys(cohort, vars) <==> exists i :: 0 <= i < |r.value| && r.value[i].key == k
    ensures r.Ok? ==> forall i :: 0 <= i < |r.value| ==> IsDuringRow(events, cohort, vars, r.value[i])
  {
    if !HasColumns(cohort, vars) then Err(ColumnNotFound)
    else
      var keys := Dedup(Keys(cohort, vars));
      var rows := DuringRows(events, cohort, vars, keys);
      KeysCovered(rows, keys);
      Ok(rows)
  }

  /** Rows whose keys are, in order, distinct `keys`: each key has its row, and no two rows share a key. */
  lemma KeysCovered(rows: seq<KeyRow>, keys: seq<GroupKey>)
    requires |rows| == |keys| && NoDup(keys)
    requires forall i :: 0 <= i < |rows| ==> rows[i].key == keys[i]
    ensures forall k :: k in keys <==> exists i :: 0 <= i < |rows| && rows[i].key == k
    ensures forall i, j :: 0 <= i < j < |rows| ==> rows[i].key != rows[j].key
  {
    forall k | k in keys
      ensures exists i :: 0 <= i < |rows| && rows[i].key == k
    {
      var i :| 0 <= i < |keys| && keys[i] == k;
      assert rows[i].key == k;
    }
  }

  /** With distinct stay ids, the rate of every group lies in [0, 1]. */
  lemma DuringRateBounded(events: seq<EventRow>, cohort: seq<CohortRow>, vars: seq<string>)
    requires HasColumns(cohort, vars)
    requires forall k :: k in Keys(cohort, vars) ==> NoDup(CohortIds(GroupRows(cohort, vars, k)))
    ensures var rs := ComputeEventDuringCohortStay(events, cohort, vars).value;
      forall i :: 0 <= i < |rs| ==> rs[i].nEvents <= rs[i].nTotal && 0.0 <= rs[i].rate <= 1.0
  {
    var rs := ComputeEventDuringCohortStay(events, cohort, vars).value;
    forall i | 0 <= i < |rs|
      ensures rs[i].nEvents <= rs[i].nTotal
    {
      NUniqueNoDup(CohortIds(GroupRows(cohort, vars, rs[i].key)));
    }
  }

  /** Stay ids unique over the whole cohort are unique within every group. */
  lemma UniqueIdsPerGroup(cohort: seq<CohortRow>, vars: seq<string>)
    requires NoDup(CohortIds(cohort))
    ensures forall k :: NoDup(CohortIds(GroupRows(cohort, vars, k)))
  {
    forall k
      ensures NoDup(CohortIds(GroupRows(cohort, vars, k)))
    {
      CohortIdsFilterNoDup(cohort, (r: CohortRow) => Key(r, vars) == k);
    }
  }

  /**
   * Fewer event visits never add an event: with the visits of `fewer`
   * among those of `more`, the groups and their totals are the same and
   * each group's event count is at most its count with `more`.
   */
  lemma DuringStayMonotone(fewer: seq<EventRow>, more: seq<EventRow>, cohort: seq<CohortRow>, vars: seq<string>)
    requires HasColumns(cohort, vars)
    requires VisitIds(fewer) <= VisitIds(more)
    ensures var a := ComputeEventDuringCohortStay(fewer, cohort, vars).value;
      var b := ComputeEventDuringCohortStay(more, cohort, vars).value;
      && |a| == |b|
      && forall i :: 0 <= i < |a| ==> a[i].key == b[i].key && a[i].nTotal == b[i].nTotal && a[i].nEvents <= b[i].nEvents
  {
    var a := ComputeEventDuringCohortStay(fewer, cohort, vars).value;
    var b := ComputeEventDuringCohortStay(more, cohort, vars).value;
    forall i | 0 <= i < |a|
      ensures a[i].nEvents <= b[i].nEvents
    {
      CountMono(GroupRows(cohort, vars, a[i].key), HasEvent(VisitIds(more)), HasEvent(VisitIds(fewer)));
    }
  }

  // ---------------------------------------------------------------------
  // Duration until the next event after the cohort stay

  /** An event the forward as-of join may pick for a stay: same person, dated, within tolerance. */
  predicate Candidate(r: CohortRow, e: EventRow, tolerance: nat)
  {
    e.personId == r.personId && e.date.Some? && Le(r.stayEnd, e.date.value)
    && DaysBetween(r.stayEnd, e.date.value) <= tolerance
  }

  /** The first of the earliest-dated events. */
  function Earliest(cs: seq<EventRow>): (e: EventRow)
    requires cs != []
    requires forall c :: c in cs ==> c.date.Some?
    ensures e in cs
    ensures forall c :: c in cs ==> Le(e.date.value, c.date.value)
    decreases |cs|
  {
    if |cs| == 1 then cs[0]
    else
      var rest := Earliest(cs[1..]);
      assert forall c :: c in cs ==> c == cs[0] || c in cs[1..];
      if Le(cs[0].date.value, rest.date.value) then cs[0]
      else
        LeTotal(cs[0].date.value, rest.date.value);
        rest
  }

  /** `join_asof(strategy="forward", by="person_id", tolerance)` for one stay. */
  function AsOf(r: CohortRow, events: seq<EventRow>, tolerance: nat): (m: Option<EventRow>)
    ensures m.None? <==> forall e :: e in events ==> !Candidate(r, e, tolerance)
    ensures m.Some? ==> m.value in events && Candidate(r, m.value, tolerance)
    ensures m.Some? ==> forall e :: e in events && Candidate(r, e, tolerance) ==> Le(m.value.date.value, e.date.value)
  {
    var cs := Filter(events, (e: EventRow) => Candidate(r, e, tolerance));
    if cs == [] then None
    else Some(Earliest(cs))
  }

  /** A stay matched to its next event, and the whole days in between. */
  datatype Match = Match(row: CohortRow, event: EventRow, duration: nat)

  /** The as-of match of a stay, dropped when absent or when the event is the stay itself. */
  function MatchOf(r: CohortRow, events: seq<EventRow>, tolerance: nat): (m: Option<Match>)
    ensures m.Some? <==> AsOf(r, events, tolerance).Some? && AsOf(r, events, tolerance).value.visitOccurrenceId != r.visitCohortId
    ensures m.Some? ==>
      && m.value.row == r && m.value.event == AsOf(r, events, tolerance).value
      && m.value.duration == DaysBetween(r.stayEnd, m.value.event.date.value)
      && m.value.duration <= tolerance
  {
    match AsOf(r, events, tolerance)
    case None => None
    case Some(e) =>
      if e.visitOccurrenceId == r.visitCohortId then None
      else
        OrdinalOrder(r.stayEnd, e.date.value);
        Some(Match(r, e, DaysBetween(r.stayEnd, e.date.value)))
  }

  /** The matched stays, in cohort order. */
  function Matches(cohort: seq<CohortRow>, events: seq<EventRow>, tolerance: nat): (ms: seq<Match>)
    ensures forall m :: m in ms ==> m.row in cohort && MatchOf(m.row, events, tolerance) == Some(m)
    ensures forall r :: r in cohort && MatchOf(r, events, tolerance).Some? ==> MatchOf(r, events, tolerance).value in ms
    decreases |cohort|
  {
    if cohort == [] then []
    else
      var rest := Matches(cohort[1..], events, tolerance);
      assert forall r :: r in cohort ==> r == cohort[0] || r in cohort[1..];
      match MatchOf(cohort[0], events, tolerance)
      case None => rest
      case Some(m) => [m] + rest
  }

  /** The stays whose as-of match exists and satisfies `p`. */
  function MatchedBy(events: seq<EventRow>, tolerance: nat, p: Match -> bool): CohortRow -> bool
  {
    (r: CohortRow) => MatchOf(r, events, tolerance).Some? && p(MatchOf(r, events, tolerance).value)
  }

  /**
   * Each stay with a match contributes it exactly once: the matches
   * satisfying `p` are as many as the stays whose match satisfies `p`.
   */
  lemma {:induction false} MatchesCount(cohort: seq<CohortRow>, events: seq<EventRow>, tolerance: nat, p: Match -> bool)
    ensures Count(Matches(cohort, events, tolerance), p) == Count(cohort, MatchedBy(events, tolerance, p))
    decreases |cohort|
  {
    if cohort != [] {
      MatchesCount(cohort[1..], events, tolerance, p);
      var rest := Matches(cohort[1..], events, tolerance);
      match MatchOf(cohort[0], events, tolerance)
      case None =>
      case Some(m) =>
        var ms := [m] + rest;
        assert ms[1..] == rest;
    }
  }

  /** Each stay contributes at most one match, so a group has no more matches than stays. */
  lemma {:induction false} MatchesPerGroup(cohort: seq<CohortRow>, events: seq<EventRow>, tolerance: nat,
                                           vars: seq<string>, k: GroupKey)
    ensures Count(Matches(cohort, events, tolerance), (m: Match) => Key(m.row, vars) == k)
         <= Count(cohort, (r: CohortRow) => Key(r, vars) == k)
    decreases |cohort|
  {
    if cohort != [] {
      MatchesPerGroup(cohort[1..], events, tolerance, vars, k);
      var rest := Matches(cohort[1..], events, tolerance);
      match MatchOf(cohort[0], events, tolerance)
      case None =>
      case Some(m) =>
        var ms := [m] + rest;
        assert ms[1..] == rest;
    }
  }

  function Max(ts: seq<nat>): (m: nat)
    requires ts != []
    ensures m in ts && forall t :: t in ts ==> t <= m
    decreases |ts|
  {
    if |ts| == 1 then ts[0]
    else
      var rest := Max(ts[1..]);
      assert forall t :: t in ts ==> t == ts[0] || t in ts[1..];
      if ts[0] >= rest then ts[0] else rest
  }

  /** The label `"before_{t}_days"` of a threshold. */
  function ThresholdLabel(t: nat): string
  {
    "before_" + NatToString(t) + "_days"
  }

  lemma ThresholdLabelInjective(t: nat, u: nat)
    requires ThresholdLabel(t) == ThresholdLabel(u)
    ensures t == u
  {
    var a, b := ThresholdLabel(t), ThresholdLabel(u);
    assert NatToString(t) == a[7..|a| - 5];
    assert NatToString(u) == b[7..|b| - 5];
    NatToStringInjective(t, u);
  }

  /** One row of the concatenated per-threshold copies of the matched stays. */
  datatype Flagged = Flagged(key: GroupKey, threshold: string, hasEvent: bool)

  /** The copy of the matched stays for one threshold, each flagged when the event came soon enough. */
  function FlagOne(ms: seq<Match>, vars: seq<string>, t: nat): (fs: seq<Flagged>)
    ensures |fs| == |ms|
    decreases |ms|
  {
    if ms == [] then []
    else [Flagged(Key(ms[0].row, vars), ThresholdLabel(t), ms[0].duration <= t)] + FlagOne(ms[1..], vars, t)
  }

  /** The copies for all thresholds, concatenated in threshold order. */
  function FlagAll(ms: seq<Match>, vars: seq<string>, ts: seq<nat>): seq<Flagged>
    decreases |ts|
  {
    if ts == [] then []
    else FlagAll(ms, vars, ts[..|ts| - 1]) + FlagOne(ms, vars, ts[|ts| - 1])
  }

  /** The loop over the thresholds that builds the concatenated copies. */
  method FlagThresholds(ms: seq<Match>, vars: seq<string>, ts: seq<nat>) returns (out: seq<Flagged>)
    ensures out == FlagAll(ms, vars, ts)
  {
    out := [];
    var j := 0;
    while j < |ts|
      invariant 0 <= j <= |ts|
      invariant out == FlagAll(ms, vars, ts[..j])
    {
      assert ts[..j + 1][..j] == ts[..j];
      out := out + FlagOne(ms, vars, ts[j]);
      j := j + 1;
    }
    assert ts[..|ts|] == ts;
  }

  /** Number of matched stays of group `k` whose next event came within `t` days. */
  function EventsWithin(ms: seq<Match>, vars: seq<string>, k: GroupKey, t: nat): nat
  {
    Count(ms, (m: Match) => Key(m.row, vars) == k && m.duration <= t)
  }

  /** `EventsWithin` summed over the thresholds labelled `lab`. */
  function SumEvents(ms: seq<Match>, vars: seq<string>, ts: seq<nat>, k: GroupKey, lab: string): nat
    decreases |ts|
  {
    if ts == [] then 0
    else
      var t := ts[|ts| - 1];
      SumEvents(ms, vars, ts[..|ts| - 1], k, lab) + (if ThresholdLabel(t) == lab then EventsWithin(ms, vars, k, t) else 0)
  }

  function IsEventOf(k: GroupKey, lab: string): Flagged -> bool
  {
    (f: Flagged) => f.key == k && f.threshold == lab && f.hasEvent
  }

  lemma {:induction false} FlagOneCount(ms: seq<Match>, vars: seq<string>, t: nat, k: GroupKey, lab: string)
    ensures Count(FlagOne(ms, vars, t), IsEventOf(k, lab))
         == if ThresholdLabel(t) == lab then EventsWithin(ms, vars, k, t) else 0
    decreases |ms|
  {
    if ms != [] {
      FlagOneCount(ms[1..], vars, t, k, lab);
      var fs := FlagOne(ms, vars, t);
      assert fs[1..] == FlagOne(ms[1..], vars, t);
    }
  }

  /** The grouped sum of `has_event` counts, threshold by threshold. */
  lemma {:induction false} FlagAllCount(ms: seq<Match>, vars: seq<string>, ts: seq<nat>, k: GroupKey, lab: string)
    ensures Count(FlagAll(ms, vars, ts), IsEventOf(k, lab)) == SumEvents(ms, vars, ts, k, lab)
    decreases |ts|
  {
    if ts != [] {
      var front := ts[..|ts| - 1];
      FlagAllCount(ms, vars, front, k, lab);
      FlagOneCount(ms, vars, ts[|ts| - 1], k, lab);
      CountAppend(FlagAll(ms, vars, front), FlagOne(ms, vars, ts[|ts| - 1]), IsEventOf(k, lab));
    }
  }

  /** Every copied row comes from a matched stay of its group, under the lab of a threshold. */
  lemma {:induction false} FlagAllMember(ms: seq<Match>, vars: seq<string>, ts: seq<nat>, f: Flagged)
    requires f in FlagAll(ms, vars, ts)
    ensures exists m :: m in ms && Key(m.row, vars) == f.key
    ensures exists t :: t in ts && ThresholdLabel(t) == f.threshold
    decreases |ts|
  {
    var front := ts[..|ts| - 1];
    var t := ts[|ts| - 1];
    if f in FlagAll(ms, vars, front) {
      FlagAllMember(ms, vars, front, f);
      var u :| u in front && ThresholdLabel(u) == f.threshold;
      assert u in ts;
    } else {
      FlagOneMember(ms, vars, t, f);
      assert t in ts;
    }
  }

  lemma {:induction false} FlagOneMember(ms: seq<Match>, vars: seq<string>, t: nat, f: Flagged)
    requires f in FlagOne(ms, vars, t)
    ensures exists m :: m in ms && Key(m.row, vars) == f.key
    ensures f.threshold == ThresholdLabel(t)
    decreases |ms|
  {
    if f != FlagOne(ms, vars, t)[0] {
      FlagOneMember(ms[1..], vars, t, f);
      var m :| m in ms[1..] && Key(m.row, vars) == f.key;
      assert m in ms;
    }
  }

  /** Conversely every matched stay appears under every threshold. */
  lemma {:induction false} FlagAllCovers(ms: seq<Match>, vars: seq<string>, ts: seq<nat>, m: Match, t: nat)
    requires m in ms && t in ts
    ensures exists f :: f in FlagAll(ms, vars, ts) && f.key == Key(m.row, vars) && f.threshold == ThresholdLabel(t)
    decreases |ts|
  {
    var front := ts[..|ts| - 1];
    var last := ts[|ts| - 1];
    assert ts == front + [last];
    if t in front {
      FlagAllCovers(ms, vars, front, m, t);
      var f :| f in FlagAll(ms, vars, front) && f.key == Key(m.row, vars) && f.threshold == ThresholdLabel(t);
      assert f in FlagAll(ms, vars, ts);
    } else {
      FlagOneCovers(ms, vars, m, t);
      var f :| f in FlagOne(ms, vars, t) && f.key == Key(m.row, vars) && f.threshold == ThresholdLabel(t);
      assert f in FlagAll(ms, vars, ts);
    }
  }

  lemma {:induction false} FlagOneCovers(ms: seq<Match>, vars: seq<string>, m: Match, t: nat)
    requires m in ms
    ensures exists f :: f in FlagOne(ms, vars, t) && f.key == Key(m.row, vars) && f.threshold == ThresholdLabel(t)
    decreases |ms|
  {
    var fs := FlagOne(ms, vars, t);
    if m == ms[0] {
      assert fs[0] in fs;
    } else {
      FlagOneCovers(ms[1..], vars, m, t);
      var f :| f in FlagOne(ms[1..], vars, t) && f.key == Key(m.row, vars) && f.threshold == ThresholdLabel(t);
      assert f in fs;
    }
  }

  /** No sensitivity variable of the key is null (a null key never joins). */
  predicate NoNull(dims: seq<Cell>)
  {
    forall i :: 0 <= i < |dims| ==> dims[i] != Null
  }

  function GroupLabels(fs: seq<Flagged>): (gs: seq<(GroupKey, string)>)
    ensures |gs| == |fs|
    ensures forall i :: 0 <= i < |fs| ==> gs[i] == (fs[i].key, fs[i].threshold)
  {
    seq(|fs|, i requires 0 <= i < |fs| => (fs[i].key, fs[i].threshold))
  }

  /** The (group, threshold label) pairs of the copies, once each, without null keys. */
  function DurationGroups(ms: seq<Match>, vars: seq<string>, ts: seq<nat>): (gs: seq<(GroupKey, string)>)
    ensures NoDup(gs)
    ensures forall g :: g in gs <==> g in GroupLabels(FlagAll(ms, vars, ts)) && NoNull(g.0.dims)
  {
    var gs := Dedup(GroupLabels(FlagAll(ms, vars, ts)));
    FilterNoDup(gs, (g: (GroupKey, string)) => NoNull(g.0.dims));
    Filter(gs, (g: (GroupKey, string)) => NoNull(g.0.dims))
  }

  /**
   * `row` is the row of its group and threshold label: a group with a
   * matched stay and no null key, a label of a threshold, the events
   * counted under that label, and the group's number of stays.
   */
  predicate IsDurationRow(events: seq<EventRow>, cohort: seq<CohortRow>, vars: seq<string>, thresholds: seq<nat>, row: KeyRow)
    requires thresholds != []
  {
    var ms := Matches(cohort, events, Max(thresholds));
    && row.DurationRow?
    && NoNull(row.key.dims)
    && (exists m :: m in ms && Key(m.row, vars) == row.key)
    && (exists t :: t in thresholds && ThresholdLabel(t) == row.threshold)
    && row.nEvents == SumEvents(ms, vars, thresholds, row.key, row.threshold)
    && row.nTotal == Count(cohort, (c: CohortRow) => Key(c, vars) == row.key)
    && row.nTotal >= 1
    && row.rate == row.nEvents as real / row.nTotal as real
  }

  function DurationRowOf(events: seq<EventRow>, cohort: seq<CohortRow>, vars: seq<string>, thresholds: seq<nat>,
                         g: (GroupKey, string)): (row: KeyRow)
    requires thresholds != []
    requires g in DurationGroups(Matches(cohort, events, Max(thresholds)), vars, thresholds)
    ensures IsDurationRow(events, cohort, vars, thresholds, row)
    ensures row.key == g.0 && row.threshold == g.1
  {
    var ms := Matches(cohort, events, Max(thresholds));
    var fs := FlagAll(ms, vars, thresholds);
    var i :| 0 <= i < |fs| && GroupLabels(fs)[i] == g;
    FlagAllMember(ms, vars, thresholds, fs[i]);
    var m :| m in ms && Key(m.row, vars) == g.0;
    assert m.row in Filter(cohort, (r: CohortRow) => Key(r, vars) == g.0);
    FlagAllCount(ms, vars, thresholds, g.0, g.1);
    var nEvents := Count(fs, IsEventOf(g.0, g.1));
    var nTotal := Count(cohort, (r: CohortRow) => Key(r, vars) == g.0);
    DurationRow(g.0, g.1, nEvents, nTotal, Rate(nEvents, nTotal))
  }

  function DurationRows(events: seq<EventRow>, cohort: seq<CohortRow>, vars: seq<string>, thresholds: seq<nat>,
                        groups: seq<(GroupKey, string)>): (rows: seq<KeyRow>)
    requires thresholds != []
    requires forall g :: g in groups ==> g in DurationGroups(Matches(cohort, events, Max(thresholds)), vars, thresholds)
    ensures |rows| == |groups|
    ensures forall i :: 0 <= i < |rows| ==>
      IsDurationRow(events, cohort, vars, thresholds, rows[i]) && (rows[i].key, rows[i].threshold) == groups[i]
  {
    seq(|groups|, i requires 0 <= i < |groups| => DurationRowOf(events, cohort, vars, thresholds, groups[i]))
  }

  /**
   * For every group with a matched stay and no null key, and every
   * threshold label: the number of stays whose next event came within
   * the threshold, and the group's number of stays.
   */
  function ComputeDurationAfterEvent(events: seq<EventRow>, cohort: seq<CohortRow>, vars: seq<string>,
                                     thresholds: seq<nat>): (r: Result<seq<KeyRow>>)
    ensures r.Err? <==> !HasColumns(cohort, vars) || thresholds == []
    ensures r.Err? ==> r.error == (if HasColumns(cohort, vars) then EmptyThresholds else ColumnNotFound)
    ensures r.Ok? ==> forall i :: 0 <= i < |r.value| ==> IsDurationRow(events, cohort, vars, thresholds, r.value[i])
    ensures r.Ok? ==> forall i, j :: 0 <= i < j < |r.value| ==>
      r.value[i].DurationRow? && r.value[j].DurationRow? &&
      (r.value[i].key, r.value[i].threshold) != (r.value[j].key, r.value[j].threshold)
  {
    if !HasColumns(cohort, vars) then Err(ColumnNotFound)
    else if thresholds == [] then Err(EmptyThresholds)
    else
      var groups := DurationGroups(Matches(cohort, events, Max(thresholds)), vars, thresholds);
      var rows := DurationRows(events, cohort, vars, thresholds, groups);
      Ok(rows)
  }

  /** Every matched stay without a null key has a row under every threshold label. */
  lemma DurationRowsCover(events: seq<EventRow>, cohort: seq<CohortRow>, vars: seq<string>, thresholds: seq<nat>,
                          m: Match, t: nat)
    requires HasColumns(cohort, vars)
    requires t in thresholds && m in Matches(cohort, events, Max(thresholds))
    requires NoNull(Key(m.row, vars).dims)
    ensures var rs := ComputeDurationAfterEvent(events, cohort, vars, thresholds).value;
      exists i :: 0 <= i < |rs| && rs[i].key == Key(m.row, vars) && rs[i].threshold == ThresholdLabel(t)
  {
    var ms := Matches(cohort, events, Max(thresholds));
    var groups := DurationGroups(ms, vars, thresholds);
    var rs := ComputeDurationAfterEvent(events, cohort, vars, thresholds).value;
    assert rs == DurationRows(events, cohort, vars, thresholds, groups);
    DurationGroupOf(ms, vars, thresholds, m, t);
    var i :| 0 <= i < |groups| && groups[i] == (Key(m.row, vars), ThresholdLabel(t));
    assert (rs[i].key, rs[i].threshold) == groups[i];
  }

  /** Every matched stay with no null key gives its group a pair with each threshold's label. */
  lemma DurationGroupOf(ms: seq<Match>, vars: seq<string>, ts: seq<nat>, m: Match, t: nat)
    requires m in ms && t in ts && NoNull(Key(m.row, vars).dims)
    ensures (Key(m.row, vars), ThresholdLabel(t)) in DurationGroups(ms, vars, ts)
  {
    var fs := FlagAll(ms, vars, ts);
    FlagAllCovers(ms, vars, ts, m, t);
    var f :| f in fs && f.key == Key(m.row, vars) && f.threshold == ThresholdLabel(t);
    var j :| 0 <= j < |fs| && fs[j] == f;
    assert GroupLabels(fs)[j] in GroupLabels(fs);
  }

  /**
   * With distinct thresholds, a row counts exactly the stays of its group
   * whose next event came within its own threshold.
   */
  lemma {:induction false} SumEventsDistinct(ms: seq<Match>, vars: seq<string>, ts: seq<nat>, k: GroupKey, t: nat)
    requires NoDup(ts)
    ensures SumEvents(ms, vars, ts, k, ThresholdLabel(t)) == if t in ts then EventsWithin(ms, vars, k, t) else 0
    decreases |ts|
  {
    if ts != [] {
      var front := ts[..|ts| - 1];
      var last := ts[|ts| - 1];
      assert ts == front + [last];
      assert NoDup(front);
      SumEventsDistinct(ms, vars, front, k, t);
      if ThresholdLabel(last) == ThresholdLabel(t) {
        ThresholdLabelInjective(last, t);
        assert t !in front;
      }
    }
  }

  /**
   * Distinct thresholds: each row's `n_events` is the number of matched
   * stays of the group within its threshold, it never exceeds `n_total`
   * (the rate lies in [0, 1]), and it grows with the threshold.
   */
  lemma DurationEventsBounded(events: seq<EventRow>, cohort: seq<CohortRow>, vars: seq<string>,
                              thresholds: seq<nat>, row: KeyRow, t: nat)
    requires HasColumns(cohort, vars) && thresholds != [] && NoDup(thresholds)
    requires row in ComputeDurationAfterEvent(events, cohort, vars, thresholds).value
    requires t in thresholds && row.threshold == ThresholdLabel(t)
    ensures row.nEvents == EventsWithin(Matches(cohort, events, Max(thresholds)), vars, row.key, t)
    ensures row.nEvents <= row.nTotal
    ensures 0.0 <= row.rate <= 1.0
  {
    var rs := ComputeDurationAfterEvent(events, cohort, vars, thresholds).value;
    var i :| 0 <= i < |rs| && rs[i] == row;
    assert IsDurationRow(events, cohort, vars, thresholds, row);
    var ms := Matches(cohort, events, Max(thresholds));
    SumEventsDistinct(ms, vars, thresholds, row.key, t);
    CountMono(ms, (m: Match) => Key(m.row, vars) == row.key, (m: Match) => Key(m.row, vars) == row.key && m.duration <= t);
    MatchesPerGroup(cohort, events, Max(thresholds), vars, row.key);
  }

  /** A larger threshold never counts fewer events. */
  lemma EventsWithinMonotone(ms: seq<Match>, vars: seq<string>, k: GroupKey, t: nat, u: nat)
    requires t <= u
    ensures EventsWithin(ms, vars, k, t) <= EventsWithin(ms, vars, k, u)
  {
    CountMono(ms, (m: Match) => Key(m.row, vars) == k && m.duration <= u, (m: Match) => Key(m.row, vars) == k && m.duration <= t);
  }

  // ---------------------------------------------------------------------
  // Weekly incidence

  /** `year + (month > 8)`: September opens the next school year. */
  function SchoolYear(d: Date): (y: int)
    ensures d.month <= 8 ==> y == d.year
    ensures d.month > 8 ==> y == d.year + 1
  {
    d.year + (if d.month > 8 then 1 else 0)
  }

  /** The weekly bucket of a stay: its sensitivity variables and the start of its admission week. */
  function Bucket(r: CohortRow, vars: seq<string>, weekStart: Date -> Date): GroupKey
  {
    GroupKey(Project(r, vars), weekStart(r.stayStart))
  }

  function Buckets(rows: seq<CohortRow>, vars: seq<string>, weekStart: Date -> Date): (bs: seq<GroupKey>)
    ensures |bs| == |rows|
    ensures forall i :: 0 <= i < |rows| ==> bs[i] == Bucket(rows[i], vars, weekStart)
  {
    seq(|rows|, i requires 0 <= i < |rows| => Bucket(rows[i], vars, weekStart))
  }

  /** The stays with at least one event (the inner join with the events' distinct visit ids). */
  function StaysWithEvent(events: seq<EventRow>, cohort: seq<CohortRow>): seq<CohortRow>
  {
    Filter(cohort, HasEvent(VisitIds(events)))
  }

  function BucketRows(rows: seq<CohortRow>, vars: seq<string>, weekStart: Date -> Date, b: GroupKey): seq<CohortRow>
  {
    Filter(rows, (r: CohortRow) => Bucket(r, vars, weekStart) == b)
  }

  /** Two rows compete for the same school-year maximum. */
  predicate SameSeason(a: KeyRow, b: KeyRow)
    requires a.IncidenceRow? && b.IncidenceRow?
  {
    a.schoolYears == b.schoolYears && a.key.dims == b.key.dims
  }

  /** `a` comes first in the order (more events first, then earlier week). */
  predicate Beats(a: KeyRow, b: KeyRow)
    requires a.IncidenceRow? && b.IncidenceRow?
  {
    a.nEvents > b.nEvents || (a.nEvents == b.nEvents && Le(a.key.subCohort, b.key.subCohort))
  }

  lemma BeatsTrans(a: KeyRow, b: KeyRow, c: KeyRow)
    requires a.IncidenceRow? && b.IncidenceRow? && c.IncidenceRow?
    requires Beats(a, b) && Beats(b, c)
    ensures Beats(a, c)
  {
    if a.nEvents == b.nEvents == c.nEvents {
      LeTrans(a.key.subCohort, b.key.subCohort, c.key.subCohort);
    }
  }

  lemma BeatsTotal(a: KeyRow, b: KeyRow)
    requires a.IncidenceRow? && b.IncidenceRow?
    ensures Beats(a, b) || Beats(b, a)
  {
    LeTotal(a.key.subCohort, b.key.subCohort);
  }

  predicate AllIncidence(rows: seq<KeyRow>)
  {
    forall r :: r in rows ==> r.IncidenceRow?
  }

  /** `w` comes first in the order among the rows of its season. */
  predicate SeasonMax(rows: seq<KeyRow>, w: KeyRow)
    requires AllIncidence(rows) && w.IncidenceRow?
  {
    forall o :: o in rows && SameSeason(o, w) ==> Beats(w, o)
  }

  predicate UniqueKeys(rows: seq<KeyRow>)
  {
    forall i, j :: 0 <= i < j < |rows| ==> rows[i].key != rows[j].key
  }

  /** The first row of the season of `w` in the order, scanning `rows` from `w`. */
  function BestFrom(rows: seq<KeyRow>, w: KeyRow): (b: KeyRow)
    requires AllIncidence(rows) && w.IncidenceRow?
    ensures b == w || b in rows
    ensures b.IncidenceRow? && SameSeason(b, w) && Beats(b, w)
    ensures SeasonMax(rows, b)
    decreases |rows|
  {
    if rows == [] then w
    else
      var o := rows[0];
      var w' := if SameSeason(o, w) && !Beats(w, o) then o else w;
      BeatsTotal(o, w);
      var b := BestFrom(rows[1..], w');
      BeatsTrans(b, w', w);
      assert forall x :: x in rows ==> x == o || x in rows[1..];
      assert SameSeason(o, b) ==> Beats(b, o) by {
        if SameSeason(o, b) {
          BeatsTrans(b, w', o);
        }
      }
      b
  }

  /** Two season maxima of one season with distinct keys cannot both exist. */
  lemma SeasonMaxUnique(rows: seq<KeyRow>, i: int, j: int)
    requires AllIncidence(rows) && UniqueKeys(rows)
    requires 0 <= i < |rows| && 0 <= j < |rows| && SameSeason(rows[i], rows[j])
    requires SeasonMax(rows, rows[i]) && SeasonMax(rows, rows[j])
    ensures i == j
  {
    assert rows[i] in rows && rows[j] in rows;
    assert rows[i].key.subCohort == rows[j].key.subCohort;
  }

  /** The scan from a row ends on that row exactly when it is its season's maximum. */
  lemma BestFromFixpoint(rows: seq<KeyRow>, i: int)
    requires AllIncidence(rows) && UniqueKeys(rows) && 0 <= i < |rows|
    ensures BestFrom(rows, rows[i]) == rows[i] <==> SeasonMax(rows, rows[i])
  {
    var w := BestFrom(rows, rows[i]);
    if SeasonMax(rows, rows[i]) && w != rows[i] {
      var j :| 0 <= j < |rows| && rows[j] == w;
      SeasonMaxUnique(rows, i, j);
    }
  }

  function BaseIncidenceRow(kept: seq<CohortRow>, vars: seq<string>, weekStart: Date -> Date, b: GroupKey): (row: KeyRow)
    requires b in Buckets(kept, vars, weekStart)
    ensures row.IncidenceRow? && row.key == b && row.nEvents >= 1 && row.maxEvents.None?
    ensures row.nEvents == NUnique(CohortIds(BucketRows(kept, vars, weekStart, b)))
    ensures row.schoolYears == SchoolYear(b.subCohort)
  {
    var i :| 0 <= i < |kept| && Buckets(kept, vars, weekStart)[i] == b;
    assert kept[i] in BucketRows(kept, vars, weekStart, b);
    NUniquePositive(CohortIds(BucketRows(kept, vars, weekStart, b)));
    IncidenceRow(b, NUnique(CohortIds(BucketRows(kept, vars, weekStart, b))), SchoolYear(b.subCohort), None)
  }

  /** One row per weekly bucket, before the school-year maxima are joined. */
  function BaseIncidence(events: seq<EventRow>, cohort: seq<CohortRow>, vars: seq<string>, weekStart: Date -> Date): (base: seq<KeyRow>)
    ensures AllIncidence(base) && UniqueKeys(base)
    ensures forall b :: b in Buckets(StaysWithEvent(events, cohort), vars, weekStart) <==> exists i :: 0 <= i < |base| && base[i].key == b
    ensures forall i :: 0 <= i < |base| ==>
      && base[i].nEvents == NUnique(CohortIds(BucketRows(StaysWithEvent(events, cohort), vars, weekStart, base[i].key)))
      && base[i].nEvents >= 1
      && base[i].schoolYears == SchoolYear(base[i].key.subCohort)
  {
    var kept := StaysWithEvent(events, cohort);
    var keys := Dedup(Buckets(kept, vars, weekStart));
    var base := BaseIncidenceRows(kept, vars, weekStart, keys);
    KeysCovered(base, keys);
    base
  }

  function BaseIncidenceRows(kept: seq<CohortRow>, vars: seq<string>, weekStart: Date -> Date, keys: seq<GroupKey>): (rows: seq<KeyRow>)
    requires forall b :: b in keys ==> b in Buckets(kept, vars, weekStart)
    ensures |rows| == |keys|
    ensures forall i :: 0 <= i < |keys| ==> rows[i] == BaseIncidenceRow(kept, vars, weekStart, keys[i])
  {
    seq(|keys|, i requires 0 <= i < |keys| => BaseIncidenceRow(kept, vars, weekStart, keys[i]))
  }

  /** The school-year maximum joined onto a bucket row (none for a null key). */
  function WithMax(base: seq<KeyRow>, i: int): (row: KeyRow)
    requires AllIncidence(base) && UniqueKeys(base) && 0 <= i < |base|
    ensures row.IncidenceRow? && row == base[i].(maxEvents := row.maxEvents)
    ensures row.maxEvents.Some? <==> NoNull(base[i].key.dims) && SeasonMax(base, base[i])
    ensures row.maxEvents.Some? ==> row.maxEvents.value == base[i].nEvents
  {
    BestFromFixpoint(base, i);
    base[i].(maxEvents := if NoNull(base[i].key.dims) && BestFrom(base, base[i]) == base[i]
                          then Some(base[i].nEvents) else None)
  }

  /**
   * Weekly incidence: per bucket the number of distinct stays with an
   * event, the school year of its week, and, on the one bucket of each
   * (school year, sensitivity variables) that comes first in the order,
   * the school-year maximum; other buckets and null keys get none.
   */
  function ComputeConditionIncidence(events: seq<EventRow>, cohort: seq<CohortRow>, vars: seq<string>,
                                     weekStart: Date -> Date): (r: Result<seq<KeyRow>>)
    ensures r.Err? <==> !HasColumns(cohort, vars)
    ensures r.Err? ==> r.error == ColumnNotFound
    ensures r.Ok? ==> |r.value| == |BaseIncidence(events, cohort, vars, weekStart)|
    ensures r.Ok? ==> forall i :: 0 <= i < |r.value| ==>
      r.value[i] == WithMax(BaseIncidence(events, cohort, vars, weekStart), i)
  {
    if !HasColumns(cohort, vars) then Err(ColumnNotFound)
    else
      Ok(WithMaxima(BaseIncidence(events, cohort, vars, weekStart)))
  }

  /** Every bucket row with its school-year maximum joined. */
  function WithMaxima(base: seq<KeyRow>): (rs: seq<KeyRow>)
    requires AllIncidence(base) && UniqueKeys(base)
    ensures |rs| == |base|
    ensures forall j :: 0 <= j < |rs| ==> rs[j] == WithMax(base, j) && rs[j].IncidenceRow?
  {
    seq(|base|, j requires 0 <= j < |base| => WithMax(base, j))
  }

  /**
   * Every season (school year and sensitivity variables, no null key)
   * has exactly one bucket carrying the school-year maximum.
   */
  lemma OneMaximumPerSeason(events: seq<EventRow>, cohort: seq<CohortRow>, vars: seq<string>,
                            weekStart: Date -> Date, i: int)
    requires HasColumns(cohort, vars)
    requires 0 <= i < |BaseIncidence(events, cohort, vars, weekStart)|
    requires NoNull(BaseIncidence(events, cohort, vars, weekStart)[i].key.dims)
    ensures var rs := ComputeConditionIncidence(events, cohort, vars, weekStart).value;
      && (exists j :: 0 <= j < |rs| && SameSeason(rs[j], rs[i]) && rs[j].maxEvents.Some?)
      && (forall j, j' ::
            (0 <= j < |rs| && 0 <= j' < |rs| && SameSeason(rs[j], rs[i]) && SameSeason(rs[j'], rs[i])
             && rs[j].maxEvents.Some? && rs[j'].maxEvents.Some?) ==> j == j')
  {
    var base := BaseIncidence(events, cohort, vars, weekStart);
    assert ComputeConditionIncidence(events, cohort, vars, weekStart).value == WithMaxima(base);
    OneMaximumIn(base, i);
  }

  /** With each bucket row given its maximum, the season of a row without null key has exactly one maximum. */
  lemma OneMaximumIn(base: seq<KeyRow>, i: int)
    requires AllIncidence(base) && UniqueKeys(base)
    requires 0 <= i < |base| && NoNull(base[i].key.dims)
    ensures var rs := WithMaxima(base);
      exists j :: 0 <= j < |rs| && SameSeason(rs[j], rs[i]) && rs[j].maxEvents.Some?
    ensures var rs := WithMaxima(base);
      forall j, j' ::
        (0 <= j < |rs| && 0 <= j' < |rs| && SameSeason(rs[j], rs[i]) && SameSeason(rs[j'], rs[i])
         && rs[j].maxEvents.Some? && rs[j'].maxEvents.Some?) ==> j == j'
  {
    var rs := WithMaxima(base);
    var w := BestFrom(base, base[i]);
    var j :| 0 <= j < |base| && base[j] == w;
    assert rs[j] == WithMax(base, j);
    assert SameSeason(rs[j], rs[i]);
    forall j, j' | 0 <= j < |rs| && 0 <= j' < |rs| && SameSeason(rs[j], rs[i]) && SameSeason(rs[j'], rs[i])
        && rs[j].maxEvents.Some? && rs[j'].maxEvents.Some?
      ensures j == j'
    {
      assert rs[j] == WithMax(base, j) && rs[j'] == WithMax(base, j');
      SeasonMaxUnique(base, j, j');
    }
  }

  // ---------------------------------------------------------------------
  // Dispatch

  /** `key_functions.get(name)(...)`: the registered function applied to the same arguments. */
  function ComputeKey(kf: KeyFunction, events: seq<EventRow>, cohort: seq<CohortRow>, vars: seq<string>,
                      thresholds: seq<nat>, weekStart: Date -> Date): (r: Result<seq<KeyRow>>)
    ensures r.Err? <==> !HasColumns(cohort, vars) || (kf == DurationAfterEvent && thresholds == [])
    ensures r.Err? ==> r.error == (if HasColumns(cohort, vars) then EmptyThresholds else ColumnNotFound)
    ensures r.Ok? ==> forall row :: row in r.value ==>
      match kf
      case EventDuringCohortStay => row.DuringRow?
      case DurationAfterEvent => row.DurationRow?
      case ConditionIncidence => row.IncidenceRow?
  {
    match kf
    case EventDuringCohortStay => ComputeEventDuringCohortStay(events, cohort, vars)
    case DurationAfterEvent => ComputeDurationAfterEvent(events, cohort, vars, thresholds)
    case ConditionIncidence => ComputeConditionIncidence(events, cohort, vars, weekStart)
  }
}
