/**
 * The row filters of the cohort selection, over pandas tables whose rows
 * are column-name → value maps: regular-expression filters on a text
 * column, the source-system filter, the timestamp-range clean-up, the
 * study-period window with its monthly sub-cohort, and the first event of
 * each visit.
 */
module FilterEvents {
  import opened Tables
  import opened Dates

  /** A pandas cell: missing (None / NaN / NaT), an integer, a string or a timestamp. */
  datatype Value = NullV | IntV(i: int) | StrV(s: string) | DateV(d: Date)

  type Row = map<string, Value>

  /** A table: its column names and its rows. */
  datatype Frame = Frame(columns: set<string>, rows: seq<Row>)

  /** Every row has exactly the table's columns. */
  predicate WellFormed(f: Frame)
  {
    forall r :: r in f.rows ==> r.Keys == f.columns
  }

  function Get(r: Row, c: string): Value
  {
    if c in r then r[c] else NullV
  }

  /**
   * `Series.str.contains(pattern, case=...)` on one string: whether the
   * regular expression `pattern` matches somewhere in `s`, ignoring case
   * when `ignoreCase` holds. The regular-expression engine is a parameter.
   */
  type Search = (string, string, bool) -> bool

  // ---------------------------------------------------------------------
  // Regular-expression filters

  /**
   * `filter_event`: the rows whose `col` holds a string the pattern
   * matches, ignoring case; a missing value never matches (`na=False`).
   */
  function FilterEvent(f: Frame, col: string, pattern: string, search: Search): (r: Result<Frame>)
    ensures r.Err? <==> col !in f.columns
    ensures r.Err? ==> r.error == ColumnNotFound
    ensures r.Ok? ==> r.value.columns == f.columns && |r.value.rows| <= |f.rows|
    ensures r.Ok? ==> forall x :: x in r.value.rows <==>
      x in f.rows && Get(x, col).StrV? && search(pattern, Get(x, col).s, true)
    ensures r.Ok? ==> forall x :: x in r.value.rows ==> Get(x, col) != NullV
  {
    if col !in f.columns then Err(ColumnNotFound)
    else Ok(Frame(f.columns, Filter(f.rows, (x: Row) => Get(x, col).StrV? && search(pattern, Get(x, col).s, true))))
  }

  /** `filter_note_type`: the same filter on the `note_type` column. */
  function FilterNoteType(note: Frame, pattern: string, search: Search): (r: Result<Frame>)
    ensures r.Err? <==> "note_type" !in note.columns
    ensures r.Ok? ==> r.value.columns == note.columns
    ensures r.Ok? ==> forall x :: x in r.value.rows <==>
      x in note.rows && Get(x, "note_type").StrV? && search(pattern, Get(x, "note_type").s, true)
  {
    FilterEvent(note, "note_type", pattern, search)
  }

  /** `DataFrame.rename(columns={from: to})` on one row. */
  function RenameRow(r: Row, from: string, to: string): (r': Row)
    requires from in r
    ensures r'.Keys == r.Keys - {from} + {to}
    ensures r'[to] == r[from]
    ensures forall c :: c in r && c != from && c != to ==> r'[c] == r[c]
  {
    (map c | c in r && c != from :: r[c])[to := r[from]]
  }

  /**
   * The mask `diag_type.str.contains(pattern)` (case-sensitive, `na`
   * left as NaN): a row without a string diagnosis type gives NaN.
   */
  function DiagMask(r: Row, pattern: string, search: Search): Option<bool>
  {
    if Get(r, "diag_type").StrV? then Some(search(pattern, Get(r, "diag_type").s, false)) else None
  }

  /** Every row with `condition_status_source_value` renamed `diag_type`. */
  function RenameStatus(rows: seq<Row>): (r: seq<Row>)
    requires forall x :: x in rows ==> "condition_status_source_value" in x
    ensures |r| == |rows|
    ensures forall i :: 0 <= i < |rows| ==> r[i] == RenameRow(rows[i], "condition_status_source_value", "diag_type")
  {
    seq(|rows|, i requires 0 <= i < |rows| => RenameRow(rows[i], "condition_status_source_value", "diag_type"))
  }

  /**
   * `filter_diag`: rename `condition_status_source_value` to `diag_type`,
   * then keep the rows whose diagnosis type the pattern matches. A missing
   * diagnosis type puts NaN in the mask and the indexing fails.
   */
  function FilterDiag(co: Frame, pattern: string, search: Search): (r: Result<Frame>)
    requires WellFormed(co)
    ensures r.Err? <==> ("condition_status_source_value" !in co.columns
                         || exists x :: x in co.rows && !Get(x, "condition_status_source_value").StrV?)
    ensures "condition_status_source_value" !in co.columns ==> r == Err(ColumnNotFound)
    ensures r.Err? && "condition_status_source_value" in co.columns ==> r.error == MaskWithNull
    ensures r.Ok? ==> r.value.columns == co.columns - {"condition_status_source_value"} + {"diag_type"}
    ensures r.Ok? ==> |r.value.rows| <= |co.rows|
    ensures r.Ok? ==> forall x :: x in r.value.rows ==> Get(x, "diag_type").StrV? && search(pattern, Get(x, "diag_type").s, false)
  {
    var from, to := "condition_status_source_value", "diag_type";
    if from !in co.columns then Err(ColumnNotFound)
    else if exists y :: y in co.rows && !Get(y, from).StrV? then Err(MaskWithNull)
    else Ok(Frame(co.columns - {from} + {to}, Filter(RenameStatus(co.rows), (x: Row) => DiagMask(x, pattern, search) == Some(true))))
  }

  /** The rows that pass the diagnosis mask are the renamed rows whose status matches. */
  predicate DiagKept(rows: seq<Row>, pattern: string, search: Search, x: Row)
  {
    exists y :: y in rows && Get(y, "condition_status_source_value").StrV?
                && x == RenameRow(y, "condition_status_source_value", "diag_type")
                && search(pattern, Get(y, "condition_status_source_value").s, false)
  }

  lemma RenamedKept(rows: seq<Row>, pattern: string, search: Search, x: Row)
    requires forall y :: y in rows ==> "condition_status_source_value" in y
    ensures x in Filter(RenameStatus(rows), (x: Row) => DiagMask(x, pattern, search) == Some(true))
            <==> DiagKept(rows, pattern, search, x)
  {
    var from, to := "condition_status_source_value", "diag_type";
    var renamed := RenameStatus(rows);
    if x in renamed && DiagMask(x, pattern, search) == Some(true) {
      var i :| 0 <= i < |renamed| && renamed[i] == x;
      assert rows[i] in rows;
    }
    if DiagKept(rows, pattern, search, x) {
      var y :| y in rows && Get(y, from).StrV? && x == RenameRow(y, from, to) && search(pattern, Get(y, from).s, false);
      var i :| 0 <= i < |rows| && rows[i] == y;
      assert renamed[i] == x;
    }
  }

  /** A kept row is an input row with `condition_status_source_value` renamed `diag_type`, whose status matches. */
  lemma FilterDiagRows(co: Frame, pattern: string, search: Search, x: Row)
    requires WellFormed(co) && FilterDiag(co, pattern, search).Ok?
    ensures x in FilterDiag(co, pattern, search).value.rows <==> DiagKept(co.rows, pattern, search, x)
  {
    RenamedKept(co.rows, pattern, search, x);
  }

  // ---------------------------------------------------------------------
  // Source system and timestamp clean-up

  /** `filter_source`: the rows of the given source system, without the `cdm_source` column. */
  function FilterSource(table: Frame, source: string): (r: Result<Frame>)
    requires WellFormed(table)
    ensures r.Err? <==> "cdm_source" !in table.columns
    ensures r.Ok? ==> WellFormed(r.value) && r.value.columns == table.columns - {"cdm_source"}
    ensures r.Ok? ==> forall x :: x in r.value.rows <==>
      exists y :: y in table.rows && Get(y, "cdm_source") == StrV(source) && x == y - {"cdm_source"}
  {
    if "cdm_source" !in table.columns then Err(ColumnNotFound)
    else
      var p := (y: Row) => Get(y, "cdm_source") == StrV(source);
      var dropped := DropColumn(Filter(table.rows, p), "cdm_source");
      DropColumnMembers(Filter(table.rows, p), "cdm_source");
      Ok(Frame(table.columns - {"cdm_source"}, dropped))
  }

  /** The rows without the column `c`. */
  function DropColumn(rows: seq<Row>, c: string): (out: seq<Row>)
    ensures |out| == |rows|
    ensures forall i :: 0 <= i < |rows| ==> out[i] == rows[i] - {c}
  {
    seq(|rows|, i requires 0 <= i < |rows| => rows[i] - {c})
  }

  lemma DropColumnMembers(rows: seq<Row>, c: string)
    ensures forall x :: x in DropColumn(rows, c) <==> exists y :: y in rows && x == y - {c}
  {
    var out := DropColumn(rows, c);
    forall y | y in rows
      ensures y - {c} in out
    {
      var i :| 0 <= i < |rows| && rows[i] == y;
      assert out[i] == y - {c};
    }
  }

  /** The first day of `pd.Timestamp.min` still representable at midnight. */
  const TimestampMinDay: Date := Ymd(1677, 9, 22)
  /** The day of `pd.Timestamp.max`. */
  const TimestampMaxDay: Date := Ymd(2262, 4, 11)

  /** A date inside `[pd.Timestamp.min, pd.Timestamp.max]` at midnight. */
  predicate InTimestampRange(d: Date)
  {
    Le(TimestampMinDay, d) && Le(d, TimestampMaxDay)
  }

  /** The row survives `clean_date`: its date is missing or representable. */
  predicate CleanKeeps(x: Row, col: string)
  {
    Get(x, col).NullV? || (Get(x, col).DateV? && InTimestampRange(Get(x, col).d))
  }

  /**
   * `clean_date`: drop the rows whose date lies outside the timestamp
   * range; a missing date compares false both ways and is kept. A
   * non-timestamp value in the column cannot be compared.
   */
  function CleanDate(df: Frame, col: string): (r: Result<Frame>)
    ensures r.Err? <==> col !in df.columns || exists x :: x in df.rows && !(Get(x, col).NullV? || Get(x, col).DateV?)
    ensures col !in df.columns ==> r == Err(ColumnNotFound)
    ensures r.Ok? ==> r.value.columns == df.columns
    ensures r.Ok? ==> forall x :: x in r.value.rows <==> x in df.rows && CleanKeeps(x, col)
    ensures r.Ok? ==> forall x :: multiset(r.value.rows)[x] == if CleanKeeps(x, col) then multiset(df.rows)[x] else 0
  {
    if col !in df.columns then Err(ColumnNotFound)
    else if exists x :: x in df.rows && !(Get(x, col).NullV? || Get(x, col).DateV?) then Err(TypeMismatch)
    else
      var p := (x: Row) => CleanKeeps(x, col);
      assert forall x :: multiset(Filter(df.rows, p))[x] == if p(x) then multiset(df.rows)[x] else 0 by {
        forall x {
          FilterMultiset(df.rows, p, x);
        }
      }
      Ok(Frame(df.columns, Filter(df.rows, p)))
  }

  // ---------------------------------------------------------------------
  // Study period and monthly sub-cohort

  /** The row lies in the study period `[start, end)`; a missing stay start compares false. */
  predicate InPeriod(x: Row, start: Date, end: Date)
  {
    Get(x, "cohort_stay_start").DateV? && Le(start, Get(x, "cohort_stay_start").d) && Lt(Get(x, "cohort_stay_start").d, end)
  }

  /** The row with its `sub_cohort` column set to the first of its stay's month (missing for a missing start). */
  function WithSubCohort(x: Row): (y: Row)
    ensures y.Keys == x.Keys + {"sub_cohort"}
    ensures forall c :: c in x && c != "sub_cohort" ==> y[c] == x[c]
    ensures y["sub_cohort"].DateV? <==> Get(x, "cohort_stay_start").DateV?
    ensures y["sub_cohort"].DateV? ==> y["sub_cohort"].d == FirstOfMonth(Get(x, "cohort_stay_start").d)
    ensures !y["sub_cohort"].DateV? ==> y["sub_cohort"] == NullV
  {
    var start := Get(x, "cohort_stay_start");
    x["sub_cohort" := if start.DateV? then DateV(FirstOfMonth(start.d)) else NullV]
  }

  /**
   * `filter_date`: the stays starting in `[start, end)`, each given the
   * column `sub_cohort`, the first day of its start month.
   */
  function FilterDate(cohortVisit: Frame, start: Date, end: Date): (r: Result<Frame>)
    ensures r.Err? <==> ("cohort_stay_start" !in cohortVisit.columns
        || exists x :: x in cohortVisit.rows && !(Get(x, "cohort_stay_start").NullV? || Get(x, "cohort_stay_start").DateV?))
    ensures r.Ok? ==> r.value.columns == cohortVisit.columns + {"sub_cohort"}
    ensures r.Ok? ==> |r.value.rows| == Count(cohortVisit.rows, (x: Row) => InPeriod(x, start, end))
    ensures r.Ok? ==> forall y :: y in r.value.rows <==>
      exists x :: x in cohortVisit.rows && InPeriod(x, start, end) && y == WithSubCohort(x)
  {
    var col := "cohort_stay_start";
    if col !in cohortVisit.columns then Err(ColumnNotFound)
    else if exists x :: x in cohortVisit.rows && !(Get(x, col).NullV? || Get(x, col).DateV?) then Err(TypeMismatch)
    else
      var kept := Filter(cohortVisit.rows, (x: Row) => InPeriod(x, start, end));
      WithSubCohortsMembers(kept);
      Ok(Frame(cohortVisit.columns + {"sub_cohort"}, WithSubCohorts(kept)))
  }

  /** Every row with its `sub_cohort` column set. */
  function WithSubCohorts(rows: seq<Row>): (out: seq<Row>)
    ensures |out| == |rows|
    ensures forall i :: 0 <= i < |rows| ==> out[i] == WithSubCohort(rows[i])
  {
    seq(|rows|, i requires 0 <= i < |rows| => WithSubCohort(rows[i]))
  }

  lemma WithSubCohortsMembers(rows: seq<Row>)
    ensures forall y :: y in WithSubCohorts(rows) <==> exists x :: x in rows && y == WithSubCohort(x)
  {
    var out := WithSubCohorts(rows);
    forall x | x in rows
      ensures WithSubCohort(x) in out
    {
      var i :| 0 <= i < |rows| && rows[i] == x;
      assert out[i] == WithSubCohort(x);
    }
  }

  /**
   * Every kept stay starts in the study period, and its sub-cohort is the
   * first day of the stay's month: no later than the stay, same year and
   * month.
   */
  lemma FilterDateSubCohort(cohortVisit: Frame, start: Date, end: Date, y: Row)
    requires FilterDate(cohortVisit, start, end).Ok?
    requires y in FilterDate(cohortVisit, start, end).value.rows
    ensures y["cohort_stay_start"].DateV? && y["sub_cohort"].DateV?
    ensures var s, sub := y["cohort_stay_start"].d, y["sub_cohort"].d;
      && Le(start, s) && Lt(s, end)
      && Le(sub, s) && sub.year == s.year && sub.month == s.month && sub.day == 1
  {
    var x :| x in cohortVisit.rows && InPeriod(x, start, end) && y == WithSubCohort(x);
  }

  // ---------------------------------------------------------------------
  // First event of each visit

  /** The date of a row as a sort key; a missing date sorts last. */
  function DateKey(x: Row, col: string): Option<Date>
  {
    if Get(x, col).DateV? then Some(Get(x, col).d) else None
  }

  /** Ascending order with missing values last (`na_position="last"`). */
  predicate KeyLe(a: Option<Date>, b: Option<Date>)
  {
    b.None? || (a.Some? && Le(a.value, b.value))
  }

  predicate SortedBy(s: seq<Row>, col: string)
  {
    forall i, j :: 0 <= i < j < |s| ==> KeyLe(DateKey(s[i], col), DateKey(s[j], col))
  }

  lemma KeyLeTotal(a: Option<Date>, b: Option<Date>)
    ensures KeyLe(a, b) || KeyLe(b, a)
  {
    if a.Some? && b.Some? {
      LeTotal(a.value, b.value);
    }
  }

  lemma KeyLeTrans(a: Option<Date>, b: Option<Date>, c: Option<Date>)
    requires KeyLe(a, b) && KeyLe(b, c)
    ensures KeyLe(a, c)
  {
    if c.Some? {
      LeTrans(a.value, b.value, c.value);
    }
  }

  /** Insert `x` into a sorted sequence, after every row whose date is not later. */
  function Insert(s: seq<Row>, x: Row, col: string): (r: seq<Row>)
    ensures multiset(r) == multiset(s) + multiset{x}
    ensures |r| == |s| + 1
    decreases |s|
  {
    if s == [] then [x]
    else
      var last := s[|s| - 1];
      assert s == s[..|s| - 1] + [last];
      if KeyLe(DateKey(last, col), DateKey(x, col)) then s + [x]
      else Insert(s[..|s| - 1], x, col) + [last]
  }

  lemma {:induction false} InsertSorted(s: seq<Row>, x: Row, col: string)
    requires SortedBy(s, col)
    ensures SortedBy(Insert(s, x, col), col)
    decreases |s|
  {
    if s != [] {
      var front, last := s[..|s| - 1], s[|s| - 1];
      var kx, kl := DateKey(x, col), DateKey(last, col);
      if KeyLe(kl, kx) {
        var r := s + [x];
        forall i, j | 0 <= i < j < |r|
          ensures KeyLe(DateKey(r[i], col), DateKey(r[j], col))
        {
          if j == |s| && i < |s| - 1 {
            KeyLeTrans(DateKey(s[i], col), kl, kx);
          }
        }
      } else {
        KeyLeTotal(kl, kx);
        InsertSorted(front, x, col);
        var ins := Insert(front, x, col);
        var r := ins + [last];
        forall i, j | 0 <= i < j < |r|
          ensures KeyLe(DateKey(r[i], col), DateKey(r[j], col))
        {
          if j == |ins| {
            var y := ins[i];
            assert y in multiset(ins);
            assert y in multiset(front) + multiset{x};
            if y != x {
              assert y in multiset(front);
              var k :| 0 <= k < |front| && front[k] == y;
              assert s[k] == y;
            }
          }
        }
      }
    }
  }

  /** `sort_values(col)`: an insertion sort on the date column. */
  function SortByDate(s: seq<Row>, col: string): (r: seq<Row>)
    ensures multiset(r) == multiset(s)
    ensures SortedBy(r, col)
    decreases |s|
  {
    if s == [] then []
    else
      var front := s[..|s| - 1];
      assert s == front + [s[|s| - 1]];
      InsertSorted(SortByDate(front, col), s[|s| - 1], col);
      Insert(SortByDate(front, col), s[|s| - 1], col)
  }

  /** `GroupBy.first()` for one column: the first non-missing value, or missing. */
  function FirstNonNull(group: seq<Row>, c: string): (v: Value)
    ensures v != NullV ==> exists x :: x in group && Get(x, c) == v
    ensures v != NullV ==> exists i :: 0 <= i < |group| && Get(group[i], c) == v && NullBefore(group, c, i)
    ensures v == NullV <==> forall x :: x in group ==> Get(x, c) == NullV
    decreases |group|
  {
    if group == [] then NullV
    else if Get(group[0], c) != NullV then Get(group[0], c)
    else
      var v := FirstNonNull(group[1..], c);
      assert forall x :: x in group ==> x == group[0] || x in group[1..];
      assert v != NullV ==> exists i :: 0 <= i < |group| && Get(group[i], c) == v && NullBefore(group, c, i) by {
        if v != NullV {
          var i :| 0 <= i < |group[1..]| && Get(group[1..][i], c) == v && NullBefore(group[1..], c, i);
          assert Get(group[i + 1], c) == v;
          forall j | 0 <= j < i + 1
            ensures Get(group[j], c) == NullV
          {
            if j > 0 {
              assert group[j] == group[1..][j - 1];
            }
          }
        }
      }
      v
  }

  /** Every row before index `i` is missing its value in `c`. */
  predicate NullBefore(group: seq<Row>, c: string, i: int)
    requires 0 <= i <= |group|
  {
    forall j :: 0 <= j < i ==> Get(group[j], c) == NullV
  }

  /** `v` is the earliest date of the group, or missing when the group has none. */
  predicate IsEarliest(group: seq<Row>, col: string, v: Value)
  {
    && (v == NullV <==> forall x :: x in group ==> !Get(x, col).DateV?)
    && (v != NullV ==> v.DateV? && (exists x :: x in group && Get(x, col) == v)
                       && forall x :: x in group && Get(x, col).DateV? ==> Le(v.d, Get(x, col).d))
  }

  lemma SortedTail(s: seq<Row>, col: string)
    requires s != [] && SortedBy(s, col)
    ensures SortedBy(s[1..], col)
  {
    var rest := s[1..];
    forall i, j | 0 <= i < j < |rest|
      ensures KeyLe(DateKey(rest[i], col), DateKey(rest[j], col))
    {
      assert rest[i] == s[i + 1] && rest[j] == s[j + 1];
    }
  }

  /** The head of a date-sorted table is no later than any dated row, and when it has no date no row has. */
  lemma SortedHead(s: seq<Row>, col: string)
    requires s != [] && SortedBy(s, col)
    ensures forall x :: x in s && Get(x, col).DateV? ==> DateKey(s[0], col).Some? && Le(DateKey(s[0], col).value, Get(x, col).d)
  {
    forall x | x in s && Get(x, col).DateV?
      ensures DateKey(s[0], col).Some? && Le(DateKey(s[0], col).value, Get(x, col).d)
    {
      var j :| 0 <= j < |s| && s[j] == x;
      if j != 0 {
        assert KeyLe(DateKey(s[0], col), DateKey(s[j], col));
      }
    }
  }

  /** In a date-sorted table, the first date of any sub-selection is its earliest date. */
  lemma {:induction false} FirstDateIsEarliest(s: seq<Row>, col: string, p: Row -> bool)
    requires SortedBy(s, col)
    requires forall x :: x in s ==> Get(x, col).NullV? || Get(x, col).DateV?
    ensures IsEarliest(Filter(s, p), col, FirstNonNull(Filter(s, p), col))
    decreases |s|
  {
    if s != [] {
      var rest := s[1..];
      SortedTail(s, col);
      FirstDateIsEarliest(rest, col, p);
      SortedHead(s, col);
      var g := Filter(s, p);
      if p(s[0]) {
        assert g == [s[0]] + Filter(rest, p);
        assert g[1..] == Filter(rest, p);
        if !Get(s[0], col).DateV? {
          assert Get(s[0], col) == NullV;
          assert FirstNonNull(g, col) == FirstNonNull(Filter(rest, p), col);
        }
      } else {
        assert g == Filter(rest, p);
      }
    }
  }

  /** The rows of one visit, in table order. */
  function VisitRows(s: seq<Row>, v: Value): seq<Row>
  {
    Filter(s, (x: Row) => Get(x, "visit_occurrence_id") == v)
  }

  /** The visits of the table, in order of first appearance, without missing identifiers. */
  function VisitKeys(s: seq<Row>): (ks: seq<Value>)
    ensures NoDup(ks)
    ensures forall v :: v in ks <==> v != NullV && exists x :: x in s && Get(x, "visit_occurrence_id") == v
  {
    var all := seq(|s|, i requires 0 <= i < |s| => Get(s[i], "visit_occurrence_id"));
    var ks := Filter(Dedup(all), (v: Value) => v != NullV);
    assert forall v :: v in all <==> exists x :: x in s && Get(x, "visit_occurrence_id") == v by {
      forall v | v in all
        ensures exists x :: x in s && Get(x, "visit_occurrence_id") == v
      {
        var i :| 0 <= i < |s| && all[i] == v;
        assert s[i] in s;
      }
      forall x | x in s
        ensures Get(x, "visit_occurrence_id") in all
      {
        var i :| 0 <= i < |s| && s[i] == x;
        assert all[i] == Get(x, "visit_occurrence_id");
      }
    }
    FilterNoDup(Dedup(all), (v: Value) => v != NullV);
    ks
  }

  /** `groupby(visit_occurrence_id).first()` for one visit: each column's first non-missing value. */
  function FirstRow(sorted: seq<Row>, columns: set<string>, v: Value): Row
  {
    map c | c in columns :: FirstNonNull(VisitRows(sorted, v), c)
  }

  /**
   * `filter_first_event`: sort by the event date, then keep one row per
   * visit made of the first non-missing value of each column. Visits with
   * a missing identifier are dropped.
   */
  function FilterFirstEvent(df: Frame, col: string): (r: Result<Frame>)
    ensures r.Err? <==> (col !in df.columns || "visit_occurrence_id" !in df.columns
        || exists x :: x in df.rows && !(Get(x, col).NullV? || Get(x, col).DateV?))
    ensures r.Ok? ==> r.value.columns == df.columns
    ensures r.Ok? ==> |r.value.rows| == |VisitKeys(df.rows)|
    ensures r.Ok? ==> forall i :: 0 <= i < |r.value.rows| ==> r.value.rows[i].Keys == df.columns
  {
    if col !in df.columns || "visit_occurrence_id" !in df.columns then Err(ColumnNotFound)
    else if exists x :: x in df.rows && !(Get(x, col).NullV? || Get(x, col).DateV?) then Err(TypeMismatch)
    else
      var sorted := SortByDate(df.rows, col);
      var ks := VisitKeys(sorted);
      VisitKeysPermutation(df.rows, sorted);
      Ok(Frame(df.columns, FirstRows(sorted, df.columns, ks)))
  }

  /** The first row of each of the visits `ks`, in that order. */
  function FirstRows(sorted: seq<Row>, columns: set<string>, ks: seq<Value>): (out: seq<Row>)
    ensures |out| == |ks|
    ensures forall i :: 0 <= i < |ks| ==> out[i] == FirstRow(sorted, columns, ks[i]) && out[i].Keys == columns
  {
    seq(|ks|, i requires 0 <= i < |ks| => FirstRow(sorted, columns, ks[i]))
  }

  /** Reordering the rows does not change which visits there are. */
  lemma VisitKeysPermutation(s: seq<Row>, t: seq<Row>)
    requires multiset(s) == multiset(t)
    ensures |VisitKeys(s)| == |VisitKeys(t)|
    ensures forall v :: v in VisitKeys(s) <==> v in VisitKeys(t)
  {
    forall x
      ensures x in s <==> x in t
    {
      assert x in s <==> x in multiset(s);
      assert x in t <==> x in multiset(t);
    }
    NoDupSameLength(VisitKeys(s), VisitKeys(t));
  }

  lemma NoDupSameLength<T>(a: seq<T>, b: seq<T>)
    requires NoDup(a) && NoDup(b)
    requires forall x :: x in a <==> x in b
    ensures |a| == |b|
  {
    NUniqueNoDup(a);
    NUniqueNoDup(b);
    assert ToSet(a) == ToSet(b);
  }

  /** The visit identifiers of a table's rows, in row order. */
  function VisitColumn(rows: seq<Row>): (ids: seq<Value>)
    ensures |ids| == |rows|
    ensures forall i :: 0 <= i < |rows| ==> ids[i] == Get(rows[i], "visit_occurrence_id")
  {
    seq(|rows|, i requires 0 <= i < |rows| => Get(rows[i], "visit_occurrence_id"))
  }

  /** The first row of a visit carries the visit, and its date is the visit's earliest. */
  lemma FirstRowOfVisit(df: Frame, col: string, v: Value)
    requires col in df.columns && "visit_occurrence_id" in df.columns
    requires forall x :: x in df.rows ==> Get(x, col).NullV? || Get(x, col).DateV?
    requires v in VisitKeys(SortByDate(df.rows, col))
    ensures var row := FirstRow(SortByDate(df.rows, col), df.columns, v);
      Get(row, "visit_occurrence_id") == v && IsEarliest(VisitRows(df.rows, v), col, Get(row, col))
  {
    var sorted := SortByDate(df.rows, col);
    var g := VisitRows(sorted, v);
    SameRows(df.rows, sorted);
    FirstRowKeepsVisit(sorted, v);
    FirstDateIsEarliest(sorted, col, (x: Row) => Get(x, "visit_occurrence_id") == v);
    SameMembersEarliest(g, VisitRows(df.rows, v), col, FirstNonNull(g, col));
  }

  /** The first non-missing visit identifier of a visit's rows is that visit. */
  lemma FirstRowKeepsVisit(sorted: seq<Row>, v: Value)
    requires v != NullV && exists x :: x in sorted && Get(x, "visit_occurrence_id") == v
    ensures FirstNonNull(VisitRows(sorted, v), "visit_occurrence_id") == v
  {
    var w :| w in sorted && Get(w, "visit_occurrence_id") == v;
    assert w in VisitRows(sorted, v);
  }

  /** Two orderings of the same rows hold the same rows. */
  lemma SameRows(s: seq<Row>, t: seq<Row>)
    requires multiset(s) == multiset(t)
    ensures forall x :: x in s <==> x in t
  {
    forall x
      ensures x in s <==> x in t
    {
      assert x in s <==> x in multiset(s);
      assert x in t <==> x in multiset(t);
    }
  }

  /**
   * The result has exactly one row per visit of the input: the visit
   * identifiers are distinct and are the input's non-missing ones; each
   * row's date is the earliest date among the visit's input rows.
   */
  lemma FirstEventPerVisit(df: Frame, col: string)
    requires FilterFirstEvent(df, col).Ok?
    ensures var out := FilterFirstEvent(df, col).value.rows;
      && NoDup(VisitColumn(out))
      && (forall v :: v in VisitColumn(out) <==>
            v != NullV && exists x :: x in df.rows && Get(x, "visit_occurrence_id") == v)
      && forall i :: 0 <= i < |out| ==> IsEarliest(VisitRows(df.rows, VisitColumn(out)[i]), col, Get(out[i], col))
  {
    var sorted := SortByDate(df.rows, col);
    var ks := VisitKeys(sorted);
    VisitKeysPermutation(df.rows, sorted);
    var out := FilterFirstEvent(df, col).value.rows;
    assert out == FirstRows(sorted, df.columns, ks);
    forall i | 0 <= i < |out|
      ensures VisitColumn(out)[i] == ks[i]
      ensures IsEarliest(VisitRows(df.rows, ks[i]), col, Get(out[i], col))
    {
      FirstRowOfVisit(df, col, ks[i]);
    }
    assert VisitColumn(out) == ks;
  }

  /** Being the earliest date depends only on which rows a group holds. */
  lemma SameMembersEarliest(g: seq<Row>, h: seq<Row>, col: string, v: Value)
    requires forall x :: x in g <==> x in h
    requires IsEarliest(g, col, v)
    ensures IsEarliest(h, col, v)
  {
  }
}
