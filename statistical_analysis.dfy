/**
 * The statistical analysis of one event: the naive key-variable table,
 * computed once and repeated for every cell of the sensitivity grid
 * (observation start × maximal error × minimal `c_0`), and the
 * complete-source-only table, recomputed for every cell on the events of
 * the stable care sites; plus the per-cell care-site counts of both.
 */
module StatisticalAnalysis {
  import opened Tables
  import opened Dates
  import opened Records
  import opened CompleteSource
  import opened KeyVariables

  datatype Analysis = NaiveAnalysis | CompleteSourceOnlyAnalysis

  /** One cell of the sensitivity grid; a threshold is null when its quantile is undefined. */
  datatype GridCell = GridCell(start: Date, maxError: Option<real>, minC0: Option<real>)

  /** A key-variable row tagged with its grid cell and its analysis. */
  datatype OutcomeRow = OutcomeRow(row: KeyRow, cell: GridCell, analysis: Analysis)

  /** A row of the care-site count table. */
  datatype CsCountRow = CsCountRow(careSiteLevel: string, totalCareSite: int)

  /** A care-site count row of one cell, with the naive or complete-source-only count. */
  datatype TaggedCount = TaggedCount(totalCareSite: int, cell: GridCell, count: nat)

  /** A row of the joined count summary. */
  datatype CountSummaryRow = CountSummaryRow(totalCareSite: int, cell: GridCell, csoCsCount: nat, naiveCsCount: nat)

  /** The arguments of the analysis; the event table's date column is the one the key function reads. */
  datatype AnalysisInput = AnalysisInput(
    cohort: seq<CohortRow>,
    csCount: seq<CsCountRow>,
    events: EventTable,
    est: Estimates,
    keyFunction: KeyFunction,
    level: string,
    dates: seq<Date>,
    endDate: Option<Date>,
    vars: seq<string>,
    thresholds: seq<nat>,
    filters: StrataFilter,
    quantile: (seq<real>, real) -> real,
    weekStart: Date -> Date)

  // ---------------------------------------------------------------------
  // The grid, in loop order

  function Line(d: Date, e: Option<real>, cs: seq<Option<real>>): (cells: seq<GridCell>)
    ensures |cells| == |cs|
    ensures forall k :: 0 <= k < |cs| ==> cells[k] == GridCell(d, e, cs[k])
    decreases |cs|
  {
    if cs == [] then [] else Line(d, e, cs[..|cs| - 1]) + [GridCell(d, e, cs[|cs| - 1])]
  }

  function Block(d: Date, es: seq<Option<real>>, cs: seq<Option<real>>): seq<GridCell>
    decreases |es|
  {
    if es == [] then [] else Block(d, es[..|es| - 1], cs) + Line(d, es[|es| - 1], cs)
  }

  /** The cells visited by the three nested loops, start date outermost. */
  function Grid(ds: seq<Date>, es: seq<Option<real>>, cs: seq<Option<real>>): seq<GridCell>
    decreases |ds|
  {
    if ds == [] then [] else Grid(ds[..|ds| - 1], es, cs) + Block(ds[|ds| - 1], es, cs)
  }

  lemma {:induction false} BlockSize(d: Date, es: seq<Option<real>>, cs: seq<Option<real>>)
    ensures |Block(d, es, cs)| == |es| * |cs|
    decreases |es|
  {
    if es != [] {
      BlockSize(d, es[..|es| - 1], cs);
      assert |es| * |cs| == (|es| - 1) * |cs| + |cs|;
    }
  }

  lemma {:induction false} GridCount(ds: seq<Date>, es: seq<Option<real>>, cs: seq<Option<real>>)
    ensures |Grid(ds, es, cs)| == |ds| * (|es| * |cs|)
    decreases |ds|
  {
    if ds != [] {
      GridCount(ds[..|ds| - 1], es, cs);
      BlockSize(ds[|ds| - 1], es, cs);
      assert |ds| * (|es| * |cs|) == (|ds| - 1) * (|es| * |cs|) + |es| * |cs|;
    }
  }

  lemma {:induction false} BlockMember(d: Date, es: seq<Option<real>>, cs: seq<Option<real>>, c: GridCell)
    ensures c in Block(d, es, cs) <==> c.start == d && c.maxError in es && c.minC0 in cs
    decreases |es|
  {
    if es != [] {
      var front := es[..|es| - 1];
      BlockMember(d, front, cs, c);
      assert es == front + [es[|es| - 1]];
      if c.start == d && c.maxError == es[|es| - 1] && c.minC0 in cs {
        var k :| 0 <= k < |cs| && cs[k] == c.minC0;
        assert Line(d, es[|es| - 1], cs)[k] == c;
      }
    }
  }

  /** The grid holds exactly the combinations of a start date, a maximal error and a minimal `c_0`. */
  lemma {:induction false} GridMember(ds: seq<Date>, es: seq<Option<real>>, cs: seq<Option<real>>, c: GridCell)
    ensures c in Grid(ds, es, cs) <==> c.start in ds && c.maxError in es && c.minC0 in cs
    decreases |ds|
  {
    if ds != [] {
      var front := ds[..|ds| - 1];
      GridMember(front, es, cs, c);
      BlockMember(ds[|ds| - 1], es, cs, c);
      assert ds == front + [ds[|ds| - 1]];
    }
  }

  // ---------------------------------------------------------------------
  // Per-cell fragments

  /** The rows of a key table from the observation start on (`sub_cohort >= start`). */
  function FromStart(rows: seq<KeyRow>, start: Date): (r: seq<KeyRow>)
    ensures forall x :: x in r <==> x in rows && Le(start, x.key.subCohort)
  {
    Filter(rows, (x: KeyRow) => Le(start, x.key.subCohort))
  }

  function Tag(rows: seq<KeyRow>, c: GridCell, a: Analysis): (r: seq<OutcomeRow>)
    ensures |r| == |rows|
    ensures forall i :: 0 <= i < |rows| ==> r[i] == OutcomeRow(rows[i], c, a)
  {
    seq(|rows|, i requires 0 <= i < |rows| => OutcomeRow(rows[i], c, a))
  }

  /** The naive table restricted to a cell and tagged with it. */
  function NaiveFragment(naive: seq<KeyRow>): GridCell -> seq<OutcomeRow>
  {
    (c: GridCell) => Tag(FromStart(naive, c.start), c, NaiveAnalysis)
  }

  /** The care-site count rows of the level, with a cell and a count. */
  function CountFragment(csCount: seq<CsCountRow>, level: string, c: GridCell, n: nat): seq<TaggedCount>
  {
    var atLevel := Filter(csCount, (x: CsCountRow) => x.careSiteLevel == level);
    seq(|atLevel|, i requires 0 <= i < |atLevel| => TaggedCount(atLevel[i].totalCareSite, c, n))
  }

  function NaiveCountFragment(csCount: seq<CsCountRow>, level: string, n: nat): GridCell -> seq<TaggedCount>
  {
    (c: GridCell) => CountFragment(csCount, level, c, n)
  }

  /** The stabiliser's result for a cell, with the returned error unpacked into a failure. */
  function Stabilise(inp: AnalysisInput, c: GridCell): (r: Result<(nat, seq<EventRow>)>)
    ensures r.Err? <==> FilterEstimates(inp.est, inp.level, inp.filters, true).Err? || !ValidLevel(inp.level)
  {
    match FilterUnstableCsFromEventDf(inp.events, inp.est, c.start, inp.level, c.maxError, c.minC0, inp.filters, inp.endDate)
    case Err(e) => Err(if e == InvalidCareSiteLevel then UnpackError else e)
    case Ok(v) => Ok(v)
  }

  /** The key table recomputed on the stable events of a cell. */
  function CsoKeyTable(inp: AnalysisInput, c: GridCell): Result<seq<KeyRow>>
  {
    match Stabilise(inp, c)
    case Err(e) => Err(e)
    case Ok(v) => ComputeKey(inp.keyFunction, v.1, inp.cohort, inp.vars, inp.thresholds, inp.weekStart)
  }

  /** The complete-source-only rows and count rows of a cell. */
  function CsoCell(inp: AnalysisInput, c: GridCell): Result<(seq<OutcomeRow>, seq<TaggedCount>)>
  {
    match Stabilise(inp, c)
    case Err(e) => Err(e)
    case Ok(v) =>
      match ComputeKey(inp.keyFunction, v.1, inp.cohort, inp.vars, inp.thresholds, inp.weekStart)
      case Err(e) => Err(e)
      case Ok(t) => Ok((Tag(FromStart(t, c.start), c, CompleteSourceOnlyAnalysis),
                        CountFragment(inp.csCount, inp.level, c, v.0)))
  }

  /** The complete-source-only loop: the fragments of all cells, or the first failure. */
  function CsoAll(inp: AnalysisInput, cells: seq<GridCell>): Result<(seq<OutcomeRow>, seq<TaggedCount>)>
    decreases |cells|
  {
    if cells == [] then Ok(([], []))
    else
      match CsoAll(inp, cells[..|cells| - 1])
      case Err(e) => Err(e)
      case Ok(acc) =>
        match CsoCell(inp, cells[|cells| - 1])
        case Err(e) => Err(e)
        case Ok(frag) => Ok((acc.0 + frag.0, acc.1 + frag.1))
  }

  /** Two count rows join when total, start and both thresholds agree (null thresholds never do). */
  predicate CountsJoin(a: TaggedCount, b: TaggedCount)
  {
    && a.totalCareSite == b.totalCareSite
    && a.cell.start == b.cell.start
    && a.cell.maxError.Some? && b.cell.maxError == a.cell.maxError
    && a.cell.minC0.Some? && b.cell.minC0 == a.cell.minC0
  }

  function JoinOne(naive: seq<TaggedCount>): TaggedCount -> seq<CountSummaryRow>
  {
    (a: TaggedCount) =>
      var ms := Filter(naive, (b: TaggedCount) => CountsJoin(a, b));
      seq(|ms|, i requires 0 <= i < |ms| => CountSummaryRow(a.totalCareSite, a.cell, a.count, ms[i].count))
  }

  /** The inner join of the complete-source-only counts with the naive counts. */
  function CountJoin(cso: seq<TaggedCount>, naive: seq<TaggedCount>): seq<CountSummaryRow>
  {
    FlatMap(cso, JoinOne(naive))
  }

  /**
   * The analysis: the count summary and the outcome table (naive rows of
   * every cell, then complete-source-only rows of every cell), or the
   * first failure in the order the source meets them.
   */
  function Analyse(inp: AnalysisInput): Result<(seq<CountSummaryRow>, seq<OutcomeRow>)>
  {
    match EstimateParameters(inp.est, inp.level, inp.filters, inp.quantile)
    case Err(e) => Err(e)
    case Ok(p) =>
      match ComputeKey(inp.keyFunction, inp.events.rows, inp.cohort, inp.vars, inp.thresholds, inp.weekStart)
      case Err(e) => Err(e)
      case Ok(naive) =>
        if inp.dates == [] then Err(EmptyConcat)
        else
          var cells := Grid(inp.dates, p.maxErrors, p.minC0s);
          match CsoAll(inp, cells)
          case Err(e) => Err(e)
          case Ok(cso) =>
            var naiveCounts := FlatMap(cells, NaiveCountFragment(inp.csCount, inp.level, p.activeCsCount));
            Ok((CountJoin(cso.1, naiveCounts), FlatMap(cells, NaiveFragment(naive)) + cso.0))
  }

  // ---------------------------------------------------------------------
  // The loops

  /** Appending the next cell to the part of the grid visited so far. */
  lemma LineStep(d: Date, e: Option<real>, cs: seq<Option<real>>, k: int)
    requires 0 <= k < |cs|
    ensures Line(d, e, cs[..k + 1]) == Line(d, e, cs[..k]) + [GridCell(d, e, cs[k])]
  {
    assert cs[..k + 1][..k] == cs[..k];
  }

  lemma BlockStep(d: Date, es: seq<Option<real>>, cs: seq<Option<real>>, j: int)
    requires 0 <= j < |es|
    ensures Block(d, es[..j + 1], cs) == Block(d, es[..j], cs) + Line(d, es[j], cs)
  {
    assert es[..j + 1][..j] == es[..j];
  }

  lemma GridStep(ds: seq<Date>, es: seq<Option<real>>, cs: seq<Option<real>>, i: int)
    requires 0 <= i < |ds|
    ensures Grid(ds[..i + 1], es, cs) == Grid(ds[..i], es, cs) + Block(ds[i], es, cs)
  {
    assert ds[..i + 1][..i] == ds[..i];
  }

  lemma AfterLineStep(done: seq<GridCell>, d: Date, e: Option<real>, cs: seq<Option<real>>, k: int)
    requires 0 <= k < |cs|
    ensures done + Line(d, e, cs[..k + 1]) == (done + Line(d, e, cs[..k])) + [GridCell(d, e, cs[k])]
  {
    LineStep(d, e, cs, k);
  }

  lemma AfterBlockStep(done: seq<GridCell>, d: Date, es: seq<Option<real>>, cs: seq<Option<real>>, j: int)
    requires 0 <= j < |es|
    ensures done + Block(d, es[..j + 1], cs) == (done + Block(d, es[..j], cs)) + Line(d, es[j], cs)
  {
    BlockStep(d, es, cs, j);
  }

  /**
   * The innermost naive loop (over the minimal `c_0`), continuing the
   * fragments of the cells `done` already visited.
   */
  method NaiveLine(naive: seq<KeyRow>, csCount: seq<CsCountRow>, level: string, n: nat,
                   d: Date, e: Option<real>, cs: seq<Option<real>>,
                   ghost done: seq<GridCell>, rows0: seq<OutcomeRow>, counts0: seq<TaggedCount>)
    returns (rows: seq<OutcomeRow>, counts: seq<TaggedCount>)
    requires rows0 == FlatMap(done, NaiveFragment(naive))
    requires counts0 == FlatMap(done, NaiveCountFragment(csCount, level, n))
    ensures rows == FlatMap(done + Line(d, e, cs), NaiveFragment(naive))
    ensures counts == FlatMap(done + Line(d, e, cs), NaiveCountFragment(csCount, level, n))
  {
    var f := NaiveFragment(naive);
    var g := NaiveCountFragment(csCount, level, n);
    rows, counts := rows0, counts0;
    assert done + Line(d, e, cs[..0]) == done;
    for k := 0 to |cs|
      invariant rows == FlatMap(done + Line(d, e, cs[..k]), f)
      invariant counts == FlatMap(done + Line(d, e, cs[..k]), g)
    {
      var c := GridCell(d, e, cs[k]);
      AfterLineStep(done, d, e, cs, k);
      FlatMapSnoc(done + Line(d, e, cs[..k]), c, f);
      FlatMapSnoc(done + Line(d, e, cs[..k]), c, g);
      rows := rows + f(c);
      counts := counts + g(c);
    }
    assert cs[..|cs|] == cs;
  }

  /** The middle naive loop (over the maximal errors). */
  method NaiveBlock(naive: seq<KeyRow>, csCount: seq<CsCountRow>, level: string, n: nat,
                    d: Date, es: seq<Option<real>>, cs: seq<Option<real>>,
                    ghost done: seq<GridCell>, rows0: seq<OutcomeRow>, counts0: seq<TaggedCount>)
    returns (rows: seq<OutcomeRow>, counts: seq<TaggedCount>)
    requires rows0 == FlatMap(done, NaiveFragment(naive))
    requires counts0 == FlatMap(done, NaiveCountFragment(csCount, level, n))
    ensures rows == FlatMap(done + Block(d, es, cs), NaiveFragment(naive))
    ensures counts == FlatMap(done + Block(d, es, cs), NaiveCountFragment(csCount, level, n))
  {
    rows, counts := rows0, counts0;
    assert done + Block(d, es[..0], cs) == done;
    for j := 0 to |es|
      invariant rows == FlatMap(done + Block(d, es[..j], cs), NaiveFragment(naive))
      invariant counts == FlatMap(done + Block(d, es[..j], cs), NaiveCountFragment(csCount, level, n))
    {
      rows, counts := NaiveLine(naive, csCount, level, n, d, es[j], cs, done + Block(d, es[..j], cs), rows, counts);
      AfterBlockStep(done, d, es, cs, j);
    }
    assert es[..|es|] == es;
  }

  /**
   * The naive loops of the analysis: for every cell in grid order, the
   * naive table from the cell's start on and the count rows of the level,
   * tagged with the cell.
   */
  method NaiveLoop(naive: seq<KeyRow>, csCount: seq<CsCountRow>, level: string, n: nat,
                   ds: seq<Date>, es: seq<Option<real>>, cs: seq<Option<real>>)
    returns (rows: seq<OutcomeRow>, counts: seq<TaggedCount>)
    ensures rows == FlatMap(Grid(ds, es, cs), NaiveFragment(naive))
    ensures counts == FlatMap(Grid(ds, es, cs), NaiveCountFragment(csCount, level, n))
  {
    rows, counts := [], [];
    for i := 0 to |ds|
      invariant rows == FlatMap(Grid(ds[..i], es, cs), NaiveFragment(naive))
      invariant counts == FlatMap(Grid(ds[..i], es, cs), NaiveCountFragment(csCount, level, n))
    {
      rows, counts := NaiveBlock(naive, csCount, level, n, ds[i], es, cs, Grid(ds[..i], es, cs), rows, counts);
      GridStep(ds, es, cs, i);
    }
    assert ds[..|ds|] == ds;
  }

  /** Whether the stabiliser fails does not depend on the cell, nor does its failure. */
  lemma StabiliseUniform(inp: AnalysisInput, c: GridCell, c': GridCell)
    ensures Stabilise(inp, c).Err? == Stabilise(inp, c').Err?
    ensures Stabilise(inp, c).Err? ==> Stabilise(inp, c).error == Stabilise(inp, c').error
  {
  }

  /** Whether a key function fails does not depend on the events, nor does its failure. */
  lemma ComputeKeyUniform(kf: KeyFunction, events: seq<EventRow>, events': seq<EventRow>, cohort: seq<CohortRow>,
                          vars: seq<string>, thresholds: seq<nat>, weekStart: Date -> Date)
    ensures ComputeKey(kf, events, cohort, vars, thresholds, weekStart).Err?
         == ComputeKey(kf, events', cohort, vars, thresholds, weekStart).Err?
    ensures ComputeKey(kf, events, cohort, vars, thresholds, weekStart).Err? ==>
      ComputeKey(kf, events, cohort, vars, thresholds, weekStart).error
      == ComputeKey(kf, events', cohort, vars, thresholds, weekStart).error
  {
  }

  /** Whether a cell fails does not depend on the cell, nor does its failure. */
  lemma CsoCellUniform(inp: AnalysisInput, c: GridCell, c': GridCell)
    ensures CsoCell(inp, c).Err? == CsoCell(inp, c').Err?
    ensures CsoCell(inp, c).Err? ==> CsoCell(inp, c).error == CsoCell(inp, c').error
  {
    StabiliseUniform(inp, c, c');
    if Stabilise(inp, c).Ok? {
      ComputeKeyUniform(inp.keyFunction, Stabilise(inp, c).value.1, Stabilise(inp, c').value.1,
                        inp.cohort, inp.vars, inp.thresholds, inp.weekStart);
    }
  }

  /** The complete-source-only loop over some cells fails exactly when any one cell does, with its failure. */
  lemma {:induction false} CsoAllFailsWith(inp: AnalysisInput, cells: seq<GridCell>, c: GridCell)
    requires cells != []
    ensures CsoAll(inp, cells).Err? <==> CsoCell(inp, c).Err?
    ensures CsoCell(inp, c).Err? ==> CsoAll(inp, cells) == Err(CsoCell(inp, c).error)
    decreases |cells|
  {
    CsoCellUniform(inp, c, cells[|cells| - 1]);
    if |cells| > 1 {
      CsoAllFailsWith(inp, cells[..|cells| - 1], c);
    }
  }

  /** A successful loop over some cells is the loop over all but the last, then the last cell. */
  lemma CsoAllLast(inp: AnalysisInput, cells: seq<GridCell>)
    requires cells != [] && CsoAll(inp, cells).Ok?
    ensures CsoAll(inp, cells[..|cells| - 1]).Ok? && CsoCell(inp, cells[|cells| - 1]).Ok?
    ensures var acc, frag := CsoAll(inp, cells[..|cells| - 1]).value, CsoCell(inp, cells[|cells| - 1]).value;
      CsoAll(inp, cells).value == (acc.0 + frag.0, acc.1 + frag.1)
  {
  }

  /** A successful cell: its rows are its key table from its start, its counts are its stable count. */
  lemma CsoCellOk(inp: AnalysisInput, c: GridCell)
    requires CsoCell(inp, c).Ok?
    ensures Stabilise(inp, c).Ok? && CsoKeyTable(inp, c).Ok?
    ensures CsoCell(inp, c).value.0 == Tag(FromStart(CsoKeyTable(inp, c).value, c.start), c, CompleteSourceOnlyAnalysis)
    ensures CsoCell(inp, c).value.1 == CountFragment(inp.csCount, inp.level, c, Stabilise(inp, c).value.0)
  {
  }

  /** Every count row of a cell carries the cell and the given count. */
  lemma CountFragmentMember(csCount: seq<CsCountRow>, level: string, c: GridCell, n: nat, a: TaggedCount)
    requires a in CountFragment(csCount, level, c, n)
    ensures a.cell == c && a.count == n
  {
  }

  /** The stable count a successful stabiliser reports. */
  lemma StabiliseCount(inp: AnalysisInput, c: GridCell)
    requires Stabilise(inp, c).Ok?
    ensures Stabilise(inp, c).value.0
         == StableCount(CellLabels(inp.est, inp.level, inp.filters, c.start, c.maxError, c.minC0, inp.endDate))
  {
  }

  lemma CsoAllSnoc(inp: AnalysisInput, cells: seq<GridCell>, c: GridCell, acc: (seq<OutcomeRow>, seq<TaggedCount>))
    requires CsoAll(inp, cells) == Ok(acc) && CsoCell(inp, c).Ok?
    ensures CsoAll(inp, cells + [c]) == Ok((acc.0 + CsoCell(inp, c).value.0, acc.1 + CsoCell(inp, c).value.1))
  {
    var all := cells + [c];
    assert all[..|all| - 1] == cells && all[|all| - 1] == c;
  }

  /** A failure of the loop over some cells is the failure of the loop over any longer run. */
  lemma CsoAllFailureSpreads(inp: AnalysisInput, cells: seq<GridCell>, more: seq<GridCell>)
    requires CsoAll(inp, cells).Err?
    ensures CsoAll(inp, cells + more) == CsoAll(inp, cells)
  {
    assert cells != [];
    var c := cells[0];
    CsoAllFailsWith(inp, cells, c);
    CsoAllFailsWith(inp, cells + more, c);
  }

  /** A failing cell of a line fails the whole line. */
  lemma CsoLineFails(inp: AnalysisInput, done: seq<GridCell>, d: Date, e: Option<real>, cs: seq<Option<real>>, k: int)
    requires 0 <= k < |cs| && CsoCell(inp, GridCell(d, e, cs[k])).Err?
    ensures CsoAll(inp, done + Line(d, e, cs)) == Err(CsoCell(inp, GridCell(d, e, cs[k])).error)
  {
    var all := done + Line(d, e, cs);
    assert all != [] by { assert |all| >= |cs|; }
    CsoAllFailsWith(inp, all, GridCell(d, e, cs[k]));
  }

  /** A successful cell of a line extends the loop by its fragment. */
  lemma CsoLineGrows(inp: AnalysisInput, done: seq<GridCell>, d: Date, e: Option<real>, cs: seq<Option<real>>, k: int,
                     acc: (seq<OutcomeRow>, seq<TaggedCount>))
    requires 0 <= k < |cs| && CsoAll(inp, done + Line(d, e, cs[..k])) == Ok(acc)
    requires CsoCell(inp, GridCell(d, e, cs[k])).Ok?
    ensures CsoAll(inp, done + Line(d, e, cs[..k + 1]))
         == Ok((acc.0 + CsoCell(inp, GridCell(d, e, cs[k])).value.0, acc.1 + CsoCell(inp, GridCell(d, e, cs[k])).value.1))
  {
    AfterLineStep(done, d, e, cs, k);
    CsoAllSnoc(inp, done + Line(d, e, cs[..k]), GridCell(d, e, cs[k]), acc);
  }

  /** The innermost complete-source-only loop, continuing after the cells `done`. */
  method CsoLine(inp: AnalysisInput, d: Date, e: Option<real>, cs: seq<Option<real>>,
                 ghost done: seq<GridCell>, rows0: seq<OutcomeRow>, counts0: seq<TaggedCount>)
    returns (r: Result<(seq<OutcomeRow>, seq<TaggedCount>)>)
    requires CsoAll(inp, done) == Ok((rows0, counts0))
    ensures r == CsoAll(inp, done + Line(d, e, cs))
  {
    var rows, counts := rows0, counts0;
    assert done + Line(d, e, cs[..0]) == done;
    for k := 0 to |cs|
      invariant CsoAll(inp, done + Line(d, e, cs[..k])) == Ok((rows, counts))
    {
      var frag := CsoCell(inp, GridCell(d, e, cs[k]));
      if frag.Err? {
        CsoLineFails(inp, done, d, e, cs, k);
        return Err(frag.error);
      }
      CsoLineGrows(inp, done, d, e, cs, k, (rows, counts));
      rows := rows + frag.value.0;
      counts := counts + frag.value.1;
    }
    assert cs[..|cs|] == cs;
    return Ok((rows, counts));
  }

  /** The middle complete-source-only loop. */
  method CsoBlock(inp: AnalysisInput, d: Date, es: seq<Option<real>>, cs: seq<Option<real>>,
                  ghost done: seq<GridCell>, rows0: seq<OutcomeRow>, counts0: seq<TaggedCount>)
    returns (r: Result<(seq<OutcomeRow>, seq<TaggedCount>)>)
    requires CsoAll(inp, done) == Ok((rows0, counts0))
    ensures r == CsoAll(inp, done + Block(d, es, cs))
  {
    r := Ok((rows0, counts0));
    assert done + Block(d, es[..0], cs) == done;
    for j := 0 to |es|
      invariant r == CsoAll(inp, done + Block(d, es[..j], cs))
      invariant r.Ok?
    {
      r := CsoLine(inp, d, es[j], cs, done + Block(d, es[..j], cs), r.value.0, r.value.1);
      AfterBlockStep(done, d, es, cs, j);
      if r.Err? {
        CsoBlockStops(inp, done, d, es, cs, j);
        return;
      }
    }
    assert es[..|es|] == es;
  }

  lemma AppendAssoc<T>(a: seq<T>, b: seq<T>, c: seq<T>)
    ensures (a + b) + c == a + (b + c)
  {
  }

  lemma BlockUnfold(d: Date, es: seq<Option<real>>, cs: seq<Option<real>>)
    requires es != []
    ensures Block(d, es, cs) == Block(d, es[..|es| - 1], cs) + Line(d, es[|es| - 1], cs)
  {
  }

  lemma GridUnfold(ds: seq<Date>, es: seq<Option<real>>, cs: seq<Option<real>>)
    requires ds != []
    ensures Grid(ds, es, cs) == Grid(ds[..|ds| - 1], es, cs) + Block(ds[|ds| - 1], es, cs)
  {
  }

  lemma {:induction false} BlockAppend(d: Date, es: seq<Option<real>>, fs: seq<Option<real>>, cs: seq<Option<real>>)
    ensures Block(d, es + fs, cs) == Block(d, es, cs) + Block(d, fs, cs)
    decreases |fs|
  {
    if fs == [] {
      assert es + fs == es;
    } else {
      var all, front, last := es + fs, fs[..|fs| - 1], fs[|fs| - 1];
      assert all[..|all| - 1] == es + front && all[|all| - 1] == last;
      BlockUnfold(d, all, cs);
      BlockUnfold(d, fs, cs);
      BlockAppend(d, es, front, cs);
      AppendAssoc(Block(d, es, cs), Block(d, front, cs), Line(d, last, cs));
    }
  }

  lemma {:induction false} GridAppend(ds: seq<Date>, ds': seq<Date>, es: seq<Option<real>>, cs: seq<Option<real>>)
    ensures Grid(ds + ds', es, cs) == Grid(ds, es, cs) + Grid(ds', es, cs)
    decreases |ds'|
  {
    if ds' == [] {
      assert ds + ds' == ds;
    } else {
      var all, front, last := ds + ds', ds'[..|ds'| - 1], ds'[|ds'| - 1];
      assert all[..|all| - 1] == ds + front && all[|all| - 1] == last;
      GridUnfold(all, es, cs);
      GridUnfold(ds', es, cs);
      GridAppend(ds, front, es, cs);
      AppendAssoc(Grid(ds, es, cs), Grid(front, es, cs), Block(last, es, cs));
    }
  }

  lemma BlockSplit(done: seq<GridCell>, d: Date, es: seq<Option<real>>, cs: seq<Option<real>>, j: int)
    requires 0 <= j < |es|
    ensures done + Block(d, es, cs) == (done + Block(d, es[..j + 1], cs)) + Block(d, es[j + 1..], cs)
  {
    assert es == es[..j + 1] + es[j + 1..];
    BlockAppend(d, es[..j + 1], es[j + 1..], cs);
  }

  /** A failure in the first `j + 1` lines of a block is the failure of the whole block. */
  lemma CsoBlockStops(inp: AnalysisInput, done: seq<GridCell>, d: Date, es: seq<Option<real>>, cs: seq<Option<real>>, j: int)
    requires 0 <= j < |es|
    requires CsoAll(inp, done + Block(d, es[..j + 1], cs)).Err?
    ensures CsoAll(inp, done + Block(d, es, cs)) == CsoAll(inp, done + Block(d, es[..j + 1], cs))
  {
    BlockSplit(done, d, es, cs, j);
    CsoAllFailureSpreads(inp, done + Block(d, es[..j + 1], cs), Block(d, es[j + 1..], cs));
  }

  /** A failure in the first `i + 1` start dates is the failure of the whole grid. */
  lemma CsoGridStops(inp: AnalysisInput, ds: seq<Date>, es: seq<Option<real>>, cs: seq<Option<real>>, i: int)
    requires 0 <= i < |ds|
    requires CsoAll(inp, Grid(ds[..i + 1], es, cs)).Err?
    ensures CsoAll(inp, Grid(ds, es, cs)) == CsoAll(inp, Grid(ds[..i + 1], es, cs))
  {
    assert ds == ds[..i + 1] + ds[i + 1..];
    GridAppend(ds[..i + 1], ds[i + 1..], es, cs);
    CsoAllFailureSpreads(inp, Grid(ds[..i + 1], es, cs), Grid(ds[i + 1..], es, cs));
  }

  /** The complete-source-only loops, stopping at the first failure. */
  method CsoLoop(inp: AnalysisInput, es: seq<Option<real>>, cs: seq<Option<real>>)
    returns (r: Result<(seq<OutcomeRow>, seq<TaggedCount>)>)
    ensures r == CsoAll(inp, Grid(inp.dates, es, cs))
  {
    var ds := inp.dates;
    r := Ok(([], []));
    for i := 0 to |ds|
      invariant r == CsoAll(inp, Grid(ds[..i], es, cs))
      invariant r.Ok?
    {
      r := CsoBlock(inp, ds[i], es, cs, Grid(ds[..i], es, cs), r.value.0, r.value.1);
      GridStep(ds, es, cs, i);
      if r.Err? {
        CsoGridStops(inp, ds, es, cs, i);
        return;
      }
    }
    assert ds[..|ds|] == ds;
  }

  /** `statistical_analysis`: the count summary and the outcome table. */
  method RunStatisticalAnalysis(inp: AnalysisInput) returns (r: Result<(seq<CountSummaryRow>, seq<OutcomeRow>)>)
    ensures r == Analyse(inp)
  {
    var p := EstimateParameters(inp.est, inp.level, inp.filters, inp.quantile);
    if p.Err? {
      return Err(p.error);
    }
    var naive := ComputeKey(inp.keyFunction, inp.events.rows, inp.cohort, inp.vars, inp.thresholds, inp.weekStart);
    if naive.Err? {
      return Err(naive.error);
    }
    var naiveRows, naiveCounts := NaiveLoop(naive.value, inp.csCount, inp.level, p.value.activeCsCount,
                                            inp.dates, p.value.maxErrors, p.value.minC0s);
    if inp.dates == [] {
      return Err(EmptyConcat);
    }
    var cso := CsoLoop(inp, p.value.maxErrors, p.value.minC0s);
    if cso.Err? {
      return Err(cso.error);
    }
    return Ok((CountJoin(cso.value.1, naiveCounts), naiveRows + cso.value.0));
  }

  // ---------------------------------------------------------------------
  // Properties of the analysis

  /** The parts of a successful analysis. */
  lemma AnalyseOk(inp: AnalysisInput)
    requires Analyse(inp).Ok?
    ensures EstimateParameters(inp.est, inp.level, inp.filters, inp.quantile).Ok?
    ensures ComputeKey(inp.keyFunction, inp.events.rows, inp.cohort, inp.vars, inp.thresholds, inp.weekStart).Ok?
    ensures inp.dates != []
    ensures var p := EstimateParameters(inp.est, inp.level, inp.filters, inp.quantile).value;
      var naive := ComputeKey(inp.keyFunction, inp.events.rows, inp.cohort, inp.vars, inp.thresholds, inp.weekStart).value;
      var cells := Grid(inp.dates, p.maxErrors, p.minC0s);
      && CsoAll(inp, cells).Ok?
      && Analyse(inp).value.0 == CountJoin(CsoAll(inp, cells).value.1,
                                           FlatMap(cells, NaiveCountFragment(inp.csCount, inp.level, p.activeCsCount)))
      && Analyse(inp).value.1 == FlatMap(cells, NaiveFragment(naive)) + CsoAll(inp, cells).value.0
  {
  }

  /** With valid parameters, a cell fails only for an unknown care-site level, and then with an unpacking error. */
  lemma CsoCellFails(inp: AnalysisInput, c: GridCell)
    requires FilterEstimates(inp.est, inp.level, inp.filters, false).Ok?
    requires HasColumns(inp.cohort, inp.vars) && !(inp.keyFunction == DurationAfterEvent && inp.thresholds == [])
    ensures CsoCell(inp, c).Err? <==> !ValidLevel(inp.level)
    ensures CsoCell(inp, c).Err? ==> CsoCell(inp, c).error == UnpackError
  {
    RenamingKeepsRows(inp.est, inp.level, inp.filters);
  }

  lemma {:induction false} CsoAllFails(inp: AnalysisInput, cells: seq<GridCell>)
    requires FilterEstimates(inp.est, inp.level, inp.filters, false).Ok?
    requires HasColumns(inp.cohort, inp.vars) && !(inp.keyFunction == DurationAfterEvent && inp.thresholds == [])
    requires cells != []
    ensures CsoAll(inp, cells).Err? <==> !ValidLevel(inp.level)
    ensures CsoAll(inp, cells).Err? ==> CsoAll(inp, cells).error == UnpackError
    decreases |cells|
  {
    CsoCellFails(inp, cells[|cells| - 1]);
    if |cells| > 1 {
      CsoAllFails(inp, cells[..|cells| - 1]);
    }
  }

  /**
   * The analysis fails exactly when a filtered stratification column is
   * missing, the key function cannot run, no start date is given, or the
   * care-site level is unknown — each with its own failure.
   */
  lemma AnalyseFailures(inp: AnalysisInput)
    ensures var r := Analyse(inp);
      var badFilter := exists s :: Active(inp.filters, s) && s !in inp.est.columns;
      var badKey := !HasColumns(inp.cohort, inp.vars) || (inp.keyFunction == DurationAfterEvent && inp.thresholds == []);
      && (r.Err? <==> badFilter || badKey || inp.dates == [] || !ValidLevel(inp.level))
      && (badFilter ==> r == Err(ColumnNotFound))
      && (!badFilter && badKey ==> r.Err? && r.error in {ColumnNotFound, EmptyThresholds})
      && (!badFilter && !badKey && inp.dates == [] ==> r == Err(EmptyConcat))
      && (!badFilter && !badKey && inp.dates != [] && !ValidLevel(inp.level) ==> r == Err(UnpackError))
  {
    var p := EstimateParameters(inp.est, inp.level, inp.filters, inp.quantile);
    if p.Ok? && HasColumns(inp.cohort, inp.vars) && !(inp.keyFunction == DurationAfterEvent && inp.thresholds == [])
       && inp.dates != [] {
      var cells := Grid(inp.dates, p.value.maxErrors, p.value.minC0s);
      GridSize(inp);
      CsoAllFails(inp, cells);
    }
  }

  /** Each start date yields 4 × 4 cells, one per (maximal error, minimal `c_0`) of the estimated grid. */
  lemma GridSize(inp: AnalysisInput)
    requires EstimateParameters(inp.est, inp.level, inp.filters, inp.quantile).Ok?
    ensures var p := EstimateParameters(inp.est, inp.level, inp.filters, inp.quantile).value;
      |Grid(inp.dates, p.maxErrors, p.minC0s)| == 16 * |inp.dates|
  {
    var p := EstimateParameters(inp.est, inp.level, inp.filters, inp.quantile).value;
    var es, cs := p.maxErrors, p.minC0s;
    assert |es| * |cs| == 16 by {
      assert |es| == 4 && |cs| == 4;
    }
    GridCount(inp.dates, es, cs);
  }

  lemma {:induction false} CsoAllMember(inp: AnalysisInput, cells: seq<GridCell>, o: OutcomeRow)
    requires CsoAll(inp, cells).Ok? && o in CsoAll(inp, cells).value.0
    ensures o.analysis == CompleteSourceOnlyAnalysis && o.cell in cells && Le(o.cell.start, o.row.key.subCohort)
    decreases |cells|
  {
    var front := cells[..|cells| - 1];
    var last := cells[|cells| - 1];
    CsoAllLast(inp, cells);
    var acc := CsoAll(inp, front).value;
    if o in acc.0 {
      CsoAllMember(inp, front, o);
    } else {
      CsoCellOk(inp, last);
      var rows := FromStart(CsoKeyTable(inp, last).value, last.start);
      var i :| 0 <= i < |rows| && o == Tag(rows, last, CompleteSourceOnlyAnalysis)[i];
      assert rows[i] in rows;
    }
  }

  /** Every row of the naive analysis is tagged naive, lies at or after its cell's start, and comes from a grid cell. */
  lemma NaiveRowsInWindow(naive: seq<KeyRow>, cells: seq<GridCell>)
    ensures forall o :: o in FlatMap(cells, NaiveFragment(naive)) ==>
      o.analysis == NaiveAnalysis && Le(o.cell.start, o.row.key.subCohort) && o.cell in cells
  {
    forall o | o in FlatMap(cells, NaiveFragment(naive))
      ensures o.analysis == NaiveAnalysis && Le(o.cell.start, o.row.key.subCohort) && o.cell in cells
    {
      FlatMapMember(cells, NaiveFragment(naive), o);
      var c :| c in cells && o in NaiveFragment(naive)(c);
      var rows := FromStart(naive, c.start);
      var j :| 0 <= j < |rows| && Tag(rows, c, NaiveAnalysis)[j] == o;
      assert rows[j] in rows;
    }
  }

  /**
   * Every outcome row lies at or after its cell's observation start, its
   * cell is a cell of the grid, and the naive rows precede the
   * complete-source-only rows.
   */
  lemma OutcomeRowsInWindow(inp: AnalysisInput)
    requires Analyse(inp).Ok?
    ensures var p := EstimateParameters(inp.est, inp.level, inp.filters, inp.quantile).value;
      var out := Analyse(inp).value.1;
      && (forall i :: 0 <= i < |out| ==>
            Le(out[i].cell.start, out[i].row.key.subCohort) && out[i].cell in Grid(inp.dates, p.maxErrors, p.minC0s))
      && (forall i, j :: 0 <= i < j < |out| && out[j].analysis == NaiveAnalysis ==> out[i].analysis == NaiveAnalysis)
  {
    AnalyseOk(inp);
    var p := EstimateParameters(inp.est, inp.level, inp.filters, inp.quantile).value;
    var naive := ComputeKey(inp.keyFunction, inp.events.rows, inp.cohort, inp.vars, inp.thresholds, inp.weekStart).value;
    var cells := Grid(inp.dates, p.maxErrors, p.minC0s);
    NaiveRowsInWindow(naive, cells);
    CsoRowsInWindow(inp, cells);
    WindowedRowsOrdered(FlatMap(cells, NaiveFragment(naive)), CsoAll(inp, cells).value.0, cells);
  }

  /** Every row of the complete-source-only loop is tagged so, lies at or after its cell's start, and comes from a cell. */
  lemma CsoRowsInWindow(inp: AnalysisInput, cells: seq<GridCell>)
    requires CsoAll(inp, cells).Ok?
    ensures forall o :: o in CsoAll(inp, cells).value.0 ==>
      o.analysis == CompleteSourceOnlyAnalysis && Le(o.cell.start, o.row.key.subCohort) && o.cell in cells
  {
    forall o | o in CsoAll(inp, cells).value.0
      ensures o.analysis == CompleteSourceOnlyAnalysis && Le(o.cell.start, o.row.key.subCohort) && o.cell in cells
    {
      CsoAllMember(inp, cells, o);
    }
  }

  /** Naive rows followed by complete-source-only rows, each in its window, keep the naive rows first. */
  lemma WindowedRowsOrdered(naiveRows: seq<OutcomeRow>, csoRows: seq<OutcomeRow>, cells: seq<GridCell>)
    requires forall o :: o in naiveRows ==>
      o.analysis == NaiveAnalysis && Le(o.cell.start, o.row.key.subCohort) && o.cell in cells
    requires forall o :: o in csoRows ==>
      o.analysis == CompleteSourceOnlyAnalysis && Le(o.cell.start, o.row.key.subCohort) && o.cell in cells
    ensures var out := naiveRows + csoRows;
      && (forall i :: 0 <= i < |out| ==> Le(out[i].cell.start, out[i].row.key.subCohort) && out[i].cell in cells)
      && (forall i, j :: 0 <= i < j < |out| && out[j].analysis == NaiveAnalysis ==> out[i].analysis == NaiveAnalysis)
  {
    var out := naiveRows + csoRows;
    forall i | 0 <= i < |out|
      ensures out[i] in naiveRows ==> out[i].analysis == NaiveAnalysis
      ensures out[i] in naiveRows || out[i] in csoRows
      ensures out[i] in naiveRows <==> i < |naiveRows|
    {
      if i < |naiveRows| {
        assert out[i] == naiveRows[i];
      } else {
        assert out[i] == csoRows[i - |naiveRows|];
      }
    }
  }

  lemma {:induction false} CsoAllCounts(inp: AnalysisInput, cells: seq<GridCell>, a: TaggedCount)
    requires CsoAll(inp, cells).Ok? && a in CsoAll(inp, cells).value.1
    ensures a.cell in cells
    ensures a.count == StableCount(CellLabels(inp.est, inp.level, inp.filters, a.cell.start, a.cell.maxError,
                                              a.cell.minC0, inp.endDate))
    decreases |cells|
  {
    var front := cells[..|cells| - 1];
    var last := cells[|cells| - 1];
    CsoAllLast(inp, cells);
    var acc := CsoAll(inp, front).value;
    if a in acc.1 {
      CsoAllCounts(inp, front, a);
    } else {
      CsoCellOk(inp, last);
      StabiliseCount(inp, last);
      CountFragmentMember(inp.csCount, inp.level, last, Stabilise(inp, last).value.0, a);
    }
  }

  /**
   * In the count summary, no cell counts more stable care sites than the
   * grid's active care sites, and every cell has both thresholds defined.
   */
  lemma CountSummaryBounded(inp: AnalysisInput)
    requires Analyse(inp).Ok?
    ensures forall row :: row in Analyse(inp).value.0 ==>
      row.csoCsCount <= row.naiveCsCount && row.cell.maxError.Some? && row.cell.minC0.Some?
  {
    AnalyseOk(inp);
    var p := EstimateParameters(inp.est, inp.level, inp.filters, inp.quantile).value;
    var cells := Grid(inp.dates, p.maxErrors, p.minC0s);
    var cso := CsoAll(inp, cells).value;
    var naiveCounts := FlatMap(cells, NaiveCountFragment(inp.csCount, inp.level, p.activeCsCount));
    forall a | a in cso.1
      ensures a.count <= p.activeCsCount
    {
      CsoAllCounts(inp, cells, a);
      StableCountAtMostActive(inp.est, inp.level, inp.filters, a.cell.start, a.cell.maxError, a.cell.minC0, inp.endDate);
    }
    forall b | b in naiveCounts
      ensures b.count == p.activeCsCount
    {
      NaiveCountIsActive(inp.csCount, inp.level, p.activeCsCount, cells, b);
    }
    CountJoinBounded(cso.1, naiveCounts, p.activeCsCount);
  }

  /** Every naive count row carries the number of active care sites. */
  lemma NaiveCountIsActive(csCount: seq<CsCountRow>, level: string, n: nat, cells: seq<GridCell>, b: TaggedCount)
    requires b in FlatMap(cells, NaiveCountFragment(csCount, level, n))
    ensures b.count == n && b.cell in cells
  {
    FlatMapMember(cells, NaiveCountFragment(csCount, level, n), b);
    var c :| c in cells && b in CountFragment(csCount, level, c, n);
  }

  /**
   * The inner join keeps only rows with both thresholds defined, and when
   * no complete-source-only count exceeds the naive one, no joined row does.
   */
  lemma CountJoinBounded(cso: seq<TaggedCount>, naive: seq<TaggedCount>, n: nat)
    requires forall a :: a in cso ==> a.count <= n
    requires forall b :: b in naive ==> b.count == n
    ensures forall row :: row in CountJoin(cso, naive) ==>
      row.csoCsCount <= row.naiveCsCount && row.cell.maxError.Some? && row.cell.minC0.Some?
  {
    forall row | row in CountJoin(cso, naive)
      ensures row.csoCsCount <= row.naiveCsCount && row.cell.maxError.Some? && row.cell.minC0.Some?
    {
      FlatMapMember(cso, JoinOne(naive), row);
      var a :| a in cso && row in JoinOne(naive)(a);
      var ms := Filter(naive, (b: TaggedCount) => CountsJoin(a, b));
      var i :| 0 <= i < |ms| && row == CountSummaryRow(a.totalCareSite, a.cell, a.count, ms[i].count);
      assert ms[i] in ms;
    }
  }

  /** The stable events of a cell are events of the input table. */
  lemma StableEventsAreEvents(inp: AnalysisInput, c: GridCell)
    requires Stabilise(inp, c).Ok?
    ensures VisitIds(Stabilise(inp, c).value.1) <= VisitIds(inp.events.rows)
  {
    var kept := Stabilise(inp, c).value.1;
    forall v | v in VisitIds(kept)
      ensures v in VisitIds(inp.events.rows)
    {
      var e :| e in kept && e.visitOccurrenceId == v;
      assert e in LevelEvents(inp.events, inp.level);
    }
  }

  /**
   * For events during the stay, every cell's complete-source-only table
   * has the naive table's groups and totals, and never more events per
   * group: removing unstable care sites can only lower the rate.
   */
  lemma CsoDuringAtMostNaive(inp: AnalysisInput, c: GridCell)
    requires inp.keyFunction == EventDuringCohortStay && HasColumns(inp.cohort, inp.vars)
    requires CsoKeyTable(inp, c).Ok?
    ensures var a := CsoKeyTable(inp, c).value;
      var b := ComputeKey(inp.keyFunction, inp.events.rows, inp.cohort, inp.vars, inp.thresholds, inp.weekStart).value;
      && |a| == |b|
      && forall i :: 0 <= i < |a| ==> a[i].key == b[i].key && a[i].nTotal == b[i].nTotal && a[i].nEvents <= b[i].nEvents
  {
    StableEventsAreEvents(inp, c);
    DuringStayMonotone(Stabilise(inp, c).value.1, inp.events.rows, inp.cohort, inp.vars);
  }
}
