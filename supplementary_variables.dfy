/**
 * The supplementary cohort variables: the care site as a string plus an
 * "All" copy of every stay, and the major diagnostic category (MCD) label
 * with its all-categories variant.
 */
module SupplementaryVariables {
  import opened Tables
  import opened Dates
  import opened Strings
  import opened Records

  /** `a` and `b` are the same stay, with the same columns and values outside `cols`. */
  predicate AgreeOutside(a: CohortRow, b: CohortRow, cols: set<string>)
  {
    && a.(dims := map[]) == b.(dims := map[])
    && a.dims - cols == b.dims - cols
  }

  /** The value of a column of a stay, null when the stay lacks it. */
  function At(r: CohortRow, col: string): Cell
  {
    if col in r.dims then r.dims[col] else Null
  }

  /** `cast(str)` on one cell: integers are printed in decimal, strings and nulls are unchanged. */
  function CastToString(c: Cell): (r: Cell)
    ensures c.Null? <==> r.Null?
    ensures c.StrCell? ==> r == c
  {
    match c
    case IntCell(i) => StrCell(IntToString(i))
    case _ => c
  }

  function SetColumn(r: CohortRow, col: string, v: Cell): (r': CohortRow)
    ensures col in r'.dims && r'.dims[col] == v
    ensures AgreeOutside(r, r', {col})
  {
    r.(dims := r.dims[col := v])
  }

  function CastCareSite(rows: seq<CohortRow>): (r: seq<CohortRow>)
    requires HasColumns(rows, ["care_site_id"])
    ensures |r| == |rows|
    ensures forall i :: 0 <= i < |rows| ==>
      r[i] == SetColumn(rows[i], "care_site_id", CastToString(At(rows[i], "care_site_id")))
    ensures forall i :: 0 <= i < |rows| ==>
      AgreeOutside(rows[i], r[i], {"care_site_id"}) && At(r[i], "care_site_id") == CastToString(At(rows[i], "care_site_id"))
  {
    seq(|rows|, i requires 0 <= i < |rows| => SetColumn(rows[i], "care_site_id", CastToString(At(rows[i], "care_site_id"))))
  }

  function LabelAll(rows: seq<CohortRow>): (r: seq<CohortRow>)
    ensures |r| == |rows|
    ensures forall i :: 0 <= i < |rows| ==> r[i] == SetColumn(rows[i], "care_site_id", StrCell("All"))
    ensures forall i :: 0 <= i < |rows| ==>
      AgreeOutside(rows[i], r[i], {"care_site_id"}) && At(r[i], "care_site_id") == StrCell("All")
  {
    seq(|rows|, i requires 0 <= i < |rows| => SetColumn(rows[i], "care_site_id", StrCell("All")))
  }

  /**
   * `add_care_site`: the stays with `care_site_id` cast to a string,
   * followed by a copy of every stay with `care_site_id = "All"`.
   */
  function AddCareSite(cohort: seq<CohortRow>): (r: Result<seq<CohortRow>>)
    ensures r.Err? <==> !HasColumns(cohort, ["care_site_id"])
    ensures r.Err? ==> r.error == ColumnNotFound
    ensures r.Ok? ==> |r.value| == 2 * |cohort|
    ensures r.Ok? ==> forall i :: 0 <= i < |cohort| ==>
      && AgreeOutside(cohort[i], r.value[i], {"care_site_id"})
      && At(r.value[i], "care_site_id") == CastToString(At(cohort[i], "care_site_id"))
    ensures r.Ok? ==> forall i :: |cohort| <= i < 2 * |cohort| ==>
      && AgreeOutside(cohort[i - |cohort|], r.value[i], {"care_site_id"})
      && At(r.value[i], "care_site_id") == StrCell("All")
  {
    if !HasColumns(cohort, ["care_site_id"]) then Err(ColumnNotFound)
    else
      var cast, all := CastCareSite(cohort), LabelAll(cohort);
      assert forall i :: 0 <= i < |cohort| ==> (cast + all)[i] == cast[i];
      assert forall i :: |cohort| <= i < 2 * |cohort| ==> (cast + all)[i] == all[i - |cohort|];
      Ok(cast + all)
  }

  /** A printed integer never reads "All". */
  lemma IntToStringNotAll(i: int)
    ensures IntToString(i) != "All"
  {
    if i < 0 {
      assert IntToString(i)[0] == '-';
    } else {
      assert '0' <= NatToString(i)[0] <= '9';
    }
  }

  /**
   * The "All" copies never share a care site with the stays they copy
   * when those carry integer care sites, and distinct integer care sites
   * stay distinct once cast: grouping by care site after `add_care_site`
   * separates the same sites as before, plus the one "All" group.
   */
  lemma CareSiteGroupsPreserved(cohort: seq<CohortRow>, i: int, j: int)
    requires AddCareSite(cohort).Ok?
    requires 0 <= i < |cohort| && 0 <= j < |cohort|
    requires At(cohort[i], "care_site_id").IntCell? && At(cohort[j], "care_site_id").IntCell?
    ensures var out := AddCareSite(cohort).value;
      && At(out[i], "care_site_id") != At(out[|cohort| + j], "care_site_id")
      && (At(out[i], "care_site_id") == At(out[j], "care_site_id")
          <==> At(cohort[i], "care_site_id") == At(cohort[j], "care_site_id"))
  {
    var a, b := At(cohort[i], "care_site_id").i, At(cohort[j], "care_site_id").i;
    IntToStringNotAll(a);
    if IntToString(a) == IntToString(b) {
      IntToStringInjective(a, b);
    }
  }

  // ---------------------------------------------------------------------
  // Major diagnostic categories

  const MCD_START: Date := Ymd(2016, 1, 1)

  /** `CMD_code <= "27"` (string order; a null code is filtered out) and `sub_cohort >= 2016-01-01`. */
  predicate McdKeeps(r: CohortRow)
  {
    && At(r, "CMD_code").StrCell?
    && LexLe(At(r, "CMD_code").s, "27")
    && Le(MCD_START, r.subCohort)
  }

  /** `CMD_code + " " + CMD`: null when either side is null. */
  function McdLabel(code: Cell, cmd: Cell): Cell
  {
    if code.StrCell? && cmd.StrCell? then StrCell(code.s + " " + cmd.s) else Null
  }

  /** Drop `CMD` and `CMD_code`, then set `MCD`. */
  function Relabel(r: CohortRow, mcd: Cell): (r': CohortRow)
    ensures "MCD" in r'.dims && r'.dims["MCD"] == mcd
    ensures "CMD" !in r'.dims && "CMD_code" !in r'.dims
    ensures AgreeOutside(r, r', {"CMD", "CMD_code", "MCD"})
  {
    r.(dims := (r.dims - {"CMD", "CMD_code"})["MCD" := mcd])
  }

  /** Relabelling twice keeps only the second label. */
  lemma RelabelTwice(r: CohortRow, a: Cell, b: Cell)
    ensures Relabel(Relabel(r, a), b) == Relabel(r, b)
  {
    assert Relabel(Relabel(r, a), b).dims == Relabel(r, b).dims;
  }

  predicate HasIntCategory(cohort: seq<CohortRow>)
  {
    exists r :: r in cohort && (At(r, "CMD").IntCell? || At(r, "CMD_code").IntCell?)
  }

  function AllCategories(cohort: seq<CohortRow>): (r: seq<CohortRow>)
    ensures |r| == |cohort|
    ensures forall i :: 0 <= i < |cohort| ==> r[i] == Relabel(cohort[i], StrCell("00 ALL"))
  {
    seq(|cohort|, i requires 0 <= i < |cohort| => Relabel(cohort[i], StrCell("00 ALL")))
  }

  function PerCategory(kept: seq<CohortRow>): (r: seq<CohortRow>)
    ensures |r| == |kept|
    ensures forall i :: 0 <= i < |kept| ==>
      r[i] == Relabel(kept[i], McdLabel(At(kept[i], "CMD_code"), At(kept[i], "CMD")))
  {
    seq(|kept|, i requires 0 <= i < |kept| => Relabel(kept[i], McdLabel(At(kept[i], "CMD_code"), At(kept[i], "CMD"))))
  }

  /**
   * `add_mcd`: the pair (per-category stays, all-categories stays). The
   * first keeps the stays with a category code up to "27" from 2016 on,
   * labelled "code category"; the second is every stay labelled
   * "00 ALL". Both lose `CMD` and `CMD_code`. An integer category or code
   * cannot enter the string comparison or concatenation.
   */
  function AddMcd(cohort: seq<CohortRow>): (r: Result<(seq<CohortRow>, seq<CohortRow>)>)
    ensures r.Err? <==> !HasColumns(cohort, ["CMD", "CMD_code"]) || HasIntCategory(cohort)
    ensures !HasColumns(cohort, ["CMD", "CMD_code"]) ==> r == Err(ColumnNotFound)
    ensures r.Ok? ==> |r.value.1| == |cohort|
    ensures r.Ok? ==> forall i :: 0 <= i < |cohort| ==>
      && AgreeOutside(cohort[i], r.value.1[i], {"CMD", "CMD_code", "MCD"})
      && At(r.value.1[i], "MCD") == StrCell("00 ALL")
      && "CMD" !in r.value.1[i].dims && "CMD_code" !in r.value.1[i].dims
    ensures r.Ok? ==> |r.value.0| == Count(cohort, McdKeeps)
    ensures r.Ok? ==> forall x :: x in cohort && McdKeeps(x) ==>
      Relabel(x, McdLabel(At(x, "CMD_code"), At(x, "CMD"))) in r.value.0
  {
    if !HasColumns(cohort, ["CMD", "CMD_code"]) then Err(ColumnNotFound)
    else if HasIntCategory(cohort) then Err(TypeMismatch)
    else
      var all := AllCategories(cohort);
      var kept := Filter(cohort, McdKeeps);
      FilterCount(cohort, McdKeeps);
      assert forall x :: x in kept ==> Relabel(x, McdLabel(At(x, "CMD_code"), At(x, "CMD"))) in PerCategory(kept) by {
        forall x | x in kept
          ensures Relabel(x, McdLabel(At(x, "CMD_code"), At(x, "CMD"))) in PerCategory(kept)
        {
          var i :| 0 <= i < |kept| && kept[i] == x;
          assert PerCategory(kept)[i] == Relabel(x, McdLabel(At(x, "CMD_code"), At(x, "CMD")));
        }
      }
      Ok((PerCategory(kept), all))
  }

  /**
   * Every per-category stay is a kept input stay, labelled "code category",
   * and the same stay appears in the all-categories table with the
   * "00 ALL" label: the per-category table is a relabelled selection of
   * the all-categories one.
   */
  lemma PerCategoryInAll(cohort: seq<CohortRow>, m: CohortRow)
    requires AddMcd(cohort).Ok? && m in AddMcd(cohort).value.0
    ensures exists x :: (x in cohort && McdKeeps(x)
                         && m == Relabel(x, McdLabel(At(x, "CMD_code"), At(x, "CMD"))))
    ensures Relabel(m, StrCell("00 ALL")) in AddMcd(cohort).value.1
  {
    var kept := Filter(cohort, McdKeeps);
    var i :| 0 <= i < |kept| && PerCategory(kept)[i] == m;
    var x := kept[i];
    assert x in kept;
    var j :| 0 <= j < |cohort| && cohort[j] == x;
    RelabelTwice(x, McdLabel(At(x, "CMD_code"), At(x, "CMD")), StrCell("00 ALL"));
    assert AllCategories(cohort)[j] == Relabel(m, StrCell("00 ALL"));
  }
}
