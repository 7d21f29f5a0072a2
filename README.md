# Complete-source-only analysis of cse_210033, in Dafny

This project models the statistical core of the cse_210033 study of
clinical data warehouse completeness and proves properties of it.
The study compares two analyses of an epidemiological outcome over a
grid of stringency settings:

- The *naive* analysis uses every event.
- The *complete-source-only* (CSO) analysis first drops every visit that
  touches a care site whose fitted completeness model is not stable.

The model covers:

- **Complete-source filtering** (`CompleteSource`, complete_source.py):
  - selecting the completeness estimates of one care-site level and stratification;
  - labelling each estimate `stable_cs` (`t_0 <= start`, `error <= max_error`, `c_0 >= min_c_0`, and optionally `t_1 >= end_date`);
  - pushing the labels down to visits, where a visit is stable only if every care site it touches is stable and an unknown care site counts as unstable;
  - keeping the events of stable visits;
  - estimating the threshold grid.
- **The three outcome functions** (`KeyVariables`, key_variables.py):
  - events during the cohort stay: a left join, then sums and distinct counts per group;
  - duration until the next event: a forward as-of match, the per-threshold flags built by a loop, then the sums per group and threshold;
  - weekly condition incidence: weekly buckets, the school year, and the school-year maximum that lands on the arg-max week.
- **The orchestrator** (`StatisticalAnalysis`, statistical_analysis.py):
  - its two triple loops over start dates × maximal errors × minimal `c_0`, written as methods with loop invariants;
  - the concatenation of the results;
  - the join of the care-site counts.
- **The cohort helpers**:
  - row filters, date cleaning, the study-period window with its month bucket, and first event per visit (`FilterEvents`);
  - age arithmetic and the patient merge that writes `age_today` into the caller's person table (`AddEvents`);
  - the "All" care-site duplication and the MCD labelling (`SupplementaryVariables`).

Shared modules:

- `Tables`: Result/Option, filters, counts, distinct values, flat maps.
- `Dates`: valid Gregorian dates, their order, day numbers, first of month.
- `Strings`: zero-padded `%m-%d` strings and integer formatting.
- `Records`: cohort and event rows, and group keys.

Dataframes are sequences of record datatypes. Columns that are chosen
by name at run time, such as the sensitivity variables or the MCD
columns, live in a `map<string, Cell>`. A missing column, an
empty threshold list, an unknown care-site level and a dtype clash are
error values of a `Result`, each with the case the library would
raise.

## Model

| member | source | states |
|---|---|---|
| CompleteSource.FilterEstimates | cse_210033/statistical_analysis/utils/complete_source.py:176-209 | Fails (missing column) iff a truthy filter names a stratum the table lacks. Otherwise it keeps exactly the input rows at the requested level that equal every truthy filter value, and `None` or empty filters pass everything. It carries the `t_1` column over and renames the id column to `detail_care_site_id` iff `renaming` is set and the level is UF or UH. |
| CompleteSource.ApplyFilters | cse_210033/statistical_analysis/utils/complete_source.py:191-204 | The chained `if value: filter(...)` steps keep exactly the rows that pass each applied stratum. |
| CompleteSource.FilterEstimatesSubset | cse_210033/statistical_analysis/utils/complete_source.py:190-204 | The filtered estimates are a sub-multiset of the input: no row is invented or duplicated. |
| CompleteSource.ApplyFiltersSubset | cse_210033/statistical_analysis/utils/complete_source.py:191-204 | Each truthy filter can only remove rows, counted with multiplicity. |
| CompleteSource.RenamingKeepsRows | cse_210033/statistical_analysis/utils/complete_source.py:205-209 | Renaming only changes a column name: the estimator's call (`renaming=False`) and the stabiliser's call keep the same rows and fail alike. |
| CompleteSource.FilterUnstableCsFromEstimates | cse_210033/statistical_analysis/utils/complete_source.py:141-173 | Keeps every row and its order. A row is labelled stable iff `t_0 <= start`, `error <= max_error` and `c_0 >= min_c_0`, and, when the table has `t_1` and an end date is given, also `t_1 >= end_date`. |
| CompleteSource.StabilityMonotone | cse_210033/statistical_analysis/utils/complete_source.py:151-170 | An earlier start, a lower `max_error`, a higher `min_c_0`, or supplying an end date never turns an unstable row stable. |
| CompleteSource.StableIds | cse_210033/statistical_analysis/utils/complete_source.py:108-110 | The ids counted are exactly the ids of stable rows. |
| CompleteSource.StableCountMonotone | cse_210033/statistical_analysis/utils/complete_source.py:108-110 | So the number of distinct stable care sites never grows when the thresholds are tightened. |
| CompleteSource.LevelEvents | cse_210033/statistical_analysis/utils/complete_source.py:94-99 | At UF or UH the events are restricted to `detail_care_site_level == level` when that column exists; otherwise all events are used. |
| CompleteSource.VisitSites | cse_210033/statistical_analysis/utils/complete_source.py:112-114 | Projects each event, in order, to its visit and its care site in the level's id column. |
| CompleteSource.Matching | cse_210033/statistical_analysis/utils/complete_source.py:115-121 | The estimate rows a (visit, care site) pair joins to are exactly those with that care-site id; a null id joins nothing. |
| CompleteSource.Expand | cse_210033/statistical_analysis/utils/complete_source.py:115-122 | A pair always yields at least one joined row, and a `false` flag for its visit iff its care site is not stable. This covers the left join's fill of an unmatched site with `False`. |
| CompleteSource.LeftJoinCovers | cse_210033/statistical_analysis/utils/complete_source.py:115-122 | The left join loses no visit. |
| CompleteSource.LeftJoinUnstable | cse_210033/statistical_analysis/utils/complete_source.py:115-122 | The joined table has a `false` row for a visit iff one of the visit's pairs has a care site that is unstable or unknown. |
| CompleteSource.MinPerVisit | cse_210033/statistical_analysis/utils/complete_source.py:123-124 | The per-visit minimum has one entry per joined visit, and it is true iff no joined row of the visit is false. |
| CompleteSource.StableVisitEvents | cse_210033/statistical_analysis/utils/complete_source.py:123-133 | The inner join on stable visits keeps exactly the events whose visit has only stable care sites. |
| CompleteSource.StableVisitFlag | cse_210033/statistical_analysis/utils/complete_source.py:112-127 | Every event's visit has a per-visit flag, and the flag is true iff the visit is stable. |
| CompleteSource.FilterUnstableCsFromEventDf | cse_210033/statistical_analysis/utils/complete_source.py:54-138 | Fails iff the estimate filter fails or the level is not UF, UH or Hôpital; the latter is the returned `ValueError` value. Otherwise it returns the number of distinct stable care sites, and exactly the level's events whose visit touches only stable care sites. |
| CompleteSource.StabilisedEventsSubset | cse_210033/statistical_analysis/utils/complete_source.py:123-133 | Each event is kept exactly as often as it appears in the input when it is at the requested detail level (or the table has no level column) and its visit is stable, and dropped otherwise. So the output is a sub-multiset of the input: the join duplicates nothing. |
| CompleteSource.UnknownSiteDropsVisit | cse_210033/statistical_analysis/utils/complete_source.py:115-122 | A visit with one event at a care site absent from the estimates, or with a null site, loses all its events. |
| CompleteSource.MultiSiteVisit | cse_210033/statistical_analysis/utils/complete_source.py:123-133 | An event is kept iff every event of the same visit sits at a stable care site. |
| CompleteSource.StableCountAtMostActive | cse_210033/statistical_analysis/utils/complete_source.py:32-34 | A cell's stable care-site count never exceeds the active care-site count the estimator computes. |
| CompleteSource.SiteIds | cse_210033/statistical_analysis/utils/complete_source.py:32-34 | The ids counted by `n_unique` are exactly the care-site ids of the filtered rows. |
| CompleteSource.QuantileOf | cse_210033/statistical_analysis/utils/complete_source.py:37-43 | The quantile of an empty column is null, and that is the only null case. |
| CompleteSource.EstimateParameters | cse_210033/statistical_analysis/utils/complete_source.py:8-51 | Fails iff `filter_estimates` fails. Otherwise it returns the number of distinct active care sites and two 4-element grids. When an estimate row is left, the grids are `1.0` followed by the 0.75/0.5/0.25 quantiles of the error column, and `0.0` followed by the 0.25/0.5/0.75 quantiles of the `c_0` column. A quantile is null iff no estimate row is left. |
| CompleteSource.GridOrdered | cse_210033/statistical_analysis/utils/complete_source.py:36-43 | With a quantile that grows with `q`, the grid runs from the least to the most strict: the maximal errors decrease and the minimal `c_0` increase. |
| KeyVariables.GroupRows | cse_210033/statistical_analysis/utils/key_variables.py:128-129 | A group is exactly the cohort rows whose key (sensitivity variables, then `sub_cohort`) is the group key. |
| KeyVariables.GroupRowsNonEmpty | cse_210033/statistical_analysis/utils/key_variables.py:128-129 | Every key present in the cohort has a non-empty group. |
| KeyVariables.CohortIdsFilterNoDup | cse_210033/statistical_analysis/utils/key_variables.py:128-135 | Distinct stay ids stay distinct in a sub-table. |
| KeyVariables.DuringRowOf | cse_210033/statistical_analysis/utils/key_variables.py:128-139 | The row of a group counts the group's stays that have an event, and the group's distinct stays (at least one). Its rate is their ratio. |
| KeyVariables.DuringRows | cse_210033/statistical_analysis/utils/key_variables.py:128-139 | One such row per key, in key order. |
| KeyVariables.ComputeEventDuringCohortStay | cse_210033/statistical_analysis/utils/key_variables.py:105-145 | Fails iff a sensitivity column is missing. Otherwise every cohort group appears exactly once, because the join is a left join. `n_events` is never null, `n_total` counts distinct stays, and `rate = n_events / n_total`. |
| KeyVariables.DuringRateBounded | cse_210033/statistical_analysis/utils/key_variables.py:133-139 | When stay ids are unique within each group, `n_events <= n_total` and the rate lies in [0, 1]. |
| KeyVariables.UniqueIdsPerGroup | cse_210033/statistical_analysis/utils/key_variables.py:128-139 | Stay ids unique in the whole cohort stay unique within every group. |
| KeyVariables.DuringStayMonotone | cse_210033/statistical_analysis/utils/key_variables.py:116-139 | Fewer event visits give the same groups, the same `n_total` and no more `n_events`. |
| KeyVariables.Earliest | cse_210033/statistical_analysis/utils/key_variables.py:30-39 | A non-empty list of dated events has a member dated no later than any other. |
| KeyVariables.AsOf | cse_210033/statistical_analysis/utils/key_variables.py:30-39 | The forward as-of join picks, for a stay, the earliest event of the same person dated on or after `cohort_stay_end` and within the tolerance. It picks nothing iff there is no such event. |
| KeyVariables.MatchOf | cse_210033/statistical_analysis/utils/key_variables.py:45-58 | A stay is kept iff it has an as-of event that is not the stay itself; a self-match drops the stay rather than searching further. The duration is the whole days from the end of the stay to the event, within the tolerance. |
| KeyVariables.Matches | cse_210033/statistical_analysis/utils/key_variables.py:30-58 | Every surviving match is a cohort stay with its own as-of match. Conversely, every stay with an as-of match contributes it. |
| KeyVariables.MatchesCount | cse_210033/statistical_analysis/utils/key_variables.py:30-58 | The matches satisfying any condition are exactly as many as the stays whose as-of match satisfies it. |
| KeyVariables.MatchesPerGroup | cse_210033/statistical_analysis/utils/key_variables.py:30-48 | A group has no more matches than stays. |
| KeyVariables.Max | cse_210033/statistical_analysis/utils/key_variables.py:38 | `max(thresholds)` is a threshold bounding all of them. |
| KeyVariables.ThresholdLabelInjective | cse_210033/statistical_analysis/utils/key_variables.py:72 | Distinct thresholds get distinct `before_{t}_days` labels. |
| KeyVariables.FlagOne | cse_210033/statistical_analysis/utils/key_variables.py:66-73 | One flagged copy per match for a threshold. |
| KeyVariables.FlagThresholds | cse_210033/statistical_analysis/utils/key_variables.py:64-76 | The loop over thresholds builds the concatenation of the per-threshold copies in threshold order. |
| KeyVariables.FlagOneCount | cse_210033/statistical_analysis/utils/key_variables.py:66-73 | In one copy, the events flagged for a group are its matches within `t` days, under that threshold's label only. |
| KeyVariables.FlagAllCount | cse_210033/statistical_analysis/utils/key_variables.py:76-86 | Summing `has_event` per (group, label) over the concatenation adds up the per-threshold counts carrying that label. |
| KeyVariables.FlagAllMember | cse_210033/statistical_analysis/utils/key_variables.py:64-76 | Every flagged row comes from a match's group and a threshold's label. |
| KeyVariables.FlagOneMember | cse_210033/statistical_analysis/utils/key_variables.py:66-73 | A copy's rows come from match groups and carry that copy's label. |
| KeyVariables.FlagAllCovers | cse_210033/statistical_analysis/utils/key_variables.py:64-76 | Every (match, threshold) pair appears in the concatenation. |
| KeyVariables.FlagOneCovers | cse_210033/statistical_analysis/utils/key_variables.py:66-73 | Every match appears in each copy. |
| KeyVariables.GroupLabels | cse_210033/statistical_analysis/utils/key_variables.py:83 | Projects flagged rows to their (group, label) pairs, in order. |
| KeyVariables.DurationGroups | cse_210033/statistical_analysis/utils/key_variables.py:82-86 | The groupby keys are distinct, and they are exactly the (group, label) pairs present with no null key column. |
| KeyVariables.DurationRowOf | cse_210033/statistical_analysis/utils/key_variables.py:82-97 | A group's row for one label is the flagged-event sum and the group's stay count. |
| KeyVariables.DurationRows | cse_210033/statistical_analysis/utils/key_variables.py:82-97 | One such row per groupby key, in order. |
| KeyVariables.ComputeDurationAfterEvent | cse_210033/statistical_analysis/utils/key_variables.py:9-102 | Fails iff a sensitivity column is missing or the thresholds are empty (`max` of an empty list). Otherwise it returns one row per distinct (matched group, label). Each row holds the summed flags, the group's stay count and their ratio. |
| KeyVariables.DurationRowsCover | cse_210033/statistical_analysis/utils/key_variables.py:82-97 | Every matched stay without a null key has a row under every threshold label. Groups with no match are absent, because the join is an inner join. |
| KeyVariables.SumEventsDistinct | cse_210033/statistical_analysis/utils/key_variables.py:72-84 | With distinct thresholds, a label sums exactly its own threshold's count. |
| KeyVariables.DurationEventsBounded | cse_210033/statistical_analysis/utils/key_variables.py:54-97 | A row counts the group's stays whose next event came within its threshold, `n_events <= n_total`, and the rate lies in [0, 1]. |
| KeyVariables.EventsWithinMonotone | cse_210033/statistical_analysis/utils/key_variables.py:67-71 | A larger threshold never counts fewer events. |
| KeyVariables.SchoolYear | cse_210033/statistical_analysis/utils/key_variables.py:182-186 | The school year is the calendar year up to August and the next year from September. |
| KeyVariables.Buckets | cse_210033/statistical_analysis/utils/key_variables.py:170-175 | Each stay falls in the bucket of its sensitivity values and the start of its week. |
| KeyVariables.BeatsTrans | cse_210033/statistical_analysis/utils/key_variables.py:189 | The order `n_events` descending, then `sub_cohort` ascending, is transitive. |
| KeyVariables.BeatsTotal | cse_210033/statistical_analysis/utils/key_variables.py:189 | The order is total. |
| KeyVariables.BestFrom | cse_210033/statistical_analysis/utils/key_variables.py:188-193 | `first()` after the sort picks a bucket of the season that beats every other bucket of the season. |
| KeyVariables.SeasonMaxUnique | cse_210033/statistical_analysis/utils/key_variables.py:188-193 | A season has only one such maximum. |
| KeyVariables.BestFromFixpoint | cse_210033/statistical_analysis/utils/key_variables.py:188-193 | A bucket is picked iff it is its season's maximum. |
| KeyVariables.BaseIncidenceRow | cse_210033/statistical_analysis/utils/key_variables.py:170-186 | A bucket's row counts the distinct stays with an event in it (at least one) and records its school year. |
| KeyVariables.BaseIncidence | cse_210033/statistical_analysis/utils/key_variables.py:159-186 | One row per non-empty bucket, with distinct keys. Only stays that have an event count, because the join is an inner join on deduplicated ids. |
| KeyVariables.WithMax | cse_210033/statistical_analysis/utils/key_variables.py:199-201 | The left join on `sub_cohort` puts `max_events` on a bucket iff it is its season's maximum (and no key column is null), and then it equals the bucket's `n_events`. |
| KeyVariables.ComputeConditionIncidence | cse_210033/statistical_analysis/utils/key_variables.py:148-206 | Fails iff a sensitivity column is missing. Otherwise it returns the bucket rows, each carrying its season's maximum only if it is the arg-max week. |
| KeyVariables.OneMaximumPerSeason | cse_210033/statistical_analysis/utils/key_variables.py:188-201 | Each season with no null key has exactly one week carrying `max_events`. |
| KeyVariables.ComputeKey | cse_210033/statistical_analysis/utils/__init__.py:9-17 | Dispatch by registered name runs the named function on the same arguments and fails exactly as that function does. |
| StatisticalAnalysis.Line | cse_210033/statistical_analysis/statistical_analysis.py:65 | The innermost loop visits the minimal `c_0` values in order. |
| StatisticalAnalysis.BlockSize | cse_210033/statistical_analysis/statistical_analysis.py:64-65 | A date contributes `len(max_errors) × len(min_c_0s)` cells. |
| StatisticalAnalysis.GridCount | cse_210033/statistical_analysis/statistical_analysis.py:63-65 | The loops visit `len(dates) × len(max_errors) × len(min_c_0s)` cells. |
| StatisticalAnalysis.BlockMember | cse_210033/statistical_analysis/statistical_analysis.py:64-65 | A date's cells are exactly its (error, `c_0`) pairs. |
| StatisticalAnalysis.GridMember | cse_210033/statistical_analysis/statistical_analysis.py:63-65 | The cells are exactly the triples of the three lists. |
| StatisticalAnalysis.BlockAppend | cse_210033/statistical_analysis/statistical_analysis.py:64-65 | The cells for a date split along its list of maximal errors. |
| StatisticalAnalysis.GridAppend | cse_210033/statistical_analysis/statistical_analysis.py:63-65 | Dates split the cells in date-major order. |
| StatisticalAnalysis.LineStep | cse_210033/statistical_analysis/statistical_analysis.py:65 | One more `c_0` appends one cell. |
| StatisticalAnalysis.BlockStep | cse_210033/statistical_analysis/statistical_analysis.py:64 | One more maximal error appends that error's cells. |
| StatisticalAnalysis.GridStep | cse_210033/statistical_analysis/statistical_analysis.py:63 | One more date appends that date's cells. |
| StatisticalAnalysis.AfterBlockStep | cse_210033/statistical_analysis/statistical_analysis.py:64-65 | Cells already produced stay in front when an error's cells are appended. |
| StatisticalAnalysis.FromStart | cse_210033/statistical_analysis/statistical_analysis.py:67-70 | A fragment keeps exactly the rows with `sub_cohort >= start_observation_date`. |
| StatisticalAnalysis.Tag | cse_210033/statistical_analysis/statistical_analysis.py:70-74 | Tagging keeps every row and its order, and adds the cell and the analysis name. |
| StatisticalAnalysis.Stabilise | cse_210033/statistical_analysis/statistical_analysis.py:97-111 | The stabiliser call for a cell fails exactly when `filter_unstable_cs_from_event_df` cannot produce a pair. |
| StatisticalAnalysis.NaiveLine | cse_210033/statistical_analysis/statistical_analysis.py:65-82 | The innermost naive loop appends, for each `c_0`, the tagged naive fragment and the tagged count rows. |
| StatisticalAnalysis.NaiveBlock | cse_210033/statistical_analysis/statistical_analysis.py:64-82 | The middle naive loop appends the fragments of all a date's cells. |
| StatisticalAnalysis.NaiveLoop | cse_210033/statistical_analysis/statistical_analysis.py:61-86 | The naive loops produce one fragment per grid cell in date-major order. Each fragment is the single naive result restricted to the cell's start, and the count list holds the active count per cell. |
| StatisticalAnalysis.CsoCellUniform | cse_210033/statistical_analysis/statistical_analysis.py:97-118 | Whether a cell fails, and how, does not depend on the cell. |
| StatisticalAnalysis.CsoAllFailsWith | cse_210033/statistical_analysis/statistical_analysis.py:94-140 | So the loops fail iff any one cell fails, and with that cell's error. |
| StatisticalAnalysis.CsoAllSnoc | cse_210033/statistical_analysis/statistical_analysis.py:130-140 | A successful cell appends its fragment and its count rows. |
| StatisticalAnalysis.CsoAllFailureSpreads | cse_210033/statistical_analysis/statistical_analysis.py:94-140 | Once a cell has raised, later cells change nothing. |
| StatisticalAnalysis.CsoLine | cse_210033/statistical_analysis/statistical_analysis.py:96-140 | The innermost CSO loop computes exactly the fold of the per-cell results over its cells. |
| StatisticalAnalysis.CsoBlock | cse_210033/statistical_analysis/statistical_analysis.py:95-140 | The middle CSO loop does the same over a date's cells. |
| StatisticalAnalysis.CsoBlockStops | cse_210033/statistical_analysis/statistical_analysis.py:95-140 | A failure part-way through a date is the date's result. |
| StatisticalAnalysis.CsoGridStops | cse_210033/statistical_analysis/statistical_analysis.py:94-140 | A failure part-way through the dates is the loops' result. |
| StatisticalAnalysis.CsoLoop | cse_210033/statistical_analysis/statistical_analysis.py:92-148 | The CSO loops compute exactly the per-cell stabilise, run, filter and tag over the grid in date-major order, stopping at the first failure. |
| StatisticalAnalysis.RunStatisticalAnalysis | cse_210033/statistical_analysis/statistical_analysis.py:12-170 | The whole analysis returns exactly the count summary and the result the model specifies, or the first error. |
| StatisticalAnalysis.AnalyseOk | cse_210033/statistical_analysis/statistical_analysis.py:34-168 | A successful analysis ran the estimator and the naive key function once. Its result is the naive fragments of all cells followed by the CSO fragments, and its summary is the join of the CSO counts with the naive counts. |
| StatisticalAnalysis.CsoCellFails | cse_210033/statistical_analysis/statistical_analysis.py:97-118 | With valid inputs, a cell fails only for an unknown level, and then with the unpacking error of `a, b = ValueError(...)`. |
| StatisticalAnalysis.CsoAllFails | cse_210033/statistical_analysis/statistical_analysis.py:94-140 | The same holds for the loops over any non-empty grid. |
| StatisticalAnalysis.AnalyseFailures | cse_210033/statistical_analysis/statistical_analysis.py:34-168 | The analysis fails iff a filter column is missing, the key function cannot run, no start date is given (concatenating nothing) or the level is unknown. Each case fails with its own error, in that order of precedence. |
| StatisticalAnalysis.GridSize | cse_210033/statistical_analysis/statistical_analysis.py:63-65 | There are 16 cells per start date. |
| StatisticalAnalysis.CsoAllMember | cse_210033/statistical_analysis/statistical_analysis.py:119-130 | Every CSO row is tagged CSO, carries one of the grid's cells, and lies at or after that cell's start. |
| StatisticalAnalysis.OutcomeRowsInWindow | cse_210033/statistical_analysis/statistical_analysis.py:67-70 | Every result row satisfies `sub_cohort >= its start_observation_date` and carries a grid cell. All naive rows precede all CSO rows. |
| StatisticalAnalysis.CsoAllCounts | cse_210033/statistical_analysis/statistical_analysis.py:131-140 | Every CSO count row belongs to a grid cell and holds that cell's stable care-site count. |
| StatisticalAnalysis.CountSummaryBounded | cse_210033/statistical_analysis/statistical_analysis.py:164-168 | In every joined count row, `cso_cs_count <= naive_cs_count`, and both stringency settings are present. |
| StatisticalAnalysis.NaiveCountIsActive | cse_210033/statistical_analysis/statistical_analysis.py:54-60 | Every naive count row holds the active count and a grid cell. |
| StatisticalAnalysis.CountJoinBounded | cse_210033/statistical_analysis/statistical_analysis.py:164-168 | The inner join pairs only rows of the same cell, so the bounds on each side carry over to the joined rows. |
| StatisticalAnalysis.StableEventsAreEvents | cse_210033/statistical_analysis/statistical_analysis.py:97-111 | The stabilised events' visits are among the input events' visits. |
| StatisticalAnalysis.CsoDuringAtMostNaive | cse_210033/statistical_analysis/statistical_analysis.py:97-118 | With the during-stay function, a cell's CSO table has the naive groups with the same `n_total` and no more `n_events`. |
| FilterEvents.FilterEvent | cse_210033/cohort_selection/utils/filter_events.py:8-22 | Fails iff the column is missing. Otherwise it keeps exactly the rows whose value is a string matching the pattern case-insensitively. A null never survives (`na=False`), and the output is a subset of the input. |
| FilterEvents.FilterNoteType | cse_210033/cohort_selection/utils/filter_events.py:77-85 | The same filter on `note_type`. |
| FilterEvents.RenameRow | cse_210033/cohort_selection/utils/filter_events.py:90-92 | Renaming moves one value to the new name and leaves every other column alone. |
| FilterEvents.RenameStatus | cse_210033/cohort_selection/utils/filter_events.py:90-92 | Every row gets `condition_status_source_value` renamed to `diag_type`. |
| FilterEvents.FilterDiag | cse_210033/cohort_selection/utils/filter_events.py:88-99 | Fails iff the status column is missing or a status is not a string, since a mask with nulls cannot index. Otherwise the column is renamed to `diag_type` and every kept row's `diag_type` matches the pattern case-sensitively. |
| FilterEvents.RenamedKept | cse_210033/cohort_selection/utils/filter_events.py:90-95 | Filtering the renamed rows keeps exactly the renamed versions of the matching originals. |
| FilterEvents.FilterDiagRows | cse_210033/cohort_selection/utils/filter_events.py:90-95 | The rows of `filter_diag` are exactly the renamed input rows whose status matches. |
| FilterEvents.FilterSource | cse_210033/cohort_selection/utils/filter_events.py:25-32 | Fails iff `cdm_source` is missing. Otherwise it keeps exactly the rows of the requested source, without the `cdm_source` column. |
| FilterEvents.CleanDate | cse_210033/cohort_selection/utils/filter_events.py:35-38 | Fails iff the column is missing or holds a non-date. Otherwise it drops exactly the dates outside `[Timestamp.min, Timestamp.max]` and keeps every other row, nulls included, with its multiplicity. |
| FilterEvents.WithSubCohort | cse_210033/cohort_selection/utils/filter_events.py:53-57 | Keeps every other column unchanged. `sub_cohort` is the first day of the month of `cohort_stay_start` when that is a date, and null otherwise. |
| FilterEvents.FilterDate | cse_210033/cohort_selection/utils/filter_events.py:41-64 | Fails iff `cohort_stay_start` is missing or holds a non-date. Otherwise it keeps exactly the rows with `start <= cohort_stay_start < end`, one output row per kept row, each with `sub_cohort` added. |
| FilterEvents.FilterDateSubCohort | cse_210033/cohort_selection/utils/filter_events.py:53-57 | `sub_cohort` is the first day of the stay's month: same year and month, and not after the stay. |
| FilterEvents.KeyLeTotal | cse_210033/cohort_selection/utils/filter_events.py:70 | The date order with nulls last is total. |
| FilterEvents.KeyLeTrans | cse_210033/cohort_selection/utils/filter_events.py:70 | The order is transitive. |
| FilterEvents.Insert | cse_210033/cohort_selection/utils/filter_events.py:70 | Insertion adds one row and loses none. |
| FilterEvents.InsertSorted | cse_210033/cohort_selection/utils/filter_events.py:70 | Insertion keeps a table sorted by date. |
| FilterEvents.SortByDate | cse_210033/cohort_selection/utils/filter_events.py:70 | `sort_values` returns a permutation sorted by date with nulls last. |
| FilterEvents.FirstNonNull | cse_210033/cohort_selection/utils/filter_events.py:71-72 | `first()` per column is null iff the whole column is null. Otherwise it is the value of a row of the group whose predecessors are all null in that column. |
| FilterEvents.SortedTail | cse_210033/cohort_selection/utils/filter_events.py:70 | The rest of a sorted table is sorted. |
| FilterEvents.SortedHead | cse_210033/cohort_selection/utils/filter_events.py:70 | The head of a sorted table has a date no later than any row's date. |
| FilterEvents.FirstDateIsEarliest | cse_210033/cohort_selection/utils/filter_events.py:69-73 | In a sorted table, any group's first non-null date is its earliest date. |
| FilterEvents.VisitKeys | cse_210033/cohort_selection/utils/filter_events.py:71 | The groupby keys are distinct, and they are exactly the non-null visit ids present. |
| FilterEvents.FilterFirstEvent | cse_210033/cohort_selection/utils/filter_events.py:67-74 | Fails iff the date or visit column is missing, or a date value is not a date. Otherwise it returns one row per non-null visit id with all the input's columns. |
| FilterEvents.VisitKeysPermutation | cse_210033/cohort_selection/utils/filter_events.py:70-71 | Sorting does not change which visits are grouped. |
| FilterEvents.VisitColumn | cse_210033/cohort_selection/utils/filter_events.py:71 | Entry `i` is the visit id of row `i`, with the length of the table. |
| FilterEvents.FirstRowOfVisit | cse_210033/cohort_selection/utils/filter_events.py:69-73 | A visit's output row has the visit's id and its earliest date. |
| FilterEvents.FirstEventPerVisit | cse_210033/cohort_selection/utils/filter_events.py:69-73 | Exactly one output row per visit present. That row's date is the minimum date among the visit's rows. |
| Dates.FirstOfMonth | cse_210033/cohort_selection/utils/filter_events.py:53-57 | Formatting as `%Y-%m` and parsing back gives day 1 of the same year and month, never after the date. |
| Strings.MonthDayOrder | cse_210033/cohort_selection/utils/add_events.py:23-26 | Comparing the zero-padded `"%m-%d"` strings is comparing (month, day) lexicographically. |
| Strings.NatToString | cse_210033/statistical_analysis/utils/supplementary_variables.py:28 | `str` of a natural number is a non-empty string of decimal digits. |
| Strings.IntToStringInjective | cse_210033/statistical_analysis/utils/supplementary_variables.py:28 | Distinct integers cast to distinct strings. |
| AddEvents.AgeIsBirthdaysReached | cse_210033/cohort_selection/utils/add_events.py:18-29 | The computed age is the number of birthdays reached by the date: the birthday of that age has passed and the next has not. |
| AddEvents.AgeOnBirthday | cse_210033/cohort_selection/utils/add_events.py:18-29 | On the anniversary, the age is the year difference. |
| AddEvents.AgeDayBeforeBirthday | cse_210033/cohort_selection/utils/add_events.py:18-29 | On the day before the anniversary, the age is one less. This includes the day before across a month end or a year end. |
| AddEvents.AgeNonNegative | cse_210033/cohort_selection/utils/add_events.py:18-29 | A stay on or after the birth date has a non-negative age. |
| AddEvents.AgeMonotone | cse_210033/cohort_selection/utils/add_events.py:18-29 | Age never decreases as the date advances. |
| AddEvents.AgeToday | cse_210033/cohort_selection/utils/add_events.py:32-48 | The age at death when a death date exists, otherwise the age at today's date. It is null iff the birth date is null. |
| AddEvents.WithAgeToday | cse_210033/cohort_selection/utils/add_events.py:8-10 | Writing `age_today` keeps every person row and changes only that column. |
| AddEvents.MergePatientsMember | cse_210033/cohort_selection/utils/add_events.py:11-14 | A merged row is exactly a visit paired with a person of the same `person_id`, carrying the age at the stay's start. |
| AddEvents.StayKeptIffPatientKnown | cse_210033/cohort_selection/utils/add_events.py:11 | A visit survives the inner merge iff its person is in the person table. |
| AddEvents.AgeAtStayNonNegative | cse_210033/cohort_selection/utils/add_events.py:12-14 | A stay starting after birth has a non-negative age at stay. |
| AddEvents.PersonFrame.constructor | cse_210033/cohort_selection/utils/add_events.py:6 | The person table holds the given rows. |
| AddEvents.AddPatientInfo | cse_210033/cohort_selection/utils/add_events.py:6-15 | Writes `age_today` into the caller's person table, keeping its set of persons. Returns the inner merge of the visits with the updated persons, with each stay's age. |
| SupplementaryVariables.CastToString | cse_210033/statistical_analysis/utils/supplementary_variables.py:28 | The cast keeps nulls null and strings unchanged. |
| SupplementaryVariables.SetColumn | cse_210033/statistical_analysis/utils/supplementary_variables.py:29-33 | Setting a column changes that column only. |
| SupplementaryVariables.CastCareSite | cse_210033/statistical_analysis/utils/supplementary_variables.py:28 | Every row has its `care_site_id` cast to a string and nothing else changed. |
| SupplementaryVariables.LabelAll | cse_210033/statistical_analysis/utils/supplementary_variables.py:29-33 | Every row gets `care_site_id = "All"`. |
| SupplementaryVariables.AddCareSite | cse_210033/statistical_analysis/utils/supplementary_variables.py:27-36 | Fails iff `care_site_id` is missing. Otherwise it returns exactly twice the rows: the originals with the id cast to string, then copies labelled "All", with every other column unchanged. |
| SupplementaryVariables.IntToStringNotAll | cse_210033/statistical_analysis/utils/supplementary_variables.py:28-33 | No integer id prints as "All". |
| SupplementaryVariables.CareSiteGroupsPreserved | cse_210033/statistical_analysis/utils/supplementary_variables.py:28-34 | Two stays share a cast care site iff they shared the integer one, and no cast row falls in the "All" group. |
| SupplementaryVariables.Relabel | cse_210033/statistical_analysis/utils/supplementary_variables.py:11-13 | Sets `MCD`, drops `CMD` and `CMD_code`, and leaves every other column alone. |
| SupplementaryVariables.AllCategories | cse_210033/statistical_analysis/utils/supplementary_variables.py:10-14 | One row per input row, labelled "00 ALL". |
| SupplementaryVariables.PerCategory | cse_210033/statistical_analysis/utils/supplementary_variables.py:15-22 | Each kept row is labelled `CMD_code + " " + CMD`. |
| SupplementaryVariables.AddMcd | cse_210033/statistical_analysis/utils/supplementary_variables.py:9-24 | Fails iff `CMD`/`CMD_code` is missing, or a code is not a string (string comparison). Otherwise it returns (per-MCD, all). The per-MCD part has one row per input row with `CMD_code <= "27"` and `sub_cohort >= 2016-01-01`, and every such row appears in it labelled `CMD_code + " " + CMD`; the all part keeps every row labelled "00 ALL". |
| SupplementaryVariables.PerCategoryInAll | cse_210033/statistical_analysis/utils/supplementary_variables.py:15-24 | Every per-MCD row comes from a kept input row, and its "00 ALL" version is in the second result. |

## Left out

- Time of day: dates are calendar days, and every comparison and difference is at day granularity. The study's columns are dates or midnight timestamps.
- Floating point: `error`, `c_0` and rates are exact reals. The `Int32` casts of counts cannot overflow on realistic tables and are not modelled.
- CompleteSource.QuantileOf: polars' quantile interpolation is a function parameter. Grid ordering is proved for any quantile that grows with `q`.
- Regular expressions are a `Search(pattern, text, ignoreCase)` parameter, because the regex engine is foreign code.
- KeyVariables.Buckets: polars `groupby_dynamic` week alignment is a `weekStart` parameter. A week with no stays produces no row, as in polars.
- KeyVariables.ComputeDurationAfterEvent: the output row order of polars' groupby is not specified by the library. The model emits first-appearance order and proves nothing about the order.
- KeyVariables.ThresholdLabel: thresholds are natural numbers of days. The float formatting of `before_{t}_days` for fractional thresholds is not modelled.
- KeyVariables.AsOf: when several events of a person share the earliest date, the model picks the first of them. polars picks one of them too, but not specified which. Only the date and visit id are used downstream.
- CompleteSource.FilterUnstableCsFromEventDf: `visit_col` is fixed to `visit_occurrence_id`, its default.
- FilterEvents.SortByDate: pandas' default sort is not stable. The model is a stable insertion sort. Only the date column of a first event is proved, and the date does not depend on tie order.
- FilterEvents.FilterFirstEvent: the row order of the groupby output is not stated.
- FilterEvents.FilterDiag: the pattern is annotated `List[str]` but used as a single pattern by `str.contains`, and is modelled as one. Renaming onto an existing `diag_type` column is assumed not to happen.
- FilterEvents.CleanDate: `astype("datetime64")` is the identity on values that are already dates. A dtype clash is reported per value (TypeMismatch), as is a non-date `cohort_stay_start` in FilterEvents.FilterDate.
- Column presence is a property of the whole table in `FilterEvents` and `CompleteSource`. In `KeyVariables` and `SupplementaryVariables` it is checked on every row of a sequence of records, so an empty cohort never reports a missing sensitivity column.
- AddEvents.AddPatientInfo: the visit table is modelled by the columns the function reads (`visit_cohort_id`, `person_id`, `cohort_stay_start`). Other columns are carried through by the merge and are not modelled. `person_id` is never null. Today's date is a parameter instead of the clock.
- The in-place column assignments of `filter_date` and `clean_date` act on a fresh filtered frame, not on the caller's, so they are functions here.
- The logging and `time.time()` calls are left out.
- The `catalogue` registry is replaced by the three-variant `KeyFunction` datatype.
- polars joins never match null keys (the default `join_nulls=False`). Groups with a null key disappear because of joins, not because of groupby: the inner join onto the stay counts in `compute_duration_after_event` (key_variables.py:92-97) drops them, and in `compute_condition_incidence` the left join finds no match for them (key_variables.py:199-201).
- `t_test` and `_compute_one_t_test` (statsmodels OLS), the figures, the scripts (Spark/Hive loading, files) and `cohort_selection.py`/`prepare_df.py` (ETL over external tables) are not part of this model.
- The diagonal concatenation's column union is not modelled: naive and CSO rows are one record type tagged with the analysis.
