# F1 warehouse and feature pipeline: a Dafny model

This project models the core of a Formula 1 data warehouse and its
feature-engineering script, and proves properties of the model. The parts
modelled are:

- **Dimension upserts** (`Dim_Updater.add_new_entries` with its drivers,
  constructors and races configurations). A candidate row is kept when its
  natural key is new. Kept rows are de-duplicated keep-first, numbered with
  contiguous surrogate ids above the table's maximum, and appended after
  the existing rows.
- **Older upserts** `add_new_drivers`, `add_new_constructors` and
  `add_new_races`. These filter against the table only and never within the
  batch. Races are filtered by season year.
- **Fact append** (`add_new_entries` at module level). It keeps only
  incoming rows whose `raceId` is not stored yet.
- **Total race times** (`calculate_total_times`). The leader keeps its time;
  every other row's gap is added to it.
- **Lap aggregates** (`update_laps`):
  - the fastest lap per (race, driver), as `idxmin`'s first minimum;
  - the laps driven, as the maximum lap number;
  - the fastest-lap rank within a race, by the "min" method.
- **Standings** (`update_standings`):
  - running points pooled over Race and Sprint rows;
  - running wins kept separately per event type;
  - only Race rows output, dense-ranked within their race;
  - constructor sums ranked the same way.
- **Feature columns** of `f1_data_preparation.py`:
  - day gaps between races, and the round-1 flag;
  - grid-to-finish movement and its signed split;
  - the per-circuit overtaking rate from earlier seasons;
  - the next-race (`_t1`) shift, and the top-k labels built from it;
  - teammate values;
  - per-driver expanding means.

Files and modules:

| file | module | contents |
|---|---|---|
| wrappers.dfy | Wrappers | `Option`, `Result` |
| seqs.dfy | Seqs | filtering, key sets, keep-first de-duplication |
| ranks.dfy | Ranks | "min" and dense ranks |
| dimension_upsert.dfy | DimensionUpsert | the generic upsert and its three configurations |
| race_schema.dfy | RaceSchema | the column labels of the races rows the upsert appends |
| legacy_upsert.dfy | LegacyUpsert | the older per-entity upserts |
| fact_append.dfy | FactAppend | the race-granular fact append |
| total_time.dfy | TotalTime | total race time reconstruction |
| lap_aggregates.dfy | LapAggregates | fastest lap, laps driven, lap rank |
| standings.dfy | Standings | driver and constructor standings |
| features.dfy | Features | the derived feature columns |

Modelling conventions:

- Tables are sequences of rows. A NaN from a left join, a shift or a
  missing time is `None`.
- Persisting a table is modelled by returning it.
- An exception is a `Failure` value.
- Pandas sorts are not modelled. Each operation takes its rows in the order
  the code has them at that point, and a lemma states what sortedness it
  needs when it needs any.
- Group-by outputs come out in order of first appearance, where pandas
  sorts them by key. This affects the row order of the fastest-lap,
  laps-driven and constructor tables. It does not affect their contents.

Behaviour worth knowing:

- **Dense rank.** `rank(method='dense')` turns points `[30, 30, 20, 10]`
  into positions `[1, 1, 2, 3]` (`Standings.StandingExample`).
- **"min" rank.** The "min" method skips ranks after a tie, so
  `[90000, 90000, 91000]` ranks `[1, 1, 3]` (`LapAggregates.RankExample`).
- **Sign of the movement split.** "Overtakes" is
  `results_position - grid` clipped at 0 from below. It is positive when a
  driver finishes worse than their grid slot. "Defense" is negative when
  they finish better.
- **First expanding mean.** The expanding mean includes the current row,
  so a driver's first race has its own value as its mean
  (`Features.FirstRowMean`).
- **Sprint timing.** The sort by (year, round) is stable, and Race rows are
  concatenated before Sprint rows. So a sprint's points enter the running
  points of the next round's race, not the race of its own weekend
  (`Standings.SprintTiming`).

## Model

| member | source | states |
|---|---|---|
| TotalTime.FirstLeader | my_functions/update_functions.py:48 | the first row whose Position is 1, with no Position-1 row before it; a sentinel when there is none |
| TotalTime.TotalOf | my_functions/update_functions.py:50 | a time equal to the leader's is kept; any other time comes back as the leader's time plus that gap; missing when either is missing |
| TotalTime.CalculateTotalTimes | my_functions/update_functions.py:48-51 | fails exactly when no row has Position 1; otherwise one total per row, all taken against the first leader's time |
| TotalTime.GapRecovery | my_functions/update_functions.py:48-51 | for a timed non-leader row, its total minus the leader's total is its gap |
| TotalTime.LeaderIsFastest | my_functions/update_functions.py:48-51 | with positive gaps no total is below the leader's |
| TotalTime.MissingLeaderTime | my_functions/update_functions.py:48-51 | a missing leader time makes every total missing |
| TotalTime.TotalTimeExample | my_functions/update_functions.py:48-51 | leader 5400000 ms and a 1200 ms gap give 5401200 ms; a missing time stays missing |
| FactAppend.AppendFacts | my_functions/update_functions.py:133-136 | stored rows form an unchanged prefix; each incoming row of a race not stored is appended as many times as it comes in, and no other row is; the appended rows are the incoming rows of new races in their incoming order |
| FactAppend.AppendFactsSplit | my_functions/update_functions.py:133-136 | appending `a + b` appends the new rows of `a` and then those of `b`: the incoming order is kept |
| FactAppend.AddNewEntries | my_functions/update_functions.py:119-141 | with nothing new the file, index included, is untouched; otherwise the rows are the append and an index column, when named, is renumbered 0..n-1 |
| FactAppend.IndexRenumbered | my_functions/update_functions.py:132-137 | after a non-empty append the stored ids survive exactly when they already were 0..n-1 |
| FactAppend.RenumberExample | my_functions/update_functions.py:132-137 | stored ids 1, 2 become 0, 1, 2 once one row of a new race is appended |
| FactAppend.AppendFactsNoOp | my_functions/update_functions.py:135-141 | the table is unchanged if and only if every incoming raceId is already stored |
| FactAppend.AppendFactsIdempotent | my_functions/update_functions.py:133-141 | a second identical append changes nothing |
| DimensionUpsert.MissingColumns | my_functions/update_functions.py:177 | lists exactly the required columns that are absent |
| DimensionUpsert.NoneMissing | my_functions/update_functions.py:177-178 | with every required column present nothing is reported missing |
| DimensionUpsert.MaxId | my_functions/update_functions.py:196-197 | the largest id is attained and bounds every id |
| DimensionUpsert.Upsert | my_functions/update_functions.py:176-207 | a missing required column fails first, naming exactly the missing columns; the only other failure is new rows with an empty table; on success the table is an unchanged prefix |
| DimensionUpsert.UpsertFreshIds | my_functions/update_functions.py:196-197 | appended ids are max+1, max+2, ... in order, and each is above every existing id |
| DimensionUpsert.UpsertNoDuplicateKeys | my_functions/update_functions.py:186-190 | no appended natural key was in the table, and no two appended rows share one |
| DimensionUpsert.UpsertCoversBatch | my_functions/update_functions.py:186-198 | after a successful upsert every candidate's natural key is in the table |
| DimensionUpsert.WithoutKeysThenKeepFirst | my_functions/update_functions.py:186-190 | dropping existing keys and then de-duplicating is keep-first de-duplication with the existing keys counted as seen |
| DimensionUpsert.AppendedAreFirstNewOccurrences | my_functions/update_functions.py:186-190 | the appended rows are exactly the candidates whose key is neither in the table nor on an earlier candidate, in input order |
| DimensionUpsert.UpsertNoOp | my_functions/update_functions.py:192-194 | with all columns present and no new key, the table is returned unchanged |
| DimensionUpsert.UpsertIdempotent | my_functions/update_functions.py:192-194 | re-running the same batch against the updated table is a no-op |
| DimensionUpsert.UpsertPreservesUniqueness | my_functions/update_functions.py:186-198 | unique natural keys and unique ids stay unique |
| DimensionUpsert.UpdateDrivers | my_functions/update_functions.py:212-228 | a missing DriverId is a schema error naming it; on success every candidate's driverRef is in the table and the old table is a prefix |
| DimensionUpsert.UpdateConstructors | my_functions/update_functions.py:230-246 | a missing TeamId is a schema error naming it; on success every candidate's constructorRef is in the table and the old table is a prefix |
| RaceSchema.ProjectHas | my_functions/update_functions.py:183-184 | a required column with a cell appears in the projection under its new label |
| RaceSchema.ProjectWithin | my_functions/update_functions.py:183-184 | the projection holds no label other than the new labels of the required columns |
| RaceSchema.ProjectValue | my_functions/update_functions.py:183-184 | a required column whose new label no other required column shares keeps its value |
| RaceSchema.AsWrittenLosesDateAndCircuit | my_functions/update_functions.py:258-266 | as written, an appended race has no `date` and no `circuitId` cell and brings the new columns `EventDate` and `CircuitId` |
| RaceSchema.CorrectedFillsStoredColumns | my_functions/update_functions.py:258-266 | with `date` selected and `Circuit_ShortName` renamed to `circuitId`, an appended race has a cell in every stored races column and in no other |
| RaceSchema.CorrectedKeepsDateAndCircuit | my_functions/update_functions.py:258-266 | with the corrected labels, `date` and `circuitId` hold the schedule's date and circuit short name |
| DimensionUpsert.UpdateRaces | my_functions/update_functions.py:248-267 | a missing EventDate fails at the year derivation, before the column check; a missing RoundNumber is a schema error; on success every candidate's (year, round) is in the table |
| Seqs.KeepFirst | my_functions/update_functions.py:190 | keeps rows of unseen keys only, at most one per key, and covers every unseen key |
| Seqs.KeepFirstMatchesReference | my_functions/update_functions.py:190 | the keep-first filter equals an independent first-occurrence definition |
| Seqs.WithoutKeys | my_functions/update_functions.py:189 | keeps exactly the rows whose key is not among the existing keys |
| Seqs.WithoutKeysConcat | my_functions/update_functions.py:135 | dropping rows by key distributes over concatenation, so the kept rows stay in order |
| Seqs.WithoutKeysSingle | my_functions/update_functions.py:135 | a single row is kept exactly when its key is not among the existing keys |
| LegacyUpsert.AppendSurvivors | f1_data_retriever.py:89-110 | no survivors returns the table; otherwise an absent projected column is a KeyError, an empty table has no id to count from, and survivors are appended in order with ids from max+1 |
| LegacyUpsert.AddNewDrivers | f1_data_retriever.py:79-116 | a missing DriverId is a ValueError; nothing new returns the table; appended rows are the candidates with unknown refs, repetitions kept; afterwards every candidate ref is present |
| LegacyUpsert.AddNewConstructors | f1_data_retriever.py:129-163 | the same for TeamId and constructorRef |
| LegacyUpsert.AddNewRaces | f1_data_retriever.py:176-214 | a missing RoundNumber is a ValueError and a missing EventDate a KeyError; a known season blocks all its candidates; afterwards every candidate's year is present |
| LegacyUpsert.DriversFreshIds | f1_data_retriever.py:107 | appended driver ids are max+1, max+2, ... in input order |
| LegacyUpsert.ConstructorsFreshIds | f1_data_retriever.py:154 | appended constructor ids are max+1, max+2, ... in input order |
| LegacyUpsert.RacesFreshIds | f1_data_retriever.py:205 | appended race ids are max+1, max+2, ... in input order |
| LegacyUpsert.LegacyRacesInOrder | f1_data_retriever.py:183-208 | the appended races are the candidates of unseen seasons, in input order |
| LegacyUpsert.RepeatedNewDriverGetsTwoIds | f1_data_retriever.py:86-107 | a new ref listed twice is appended twice, with ids max+1 and max+2 |
| LegacyUpsert.AddNewDriversIdempotent | f1_data_retriever.py:86-91 | a second identical call returns the same table |
| LegacyUpsert.AddNewConstructorsIdempotent | f1_data_retriever.py:136-141 | a second identical call returns the same table |
| LegacyUpsert.AddNewRacesIdempotent | f1_data_retriever.py:183-191 | a second identical call returns the same table |
| Ranks.MinRank | my_functions/update_functions.py:311 | a "min" rank is at least 1 |
| Ranks.MinRankWithinGroup | my_functions/update_functions.py:311 | the "min" rank of a present value is at most the group size |
| Ranks.MinRankGap | my_functions/update_functions.py:311 | a strictly smaller present value ranks strictly better |
| Ranks.MinRankExample | my_functions/update_functions.py:311 | [90000, 90000, 91000] ranks 1, 1, 3 |
| Ranks.DenseRankDesc | my_functions/update_functions.py:414 | a dense rank is at least 1 |
| Ranks.DenseRankStrict | my_functions/update_functions.py:414 | more points rank strictly better |
| Ranks.DenseRankNoGap | my_functions/update_functions.py:414 | a rank above 1 has a present value ranked exactly one better |
| Ranks.DenseRankContiguous | my_functions/update_functions.py:414 | every rank from 1 to a present value's rank is taken by some present value |
| Ranks.DenseRankExample | my_functions/update_functions.py:414 | [30, 30, 20, 10] ranks 1, 1, 2, 3 |
| LapAggregates.Timed | my_functions/update_functions.py:288-299 | keeps exactly the laps with a time and with both joins found |
| LapAggregates.TimedConcat | my_functions/update_functions.py:298 | dropping untimed laps distributes over concatenation, so the kept laps stay in their input order |
| LapAggregates.TimedSingle | my_functions/update_functions.py:298 | a single lap is kept, in timed form, exactly when it has a time and both join keys |
| LapAggregates.GroupKeys | my_functions/update_functions.py:300 | each (raceId, driverId) group once, and exactly the groups that occur |
| LapAggregates.FastestFrom | my_functions/update_functions.py:300 | the first row of the group with the least time from a start index, or a sentinel when the group has none there |
| LapAggregates.FastestOf | my_functions/update_functions.py:300 | idxmin: a row of the group whose time is least, and no earlier row of the group ties it |
| LapAggregates.LongestFrom | my_functions/update_functions.py:308 | a row of the group with the largest lap number from a start index, or a sentinel |
| LapAggregates.LongestOf | my_functions/update_functions.py:308 | a row of the group whose lap number is the group's maximum |
| LapAggregates.FastestRows | my_functions/update_functions.py:300 | one row per group, covering every group, each a timed lap no slower than any lap of its group, and on a tie the group's first fastest row |
| LapAggregates.FastestLaps | my_functions/update_functions.py:299-311 | the fastest-lap table: one row per (raceId, driverId); row i is the fastest row of group i, the group's first lap with the least time; its rank is one plus the number of strictly faster fastest laps in its race |
| LapAggregates.RankWithinRace | my_functions/update_functions.py:311 | each fastest lap's rank is one plus the number of strictly faster fastest laps in its race |
| LapAggregates.FastestLapIsMinimum | my_functions/update_functions.py:299-300 | no usable lap of the same driver and race is faster than the reported fastest lap |
| LapAggregates.FastestLapsCoverUsable | my_functions/update_functions.py:299-300 | every driver with a usable lap in a race has a fastest-lap row for it |
| LapAggregates.RankOrder | my_functions/update_functions.py:311 | within a race equal times share a rank and a faster time ranks strictly better |
| LapAggregates.RankExample | my_functions/update_functions.py:311 | two laps tied at 90000 ms and one at 91000 ms rank 1, 1, 3 |
| LapAggregates.LapsDrivenOf | my_functions/update_functions.py:308 | one row per group, covering every group; the count is a lap number of the group and no lap of the group is higher |
| LapAggregates.LapsDrivenTable | my_functions/update_functions.py:299-308 | the laps-driven table: one row per (raceId, driverId), a row for every usable lap's group, each count the number of a usable lap of that group |
| LapAggregates.LapsDrivenIsMaximum | my_functions/update_functions.py:299-308 | no usable lap of the group has a number above the laps-driven count |
| LapAggregates.LapsDrivenAttained | my_functions/update_functions.py:299-308 | the laps-driven count is the number of some usable lap of the group |
| Standings.Win | my_functions/update_functions.py:391-392 | win is 1 exactly when positionOrder is 1, else 0 |
| Standings.LookupSlot | my_functions/update_functions.py:398 | a race's season and round come from a races row with that id; missing exactly when no row has it |
| Standings.RacePoints | my_functions/update_functions.py:414 | the points of exactly one race's rows |
| Standings.DenseRanked | my_functions/update_functions.py:414 | each row's position is one plus the number of distinct point values above it in its race; other fields are copied |
| Standings.DriverStandings | my_functions/update_functions.py:391-414 | fails exactly when a Race row's race is unknown; otherwise one row per Race row with its running points and wins, placed by the dense rank of its points among the race's driver totals |
| Standings.GroupSums | my_functions/update_functions.py:417 | one row per (raceId, constructorId), covering exactly the keys present, each holding its key's point and win sums |
| Standings.ConstructorStandings | my_functions/update_functions.py:417-419 | fails exactly when a Race row's race is unknown; otherwise one row per (raceId, constructorId) pair of the Race rows and no other row, each holding the sums of its drivers' totals and placed by the dense rank of its sum among the race's constructor sums |
| Standings.GroupedStandings | my_functions/update_functions.py:417-419 | one standing per key of the totals, each key once and no other key, holding the key's point and win sums, placed by the dense rank of its sum within its race |
| Standings.LaterEventsIgnored | my_functions/update_functions.py:401-405 | appending results from the same or later rounds leaves a row's running points and wins unchanged |
| Standings.EarlierEventCounted | my_functions/update_functions.py:401-404 | appending a result from an earlier round of the season adds its points to the running total |
| Standings.SprintTiming | my_functions/update_functions.py:397-404 | a sprint of the same round leaves a race's running points unchanged; a sprint of an earlier round adds its points |
| Standings.SprintWinsIgnored | my_functions/update_functions.py:405-408 | sprint rows never change a Race row's running wins |
| Standings.PointsGrow | my_functions/update_functions.py:404 | with non-negative points a driver's running points never fall within a season |
| Standings.StandingOrder | my_functions/update_functions.py:414 | within a race equal points share a position, and more points means a better position, and conversely |
| Standings.StandingExample | my_functions/update_functions.py:414 | 30, 30, 20, 10 points are placed 1, 1, 2, 3 |
| Standings.DriverPositions | my_functions/update_functions.py:414 | the position order of the driver table agrees with its points order |
| Standings.ConstructorPositions | my_functions/update_functions.py:419 | the position order of the constructor table agrees with its points order |
| Standings.GroupSumsConserve | my_functions/update_functions.py:417 | the constructor sums add up to the driver totals they come from |
| Features.DateDiff | f1_data_preparation.py:32-33 | missing for the first race only; otherwise the previous race's day plus the gap is this race's day |
| Features.IsRound1 | f1_data_preparation.py:34 | 1 exactly for round 1, else 0 |
| Features.GapsTelescope | f1_data_preparation.py:33 | the gaps add up to the span from the first race to the last |
| Features.GridEndDiff | f1_data_preparation.py:62 | the absolute difference of finishing position and grid slot, never negative |
| Features.Overtakes | f1_data_preparation.py:104 | position minus grid clipped below at 0 |
| Features.Defense | f1_data_preparation.py:105 | position minus grid clipped above at 0, never positive |
| Features.MovementSplit | f1_data_preparation.py:62-105 | the two halves sum to position minus grid, their difference is grid_end_diff, and one of them is 0 |
| Features.PriorMean | f1_data_preparation.py:67-75 | missing exactly when no earlier-season row at the circuit exists; otherwise the non-negative mean of their grid_end_diff |
| Features.RateIgnoresLaterSeasons | f1_data_preparation.py:67-75 | inserting rows of season y or later anywhere in the table leaves the season-y rate unchanged |
| Features.NoRateWithoutHistory | f1_data_preparation.py:67-72 | without an earlier-season row at the circuit no row is counted |
| Features.EarliestSeasonHasNoRate | f1_data_preparation.py:67-75 | rows of the earliest season have no rate |
| Features.RateExample | f1_data_preparation.py:67-75 | earlier movements of 2 and 5 give 3.5, and the first season has none |
| Features.NextFrom | f1_data_preparation.py:84-85 | the first row of the driver from a start index, or none |
| Features.NextOfDriver | f1_data_preparation.py:84-85 | the driver's next row after this one, or none after their last row |
| Features.NextIsAdjacent | f1_data_preparation.py:78-85 | in rows sorted by driver the next row of the driver is the adjacent row, when it belongs to that driver |
| Features.TopLabel | f1_data_preparation.py:92-101 | 1 exactly when the next finishing position is present and at most k |
| Features.TopLabelMonotone | f1_data_preparation.py:92-101 | a top-k finish is a finish in every wider top |
| Features.DiffGridStanding | f1_data_preparation.py:89 | missing when either side is; otherwise the standing plus the difference is the next grid slot |
| Features.Shifted | f1_data_preparation.py:84-101 | the _t1 columns are the next row's grid, position and rate, all missing after the driver's last row; the labels and the standing difference are built from them |
| Features.LastRowLabels | f1_data_preparation.py:84-101 | a driver's last row has no next grid, no standing difference and all labels 0 |
| Features.LabelsOfNextFinish | f1_data_preparation.py:92-101 | a next-race win sets all three labels; fourth place or worse sets none |
| Features.TeammateValue | f1_data_preparation.py:108-109 | missing exactly when the row's own value is; otherwise own value plus teammate value is the group sum |
| Features.TwoCarTeam | f1_data_preparation.py:108-109 | in a two-car team each driver's teammate value is the other driver's value |
| Features.NoTeammate | f1_data_preparation.py:108-109 | a driver alone in the group gets 0 |
| Features.TeammatesStanding | f1_data_preparation.py:108-109 | missing exactly when the row's own standing is; otherwise it plus the own standing is the (constructorId, raceId) group's standing sum |
| Features.TwoCarStanding | f1_data_preparation.py:108-109 | in a two-car team with both standings known, the teammate standing is the other driver's standing |
| Features.TeammatesMean | f1_data_preparation.py:121-128 | the teammate mean plus the row's own mean is the group sum |
| Features.DriverCount | f1_data_preparation.py:115-119 | a row's expanding window holds at least the row itself |
| Features.ExpandingMean | f1_data_preparation.py:115-119 | the mean times the number of the driver's rows up to this one is their sum |
| Features.MeanSigns | f1_data_preparation.py:119-126 | the takeover mean is never negative and the defense mean never positive |
| Features.MeanIgnoresLaterRows | f1_data_preparation.py:115-126 | rows placed after a row in the (driverId, raceId) order do not change its expanding mean |
| Features.FirstRowMean | f1_data_preparation.py:115-119 | a driver's first row has its own value as its mean |

## Left out

- DimensionUpsert.UpdateRaces: appends races in the stored labels `date` and `circuitId`. The code as written labels them `EventDate` and `CircuitId`, so its appended races are NaN in `date` and `circuitId` (see Findings and `RaceSchema`).
- fastf1 retrieval (`ff1_retriever`, `enable_cache`, `extract_important_info`, session loading): network and foreign-library calls. The model starts from the retrieved rows.
- CSV reading and writing, `get_paths`, `load_dimension_tables` and logging. Each persisted table is the returned value, with the fact file's optional index column modelled by `FactAppend.FactFile`; warnings have no effect on the result.
- The wiring scripts (`f1_standings_update.py`, `f1_data_update.py`, `f1_sprint_update.py`, `f1_result_update.py`, `f1_qualifying_update.py`) and lines 216-292 of `f1_data_retriever.py`. They only chain the modelled functions.
- `update_results` and `update_qualifying`: merges and renames with no logic of their own.
- The merges, renames and sorts around each modelled step. The model takes each step's rows in the order the code has them at that point.
- Standings.DriverStandings: emits the Race rows in the order given. The code's sort by (year, round) leaves the driver table in that order; the model's running totals follow that order through the Counts predicate, but the output rows are not reordered.
- LapAggregates.Lap: the lap number is always present. The code's `int64` cast of the lap column raises on a missing lap number; that error path is not modelled.
- Dates, times and lap times are whole days and milliseconds. The float conversion `int(x * 1000)` is not modelled.
- LapAggregates.RankWithinRace: ranks on milliseconds where the code ranks the `m:ss.sss` text. The two orders agree while every lap is under ten minutes; longer laps are not modelled.
- Points are integers, so half points are not modelled. Ranks are taken over integers.
- Standings.LookupSlot: takes the first races row with a given raceId. A races table with a repeated raceId, which a left merge would duplicate rows for, is not modelled.
- Standings.DriverStandings: an unknown race on a Race row is a single `UnknownRace` failure, where pandas raises on the integer cast of its NaN rank.
- Dimension tables whose natural-key cells are NaN, which the code drops before comparing, are not modelled.
- The `quarter` column (`pd.qcut`) and the average lap time merge of `f1_data_preparation.py`: outside the modelled lines.
- Features.ExpandingMean: the `fillna(0)` after the mean is not modelled, because the mean of a row whose driver is present is never missing.
- Features.TeammateValue: teammate values are over reals; standings positions are converted to reals as pandas does once a column holds NaN.

## Findings

| source | as written | input that shows it | evidently intended | confidence | as-written member | corrected member |
|---|---|---|---|---|---|---|
| my_functions/update_functions.py:258-266 | `update_races` selects `EventDate` (not the `date` it derives at line 259) and renames `Circuit_ShortName` to `CircuitId`, while the races table and `f1_data_preparation.py` (lines 29 and 69) use `date` and `circuitId` | any schedule row with all fields present: after `pd.concat` the appended race is NaN in `date` and `circuitId`, and the table gains `EventDate` and `CircuitId` columns | select `date` and rename `Circuit_ShortName` to `circuitId`, as the older `add_new_races` renames `EventDate` to `date` | medium (not executed) | RaceSchema.AsWrittenLosesDateAndCircuit | RaceSchema.CorrectedFillsStoredColumns |
