# A model of the gridlens bitemporal lake

gridlens keeps every version of every settlement period of electricity generation it has been told
about. Bronze only grows. Silver turns versions into half-open intervals of belief, gold nets and sums
them exactly, and a nightly audit rebuilds last month and compares it with production row for row. This
project models that chain, and the clocks, parsers and limiter that feed it, and proves what it promises.

Units: instants are integer microseconds, quantities are thousandths of a MW, energies are millionths of
a MWh, dates are day ordinals. A table is a sequence of rows; where row order must not matter, that is a
theorem. A zone is a standard offset plus any choice of summer days, switching at 01:00 UTC, so every
statement about settlement days holds for every such calendar and not for one set of transition dates.

| file | models |
|---|---|
| `Prelude.dfy` | selection, grouping and sums over tables, comparison of tables |
| `TimeAxis.dfy`, `Calendar.dfy` | wall-clock readings, settlement days, period arithmetic, last month |
| `Records.dfy` | rows, keys and the record contract |
| `Bronze.dfy` | the `MERGE` and `merge_batch` (class `Lake`) |
| `Refinement.dfy`, `Runs.dfy` | bronze against the log of everything staged, over whole histories with retries |
| `Silver.dfy`, `Gold.dfy` | version intervals, as-of reads, netting, daily energy and shares |
| `Marts.dfy`, `Reversal.dfy` | what the whole build publishes, in terms of bronze's rows; storage published either way |
| `Restatement.dfy` | the clock check, the restated build and the comparison |
| `Backfill.dfy`, `Refetch.dfy` | the day loop, crashes and reruns, the daily schedule |
| `EntsoeParse.dfy`, `Gate.dfy`, `RteParse.dfy` | positions to instants, the three-way split, the RTE grid |
| `RateLimit.dfy` | the token bucket over whole runs (class `TokenBucket`) |

What the code needs of its inputs is stated as a named predicate: `InWindow` (staged periods lie in the
merge window), `IsBatch` (one `known_at`, one row per series and period), `Agrees` (two fetches sharing a
`known_at` are the same fetch). For a parsed document the first two are checkable on its series: `PublishedIn`
(every series publishes inside the window asked for, `PlacedRows`, `PublishedDaysPlaced`) and `NoOverlap` (Periods
of one flow do not overlap, `AcceptedIsBatch`).

Where a documented promise does not hold of the code as it stands, the exact condition is proved, and a lemma
exhibits an input at which it fails, one the code accepts wherever such an input can reach it:

- A rerun of a batch straight after it inserts nothing exactly when every staged row lies in the window; the rows
  the window misses are inserted again, all of them (`MergeIdempotent`, `OutsideWindowReinserts`), and nothing refuses
  a document about another day (`StrayAnswerAccepted`). At any later
  point a rerun inserts nothing exactly when each staged row, besides lying in the window, is held under its identity
  or repeats the newest version (`MergeInsertsNothingExact`, `ReplayInsertsNothingExact`); a fetch that was suppressed
  as unchanged and is replayed after a revision does insert (`LateRetryMayInsert`).
- Two consecutive versions never say the same under fetches in `known_at` order (`ForwardRunsRecordOnlyChanges`). In
  any order that survives a merge exactly when each inserted row differs from both its neighbours
  (`MergeRecordsChangesExact`), which the late replay does not (`LateRetryRepeats`).
- Identities stay unique exactly when no two rows a merge inserts share one, and its window misses none already
  held (`MergeKeepsHistory`, and over whole runs `RunUniqueExact`). A TimeSeries that gives an hour twice, in two
  Periods, breaks it (`OverlappingPeriodsRepeat`).
- Bronze answers as the log does after merges in arbitrary `known_at` order exactly when each staged row passes
  `Harmless` (`MergeRefinesExactly`, `RunRefinesExactly`). That test reads the full log. It fails for a value
  backdated to before a fetch that was suppressed as unchanged, and no look at bronze alone can tell: two histories
  with the same bronze differ in it (`BronzeCannotTell`). Merging in `known_at` order passes
  whenever fetches that share a `known_at` agree (`AdmissibleIsHarmless`).
- `daily_energy_matches_period_energy` compares a sum of rounded energies with a rounded sum. It passes exactly
  when, on every day, the numbers of types rounded up and rounded down differ by at most one
  (`DailyEnergyTestExact`); a kilowatt for a minute, of each of two types, fails it (`SmallRowsFailDailyTest`). At
  resolutions that are multiples of three minutes nothing is rounded (`DailyEnergyExact`, `DailyEnergyTestPasses`).
- `net_is_one_row_per_type_and_period` depends on one resolution per type and period (`NetGrainExact`); storage
  published by the quarter hour one way and by the hour the other fails it (`MixedStorageFailsGrainTest`).
- An RTE value off the grid, or sharing a start, is neither recorded nor reported (`NothingLostExact`,
  `StrayValuesLost`).
- Equal counts and an empty `EXCEPT` both ways mean equality of tables exactly against a table that repeats no row or
  holds one row only (`IdenticalIsNotEquality`, `RepeatOverlooked`). The clock check compares a table with what it
  grew into, and there they mean that the same rows are selected, in the same places and as often, even where bronze
  repeats an identity (`ClocksAgreeExact`): the pair they overlook cannot reach it.
- The versions table depends on the order of bronze's rows exactly when two different rows share an identity
  (`OrderMattersExact`), as `OverlappingPeriodsRepeat` makes them.
- A backfill rerun adds nothing exactly when every accepted row is of the day asked for (`CrashSafe`,
  `StrayAnswerAccepted`).
- An accepted RTE row carries its value's span exactly when that is a whole number of minutes (`ResolutionExact`); a
  value of 90 seconds is accepted as one of a minute (`OddSpanAccepted`). The ENTSO-E path refuses an odd resolution.
- The settlement-day guard would fire for a zone that switches at its own midnight, such as the Azores
  (`MidnightGuardExact`, `MidnightSkipped`), and a reading with `fold=1` passes it even when doubled
  (`FoldedReadingPasses`, `DoubledReadingPasses`).

## Model

| member | source | states |
|---|---|---|
| Bronze.Newest | src/gridlens/lake/bronze.py:61-72 | the version picked is one of the key's rows and no row of the key is known later; none is picked only when the key has no row |
| Bronze.Lake.Index | src/gridlens/lake/bronze.py:58-93 | one pass over the table yields exactly the newest version of every series and period in the window, and exactly the identities the insert is matched against |
| Bronze.Lake.MergeRows | src/gridlens/lake/bronze.py:55-96 | the imperative statement leaves the table the merge specification describes |
| Bronze.Lake.MergeBatch | src/gridlens/lake/bronze.py:108-165 | succeeds exactly on a batch id of letters and digits, UTC bounds, a nonempty window and a query that completes; each error is reported exactly in its own case, in the order checked, and leaves the table untouched |
| Bronze.WindowPushdown | src/gridlens/lake/bronze.py:69-93 | for rows staged inside the window, bounding both lookups by it changes nothing |
| Bronze.OutsideWindowReinserts | src/gridlens/lake/bronze.py:82-95 | running a batch of one `known_at` again appends exactly the staged rows its window misses |
| Bronze.MergeKeepsHistory | src/gridlens/lake/bronze.py:50-54 | old rows are never changed, moved or lost; no bitemporal identity appears twice afterwards if and only if none did before, no two inserted rows share one, and the window misses no identity already held |
| Bronze.MergeIdempotent | src/gridlens/lake/bronze.py:120-120 | running a batch again straight away inserts nothing if and only if every staged row lies in its window |
| Bronze.MergeInsertsNothingExact | src/gridlens/lake/bronze.py:46-54 | on any table a merge inserts nothing if and only if each staged row lies in the window and is held under its identity or repeats the newest version |
| Bronze.MergesElsewhereUnseen | src/gridlens/lake/bronze.py:70-71 | rows of other windows cannot influence what a merge sees |
| Refinement.NewestIsLastLogged | src/gridlens/lake/bronze.py:65-68 | in a log running forward in `known_at`, newest-first ranking picks the last row written |
| Refinement.BelievedConcat | src/gridlens/lake/bronze.py:94-95 | appending rows of one `known_at` changes an as-of answer only from that instant on, and only where nothing newer is visible |
| Refinement.MergeRefinesExactly | src/gridlens/lake/bronze.py:58-94 | one merge, in any `known_at` order, keeps bronze's answers equal to the undeduplicated log's if and only if every staged row passes a test on the state before it |
| Runs.RunUniqueExact | src/gridlens/lake/bronze.py:50-54 | over any run of merges, in any order, no identity appears twice if and only if every merge inserts uniquely into what it finds |
| Runs.RunUnique | src/gridlens/lake/bronze.py:82-94 | so fetches with one row per series and period, placed in their windows, never put an identity in twice, whatever their order or repetition |
| Runs.RunRefinesExactly | src/gridlens/lake/bronze.py:58-94 | over any run in any order, bronze keeps the log's answers after every step if and only if every staged row passes the test on the state its step finds |
| Runs.LogRefinement | src/gridlens/lake/bronze.py:58-94 | over every history of fetches in nondecreasing `known_at`, with retries of any of them at any point, every as-of answer from bronze is the full log's |
| Runs.BronzeCannotTell | src/gridlens/lake/bronze.py:82-84 | a backdated value makes bronze and the log disagree after one history and not after another that left the same bronze |
| Runs.ForwardRunsReadTheLastRow | src/gridlens/lake/bronze.py:58-94 | without retries that answer is the last logged row of the series and period with `known_at <= t` |
| Runs.RunsOnlyAppend | src/gridlens/lake/bronze.py:50-54 | bronze after any part of a history is a prefix of bronze after all of it |
| Runs.LateRetryInvisible | src/gridlens/lake/bronze.py:82-94 | replaying an old batch after newer revisions have landed changes no as-of answer at any instant |
| Runs.ReplayInsertsNothingExact | src/gridlens/lake/bronze.py:120-120 | merging a step of a run again, after whatever came later, inserts nothing if and only if each of its rows is held by then or repeats the newest version |
| Runs.LateRetryMayInsert | src/gridlens/lake/bronze.py:82-94 | a history in which that fails: a fetch suppressed as unchanged, replayed after a revision, appends a row |
| Runs.ForwardRunsRecordOnlyChanges | src/gridlens/lake/bronze.py:46-50 | under fetches in `known_at` order two consecutive versions of a period never carry the same quantity and source stamp |
| Runs.MergeRecordsChangesExact | src/gridlens/lake/bronze.py:46-50 | a merge at any `known_at` keeps that so if and only if each row it inserts differs from the version before it and the one after |
| Runs.LateRetryRepeats | src/gridlens/lake/bronze.py:82-94 | the late replay's row does not |
| Silver.EmptyIntervalsExact | transform/tests/no_empty_version_intervals.sql:1-15 | no version is believed for zero time if and only if no identity appears twice in bronze |
| Silver.LeadIsNextKnown | transform/models/silver/generation_versions.sql:41-44 | for unique identities the window function's answer depends only on which rows exist |
| Silver.KnownIsNewest | transform/macros/bitemporal.sql:15-17 | a version satisfies the as-of predicate at t exactly when it is the newest known by t |
| Silver.IntervalsTile | transform/models/silver/generation_versions.sql:41-52 | the intervals of a period tile the `known_at` axis: the predicate finds one version, the one newest-first ranking picks, or none when nothing was known |
| Silver.SilverReadsTheLog | transform/models/silver/generation_versions.sql:11-18 | read through silver at any instant, bronze after any orderly history gives the log's value, once |
| Silver.RestatingIsReading | transform/models/staging/stg_generation.sql:45-52 | current rows rebuilt from bronze bounded at t are, row for row, the as-of read of the full table at t |
| Silver.LaterAppendsUnseen | transform/models/staging/stg_generation.sql:34-44 | an as-of read is unaffected by any later append with a newer `known_at`, whatever its rows and whatever is held |
| Silver.VersionsWithin | transform/models/silver/generation_versions.sql:41-46 | cutting to a `valid_time` window commutes with deriving intervals |
| Silver.VersionsSame | transform/models/silver/generation_versions.sql:11-18 | two versions tables hold the same rows if and only if their bronze tables do, in whatever order |
| Silver.OrderMattersExact | transform/models/silver/generation_versions.sql:41-44 | reordering bronze can change the versions table if and only if two different rows share an identity |
| Prelude.SumAnyOrder | transform/models/gold/daily_generation_mix.sql:16-22 | a sum is the same however its rows are ordered among workers |
| Prelude.GroupSumSame | transform/models/gold/period_generation_net.sql:29-37 | a grouped sum of the same duplicate-free rows is the same table |
| Prelude.GroupPushdown | transform/models/gold/period_generation_net.sql:29-37 | a filter on whole groups may be applied before or after grouping |
| Gold.EnergyExact | transform/models/gold/daily_generation_mix.sql:23-39 | dividing by 60 at scale six has one nearest answer however halves are treated, at most a third of a unit out, and exact if and only if the MW minutes are a multiple of three |
| Gold.DailyEnergyExact | transform/models/gold/daily_generation_mix.sql:23-39 | when every resolution is a multiple of three minutes no daily energy is rounded: any division less than a unit out gives the exact quotient |
| Gold.PeriodNetExact | transform/models/gold/period_generation_net.sql:21-37 | each zone, instant, type and resolution with a current row nets to one row, power generated less power consumed, each current row once; others to none |
| Gold.TypeEnergyExact | transform/models/gold/daily_generation_mix.sql:32-43 | the energy of one zone, day and production type is that of its own current rows, power times minutes, generated less consumed, each once: the nearest quotient, exact whenever it can be. There is one such row where there is any current row and none elsewhere |
| Gold.DayConserves | transform/models/gold/period_generation_net.sql:9-14 | a day's MW minutes over all types are those its current rows generated less those they consumed, each row counted once |
| Gold.DayEnergyConserves | transform/models/gold/daily_generation_mix.sql:23-39 | where nothing is rounded the published energies of a day add up to exactly that, in MWh |
| Gold.DailyEnergyTestExact | transform/tests/daily_energy_matches_period_energy.sql:8-32 | the two queries agree on every day they join if and only if on each day the types rounded up and down differ in number by at most one |
| Gold.DailyEnergyTestPasses | transform/tests/daily_energy_matches_period_energy.sql:5-6 | at resolutions that are multiples of three minutes the test passes |
| Gold.SmallRowsFailDailyTest | transform/tests/daily_energy_matches_period_energy.sql:8-32 | two records the contract accepts, at which it fails |
| Gold.ShareDefined | transform/models/gold/daily_generation_mix.sql:63-69 | a share exists exactly for positive energies, over a gross at least as large |
| Gold.SharesSumToOne | transform/tests/shares_sum_to_one_per_day.sql:1-13 | the shares of a day with any positive type have one positive divisor and numerators adding up to it |
| Gold.GrossExact | transform/models/gold/daily_generation_mix.sql:45-54 | the gross on every row is the sum of its zone and day's positive published energies, and null without any |
| Marts.CurrentIsNewest | transform/models/silver/generation_current.sql:9-10 | the current table is the newest version of every series and period, each once (`NewestOnce`) |
| Marts.BuildEnergyExact | transform/models/gold/daily_generation_mix.sql:32-43 | the energy the whole build publishes for a zone, settlement day and type is that of the newest bronze version of each of its periods, generation less consumption, each period once |
| Marts.BuildNetExact | transform/models/gold/period_generation_net.sql:21-37 | so is the net power of every period |
| Marts.BuildDayConserves | transform/models/gold/period_generation_net.sql:9-19 | over all types a day's MW minutes are those of the newest version of each of its periods |
| Marts.SupersededUnseen | transform/models/gold/period_generation_net.sql:17-19 | removing a superseded version from bronze changes neither mart |
| Marts.StorageMarked | transform/models/staging/stg_generation.sql:26-29 | in every table exactly pumped storage and batteries are marked as storage |
| Reversal.ExchangedZonesNegate | src/gridlens/ingest/entsoe_parse.py:127-138 | the same Periods published with the zone out instead of in are accepted as the same rows the other way, and where bronze holds just those every net power is negated |
| Gold.NetGrainExact | transform/tests/net_is_one_row_per_type_and_period.sql:1-7 | one netted row per type and period if and only if its current rows share a resolution |
| Gold.MixedStorageFailsGrainTest | transform/tests/net_is_one_row_per_type_and_period.sql:1-7 | two records of one storage type the contract accepts, at which there are two |
| Restatement.IdenticalExact | src/gridlens/quality/restatement.py:197-202 | the comparison accepts exactly tables of equal length with the same set of rows |
| Restatement.CountsExact | src/gridlens/quality/restatement.py:91-104 | each count is of its own side, and the rows only one side has are its different rows that the other lacks; none exactly when it is included in the other |
| Restatement.IdenticalMeansEqual | src/gridlens/quality/restatement.py:68-70 | with no repeated row on one side, acceptance is equality of bags |
| Restatement.IdenticalIsNotEquality | src/gridlens/quality/restatement.py:68-70 | acceptance against a table is equality of bags whatever the other side if and only if the table repeats no row or holds one row only |
| Restatement.RepeatOverlooked | src/gridlens/quality/restatement.py:68-70 | otherwise replacing one copy of a repeated row by another row of the table is accepted |
| Restatement.BuildPushdown | src/gridlens/quality/restatement.py:122-135 | cutting bronze to the window before the build, or each finished table by `valid_time` or `settlement_day` after it, gives the same three tables |
| Restatement.BuildSame | docs/adr/0006-exact-arithmetic-so-identical-means-equal.md:71-76 | two builds of the same bronze rows in any order agree in every row of every table |
| Restatement.Compare | src/gridlens/quality/restatement.py:322-352 | every compared table gets its counts, with the predicate its column calls for |
| Restatement.Sides | src/gridlens/quality/restatement.py:346-351 | left is the rebuild and right is production, for every table |
| Restatement.ClockSides | src/gridlens/quality/restatement.py:71-89 | left is what the snapshot holds of the window, right what bronze holds of it known by the bound |
| Restatement.DifferencesExact | src/gridlens/quality/restatement.py:355-364 | the report lists a table exactly when its comparison differs, once, and nothing exactly when all three are identical |
| Restatement.AuditExact | src/gridlens/quality/restatement.py:225-263 | the audit reports no difference if and only if the snapshot and the `known_at` bound select the same rows of the window |
| Restatement.ClocksAgreeExact | src/gridlens/quality/restatement.py:233-241 | on any table that only grew, repeats included, the clocks agree if and only if all the snapshot holds was known by the bound and all committed since became known after it, and if and only if both select the same rows in the same order and number |
| TimeAxis.AmbiguityExact | src/gridlens/timeaxis.py:28-45 | without fold, readings with one UTC preimage are accepted, those with none and those with two get the matching error |
| TimeAxis.FoldedReadingPasses | src/gridlens/timeaxis.py:44-45 | with fold set only readings with no preimage are refused |
| TimeAxis.DoubledReadingPasses | src/gridlens/timeaxis.py:44-45 | a doubled reading that passes with fold set |
| TimeAxis.MidnightGuardExact | src/gridlens/timeaxis.py:56-60 | the settlement-day guard fires exactly for zones whose switch hour covers midnight, on days a switch touches |
| TimeAxis.MidnightSkipped | src/gridlens/timeaxis.py:56-60 | a zone and a day at which it fires |
| TimeAxis.SettlementDaysTile | src/gridlens/timeaxis.py:48-62 | an instant lies in a settlement day exactly when its local date is that day, so the days tile UTC |
| TimeAxis.SettlementRange | src/gridlens/quality/restatement.py:124-135 | over a range of days the `valid_time` interval and the `settlement_day` range select the same instants |
| TimeAxis.DayLength | src/gridlens/timeaxis.py:48-52 | 23, 24 or 25 hours and 92, 96 or 100 quarter hours, decided by the switch on that day |
| TimeAxis.PeriodCount | src/gridlens/timeaxis.py:65-72 | a count that fills the span exactly, or an error when none does |
| Calendar.DayBefore | src/gridlens/quality/restatement.py:155-155 | stepping back a day across months and leap years moves the ordinal by one |
| Calendar.MonthLengths | src/gridlens/quality/restatement.py:153-156 | months have 31 and 30 days alternating, starting over in August, and February what is left of the year |
| Calendar.LastMonthExact | src/gridlens/quality/restatement.py:153-162 | an instant lies in the audit window exactly when its local date is in the calendar month before today's |
| Records.AcceptedQuantityIsExact | src/gridlens/contracts/records.py:54-64 | an accepted quantity is held by decimal(12, 3) without rounding or overflow |
| Records.ContractExact | src/gridlens/contracts/records.py:29-83 | a candidate becomes a record if and only if its zone and type are known, its unit is MW, its resolution is 1 to 1440 minutes and its instant a whole number of them past midnight, its quantity is 0 to 150 000 MW in at most three decimals, and it is not known before its period begins |
| Records.TypesExact | src/gridlens/contracts/reference.py:34-59 | the known production types are the codes B01 to B25 and no others |
| EntsoeParse.DurationExact | src/gridlens/timeaxis.py:17-25 | a duration is the sum of its parts: sixty minutes to the hour, 24 hours to the day |
| EntsoeParse.ScanPeriod | src/gridlens/ingest/entsoe_parse.py:153-173 | reading a Period's children succeeds exactly when each one reads and no position repeats; otherwise the error is what is wrong with the first child that does not |
| EntsoeParse.ScannedQuantities | src/gridlens/ingest/entsoe_parse.py:169-173 | the collected positions are those of the points, each with its own quantity |
| EntsoeParse.LastResolutionWins | src/gridlens/ingest/entsoe_parse.py:158-161 | the resolution is that of the last child to give one, in days, hours and minutes |
| EntsoeParse.LastBoundWins | src/gridlens/ingest/entsoe_parse.py:162-167 | the start and the end are the last ones given, wherever in the Period they stand |
| EntsoeParse.ObservedExact | src/gridlens/ingest/entsoe_parse.py:183-190 | observations are exactly the given positions, each at its own instant with its own quantity |
| EntsoeParse.MissingExact | src/gridlens/ingest/entsoe_parse.py:191-191 | missing positions are exactly those not given, in order |
| EntsoeParse.ParsePeriod | src/gridlens/ingest/entsoe_parse.py:146-202 | a Period is accepted exactly when it reads, is complete, divides evenly and keeps its positions inside, and otherwise its error is the first of these to fail; then observed and missing slots are its grid, each once, with what the children said |
| EntsoeParse.PointsObserved | src/gridlens/ingest/entsoe_parse.py:168-189 | no point is lost and none is made up: each is the observation of its own position with its own quantity, and observations come in order of position |
| EntsoeParse.PositionsTile | src/gridlens/timeaxis.py:75-81 | the slots of observed and missing positions tile the interval: the slot holding an instant u is that of the position with `(u - start) / resolution == position - 1` and of no other, and it is observed exactly once or missing |
| EntsoeParse.GridInside | src/gridlens/timeaxis.py:75-81 | the i-th instant of a grid is i periods after its start; the instants increase strictly and stay inside the interval |
| EntsoeParse.ParseSeries | src/gridlens/ingest/entsoe_parse.py:91-143 | accepted exactly when it has Periods, names one zone in one direction and all its Periods are acceptable; no Period, two zones and no zone each get their own error, and a bad Period the error of the first. A node that names only an in zone yields generation of that zone, one that names only an out zone consumption of that zone |
| EntsoeParse.NodeExact | src/gridlens/ingest/entsoe_parse.py:140-143 | the i-th series is the i-th Period, with its resolution, bounds and points, and the type, unit, zone and direction of the node |
| EntsoeParse.AllSeriesConcat | src/gridlens/ingest/entsoe_parse.py:71-74 | series come in document order |
| EntsoeParse.ParseGeneration | src/gridlens/ingest/entsoe_parse.py:63-88 | accepted exactly when the root is right, every TimeSeries is, the revision number reads if given and the creation time is given in UTC; otherwise the error is the first of these to fail. An accepted document holds every series in order, each accounting for its grid |
| EntsoeParse.DocumentExact | src/gridlens/ingest/entsoe_parse.py:76-88 | identifier, revision and creation time are those of the last leaf of each name; an unnamed identifier is empty and an unnamed revision is zero |
| Gate.ApplySeries | src/gridlens/contracts/gate.py:78-127 | what one series appends to the shared lists |
| Gate.ApplyGate | src/gridlens/contracts/gate.py:62-75 | the lists after every series, in document order |
| Gate.SeriesAccounted | src/gridlens/contracts/gate.py:101-127 | every position of a parsed series becomes exactly one record, violation or gap, and no other instant appears |
| Gate.DocumentAccounted | src/gridlens/contracts/gate.py:62-75 | at every instant a document yields as many outputs as it has series publishing for it |
| Gate.WholeMinuteResolution | src/gridlens/contracts/gate.py:86-96 | parsed resolutions are whole minutes, so the sub-minute branch never takes a parsed series |
| Gate.AcceptedRows | src/gridlens/contracts/gate.py:99-118 | every accepted row records a published point: its series, instant, exact quantity and the fetch's `known_at`; and it meets the contract: zone and type known, on its resolution's boundary, in MW, known no earlier than its period |
| Gate.SeriesComplete | src/gridlens/contracts/gate.py:97-114 | of a series of known zone and type, in MW, at a resolution dividing the day, starting on its boundary and ended by `known_at`, with quantities of 0 to 150 000 MW in at most three decimals, each point becomes its own record, in order, and nothing is quarantined |
| Gate.DocumentComplete | src/gridlens/contracts/gate.py:62-75 | so over a document of such series: no violations, as many records as points, and a record for every point |
| Gate.RefusedPoints | src/gridlens/contracts/gate.py:97-114 | every violation keeps the whole of a point the contract refuses |
| Gate.GapsExact | src/gridlens/contracts/gate.py:116-127 | the gaps of a series are its missing positions, in order, each with the zone, type and direction of the series and its own instant |
| Gate.AcceptedInside | src/gridlens/contracts/gate.py:99-118 | series that publish inside a window put no accepted row outside it |
| Gate.AcceptedDistinct | src/gridlens/contracts/gate.py:62-75 | a document whose Periods do not overlap within a flow yields at most one row per series and period |
| RteParse.Expected | src/gridlens/ingest/rte_parse.py:175-181 | the loop ends, over an empty window whatever the span and over any other for a positive one, and lists every instant of the window on the grid, once each and in order |
| RteParse.NormaliseEntry | src/gridlens/ingest/rte_parse.py:85-172 | unknown types and mixed spans, zero and negative ones included, yield one violation and nothing else, an empty entry nothing, any other its grid |
| RteParse.EntryAccounted | src/gridlens/ingest/rte_parse.py:126-172 | each grid instant yields exactly one record, violation or gap, a gap exactly when no value starts there |
| RteParse.NothingLostExact | src/gridlens/ingest/rte_parse.py:122-129 | no more outputs than values, and every value is answered for if and only if all start on the grid and no two share a start |
| RteParse.StrayValuesLost | src/gridlens/ingest/rte_parse.py:122-129 | a value starting at half past the hour, and one of two that start together, are lost |
| RteParse.AcceptedValues | src/gridlens/ingest/rte_parse.py:143-172 | every accepted row records a published value: its instant, magnitude, direction by sign and stamp, at the fetch's `known_at`; and it meets the contract |
| RteParse.EntryComplete | src/gridlens/ingest/rte_parse.py:125-172 | of an entry at a whole-minute span dividing the day, starting on its boundary, with values of at most 150 000 MW either way in at most three decimals, the last value on each instant of the grid has its record and nothing is refused |
| RteParse.EntryGaps | src/gridlens/ingest/rte_parse.py:132-146 | the gaps are the grid's instants at which no value starts, in order, as generation of the entry's type at position 0 |
| RteParse.ResolutionExact | src/gridlens/ingest/rte_parse.py:157-157 | its resolution is the published span if and only if that is a whole number of minutes |
| RteParse.OddSpanAccepted | src/gridlens/ingest/rte_parse.py:157-157 | a value of 90 seconds, accepted as one of a minute |
| RteParse.SignSplitUndone | src/gridlens/ingest/rte_parse.py:145-167 | gold's netting gives back the signed number that was published, and exactly the negative ones were consumption |
| RateLimit.ReleasesSpaced | src/gridlens/ingest/ratelimit.py:32-49 | nobody is let through early, nobody overtakes, and every stretch of callers keeps the pace |
| RateLimit.RateBound | src/gridlens/ingest/ratelimit.py:9-9 | over any run on a monotone clock, at most burst + rate * L callers are let through in any closed stretch of length L |
| RateLimit.EarliestSchedule | src/gridlens/ingest/ratelimit.py:41-44 | of all schedules keeping that pace the bucket's own releases every caller earliest |
| RateLimit.WaitersOnePeriodApart | src/gridlens/ingest/ratelimit.py:41-44 | consecutive waiting callers are exactly one period apart |
| RateLimit.TokenBucket.Create | src/gridlens/ingest/ratelimit.py:11-30 | a nonpositive rate and a burst below one are refused, in that order |
| RateLimit.Take | src/gridlens/ingest/ratelimit.py:34-48 | the balance in tokens and the returned wait are those of the run's schedule |
| RateLimit.TokenBucket.Acquire | src/gridlens/ingest/ratelimit.py:32-49 | one more caller joins the run and is told to wait until its release time |
| Backfill.AcceptedIsBatch | src/gridlens/lake/backfill.py:81-82 | what one document stages is a batch when its Periods do not overlap |
| Backfill.OverlappingPeriodsRepeat | src/gridlens/ingest/entsoe_parse.py:131-143 | a TimeSeries giving an hour in two Periods is parsed and accepted whole, and merging it into an empty table inserts one identity twice |
| Backfill.StrayAnswerAccepted | src/gridlens/lake/backfill.py:71-91 | a document about another hour passes parser and gate for any day it was asked for |
| Backfill.DayAgain | src/gridlens/lake/backfill.py:69-94 | a day merged once adds nothing when merged again after any later days |
| Backfill.CrashSafe | src/gridlens/lake/backfill.py:49-55 | if every accepted row is of the day asked for, attempts that died after any numbers of days and one complete rerun leave exactly the bronze of one uninterrupted run; another run adds nothing if and only if they are |
| Backfill.SummaryExact | src/gridlens/lake/backfill.py:64-107 | the summary counts the days that staged anything, lists in order those that staged nothing, and adds up the rows staged on all of them |
| Backfill.MonthFitsExactly | src/gridlens/lake/backfill.py:19-23 | every calendar month fits one run, and a day more than the longest does not |
| Backfill.BackfillDay | src/gridlens/lake/backfill.py:69-94 | one day goes through exactly when its window exists, the source did not fail and any staged rows could be merged, and then merges what its answer got through the gate; otherwise it reports the first thing wrong and leaves bronze alone |
| Backfill.MergeDays | src/gridlens/lake/backfill.py:64-98 | the loop goes through exactly when every day does, and merges and summarises the whole range; otherwise it stops at the first day that does not, says why, and has merged exactly the earlier ones |
| Backfill.BackfillDays | src/gridlens/lake/backfill.py:36-109 | each bad argument gets its own error and changes nothing; with good ones the run succeeds and fails exactly as the day loop, and never past a day the source failed on |
| Refetch.EventDaysExact | src/gridlens/handlers/backfill_entsoe.py:40-63 | both dates given are the days fetched, whatever `known_at` and the rest of the event; otherwise `refetch_days` of n gives n days, with one whole settlement day between the last of them and the day of `known_at`; each error exactly in its own case |
| Refetch.CoverageExact | src/gridlens/handlers/backfill_entsoe.py:57-62 | with n re-fetched days a settlement day D is fetched on exactly the mornings D + 1 to D + n + 1, once each |
| Refetch.FetchesOrderly | src/gridlens/handlers/backfill_entsoe.py:45-51 | any such run of firings, of documents whose Periods do not overlap, is an orderly history of merges |
| Refetch.NewestIsLatestAnswer | src/gridlens/handlers/backfill_entsoe.py:57-62 | bronze's newest value of a period is the source's answer on the latest morning that fetched its day, for every row of it the gate accepted, if and only if those rows agree among themselves; nothing is asked of earlier answers |

## Left out

- Refetch.NewestIsLatestAnswer: speaks of periods the gate accepted in that latest answer, and assumes the source answers for a day with periods of that day.
- Refetch.FetchesOrderly: assumes Periods of one document do not overlap within a flow, because neither the parser nor the gate enforces it.
- Backfill.DayAgain: assumes accepted rows are of the day asked for, because rows outside a merge's window are inserted again by every run.
- Marts.BuildEnergyExact: assumes no identity appears twice in bronze, as do the other theorems about the build; `RunUniqueExact` says exactly when that holds.
- RteParse.EntryAccounted: assumes a positive span over a nonempty window, because a span of zero makes the source's grid loop endless.
- Records.AcceptedQuantityIsExact: NaN and infinite decimals are not representable in the model; the source's validation refuses them.
- Gold.SharesSumToOne: a share is an exact quotient of two energies, because rounding that quotient to a double is the engine's.
- RateLimit.RateBound: is about scheduled release times over real numbers, because an overshooting sleep and floating point rounding are outside the bucket.
- TimeAxis.SettlementDaysTile: covers zones that switch only at 01:00 UTC by one hour, which is the assumption the source itself states; tzdata and the year 1 to 9999 limits of dates are not part of this model.
- RateLimit.TokenBucket.Acquire: callers are serialised by the lock, so concurrent calls are one sequence of acquires; the lock itself is not part of this model.
- Net power is not grouped by source in the repository, so two sources for one zone would be added together; the model does the same and makes no claim about it.
- The staging bucket, Athena polling, Iceberg files, dbt and Airflow: a merge is one atomic step that completes or fails, and a query is a function.
- XML and JSON decoding, duration and timestamp text, and `parse_known_at`: the model starts from elements already split, with offsets kept where the code checks them.
- `total_matches_components`, the loop over an RTE payload's entries that skips its TOTAL, the quarantine writer, and the payload texts of violations: they only report or iterate.
- The document's type and process type, and how a TimeSeries element names its zone, unit and production type: carried along unread.
- Comparison of document identifier, unit and resolution of suppressed rows: the merge does not look at them, so no claim is made.
- HTTP clients, Kafka and Avro, redaction, infrastructure and scripts: transport and operations.
