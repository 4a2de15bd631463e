# WorkerCTL fleet analytics in Dafny

WorkerCTL is an iOS app that watches the hardware worker pools of a
Taskcluster deployment. This project models the part of it that turns a
listing of workers into numbers, labels and colours, and proves properties
of that model:

- **Models** (`models.dfy`): the worker record. It holds the fields the
  listing decodes, plus a task state and a recent-failure count that the app
  adds later. It also holds the quarantine and activity predicates, judged
  at an instant `now`.
- **Analytics** (`analytics.dfy`): the `FleetAnalytics` snapshot. It covers
  the health score and its colour and emoji, worker lifecycle, the failure
  rate and top failers, and the activity breakdown. It also covers the
  performance summary, the trend estimate, anomaly detection and capacity.
  The `PoolComparison` of two snapshots lives here too.
- **WorkerList** (`worker_list.dfy`): the worker list screen, a class whose
  fields the screen updates.
  - Task-state enrichment: the concurrent lookups, their progress, and the
    refresh after every tenth result.
  - The filter bar: search, three tri-state filters, and three sort orders.
  - What each row shows: the status label, the status colour and the
    relative time.
- **PoolComparisonView** (`pool_comparison_view.dfy`): the comparison screen.
  It covers the score colour, the "is healthier" line and the winner card.
  Each key-metric row is coloured by reading numbers back out of the texts
  it shows.
- **Dashboard** (`dashboard.dfy`): the analytics dashboard's age formatter,
  activity bars and health gradient.
- **PoolPresets** (`pool_presets.dfy`): the built-in list of 34 pools and its
  grouping by operating system.
- **Helpers**: `numeric.dfy` (truncation `Int(Double)` and quotient
  arithmetic), `seqs.dfy` (filter, count, sum), `palette.dfy` (colours and
  the four health bands) and `wrappers.dfy` (`Option`).

## Conventions

- Every read of the wall clock is the parameter `now`, in whole seconds
  since the epoch.
- A timestamp string is either one the ISO-8601 parser accepted, as whole
  seconds, or one it rejected. `Date.distantPast` and `Date.distantFuture`
  are the two ends of `Models.Instant`.
- Swift `Double` arithmetic is exact `real` arithmetic here. Every threshold
  on a ratio is also restated as a comparison of integer counts.
- Texts with a number in them become datatypes that carry that number, e.g.
  `HighIdleRate(percent)` or `MinutesAgo(n)`. The one exception is the
  comparison rows, which parse their own strings. Those rows are modelled
  as strings.

## Where the code and its description differ (the model follows the code)

- **Health score truncates.** `Int(healthValue)` truncates rather than
  rounds. Ten active workers, 3 quarantined and 2 failing give a value of
  86.5 and a score of 86 (`HealthScoreTruncates`).
- **A tie goes to the second pool.** `betterPool` names the second pool when
  the scores are equal.
- **Missing first claims are not excluded.** `oldestWorker` and
  `newestWorker` count a missing first claim as `distantFuture` and
  `distantPast`, so such a worker can still be returned.
- **The top-failers sort is not stable.** Ties among top failers come in no
  promised order, and the model promises none.
- **An empty cohort can still mean "improving".** `estimatedTrend` with no
  worker active in the last hour is "improving" whenever the overall
  failure rate is positive. It is "stable" only when that rate is 0
  (`TrendCounts`).

## Model

| member | source | states |
|---|---|---|
| Models.Decode | WorkerCTL/Models.swift:3-59 | The coding keys cover the seven listed fields only: a decoded worker carries them unchanged, has no task state and no recent failure, and is not running |
| Models.BeforeIsStrictTotalOrder | WorkerCTL/Analytics.swift:52-62 | Date comparison extended with distantPast and distantFuture is irreflexive, asymmetric, total and transitive |
| Models.QuarantineWindow | WorkerCTL/Models.swift:27-31 | No quarantine without a parsable end; with end `u`, quarantined exactly while `now < u`, and no longer at `u` itself |
| Models.QuarantineMonotone | WorkerCTL/Models.swift:27-31 | A quarantine that holds at an instant held at every earlier instant |
| Models.ActiveInSeconds | WorkerCTL/Models.swift:33-43 | A running task makes a worker active; otherwise it is active exactly when its last activity is known and under 604800 s (7 days) old |
| Models.RecentlyActiveImpliesActive | WorkerCTL/Models.swift:33-53 | The 30-minute policy `isRecentlyActive` implies the 7-day policy `isActive` |
| Models.ActivityWearsOff | WorkerCTL/Models.swift:33-53 | Without a running task, both activity predicates can only turn false as `now` advances |
| Palette.BandOf | WorkerCTL/Analytics.swift:23-30 | The four score ranges 80...100, 60...79, 40...59 and the default, each as an if-and-only-if on the score |
| Analytics.HealthAlgebra | WorkerCTL/Analytics.swift:7-21 | The health formula over ratios equals one quotient of integer counts, and its numerator lies between 25·n and 100·n |
| Analytics.FleetAnalytics.HealthScore | WorkerCTL/Analytics.swift:7-21 | 0 for an empty fleet; otherwise between 25 and 100, and equal to the integer quotient of the penalised total by the fleet size |
| Analytics.FleetAnalytics.HealthValueIsQuotient | WorkerCTL/Analytics.swift:10-18 | The Double health value is the penalised integer total divided by the fleet size |
| Analytics.HealthScoreTruncates | WorkerCTL/Analytics.swift:15-20 | 10 active, 3 quarantined and 2 failing of 10 give a health value of 86.5 and a score of 86 |
| Analytics.HealthIndicatorsFollowBands | WorkerCTL/Analytics.swift:23-39 | The health colour and the heart emoji both follow the four score bands, each band if and only if |
| Analytics.EmptyFleet | WorkerCTL/Analytics.swift:7-109 | An empty fleet scores 0, has no failures, failure rate 0, no top failers, an all-zero breakdown, no anomalies, no oldest worker and average age 0 |
| Analytics.FleetAnalytics.KnownAges | WorkerCTL/Analytics.swift:43-46 | As many ages as workers whose first claim parses, and a value is an age exactly when it is `now` minus the first claim of some listed worker whose claim parses |
| Analytics.KnownAgesSnoc | WorkerCTL/Analytics.swift:43-46 | `compactMap` keeps list order: a worker added at the end adds its age at the end when its first claim parses, and nothing otherwise |
| Analytics.FleetAnalytics.AverageWorkerAge | WorkerCTL/Analytics.swift:42-50 | 0 whenever no worker is dated, including a non-empty fleet whose claims all fail to parse |
| Numeric.Mean | WorkerCTL/Analytics.swift:48-49 | 0 for no values; otherwise the mean times the number of values gives back their total |
| Analytics.UndatedFleetAgeIsZero | WorkerCTL/Analytics.swift:43-48 | A fleet none of whose workers has a parsable first claim has average age 0 |
| Analytics.AverageOfEqualAges | WorkerCTL/Analytics.swift:42-50 | When every dated worker is the same age, and one is dated, the average is that age |
| Analytics.AverageAgeWithin | WorkerCTL/Analytics.swift:42-50 | When some worker is dated and every dated age lies in `[lo, hi]`, so does the average age |
| Analytics.FleetAnalytics.EarliestFrom | WorkerCTL/Analytics.swift:52-56 | The `min(by:)` scan returns a position no worker claims strictly before, a missing claim counting as distantFuture, and every worker before it claims strictly later: the first of tied earliest workers wins |
| Analytics.FleetAnalytics.LatestFrom | WorkerCTL/Analytics.swift:58-62 | The `max(by:)` scan returns a position no worker claims strictly after, a missing claim counting as distantPast, and every worker after it claims strictly earlier: the last of tied latest workers wins |
| Analytics.FleetAnalytics.OldestWorker | WorkerCTL/Analytics.swift:52-56 | None exactly for an empty fleet; otherwise a member of the fleet that no worker claims strictly before, found at a position where every earlier worker claims strictly later |
| Analytics.FleetAnalytics.NewestWorker | WorkerCTL/Analytics.swift:58-62 | None exactly for an empty fleet; otherwise a member of the fleet that no worker claims strictly after, found at a position where every later worker claims strictly earlier |
| Analytics.OldestIsEarliestDated | WorkerCTL/Analytics.swift:52-56 | When any worker is dated, the oldest is dated and claimed no later than every dated worker |
| Analytics.NewestIsLatestDated | WorkerCTL/Analytics.swift:58-62 | When any worker is dated, the newest is dated and claimed no earlier than every dated worker |
| Analytics.StaleInSeconds | WorkerCTL/Analytics.swift:64-70 | Stale exactly when the last activity is known and more than 2592000 s (30 days) old |
| Analytics.StaleWorkersAreTheStale | WorkerCTL/Analytics.swift:64-70 | The stale list holds exactly the stale workers of the fleet |
| Analytics.TotalFailuresCoverFailing | WorkerCTL/Analytics.swift:73-75 | With no negative counts, the total of recent failures is at least the number of failing workers |
| Analytics.FleetAnalytics.FailureRate | WorkerCTL/Analytics.swift:77-83 | 0 when no worker has a task; otherwise the rate times the workers with a task is the number of failing workers; never negative |
| Analytics.FailureRateAtMostOne | WorkerCTL/Analytics.swift:77-83 | When only workers with a task carry failures, the failure rate lies in `[0, 1]` |
| Analytics.RatioScales | WorkerCTL/Analytics.swift:135-136 | A ratio of counts is non-negative, and multiplied by a positive denominator gives the numerator back |
| Analytics.InsertByFailures | WorkerCTL/Analytics.swift:88 | Inserting into a list in descending failure order keeps it descending and adds exactly that worker |
| Analytics.SortByFailures | WorkerCTL/Analytics.swift:88 | `sorted { $0.recentFailures > $1.recentFailures }`: a permutation in non-increasing failure order |
| Analytics.RankedPrefix | WorkerCTL/Analytics.swift:85-91 | A prefix of the ranked failing workers holds fleet members with failures, the ranking is as long as the failing workers, and its head has the most failures of the fleet |
| Analytics.TopOfRanking | WorkerCTL/Analytics.swift:87-89 | The first `k` of a descending ranking of the failing workers are in order, are drawn from the failing workers, and every failing worker left out has no more failures than any kept |
| Analytics.TopFive | WorkerCTL/Analytics.swift:85-91 | The first `min(5, n)` of a descending ranking of the failing workers are fleet members with failures, in order, the head has the most failures, and they are a top five of the failing workers |
| Analytics.FleetAnalytics.RankedFailers | WorkerCTL/Analytics.swift:86-88 | The failing workers rearranged in non-increasing failure order |
| Analytics.FleetAnalytics.TopFailingWorkers | WorkerCTL/Analytics.swift:85-91 | `min(5, failing)` fleet members, each failing, in non-increasing order, a sub-multiset of the failing workers, the first having the most failures of all, and no failing worker left out has more failures than any shown |
| Analytics.FleetAnalytics.ActivityBreakdown | WorkerCTL/Analytics.swift:94-109 | The three counts are non-negative and add up to the fleet size |
| Analytics.BreakdownByBuckets | WorkerCTL/Analytics.swift:94-109 | Each count is the number of workers in that bucket on their own: under 30 min, 30 min to 24 h, and everything else, including never active, idle |
| Analytics.SummaryFollowsHealth | WorkerCTL/Analytics.swift:112-125 | The summary message follows the same four bands as the health colour. It shows `100·active/n` for a non-empty fleet, the total failures, or the quarantined count |
| Analytics.TrendCounts | WorkerCTL/Analytics.swift:128-144 | Degrading iff `5·a·d > 6·c·b` and improving iff `5·a·d < 4·c·b` over the counts; an empty cohort is never degrading, and is improving iff some worker has a latest task and some worker, counted over the whole list, has a recent failure (the overall rate is positive) |
| Analytics.TrendInCounts | WorkerCTL/Analytics.swift:128-144 | The fleet's trend, restated over its cohort and fleet counts as in `TrendCounts` |
| Analytics.NoFailuresIsStable | WorkerCTL/Analytics.swift:128-144 | With no failing worker anywhere the trend is stable |
| Analytics.AnomalyListInCheckOrder | WorkerCTL/Analytics.swift:147-174 | The anomalies come out in the order of the four checks, each at most once |
| Analytics.AnomaliesInCheckOrder | WorkerCTL/Analytics.swift:147-174 | The same, for the fleet's own anomaly list |
| Analytics.QuarantineReported | WorkerCTL/Analytics.swift:150-154 | The quarantine anomaly comes first exactly when `10·q > max(1, n)`, with percentage `100·q / max(1, n)` |
| Analytics.QuarantineAnomaly | WorkerCTL/Analytics.swift:150-154 | The same, for the fleet's own quarantined count |
| Analytics.ConcentrationReported | WorkerCTL/Analytics.swift:156-159 | A failure concentration is reported exactly when the top failer has 4 or more failures, and names that worker and its count |
| Analytics.FailureConcentrationAnomaly | WorkerCTL/Analytics.swift:156-159 | Reported exactly when some worker has 4 or more failures; it names a fleet member with the most failures of the fleet |
| Analytics.TopHeadIsMostFailing | WorkerCTL/Analytics.swift:85-91 | The head of the top failing list has 4 or more failures exactly when some worker does, and has the most failures of the fleet |
| Analytics.IdleReported | WorkerCTL/Analytics.swift:161-166 | The idle anomaly is reported exactly when `2·idle > max(1, n)`, with percentage `100·idle / max(1, n)`, which then lies in `[50, 100]` |
| Analytics.IdleAnomaly | WorkerCTL/Analytics.swift:161-166 | The same, for the fleet's own breakdown |
| Analytics.NoActiveReported | WorkerCTL/Analytics.swift:168-171 | "No active workers" is reported exactly for a non-empty fleet with no worker in the active bucket |
| Analytics.NoActiveWorkersReported | WorkerCTL/Analytics.swift:168-171 | The same, for the fleet's own breakdown |
| Analytics.FleetAnalytics.CapacityUtilization | WorkerCTL/Analytics.swift:177-180 | In `[0, 1]`, 0 for an empty fleet, equal to the `Ratio` of the active bucket's count to `max(1, n)`, and times `max(1, n)` it gives that count back |
| Analytics.UtilizationCounts | WorkerCTL/Analytics.swift:182-188 | Each capacity emoji as an if-and-only-if on counts: `5a > 4m`, `2a > m`, `5a > m`, or none of these |
| Analytics.UtilizationInCounts | WorkerCTL/Analytics.swift:182-188 | The same, for the fleet's own active count over `max(1, n)` |
| Analytics.DifferenceBounds | WorkerCTL/Analytics.swift:196-198 | The health difference lies in `[-100, 100]`, and in `[-75, 75]` between two non-empty fleets |
| Analytics.BetterPoolScoresHigher | WorkerCTL/Analytics.swift:200-202 | The better pool is one of the two; the first only with a strictly higher score; the second on a tie |
| Analytics.ComparisonSymmetric | WorkerCTL/Analytics.swift:192-213 | Swapping the pools negates the difference, keeps the category and gap of the sentence, and names the same pool unless the scores tie |
| Analytics.ComparisonByGap | WorkerCTL/Analytics.swift:204-212 | Significantly better iff the gap exceeds 20, slightly better iff 5 < gap ≤ 20, similar iff gap ≤ 5; the sentence names the better pool and the gap |
| WorkerList.LastRuns | WorkerCTL/WorkerListView.swift:277-278 | `suffix(5)`: the last `min(5, n)` runs, with the runs before them in front |
| WorkerList.RecentFailureCount | WorkerCTL/WorkerListView.swift:277-280 | The failure count is at most `min(5, runs)` |
| WorkerList.OnlyLastFiveRunsCount | WorkerCTL/WorkerListView.swift:277-280 | Runs earlier than the last five never change the failure count |
| WorkerList.FailingTailCountsFive | WorkerCTL/WorkerListView.swift:277-280 | Five failed or exception runs at the end give a count of 5 |
| WorkerList.ResultOf | WorkerCTL/WorkerListView.swift:272-285 | A failed lookup gives no state and 0 failures; a successful one gives its task's state and the recent-failure count, at most 5 |
| WorkerList.Enrich | WorkerCTL/WorkerListView.swift:291-294 | A known state replaces the worker's task state and an unknown one keeps it; the failure count is always replaced and lies in `[0, 5]`; every listed field is unchanged |
| WorkerList.EnrichAll | WorkerCTL/WorkerListView.swift:254-311 | Every worker with a latest task is enriched with its own lookup; the others are unchanged |
| WorkerList.TaskIndices | WorkerCTL/WorkerListView.swift:255 | Exactly the positions of the workers that have a latest task, each once and in strictly increasing list order, as many as the count of workers with a task |
| WorkerList.NothingToEnrich | WorkerCTL/WorkerListView.swift:256-257 | Without any worker with a task the listing is unchanged |
| WorkerList.EnrichIdempotent | WorkerCTL/WorkerListView.swift:291-294 | Storing the same lookup result twice is storing it once |
| WorkerList.EnrichedEverything | WorkerCTL/WorkerListView.swift:289-304 | Once every position in the arrival order has been stored, the listing is the fully enriched one |
| WorkerList.WorkerListView.constructor | WorkerCTL/WorkerListView.swift:8-18 | The screen's initial state: no workers loaded, nothing shown, empty search, every filter "all", sorted by last activity, not fetching, progress 0 |
| WorkerList.WorkerListView.LoadWorkers | WorkerCTL/WorkerListView.swift:240-252 | A fetched listing replaces the workers and the shown list is rebuilt to show exactly what the filter bar lets through, sorted; a failed fetch changes nothing |
| WorkerList.WorkerListView.ApplyFilters | WorkerCTL/WorkerListView.swift:313-365 | The shown list is a sorted arrangement of exactly the workers the filter bar lets through |
| WorkerList.WorkerListView.FetchTaskStates | WorkerCTL/WorkerListView.swift:254-311 | The listing becomes the enriched listing. With no worker with a task, nothing else changes; otherwise the shown list is refreshed, fetching ends and progress is 1 |
| WorkerList.WorkerListView.CollectResults | WorkerCTL/WorkerListView.swift:289-304 | The loop over arriving results ends with the enriched listing and progress 1 |
| WorkerList.WorkerListView.RunLookups | WorkerCTL/WorkerListView.swift:259-311 | With at least one lookup to make, the listing ends enriched, the shown list is refreshed, fetching is off and progress is 1 |
| WorkerList.WorkerListView.StoreResult | WorkerCTL/WorkerListView.swift:290-303 | One arrival: only the worker at its index changes, to its enriched self; progress becomes `completed / total`; the shown list is refreshed on every tenth and on the last result, and otherwise unchanged |
| WorkerList.WorkerListView.RefreshEveryTenth | WorkerCTL/WorkerListView.swift:299-302 | On every tenth result and on the last, the shown list is refreshed; otherwise it is unchanged |
| WorkerList.WorkerListView.RecordResult | WorkerCTL/WorkerListView.swift:290-294 | Only the worker at the result's index changes, and it becomes its enriched self |
| WorkerList.EnrichedFailuresHaveTasks | WorkerCTL/WorkerListView.swift:254-311 | After enrichment only workers with a task carry failures, so the fleet's failure rate lies in `[0, 1]` |
| WorkerList.Fold | WorkerCTL/WorkerListView.swift:316-322 | Case folding keeps the length and leaves no ASCII capital: each ASCII capital becomes the same letter in small, and every other character is unchanged |
| WorkerList.FoldIdempotent | WorkerCTL/WorkerListView.swift:316-322 | Folding a folded text changes nothing |
| WorkerList.SearchIgnoresCase | WorkerCTL/WorkerListView.swift:316-322 | A search matches a worker iff the lower-cased search does |
| WorkerList.ApplyOption | WorkerCTL/WorkerListView.swift:324-352 | Each tri-state filter keeps only elements its option accepts, drawn from its input |
| WorkerList.OptionMember | WorkerCTL/WorkerListView.swift:324-352 | An element passes a tri-state filter iff it was in the input and the option accepts it |
| WorkerList.FilteredMembers | WorkerCTL/WorkerListView.swift:316-352 | A worker is let through iff it is listed and matches the search and all three filters |
| WorkerList.NoFiltersShowAll | WorkerCTL/WorkerListView.swift:316-352 | No search text and every filter "all" let the whole listing through |
| WorkerList.FailureChoicesPartition | WorkerCTL/WorkerListView.swift:344-352 | "Yes" and "no" of the failure filter split what "all" shows between them |
| WorkerList.LexLessTransitive | WorkerCTL/WorkerListView.swift:359 | String `<` is transitive |
| WorkerList.LexLessTotal | WorkerCTL/WorkerListView.swift:359 | Of two different strings exactly one is `<` the other |
| WorkerList.ComparatorIsStrictWeakOrder | WorkerCTL/WorkerListView.swift:355-362 | Each of the three comparators is irreflexive and asymmetric, and its incomparability is transitive |
| WorkerList.InsertWorker | WorkerCTL/WorkerListView.swift:355-362 | Inserting into an ordered list keeps it ordered and adds exactly that worker |
| WorkerList.SortWorkers | WorkerCTL/WorkerListView.swift:355-362 | A permutation in which no worker precedes one placed before it |
| WorkerList.NeverActiveSortLast | WorkerCTL/WorkerListView.swift:357 | Sorted by last activity, workers never active come after every worker that was active |
| WorkerList.LastActiveDescending | WorkerCTL/WorkerListView.swift:357 | Sorted by last activity, dated workers come most recent first |
| WorkerList.LabelInSeconds | WorkerCTL/WorkerListView.swift:391-406 | Without a task state, Active, Recent, Today, This Week and Idle are exactly the intervals under 1800, 7200, 86400 and 604800 s and above |
| WorkerList.ColorFollowsLabel | WorkerCTL/WorkerListView.swift:371-406 | Without a task state, the status colour follows the label band for band: gray, green, mint, blue, orange, red |
| WorkerList.LabelAgreesWithActivity | WorkerCTL/WorkerListView.swift:391-406 | Without a task state, a time-based label other than Idle or Unknown means `isActive`, and "Active" means `isRecentlyActive` |
| WorkerList.ExceptionFallsBackToTimeColor | WorkerCTL/WorkerListView.swift:371-389 | An "exception" task is labelled with its state but coloured by the time since its last activity |
| WorkerList.TimeAgoInSeconds | WorkerCTL/WorkerListView.swift:539-554 | Under 60 s "Just now"; otherwise the elapsed seconds divided by 60, 3600 or 86400, each in its range |
| WorkerList.DetailedTimeIsTimeAgo | WorkerCTL/WorkerListView.swift:408-426 | Without a task state, the row's time is the last activity's `timeAgo`, except that under a minute it shows the seconds |
| PoolComparisonView.HealthColorBands | WorkerCTL/PoolComparisonView.swift:399-406 | The score colour follows the four bands and equals the analytics' own health colour |
| PoolComparisonView.HealthierLineMatchesWinner | WorkerCTL/PoolComparisonView.swift:172-176 | The healthier line is absent exactly on a tie; otherwise it names the winner card's pool with the same, positive gap |
| PoolComparisonView.WinnerAgreesWithComparison | WorkerCTL/PoolComparisonView.swift:340-373 | The first pool wins iff its health difference is positive, matching `betterPool`; the gap is spelled out iff the comparison is not "similar" |
| PoolComparisonView.ShowNat | WorkerCTL/PoolComparisonView.swift:196 | The decimal text of a natural number is non-empty and all digits |
| PoolComparisonView.ShowNatRoundTrip | WorkerCTL/PoolComparisonView.swift:474-475 | Reading the digits of a shown number back gives the number |
| PoolComparisonView.NumberInShow | WorkerCTL/PoolComparisonView.swift:474-475 | A number that fits an `Int`, shown and followed by a suffix without digits, reads back as its absolute value |
| PoolComparisonView.RowHighlightsOneSide | WorkerCTL/PoolComparisonView.swift:457-481 | Both values are white when their numbers are equal; otherwise exactly one of them is green |
| PoolComparisonView.CountRowHighlightsBetter | WorkerCTL/PoolComparisonView.swift:473-481 | For two counts, green iff the better one (larger or smaller as the row says) and white iff equal |
| PoolComparisonView.PercentRowHighlightsBetter | WorkerCTL/PoolComparisonView.swift:221-226 | The capacity row, `"\(p)%"`, is green iff its percentage is larger and white iff equal |
| PoolComparisonView.CapacityPercent | WorkerCTL/PoolComparisonView.swift:223-224 | `Int(capacityUtilization * 100)` lies in `[0, 100]` and is `100·active / max(1, n)` |
| PoolComparisonView.KeyMetrics | WorkerCTL/PoolComparisonView.swift:188-226 | One row per key metric, five in all |
| PoolComparisonView.KeyMetricsHighlightBetter | WorkerCTL/PoolComparisonView.swift:188-226 | Every key-metric row carries its metric's name; the first value is green iff its number is the better one and white iff the numbers are equal |
| PoolComparisonView.MetricRowHighlightsBetter | WorkerCTL/PoolComparisonView.swift:194-226 | The same for one metric's row |
| PoolComparisonView.MetricTextsCompare | WorkerCTL/PoolComparisonView.swift:447-481 | A row of two shown values colours the first by comparing the values themselves |
| Dashboard.FormatAgesAgree | WorkerCTL/AnalyticsDashboardView.swift:513-519 | The lifecycle row's formatter agrees with the dashboard's on every input |
| Dashboard.AgeUnits | WorkerCTL/AnalyticsDashboardView.swift:378-388 | For a non-negative age: years iff ≥ 366 days, months iff 31 to 365 days, days iff 1 to 30 days, hours below one day |
| Dashboard.AgeAmounts | WorkerCTL/AnalyticsDashboardView.swift:378-388 | The number shown is at least 1 year, 1 to 12 months, 1 to 30 days, or 0 to 23 whole hours |
| Dashboard.FutureAgeInHours | WorkerCTL/AnalyticsDashboardView.swift:378-388 | A negative age shows zero or fewer hours |
| Dashboard.PercentageBounds | WorkerCTL/AnalyticsDashboardView.swift:437-439 | Empty for no total; in `[0, 1]` for a count within the total; times the total gives the count |
| Dashboard.BarsFillTheColumn | WorkerCTL/AnalyticsDashboardView.swift:203-222 | Each activity bar lies in `[0, 1]`; all are empty for an empty fleet, and the three add up to 1 otherwise |
| Dashboard.GradientFollowsHealth | WorkerCTL/AnalyticsDashboardView.swift:147-154 | The gradient has two colours: the fleet's health colour, then mint, orange, red or pink by band |
| PoolPresets.KeysArePresentCategories | WorkerCTL/PoolPresets.swift:47-49 | A category is a key of the grouping iff some preset has it |
| PoolPresets.GroupsAreFilters | WorkerCTL/PoolPresets.swift:47-49 | A category's group is the presets of that category, in their original order |
| PoolPresets.GroupsNonEmpty | WorkerCTL/PoolPresets.swift:47-49 | Every key has a non-empty group |
| PoolPresets.GroupSizes | WorkerCTL/PoolPresets.swift:47-49 | The three group sizes add up to the number of presets |
| PoolPresets.GroupedByOwnCategory | WorkerCTL/PoolPresets.swift:47-49 | A preset is in the group of its own category and of no other |
| PoolPresets.GroupsOfThree | WorkerCTL/PoolPresets.swift:47-49 | Grouping macOS, Linux and Windows lists put together gives the three lists back |
| PoolPresets.PresetGroups | WorkerCTL/PoolPresets.swift:5-49 | 34 presets, grouped as the 21 macOS, 4 Linux and 9 Windows presets in list order |
| PoolPresets.ListCategories | WorkerCTL/PoolPresets.swift:5-45 | Each list holds presets of its own category only |
| PoolPresets.WorkerTypesDistinct | WorkerCTL/PoolPresets.swift:5-45 | No two presets share a worker type |
| PoolPresets.PresetFields | WorkerCTL/PoolPresets.swift:53-63 | Every preset names the provisioner "releng-hardware", and shows its name and its worker type |
| PoolPresets.CategoryNamesDistinct | WorkerCTL/PoolPresets.swift:66-82 | Categories are told apart by their raw values and by their display names |

## Left out

- ISO-8601 parsing: a timestamp arrives already parsed to whole seconds, or marked malformed. Fractional seconds are not modelled.
- The wall clock: every `Date()` is the parameter `now`, shared by all reads within one computation.
- Floating point: `Double` is exact `real`. Rounding in the ratios and a trap of `Int(Double)` on a non-finite or out-of-range value are not modelled.
- Task-status lookups: no task-status request is made. The outcome of each lookup and the arrival order of the concurrent results are inputs to `FetchTaskStates`. The Swift task group, its cancellation and actor hops are not modelled.
- WorkerList.WorkerListView.FetchTaskStates: the results are stored one at a time in the given arrival order; interleaving with other work on the main actor (a search typed while results arrive) is not modelled.
- `recentErrors` is carried but used by no operation of the core. `Worker.id` is the worker id, with no contract of its own.
- Sort tie order: Swift's `sort` is not stable, so neither `SortWorkers` nor `SortByFailures` promises an order for ties. The sort is modelled as a function on sequences (insertion sort), not as the library's in-place sort.
- Search: ASCII case folding only. `localizedCaseInsensitiveContains` also folds non-ASCII letters and follows the locale.
- PoolComparisonView.NumberIn: `Character.isNumber` also accepts non-ASCII numerals; only ASCII digits are modelled. A negative number comes back without its sign (`NumberInShow`); every value the rows show is a non-negative count or percentage.
- PoolComparisonView.KeyMetricsHighlightBetter: states the colouring only for non-negative failure totals and counts that fit an `Int`; a negative recorded failure count is not covered.
- Text: `capitalized` task states, emoji texts, localized strings and string interpolation are datatypes with their numbers; only the comparison rows' texts are modelled as strings.
- The SwiftUI views themselves: layout, navigation, gradients other than the health gradient, the detailed metrics card and the pull-to-refresh are not modelled.
- Data loading: the fetch itself is an input to `LoadWorkers` (a listing, or `None` for a thrown error); the error message it prints is not modelled. `loadData`, pagination of the listing and the whole of `TaskclusterAPI.swift` are not part of this model; nor are `ContentView.swift` and `WorkerDetailView.swift`.
- WorkerList.WorkerListView.LoadWorkers: the background task-status fetch it starts after a listing arrives is `FetchTaskStates`, called on its own; their interleaving is not modelled.
- Analytics.FleetAnalytics.AverageWorkerAge: its own contract states only the zero case. Its value is `Numeric.Mean` of the known ages, whose total-times-count law is stated on `Mean`; `AverageAgeWithin` bounds it and `AverageOfEqualAges` fixes it when all dated ages agree.
- WorkerList.LexLess: compares characters one by one. Swift's String `<` compares canonically equivalent Unicode text as equal; for ASCII worker ids the two agree.
- `PoolPreset.id` is a fresh `UUID` per preset and is not modelled; presets are identified by their fields.
