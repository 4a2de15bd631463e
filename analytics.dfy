/**
 * The fleet analytics engine: every value is derived from one snapshot of
 * the worker list taken at one instant `now`, and a comparison of two such
 * snapshots.
 *
 * The app's `Double` ratios are `real` here (exact); each threshold on a
 * ratio is also restated over the integer counts it is made of.
 */
module Analytics {
  import opened Wrappers
  import opened Numeric
  import opened Seqs
  import opened Models
  import Palette

  datatype Heart = GreenHeart | YellowHeart | OrangeHeart | RedHeart

  /** The three buckets of the activity breakdown. */
  datatype Bucket = ActiveBucket | RecentBucket | IdleBucket

  datatype Activity = Activity(active: int, recent: int, idle: int)

  /** The four messages of the performance summary, with the number each shows. */
  datatype Summary =
    | ExcellentSummary(activePercent: int)
    | GoodSummary(totalFailures: int)
    | IssuesSummary(quarantined: int)
    | CriticalSummary

  datatype Trend = Degrading | Improving | Stable

  /** The anomaly messages, with the numbers and the worker they name. */
  datatype Anomaly =
    | HighQuarantineRate(percent: int)
    | FailureConcentration(workerId: string, failures: int)
    | HighIdleRate(percent: int)
    | NoActiveWorkers

  /** The four capacity emoji: over 80%, over 50%, over 20%, the rest. */
  datatype Utilization = Saturated | Busy | Relaxed | Sleeping

  /** Age windows of the activity breakdown, in seconds since the last activity. */
  const ActiveWindow: int := 1800
  const RecentWindow: int := 86400
  /** Workers active within this many seconds form the cohort of the trend estimate. */
  const CohortWindow: int := 3600

  /** The bucket a worker falls in, classified on its own. */
  function BucketOf(w: Worker, now: int): Bucket {
    match w.LastActive()
    case None => IdleBucket
    case Some(last) =>
      if now - last < ActiveWindow then ActiveBucket
      else if now - last < RecentWindow then RecentBucket
      else IdleBucket
  }

  /** Scaling the health formula by the fleet size scales each ratio in it. */
  lemma WeightedPenalties(fr: real, qr: real, ar: real, nr: real)
    ensures (100.0 - fr * 30.0 - qr * 25.0 - (1.0 - ar) * 20.0) * nr
         == 100.0 * nr - (fr * nr) * 30.0 - (qr * nr) * 25.0 - (nr - ar * nr) * 20.0
  {
  }

  /** The health formula over ratios of counts is one quotient of integers. */
  lemma HealthAlgebra(n: int, a: int, f: int, q: int)
    requires n > 0 && 0 <= a <= n && 0 <= f <= n && 0 <= q <= n
    ensures 25 * n <= 100 * n - 30 * f - 25 * q - 20 * (n - a) <= 100 * n
    ensures 100.0 - (f as real / n as real) * 30.0 - (q as real / n as real) * 25.0
              - (1.0 - a as real / n as real) * 20.0
         == (100 * n - 30 * f - 25 * q - 20 * (n - a)) as real / n as real
  {
    var nr := n as real;
    FractionBounds(a, n);
    FractionBounds(f, n);
    FractionBounds(q, n);
    var ar, fr, qr := a as real / nr, f as real / nr, q as real / nr;
    var hv := 100.0 - fr * 30.0 - qr * 25.0 - (1.0 - ar) * 20.0;
    WeightedPenalties(fr, qr, ar, nr);
    assert hv * nr == (100 * n - 30 * f - 25 * q - 20 * (n - a)) as real;
    Unscale(hv, (100 * n - 30 * f - 25 * q - 20 * (n - a)) as real, nr);
  }

  /** The order of the anomaly checks. */
  function Rank(a: Anomaly): nat {
    match a
    case HighQuarantineRate(_) => 0
    case FailureConcentration(_, _) => 1
    case HighIdleRate(_) => 2
    case NoActiveWorkers => 3
  }

  /** `num / den` as a `Double`, or 0 when there is nothing to divide by. */
  function Ratio(num: int, den: int): real {
    if den == 0 then 0.0 else num as real / den as real
  }

  /** `x` times `n`. */
  function Scaled(x: real, n: int): real {
    x * n as real
  }

  lemma RatioScales(num: nat, den: nat)
    ensures Ratio(num, den) >= 0.0
    ensures den > 0 ==> Scaled(Ratio(num, den), den) == num as real
  {
    if den > 0 {
      var r := num as real / den as real;
      assert r * den as real == num as real;
      NonNegativeFactor(r, den as real);
    }
  }

  /** More than 1.2 times the overall rate is degrading, under 0.8 times improving. */
  function TrendOf(recentRate: real, rate: real): Trend {
    if recentRate > rate * 1.2 then Degrading
    else if recentRate < rate * 0.8 then Improving
    else Stable
  }

  /**
   * The anomaly checks, in order: quarantined share above 10%, a top failer
   * with 4 or more failures, idle share above 50%, no worker in the active
   * bucket. Shares are taken of `max(1, n)`.
   */
  function AnomalyList(n: int, quarantined: int, top: seq<Worker>, activity: Activity): seq<Anomaly> {
    var quarantineRate := quarantined as real / Max(1, n) as real;
    var idlePercent := activity.idle as real / Max(1, n) as real;
    (if quarantineRate > 0.1 then [HighQuarantineRate(Trunc(quarantineRate * 100.0))] else [])
    + (if |top| > 0 && top[0].recentFailures >= 4
       then [FailureConcentration(top[0].workerId, top[0].recentFailures)] else [])
    + (if idlePercent > 0.5 then [HighIdleRate(Trunc(idlePercent * 100.0))] else [])
    + (if activity.active == 0 && n > 0 then [NoActiveWorkers] else [])
  }

  function UtilizationOf(util: real): Utilization {
    if util > 0.8 then Saturated
    else if util > 0.5 then Busy
    else if util > 0.2 then Relaxed
    else Sleeping
  }

  /** Failure counts never increase along `s`. */
  ghost predicate FailuresDescending(s: seq<Worker>) {
    forall i, j :: 0 <= i < j < |s| ==> s[i].recentFailures >= s[j].recentFailures
  }

  function InsertByFailures(w: Worker, s: seq<Worker>): (r: seq<Worker>)
    requires FailuresDescending(s)
    ensures |r| == |s| + 1
    ensures forall i :: 0 <= i < |r| ==> r[i] == w || r[i] in s
    ensures multiset(r) == multiset(s) + multiset{w}
    ensures FailuresDescending(r)
  {
    if s == [] || s[0].recentFailures <= w.recentFailures then
      PrependByFailures(w, s);
      [w] + s
    else
      var tail := InsertByFailures(w, s[1..]);
      assert s == [s[0]] + s[1..];
      PrependByFailures(s[0], tail);
      [s[0]] + tail
  }

  /** A worker with at least as many failures as the head of a descending list may go in front of it. */
  lemma PrependByFailures(x: Worker, s: seq<Worker>)
    requires FailuresDescending(s)
    requires forall i :: 0 <= i < |s| ==> x.recentFailures >= s[i].recentFailures
    ensures FailuresDescending([x] + s)
  {
  }

  /** A reordering of `s` by descending failure count (no claim on ties). */
  function SortByFailures(s: seq<Worker>): (r: seq<Worker>)
    ensures FailuresDescending(r)
    ensures multiset(r) == multiset(s)
  {
    if s == [] then []
    else
      assert s == [s[0]] + s[1..];
      InsertByFailures(s[0], SortByFailures(s[1..]))
  }

  /** An age taken as it is, for summing ages. */
  function Seconds(): int -> int {
    (x: int) => x
  }

  /** The workers whose first claim parses. */
  function Dated(): Worker -> bool {
    (w: Worker) => w.FirstClaimDate().Some?
  }

  /** The workers counted as failing in the ranking: a positive failure count. */
  function HasFailures(): Worker -> bool {
    (w: Worker) => w.recentFailures > 0
  }

  /**
   * The first `k` of a descending ranking of `failing` are a top `k`: they
   * are drawn from `failing`, and every worker left out has no more
   * failures than any worker kept.
   */
  lemma TopOfRanking(failing: seq<Worker>, ranked: seq<Worker>, k: nat)
    requires FailuresDescending(ranked)
    requires multiset(ranked) == multiset(failing)
    requires k <= |ranked|
    ensures forall i, j :: 0 <= i < j < k ==> ranked[..k][i].recentFailures >= ranked[..k][j].recentFailures
    ensures multiset(ranked[..k]) <= multiset(failing)
    ensures forall w :: w in multiset(failing) - multiset(ranked[..k]) ==>
              forall v :: v in ranked[..k] ==> w.recentFailures <= v.recentFailures
  {
    assert ranked == ranked[..k] + ranked[k..];
    assert multiset(failing) - multiset(ranked[..k]) == multiset(ranked[k..]);
    forall w | w in multiset(ranked[k..])
      ensures forall v :: v in ranked[..k] ==> w.recentFailures <= v.recentFailures
    {
      BelowCut(ranked, k, w);
    }
  }

  /** In a descending ranking, a worker after position `k` has no more failures than any before it. */
  lemma BelowCut(ranked: seq<Worker>, k: nat, w: Worker)
    requires FailuresDescending(ranked)
    requires k <= |ranked|
    requires w in ranked[k..]
    ensures forall v :: v in ranked[..k] ==> w.recentFailures <= v.recentFailures
  {
    var m :| k <= m < |ranked| && ranked[m] == w;
    forall v | v in ranked[..k] ensures w.recentFailures <= v.recentFailures {
      var i :| 0 <= i < k && ranked[i] == v;
    }
  }

  /** What a prefix of the failing workers in descending order inherits from the list. */
  lemma RankedPrefix(ws: seq<Worker>, ranked: seq<Worker>, k: nat)
    requires FailuresDescending(ranked)
    requires multiset(ranked) == multiset(Filter(ws, HasFailures()))
    requires k <= |ranked|
    ensures |ranked| == Count(ws, HasFailures())
    ensures forall i :: 0 <= i < k ==> ranked[i] in ws && ranked[i].recentFailures > 0
    ensures multiset(ranked[..k]) <= multiset(ws)
    ensures k > 0 ==> forall w :: w in ws ==> w.recentFailures <= ranked[0].recentFailures
  {
    RankedFromList(ws, ranked);
    assert ranked == ranked[..k] + ranked[k..];
    assert multiset(ranked[..k]) <= multiset(ranked);
    forall i | 0 <= i < k ensures ranked[i] in ws && ranked[i].recentFailures > 0 {
      assert ranked[i] in ranked;
    }
    if k > 0 {
      forall w | w in ws ensures w.recentFailures <= ranked[0].recentFailures {
        if w.recentFailures > 0 {
          var m :| 0 <= m < |ranked| && ranked[m] == w;
        }
      }
    }
  }

  /** The failing workers in any order are exactly the list's workers with a failure, as many times. */
  lemma RankedFromList(ws: seq<Worker>, ranked: seq<Worker>)
    requires multiset(ranked) == multiset(Filter(ws, HasFailures()))
    ensures |ranked| == Count(ws, HasFailures())
    ensures forall v :: v in ranked ==> v in ws && v.recentFailures > 0
    ensures forall w :: w in ws && w.recentFailures > 0 ==> w in ranked
  {
    var failing := Filter(ws, HasFailures());
    assert |multiset(ranked)| == |multiset(failing)|;
    forall v | v in ranked ensures v in ws && v.recentFailures > 0 {
      assert v in multiset(ranked);
      FilterMember(ws, HasFailures(), v);
    }
    forall w | w in ws && w.recentFailures > 0 ensures w in ranked {
      FilterMember(ws, HasFailures(), w);
      assert w in multiset(failing);
    }
  }

  /** The first five (or fewer) of a descending ranking of the failing workers of `ws`, and what they inherit. */
  lemma TopFive(ws: seq<Worker>, ranked: seq<Worker>, top: seq<Worker>)
    requires FailuresDescending(ranked)
    requires multiset(ranked) == multiset(Filter(ws, HasFailures()))
    requires top == ranked[..Min(5, |ranked|)]
    ensures |top| == Min(5, Count(ws, HasFailures()))
    ensures forall i :: 0 <= i < |top| ==> top[i] in ws && top[i].recentFailures > 0
    ensures forall i, j :: 0 <= i < j < |top| ==> top[i].recentFailures >= top[j].recentFailures
    ensures multiset(top) <= multiset(ws)
    ensures |top| > 0 ==> forall w :: w in ws ==> w.recentFailures <= top[0].recentFailures
    ensures multiset(top) <= multiset(Filter(ws, HasFailures()))
    ensures forall w :: w in multiset(Filter(ws, HasFailures())) - multiset(top) ==>
              forall v :: v in top ==> w.recentFailures <= v.recentFailures
  {
    var k := Min(5, |ranked|);
    RankedPrefix(ws, ranked, k);
    TopOfRanking(Filter(ws, HasFailures()), ranked, k);
  }

  /** The age at `now` of each worker in `dated`, all of whose first claims parse. */
  function AgesOf(dated: seq<Worker>, now: int): seq<int>
    requires forall i :: 0 <= i < |dated| ==> dated[i].FirstClaimDate().Some?
  {
    seq(|dated|, i requires 0 <= i < |dated| => now - dated[i].FirstClaimDate().value)
  }

  /** Measuring two lists of dated workers one after the other measures them joined. */
  lemma AgesOfConcat(d1: seq<Worker>, d2: seq<Worker>, now: int)
    requires forall i :: 0 <= i < |d1| ==> d1[i].FirstClaimDate().Some?
    requires forall i :: 0 <= i < |d2| ==> d2[i].FirstClaimDate().Some?
    ensures forall i :: 0 <= i < |d1 + d2| ==> (d1 + d2)[i].FirstClaimDate().Some?
    ensures AgesOf(d1 + d2, now) == AgesOf(d1, now) + AgesOf(d2, now)
  {
    forall i | 0 <= i < |d1 + d2| ensures (d1 + d2)[i].FirstClaimDate().Some? {
      if i >= |d1| {
        assert (d1 + d2)[i] == d2[i - |d1|];
      }
    }
  }

  /** Ages taken one by one from the dated workers are exactly the ages of the listed dated workers. */
  lemma AgesOfDated(ws: seq<Worker>, now: int, ages: seq<int>)
    requires |ages| == |Filter(ws, Dated())|
    requires forall i :: 0 <= i < |ages| ==> ages[i] == now - Filter(ws, Dated())[i].FirstClaimDate().value
    ensures forall x :: x in ages <==>
              exists w :: w in ws && w.FirstClaimDate().Some? && x == now - w.FirstClaimDate().value
  {
    var dated := Filter(ws, Dated());
    forall x ensures x in ages <==> exists w :: w in ws && w.FirstClaimDate().Some? && x == now - w.FirstClaimDate().value {
      if x in ages {
        var i :| 0 <= i < |ages| && ages[i] == x;
        assert dated[i] in multiset(dated);
        FilterMember(ws, Dated(), dated[i]);
      }
      if exists w :: w in ws && w.FirstClaimDate().Some? && x == now - w.FirstClaimDate().value {
        var w :| w in ws && w.FirstClaimDate().Some? && x == now - w.FirstClaimDate().value;
        FilterMember(ws, Dated(), w);
        var i :| 0 <= i < |dated| && dated[i] == w;
        assert ages[i] == x;
      }
    }
  }

  /** An immutable snapshot of a worker list at the instant `now`. */
  datatype FleetAnalytics = FleetAnalytics(workers: seq<Worker>, now: int) {

    function ActiveCount(): nat {
      Count(workers, (w: Worker) => w.IsActive(now))
    }

    function FailingCount(): nat {
      Count(workers, (w: Worker) => w.HasRecentFailure())
    }

    function QuarantinedCount(): nat {
      Count(workers, (w: Worker) => w.IsQuarantined(now))
    }

    function WithTaskCount(): nat {
      Count(workers, HasTask())
    }

    // ---------------------------------------------------------------- health

    /** `100 - failureRatio·30 - quarantineRatio·25 - (1 - activeRatio)·20`. */
    function HealthValue(): real
      requires |workers| > 0
    {
      var n := |workers| as real;
      var activeRatio := ActiveCount() as real / n;
      var failureRatio := FailingCount() as real / n;
      var quarantineRatio := QuarantinedCount() as real / n;
      100.0 - failureRatio * 30.0 - quarantineRatio * 25.0 - (1.0 - activeRatio) * 20.0
    }

    /** The health value scaled by the fleet size: all penalties as integer counts. */
    function PenalisedTotal(): int {
      var n := |workers|;
      100 * n - 30 * FailingCount() - 25 * QuarantinedCount() - 20 * (n - ActiveCount())
    }

    /**
     * The health score: 0 for an empty fleet; otherwise the health value
     * truncated toward zero and clamped to `[0, 100]`. The three penalties
     * total at most 75, so a non-empty fleet scores between 25 and 100,
     * and the score is the integer quotient of the penalised total by the
     * fleet size.
     */
    function HealthScore(): (score: int)
      ensures |workers| == 0 ==> score == 0
      ensures |workers| > 0 ==> 25 <= score <= 100
      ensures |workers| > 0 ==> score == PenalisedTotal() / |workers|
    {
      if |workers| == 0 then 0
      else
        HealthValueIsQuotient();
        TruncOfQuotient(PenalisedTotal(), |workers|);
        QuotientBetween(PenalisedTotal(), |workers|, 25, 100);
        Max(0, Min(100, Trunc(HealthValue())))
    }

    lemma HealthValueIsQuotient()
      requires |workers| > 0
      ensures 25 * |workers| <= PenalisedTotal() <= 100 * |workers|
      ensures HealthValue() == PenalisedTotal() as real / |workers| as real
    {
      HealthAlgebra(|workers|, ActiveCount(), FailingCount(), QuarantinedCount());
    }

    function HealthColor(): Palette.Color {
      var score := HealthScore();
      if 80 <= score <= 100 then Palette.Green
      else if 60 <= score <= 79 then Palette.Yellow
      else if 40 <= score <= 59 then Palette.Orange
      else Palette.Red
    }

    function HealthEmoji(): Heart {
      var score := HealthScore();
      if 80 <= score <= 100 then GreenHeart
      else if 60 <= score <= 79 then YellowHeart
      else if 40 <= score <= 59 then OrangeHeart
      else RedHeart
    }

    // ------------------------------------------------------------- lifecycle

    /**
     * Ages in seconds of the workers whose first claim parses: one per
     * such worker, and each is `now` minus some listed worker's claim
     * (list order is `KnownAgesSnoc`).
     */
    function KnownAges(ws: seq<Worker>): (ages: seq<int>)
      ensures |ages| == Count(ws, Dated())
      ensures forall x :: x in ages <==>
                exists w :: w in ws && w.FirstClaimDate().Some? && x == now - w.FirstClaimDate().value
    {
      var ages := AgesOf(Filter(ws, Dated()), now);
      AgesOfDated(ws, now, ages);
      ages
    }

    /**
     * The mean age of the workers with a parsable first claim, or 0 when
     * there are none, even in a non-empty fleet.
     */
    function AverageWorkerAge(): (avg: real)
      ensures |Filter(workers, Dated())| == 0 ==> avg == 0.0
    {
      var ages := KnownAges(workers);
      Mean(Sum(ages, Seconds()), |ages|)
    }

    function ClaimOrFuture(w: Worker): Instant {
      OrDistantFuture(w.FirstClaimDate())
    }

    function ClaimOrPast(w: Worker): Instant {
      OrDistantPast(w.FirstClaimDate())
    }

    /**
     * `min(by:)` over `s`, resumed at position `i` with `best` the position
     * of the result so far: a worker replaces it only when it claims
     * strictly earlier, so the first of several earliest claims wins. The
     * result claims no later than any worker, and strictly earlier than
     * every worker before it.
     */
    function EarliestFrom(s: seq<Worker>, best: nat, i: nat): (k: nat)
      requires best < i <= |s|
      requires forall j :: 0 <= j < i ==> !Before(ClaimOrFuture(s[j]), ClaimOrFuture(s[best]))
      requires forall j :: 0 <= j < best ==> Before(ClaimOrFuture(s[best]), ClaimOrFuture(s[j]))
      ensures k < |s|
      ensures forall j :: 0 <= j < |s| ==> !Before(ClaimOrFuture(s[j]), ClaimOrFuture(s[k]))
      ensures forall j :: 0 <= j < k ==> Before(ClaimOrFuture(s[k]), ClaimOrFuture(s[j]))
      decreases |s| - i
    {
      if i == |s| then best
      else if Before(ClaimOrFuture(s[i]), ClaimOrFuture(s[best])) then
        forall j | 0 <= j < i
          ensures !Before(ClaimOrFuture(s[j]), ClaimOrFuture(s[i]))
          ensures Before(ClaimOrFuture(s[i]), ClaimOrFuture(s[j]))
        {
          BeforeIsStrictTotalOrder(ClaimOrFuture(s[i]), ClaimOrFuture(s[best]), ClaimOrFuture(s[j]));
          BeforeIsStrictTotalOrder(ClaimOrFuture(s[j]), ClaimOrFuture(s[i]), ClaimOrFuture(s[best]));
        }
        EarliestFrom(s, i, i + 1)
      else
        EarliestFrom(s, best, i + 1)
    }

    /**
     * `max(by:)` over `s`, resumed at position `i` with `best` the position
     * of the result so far: a worker replaces it unless it claims strictly
     * earlier, so the last of several latest claims wins. The result claims
     * no earlier than any worker, and strictly later than every worker
     * after it.
     */
    function LatestFrom(s: seq<Worker>, best: nat, i: nat): (k: nat)
      requires best < i <= |s|
      requires forall j :: 0 <= j < i ==> !Before(ClaimOrPast(s[best]), ClaimOrPast(s[j]))
      requires forall j :: best < j < i ==> Before(ClaimOrPast(s[j]), ClaimOrPast(s[best]))
      ensures k < |s|
      ensures forall j :: 0 <= j < |s| ==> !Before(ClaimOrPast(s[k]), ClaimOrPast(s[j]))
      ensures forall j :: k < j < |s| ==> Before(ClaimOrPast(s[j]), ClaimOrPast(s[k]))
      decreases |s| - i
    {
      if i == |s| then best
      else if !Before(ClaimOrPast(s[i]), ClaimOrPast(s[best])) then
        forall j | 0 <= j < i
          ensures !Before(ClaimOrPast(s[i]), ClaimOrPast(s[j]))
        {
          BeforeIsStrictTotalOrder(ClaimOrPast(s[best]), ClaimOrPast(s[i]), ClaimOrPast(s[j]));
          BeforeIsStrictTotalOrder(ClaimOrPast(s[i]), ClaimOrPast(s[j]), ClaimOrPast(s[best]));
        }
        LatestFrom(s, i, i + 1)
      else
        BeforeIsStrictTotalOrder(ClaimOrPast(s[i]), ClaimOrPast(s[best]), ClaimOrPast(s[best]));
        LatestFrom(s, best, i + 1)
    }

    /**
     * The first worker with the earliest first claim, a missing claim
     * counting as `distantFuture`; there is one for every non-empty list,
     * dated or not.
     */
    function OldestWorker(): (r: Option<Worker>)
      ensures r == None <==> |workers| == 0
      ensures r.Some? ==> r.value in workers
      ensures r.Some? ==> forall w :: w in workers ==> !Before(ClaimOrFuture(w), ClaimOrFuture(r.value))
      ensures r.Some? ==>
                exists k :: 0 <= k < |workers| && workers[k] == r.value &&
                  forall j :: 0 <= j < k ==> Before(ClaimOrFuture(r.value), ClaimOrFuture(workers[j]))
    {
      if |workers| == 0 then None
      else
        var k := EarliestFrom(workers, 0, 1);
        Some(workers[k])
    }

    /** The last worker with the latest first claim, a missing claim counting as `distantPast`. */
    function NewestWorker(): (r: Option<Worker>)
      ensures r == None <==> |workers| == 0
      ensures r.Some? ==> r.value in workers
      ensures r.Some? ==> forall w :: w in workers ==> !Before(ClaimOrPast(r.value), ClaimOrPast(w))
      ensures r.Some? ==>
                exists k :: 0 <= k < |workers| && workers[k] == r.value &&
                  forall j :: k < j < |workers| ==> Before(ClaimOrPast(workers[j]), ClaimOrPast(r.value))
    {
      if |workers| == 0 then None
      else
        var k := LatestFrom(workers, 0, 1);
        Some(workers[k])
    }

    /** Last active more than 30 days before `now`. */
    predicate IsStale(w: Worker) {
      match w.LastActive()
      case None => false
      case Some(last) =>
        var daysSince := (now - last) as real / SecondsPerDay as real;
        daysSince > 30.0
    }

    function StaleWorkers(): seq<Worker> {
      Filter(workers, (w: Worker) => IsStale(w))
    }

    // -------------------------------------------------------------- failures

    function TotalFailures(): int {
      Sum(workers, (w: Worker) => w.recentFailures)
    }

    /**
     * Workers with a recent failure (counted over the whole list) per worker
     * with a latest task; 0 when no worker has a task.
     */
    function FailureRate(): (rate: real)
      ensures WithTaskCount() == 0 ==> rate == 0.0
      ensures WithTaskCount() > 0 ==> Scaled(rate, WithTaskCount()) == FailingCount() as real
      ensures rate >= 0.0
    {
      var failing, withTask := FailingCount(), WithTaskCount();
      RatioScales(failing, withTask);
      Ratio(failing, withTask)
    }

    /** The failing workers in descending order of failures (ties in no promised order). */
    function RankedFailers(): (r: seq<Worker>)
      ensures FailuresDescending(r)
      ensures multiset(r) == multiset(Filter(workers, HasFailures()))
    {
      SortByFailures(Filter(workers, HasFailures()))
    }

    /**
     * At most five workers, each with a recent failure and from the list,
     * in non-increasing order of failures; the first has the most failures
     * of the whole list, and the list is empty only if nobody failed. They
     * are a top five: every failing worker left out has no more failures
     * than any worker shown.
     */
    function TopFailingWorkers(): (r: seq<Worker>)
      ensures |r| == Min(5, Count(workers, HasFailures()))
      ensures forall i :: 0 <= i < |r| ==> r[i] in workers && r[i].recentFailures > 0
      ensures forall i, j :: 0 <= i < j < |r| ==> r[i].recentFailures >= r[j].recentFailures
      ensures multiset(r) <= multiset(workers)
      ensures |r| > 0 ==> forall w :: w in workers ==> w.recentFailures <= r[0].recentFailures
      ensures multiset(r) <= multiset(Filter(workers, HasFailures()))
      ensures forall w :: w in multiset(Filter(workers, HasFailures())) - multiset(r) ==>
                forall v :: v in r ==> w.recentFailures <= v.recentFailures
    {
      var ranked := RankedFailers();
      var top := ranked[..Min(5, |ranked|)];
      TopFive(workers, ranked, top);
      top
    }

    // -------------------------------------------------------------- activity

    predicate InActiveWindow(w: Worker) {
      match w.LastActive()
      case None => false
      case Some(last) => now - last < ActiveWindow
    }

    predicate InRecentWindow(w: Worker) {
      match w.LastActive()
      case None => false
      case Some(last) => ActiveWindow <= now - last < RecentWindow
    }

    /**
     * Active (< 30 min) and recent (30 min to 24 h) are counted; idle is
     * the remainder, so the three add up to the fleet size, and none is
     * negative.
     */
    function ActivityBreakdown(): (a: Activity)
      ensures a.active + a.recent + a.idle == |workers|
      ensures a.active >= 0 && a.recent >= 0 && a.idle >= 0
    {
      var active := Count(workers, (w: Worker) => InActiveWindow(w));
      var recent := Count(workers, (w: Worker) => InRecentWindow(w));
      CountDisjoint(workers, (w: Worker) => InActiveWindow(w), (w: Worker) => InRecentWindow(w));
      Activity(active, recent, |workers| - active - recent)
    }

    // ------------------------------------------------------------ insights

    function PerformanceSummary(): Summary {
      var activity := ActivityBreakdown();
      var activePercent :=
        if |workers| == 0 then 0
        else Trunc(activity.active as real / |workers| as real * 100.0);
      var score := HealthScore();
      if score >= 80 then ExcellentSummary(activePercent)
      else if score >= 60 then GoodSummary(TotalFailures())
      else if score >= 40 then IssuesSummary(QuarantinedCount())
      else CriticalSummary
    }

    predicate InCohort(w: Worker) {
      match w.LastActive()
      case None => false
      case Some(last) => now - last < CohortWindow
    }

    /** Workers active within the last hour. */
    function RecentCohort(): seq<Worker> {
      Filter(workers, (w: Worker) => InCohort(w))
    }

    /** The failing share of the workers active within the last hour. */
    function RecentFailureRate(): real {
      var cohort := RecentCohort();
      Ratio(Count(cohort, (w: Worker) => w.HasRecentFailure()), |cohort|)
    }

    function EstimatedTrend(): Trend {
      TrendOf(RecentFailureRate(), FailureRate())
    }

    function Anomalies(): seq<Anomaly> {
      AnomalyList(|workers|, QuarantinedCount(), TopFailingWorkers(), ActivityBreakdown())
    }

    /**
     * The active bucket's share of the fleet (of 1 for an empty fleet), in
     * `[0, 1]`: the `Ratio` of the two, which times the fleet size gives
     * back the active count.
     */
    function CapacityUtilization(): (u: real)
      ensures 0.0 <= u <= 1.0
      ensures |workers| == 0 ==> u == 0.0
      ensures u == Ratio(ActivityBreakdown().active, Max(1, |workers|))
      ensures Scaled(u, Max(1, |workers|)) == ActivityBreakdown().active as real
    {
      var activity := ActivityBreakdown();
      FractionBounds(activity.active, Max(1, |workers|));
      RatioScales(activity.active, Max(1, |workers|));
      Ratio(activity.active, Max(1, |workers|))
    }

    function UtilizationEmoji(): Utilization {
      UtilizationOf(CapacityUtilization())
    }
  }

  // ----------------------------------------------------------------- lemmas

  /** An empty fleet scores 0 and has no failures, failers, buckets or anomalies. */
  lemma EmptyFleet(now: int)
    ensures FleetAnalytics([], now).HealthScore() == 0
    ensures FleetAnalytics([], now).TotalFailures() == 0
    ensures FleetAnalytics([], now).FailureRate() == 0.0
    ensures FleetAnalytics([], now).TopFailingWorkers() == []
    ensures FleetAnalytics([], now).ActivityBreakdown() == Activity(0, 0, 0)
    ensures FleetAnalytics([], now).Anomalies() == []
    ensures FleetAnalytics([], now).OldestWorker() == None
    ensures FleetAnalytics([], now).AverageWorkerAge() == 0.0
  {
  }

  /** The colour and the heart both follow the four score bands of the palette. */
  lemma HealthIndicatorsFollowBands(fa: FleetAnalytics)
    ensures Palette.BandOf(fa.HealthScore()) == Palette.Excellent
            <==> fa.HealthColor() == Palette.Green && fa.HealthEmoji() == GreenHeart
    ensures Palette.BandOf(fa.HealthScore()) == Palette.Good
            <==> fa.HealthColor() == Palette.Yellow && fa.HealthEmoji() == YellowHeart
    ensures Palette.BandOf(fa.HealthScore()) == Palette.Degraded
            <==> fa.HealthColor() == Palette.Orange && fa.HealthEmoji() == OrangeHeart
    ensures Palette.BandOf(fa.HealthScore()) == Palette.Critical
            <==> fa.HealthColor() == Palette.Red && fa.HealthEmoji() == RedHeart
  {
  }

  /**
   * With 10 workers, all active, 3 quarantined and 2 failing, the health
   * value is 86.5 and the score is 86: the value is truncated, not rounded.
   */
  lemma HealthScoreTruncates(fa: FleetAnalytics)
    requires |fa.workers| == 10 && fa.ActiveCount() == 10
    requires fa.QuarantinedCount() == 3 && fa.FailingCount() == 2
    ensures fa.HealthValue() == 86.5
    ensures fa.HealthScore() == 86
  {
    fa.HealthValueIsQuotient();
  }

  /**
   * The breakdown counts each worker in the bucket it falls in on its own:
   * the active and recent windows, and everything else (including every
   * worker with no last activity) idle.
   */
  lemma BreakdownByBuckets(fa: FleetAnalytics)
    ensures fa.ActivityBreakdown().active == Count(fa.workers, (w: Worker) => BucketOf(w, fa.now) == ActiveBucket)
    ensures fa.ActivityBreakdown().recent == Count(fa.workers, (w: Worker) => BucketOf(w, fa.now) == RecentBucket)
    ensures fa.ActivityBreakdown().idle == Count(fa.workers, (w: Worker) => BucketOf(w, fa.now) == IdleBucket)
  {
    var ws, now := fa.workers, fa.now;
    FilterCongruent(ws, (w: Worker) => fa.InActiveWindow(w), (w: Worker) => BucketOf(w, now) == ActiveBucket);
    FilterCongruent(ws, (w: Worker) => fa.InRecentWindow(w), (w: Worker) => BucketOf(w, now) == RecentBucket);
    CountUnion(ws, (w: Worker) => BucketOf(w, now) == ActiveBucket, (w: Worker) => BucketOf(w, now) == RecentBucket,
               (w: Worker) => BucketOf(w, now) != IdleBucket);
    FilterSplit(ws, (w: Worker) => BucketOf(w, now) == IdleBucket, (w: Worker) => BucketOf(w, now) != IdleBucket);
  }

  /** Every recorded failure is at least one, so the total is at least the number of failing workers. */
  lemma TotalFailuresCoverFailing(fa: FleetAnalytics)
    requires forall w :: w in fa.workers ==> w.recentFailures >= 0
    ensures fa.TotalFailures() >= fa.FailingCount()
  {
    SumAtLeastCount(fa.workers, (w: Worker) => w.recentFailures, (w: Worker) => w.HasRecentFailure());
  }

  /**
   * The failure rate counts failing workers over the whole list but divides
   * by the workers with a task; it stays within `[0, 1]` as long as only
   * workers with a task carry failures.
   */
  lemma FailureRateAtMostOne(fa: FleetAnalytics)
    requires forall w :: w in fa.workers && w.HasRecentFailure() ==> w.latestTask.Some?
    ensures 0.0 <= fa.FailureRate() <= 1.0
  {
    CountMonotone(fa.workers, (w: Worker) => w.HasRecentFailure(), HasTask());
    if fa.WithTaskCount() > 0 {
      FractionBounds(fa.FailingCount(), fa.WithTaskCount());
    }
  }

  /**
   * The trend thresholds over integer counts: `a` failing of `b` in the
   * cohort against `c` failing per `d` with a task. `recent > 1.2·overall`
   * is `5·a·d > 6·c·b` and `recent < 0.8·overall` is `5·a·d < 4·c·b`; an
   * empty denominator makes its rate 0.
   */
  lemma TrendCounts(a: nat, b: nat, c: nat, d: nat)
    ensures b > 0 && d > 0 ==>
              (TrendOf(Ratio(a, b), Ratio(c, d)) == Degrading <==> 5 * a * d > 6 * c * b) &&
              (TrendOf(Ratio(a, b), Ratio(c, d)) == Improving <==> 5 * a * d < 4 * c * b)
    ensures b == 0 ==>
              (TrendOf(Ratio(a, b), Ratio(c, d)) == Improving <==> d > 0 && c > 0) &&
              TrendOf(Ratio(a, b), Ratio(c, d)) != Degrading
    ensures b > 0 && d == 0 ==>
              (TrendOf(Ratio(a, b), Ratio(c, d)) == Degrading <==> a > 0) &&
              TrendOf(Ratio(a, b), Ratio(c, d)) != Improving
  {
    if b > 0 && d > 0 {
      TrendBothRated(a, b, c, d);
    } else if b == 0 {
      TrendNoCohort(a, c, d);
    } else if d == 0 {
      TrendNoTasks(a, b, c);
    }
  }

  /** With both denominators positive, the thresholds compare cross products. */
  lemma TrendBothRated(a: nat, b: nat, c: nat, d: nat)
    requires b > 0 && d > 0
    ensures TrendOf(Ratio(a, b), Ratio(c, d)) == Degrading <==> 5 * a * d > 6 * c * b
    ensures TrendOf(Ratio(a, b), Ratio(c, d)) == Improving <==> 5 * a * d < 4 * c * b
  {
    RatioAbove(a, b, c, d);
    RatioBelow(a, b, c, d);
  }

  /** `a/b > 1.2·(c/d)` is `5·a·d > 6·c·b`. */
  lemma RatioAbove(a: nat, b: nat, c: nat, d: nat)
    requires b > 0 && d > 0
    ensures Ratio(a, b) > Ratio(c, d) * 1.2 <==> 5 * a * d > 6 * c * b
  {
    CrossMultiply(a, b, c, d, 1.2);
    assert (a as real) * (d as real) == (a * d) as real;
    assert 1.2 * (c as real) * (b as real) == (6 * c * b) as real / 5.0;
  }

  /** `a/b < 0.8·(c/d)` is `5·a·d < 4·c·b`. */
  lemma RatioBelow(a: nat, b: nat, c: nat, d: nat)
    requires b > 0 && d > 0
    ensures Ratio(a, b) < Ratio(c, d) * 0.8 <==> 5 * a * d < 4 * c * b
  {
    CrossMultiply(a, b, c, d, 0.8);
    assert (a as real) * (d as real) == (a * d) as real;
    assert 0.8 * (c as real) * (b as real) == (4 * c * b) as real / 5.0;
  }

  /** An empty cohort rates 0: improving exactly when the overall rate is positive. */
  lemma TrendNoCohort(a: nat, c: nat, d: nat)
    ensures TrendOf(Ratio(a, 0), Ratio(c, d)) == Improving <==> d > 0 && c > 0
    ensures TrendOf(Ratio(a, 0), Ratio(c, d)) != Degrading
  {
    if d > 0 && c > 0 {
      PositiveProduct(c as real, 1.0 / d as real);
      PositiveProduct(c as real / d as real, 0.8);
    }
  }

  /** No worker with a task rates 0 overall: degrading exactly when the cohort has a failure. */
  lemma TrendNoTasks(a: nat, b: nat, c: nat)
    requires b > 0
    ensures TrendOf(Ratio(a, b), Ratio(c, 0)) == Degrading <==> a > 0
    ensures TrendOf(Ratio(a, b), Ratio(c, 0)) != Improving
  {
    if a > 0 {
      PositiveProduct(a as real, 1.0 / b as real);
    }
  }

  /** The fleet's trend, restated over its counts as in `TrendCounts`. */
  lemma TrendInCounts(fa: FleetAnalytics)
    ensures var a, b := Count(fa.RecentCohort(), (w: Worker) => w.HasRecentFailure()), |fa.RecentCohort()|;
            var c, d := fa.FailingCount(), fa.WithTaskCount();
            (b > 0 && d > 0 ==>
               (fa.EstimatedTrend() == Degrading <==> 5 * a * d > 6 * c * b) &&
               (fa.EstimatedTrend() == Improving <==> 5 * a * d < 4 * c * b)) &&
            (b == 0 ==>
               (fa.EstimatedTrend() == Improving <==> d > 0 && c > 0) && fa.EstimatedTrend() != Degrading) &&
            (b > 0 && d == 0 ==>
               (fa.EstimatedTrend() == Degrading <==> a > 0) && fa.EstimatedTrend() != Improving)
  {
    TrendCounts(Count(fa.RecentCohort(), (w: Worker) => w.HasRecentFailure()), |fa.RecentCohort()|,
                fa.FailingCount(), fa.WithTaskCount());
  }

  /** With no failing worker anywhere, both rates are 0 and the trend is stable. */
  lemma NoFailuresIsStable(fa: FleetAnalytics)
    requires fa.FailingCount() == 0
    ensures fa.EstimatedTrend() == Stable
  {
    var cohortFailing := Count(fa.RecentCohort(), (w: Worker) => w.HasRecentFailure());
    FilterFilter(fa.workers, (w: Worker) => fa.InCohort(w), (w: Worker) => w.HasRecentFailure(),
                 (w: Worker) => fa.InCohort(w) && w.HasRecentFailure());
    CountMonotone(fa.workers, (w: Worker) => fa.InCohort(w) && w.HasRecentFailure(), (w: Worker) => w.HasRecentFailure());
    TrendCounts(cohortFailing, |fa.RecentCohort()|, 0, fa.WithTaskCount());
  }

  /** The anomalies come out in the order of the checks, each at most once. */
  lemma AnomalyListInCheckOrder(n: int, quarantined: int, top: seq<Worker>, activity: Activity)
    ensures var list := AnomalyList(n, quarantined, top, activity);
            forall i, j :: 0 <= i < j < |list| ==> Rank(list[i]) < Rank(list[j])
  {
    var quarantineRate := quarantined as real / Max(1, n) as real;
    var idlePercent := activity.idle as real / Max(1, n) as real;
    var x0 := if quarantineRate > 0.1 then [HighQuarantineRate(Trunc(quarantineRate * 100.0))] else [];
    var x1 := if |top| > 0 && top[0].recentFailures >= 4
              then [FailureConcentration(top[0].workerId, top[0].recentFailures)] else [];
    var x2 := if idlePercent > 0.5 then [HighIdleRate(Trunc(idlePercent * 100.0))] else [];
    var x3 := if activity.active == 0 && n > 0 then [NoActiveWorkers] else [];
    var ranks := seq(|x0|, _ => 0) + seq(|x1|, _ => 1) + seq(|x2|, _ => 2) + seq(|x3|, _ => 3);
    var list := x0 + x1 + x2 + x3;
    assert |ranks| == |list|;
    forall k | 0 <= k < |list| ensures Rank(list[k]) == ranks[k] {
    }
  }

  lemma AnomaliesInCheckOrder(fa: FleetAnalytics)
    ensures forall i, j :: 0 <= i < j < |fa.Anomalies()| ==> Rank(fa.Anomalies()[i]) < Rank(fa.Anomalies()[j])
  {
    AnomalyListInCheckOrder(|fa.workers|, fa.QuarantinedCount(), fa.TopFailingWorkers(), fa.ActivityBreakdown());
  }

  /** "No active workers" is reported exactly for a non-empty fleet with nobody in the active bucket. */
  lemma NoActiveReported(n: int, quarantined: int, top: seq<Worker>, activity: Activity)
    ensures NoActiveWorkers in AnomalyList(n, quarantined, top, activity) <==> n > 0 && activity.active == 0
  {
  }

  lemma NoActiveWorkersReported(fa: FleetAnalytics)
    ensures NoActiveWorkers in fa.Anomalies() <==> |fa.workers| > 0 && fa.ActivityBreakdown().active == 0
  {
    NoActiveReported(|fa.workers|, fa.QuarantinedCount(), fa.TopFailingWorkers(), fa.ActivityBreakdown());
  }

  /**
   * A quarantined share above 10% is the first anomaly, reported with the
   * truncated percentage `100·q / max(1, n)`.
   */
  lemma QuarantineReported(n: int, quarantined: nat, top: seq<Worker>, activity: Activity)
    ensures var list, m := AnomalyList(n, quarantined, top, activity), Max(1, n);
            (|list| > 0 && list[0].HighQuarantineRate? <==> 10 * quarantined > m) &&
            (10 * quarantined > m ==> list[0] == HighQuarantineRate(100 * quarantined / m))
  {
    var m := Max(1, n);
    CrossMultiply(quarantined, m, 1, 10, 1.0);
    PercentOf(quarantined, m);
  }

  lemma QuarantineAnomaly(fa: FleetAnalytics)
    ensures var q, m := fa.QuarantinedCount(), Max(1, |fa.workers|);
            (|fa.Anomalies()| > 0 && fa.Anomalies()[0].HighQuarantineRate? <==> 10 * q > m) &&
            (10 * q > m ==> fa.Anomalies()[0] == HighQuarantineRate(100 * q / m))
  {
    QuarantineReported(|fa.workers|, fa.QuarantinedCount(), fa.TopFailingWorkers(), fa.ActivityBreakdown());
  }

  /**
   * An idle share above half is reported with the truncated percentage
   * `100·idle / max(1, n)`, which then lies in `[50, 100]` when the idle
   * count is at most the fleet size.
   */
  lemma IdleReported(n: int, quarantined: int, top: seq<Worker>, activity: Activity)
    requires 0 <= activity.idle <= Max(1, n)
    ensures var list, m := AnomalyList(n, quarantined, top, activity), Max(1, n);
            (HighIdleRate(100 * activity.idle / m) in list <==> 2 * activity.idle > m) &&
            (forall a :: a in list && a.HighIdleRate? ==> a.percent == 100 * activity.idle / m) &&
            (2 * activity.idle > m ==> 50 <= 100 * activity.idle / m <= 100)
  {
    var m := Max(1, n);
    CrossMultiply(activity.idle, m, 1, 2, 1.0);
    PercentOf(activity.idle, m);
    if 2 * activity.idle > m {
      QuotientBetween(100 * activity.idle, m, 50, 100);
    }
  }

  lemma IdleAnomaly(fa: FleetAnalytics)
    ensures var idle, m := fa.ActivityBreakdown().idle, Max(1, |fa.workers|);
            (HighIdleRate(100 * idle / m) in fa.Anomalies() <==> 2 * idle > m) &&
            (forall a :: a in fa.Anomalies() && a.HighIdleRate? ==> a.percent == 100 * idle / m) &&
            (2 * idle > m ==> 50 <= 100 * idle / m <= 100)
  {
    IdleReported(|fa.workers|, fa.QuarantinedCount(), fa.TopFailingWorkers(), fa.ActivityBreakdown());
  }

  /** A failure concentration is reported exactly when the top failer has 4 or more failures, and names it. */
  lemma ConcentrationReported(n: int, quarantined: int, top: seq<Worker>, activity: Activity)
    ensures var list := AnomalyList(n, quarantined, top, activity);
            ((exists a :: a in list && a.FailureConcentration?) <==> |top| > 0 && top[0].recentFailures >= 4) &&
            (forall a :: a in list && a.FailureConcentration? ==>
               a == FailureConcentration(top[0].workerId, top[0].recentFailures))
  {
    if |top| > 0 && top[0].recentFailures >= 4 {
      assert FailureConcentration(top[0].workerId, top[0].recentFailures) in AnomalyList(n, quarantined, top, activity);
    }
  }

  /**
   * A failure concentration is reported exactly when some worker has 4 or
   * more failures, and it names a worker with the most failures.
   */
  lemma FailureConcentrationAnomaly(fa: FleetAnalytics)
    ensures (exists a :: a in fa.Anomalies() && a.FailureConcentration?)
            <==> (exists w :: w in fa.workers && w.recentFailures >= 4)
    ensures forall a :: a in fa.Anomalies() && a.FailureConcentration? ==>
              a.failures >= 4 &&
              (exists w :: w in fa.workers && w.workerId == a.workerId && w.recentFailures == a.failures) &&
              (forall w :: w in fa.workers ==> w.recentFailures <= a.failures)
  {
    var top := fa.TopFailingWorkers();
    ConcentrationReported(|fa.workers|, fa.QuarantinedCount(), top, fa.ActivityBreakdown());
    TopHeadIsMostFailing(fa);
  }

  /** The head of the failure ranking has 4 or more failures exactly when some worker does, and has the most. */
  lemma TopHeadIsMostFailing(fa: FleetAnalytics)
    ensures var top := fa.TopFailingWorkers();
            ((|top| > 0 && top[0].recentFailures >= 4) <==> exists w :: w in fa.workers && w.recentFailures >= 4) &&
            (|top| > 0 ==> top[0] in fa.workers && forall w :: w in fa.workers ==> w.recentFailures <= top[0].recentFailures)
  {
    var top := fa.TopFailingWorkers();
    if w :| w in fa.workers && w.recentFailures >= 4 {
      TopNonEmptyWhenFailing(fa, w);
    }
  }

  /** A worker with a failure makes the ranking non-empty. */
  lemma TopNonEmptyWhenFailing(fa: FleetAnalytics, w: Worker)
    requires w in fa.workers && w.recentFailures > 0
    ensures |fa.TopFailingWorkers()| > 0
  {
    FilterMember(fa.workers, HasFailures(), w);
  }

  /**
   * The summary message follows the same four bands as the health colour,
   * and shows the active percentage `100·active / n`, the total failures
   * or the quarantined count.
   */
  lemma SummaryFollowsHealth(fa: FleetAnalytics)
    ensures fa.PerformanceSummary().ExcellentSummary? <==> fa.HealthColor() == Palette.Green
    ensures fa.PerformanceSummary().GoodSummary? <==> fa.HealthColor() == Palette.Yellow
    ensures fa.PerformanceSummary().IssuesSummary? <==> fa.HealthColor() == Palette.Orange
    ensures fa.PerformanceSummary() == CriticalSummary <==> fa.HealthColor() == Palette.Red
    ensures fa.PerformanceSummary().ExcellentSummary? ==>
              |fa.workers| > 0 &&
              fa.PerformanceSummary().activePercent == 100 * fa.ActivityBreakdown().active / |fa.workers|
    ensures fa.PerformanceSummary().GoodSummary? ==> fa.PerformanceSummary().totalFailures == fa.TotalFailures()
    ensures fa.PerformanceSummary().IssuesSummary? ==> fa.PerformanceSummary().quarantined == fa.QuarantinedCount()
  {
    SummaryBuckets(fa);
    if |fa.workers| > 0 {
      ActivePercentIsQuotient(fa);
    }
  }

  /** Which summary is shown follows the health score's bucket, like the health colour. */
  lemma SummaryBuckets(fa: FleetAnalytics)
    ensures fa.PerformanceSummary().ExcellentSummary? <==> fa.HealthColor() == Palette.Green
    ensures fa.PerformanceSummary().GoodSummary? <==> fa.HealthColor() == Palette.Yellow
    ensures fa.PerformanceSummary().IssuesSummary? <==> fa.HealthColor() == Palette.Orange
    ensures fa.PerformanceSummary() == CriticalSummary <==> fa.HealthColor() == Palette.Red
    ensures fa.PerformanceSummary().GoodSummary? ==> fa.PerformanceSummary().totalFailures == fa.TotalFailures()
    ensures fa.PerformanceSummary().IssuesSummary? ==> fa.PerformanceSummary().quarantined == fa.QuarantinedCount()
  {
  }

  /** The excellent summary's percentage is the integer quotient `100·active / n`. */
  lemma ActivePercentIsQuotient(fa: FleetAnalytics)
    requires |fa.workers| > 0
    ensures fa.PerformanceSummary().ExcellentSummary? ==>
              fa.PerformanceSummary().activePercent == 100 * fa.ActivityBreakdown().active / |fa.workers|
  {
    PercentOf(fa.ActivityBreakdown().active, |fa.workers|);
  }

  /** The capacity emoji's thresholds over `a` active of `m`. */
  lemma UtilizationCounts(a: int, m: int)
    requires m > 0
    ensures var u := UtilizationOf(a as real / m as real);
            (u == Saturated <==> 5 * a > 4 * m) &&
            (u == Busy <==> 2 * a > m && 5 * a <= 4 * m) &&
            (u == Relaxed <==> 5 * a > m && 2 * a <= m) &&
            (u == Sleeping <==> 5 * a <= m)
  {
    CrossMultiply(a, m, 4, 5, 1.0);
    CrossMultiply(a, m, 1, 2, 1.0);
    CrossMultiply(a, m, 1, 5, 1.0);
  }

  lemma UtilizationInCounts(fa: FleetAnalytics)
    ensures var a, m := fa.ActivityBreakdown().active, Max(1, |fa.workers|);
            (fa.UtilizationEmoji() == Saturated <==> 5 * a > 4 * m) &&
            (fa.UtilizationEmoji() == Busy <==> 2 * a > m && 5 * a <= 4 * m) &&
            (fa.UtilizationEmoji() == Relaxed <==> 5 * a > m && 2 * a <= m) &&
            (fa.UtilizationEmoji() == Sleeping <==> 5 * a <= m)
  {
    UtilizationCounts(fa.ActivityBreakdown().active, Max(1, |fa.workers|));
  }

  /** More than 30 days is more than 2,592,000 seconds; a worker never active is never stale. */
  lemma StaleInSeconds(fa: FleetAnalytics, w: Worker)
    ensures fa.IsStale(w) <==> w.LastActive().Some? && fa.now - w.LastActive().value > 30 * SecondsPerDay
  {
    if w.LastActive().Some? {
      CrossMultiply(fa.now - w.LastActive().value, SecondsPerDay, 30, 1, 1.0);
    }
  }

  /** The stale list holds exactly the stale workers of the fleet. */
  lemma StaleWorkersAreTheStale(fa: FleetAnalytics)
    ensures forall w :: w in fa.StaleWorkers() <==> w in fa.workers && fa.IsStale(w)
  {
    var stale := fa.StaleWorkers();
    forall w ensures w in stale <==> w in fa.workers && fa.IsStale(w) {
      if w in stale {
        var i :| 0 <= i < |stale| && stale[i] == w;
        assert w in multiset(stale);
      }
      if w in fa.workers && fa.IsStale(w) {
        var i :| 0 <= i < |fa.workers| && fa.workers[i] == w;
      }
    }
  }

  /** The ages of the dated workers, each measured against `now`. */
  lemma KnownAgesWithin(fa: FleetAnalytics, ws: seq<Worker>, lo: int, hi: int)
    requires forall w :: w in ws && w.FirstClaimDate().Some? ==> lo <= fa.now - w.FirstClaimDate().value <= hi
    ensures forall x :: x in fa.KnownAges(ws) ==> lo <= x <= hi
  {
  }

  /**
   * `compactMap` keeps list order: a worker added at the end adds its age
   * at the end when its first claim parses, and nothing otherwise.
   */
  lemma KnownAgesSnoc(fa: FleetAnalytics, ws: seq<Worker>, w: Worker)
    ensures fa.KnownAges(ws + [w]) ==
              fa.KnownAges(ws) + (if w.FirstClaimDate().Some? then [fa.now - w.FirstClaimDate().value] else [])
  {
    KnownAgesAreAgesOf(fa, ws);
    KnownAgesAreAgesOf(fa, ws + [w]);
    DatedAgesSnoc(ws, w, fa.now);
  }

  /** The snoc law of `KnownAges`, over the dated workers' ages. */
  lemma DatedAgesSnoc(ws: seq<Worker>, w: Worker, now: int)
    ensures forall i :: 0 <= i < |Filter(ws, Dated())| ==> Filter(ws, Dated())[i].FirstClaimDate().Some?
    ensures forall i :: 0 <= i < |Filter(ws + [w], Dated())| ==> Filter(ws + [w], Dated())[i].FirstClaimDate().Some?
    ensures AgesOf(Filter(ws + [w], Dated()), now) ==
              AgesOf(Filter(ws, Dated()), now) + (if w.FirstClaimDate().Some? then [now - w.FirstClaimDate().value] else [])
  {
    var before, tail := Filter(ws, Dated()), if w.FirstClaimDate().Some? then [w] else [];
    FilterSnoc(ws, w, Dated());
    AgesOfConcat(before, tail, now);
    AgesOfAtMostOne(w, tail, now);
  }

  /** `compactMap` is `map` after `filter`. */
  lemma KnownAgesAreAgesOf(fa: FleetAnalytics, ws: seq<Worker>)
    ensures forall i :: 0 <= i < |Filter(ws, Dated())| ==> Filter(ws, Dated())[i].FirstClaimDate().Some?
    ensures fa.KnownAges(ws) == AgesOf(Filter(ws, Dated()), fa.now)
  {
  }

  /** The age of one dated worker, or no age for an undated one. */
  lemma AgesOfAtMostOne(w: Worker, tail: seq<Worker>, now: int)
    requires tail == if w.FirstClaimDate().Some? then [w] else []
    ensures forall i :: 0 <= i < |tail| ==> tail[i].FirstClaimDate().Some?
    ensures AgesOf(tail, now) == if w.FirstClaimDate().Some? then [now - w.FirstClaimDate().value] else []
  {
  }

  /** When every dated worker's age lies in `[lo, hi]` and there is one, so does the average. */
  lemma AverageAgeWithin(fa: FleetAnalytics, lo: int, hi: int)
    requires forall w :: w in fa.workers && w.FirstClaimDate().Some? ==> lo <= fa.now - w.FirstClaimDate().value <= hi
    requires exists w :: w in fa.workers && w.FirstClaimDate().Some?
    ensures lo as real <= fa.AverageWorkerAge() <= hi as real
  {
    var ages := fa.KnownAges(fa.workers);
    var w :| w in fa.workers && w.FirstClaimDate().Some?;
    var i :| 0 <= i < |fa.workers| && fa.workers[i] == w;
    assert w in Filter(fa.workers, Dated());
    KnownAgesWithin(fa, fa.workers, lo, hi);
    SumBounds(ages, Seconds(), lo, hi);
    MeanBetween(Sum(ages, Seconds()), |ages|, lo, hi);
  }

  /** A fleet none of whose workers has a parsable first claim has average age 0, however many workers it has. */
  lemma UndatedFleetAgeIsZero(fa: FleetAnalytics)
    requires forall w :: w in fa.workers ==> w.FirstClaimDate().None?
    ensures fa.AverageWorkerAge() == 0.0
  {
    FilterNone(fa.workers, Dated());
  }

  /** When every dated worker is exactly `age` seconds old, and there is one, the average is `age`. */
  lemma AverageOfEqualAges(fa: FleetAnalytics, age: int)
    requires forall w :: w in fa.workers && w.FirstClaimDate().Some? ==> fa.now - w.FirstClaimDate().value == age
    requires exists w :: w in fa.workers && w.FirstClaimDate().Some?
    ensures fa.AverageWorkerAge() == age as real
  {
    AverageAgeWithin(fa, age, age);
  }

  /** When any worker is dated, the oldest is dated and claimed no later than every dated worker. */
  lemma OldestIsEarliestDated(fa: FleetAnalytics)
    requires exists w :: w in fa.workers && w.FirstClaimDate().Some?
    ensures fa.OldestWorker().Some? && fa.OldestWorker().value.FirstClaimDate().Some?
    ensures forall w :: w in fa.workers && w.FirstClaimDate().Some? ==>
              fa.OldestWorker().value.FirstClaimDate().value <= w.FirstClaimDate().value
  {
    var w :| w in fa.workers && w.FirstClaimDate().Some?;
    assert !Before(fa.ClaimOrFuture(w), fa.ClaimOrFuture(fa.OldestWorker().value));
  }

  /** When any worker is dated, the newest is dated and claimed no earlier than every dated worker. */
  lemma NewestIsLatestDated(fa: FleetAnalytics)
    requires exists w :: w in fa.workers && w.FirstClaimDate().Some?
    ensures fa.NewestWorker().Some? && fa.NewestWorker().value.FirstClaimDate().Some?
    ensures forall w :: w in fa.workers && w.FirstClaimDate().Some? ==>
              w.FirstClaimDate().value <= fa.NewestWorker().value.FirstClaimDate().value
  {
    var w :| w in fa.workers && w.FirstClaimDate().Some?;
    assert !Before(fa.ClaimOrPast(fa.NewestWorker().value), fa.ClaimOrPast(w));
  }

  // --------------------------------------------------------- pool comparison

  /** One pool's name with the analytics of its fleet. */
  datatype NamedFleet = NamedFleet(name: string, analytics: FleetAnalytics)

  /** The comparison sentence, with the pool it names and the score gap it shows. */
  datatype ComparisonText =
    | SignificantlyBetter(pool: string, gap: nat)
    | SlightlyBetter(pool: string, gap: nat)
    | SimilarPerformance

  datatype PoolComparison = PoolComparison(pool1: NamedFleet, pool2: NamedFleet) {

    function HealthDifference(): int {
      pool1.analytics.HealthScore() - pool2.analytics.HealthScore()
    }

    /** The first pool only when it scores strictly higher; a tie goes to the second. */
    function BetterPool(): string {
      if HealthDifference() > 0 then pool1.name else pool2.name
    }

    /** A gap above 20 points is significant, above 5 slight, otherwise similar. */
    function Comparison(): ComparisonText {
      var diff := Abs(HealthDifference());
      if diff > 20 then SignificantlyBetter(BetterPool(), diff)
      else if diff > 5 then SlightlyBetter(BetterPool(), diff)
      else SimilarPerformance
    }
  }

  /**
   * Scores lie in `[0, 100]`, so the difference does too in absolute value;
   * between two non-empty fleets it is at most 75.
   */
  lemma DifferenceBounds(pc: PoolComparison)
    ensures -100 <= pc.HealthDifference() <= 100
    ensures |pc.pool1.analytics.workers| > 0 && |pc.pool2.analytics.workers| > 0 ==>
              -75 <= pc.HealthDifference() <= 75
  {
  }

  /**
   * The better pool is one whose score is at least the other's; on a tie
   * it is the second pool.
   */
  lemma BetterPoolScoresHigher(pc: PoolComparison)
    ensures pc.BetterPool() == pc.pool1.name || pc.BetterPool() == pc.pool2.name
    ensures pc.pool1.name != pc.pool2.name && pc.BetterPool() == pc.pool1.name ==>
              pc.pool1.analytics.HealthScore() > pc.pool2.analytics.HealthScore()
    ensures pc.pool1.name != pc.pool2.name && pc.BetterPool() == pc.pool2.name ==>
              pc.pool2.analytics.HealthScore() >= pc.pool1.analytics.HealthScore()
    ensures pc.HealthDifference() == 0 ==> pc.BetterPool() == pc.pool2.name
  {
  }

  /**
   * Swapping the two pools keeps the gap and the category of the sentence,
   * and names the same pool unless the scores tie.
   */
  lemma ComparisonSymmetric(pc: PoolComparison)
    ensures PoolComparison(pc.pool2, pc.pool1).HealthDifference() == -pc.HealthDifference()
    ensures pc.HealthDifference() != 0 ==> PoolComparison(pc.pool2, pc.pool1).BetterPool() == pc.BetterPool()
    ensures var c, s := pc.Comparison(), PoolComparison(pc.pool2, pc.pool1).Comparison();
            (c.SimilarPerformance? <==> s.SimilarPerformance?) &&
            (c.SignificantlyBetter? <==> s.SignificantlyBetter?) &&
            (c.SlightlyBetter? <==> s.SlightlyBetter?) &&
            (!c.SimilarPerformance? ==> c.gap == s.gap)
  {
  }

  /** The sentence's category is a function of the gap alone. */
  lemma ComparisonByGap(pc: PoolComparison)
    ensures pc.Comparison().SignificantlyBetter? <==> Abs(pc.HealthDifference()) > 20
    ensures pc.Comparison().SlightlyBetter? <==> 5 < Abs(pc.HealthDifference()) <= 20
    ensures pc.Comparison() == SimilarPerformance <==> Abs(pc.HealthDifference()) <= 5
    ensures !pc.Comparison().SimilarPerformance? ==>
              pc.Comparison().pool == pc.BetterPool() && pc.Comparison().gap == Abs(pc.HealthDifference())
  {
  }
}
