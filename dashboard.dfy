/**
 * The analytics dashboard's own arithmetic: how an age in seconds is
 * abbreviated, how tall each activity bar is, and which gradient frames
 * the health score.
 */
module Dashboard {
  import opened Numeric
  import opened Models
  import Palette
  import Analytics

  // ------------------------------------------------------------------ ages

  /** An abbreviated age: "<n>y", "<n>mo", "<n>d" or "<n>h". */
  datatype Age = Years(n: int) | Months(n: int) | Days(n: int) | Hours(n: int)

  /** Whole days, then years past 365 days, 30-day months past 30 days, days past none, else whole hours. */
  function FormatAge(seconds: real): Age {
    var days := Trunc(seconds / SecondsPerDay as real);
    if days > 365 then Years(days / 365)
    else if days > 30 then Months(days / 30)
    else if days > 0 then Days(days)
    else Hours(Trunc(seconds / 3600.0))
  }

  /**
   * The lifecycle row's own copy, written with early returns: the same
   * tests in the same order, each return ending the chain.
   */
  function LifecycleFormatAge(seconds: real): Age {
    var days := Trunc(seconds / SecondsPerDay as real);
    if days > 365 then Years(days / 365) else
    if days > 30 then Months(days / 30) else
    if days > 0 then Days(days) else
    Hours(Trunc(seconds / 3600.0))
  }

  // ------------------------------------------------------------- bar chart

  /** A bar's fill: `count / total`, or nothing when there is no total. */
  function Percentage(count: int, total: int): real {
    if total > 0 then count as real / total as real else 0.0
  }

  /** The three bars of the activity breakdown, each over the whole fleet. */
  datatype Bars = Bars(active: real, recent: real, idle: real)

  function ActivityBars(fa: Analytics.FleetAnalytics): Bars {
    var activity := fa.ActivityBreakdown();
    Bars(Percentage(activity.active, |fa.workers|),
         Percentage(activity.recent, |fa.workers|),
         Percentage(activity.idle, |fa.workers|))
  }

  // -------------------------------------------------------- health gradient

  function HealthGradient(score: int): seq<Palette.Color> {
    if 80 <= score <= 100 then [Palette.Green, Palette.Mint]
    else if 60 <= score <= 79 then [Palette.Yellow, Palette.Orange]
    else if 40 <= score <= 59 then [Palette.Orange, Palette.Red]
    else [Palette.Red, Palette.Pink]
  }

  // ---------------------------------------------------------------- lemmas

  /**
   * The dashboard keeps two separate copies of `formatAge`
   * (AnalyticsDashboardView.swift:378 and :513); this guards that the
   * duplication is harmless: the two agree on every input, so every
   * property of `FormatAge` holds for the lifecycle row too.
   */
  lemma FormatAgesAgree(seconds: real)
    ensures LifecycleFormatAge(seconds) == FormatAge(seconds)
  {
  }

  /**
   * Which unit an age is shown in, by thresholds on the seconds
   * themselves: years from 366 days on, months from 31 days, days from
   * one day, and hours below that.
   */
  lemma AgeUnits(seconds: real)
    requires seconds >= 0.0
    ensures FormatAge(seconds).Years? <==> seconds >= 366.0 * 86400.0
    ensures FormatAge(seconds).Months? <==> 31.0 * 86400.0 <= seconds < 366.0 * 86400.0
    ensures FormatAge(seconds).Days? <==> 86400.0 <= seconds < 31.0 * 86400.0
    ensures FormatAge(seconds).Hours? <==> seconds < 86400.0
  {
    var days := Trunc(seconds / 86400.0);
    assert days as real <= seconds / 86400.0 < days as real + 1.0;
  }

  /**
   * The number shown: at least one year, one to twelve months, one to
   * thirty days, or zero to twenty-three hours.
   */
  lemma AgeAmounts(seconds: real)
    requires seconds >= 0.0
    ensures var age := FormatAge(seconds);
            (age.Years? ==> age.n >= 1) &&
            (age.Months? ==> 1 <= age.n <= 12) &&
            (age.Days? ==> 1 <= age.n <= 30) &&
            (age.Hours? ==> 0 <= age.n <= 23 && age.n as real <= seconds / 3600.0 < age.n as real + 1.0)
  {
    var days := Trunc(seconds / 86400.0);
    assert days as real <= seconds / 86400.0 < days as real + 1.0;
    if days <= 0 {
      var hours := Trunc(seconds / 3600.0);
      assert seconds < 86400.0;
      assert hours as real <= seconds / 3600.0 < 24.0;
    }
  }

  /** An instant in the future gives an age of zero or fewer hours. */
  lemma FutureAgeInHours(seconds: real)
    requires seconds < 0.0
    ensures FormatAge(seconds).Hours? && FormatAge(seconds).n <= 0
  {
  }

  /** A bar is empty for an empty total, and within the column when the count is. */
  lemma PercentageBounds(count: int, total: int)
    ensures total <= 0 ==> Percentage(count, total) == 0.0
    ensures 0 <= count <= total ==> 0.0 <= Percentage(count, total) <= 1.0
    ensures total > 0 ==> Percentage(count, total) * total as real == count as real
  {
    if 0 <= count <= total && total > 0 {
      FractionBounds(count, total);
    }
  }

  /**
   * The three activity bars each fit the column, and together fill it
   * exactly unless the fleet is empty, when all three are empty.
   */
  lemma BarsFillTheColumn(fa: Analytics.FleetAnalytics)
    ensures var bars := ActivityBars(fa);
            0.0 <= bars.active <= 1.0 && 0.0 <= bars.recent <= 1.0 && 0.0 <= bars.idle <= 1.0 &&
            (|fa.workers| == 0 ==> bars == Bars(0.0, 0.0, 0.0)) &&
            (|fa.workers| > 0 ==> bars.active + bars.recent + bars.idle == 1.0)
  {
    var activity := fa.ActivityBreakdown();
    var n := |fa.workers|;
    PercentageBounds(activity.active, n);
    PercentageBounds(activity.recent, n);
    PercentageBounds(activity.idle, n);
    if n > 0 {
      SharesAddUp(activity.active, activity.recent, activity.idle, n);
    }
  }

  lemma SharesAddUp(a: nat, r: nat, i: nat, n: nat)
    requires n > 0 && a + r + i == n
    ensures Percentage(a, n) + Percentage(r, n) + Percentage(i, n) == 1.0
  {
    var pa, pr, pi, m := Percentage(a, n), Percentage(r, n), Percentage(i, n), n as real;
    PercentageBounds(a, n);
    PercentageBounds(r, n);
    PercentageBounds(i, n);
    assert (pa + pr + pi) * m == pa * m + pr * m + pi * m;
    var u := pa + pr + pi - 1.0;
    assert u * m == 0.0 && (-u) * m == 0.0;
    NonNegativeFactor(u, m);
    NonNegativeFactor(-u, m);
  }

  /** The gradient starts at the fleet's health colour, band by band. */
  lemma GradientFollowsHealth(fa: Analytics.FleetAnalytics)
    ensures |HealthGradient(fa.HealthScore())| == 2
    ensures HealthGradient(fa.HealthScore())[0] == fa.HealthColor()
    ensures HealthGradient(fa.HealthScore())[1] ==
              match Palette.BandOf(fa.HealthScore())
              case Excellent => Palette.Mint
              case Good => Palette.Orange
              case Degraded => Palette.Red
              case Critical => Palette.Pink
  {
  }
}
