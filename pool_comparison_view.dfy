/**
 * The side-by-side comparison screen of two pools: the colour of each
 * health score, the "is healthier" line, the winner card, and the
 * colouring of each metric row, which reads the numbers back out of the
 * texts it shows.
 */
module PoolComparisonView {
  import opened Wrappers
  import opened Numeric
  import opened Seqs
  import Palette
  import Analytics

  // ---------------------------------------------------------------- scores

  function HealthColor(score: int): Palette.Color {
    if 80 <= score <= 100 then Palette.Green
    else if 60 <= score <= 79 then Palette.Yellow
    else if 40 <= score <= 59 then Palette.Orange
    else Palette.Red
  }

  /** The first pool shown, or the second. */
  datatype Side = First | Second

  /** "<winner> is healthier (+diff)". */
  datatype Healthier = Healthier(side: Side, diff: nat)

  /** The line under the two scores: none on a tie, else the higher pool and the gap. */
  function HealthierLine(score1: int, score2: int): Option<Healthier> {
    if score1 != score2 then
      Some(Healthier(if score1 > score2 then First else Second, Abs(score1 - score2)))
    else None
  }

  /** The caption of the winner card. */
  datatype Caption = BetterBy(points: nat) | VeryClose

  datatype WinnerCard = WinnerCard(side: Side, caption: Caption)

  /** The first pool wins only with a strictly higher score; a gap of more than 5 is spelled out. */
  function Winner(score1: int, score2: int): WinnerCard {
    var winner := if score1 > score2 then First else Second;
    var diff := Abs(score1 - score2);
    WinnerCard(winner, if diff > 5 then BetterBy(diff) else VeryClose)
  }

  // ------------------------------------------------------------ metric rows

  /** The largest `Int` of the platform; longer digit strings do not parse. */
  const IntMax: int := 0x7FFF_FFFF_FFFF_FFFF

  /** The characters the row keeps when it reads a number (ASCII digits in this model). */
  predicate IsDigit(c: char) {
    '0' <= c <= '9'
  }

  function DigitChar(d: int): char
    requires 0 <= d < 10
  {
    (d + '0' as int) as char
  }

  /** The value of a string of digits, most significant first. */
  function DigitsValue(s: string): nat
    requires forall i :: 0 <= i < |s| ==> IsDigit(s[i])
  {
    if s == [] then 0
    else DigitsValue(s[..|s| - 1]) * 10 + DigitValue(s[|s| - 1])
  }

  function DigitValue(c: char): nat
    requires IsDigit(c)
  {
    c as int - '0' as int
  }

  /** `Int(text.filter { $0.isNumber }) ?? 0`: the digits read as one number, 0 when there are none or too many. */
  function NumberIn(text: string): int {
    var digits := Filter(text, IsDigit);
    if digits == [] || DigitsValue(digits) > IntMax then 0 else DigitsValue(digits)
  }

  /**
   * The row colour of `val1` against `val2`: white when the numbers are
   * equal, green when `val1`'s is the better one, dimmed white otherwise.
   */
  function BetterColor(val1: string, val2: string, higherBetter: bool): Palette.Color {
    var num1 := NumberIn(val1);
    var num2 := NumberIn(val2);
    if num1 == num2 then Palette.White
    else
      var isBetter := if higherBetter then num1 > num2 else num1 < num2;
      if isBetter then Palette.Green else Palette.DimWhite
  }

  /** `"\(n)"` for a natural number: its decimal digits, most significant first. */
  function ShowNat(n: nat): (s: string)
    ensures |s| > 0
    ensures forall i :: 0 <= i < |s| ==> IsDigit(s[i])
  {
    if n < 10 then [DigitChar(n)] else ShowNat(n / 10) + [DigitChar(n % 10)]
  }

  /** `"\(p)%"`. */
  function PercentText(p: int): string {
    Show(p) + "%"
  }

  /** `"\(n)"` for any integer. */
  function Show(n: int): string {
    if n < 0 then "-" + ShowNat(-n) else ShowNat(n)
  }

  /** One line of the key metrics: the two pools' values as shown, and whether more is better. */
  datatype ComparisonRow = ComparisonRow(metric: string, value1: string, value2: string, higherBetter: bool)

  /** `Int(capacityUtilization * 100)`: the utilisation as a truncated percentage. */
  function CapacityPercent(fa: Analytics.FleetAnalytics): (p: int)
    ensures 0 <= p <= 100
    ensures p == 100 * fa.ActivityBreakdown().active / Max(1, |fa.workers|)
  {
    var u := fa.CapacityUtilization();
    var active, m := fa.ActivityBreakdown().active, Max(1, |fa.workers|);
    assert u == active as real / m as real;
    PercentOf(active, m);
    Trunc(u * 100.0)
  }

  /** The metrics of the key metrics rows, top to bottom. */
  datatype Metric = TotalWorkers | Active | Failures | Quarantined | Capacity

  const KeyMetricOrder: seq<Metric> := [TotalWorkers, Active, Failures, Quarantined, Capacity]

  function MetricName(m: Metric): string {
    match m
    case TotalWorkers => "Total Workers"
    case Active => "Active"
    case Failures => "Failures"
    case Quarantined => "Quarantined"
    case Capacity => "Capacity"
  }

  /** Worker counts fall back to the row's default, where fewer is better. */
  function HigherIsBetter(m: Metric): bool {
    m == Active || m == Capacity
  }

  /** The number a pool shows for a metric. */
  function MetricValue(fa: Analytics.FleetAnalytics, m: Metric): int {
    match m
    case TotalWorkers => |fa.workers|
    case Active => fa.ActiveCount()
    case Failures => fa.TotalFailures()
    case Quarantined => fa.QuarantinedCount()
    case Capacity => CapacityPercent(fa)
  }

  /** The text of a metric's value: capacity carries a percent sign. */
  function MetricText(m: Metric, value: int): string {
    if m == Capacity then PercentText(value) else Show(value)
  }

  function MetricRow(a1: Analytics.FleetAnalytics, a2: Analytics.FleetAnalytics, m: Metric): ComparisonRow {
    ComparisonRow(MetricName(m), MetricText(m, MetricValue(a1, m)), MetricText(m, MetricValue(a2, m)), HigherIsBetter(m))
  }

  /**
   * The key metrics of two pools: worker count, active workers, total
   * recent failures, quarantined workers and capacity.
   */
  function KeyMetrics(a1: Analytics.FleetAnalytics, a2: Analytics.FleetAnalytics): (rows: seq<ComparisonRow>)
    ensures |rows| == |KeyMetricOrder|
  {
    seq(|KeyMetricOrder|, k requires 0 <= k < |KeyMetricOrder| => MetricRow(a1, a2, KeyMetricOrder[k]))
  }

  /** The colour of the first pool's value in a row. */
  function FirstColor(row: ComparisonRow): Palette.Color {
    BetterColor(row.value1, row.value2, row.higherBetter)
  }

  // ---------------------------------------------------------------- lemmas

  /** The score colour follows the palette's four bands, and is the analytics' own colour. */
  lemma HealthColorBands(score: int, fa: Analytics.FleetAnalytics)
    ensures HealthColor(score) == Palette.Green <==> Palette.BandOf(score) == Palette.Excellent
    ensures HealthColor(score) == Palette.Yellow <==> Palette.BandOf(score) == Palette.Good
    ensures HealthColor(score) == Palette.Orange <==> Palette.BandOf(score) == Palette.Degraded
    ensures HealthColor(score) == Palette.Red <==> Palette.BandOf(score) == Palette.Critical
    ensures HealthColor(fa.HealthScore()) == fa.HealthColor()
  {
  }

  /**
   * The healthier line is absent exactly on a tie; otherwise it names the
   * winner card's pool with the same gap.
   */
  lemma HealthierLineMatchesWinner(score1: int, score2: int)
    ensures HealthierLine(score1, score2).None? <==> score1 == score2
    ensures score1 != score2 ==>
              HealthierLine(score1, score2).value.side == Winner(score1, score2).side &&
              HealthierLine(score1, score2).value.diff == Abs(score1 - score2) &&
              HealthierLine(score1, score2).value.diff > 0
  {
  }

  /**
   * The winner card agrees with the analytics' pool comparison: the first
   * pool wins exactly when it is the better pool by a positive difference,
   * and the gap is spelled out exactly when the comparison is not
   * "similar".
   */
  lemma WinnerAgreesWithComparison(pc: Analytics.PoolComparison)
    ensures var card := Winner(pc.pool1.analytics.HealthScore(), pc.pool2.analytics.HealthScore());
            (card.side == First <==> pc.HealthDifference() > 0) &&
            (card.side == First ==> pc.BetterPool() == pc.pool1.name) &&
            (card.side == Second ==> pc.BetterPool() == pc.pool2.name) &&
            (card.caption.BetterBy? <==> pc.Comparison() != Analytics.SimilarPerformance) &&
            (card.caption.BetterBy? ==> card.caption.points == Abs(pc.HealthDifference()))
  {
  }

  /** Reading the digits of a number back gives the number. */
  lemma {:induction false} ShowNatRoundTrip(n: nat)
    ensures DigitsValue(ShowNat(n)) == n
  {
    if n >= 10 {
      ShowNatRoundTrip(n / 10);
      var s := ShowNat(n);
      assert s[..|s| - 1] == ShowNat(n / 10);
    }
  }

  /**
   * A number shown in a row and read back is the number itself, as long
   * as it fits an `Int`, whatever suffix without digits follows it; a
   * negative number comes back without its sign.
   */
  lemma NumberInShow(n: int, suffix: string)
    requires -IntMax <= n <= IntMax
    requires forall i :: 0 <= i < |suffix| ==> !IsDigit(suffix[i])
    ensures NumberIn(Show(n) + suffix) == Abs(n)
  {
    DigitsOfShow(n, suffix);
    ShowNatRoundTrip(Abs(n));
  }

  /** The digits kept from a shown number, and from any suffix without digits, are its decimal digits. */
  lemma DigitsOfShow(n: int, suffix: string)
    requires forall i :: 0 <= i < |suffix| ==> !IsDigit(suffix[i])
    ensures Filter(Show(n) + suffix, IsDigit) == ShowNat(Abs(n))
  {
    FilterConcat(Show(n), suffix, IsDigit);
    FilterNone(suffix, IsDigit);
    ShownDigits(n);
    assert ShowNat(Abs(n)) + [] == ShowNat(Abs(n));
  }

  lemma ShownDigits(n: int)
    ensures Filter(Show(n), IsDigit) == ShowNat(Abs(n))
  {
    var digits := ShowNat(Abs(n));
    FilterAll(digits, IsDigit);
    if n < 0 {
      var sign := "-";
      assert Show(n) == sign + digits;
      FilterConcat(sign, digits, IsDigit);
      FilterNone(sign, IsDigit);
    }
  }

  /**
   * Of the two values of a row, both are white when their numbers are
   * equal; otherwise exactly one is green and the other dimmed.
   */
  lemma RowHighlightsOneSide(val1: string, val2: string, higherBetter: bool)
    ensures NumberIn(val1) == NumberIn(val2) ==>
              BetterColor(val1, val2, higherBetter) == Palette.White &&
              BetterColor(val2, val1, higherBetter) == Palette.White
    ensures NumberIn(val1) != NumberIn(val2) ==>
              (BetterColor(val1, val2, higherBetter) == Palette.Green <==>
               BetterColor(val2, val1, higherBetter) == Palette.DimWhite) &&
              BetterColor(val1, val2, higherBetter) != Palette.White
  {
  }

  /**
   * A row of two counts highlights the larger one when higher is better
   * and the smaller one otherwise.
   */
  lemma CountRowHighlightsBetter(n1: nat, n2: nat, higherBetter: bool)
    requires n1 <= IntMax && n2 <= IntMax
    ensures BetterColor(Show(n1), Show(n2), higherBetter) == Palette.Green
            <==> (if higherBetter then n1 > n2 else n1 < n2)
    ensures BetterColor(Show(n1), Show(n2), higherBetter) == Palette.White <==> n1 == n2
  {
    NumberInShow(n1, "");
    NumberInShow(n2, "");
    assert Show(n1) + "" == Show(n1) && Show(n2) + "" == Show(n2);
  }

  /** The capacity row, `"\(percent)%"`, compares the two percentages. */
  lemma PercentRowHighlightsBetter(p1: nat, p2: nat)
    requires p1 <= 100 && p2 <= 100
    ensures BetterColor(PercentText(p1), PercentText(p2), true) == Palette.Green <==> p1 > p2
    ensures BetterColor(PercentText(p1), PercentText(p2), true) == Palette.White <==> p1 == p2
  {
    NumberInShow(p1, "%");
    NumberInShow(p2, "%");
  }

  /**
   * In every key metric row the first pool's value is green exactly when
   * its number is the better one, and both are white exactly when the
   * numbers are equal, as long as the numbers fit an `Int` and the failure
   * totals are not negative.
   */
  lemma KeyMetricsHighlightBetter(a1: Analytics.FleetAnalytics, a2: Analytics.FleetAnalytics, k: int)
    requires 0 <= k < |KeyMetricOrder|
    requires |a1.workers| <= IntMax && |a2.workers| <= IntMax
    requires 0 <= a1.TotalFailures() <= IntMax && 0 <= a2.TotalFailures() <= IntMax
    ensures var m, row := KeyMetricOrder[k], KeyMetrics(a1, a2)[k];
            var v1, v2 := MetricValue(a1, m), MetricValue(a2, m);
            row.metric == MetricName(m) &&
            (FirstColor(row) == Palette.Green <==> if HigherIsBetter(m) then v1 > v2 else v1 < v2) &&
            (FirstColor(row) == Palette.White <==> v1 == v2)
  {
    var m := KeyMetricOrder[k];
    MetricRowHighlightsBetter(a1, a2, m);
  }

  lemma MetricRowHighlightsBetter(a1: Analytics.FleetAnalytics, a2: Analytics.FleetAnalytics, m: Metric)
    requires |a1.workers| <= IntMax && |a2.workers| <= IntMax
    requires 0 <= a1.TotalFailures() <= IntMax && 0 <= a2.TotalFailures() <= IntMax
    ensures var v1, v2 := MetricValue(a1, m), MetricValue(a2, m);
            (FirstColor(MetricRow(a1, a2, m)) == Palette.Green <==> if HigherIsBetter(m) then v1 > v2 else v1 < v2) &&
            (FirstColor(MetricRow(a1, a2, m)) == Palette.White <==> v1 == v2)
  {
    MetricTextsCompare(m, MetricValue(a1, m), MetricValue(a2, m));
  }

  lemma MetricTextsCompare(m: Metric, v1: nat, v2: nat)
    requires v1 <= IntMax && v2 <= IntMax
    requires m == Capacity ==> v1 <= 100 && v2 <= 100
    ensures var row := ComparisonRow(MetricName(m), MetricText(m, v1), MetricText(m, v2), HigherIsBetter(m));
            (FirstColor(row) == Palette.Green <==> if HigherIsBetter(m) then v1 > v2 else v1 < v2) &&
            (FirstColor(row) == Palette.White <==> v1 == v2)
  {
    if m == Capacity {
      PercentRowHighlightsBetter(v1, v2);
    } else {
      CountRowHighlightsBetter(v1, v2, HigherIsBetter(m));
    }
  }
}
