/**
 The two derived views of the statistics screen: the funnel of one hundred
 casts (how many of them draw an attack, a hookup, a landed fish) and the
 percentage bars of the three stage rates, whose width is capped at 100%.
 */
module Charts {
  import opened Model
  import opened Statistics

  datatype FunnelStage = FunnelStage(name: string, val: real)

  /** `metricFunnel`: per hundred casts, the attacks, then the hookups among
      those, then the landed fish among those. */
  function MetricFunnel(stats: CalculatedStats): (r: seq<FunnelStage>)
    ensures |r| == 4
    ensures r[0].val == 100.0
    ensures r[1].val == r[0].val * stats.attackRate
    ensures r[2].val == r[1].val * stats.hookupRate
    ensures r[3].val == r[2].val * stats.landingRate
  {
    [ FunnelStage("Arremessos", 100.0),
      FunnelStage("Ataques", stats.attackRate * 100.0),
      FunnelStage("Fisgadas", (stats.attackRate * stats.hookupRate) * 100.0),
      FunnelStage("Capturas", (stats.attackRate * stats.hookupRate * stats.landingRate) * 100.0) ]
  }

  /** Once every stage has something to divide by, the funnel's last stage
      is the efficiency in percent: fish landed per hundred casts. */
  lemma FunnelEndsAtEfficiency(ss: seq<Session>, now: int)
    requires var t := SumMetrics(ss); t.casts > 0 && t.attacks > 0 && t.hookups > 0
    ensures var stats := CalculateStats(ss, now);
      MetricFunnel(stats)[3].val == stats.efficiency * 100.0
  {
    FunnelIdentity(CalculateStats(ss, now), SumMetrics(ss));
  }

  /** With no attacks every later stage is empty; likewise with attacks but
      no hookups. */
  lemma FunnelEmptiesAfterZeroStage(ss: seq<Session>, now: int)
    ensures var t := SumMetrics(ss); var f := MetricFunnel(CalculateStats(ss, now));
      t.attacks == 0 ==> f[1].val == 0.0 && f[2].val == 0.0 && f[3].val == 0.0
    ensures var t := SumMetrics(ss); var f := MetricFunnel(CalculateStats(ss, now));
      t.hookups == 0 ==> f[2].val == 0.0 && f[3].val == 0.0
  {
    var t := SumMetrics(ss);
    var stats := CalculateStats(ss, now);
    ZeroNumerator(stats.attackRate, t.attacks, t.casts);
    ZeroNumerator(stats.hookupRate, t.hookups, t.attacks);
    FunnelAfterZeroRate(stats);
  }

  lemma ZeroNumerator(q: real, num: nat, den: nat)
    requires GuardedQuotient(q, num, den)
    ensures num == 0 ==> q == 0.0
  {
    if num == 0 && den > 0 {
      NonNegativeFactor(q, den as real);
      NonNegativeFactor(-q, den as real);
    }
  }

  lemma FunnelAfterZeroRate(stats: CalculatedStats)
    ensures var f := MetricFunnel(stats);
      stats.attackRate == 0.0 ==> f[1].val == 0.0 && f[2].val == 0.0 && f[3].val == 0.0
    ensures var f := MetricFunnel(stats);
      stats.hookupRate == 0.0 ==> f[2].val == 0.0 && f[3].val == 0.0
  {
  }

  /** The funnel never grows from one stage to the next while the stage
      counts do not: each rate is then at most 1. */
  lemma FunnelNarrows(ss: seq<Session>, now: int)
    requires var t := SumMetrics(ss); t.attacks <= t.casts && t.hookups <= t.attacks && t.landed <= t.hookups
    ensures var f := MetricFunnel(CalculateStats(ss, now));
      100.0 >= f[1].val >= f[2].val >= f[3].val >= 0.0
  {
    var t := SumMetrics(ss);
    var stats := CalculateStats(ss, now);
    RateAtMostOne(stats.attackRate, t.attacks, t.casts);
    RateAtMostOne(stats.hookupRate, t.hookups, t.attacks);
    RateAtMostOne(stats.landingRate, t.landed, t.hookups);
    FunnelOfFractions(stats);
  }

  lemma FunnelOfFractions(stats: CalculatedStats)
    requires 0.0 <= stats.attackRate <= 1.0
    requires 0.0 <= stats.hookupRate <= 1.0
    requires 0.0 <= stats.landingRate <= 1.0
    ensures var f := MetricFunnel(stats);
      100.0 >= f[1].val >= f[2].val >= f[3].val >= 0.0
  {
    var f := MetricFunnel(stats);
    ShrinkBy(f[0].val, stats.attackRate);
    ShrinkBy(f[1].val, stats.hookupRate);
    ShrinkBy(f[2].val, stats.landingRate);
  }

  lemma RateAtMostOne(q: real, num: nat, den: nat)
    requires GuardedQuotient(q, num, den) && num <= den
    ensures 0.0 <= q <= 1.0
  {
    if den > 0 {
      var d := den as real;
      assert (1.0 - q) * d == d - num as real;
      NonNegativeFactor(1.0 - q, d);
      NonNegativeFactor(q, d);
    }
  }

  lemma NonNegativeFactor(x: real, d: real)
    requires d > 0.0 && x * d >= 0.0
    ensures x >= 0.0
  {
  }

  lemma ShrinkBy(x: real, q: real)
    requires x >= 0.0 && 0.0 <= q <= 1.0
    ensures 0.0 <= x * q <= x
  {
    assert x * q <= x * 1.0;
  }

  /** The width of a percentage bar: `Math.min(100, value * 100)`. */
  function BarWidth(value: real): (w: real)
    ensures w <= 100.0
    ensures w == 100.0 || w == value * 100.0
    ensures value <= 1.0 ==> w == value * 100.0
  {
    if value * 100.0 < 100.0 then value * 100.0 else 100.0
  }

  /** The three stage-rate bars lie between 0% and 100%, and a bar is full
      exactly when its rate is at least one (a rate can exceed one, since the
      counters are set independently). */
  lemma BarsWithinTrack(ss: seq<Session>, now: int)
    ensures var stats := CalculateStats(ss, now);
      && 0.0 <= BarWidth(stats.attackRate) <= 100.0
      && 0.0 <= BarWidth(stats.hookupRate) <= 100.0
      && 0.0 <= BarWidth(stats.landingRate) <= 100.0
    ensures var stats := CalculateStats(ss, now);
      BarWidth(stats.attackRate) == 100.0 <==> stats.attackRate >= 1.0
  {
    var t := SumMetrics(ss);
    var stats := StatsOf(t, SumDurationMs(ss, now));
    assert stats == CalculateStats(ss, now);
  }
}
