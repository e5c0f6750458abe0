/**
 The statistics reducer: sums the five counters and the session durations
 over a list of sessions and derives guarded ratios and hourly rates.
 A single session is passed as the one-element list. The clock reading the
 reducer takes once per call is the parameter `now`.
 */
module Statistics {
  import opened Model

  const MsPerMinute: real := 60000.0
  const MsPerHour: real := 3600000.0
  /** Below this many hours (about one minute) the hourly rates use the fallback. */
  const MinRateHours: real := 0.0166
  const FallbackHours: real := 8.0

  /** A manual duration overrides the timestamps only when it is truthy,
      so an explicit 0 falls through to the timestamps. */
  predicate HasManualDuration(s: Session)
  {
    s.manualDurationMinutes.Some? && s.manualDurationMinutes.value != 0.0
  }

  /** Elapsed milliseconds of one session: the manual estimate, else the
      finished span, else the span up to `now` for a session in progress. */
  function SessionDurationMs(s: Session, now: int): real
  {
    if HasManualDuration(s) then s.manualDurationMinutes.value * MsPerMinute
    else if s.endTime.Some? then (s.endTime.value - s.startTime) as real
    else (now - s.startTime) as real
  }

  /** Element-wise sum of the metrics, folded from the left as `reduce` does. */
  function SumMetrics(ss: seq<Session>): (t: Metrics)
    ensures |ss| == 1 ==> t == ss[0].metrics
  {
    if |ss| == 0 then NoMetrics
    else Plus(SumMetrics(ss[..|ss| - 1]), ss[|ss| - 1].metrics)
  }

  /** Total elapsed milliseconds of a list, folded from the left. */
  function SumDurationMs(ss: seq<Session>, now: int): (d: real)
    ensures |ss| == 0 ==> d == 0.0
    ensures |ss| == 1 ==> d == SessionDurationMs(ss[0], now)
  {
    if |ss| == 0 then 0.0
    else SumDurationMs(ss[..|ss| - 1], now) + SessionDurationMs(ss[|ss| - 1], now)
  }

  /** The totals of a concatenation are the sums of the totals of its parts:
      each counter total is the sum of that counter over the list. */
  lemma {:induction false} SumMetricsAppend(a: seq<Session>, b: seq<Session>)
    ensures SumMetrics(a + b) == Plus(SumMetrics(a), SumMetrics(b))
    decreases |b|
  {
    if |b| == 0 {
      assert a + b == a;
      MetricsExtensional(SumMetrics(a + b), Plus(SumMetrics(a), NoMetrics));
    } else {
      var b' := b[..|b| - 1];
      assert (a + b)[..|a + b| - 1] == a + b';
      SumMetricsAppend(a, b');
      MetricsExtensional(SumMetrics(a + b), Plus(SumMetrics(a), SumMetrics(b)));
    }
  }

  /** The duration total of a concatenation is the sum of the parts' totals;
      in particular one more session adds exactly its own duration. */
  lemma {:induction false} SumDurationAppend(a: seq<Session>, b: seq<Session>, now: int)
    ensures SumDurationMs(a + b, now) == SumDurationMs(a, now) + SumDurationMs(b, now)
    ensures |b| == 1 ==> SumDurationMs(a + b, now) == SumDurationMs(a, now) + SessionDurationMs(b[0], now)
    decreases |b|
  {
    if |b| == 0 {
      assert a + b == a;
    } else {
      var b' := b[..|b| - 1];
      assert (a + b)[..|a + b| - 1] == a + b';
      SumDurationAppend(a, b', now);
    }
  }

  /** `q` is the guarded quotient `num / den`: 0 when the denominator is 0. */
  ghost predicate GuardedQuotient(q: real, num: nat, den: nat)
  {
    (den == 0 ==> q == 0.0) && (den > 0 ==> q * den as real == num as real)
  }

  /** JavaScript `Math.round`: the nearest integer, halves rounded up. */
  function Round(x: real): (n: int)
    ensures x - 0.5 < n as real <= x + 0.5
  {
    (x + 0.5).Floor
  }

  /** Total minutes, rounded as `Math.round` does. */
  function DurationMinutes(durationMs: real): (n: int)
    ensures var minutes := durationMs / MsPerMinute; minutes - 0.5 < n as real <= minutes + 0.5
  {
    Round(durationMs / MsPerMinute)
  }

  /** The hours the hourly rates divide by. */
  function RateHours(durationMs: real): (h: real)
    ensures h > MinRateHours
    ensures durationMs / MsPerHour > MinRateHours ==> h * MsPerHour == durationMs
  {
    var hours := durationMs / MsPerHour;
    if hours > MinRateHours then hours else FallbackHours
  }

  function Ratio(num: nat, den: nat): (q: real)
    ensures q >= 0.0
    ensures GuardedQuotient(q, num, den)
  {
    if den > 0 then num as real / den as real else 0.0
  }

  /** `q` is casts per landed fish, or the cast count itself while no fish
      is landed. */
  ghost predicate FishQuotient(q: real, casts: nat, landed: nat)
  {
    (landed > 0 ==> q * landed as real == casts as real) && (landed == 0 ==> q == casts as real)
  }

  function CastsPerFish(casts: nat, landed: nat): (q: real)
    ensures FishQuotient(q, casts, landed)
    ensures q >= 0.0
    ensures q == 0.0 <==> casts == 0
  {
    if landed > 0 then casts as real / landed as real else casts as real
  }

  /** A count per hour of a session total lasting `durationMs`. */
  function PerHour(n: nat, durationMs: real): (q: real)
    ensures q * RateHours(durationMs) == n as real
    ensures q >= 0.0
  {
    n as real / RateHours(durationMs)
  }

  /** The statistics of a list whose counters total `t` and whose durations
      total `durationMs` milliseconds. */
  function StatsOf(t: Metrics, durationMs: real): (r: CalculatedStats)
    ensures GuardedQuotient(r.attackRate, t.attacks, t.casts)
    ensures GuardedQuotient(r.hookupRate, t.hookups, t.attacks)
    ensures GuardedQuotient(r.landingRate, t.landed, t.hookups)
    ensures GuardedQuotient(r.efficiency, t.landed, t.casts)
    ensures r.attacksPer100Casts == 100.0 * r.attackRate
    ensures FishQuotient(r.castsPerFish, t.casts, t.landed)
    ensures r.castsPerFish == 0.0 <==> t.casts == 0
    ensures r.fishPerHour * RateHours(durationMs) == t.landed as real
    ensures r.castsPerHour * RateHours(durationMs) == t.casts as real
    ensures var minutes := durationMs / MsPerMinute;
      minutes - 0.5 < r.durationMinutes as real <= minutes + 0.5
    ensures r.attackRate >= 0.0 && r.hookupRate >= 0.0 && r.landingRate >= 0.0
    ensures r.efficiency >= 0.0 && r.castsPerFish >= 0.0
    ensures r.fishPerHour >= 0.0 && r.castsPerHour >= 0.0
  {
    CalculatedStats(
      attackRate := Ratio(t.attacks, t.casts),
      hookupRate := Ratio(t.hookups, t.attacks),
      landingRate := Ratio(t.landed, t.hookups),
      efficiency := Ratio(t.landed, t.casts),
      castsPerFish := CastsPerFish(t.casts, t.landed),
      attacksPer100Casts := Ratio(t.attacks, t.casts) * 100.0,
      durationMinutes := DurationMinutes(durationMs),
      fishPerHour := PerHour(t.landed, durationMs),
      castsPerHour := PerHour(t.casts, durationMs))
  }

  /** `calculateStats`: the statistics of the summed counters and durations. */
  function CalculateStats(ss: seq<Session>, now: int): (r: CalculatedStats)
    ensures var t := SumMetrics(ss);
      && GuardedQuotient(r.attackRate, t.attacks, t.casts)
      && GuardedQuotient(r.hookupRate, t.hookups, t.attacks)
      && GuardedQuotient(r.landingRate, t.landed, t.hookups)
      && GuardedQuotient(r.efficiency, t.landed, t.casts)
      && r.attacksPer100Casts == 100.0 * r.attackRate
      && FishQuotient(r.castsPerFish, t.casts, t.landed)
  {
    StatsOf(SumMetrics(ss), SumDurationMs(ss, now))
  }

  /** The funnel identity: for statistics whose rates are the guarded
      quotients of totals `t` (as `StatsOf` and `CalculateStats` promise),
      when every intermediate denominator is non-zero, efficiency is the
      product of the three stage rates. */
  lemma FunnelIdentity(r: CalculatedStats, t: Metrics)
    requires t.casts > 0 && t.attacks > 0 && t.hookups > 0
    requires GuardedQuotient(r.attackRate, t.attacks, t.casts)
    requires GuardedQuotient(r.hookupRate, t.hookups, t.attacks)
    requires GuardedQuotient(r.landingRate, t.landed, t.hookups)
    requires GuardedQuotient(r.efficiency, t.landed, t.casts)
    ensures r.efficiency == r.attackRate * r.hookupRate * r.landingRate
  {
    ChainedQuotients(r.attackRate, r.hookupRate, r.landingRate, r.efficiency,
      t.casts as real, t.attacks as real, t.hookups as real, t.landed as real);
  }

  /** If x = a/c, y = h/a, z = l/h and e = l/c, then e = x*y*z. */
  lemma ChainedQuotients(x: real, y: real, z: real, e: real, c: real, a: real, h: real, l: real)
    requires c > 0.0
    requires x * c == a && y * a == h && z * h == l && e * c == l
    ensures e == x * y * z
  {
    assert (x * y) * c == h by { assert (x * y) * c == y * (x * c); }
    assert (x * y * z) * c == l by { assert (x * y * z) * c == z * ((x * y) * c); }
    assert (x * y * z - e) * c == 0.0;
  }

  /** An empty list yields all-zero statistics. */
  lemma EmptyListStats(now: int)
    ensures CalculateStats([], now) == CalculatedStats(0.0, 0.0, 0.0, 0.0, 0.0, 0.0, 0, 0.0, 0.0)
  {
  }

  /** A session that has just started (no end, no manual estimate, started at
      `now`) uses the eight-hour fallback instead of dividing by zero time. */
  lemma JustStartedUsesFallback(s: Session, now: int)
    requires s.startTime == now && s.endTime.None? && !HasManualDuration(s)
    ensures var r := CalculateStats([s], now);
      && r.fishPerHour == s.metrics.landed as real / FallbackHours
      && r.castsPerHour == s.metrics.casts as real / FallbackHours
      && r.durationMinutes == 0
  {
    assert [s][..0] == [];
    assert SumDurationMs([s], now) == 0.0;
  }

  /** A session with no counts that has just started has all-zero statistics. */
  lemma FreshSessionStats(s: Session, now: int)
    requires s.startTime == now && s.endTime.None? && !HasManualDuration(s)
    requires s.metrics == NoMetrics
    ensures CalculateStats([s], now) == CalculatedStats(0.0, 0.0, 0.0, 0.0, 0.0, 0.0, 0, 0.0, 0.0)
  {
    assert SumDurationMs([s], now) == 0.0 by {
      assert [s][..0] == [];
    }
    assert SumMetrics([s]) == NoMetrics;
    EmptyListStats(now);
    assert StatsOf(NoMetrics, 0.0) == CalculateStats([], now);
  }

  /** A non-zero manual estimate decides the duration whatever the timestamps
      and the clock say. */
  lemma ManualDurationOverrides(s: Session, now: int, now': int)
    requires HasManualDuration(s)
    ensures SessionDurationMs(s, now) == SessionDurationMs(s.(endTime := None, startTime := 0), now')
    ensures SessionDurationMs(s, now) == s.manualDurationMinutes.value * MsPerMinute
  {
  }

  /** A finished session's duration does not depend on the clock; without a
      manual estimate it is the end time minus the start time. */
  lemma FinishedDurationIgnoresClock(s: Session, now: int, now': int)
    requires s.endTime.Some?
    ensures SessionDurationMs(s, now) == SessionDurationMs(s, now')
    ensures !HasManualDuration(s) ==> SessionDurationMs(s, now) == (s.endTime.value - s.startTime) as real
  {
  }

  /** The eight-hour fallback: whenever the summed duration is at most the
      threshold (about a minute, and also for a zero or negative duration)
      the hourly rates divide by eight hours. */
  lemma RateHoursFallback(durationMs: real)
    ensures !(durationMs / MsPerHour > MinRateHours) ==> RateHours(durationMs) == FallbackHours
  {
  }

  /** Any list whose durations total at most the threshold reports its
      hourly rates over the eight-hour fallback. */
  lemma ShortDurationUsesFallback(ss: seq<Session>, now: int)
    requires !(SumDurationMs(ss, now) / MsPerHour > MinRateHours)
    ensures var r := CalculateStats(ss, now);
      var t := SumMetrics(ss);
      && r.fishPerHour * FallbackHours == t.landed as real
      && r.castsPerHour * FallbackHours == t.casts as real
  {
    StatsOfFallback(SumMetrics(ss), SumDurationMs(ss, now));
  }

  lemma StatsOfFallback(t: Metrics, durationMs: real)
    requires !(durationMs / MsPerHour > MinRateHours)
    ensures var r := StatsOf(t, durationMs);
      && r.fishPerHour * FallbackHours == t.landed as real
      && r.castsPerHour * FallbackHours == t.casts as real
  {
    RateHoursFallback(durationMs);
  }

  /** A session in progress without a manual estimate lasts nothing at its
      start and exactly as much longer as the clock has advanced since. */
  lemma RunningDurationTracksClock(s: Session, now: int, later: int)
    requires s.endTime.None? && !HasManualDuration(s)
    ensures SessionDurationMs(s, s.startTime) == 0.0
    ensures SessionDurationMs(s, later) - SessionDurationMs(s, now) == (later - now) as real
  {
  }

  /** The example session with 320 casts, 45 attacks, 28 hookups and 22 fish. */
  lemma WorkedExample(s: Session, now: int)
    requires s.metrics == Metrics(320, 45, 28, 22, 6)
    ensures var r := CalculateStats([s], now);
      && r.attackRate == 45.0 / 320.0
      && r.hookupRate == 28.0 / 45.0
      && r.landingRate == 22.0 / 28.0
      && r.efficiency == 22.0 / 320.0
      && r.castsPerFish == 320.0 / 22.0
      && 0.1406 < r.attackRate < 0.1407
      && 0.0687 < r.efficiency < 0.0688
  {
  }

  /** With no fish landed, casts-per-fish falls back to the cast count. */
  lemma NoFishExample(s: Session, now: int)
    requires s.metrics == Metrics(100, 0, 0, 0, 0)
    ensures var r := CalculateStats([s], now);
      && r.attackRate == 0.0 && r.hookupRate == 0.0 && r.landingRate == 0.0
      && r.efficiency == 0.0 && r.castsPerFish == 100.0
  {
  }
}
