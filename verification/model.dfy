/**
 The data model of the fishing logger: a fishing session with its five
 counters, and the statistics record derived from one or more sessions.
 Timestamps are integer milliseconds since the epoch; calendar dates are the
 locale-formatted strings the application groups by (for example "10/10/2026").
 */
module Model {

  datatype Option<+T> = None | Some(value: T)

  /** The five live counters of a session. Nothing relates them to each other:
      more hookups than attacks is a legal state. */
  datatype Metrics = Metrics(casts: nat, attacks: nat, hookups: nat, landed: nat, lost: nat)

  /** Names a counter, as the keys of the metrics record do. */
  datatype MetricKey = Casts | Attacks | Hookups | Landed | Lost

  const NoMetrics := Metrics(0, 0, 0, 0, 0)

  function Get(m: Metrics, k: MetricKey): nat
  {
    match k
    case Casts => m.casts
    case Attacks => m.attacks
    case Hookups => m.hookups
    case Landed => m.landed
    case Lost => m.lost
  }

  /** `{ ...m, [k]: v }`: the record with one counter replaced. */
  function WithMetric(m: Metrics, k: MetricKey, v: nat): (r: Metrics)
    ensures Get(r, k) == v
    ensures forall k' :: k' != k ==> Get(r, k') == Get(m, k')
  {
    match k
    case Casts => m.(casts := v)
    case Attacks => m.(attacks := v)
    case Hookups => m.(hookups := v)
    case Landed => m.(landed := v)
    case Lost => m.(lost := v)
  }

  /** Element-wise sum of two metrics records. */
  function Plus(a: Metrics, b: Metrics): (r: Metrics)
    ensures forall k :: Get(r, k) == Get(a, k) + Get(b, k)
  {
    Metrics(a.casts + b.casts, a.attacks + b.attacks, a.hookups + b.hookups,
            a.landed + b.landed, a.lost + b.lost)
  }

  /** Two metrics records that agree on every counter are the same record. */
  lemma MetricsExtensional(a: Metrics, b: Metrics)
    requires forall k :: Get(a, k) == Get(b, k)
    ensures a == b
  {
    assert Get(a, Casts) == Get(b, Casts);
    assert Get(a, Attacks) == Get(b, Attacks);
    assert Get(a, Hookups) == Get(b, Hookups);
    assert Get(a, Landed) == Get(b, Landed);
    assert Get(a, Lost) == Get(b, Lost);
  }

  /** A fishing session. `endTime` is absent while the session is in progress;
      `manualDurationMinutes`, when set to a non-zero value, replaces the
      timestamp-derived duration. The optional map location is not modelled. */
  datatype Session = Session(
    id: string,
    date: string,
    startTime: int,
    endTime: Option<int>,
    manualDurationMinutes: Option<real>,
    species: Option<string>,
    metrics: Metrics,
    notes: string)

  /** Statistics derived from a list of sessions. */
  datatype CalculatedStats = CalculatedStats(
    attackRate: real,          // attacks / casts
    hookupRate: real,          // hookups / attacks
    landingRate: real,         // landed / hookups
    efficiency: real,          // landed / casts
    castsPerFish: real,        // how many casts one fish took
    attacksPer100Casts: real,
    durationMinutes: int,
    fishPerHour: real,
    castsPerHour: real)
}
