/**
 The application state around the session being logged: the stored history
 (newest first), the active session, the snapshot stack that undo pops, and
 the day selected for the statistics screen. Every handler is a pure
 transition; the clock (`Date.now()`) and the locale date string are
 parameters. View switching and the insight panel are presentation state and
 are not modelled.
 */
module ActiveSession {
  import opened Model
  import opened Text
  import opened Statistics
  import opened Grouping

  /** Undo keeps at most this many snapshots (`slice(-20)`). */
  const UndoLimit: nat := 20

  datatype AppState = AppState(
    sessions: seq<Session>,
    active: Option<Session>,
    undoStack: seq<Metrics>,
    selectedDay: Option<string>)

  /** The invariant every handler keeps: the undo stack is bounded and the
      history holds only finished sessions. */
  ghost predicate Valid(st: AppState)
  {
    && |st.undoStack| <= UndoLimit
    && forall i :: 0 <= i < |st.sessions| ==> st.sessions[i].endTime.Some?
  }

  /** The last `n` elements, or all of them when fewer: `xs.slice(-n)` for a
      positive `n` (the only use is `n` = 20; `slice(-0)` would keep all). */
  function LastN<T>(xs: seq<T>, n: nat): (r: seq<T>)
    ensures |r| == if |xs| < n then |xs| else n
    ensures forall i :: 0 <= i < |r| ==> r[i] == xs[|xs| - |r| + i]
  {
    if |xs| <= n then xs else xs[|xs| - n..]
  }

  /** `startSession`: a fresh session stamped with the clock, with zeroed
      counters, empty notes and species, no end time, and an empty undo stack.
      An active session that was not finished is discarded. */
  function StartSession(st: AppState, now: nat, date: string): (r: AppState)
    ensures r.active.Some?
    ensures var s := r.active.value;
      && s.id == NatToString(now) && s.date == date && s.startTime == now
      && s.endTime.None? && s.manualDurationMinutes.None?
      && s.metrics == NoMetrics && s.notes == "" && s.species == Some("")
    ensures r.undoStack == []
    ensures r.sessions == st.sessions && r.selectedDay == st.selectedDay
  {
    var s := Session(
      id := NatToString(now), date := date, startTime := now, endTime := None,
      manualDurationMinutes := None, species := Some(""), metrics := NoMetrics, notes := "");
    st.(active := Some(s), undoStack := [])
  }

  /** `updateMetric`: set one counter of the active session, pushing the
      previous counters onto the undo stack and keeping only the newest
      twenty snapshots. Without an active session nothing happens. */
  function UpdateMetric(st: AppState, key: MetricKey, value: nat): (r: AppState)
    ensures st.active.None? ==> r == st
    ensures st.active.Some? ==>
      var before := st.active.value;
      && r.active.Some?
      && r.active.value == before.(metrics := r.active.value.metrics)
      && Get(r.active.value.metrics, key) == value
      && (forall k :: k != key ==> Get(r.active.value.metrics, k) == Get(before.metrics, k))
      && |r.undoStack| == (if |st.undoStack| < UndoLimit then |st.undoStack| + 1 else UndoLimit)
      && r.undoStack[|r.undoStack| - 1] == before.metrics
      && r.undoStack[..|r.undoStack| - 1] == st.undoStack[|st.undoStack| + 1 - |r.undoStack|..]
      && r.sessions == st.sessions && r.selectedDay == st.selectedDay
  {
    match st.active
    case None => st
    case Some(a) =>
      var pushed := st.undoStack + [a.metrics];
      var kept := LastN(pushed, UndoLimit);
      assert kept[..|kept| - 1] == st.undoStack[|st.undoStack| + 1 - |kept|..];
      st.(undoStack := kept, active := Some(a.(metrics := WithMetric(a.metrics, key, value))))
  }

  /** `undoLastAction`: restore the newest snapshot and pop it. Without an
      active session, or with an empty stack, nothing happens. */
  function Undo(st: AppState): (r: AppState)
    ensures st.active.None? || |st.undoStack| == 0 ==> r == st
    ensures st.active.Some? && |st.undoStack| > 0 ==>
      && r.active == Some(st.active.value.(metrics := st.undoStack[|st.undoStack| - 1]))
      && r.undoStack == st.undoStack[..|st.undoStack| - 1]
      && r.sessions == st.sessions && r.selectedDay == st.selectedDay
  {
    if |st.undoStack| == 0 || st.active.None? then st
    else
      var n := |st.undoStack|;
      st.(undoStack := st.undoStack[..n - 1],
          active := Some(st.active.value.(metrics := st.undoStack[n - 1])))
  }

  /** `finishSession`: stamp the end time, put the session in front of the
      history, clear the active session and select the session's day. The
      undo stack is left as it is. */
  function FinishSession(st: AppState, now: int): (r: AppState)
    ensures st.active.None? ==> r == st
    ensures st.active.Some? ==>
      && |r.sessions| == |st.sessions| + 1
      && r.sessions[0] == st.active.value.(endTime := Some(now))
      && r.sessions[1..] == st.sessions
      && r.active.None?
      && r.selectedDay == Some(st.active.value.date)
      && r.undoStack == st.undoStack
  {
    match st.active
    case None => st
    case Some(a) =>
      st.(sessions := [a.(endTime := Some(now))] + st.sessions, active := None, selectedDay := Some(a.date))
  }

  /** The cast calculator's "apply": the estimated total replaces the cast
      count and the estimated hours become a manual duration in minutes. No
      snapshot is pushed. */
  function ApplyCalculator(st: AppState, total: nat, hours: real): (r: AppState)
    ensures st.active.None? ==> r == st
    ensures st.active.Some? ==>
      var before := st.active.value;
      && r.active.Some?
      && r.active.value.metrics == WithMetric(before.metrics, Casts, total)
      && r.active.value.manualDurationMinutes == Some(hours * 60.0)
      && r.active.value == before.(metrics := r.active.value.metrics,
                                   manualDurationMinutes := r.active.value.manualDurationMinutes)
      && r.sessions == st.sessions && r.undoStack == st.undoStack && r.selectedDay == st.selectedDay
  {
    match st.active
    case None => st
    case Some(a) =>
      st.(active := Some(a.(manualDurationMinutes := Some(hours * 60.0),
                            metrics := WithMetric(a.metrics, Casts, total))))
  }

  /** The sessions `currentStats` summarises: the active session alone; else
      the selected day when it is a non-empty key that has a bucket; else the
      day of the newest stored session; else nothing. */
  function StatsSessions(st: AppState): (r: Option<seq<Session>>)
    ensures r.None? <==> st.active.None? && |st.sessions| == 0
    ensures st.active.Some? ==> r == Some([st.active.value])
    ensures st.active.None? && SelectsDay(st) ==>
      r == Some(SessionsOn(st.sessions, st.selectedDay.value))
    ensures st.active.None? && !SelectsDay(st) && |st.sessions| > 0 ==>
      r == Some(SessionsOn(st.sessions, st.sessions[0].date))
  {
    var groups := GroupByDate(st.sessions);
    if st.active.Some? then Some([st.active.value])
    else
      var selected := if st.selectedDay.Some? then st.selectedDay.value else "";
      LookupGroup(st.sessions, selected);
      if selected != "" && Lookup(groups, selected).Some? then Lookup(groups, selected)
      else if |st.sessions| > 0 then
        LookupGroup(st.sessions, st.sessions[0].date);
        Lookup(groups, st.sessions[0].date)
      else None
  }

  /** `currentStats`: the statistics of the sessions chosen above. */
  function CurrentStats(st: AppState, now: int): (r: Option<CalculatedStats>)
    ensures r.None? <==> st.active.None? && |st.sessions| == 0
    ensures st.active.Some? ==> r == Some(CalculateStats([st.active.value], now))
  {
    match StatsSessions(st)
    case None => None
    case Some(ss) => Some(CalculateStats(ss, now))
  }

  /** A truthy selected day that some stored session carries. */
  predicate SelectsDay(st: AppState)
  {
    && st.selectedDay.Some? && st.selectedDay.value != ""
    && exists k :: 0 <= k < |st.sessions| && st.sessions[k].date == st.selectedDay.value
  }

  /** Every handler keeps the invariant. */
  lemma HandlersKeepValid(st: AppState, now: nat, date: string, key: MetricKey, value: nat, total: nat, hours: real)
    requires Valid(st)
    ensures Valid(StartSession(st, now, date))
    ensures Valid(UpdateMetric(st, key, value))
    ensures Valid(Undo(st))
    ensures Valid(FinishSession(st, now))
    ensures Valid(ApplyCalculator(st, total, hours))
  {
    var r := FinishSession(st, now);
    if st.active.Some? {
      forall i | 0 <= i < |r.sessions| ensures r.sessions[i].endTime.Some? {
        if i > 0 {
          assert r.sessions[i] == st.sessions[i - 1];
        }
      }
    }
  }

  /** Undo right after an update restores the counters; the stack comes back
      too unless it was full, in which case its oldest snapshot is gone. */
  lemma UndoRevertsUpdate(st: AppState, key: MetricKey, value: nat)
    requires Valid(st) && st.active.Some?
    ensures Undo(UpdateMetric(st, key, value)).active == st.active
    ensures |st.undoStack| < UndoLimit ==> Undo(UpdateMetric(st, key, value)) == st
    ensures |st.undoStack| == UndoLimit ==>
      Undo(UpdateMetric(st, key, value)) == st.(undoStack := st.undoStack[1..])
  {
    var a := st.active.value;
    var u := UpdateMetric(st, key, value);
    assert u.active.Some? && |u.undoStack| > 0;
    assert u.active.value.(metrics := a.metrics) == a;
    if |st.undoStack| < UndoLimit {
      assert u.undoStack[..|u.undoStack| - 1] == st.undoStack;
    }
  }

  /** The session a fresh start creates has all-zero statistics: the
      eight-hour fallback keeps the hourly rates from dividing by zero time. */
  lemma StartedSessionStats(st: AppState, now: nat, date: string)
    ensures var s := StartSession(st, now, date).active.value;
      CalculateStats([s], now) == CalculatedStats(0.0, 0.0, 0.0, 0.0, 0.0, 0.0, 0, 0.0, 0.0)
  {
    FreshSessionStats(StartSession(st, now, date).active.value, now);
  }

  /** A session's id, read back as a decimal number, is its start time. */
  lemma StartedSessionId(st: AppState, now: nat, date: string)
    ensures DigitsValue(StartSession(st, now, date).active.value.id) == now
  {
    DigitsValueOfNatToString(now);
  }

  /** After finishing, the statistics screen shows the finished session's day,
      computed over every stored session of that date. */
  lemma FinishShowsFinishedDay(st: AppState, now: int, later: int)
    requires st.active.Some? && st.active.value.date != ""
    ensures var r := FinishSession(st, now);
      CurrentStats(r, later) ==
        Some(CalculateStats(SessionsOn(r.sessions, st.active.value.date), later))
  {
    var r := FinishSession(st, now);
    assert r.sessions[0].date == st.active.value.date;
    assert SelectsDay(r);
  }

  /** After the calculator is applied with a non-zero number of hours, the
      active session lasts exactly those hours, whatever its timestamps. */
  lemma CalculatorFixesDuration(st: AppState, total: nat, hours: real, now: int)
    requires st.active.Some? && hours != 0.0
    ensures var s := ApplyCalculator(st, total, hours).active.value;
      SessionDurationMs(s, now) == hours * MsPerHour && s.metrics.casts == total
  {
  }
}
