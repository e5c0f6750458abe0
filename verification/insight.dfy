/**
 What the insight button hands to the language model: one session and the
 statistics on screen. A day is condensed into one session whose counters are
 the day's totals and whose notes are the non-empty notes joined by " | ".
 The request itself (the model call and its answer) is not modelled.
 */
module DayInsight {
  import opened Model
  import opened Text
  import opened Statistics
  import opened Grouping
  import opened ActiveSession

  const NoteSeparator: string := " | "

  /** What `generateAIInsights` picked: one session, or a day's list. */
  datatype Target = Single(session: Session) | Day(sessions: seq<Session>)

  /** The pair passed to the model. */
  datatype InsightRequest = InsightRequest(session: Session, stats: CalculatedStats)

  /** `filter(n => n)` on strings: drops the empty ones, keeps order. */
  function NonEmptyNotes(ns: seq<string>): (r: seq<string>)
    ensures |r| <= |ns|
    ensures forall i :: 0 <= i < |r| ==> r[i] != ""
    ensures forall x :: x in r <==> x in ns && x != ""
    ensures |ns| == 1 ==> r == (if ns[0] == "" then [] else ns)
  {
    if |ns| == 0 then []
    else if ns[0] == "" then NonEmptyNotes(ns[1..])
    else [ns[0]] + NonEmptyNotes(ns[1..])
  }

  /** The filter works piece by piece: filtering a concatenation concatenates
      the filtered pieces, so order and repetitions are kept. */
  lemma {:induction false} NonEmptyNotesAppend(a: seq<string>, b: seq<string>)
    ensures NonEmptyNotes(a + b) == NonEmptyNotes(a) + NonEmptyNotes(b)
    decreases |a|
  {
    if |a| > 0 {
      assert (a + b)[1..] == a[1..] + b;
      NonEmptyNotesAppend(a[1..], b);
    } else {
      assert a + b == b;
    }
  }

  function NotesOf(day: seq<Session>): (r: seq<string>)
    ensures |r| == |day|
    ensures forall i :: 0 <= i < |day| ==> r[i] == day[i].notes
  {
    if |day| == 0 then [] else [day[0].notes] + NotesOf(day[1..])
  }

  /** The condensed session of a day: the first session's fields with the
      day's counter totals and the joined non-empty notes. */
  function AggregateDay(day: seq<Session>): (r: Session)
    requires |day| > 0
    ensures r.(metrics := day[0].metrics, notes := day[0].notes) == day[0]
    ensures forall k :: Get(r.metrics, k) == Get(SumMetrics(day), k)
  {
    day[0].(metrics := SumMetrics(day), notes := Join(NonEmptyNotes(NotesOf(day)), NoteSeparator))
  }

  /** A one-session day condenses to that very session. */
  lemma AggregateSingle(s: Session)
    ensures AggregateDay([s]) == s
  {
    assert NotesOf([s]) == [s.notes];
    assert [s.notes][1..] == [];
  }

  lemma {:induction false} NotesOfAppend(a: seq<Session>, b: seq<Session>)
    ensures NotesOf(a + b) == NotesOf(a) + NotesOf(b)
  {
    var l := NotesOf(a + b);
    var r := NotesOf(a) + NotesOf(b);
    assert |l| == |r|;
    forall i | 0 <= i < |l| ensures l[i] == r[i] {
      if i < |a| {
        assert (a + b)[i] == a[i];
      } else {
        assert (a + b)[i] == b[i - |a|];
      }
    }
  }

  /** Condensing a day is compositional: the notes of two consecutive runs of
      sessions are the notes of each run, with one " | " between them when
      both have any. */
  lemma AggregateNotesAppend(a: seq<Session>, b: seq<Session>)
    requires |a| > 0 && |b| > 0
    ensures var na := AggregateDay(a).notes;
      var nb := AggregateDay(b).notes;
      AggregateDay(a + b).notes ==
        if na == "" then nb else if nb == "" then na else na + NoteSeparator + nb
  {
    var xs := NonEmptyNotes(NotesOf(a));
    var ys := NonEmptyNotes(NotesOf(b));
    NotesOfAppend(a, b);
    NonEmptyNotesAppend(NotesOf(a), NotesOf(b));
    assert NonEmptyNotes(NotesOf(a + b)) == xs + ys;
    JoinOfNonEmpty(xs, NoteSeparator);
    JoinOfNonEmpty(ys, NoteSeparator);
    if xs == [] {
      assert xs + ys == ys;
    } else if ys == [] {
      assert xs + ys == xs;
    } else {
      JoinAppend(xs, ys, NoteSeparator);
    }
  }

  /** Two sessions with notes condense to both notes joined by " | ". */
  lemma AggregateTwoNotes(s1: Session, s2: Session)
    requires s1.notes != "" && s2.notes != ""
    ensures AggregateDay([s1, s2]).notes == s1.notes + NoteSeparator + s2.notes
  {
    AggregateNotesAppend([s1], [s2]);
    AggregateSingle(s1);
    AggregateSingle(s2);
    assert [s1] + [s2] == [s1, s2];
  }

  /** The condensed notes are empty exactly when no session of the day has any. */
  lemma AggregateNotesEmpty(day: seq<Session>)
    requires |day| > 0
    ensures AggregateDay(day).notes == "" <==> forall i :: 0 <= i < |day| ==> day[i].notes == ""
  {
    var ns := NotesOf(day);
    JoinOfNonEmpty(NonEmptyNotes(ns), NoteSeparator);
    if forall i :: 0 <= i < |day| ==> day[i].notes == "" {
      NoneNonEmpty(ns);
    } else {
      var i :| 0 <= i < |day| && day[i].notes != "";
      assert ns[i] in NonEmptyNotes(ns);
    }
  }

  /** Notes of sessions that have none add nothing: when exactly one session
      of the day has notes, the condensed notes are those notes. */
  lemma AggregateOneNote(day: seq<Session>, i: nat)
    requires i < |day| && day[i].notes != ""
    requires forall j :: 0 <= j < |day| && j != i ==> day[j].notes == ""
    ensures AggregateDay(day).notes == day[i].notes
  {
    OnlyNonEmpty(NotesOf(day), i);
  }

  lemma {:induction false} OnlyNonEmpty(ns: seq<string>, i: nat)
    requires i < |ns| && ns[i] != ""
    requires forall j :: 0 <= j < |ns| && j != i ==> ns[j] == ""
    ensures NonEmptyNotes(ns) == [ns[i]]
    decreases |ns|
  {
    if i == 0 {
      NoneNonEmpty(ns[1..]);
    } else {
      OnlyNonEmpty(ns[1..], i - 1);
    }
  }

  lemma {:induction false} NoneNonEmpty(ns: seq<string>)
    requires forall j :: 0 <= j < |ns| ==> ns[j] == ""
    ensures NonEmptyNotes(ns) == []
    decreases |ns|
  {
    if |ns| > 0 {
      NoneNonEmpty(ns[1..]);
    }
  }

  /** The condensed session carries the day's ratios: its own statistics
      agree with the day's on every field that does not involve time. */
  lemma AggregateKeepsRates(day: seq<Session>, now: int)
    requires |day| > 0
    ensures var a := CalculateStats([AggregateDay(day)], now);
      var d := CalculateStats(day, now);
      && a.attackRate == d.attackRate && a.hookupRate == d.hookupRate
      && a.landingRate == d.landingRate && a.efficiency == d.efficiency
      && a.castsPerFish == d.castsPerFish && a.attacksPer100Casts == d.attacksPer100Casts
  {
    var agg := AggregateDay(day);
    MetricsExtensional(agg.metrics, SumMetrics(day));
    assert SumMetrics([agg]) == SumMetrics(day);
  }

  /** The session a target stands for in the prompt. */
  function PromptSession(t: Target): (s: Session)
    requires t.Day? ==> |t.sessions| > 0
  {
    match t
    case Single(s) => s
    case Day(ss) => AggregateDay(ss)
  }

  /** The day bucket of a non-empty key, when there is one. */
  function DayTarget(st: AppState, d: string): (r: Option<Target>)
    ensures r.Some? ==>
      r.value.Day? && r.value.sessions == SessionsOn(st.sessions, d) && |r.value.sessions| > 0
    ensures r.None? <==> forall k :: 0 <= k < |st.sessions| ==> st.sessions[k].date != d
  {
    LookupGroup(st.sessions, d);
    match Lookup(GroupByDate(st.sessions), d)
    case None => None
    case Some(b) =>
      assert exists k :: 0 <= k < |st.sessions| && st.sessions[k].date == d;
      var k :| 0 <= k < |st.sessions| && st.sessions[k].date == d;
      assert st.sessions[k] in b;
      Some(Day(b))
  }

  /** `generateAIInsights` as written: offline nothing is sent; otherwise the
      active session, else the selected day's bucket, else the newest
      session on its own — while the statistics sent with it are the newest
      session's whole day. */
  function InsightRequestAsWritten(st: AppState, online: bool, now: int): (r: Option<InsightRequest>)
    ensures r.Some? ==> online && CurrentStats(st, now) == Some(r.value.stats)
    ensures online && st.active.Some? ==> r.Some? && r.value.session == st.active.value
    ensures r.Some? && st.active.None? && st.selectedDay.None? ==> r.value.session == st.sessions[0]
  {
    var target :=
      if st.active.Some? then Some(Single(st.active.value))
      else if st.selectedDay.Some? && st.selectedDay.value != "" then DayTarget(st, st.selectedDay.value)
      else if |st.sessions| > 0 then Some(Single(st.sessions[0]))
      else None;
    if !online || target.None? || CurrentStats(st, now).None? then None
    else Some(InsightRequest(PromptSession(target.value), CurrentStats(st, now).value))
  }

  /** Two sessions on one day, none active and no day selected (the state
      right after the app loads a history): the prompt gets the newest
      session's 10 casts and its attack rate of 50% alongside the day's
      25% and the day's 20 casts per fish (no fish landed, so the day's cast
      total). */
  lemma AsWrittenMismatch(now: int)
    ensures var s1 := Session("2", "01/01/2026", 0, Some(1), None, None, Metrics(10, 5, 0, 0, 0), "");
      var s2 := Session("1", "01/01/2026", 0, Some(1), None, None, Metrics(10, 0, 0, 0, 0), "");
      var st := AppState([s1, s2], None, [], None);
      var r := InsightRequestAsWritten(st, true, now);
      && r.Some?
      && r.value.stats.attackRate == 0.25
      && CalculateStats([r.value.session], now).attackRate == 0.5
      && r.value.session.metrics.casts == 10
      && r.value.stats.castsPerFish == 20.0
  {
    var s1 := Session("2", "01/01/2026", 0, Some(1), None, None, Metrics(10, 5, 0, 0, 0), "");
    var s2 := Session("1", "01/01/2026", 0, Some(1), None, None, Metrics(10, 0, 0, 0, 0), "");
    var st := AppState([s1, s2], None, [], None);
    assert !SelectsDay(st);
    var day := SessionsOn(st.sessions, s1.date);
    assert SessionsOn(st.sessions[..1], s1.date) == [s1] by {
      assert st.sessions[..1][..0] == [];
    }
    assert day == [s1, s2];
    assert SumMetrics(day) == Metrics(20, 5, 0, 0, 0) by {
      assert day[..1] == [s1];
    }
    var r := CalculateStats(day, now);
    assert r.attackRate * 20.0 == 5.0;
  }

  /** The target with the newest session's whole day in the fallback branch,
      so that the session and the statistics sent describe the same sessions. */
  function InsightTarget(st: AppState): (r: Option<Target>)
    ensures r.Some? && r.value.Day? ==> |r.value.sessions| > 0
    ensures r.Some? <==>
      || st.active.Some?
      || (st.selectedDay.Some? && st.selectedDay.value != "" && SelectsDay(st))
      || ((st.selectedDay.None? || st.selectedDay.value == "") && |st.sessions| > 0)
  {
    if st.active.Some? then Some(Single(st.active.value))
    else if st.selectedDay.Some? && st.selectedDay.value != "" then DayTarget(st, st.selectedDay.value)
    else if |st.sessions| > 0 then DayTarget(st, st.sessions[0].date)
    else None
  }

  function InsightRequestFixed(st: AppState, online: bool, now: int): (r: Option<InsightRequest>)
    ensures r.Some? ==> online && CurrentStats(st, now) == Some(r.value.stats)
    ensures online && st.active.Some? ==> r.Some? && r.value.session == st.active.value
  {
    var target := InsightTarget(st);
    if !online || target.None? || CurrentStats(st, now).None? then None
    else Some(InsightRequest(PromptSession(target.value), CurrentStats(st, now).value))
  }

  /** With the fix the prompt's session totals are exactly the totals the
      statistics sent with it were computed from. */
  lemma FixedRequestIsConsistent(st: AppState, online: bool, now: int)
    requires InsightRequestFixed(st, online, now).Some?
    ensures var r := InsightRequestFixed(st, online, now).value;
      && StatsSessions(st).Some?
      && r.stats == CalculateStats(StatsSessions(st).value, now)
      && r.session.metrics == SumMetrics(StatsSessions(st).value)
  {
    var t := InsightTarget(st).value;
    var r := InsightRequestFixed(st, online, now).value;
    if st.active.None? {
      var d := if st.selectedDay.Some? && st.selectedDay.value != "" then st.selectedDay.value else st.sessions[0].date;
      assert t.sessions == SessionsOn(st.sessions, d);
      if st.selectedDay.Some? && st.selectedDay.value != "" {
        var k :| 0 <= k < |st.sessions| && st.sessions[k] in t.sessions;
        assert SelectsDay(st);
      }
      MetricsExtensional(r.session.metrics, SumMetrics(StatsSessions(st).value));
    }
  }

  /** The fix changes nothing while a session is active or a day is selected. */
  lemma FixOnlyTouchesFallback(st: AppState, online: bool, now: int)
    requires st.active.Some? || (st.selectedDay.Some? && st.selectedDay.value != "")
    ensures InsightRequestFixed(st, online, now) == InsightRequestAsWritten(st, online, now)
  {
  }
}
