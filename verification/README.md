# Fishing session metrics, modelled in Dafny

This project models the metric core of a fishing logger. An angler starts a
session and counts the stages of a catch: casts, attacks, hookups, fish
landed and fish lost. They can undo a change, finish the session, or
estimate the casts with the cast calculator. The statistics screen shows
conversion rates for the active session or for a whole day of sessions. A
history view compares the days. The model covers the following:

- `model.dfy` (`Model`): sessions, their counters and the statistics record.
- `statistics.dfy` (`Statistics`): the statistics reducer. It sums the counters
  and durations, then derives guarded rates and hourly rates with the
  eight-hour fallback.
- `grouping.dfy` (`Grouping`): day buckets. They hold the sessions grouped by
  date string, in first-occurrence order.
- `session.dfy` (`ActiveSession`): the app state and its handlers. These are
  start, counter update with a bounded undo stack, undo, finish and calculator
  apply, plus the choice of sessions the statistics screen summarises.
- `insight.dfy` (`DayInsight`): what the insight button sends, including a day
  condensed into one session.
- `text.dfy` (`Text`) and `dates.dfy` (`DateKeys`): `split`, `join`,
  `reverse`, decimal rendering and string order, and the date sort key and
  label built from them.
- `history.dfy` (`History`): the day-by-day comparison rows, their averages and
  the two-day display guard.
- `counter.dfy` (`CounterWidget`): the counter buttons, the typed field read
  with `parseInt`, and the icon test.
- `charts.dfy` (`Charts`): the hundred-cast funnel and the capped percentage
  bars.

The model makes these choices:

- Timestamps are integer milliseconds, and the clock reading is a parameter
  `now`.
- Counters are natural numbers.
- Rates are exact reals.
- `Math.round` is `floor(x + 0.5)`.

## Model

| member | source | states |
|---|---|---|
| `Model.WithMetric` | App.tsx:158-161 | setting one counter gives it the new value and leaves the other four unchanged |
| `Model.Plus` | App.tsx:194-198 | each counter of a sum is the sum of that counter |
| `Statistics.SumMetricsAppend` | App.tsx:186-201 | the counter totals of a concatenation of session lists are the sums of the totals of the parts |
| `Statistics.SumMetrics` | App.tsx:186-201 | the totals of a one-session list are that session's counters; with `Statistics.SumMetricsAppend` this fixes every total as a per-counter sum |
| `Statistics.SumDurationMs` | App.tsx:186-199 | an empty list lasts nothing and a one-session list lasts that session's duration; with `Statistics.SumDurationAppend` this makes the total the sum of the sessions' durations |
| `Statistics.SumDurationAppend` | App.tsx:186-201 | the duration total of a concatenation is the sum of the parts' totals, and one more session adds exactly its own duration |
| `Statistics.Round` | App.tsx:214 | the rounded value lies within one half of the input |
| `Statistics.DurationMinutes` | App.tsx:204-214 | the reported minutes lie within one half of the exact elapsed minutes |
| `Statistics.RateHours` | App.tsx:203-205 | the hours the hourly rates divide by always exceed the 0.0166 threshold, and are the real hours whenever those exceed it |
| `Statistics.RateHoursFallback` | App.tsx:205 | whenever the hours are at most 0.0166 (a zero, negative or under-a-minute duration), the rates divide by the eight-hour fallback |
| `Statistics.ShortDurationUsesFallback` | App.tsx:203-216 | any session list whose durations total at most the threshold reports fish and casts per hour as its totals over eight hours |
| `Statistics.Ratio` | App.tsx:208-211 | a rate times its denominator is its numerator; the rate is 0 when the denominator is 0 and is never negative |
| `Statistics.CastsPerFish` | App.tsx:212 | casts per fish times fish landed is the cast count; with no fish it is the cast count; it is 0 exactly when there are no casts |
| `Statistics.PerHour` | App.tsx:215-216 | an hourly rate times the rate hours gives back the count |
| `Statistics.StatsOf` | App.tsx:203-217 | all statistics fields: the four guarded stage rates, attacks per hundred casts, casts per fish, hourly rates over the fallback-guarded hours, rounded minutes, non-negativity |
| `Statistics.CalculateStats` | App.tsx:183-218 | the rates of a session list are guarded quotients of its counter totals |
| `Statistics.FunnelIdentity` | App.tsx:208-211 | for statistics whose rates are the guarded quotients of the totals, when casts, attacks and hookups are non-zero, efficiency equals attack rate times hookup rate times landing rate |
| `Statistics.EmptyListStats` | App.tsx:201-217 | an empty list yields all-zero statistics |
| `Statistics.JustStartedUsesFallback` | App.tsx:189-205 | a session that started at the current instant uses the eight-hour fallback and reports zero minutes |
| `Statistics.FreshSessionStats` | App.tsx:185-217 | a fresh session with no counts has all-zero statistics |
| `Statistics.ManualDurationOverrides` | App.tsx:187-188 | a non-zero manual duration decides the duration, whatever the timestamps and the clock say |
| `Statistics.FinishedDurationIgnoresClock` | App.tsx:189-190 | a finished session's duration does not depend on the clock and, without a manual estimate, is its end time minus its start time |
| `Statistics.RunningDurationTracksClock` | App.tsx:191 | a session in progress without a manual estimate lasts nothing at its start time and grows by exactly as much as the clock advances, so it lasts the clock minus the start time |
| `Statistics.SessionDurationMs` | App.tsx:187-191 | one session's milliseconds: the manual estimate when it is non-zero (`Statistics.ManualDurationOverrides`), else end minus start (`Statistics.FinishedDurationIgnoresClock`), else the clock minus start (`Statistics.RunningDurationTracksClock`) |
| `Statistics.WorkedExample` | App.tsx:207-213 | 320 casts, 45 attacks, 28 hookups and 22 fish give an attack rate of about 14.06% and an efficiency of about 6.88% |
| `Statistics.NoFishExample` | App.tsx:212 | with casts but nothing else, every rate is 0 and casts per fish is the cast count |
| `Grouping.AddSession` | App.tsx:222-225 | a new date opens a bucket at the end; a known date appends the session to the first bucket of that date and changes nothing else |
| `Grouping.GroupByDateCharacterized` | App.tsx:220-227 | the buckets are one per distinct date in first-occurrence order, each holding exactly that date's sessions in input order |
| `Grouping.GroupByDate` | App.tsx:220-227 | the `dailyGroups` fold of `Grouping.AddSession`; its result is characterised by `Grouping.GroupByDateCharacterized` and `Grouping.GroupingIsPartition` |
| `Grouping.GroupingIsPartition` | App.tsx:220-227 | the buckets together hold exactly the input sessions, with multiplicity |
| `Grouping.BucketKeys` | App.tsx:221-226 | bucket keys are distinct and are exactly the dates that occur |
| `Grouping.EachSessionInOneBucket` | App.tsx:222-225 | every session lies in the bucket of its own date |
| `Grouping.BucketsHoldTheirDate` | App.tsx:222-225 | a bucket holds only input sessions of its own date and is never empty |
| `Grouping.LookupGroup` | App.tsx:231-232 | looking a date up finds nothing exactly when no session has that date, else that date's sessions |
| `Grouping.Lookup` | App.tsx:231-232 | `dailyGroups[d]`: absent exactly when no bucket has key `d`, else the sessions of a bucket with that key |
| `ActiveSession.LastN` | App.tsx:157 | keeping the newest `n` snapshots keeps at most `n`, and they are the tail of the stack |
| `ActiveSession.StartSession` | App.tsx:140-153 | a started session has the clock as id and start time, zero counters, empty notes and species, no end; the undo stack is emptied and the history kept |
| `ActiveSession.UpdateMetric` | App.tsx:155-162 | without an active session nothing changes; otherwise only the chosen counter changes and the previous counters are pushed onto a stack capped at twenty |
| `ActiveSession.Undo` | App.tsx:164-172 | with an active session and a non-empty stack, the newest snapshot is restored and popped; otherwise nothing changes |
| `ActiveSession.FinishSession` | App.tsx:174-181 | the session, stamped with its end time, goes in front of the history; the active session is cleared; its day is selected; the undo stack is kept |
| `ActiveSession.ApplyCalculator` | App.tsx:512-519 | the estimate replaces the cast count and the hours become a manual duration in minutes; nothing else changes and nothing is pushed |
| `ActiveSession.StatsSessions` | App.tsx:229-234 | the statistics cover the active session, else the sessions of a selected date that occurs, else the newest session's day; they are absent only when there is neither an active session nor any history |
| `ActiveSession.CurrentStats` | App.tsx:229-234 | there are statistics unless there is neither an active session nor any history; an active session's statistics are its own |
| `ActiveSession.HandlersKeepValid` | App.tsx:140-181 | every handler keeps the undo stack at most twenty deep and the history made of finished sessions |
| `ActiveSession.UndoRevertsUpdate` | App.tsx:155-172 | undo right after an update restores the counters, and the whole state too unless the stack was full |
| `ActiveSession.StartedSessionStats` | App.tsx:140-153 | a just-started session shows all-zero statistics |
| `ActiveSession.StartedSessionId` | App.tsx:142 | a session id read back as a decimal number is its start time |
| `ActiveSession.FinishShowsFinishedDay` | App.tsx:174-181 | after finishing, the screen shows the statistics of every stored session of the finished session's date |
| `ActiveSession.CalculatorFixesDuration` | App.tsx:512-519 | after applying a non-zero number of hours, the session lasts exactly those hours and counts the estimated casts |
| `DayInsight.NonEmptyNotes` | App.tsx:254 | the kept notes are exactly the non-empty ones; a single note is kept or dropped by itself |
| `DayInsight.NonEmptyNotesAppend` | App.tsx:254 | filtering a concatenation concatenates the filtered parts, so the order and repetitions of the kept notes are those of the input |
| `DayInsight.AggregateDay` | App.tsx:245-255 | the condensed day keeps the first session's fields except counters and notes, and its counters are the day's totals |
| `DayInsight.AggregateSingle` | App.tsx:245-255 | condensing a one-session day gives back that session |
| `DayInsight.AggregateOneNote` | App.tsx:254 | when only one session of the day has notes, the condensed notes are those notes |
| `DayInsight.AggregateNotesAppend` | App.tsx:254 | condensed notes compose: the notes of two runs of sessions are each run's notes, with one " \| " between them when both have any |
| `DayInsight.AggregateTwoNotes` | App.tsx:254 | two sessions with notes condense to the first note, " \| ", then the second |
| `DayInsight.AggregateNotesEmpty` | App.tsx:254 | the condensed notes are empty exactly when no session of the day has notes |
| `DayInsight.AggregateKeepsRates` | App.tsx:245-255 | the condensed session has the same rates as the day it condenses |
| `DayInsight.DayTarget` | App.tsx:241 | a date's bucket is found exactly when some stored session has that date, and it is that date's non-empty session list |
| `DayInsight.InsightRequestAsWritten` | App.tsx:236-243 | offline nothing is sent; what is sent carries the on-screen statistics; with no active session and no selected day the session sent is the newest one alone |
| `DayInsight.AsWrittenMismatch` | App.tsx:241-242 | two sessions on one day with no day selected: the session sent has 10 casts and a 50% attack rate, while the statistics sent with it say 25% and 20 casts per fish, the day's cast total |
| `DayInsight.InsightTarget` | App.tsx:241 | the corrected target exists for an active session, a selected date that occurs, or any history when no day is selected |
| `DayInsight.InsightRequestFixed` | App.tsx:236-256 | what is sent carries the on-screen statistics, and the active session when there is one |
| `DayInsight.FixedRequestIsConsistent` | App.tsx:241-256 | with the correction, the session sent has exactly the counter totals the sent statistics were computed from |
| `DayInsight.FixOnlyTouchesFallback` | App.tsx:241 | the correction changes nothing while a session is active or a day is selected |
| `Text.Split` | components/HistoryComparison.tsx:23-24 | splitting yields at least one part and no part contains the separator |
| `Text.JoinSplit` | components/HistoryComparison.tsx:23-24 | joining the parts of a split with the separator gives back the string |
| `Text.SplitJoin` | components/HistoryComparison.tsx:23-24 | splitting a join of separator-free parts gives back the parts |
| `Text.JoinAppend` | App.tsx:254 | joining two non-empty lists puts exactly one separator between their joins |
| `Text.Reverse` | components/HistoryComparison.tsx:23-24 | reversal maps position i to position n-1-i |
| `Text.NatToString` | App.tsx:142 | the decimal rendering is non-empty, all digits, without a leading zero |
| `Text.DigitsValueOfNatToString` | App.tsx:142 | the decimal rendering of a natural reads back as that natural |
| `Text.LexTotal` | components/HistoryComparison.tsx:25 | any two strings are ordered one way or the other |
| `Text.LexLessTransitive` | components/HistoryComparison.tsx:25 | the string order is transitive |
| `Text.LexLessConcat` | components/HistoryComparison.tsx:25 | equal-length prefixes decide the order, and equal prefixes defer to the suffixes |
| `DateKeys.SortKeyOfDateString` | components/HistoryComparison.tsx:23-24 | the sort key of "dd/mm/yyyy" is "yyyy-mm-dd" |
| `DateKeys.SortKey` | components/HistoryComparison.tsx:23-24 | `split('/').reverse().join('-')`; on a "dd/mm/yyyy" string it gives "yyyy-mm-dd" (`DateKeys.SortKeyOfDateString`) |
| `DateKeys.LabelOfDateString` | components/HistoryComparison.tsx:29 | the label of "dd/mm/yyyy" is "dd/mm" |
| `DateKeys.Label` | components/HistoryComparison.tsx:29 | the first two `/`-separated parts joined by `/` ("undefined" standing in for a missing second part); "dd/mm" for a "dd/mm/yyyy" string (`DateKeys.LabelOfDateString`) |
| `DateKeys.SortKeyIsChronological` | components/HistoryComparison.tsx:22-25 | for zero-padded dates, sort-key order is calendar order |
| `History.InsertDate` | components/HistoryComparison.tsx:22-25 | inserting into an ascending key list keeps it ascending and adds exactly that key |
| `History.SortDates` | components/HistoryComparison.tsx:22-25 | the sorted keys are ascending by sort key and are a permutation of the input |
| `History.Rows` | components/HistoryComparison.tsx:26-36 | one row per key, each computed from that key's bucket |
| `History.RowKeys` | components/HistoryComparison.tsx:15-26 | the rows are keyed by the sorted bucket keys |
| `History.OneRowPerDate` | components/HistoryComparison.tsx:15-26 | there is one row per distinct date: row keys do not repeat and are exactly the dates that occur |
| `History.RowsAscending` | components/HistoryComparison.tsx:22-25 | rows come in ascending sort-key order |
| `History.RowsComputedPerDay` | components/HistoryComparison.tsx:26-35 | each row is labelled from its date and computed on every session of that date |
| `History.DataByDay` | components/HistoryComparison.tsx:15-37 | the comparison rows: one per date (`History.OneRowPerDate`), ascending (`History.RowsAscending`), each computed over that whole day (`History.RowsComputedPerDay`) |
| `History.ComputeAverages` | components/HistoryComparison.tsx:39-47 | there are no averages exactly when there are no days; otherwise each column's average is its mean over the days |
| `History.MeanWithinBounds` | components/HistoryComparison.tsx:42-45 | a mean lies within any bounds of the averaged values |
| `History.AverageWithinDailyRange` | components/HistoryComparison.tsx:39-47 | each average lies between the worst and the best day of its column |
| `History.AverageOfEqualDays` | components/HistoryComparison.tsx:39-47 | days that agree on a column average to that value |
| `History.ShowsComparisonIffTwoDates` | components/HistoryComparison.tsx:49 | the comparison shows exactly when two sessions carry different dates |
| `CounterWidget.Decrement` | components/Counter.tsx:31 | the minus button lowers a positive counter by one and leaves zero at zero |
| `CounterWidget.Increment` | components/Counter.tsx:50 | the plus button raises the counter |
| `CounterWidget.IncrementDecrement` | components/Counter.tsx:31-50 | minus undoes plus, and plus undoes minus away from zero |
| `CounterWidget.TrimStart` | components/Counter.tsx:43 | `parseInt` skips exactly the leading white space |
| `CounterWidget.DigitPrefix` | components/Counter.tsx:43 | the digits read are the longest digit prefix |
| `CounterWidget.DisplayValue` | components/Counter.tsx:40 | the field is empty exactly when the counter is zero |
| `CounterWidget.TypedDisplayRoundTrip` | components/Counter.tsx:40-44 | reading back what the field shows gives the counter's value |
| `CounterWidget.ParseInt` | components/Counter.tsx:43 | `parseInt` without a radix (white space, sign, "0x", longest digit prefix, NaN); illustrated by `CounterWidget.LeadingSpaceIgnored`, `CounterWidget.HexPrefix`, `CounterWidget.ParseNatToString`, `CounterWidget.NegativeIsClamped` and `CounterWidget.EmptyFieldIsZero` |
| `CounterWidget.TypedValue` | components/Counter.tsx:43-44 | `isNaN(val) ? 0 : Math.max(0, val)` applied to the parsed text; illustrated by `CounterWidget.TypedDisplayRoundTrip`, `CounterWidget.TrailingTextIgnored` and `CounterWidget.NegativeIsClamped` |
| `CounterWidget.ParseNatToString` | components/Counter.tsx:43 | `parseInt` of a decimal rendering gives the number back |
| `CounterWidget.EmptyFieldIsZero` | components/Counter.tsx:43-44 | clearing the field is NaN and sets the counter to zero |
| `CounterWidget.NegativeIsClamped` | components/Counter.tsx:43-44 | a typed negative number sets the counter to zero |
| `CounterWidget.LeadingSpaceIgnored` | components/Counter.tsx:43 | leading white space does not change what is read |
| `CounterWidget.TrailingTextIgnored` | components/Counter.tsx:43-44 | text after the digits is ignored, except that an 'x' after a lone 0 starts a base-16 number |
| `CounterWidget.HexPrefix` | components/Counter.tsx:43 | behind "0x" the digits are read in base 16 |
| `CounterWidget.IsImageUrl` | components/Counter.tsx:13 | the image test: characterised by `CounterWidget.IconFontIsNotImage` and `CounterWidget.ImageSources` |
| `CounterWidget.IconFontIsNotImage` | components/Counter.tsx:13 | any icon-font class name (starting "fa-", no slash) is not taken for an image |
| `CounterWidget.ImageSources` | components/Counter.tsx:13 | anything that starts with "data:" or "http", or holds a slash, is taken for an image |
| `CounterWidget.IconExamples` | components/Counter.tsx:13 | examples: "fa-fish-fins" is not an image; a data URI, a web link and a relative path are |
| `Charts.MetricFunnel` | components/StatsCharts.tsx:17-22 | the funnel starts at 100 and each stage is the previous one scaled by that stage's rate |
| `Charts.FunnelEndsAtEfficiency` | components/StatsCharts.tsx:17-22 | with casts, attacks and hookups present, the funnel ends at the efficiency in percent |
| `Charts.FunnelEmptiesAfterZeroStage` | components/StatsCharts.tsx:17-22 | with no attacks every later stage is zero; with no hookups the last two are |
| `Charts.FunnelNarrows` | components/StatsCharts.tsx:17-22 | when each count is at most the one before it, the funnel never widens and stays within 0 to 100 |
| `Charts.BarWidth` | components/StatsCharts.tsx:139 | a bar is at most 100% wide and is the rate in percent while the rate is at most one |
| `Charts.BarsWithinTrack` | components/StatsCharts.tsx:92-139 | the three rate bars lie within 0 to 100%, and the attack bar is full exactly when the attack rate is at least one |

## Left out

- The language-model call (services/gemini.ts) and its answer are left out. The model ends at the request the insight button builds.
- Local storage, cloud sync and the online and offline listeners (App.tsx:83-133) are left out because they are I/O. Connectivity enters only as the `online` flag of the insight request.
- The weather forecast, login modal and header are left out: they have no metric logic.
- The cast calculator's own arithmetic is left out. Only its effect through "apply" is modelled.
- `formatWithBold`, view switching, loading flags and the insight text state are left out: they are presentation only.
- The location field of a session is left out: no metric reads it.
- `startSession` reads the clock three times: `Date.now()` for the id, `new Date()` for the date string and `new Date()` for the start time (App.tsx:142-144). The model uses one reading `now` for the id and the start time and takes the date string as a parameter.
- ISO timestamp strings are modelled as their millisecond values, and the locale date string is a parameter.
- Floating-point rounding is not modelled: rates are exact reals.
- A NaN manual duration is not modelled.
- `parseInt` values too large for exact representation are not modelled.
- `ActiveSession.ApplyCalculator`: the calculator total is a natural here, because counters are natural numbers throughout the model. The calculator can produce a negative total: a typed negative rate (`parseInt("-5") || 0` is -5, components/CastCalculator.tsx:43) makes `Math.round(castsPerHour * totalHours)` negative (components/CastCalculator.tsx:15), and App.tsx:517 stores it as the cast count. That case is not modelled.
- `History.Rows`: rows carry exact values. The `toFixed(1)` and `Math.round` display rounding of each row is not modelled.
- `History.ComputeAverages`: averages are exact means. The `toFixed(1)` and `Math.round` of the summary cards are not modelled.
- `Statistics.CalculateStats`: its own contract states only the rates and casts per fish. The hourly rates, the rounded minutes and non-negativity are stated on `Statistics.StatsOf`, which `CalculateStats` applies to the summed totals.
- Session dates are taken to be `toLocaleDateString` strings such as "dd/mm/yyyy", but the model accepts any string and grouping is total. Two JavaScript object behaviours of the grouping (App.tsx:222-225, components/HistoryComparison.tsx:17-20) are not modelled. A date equal to an inherited property name such as "constructor" or "toString" finds a truthy non-array value, so `push` throws. An integer-like date key is listed before the other keys by `Object.keys`, which breaks first-occurrence order.
- `Text.LexTotal`: `localeCompare` is modelled as code-point order. For the digit-and-hyphen sort keys of zero-padded dates the two agree, but locale collation is not modelled for other keys.
- `CounterWidget.TrimStart`: the white-space set is the ECMA-262 StrWhiteSpaceChar set as listed. Characters later added to Unicode category Zs are not tracked.

## Findings

| source | as written | input that shows it | evidently intended | confidence | as-written member | corrected member |
|---|---|---|---|---|---|---|
| App.tsx:241 | With no active session and no selected day, the insight handler sends the newest session alone. The statistics it sends with it cover that session's whole day (App.tsx:232). | Two sessions dated 01/01/2026, no day selected (the state after the app loads a stored history). The sent session has 10 casts and a 50% attack rate; the statistics sent with it show 20 casts per fish (the day's cast total) and a 25% attack rate (`DayInsight.AsWrittenMismatch`). | Send the newest session's day condensed, as for a selected day, so the session's totals match the statistics (`DayInsight.FixedRequestIsConsistent`). | medium, not executed | `DayInsight.InsightRequestAsWritten` | `DayInsight.InsightRequestFixed` |
