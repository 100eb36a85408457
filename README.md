# BabyTime day engine and activity manager, in Dafny

BabyTime is an iOS app for logging a baby's feeds (bottles and nursing
sessions) and sleeps. It answers one question: given the baby's age, today's
events and the current instant, where does the day stand? This project models
the parts of the app that answer that question and the state changes behind it.

- **Age table** (`age_table.dfy`, module `AgeTables`). The five contiguous age
  brackets, each with its progressive wake windows, feed interval and daily
  targets; the lookup by age in days; and the wake window for a number of
  finished naps.
- **Day engine** (`day_engine.dfy`, `day_state.dfy`). The nap cutoff, the
  counting of finished naps and feeds, and the wake reference. It also runs two
  independent classifications:
  - the day track, nine states (`DayStates.DayState`);
  - the feed track, five states (`DayStates.FeedState`).

  The engine reads only each event's start, end and kind. It therefore works on
  value records of those fields and is a set of total functions.
- **Events** (`events.dfy`). The sleep and feed records of the store, as classes
  whose fields are updated in place. This file also holds:
  - the raw-string accessors for kind, bottle source and nursing side, which
    fall back to a default;
  - the clamped whole-minute durations;
  - the duration and short descriptions.
- **Activity manager** (`activity_manager.dfy`, module `Manager`). A class that
  holds:
  - the selected baby, whose two event lists are the store;
  - today's feeds and sleeps;
  - the latest snapshot;
  - references to the sleep and nursing feed being timed (the "session").

  The start/stop/resume/reset/save methods change the store and the session
  reference in place, then reload today's lists and the snapshot. The file also
  has the `mm:ss` timer texts, the counts and totals, and the summary texts.
- **Prototype models** (`prototype_activity.dfy`, `prototype_scenario.dfy`).
  The preview app's value types:
  - the age description;
  - the second age-bracket lookup and its targets;
  - feed types and their descriptions;
  - the newest-first timeline;
  - the `Scenario` helpers: latest feed and sleep, minutes since each, totals,
    readiness tests and duration texts.
- **Shared helpers** (`basics.dfy`, `text.dfy`):
  - Swift's truncating integer division and remainder;
  - whole-minute conversions;
  - an insertion sort by key;
  - decimal rendering and reading back of numbers, `XhYm` durations, `mm:ss`
    timers and "N units" counts.

  The texts are specified by round trips: reading a rendered text back gives the
  number it was made from.

Conventions:
- Instants are whole seconds (`int`).
- Every minute count is `Int(seconds / 60)`, i.e. truncated toward zero
  (`Basics.Minutes`, built on `Basics.TruncDiv`).
- The two copies of `Activity.swift` and `MockData.swift` share most members.
  Shared members cite `BabyTime/Models/…`. Members present only in the fuller
  copy cite `BabyTime/BabyTime/Models/…`.

## Model

Functions that only compute a value carry no contract of their own; the
lemma rows state what they compute:
- `TodayFeeds` and `TodaySleeps`: the `Today…Selects`, `…Keeps`, `…Ordered` and `…Count` rows.
- `FeedCount`: `FeedCountAfterLoad`.
- The six summary texts: `SummaryTextsReadBack`.
- `HoursMinutes` and `TimerText`: `HoursMinutesRoundTrip` and `TimerRoundTrip`.
- `AgeDescription`: `AgeDescriptionRoundTrip`.
- `AllActivities`: `AllActivitiesNewestFirst` and `AllActivitiesContents`.
- `AllTables` and `LastWakeWindow`: `BracketsContiguous`, `TablesWellFormed` and `CurrentWakeWindowClamps`.
- `DisplayDescription`: `DisplayDescriptionReadsBack`.
- The session predicates `IsSleepActive`, `HasSleepSession`, `IsNursingActive` and `HasNursingSession`: `SessionFlags` and the getters' rows.
- `SleepEvent.IsActive` and `FeedEvent.IsActive`: the `DurationMinutes` rows (no duration exactly while in progress).
- The scenario's readiness predicates: `ReadinessFromEvents`.

| member | source | states |
|---|---|---|
| Basics.TruncDiv | BabyTime/Engine/DayEngine.swift:92 | Swift `Int(a / b)` for b > 0: the quotient truncated toward zero; for a ≥ 0 it is the floor, for negative a it rounds up |
| Basics.TruncRem | BabyTime/Models/SleepEvent.swift:43 | Swift `%`: a = q·b + r with q truncated; the remainder takes the sign of a and is smaller than b in magnitude |
| Basics.ClampedMinutes | BabyTime/Models/SleepEvent.swift:37 | `max(0, Int(Δ/60))` is never negative and is the whole minutes in max(0, end − start) |
| Basics.TruncReal | BabyTime/Models/Activity.swift:58 | `Int(x)` on a Double: truncation toward zero, within one of x and never past it |
| Basics.MaxOf | BabyTime/Models/ActivityManager.swift:354 | `max()` of a list: none exactly for the empty list, else a member that bounds every element from above |
| Basics.MinOf | BabyTime/Engine/DayEngine.swift:205 | `min()` of a list: none exactly for the empty list, else a member that bounds every element from below |
| Basics.Without | BabyTime/Models/ActivityManager.swift:171-175 | deleting an event from the store removes exactly that event (multiset minus every copy of it) and leaves the rest |
| Basics.SortByKeySorts | BabyTime/Models/ActivityManager.swift:110-112 | sorting by start gives an ordered permutation of the input |
| Basics.SortedAtLeast | BabyTime/Models/ActivityManager.swift:109-112 | filter-then-sort holds each element at or after the bound exactly as often as the input does and no other element, in key order; its length is the number of input positions at or after the bound |
| Basics.SumOfNonNegative | BabyTime/Models/ActivityManager.swift:349-351 | a sum of non-negative minute counts is non-negative and bounds each term |
| Text.TimerRoundTrip | BabyTime/Models/ActivityManager.swift:309-312 | the `%02d:%02d` text of an elapsed second count reads back as that count |
| Text.HoursMinutesRoundTrip | BabyTime/Models/SleepEvent.swift:42-47 | the "{h}h {m}m" / "{m}m" text reads back as the minute count; below −59 minutes only the remainder survives, as in the app |
| Text.ReadCountOfCountText | BabyTime/Models/Activity.swift:23-25 | "N unit(s)" (singular only for exactly 1) reads back as N |
| AgeTables.AgeTable.CurrentWakeWindow | BabyTime/Engine/AgeTable.swift:25-28 | the window for n finished naps is the n-th window, clamped to the last one |
| AgeTables.AgeTable.DailyIntakeOz | BabyTime/Engine/AgeTable.swift:45-53 | the intake target chosen by the bracket's lower bound is a valid range within 14–36 oz that contains 24 |
| AgeTables.AgeTable.DailySleepHours | BabyTime/Engine/AgeTable.swift:56-62 | the sleep target chosen by the bracket's lower bound is a valid range within 12–17 hours |
| AgeTables.FirstContaining | BabyTime/Engine/AgeTable.swift:70 | `first(where:)`: the first table whose day range contains the age, or none when no table does |
| AgeTables.ForAge | BabyTime/Engine/AgeTable.swift:69-71 | the lookup never fails: ages 0–419 get the bracket containing them, every other age the last bracket |
| AgeTables.BracketsContiguous | BabyTime/Engine/AgeTable.swift:83-129 | five brackets, starting at day 0, each ending where the next begins, the last ending at day 420 |
| AgeTables.TablesWellFormed | BabyTime/Engine/AgeTable.swift:84-128 | every table has at least two valid positive wake windows, a positive feed interval, at least one nap, and windows that never shrink |
| AgeTables.WindowsNonDecreasing | BabyTime/Engine/AgeTable.swift:83-129 | each wake window's lower bound is at most the next window's upper bound |
| AgeTables.ForAgeUnique | BabyTime/Engine/AgeTable.swift:69-71 | a table whose range contains the age is exactly the one the lookup returns |
| AgeTables.CurrentWakeWindowClamps | BabyTime/Engine/AgeTable.swift:25-33 | the current window is `wakeWindows[min(n, count − 1)]`, and the last window for every n ≥ count − 1 |
| AgeTables.NewbornWindowsFlat | BabyTime/Engine/AgeTable.swift:85-92 | under two months every wake window is 45–60 minutes |
| AgeTables.BoundaryLabels | BabyTime/Engine/AgeTable.swift:83-129 | days 0/59/60/119/120/209/210/299/300/419 and the out-of-range days −1 and 420 get the expected bracket labels |
| AgeTables.FiveMonthWindows | BabyTime/Engine/AgeTable.swift:103-110 | the 5–7 month bracket has four wake windows |
| AgeTables.SleepTargetsNonIncreasing | BabyTime/Engine/AgeTable.swift:56-62 | an older bracket never has a larger daily sleep target |
| DayEngine.NapCutoffTime | BabyTime/Engine/DayEngine.swift:71-73 | the cutoff lies exactly the last wake window's upper bound, in minutes, before bedtime |
| DayEngine.NapCutoffBeforeBedtime | BabyTime/Engine/DayEngine.swift:71-73 | for every age the cutoff falls between one hour and four and a half hours before bedtime |
| DayEngine.WakeReference | BabyTime/Engine/DayEngine.swift:88 | the wake reference is the latest sleep end, else the manual wake time, else the earliest event start; none only when all three are missing |
| DayEngine.DeriveDayState | BabyTime/Engine/DayEngine.swift:77-155 | each of the nine states holds exactly under its condition: not started without a wake reference; a sleep in progress beats every awake branch and is split at 0 and 30 minutes to the cutoff; awake, bedtime within 30 minutes (payload clamped at 0), then past the cutoff, then the wake window with both bounds inclusive; and each payload is the stated minute count |
| DayEngine.ApproachingThreshold | BabyTime/Engine/DayEngine.swift:179 | `Int(lower · 0.8)` is 80% of the bound rounded down, and below the bound whenever the bound is positive |
| DayEngine.DeriveFeedState | BabyTime/Engine/DayEngine.swift:159-188 | each of the five states holds exactly under its condition: nursing in progress, no counted feed, at or past the interval, at or past the threshold, else recently fed; payloads are the minutes since the feed started |
| DayEngine.FeedThresholdsInSeconds | BabyTime/Engine/DayEngine.swift:176-184 | "ready" is reached exactly when lower · 60 seconds have passed since the last feed started, and "approaching" exactly from the threshold's seconds until then |
| DayEngine.CompletedSleeps | BabyTime/Engine/DayEngine.swift:29 | `filter { endTime != nil }`: a sleep is kept exactly when it has ended; with every sleep ended the list is unchanged |
| DayEngine.CompletedSleepsKeeps | BabyTime/Engine/DayEngine.swift:29 | the filter keeps each ended sleep exactly as often as it is logged and drops every open one (multiset) |
| DayEngine.CompletedSleepsCount | BabyTime/Engine/DayEngine.swift:29 | the number of finished sleeps is the number of positions of the list holding a sleep with an end |
| DayEngine.FirstActiveSleep | BabyTime/Engine/DayEngine.swift:30 | `first { endTime == nil }`: the first sleep without an end, or none when every sleep has ended |
| DayEngine.LatestSleepEnd | BabyTime/Engine/DayEngine.swift:192-194 | the greatest end among the sleeps, none exactly when no sleep has ended |
| DayEngine.CountedOrNursing | BabyTime/Engine/DayEngine.swift:31-32 | every feed is either counted (ended, or a bottle) or a nursing feed in progress, never both |
| DayEngine.CompletedFeeds | BabyTime/Engine/DayEngine.swift:31 | `filter { endTime != nil \|\| feedKind == .bottle }`: a feed is kept exactly when it is counted; one uncounted feed makes the list shorter |
| DayEngine.CompletedFeedsKeeps | BabyTime/Engine/DayEngine.swift:31 | the filter keeps each counted feed exactly as often as it is logged and drops every nursing feed in progress (multiset) |
| DayEngine.CompletedFeedsCount | BabyTime/Engine/DayEngine.swift:31 | the number of counted feeds is the number of positions of the list holding an ended feed or a bottle |
| DayEngine.FirstNursingInProgress | BabyTime/Engine/DayEngine.swift:32 | the first nursing feed without an end, or none |
| DayEngine.LatestCompletedFeed | BabyTime/Engine/DayEngine.swift:196-200 | the counted feed with the latest start, the first such in the list among equal starts (`max(by:)`); none exactly when no feed is counted |
| DayEngine.EarliestEventTime | BabyTime/Engine/DayEngine.swift:202-206 | the earliest start over feeds and sleeps together; none exactly when both lists are empty |
| DayEngine.ActiveSleepStart | BabyTime/Engine/DayEngine.swift:30 | present exactly when some sleep has no end |
| DayEngine.ActiveSleepStartIsFirst | BabyTime/Engine/DayEngine.swift:30 | a present start is the start of a sleep with no end before which every sleep has an end (the first one in progress) |
| DayEngine.ActiveFeedStart | BabyTime/Engine/DayEngine.swift:32 | present exactly when some nursing feed has no end |
| DayEngine.ActiveFeedStartIsFirst | BabyTime/Engine/DayEngine.swift:32 | a present start is the start of a nursing feed with no end before which no nursing feed is in progress (the first one) |
| DayEngine.LastCompletedFeedStart | BabyTime/Engine/DayEngine.swift:196-200 | present exactly when some feed is counted |
| DayEngine.LastCompletedFeedStartIsLatest | BabyTime/Engine/DayEngine.swift:196-200 | a present start is a counted feed's start, and no counted feed's start exceeds it |
| DayEngine.Snapshot | BabyTime/Engine/DayEngine.swift:17-66 | the snapshot has the age's bracket, the given bedtime and wake time, and the cutoff from bedtime and the last window; its nap count is the length of the completed sleeps; its feed count is the length of the completed feeds plus one when a nursing feed is in progress; its two states are the classifiers' answers for those inputs and the current window for that nap count |
| DayEngine.SnapshotCounts | BabyTime/Engine/DayEngine.swift:29-35 | the snapshot's nap count is the number of logged sleeps with an end, and its feed count the number of counted feeds plus one when some nursing feed is in progress |
| DayEngine.SnapshotNotStarted | BabyTime/Engine/DayEngine.swift:88-90 | the day has not started exactly when nothing is logged and no wake time is given |
| DayEngine.SnapshotSleepingIffSleepInProgress | BabyTime/Engine/DayEngine.swift:95-115 | the day track is in a sleeping state exactly when some sleep has no end |
| DayEngine.SnapshotNoFeedsYet | BabyTime/Engine/DayEngine.swift:169-172 | the feed track says no feeds yet exactly when no feed is logged |
| DayEngine.SnapshotFeedCount | BabyTime/Engine/DayEngine.swift:31-35 | the feed count is between 0 and the number of feeds, positive once one is logged, and all of them when none is nursing in progress |
| DayEngine.FeedStateIgnoresSleeps | BabyTime/Engine/DayEngine.swift:49-54 | changing the sleeps or the wake time never changes the feed track |
| DayEngine.WakeTimeIgnoredAfterSleep | BabyTime/Engine/DayEngine.swift:38-47 | once a sleep has ended, the manual wake time does not affect the day track |
| DayEngine.DayStateIgnoresWakeTimeAfterSleep | BabyTime/Engine/DayEngine.swift:77-155 | with a latest sleep end given, the classifier's answer does not depend on the wake time |
| Events.ParseFeedKind | BabyTime/Models/FeedEvent.swift:102-105 | `FeedKind(rawValue:)`: a kind is recognised only from its own raw string |
| Events.ParseBottleSource | BabyTime/Models/FeedEvent.swift:114-117 | a source is recognised only from its own raw string |
| Events.ParseNursingSide | BabyTime/Models/FeedEvent.swift:126-130 | a side is recognised only from its own raw string |
| Events.FeedKindRoundTrip | BabyTime/Models/FeedEvent.swift:102-105 | every kind's raw string reads back as that kind |
| Events.BottleSourceRoundTrip | BabyTime/Models/FeedEvent.swift:114-117 | every bottle source's raw string reads back as that bottle source |
| Events.NursingSideRoundTrip | BabyTime/Models/FeedEvent.swift:126-130 | every side's raw string reads back as that side |
| Events.SleepEvent.constructor | BabyTime/Models/SleepEvent.swift:18-26 | a new sleep holds the given start and end |
| Events.SleepEvent.DurationMinutes | BabyTime/Models/SleepEvent.swift:35-38 | no duration exactly while the sleep is in progress, else the clamped whole minutes from start to end |
| Events.SleepEvent.DurationDescription | BabyTime/Models/SleepEvent.swift:40-48 | "—" while in progress, else a text that reads back as the duration in minutes |
| Events.FeedEvent.constructor | BabyTime/Models/FeedEvent.swift:24-40 | a new feed stores the raw strings of its kind, source and side, so the accessors read back the arguments |
| Events.FeedEvent.Kind | BabyTime/Models/FeedEvent.swift:47-48 | the kind whose raw string is stored, or bottle when the string is unknown |
| Events.FeedEvent.Source | BabyTime/Models/FeedEvent.swift:52-53 | the bottle source whose raw string is stored, or breast milk when unknown |
| Events.FeedEvent.Side | BabyTime/Models/FeedEvent.swift:57-58 | the side whose raw string is stored, or both when unknown |
| Events.FeedEvent.SetKind | BabyTime/Models/FeedEvent.swift:49 | setting the kind stores its raw string, and the getter then returns it |
| Events.FeedEvent.SetSource | BabyTime/Models/FeedEvent.swift:54 | setting the bottle source stores its raw string, and the getter then returns it |
| Events.FeedEvent.SetSide | BabyTime/Models/FeedEvent.swift:59 | setting the side stores its raw string, and the getter then returns it |
| Events.FeedEvent.DurationMinutes | BabyTime/Models/FeedEvent.swift:64-67 | no duration exactly while the feed is in progress, else the clamped whole minutes |
| Events.FeedEvent.ShortDescription | BabyTime/Models/FeedEvent.swift:79-88 | nursing: "{minutes} min", with 0 while in progress; bottle: "{Int(oz)} oz"; both read back as that number |
| Manager.Baby.constructor | BabyTime/Models/Baby.swift:32-35 | a new baby starts with no feeds and no sleeps |
| Manager.TodayFeedsSelects | BabyTime/Models/ActivityManager.swift:107-112 | today's feeds hold each stored feed starting at or after the start of the day exactly as often as the store does, and no other, ordered by start; their number is the number of store positions holding such a feed |
| Manager.TodayFeedsKeeps | BabyTime/Models/ActivityManager.swift:107-112 | `TodayFeeds` holds each stored feed of the day as often as the store does and nothing else (multiset) |
| Manager.TodayFeedsOrdered | BabyTime/Models/ActivityManager.swift:110-112 | `TodayFeeds` is ordered by start |
| Manager.TodayFeedsCount | BabyTime/Models/ActivityManager.swift:107-112 | `TodayFeeds` has one entry per store position holding a feed of the day |
| Manager.TodaySleepsSelects | BabyTime/Models/ActivityManager.swift:114-117 | today's sleeps hold each stored sleep starting at or after the start of the day exactly as often as the store does, and no other, ordered by start; their number is the number of store positions holding such a sleep |
| Manager.TodaySleepsKeeps | BabyTime/Models/ActivityManager.swift:114-117 | `TodaySleeps` holds each stored sleep of the day as often as the store does and nothing else (multiset) |
| Manager.TodaySleepsOrdered | BabyTime/Models/ActivityManager.swift:116-117 | `TodaySleeps` is ordered by start |
| Manager.TodaySleepsCount | BabyTime/Models/ActivityManager.swift:114-117 | `TodaySleeps` has one entry per store position holding a sleep of the day |
| Manager.TimerStringReadsBack | BabyTime/Models/ActivityManager.swift:315-322 | `TimerString` with a start reads back as max(0, (end, else now) − start) seconds |
| Manager.StoppedTimerDoesNotTick | BabyTime/Models/ActivityManager.swift:317 | with an end set, the timer text is the same at every instant |
| Manager.TimerExamples | BabyTime/Models/ActivityManager.swift:315-322 | 330 s shows "05:30", 125 s "02:05", no start "00:00" |
| Manager.TimerString | BabyTime/Models/ActivityManager.swift:315-316 | "00:00" without a start |
| Manager.SleepDurations | BabyTime/Models/ActivityManager.swift:350 | `compactMap(\.durationMinutes)`: a minute count occurs exactly when some sleep has that duration, every one is non-negative, and there are no more than the sleeps |
| Manager.SleepDurationsAppend | BabyTime/Models/ActivityManager.swift:350 | the durations of two runs of sleeps are those of the first followed by those of the second |
| Manager.SleepMinutesAdd | BabyTime/Models/ActivityManager.swift:349-351 | the minutes slept are a sum: nothing for no sleeps, a finished sleep's duration or 0 for one in progress, and the total of two runs is the sum of their totals |
| Manager.OpenNursingIndex | BabyTime/Models/ActivityManager.swift:142 | the first feed that is nursing and in progress, or none |
| Manager.OpenSleepIndex | BabyTime/Models/ActivityManager.swift:145 | the first sleep in progress, or none |
| Manager.RecoveredNursing | BabyTime/Models/ActivityManager.swift:134-142 | the recovered nursing session is the first in-progress nursing feed of the baby's store; it is none exactly without a baby or without such a feed |
| Manager.RecoveredSleep | BabyTime/Models/ActivityManager.swift:134-145 | the recovered sleep session is the first in-progress sleep of the baby's store; it is none exactly without a baby or without such a sleep |
| Manager.LastFinishedIndex | BabyTime/Models/ActivityManager.swift:364 | `last { endTime != nil }`: the last finished sleep, every later one in progress; none when all are in progress |
| Manager.ActivityManager.constructor | BabyTime/Models/ActivityManager.swift:38-41 | a new manager has no baby, no session, empty lists and no snapshot |
| Manager.ActivityManager.SessionFlags | BabyTime/Models/ActivityManager.swift:266-292 | `IsSleepActive`/`IsNursingActive` hold exactly when `HasSleepSession`/`HasNursingSession` hold and the session has no end; a session is stopped exactly when its end is present |
| Manager.ActivityManager.SleepStartTime | BabyTime/Models/ActivityManager.swift:294-297 | the sleep start is present exactly when a session exists |
| Manager.ActivityManager.SleepEndTime | BabyTime/Models/ActivityManager.swift:299-302 | the sleep end is missing exactly without a session or while it runs |
| Manager.ActivityManager.NursingStartTime | BabyTime/Models/ActivityManager.swift:274-277 | the nursing start is present exactly when a session exists |
| Manager.ActivityManager.NursingEndTime | BabyTime/Models/ActivityManager.swift:279-282 | the nursing end is missing exactly without a session or while it runs |
| Manager.ActivityManager.SleepTimerString | BabyTime/Models/ActivityManager.swift:315-316 | "00:00" without a sleep session |
| Manager.ActivityManager.SleepTimerReadsBack | BabyTime/Models/ActivityManager.swift:315-322 | with a session, the text reads back as the non-negative seconds from its start to its end, else to `at` |
| Manager.ActivityManager.StoppedSleepTimerStandsStill | BabyTime/Models/ActivityManager.swift:317 | a stopped sleep session shows the same text at every instant |
| Manager.ActivityManager.NursingTimerString | BabyTime/Models/ActivityManager.swift:306-307 | "00:00" without a nursing session |
| Manager.ActivityManager.NursingTimerReadsBack | BabyTime/Models/ActivityManager.swift:306-313 | with a session, the text reads back as the non-negative seconds from its start to its end, else to `at` |
| Manager.ActivityManager.StoppedNursingTimerStandsStill | BabyTime/Models/ActivityManager.swift:308 | a stopped nursing session shows the same text at every instant |
| Manager.ActivityManager.NapCount | BabyTime/Models/ActivityManager.swift:341 | the nap count is the number of today's sleeps that have an end; so at most today's sleeps, and all of them when none is in progress |
| Manager.ActivityManager.FeedCountAfterLoad | BabyTime/Models/ActivityManager.swift:340 | with today's lists loaded, `FeedCount` is the number of stored feeds starting on the day, and both counts are 0 without a baby |
| Manager.ActivityManager.RemainingFeeds | BabyTime/Models/ActivityManager.swift:377-381 | at least one more feed; together with today's count it reaches 7, exactly 7 while fewer than 7 are logged |
| Manager.ActivityManager.TotalSleepMinutes | BabyTime/Models/ActivityManager.swift:349-351 | the total of the finished sleeps' minutes is never negative |
| Manager.ActivityManager.LongestSleepMinutes | BabyTime/Models/ActivityManager.swift:353-355 | 0 when every sleep of today is in progress; otherwise the duration of some finished sleep, at least every finished sleep's duration; between 0 and the total |
| Manager.ActivityManager.LastFeed | BabyTime/Models/ActivityManager.swift:359-361 | the last entry of today's feeds, none exactly when there are none |
| Manager.ActivityManager.LastSleep | BabyTime/Models/ActivityManager.swift:363-365 | a finished sleep of today after which every sleep is in progress (the last finished one), none exactly when all are in progress |
| Manager.ActivityManager.MinutesSinceLastFeed | BabyTime/Models/ActivityManager.swift:367-370 | missing exactly when no feed is logged today |
| Manager.ActivityManager.MinutesSinceLastWake | BabyTime/Models/ActivityManager.swift:372-375 | missing exactly when no sleep of today has ended |
| Manager.ActivityManager.LatestOfToday | BabyTime/Models/ActivityManager.swift:359-375 | on the loaded lists, the last feed has the latest start, its minutes-since is the smallest of any feed's, and the last sleep started no earlier than any finished sleep |
| Manager.ActivityManager.SummaryTextsReadBack | BabyTime/Models/ActivityManager.swift:403-442 | the six summary texts (`TimeSinceLastFeedDuration`, `WakeWindowFormatted`, `LastSleepDurationFormatted`, `TotalSleepFormatted`, `LongestSleepFormatted`, `LastFeedOzFormatted`) fall back to "--" without data (the longest sleep exactly when it is 0) and otherwise read back as the minute counts, the duration or the nursing minutes they show |
| Manager.ActivityManager.NapCountMatchesSnapshot | BabyTime/Models/ActivityManager.swift:341 | after a refresh, the snapshot's completed naps equal the manager's nap count |
| Manager.ActivityManager.Refresh | BabyTime/Models/ActivityManager.swift:95-98 | afterwards today's lists are the store's events of the day and the snapshot is the engine's answer for them |
| Manager.ActivityManager.LoadTodayEvents | BabyTime/Models/ActivityManager.swift:100-118 | today's lists become the store's events of the day ordered by start, or empty without a baby |
| Manager.ActivityManager.ComputeSnapshot | BabyTime/Models/ActivityManager.swift:120-131 | the snapshot becomes the engine's answer for today's lists, or none without a baby |
| Manager.ActivityManager.RecoverActiveEvents | BabyTime/Models/ActivityManager.swift:134-146 | the sessions become the store's first in-progress nursing feed and first in-progress sleep |
| Manager.ActivityManager.AdoptBaby | BabyTime/Models/ActivityManager.swift:45-47 | the baby is selected and its open sessions recovered |
| Manager.ActivityManager.SelectBaby | BabyTime/Models/ActivityManager.swift:45-49 | the baby is selected, its sessions recovered, and today's lists and snapshot reloaded |
| Manager.ActivityManager.StartSleep | BabyTime/Models/ActivityManager.swift:208-215 | with a baby: a new sleep starting at the given time (default now) with no end is added to the store and becomes the running session; nothing else changes; without a baby nothing happens |
| Manager.ActivityManager.ResumeSleep | BabyTime/Models/ActivityManager.swift:217-222 | the session's end is cleared, so it runs again with its start kept; the nursing session is untouched; without a session nothing happens |
| Manager.ActivityManager.StopSleep | BabyTime/Models/ActivityManager.swift:224-229 | a running session gets its end set to now and is kept; the nursing session is untouched; a stopped or missing session is left alone |
| Manager.ActivityManager.ResetSleep | BabyTime/Models/ActivityManager.swift:231-238 | the session's sleep is deleted from the store and the session cleared; start and end read back as none |
| Manager.ActivityManager.SaveSleep | BabyTime/Models/ActivityManager.swift:240-247 | a running sleep is ended at now and kept in the store; the session is always cleared |
| Manager.ActivityManager.SaveSleepManual | BabyTime/Models/ActivityManager.swift:249-256 | with a baby: a finished sleep with the given start and end is appended and the session cleared |
| Manager.ActivityManager.SetSleepStartTime | BabyTime/Models/ActivityManager.swift:294-297 | a given start moves the session's start, keeping its end; a missing value changes nothing |
| Manager.ActivityManager.SetSleepEndTime | BabyTime/Models/ActivityManager.swift:299-302 | the session's end is set or cleared, keeping its start |
| Manager.ActivityManager.StartNursing | BabyTime/Models/ActivityManager.swift:150-162 | with a baby: a new nursing feed on the given side, starting now, with the default breast-milk source and amount 0, is added and becomes the running session |
| Manager.ActivityManager.StopNursing | BabyTime/Models/ActivityManager.swift:164-169 | a running nursing feed gets its end set to now, keeping its start, kind, source, amount and side; the sleep session is untouched; otherwise nothing happens |
| Manager.ActivityManager.ResetNursing | BabyTime/Models/ActivityManager.swift:171-178 | the session's feed is deleted from the store and the session cleared |
| Manager.ActivityManager.SaveNursing | BabyTime/Models/ActivityManager.swift:180-187 | a running nursing feed is ended at now and kept; its start, kind, source, amount and side are kept; the session is always cleared |
| Manager.ActivityManager.SetNursingStartTime | BabyTime/Models/ActivityManager.swift:274-277 | a given start moves the session's start and keeps its end, kind, source, amount and side; a missing value changes nothing |
| Manager.ActivityManager.SetNursingEndTime | BabyTime/Models/ActivityManager.swift:279-282 | the session's end is set or cleared, keeping its start, kind, source, amount and side |
| Manager.ActivityManager.SaveBottle | BabyTime/Models/ActivityManager.swift:191-204 | with a baby: a bottle feed that starts and ends at the given time (default now) is appended with its amount, its source and the default side (both); the sessions are untouched |
| Prototype.AgeDescriptionRoundTrip | BabyTime/Models/Activity.swift:19-26 | "{m} month(s), {d} day(s)" (months only when positive) reads back as the age in days; below −29 days only the remainder survives, as in the app |
| Prototype.AgeDescriptionExamples | BabyTime/Models/Activity.swift:19-26 | 104 days is "3 months, 14 days", 31 is "1 month, 1 day", 1 is "1 day", 0 is "0 days" |
| Prototype.AgeBracket.DailyIntakeOz | BabyTime/BabyTime/Models/Activity.swift:185-194 | each bracket's intake target is a valid range within 14–36 oz |
| Prototype.AgeBracket.DailySleepHours | BabyTime/BabyTime/Models/Activity.swift:196-205 | each bracket's sleep target is a valid range within 12–17 hours |
| Prototype.AgeBracket.NursingOzPerMinute | BabyTime/BabyTime/Models/Activity.swift:208-214 | the nursing rate is between 0.1 and 0.2 oz per minute |
| Prototype.BracketForAge | BabyTime/BabyTime/Models/Activity.swift:174-183 | a bracket with a day range contains the age; the open-ended last bracket is chosen exactly for negative ages and ages of 270 days or more |
| Prototype.BracketForAgeExactly | BabyTime/BabyTime/Models/Activity.swift:174-183 | a ranged bracket is chosen exactly when its range contains the age |
| Prototype.BracketForAgeMonotone | BabyTime/BabyTime/Models/Activity.swift:174-183 | for non-negative ages an older baby never gets an earlier bracket |
| Prototype.OlderBracketTrends | BabyTime/BabyTime/Models/Activity.swift:196-214 | later brackets never have larger sleep targets and never a smaller nursing rate |
| Prototype.LowercasedSides | BabyTime/Models/Activity.swift:51 | `side.rawValue.lowercased()` gives "left", "right" and "both" for the three sides |
| Prototype.DisplayDescriptionReadsBack | BabyTime/Models/Activity.swift:46-53 | `DisplayDescription` begins with "{source} • " for a bottle and "Nursing {side in lower case} • " for nursing, and the rest reads back as the whole ounces or the minutes |
| Prototype.FeedType.ActualOz | BabyTime/BabyTime/Models/Activity.swift:69-74 | the bottle's amount; none exactly for nursing |
| Prototype.FeedType.IsEstimate | BabyTime/BabyTime/Models/Activity.swift:87-92 | a feed is an estimate exactly when it has no actual amount, i.e. is nursing |
| Prototype.FeedType.EstimatedOz | BabyTime/BabyTime/Models/Activity.swift:77-84 | a bottle's actual amount; a nursing estimate lies between 0.1 and 0.2 oz per minute |
| Prototype.NursingEstimateGrowsWithAge | BabyTime/BabyTime/Models/Activity.swift:77-84 | the same nursing session is estimated at no less for an older baby (the bracket follows the age, and the rate never drops) |
| Prototype.NursingEstimateAdds | BabyTime/BabyTime/Models/Activity.swift:77-84 | a nursing estimate is additive in the minutes, for every bracket |
| Prototype.ShortDescriptionReadsBack | BabyTime/Models/Activity.swift:55-62 | "{Int(oz)} oz" and "{minutes} min" read back as their numbers |
| Prototype.BottleDisplayExample | BabyTime/Models/Activity.swift:46-53 | 4.5 oz of breast milk shows "Breast milk • 4 oz" |
| Prototype.NursingDisplayExample | BabyTime/Models/Activity.swift:46-53 | 12 minutes on the left shows "Nursing left • 12 min" |
| Prototype.SleepActivity.DurationMinutes | BabyTime/Models/Activity.swift:78-80 | whole minutes from start to end, truncated, unclamped: never positive for an end before the start |
| Prototype.IconTitleTellKinds | BabyTime/Models/Activity.swift:112-124 | the icon and the title are non-empty, and each is shared by two entries exactly when both are feeds or both are sleeps |
| Prototype.DetailReadsBack | BabyTime/Models/Activity.swift:126-131 | a feed's detail reads back as its ounces or minutes, a sleep's as its duration |
| Prototype.AllActivitiesNewestFirst | BabyTime/Models/Activity.swift:150-154 | the timeline is a permutation of the feeds followed by the sleeps, ordered by timestamp, newest first |
| Prototype.AllActivitiesContents | BabyTime/Models/Activity.swift:150-154 | an item is on the timeline exactly when it wraps one of the day's feeds or sleeps |
| Scenarios.FirstMaxIndex | BabyTime/Models/MockData.swift:99 | `max(by:)`: the position of a largest key, the first among equals |
| Scenarios.EstimatedOzWithoutNursing | BabyTime/BabyTime/Models/MockData.swift:189-193 | with no nursing feed, the estimated intake is the bottle total |
| Scenarios.Scenario.LastFeed | BabyTime/Models/MockData.swift:98-100 | a feed with the latest start, the first such; none exactly without feeds |
| Scenarios.Scenario.LastSleep | BabyTime/Models/MockData.swift:102-104 | a sleep with the latest end, the first such; none exactly without sleeps |
| Scenarios.Scenario.MinutesSinceLastFeed | BabyTime/Models/MockData.swift:106-109 | the whole minutes since the latest feed start: attained by some feed, and no larger than any feed's |
| Scenarios.Scenario.MinutesSinceLastWake | BabyTime/Models/MockData.swift:111-114 | the whole minutes since the latest sleep end: attained by some sleep, and no larger than any sleep's |
| Scenarios.Scenario.TotalSleepMinutes | BabyTime/Models/MockData.swift:125-127 | with well-ordered sleeps, the total is non-negative and at least each sleep's duration |
| Scenarios.TotalSleepMinutesAdds | BabyTime/Models/MockData.swift:125-127 | the total is the sum of the durations: 0 for no sleeps, a sleep's duration for one, and the totals of two runs of sleeps add up |
| Scenarios.Scenario.LongestSleepMinutes | BabyTime/Models/MockData.swift:129-131 | 0 without sleeps, else a sleep's duration that no other sleep exceeds |
| Scenarios.Scenario.IntakeProgress | BabyTime/BabyTime/Models/MockData.swift:201-204 | progress reaches 1 exactly when the intake reaches the midpoint of the age's daily target |
| Scenarios.Scenario.SleepProgress | BabyTime/BabyTime/Models/MockData.swift:235-239 | progress reaches 1 exactly when sleep reaches the midpoint of the age's daily hours |
| Scenarios.ReadinessFromEvents | BabyTime/BabyTime/Models/MockData.swift:145-179 | `IsWakeWindowExceeded` holds exactly when there are sleeps and every one ended more than the upper bound ago; `IsSleepReady` and `IsFeedReady` likewise against the lower bounds |
| Scenarios.ExceededMeansSleepReady | BabyTime/BabyTime/Models/MockData.swift:170-173 | an exceeded wake window implies the baby is sleep-ready |
| Scenarios.LongestAtMostTotal | BabyTime/Models/MockData.swift:125-131 | the longest sleep is between 0 and the total |
| Scenarios.IntakeWithoutNursing | BabyTime/BabyTime/Models/MockData.swift:189-198 | without nursing estimates, total intake equals the bottle total |
| Scenarios.CountsMatchTimeline | BabyTime/BabyTime/Models/MockData.swift:184-186 | feed count plus nap count is the number of timeline items |
| Scenarios.AwakeTextsReadBack | BabyTime/BabyTime/Models/MockData.swift:242-250 | "--" and "Awake" without sleeps; otherwise both awake texts read back as the minutes since waking |
| Scenarios.FeedAgoTextReadsBack | BabyTime/BabyTime/Models/MockData.swift:207-215 | "No feeds" without feeds; otherwise "{duration} ago" whose duration reads back as the minutes since the last feed |
| Scenarios.TotalSleepTextReadsBack | BabyTime/BabyTime/Models/MockData.swift:225-232 | the total-sleep text reads back as the total minutes |
| Scenarios.StatusTextsReadBack | BabyTime/BabyTime/Models/MockData.swift:156-167 | "--" without data; otherwise the last sleep's duration and the last feed's amount read back |
| Scenarios.PreviewReadiness | BabyTime/Models/MockData.swift:13-91 | in the preview day at 15:15: 85 minutes since the last feed, 120 since waking, wake window exceeded, sleep-ready, not feed-ready |
| Scenarios.PreviewTotals | BabyTime/Models/MockData.swift:13-91 | the preview day sleeps 92 minutes in all, 42 at most, and took 17 oz |
| Scenarios.PreviewTexts | BabyTime/BabyTime/Models/MockData.swift:135-232 | the preview shows "2h 0m" awake, "1h 25m ago" since feeding, "1h 32m" slept |

## Left out

- Baby management (`addBaby`, `deleteBaby`, `loadBabies`): creating, deleting and fetching babies is persistence work. The model's manager starts without a baby, and `SelectBaby` adopts one.
- Persistence: inserting into and deleting from the store are the edits of the baby's two event lists; `save()` and its ignored failures are not modelled.
- Store order: the baby's `feeds` and `sleeps` relationships promise no order. The model keeps them as lists with new events at the end. Which of several open events a session recovers (`first` over the relationship) is therefore the model's choice, the first in that list. Several can be open at once, since starting a sleep does not end a running one.
- Calendar arithmetic: the current instant, the start of the day, the age in days and today's bedtime reach the model as a `Moment` parameter. `Baby.ageInDays`, `bedtimeToday` and the prototype's birth-date arithmetic are not modelled.
- DateFormatter texts: `dateDisplayString`, `lastSleepTimeFormatted`, `nextFeedTimeFormatted`, `shortTime` and `lastFeedTimeFormatted` depend on the locale's clock format.
- Floating-point ounces: `totalIntakeOz`, `remainingOz`, `offerAmountOz`, `totalOzFormatted` and `averageOzFormatted` in the manager, `AgeTable.nursingOzPerMinute`, and `FeedEvent.estimatedOz` and `displayDescription` are not modelled. The prototype's amounts are exact reals, with no binary rounding.
- Events.FeedEvent.ShortDescription: the bottle branch is stated on an exact real amount; Double rounding before `Int(...)` is not modelled.
- `ageDisplayString` and `babyName`: the manager's baby holds only its two event lists.
- `FeedKind`, `BottleSource` and `NursingSide` `displayName`: display labels only, read by no modelled operation.
- Ties in sorting: events with equal starts (or equal timestamps on the timeline) come out in one fixed order of the model's insertion sort. Swift's `sorted` does not promise an order for equal keys, so the contracts state only the key order and which elements appear how often: a permutation for the sort itself and the timeline, and for today's lists the multiset of the store's events of the day (each as often as the store holds it).
- Identifiers: UUIDs are natural numbers in the prototype.
- The per-baby custom feed interval: the engine always uses the bracket's feed interval, as `DayEngine.swift` does.
- Views, sheets and timers that redraw the screen.
- Manager.ActivityManager.MinutesSinceLastFeed: the contract only says when the value is missing. Its relation to every feed's start is stated in `LatestOfToday`, which needs today's list loaded.
- Manager.ActivityManager.MinutesSinceLastWake: the contract only says when the value is missing. The wake instant it measures from is the last finished sleep's end.
- Manager.ActivityManager.TotalSleepMinutes: its own contract states only non-negativity; the value is `Sum(SleepDurations(todaySleeps))`, and `SleepMinutesAdd` states that this sum adds up sleep by sleep (a finished sleep's duration, 0 for one in progress).
- Scenarios.Scenario.TotalSleepMinutes: its own contract states the bounds; that the total is the sum of the durations is stated by `TotalSleepMinutesAdds`.
