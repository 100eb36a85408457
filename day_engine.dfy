/** The day engine: from the baby's age, today's feeds and sleeps, an optional
    manual wake time and the current instant, derive where the day stands.
    It only reads each event's start, end and kind, so it takes the events
    as value records of those fields and is a plain function. The
    classification ladders take only the instants they look at. */
module DayEngine {
  import opened Basics
  import opened AgeTables
  import opened Events
  import opened DayStates

  /** The last moment a nap may run to: bedtime minus the upper bound of the
      last (bedtime) wake window. */
  function NapCutoffTime(bedtime: int, lastWakeWindow: ClosedRange): (cutoff: int)
    ensures cutoff + 60 * lastWakeWindow.hi == bedtime
  {
    bedtime - lastWakeWindow.hi * 60
  }

  /** For every age the nap cutoff falls between one hour and four and a half
      hours before bedtime. */
  lemma {:induction false} NapCutoffBeforeBedtime(days: int, bedtime: int)
    ensures |ForAge(days).wakeWindows| > 0
    ensures 60 * 60 <= bedtime - NapCutoffTime(bedtime, ForAge(days).LastWakeWindow()) <= 270 * 60
  {
    var t, ts := ForAge(days), AllTables();
    assert t == ts[0] || t == ts[1] || t == ts[2] || t == ts[3] || t == ts[4];
  }

  /** The instant wake time is measured from: the end of the latest finished
      sleep, else the manual wake time, else the start of the earliest event
      of the day; none when there is none of the three. */
  function WakeReference(lastSleepEnd: Option<int>, wakeTime: Option<int>, firstEventTime: Option<int>)
    : (r: Option<int>)
    ensures r.None? <==> lastSleepEnd.None? && wakeTime.None? && firstEventTime.None?
    ensures r.Some? ==> r == lastSleepEnd || r == wakeTime || r == firstEventTime
    ensures lastSleepEnd.Some? ==> r == lastSleepEnd
    ensures lastSleepEnd.None? && wakeTime.Some? ==> r == wakeTime
  {
    if lastSleepEnd.Some? then lastSleepEnd
    else if wakeTime.Some? then wakeTime
    else firstEventTime
  }

  /** The day track. Nothing logged and no wake time: not started. A sleep in
      progress always yields one of the three sleeping states, by how far
      away the nap cutoff is. Otherwise, in this order: within half an hour
      of bedtime or past it, past the nap cutoff, then where the time awake
      falls against the current wake window (both bounds inclusive).

      Stated in seconds: "minutes until X <= 0" is "less than one whole
      minute before X", and "<= 30" is "less than 31 whole minutes before
      X", because minute counts are truncated toward zero. */
  function DeriveDayState(activeSleepStart: Option<int>, lastSleepEnd: Option<int>,
                          wakeTime: Option<int>, firstEventTime: Option<int>, now: int,
                          currentWW: ClosedRange, napCutoff: int, bedtime: int): (s: DayState)
    ensures s.NotStarted? <==> WakeReference(lastSleepEnd, wakeTime, firstEventTime).None?
    ensures s.SleepingMustEnd? <==>
      WakeReference(lastSleepEnd, wakeTime, firstEventTime).Some? && activeSleepStart.Some?
      && napCutoff - now < 60
    ensures s.SleepingApproachingCutoff? <==>
      WakeReference(lastSleepEnd, wakeTime, firstEventTime).Some? && activeSleepStart.Some?
      && 60 <= napCutoff - now < 31 * 60
    ensures s.SleepingNoPressure? <==>
      WakeReference(lastSleepEnd, wakeTime, firstEventTime).Some? && activeSleepStart.Some?
      && 31 * 60 <= napCutoff - now
    ensures s.BedtimeWindow? <==>
      WakeReference(lastSleepEnd, wakeTime, firstEventTime).Some? && activeSleepStart.None?
      && bedtime - now < 31 * 60
    ensures s.NapWindowClosed? <==>
      WakeReference(lastSleepEnd, wakeTime, firstEventTime).Some? && activeSleepStart.None?
      && 31 * 60 <= bedtime - now && napCutoff <= now
    ensures s.AwakeEarly? <==>
      WakeReference(lastSleepEnd, wakeTime, firstEventTime).Some? && activeSleepStart.None?
      && 31 * 60 <= bedtime - now && now < napCutoff
      && Minutes(now - WakeReference(lastSleepEnd, wakeTime, firstEventTime).value) < currentWW.lo
    ensures s.AwakeApproaching? <==>
      WakeReference(lastSleepEnd, wakeTime, firstEventTime).Some? && activeSleepStart.None?
      && 31 * 60 <= bedtime - now && now < napCutoff
      && currentWW.Contains(Minutes(now - WakeReference(lastSleepEnd, wakeTime, firstEventTime).value))
    ensures s.AwakeBeyond? <==>
      WakeReference(lastSleepEnd, wakeTime, firstEventTime).Some? && activeSleepStart.None?
      && 31 * 60 <= bedtime - now && now < napCutoff
      && currentWW.lo <= Minutes(now - WakeReference(lastSleepEnd, wakeTime, firstEventTime).value)
      && currentWW.hi < Minutes(now - WakeReference(lastSleepEnd, wakeTime, firstEventTime).value)
    // what the states carry
    ensures s.SleepingNoPressure? || s.SleepingApproachingCutoff? || s.SleepingMustEnd? ==>
      s.sleepMinutes == Minutes(now - activeSleepStart.value)
    ensures s.SleepingMustEnd? ==> s.minutesPastCutoff == ClampedMinutes(napCutoff, now)
    ensures s.SleepingNoPressure? || s.SleepingApproachingCutoff? ==>
      s.minutesUntilCutoff == Minutes(napCutoff - now)
    ensures s.SleepingApproachingCutoff? ==> 1 <= s.minutesUntilCutoff <= 30
    ensures s.SleepingNoPressure? ==> 30 < s.minutesUntilCutoff
    ensures s.BedtimeWindow? ==> s.minutesToBedtime == ClampedMinutes(now, bedtime) <= 30
    ensures s.NapWindowClosed? ==> s.minutesToBedtime == Minutes(bedtime - now) > 30
    ensures s.AwakeEarly? || s.AwakeApproaching? || s.AwakeBeyond? || s.NapWindowClosed? ==>
      s.wakeMinutes == Minutes(now - WakeReference(lastSleepEnd, wakeTime, firstEventTime).value)
    ensures s.AwakeEarly? || s.AwakeApproaching? || s.AwakeBeyond? ==> s.windowRange == currentWW
  {
    match WakeReference(lastSleepEnd, wakeTime, firstEventTime)
    case None => NotStarted
    case Some(wakeReference) =>
      MinutesAtMost(bedtime - now, 0);
      MinutesAtMost(bedtime - now, 30);
      var minutesToBedtime := Minutes(bedtime - now);
      match activeSleepStart
      case Some(start) =>
        MinutesAtMost(napCutoff - now, 0);
        MinutesAtMost(napCutoff - now, 30);
        MinutesNegate(now - napCutoff);
        var sleepMinutes := Minutes(now - start);
        var minutesUntilCutoff := Minutes(napCutoff - now);
        if minutesUntilCutoff <= 0 then
          SleepingMustEnd(sleepMinutes, -minutesUntilCutoff)
        else if minutesUntilCutoff <= 30 then
          SleepingApproachingCutoff(sleepMinutes, minutesUntilCutoff)
        else
          SleepingNoPressure(sleepMinutes, minutesUntilCutoff)
      case None =>
        var wakeMinutes := Minutes(now - wakeReference);
        if minutesToBedtime <= 30 && minutesToBedtime > 0 then BedtimeWindow(minutesToBedtime)
        else if minutesToBedtime <= 0 then BedtimeWindow(0)
        else if now >= napCutoff then NapWindowClosed(wakeMinutes, minutesToBedtime)
        else if wakeMinutes < currentWW.lo then AwakeEarly(wakeMinutes, currentWW)
        else if wakeMinutes <= currentWW.hi then AwakeApproaching(wakeMinutes, currentWW)
        else AwakeBeyond(wakeMinutes, currentWW)
  }

  /** The feed track's "approaching" threshold: 80% of the interval's lower
      bound, truncated toward zero. For a positive bound it lies strictly
      below the bound, so "approaching" is a non-empty stretch before
      "ready". */
  function ApproachingThreshold(lower: int): (t: int)
    ensures 0 <= lower ==> 0 <= 10 * t <= 8 * lower < 10 * t + 10
    ensures 0 < lower ==> t < lower
  {
    TruncDiv(8 * lower, 10)
  }

  /** The feed track. A nursing feed in progress: feeding now. Otherwise no
      counted feed: no feeds yet. Otherwise, by the whole minutes since the
      latest counted feed started: at or past the interval's lower bound,
      ready; at or past the approaching threshold, approaching; else
      recently fed. */
  function DeriveFeedState(activeFeedStart: Option<int>, lastFeedStart: Option<int>, now: int,
                           feedInterval: ClosedRange): (f: FeedState)
    ensures f.FeedingNow? <==> activeFeedStart.Some?
    ensures f.FeedingNow? ==> f.startedMinutesAgo == Minutes(now - activeFeedStart.value)
    ensures f.NoFeedsYet? <==> activeFeedStart.None? && lastFeedStart.None?
    ensures f.Ready? <==>
      activeFeedStart.None? && lastFeedStart.Some?
      && feedInterval.lo <= Minutes(now - lastFeedStart.value)
    ensures f.Approaching? <==>
      activeFeedStart.None? && lastFeedStart.Some?
      && ApproachingThreshold(feedInterval.lo) <= Minutes(now - lastFeedStart.value) < feedInterval.lo
    ensures f.RecentlyFed? <==>
      activeFeedStart.None? && lastFeedStart.Some?
      && Minutes(now - lastFeedStart.value) < feedInterval.lo
      && Minutes(now - lastFeedStart.value) < ApproachingThreshold(feedInterval.lo)
    ensures f.Ready? || f.Approaching? || f.RecentlyFed? ==>
      f.minutesAgo == Minutes(now - lastFeedStart.value)
    ensures f.Ready? || f.Approaching? ==> f.intervalRange == feedInterval
  {
    match activeFeedStart
    case Some(start) => FeedingNow(Minutes(now - start))
    case None =>
      match lastFeedStart
      case None => NoFeedsYet
      case Some(last) =>
        var minutesAgo := Minutes(now - last);
        var approachingThreshold := ApproachingThreshold(feedInterval.lo);
        if minutesAgo >= feedInterval.lo then Ready(minutesAgo, feedInterval)
        else if minutesAgo >= approachingThreshold then Approaching(minutesAgo, feedInterval)
        else RecentlyFed(minutesAgo)
  }

  /** With a lower bound of at least two minutes (every bracket's is far
      above), "ready" is reached exactly when that many whole minutes have
      passed since the last feed started, and "approaching" exactly when the
      threshold's minutes have but the bound's have not. */
  lemma {:induction false} FeedThresholdsInSeconds(lastFeedStart: int, now: int, feedInterval: ClosedRange)
    requires feedInterval.lo >= 2
    ensures DeriveFeedState(None, Some(lastFeedStart), now, feedInterval).Ready?
            <==> now - lastFeedStart >= 60 * feedInterval.lo
    ensures DeriveFeedState(None, Some(lastFeedStart), now, feedInterval).Approaching?
            <==> 60 * ApproachingThreshold(feedInterval.lo) <= now - lastFeedStart < 60 * feedInterval.lo
  {
    var t := ApproachingThreshold(feedInterval.lo);
    assert t >= 1;
    MinutesAtMost(now - lastFeedStart, feedInterval.lo - 1);
    MinutesAtMost(now - lastFeedStart, t - 1);
  }

  // Picking instants out of the event lists.

  /** `sleeps.filter { $0.endTime != nil }`: the finished sleeps, in order. */
  function CompletedSleeps(sleeps: seq<SleepRecord>): (r: seq<SleepRecord>)
    ensures |r| <= |sleeps|
    ensures forall s :: s in r <==> s in sleeps && !s.IsActive()
    ensures (forall i :: 0 <= i < |sleeps| ==> !sleeps[i].IsActive()) ==> r == sleeps
  {
    if sleeps == [] then []
    else (if sleeps[0].IsActive() then [] else [sleeps[0]]) + CompletedSleeps(sleeps[1..])
  }

  /** The filter keeps every finished sleep as often as it is logged and
      drops every open one. */
  lemma {:induction false} CompletedSleepsKeeps(sleeps: seq<SleepRecord>)
    ensures forall s :: multiset(CompletedSleeps(sleeps))[s] == if s.IsActive() then 0 else multiset(sleeps)[s]
  {
    if sleeps != [] {
      CompletedSleepsKeeps(sleeps[1..]);
      assert sleeps == [sleeps[0]] + sleeps[1..];
    }
  }

  lemma {:induction false} CompletedSleepsAppend(sleeps: seq<SleepRecord>, s: SleepRecord)
    ensures CompletedSleeps(sleeps + [s]) == CompletedSleeps(sleeps) + (if s.IsActive() then [] else [s])
  {
    if sleeps == [] {
      assert [s][1..] == [];
    } else {
      assert (sleeps + [s])[1..] == sleeps[1..] + [s];
      CompletedSleepsAppend(sleeps[1..], s);
    }
  }

  /** Extending a prefix by one position adds that position to the finished
      ones exactly when its sleep has an end. */
  lemma FinishedPositionsStep(sleeps: seq<SleepRecord>, k: nat)
    requires k < |sleeps|
    ensures |set i | 0 <= i < k + 1 && !sleeps[i].IsActive()|
         == |set i | 0 <= i < k && !sleeps[i].IsActive()| + (if sleeps[k].IsActive() then 0 else 1)
  {
    var before := set i | 0 <= i < k && !sleeps[i].IsActive();
    var after := set i | 0 <= i < k + 1 && !sleeps[i].IsActive();
    if sleeps[k].IsActive() {
      assert after == before;
    } else {
      assert after == before + {k};
    }
  }

  /** The number of finished sleeps among the first `k` is the number of
      those positions holding a sleep with an end. */
  lemma {:induction false} CompletedSleepsCount(sleeps: seq<SleepRecord>, k: nat)
    requires k <= |sleeps|
    ensures |CompletedSleeps(sleeps[..k])| == |set i | 0 <= i < k && !sleeps[i].IsActive()|
    decreases k
  {
    if k > 0 {
      assert sleeps[..k] == sleeps[..k - 1] + [sleeps[k - 1]];
      CompletedSleepsAppend(sleeps[..k - 1], sleeps[k - 1]);
      CompletedSleepsCount(sleeps, k - 1);
      FinishedPositionsStep(sleeps, k - 1);
    }
  }

  /** Index of the first sleep at or after `from` still in progress
      (`sleeps.first { $0.endTime == nil }`). */
  function FirstActiveSleep(sleeps: seq<SleepRecord>, from: nat): (r: Option<nat>)
    requires from <= |sleeps|
    ensures r.Some? ==> from <= r.value < |sleeps| && sleeps[r.value].IsActive()
    ensures r.Some? ==> forall j :: from <= j < r.value ==> !sleeps[j].IsActive()
    ensures r.None? ==> forall j :: from <= j < |sleeps| ==> !sleeps[j].IsActive()
    decreases |sleeps| - from
  {
    if from == |sleeps| then None
    else if sleeps[from].IsActive() then Some(from)
    else FirstActiveSleep(sleeps, from + 1)
  }

  /** `sleeps.compactMap(\.endTime).max()`: the latest end among the
      sleeps, none when no sleep has ended. */
  function LatestSleepEnd(sleeps: seq<SleepRecord>): (r: Option<int>)
    ensures r.None? <==> forall i :: 0 <= i < |sleeps| ==> sleeps[i].IsActive()
    ensures r.Some? ==> exists i :: 0 <= i < |sleeps| && sleeps[i].endTime == r
    ensures r.Some? ==> forall i :: 0 <= i < |sleeps| && !sleeps[i].IsActive() ==>
      sleeps[i].endTime.value <= r.value
  {
    if sleeps == [] then None
    else
      var rest := LatestSleepEnd(sleeps[1..]);
      assert forall i :: 1 <= i < |sleeps| ==> sleeps[i] == sleeps[1..][i - 1];
      match sleeps[0].endTime
      case None => rest
      case Some(e) =>
        match rest
        case None => Some(e)
        case Some(m) => Some(Max(e, m))
  }

  /** The feeds the engine counts as given: finished ones and every bottle
      (a bottle is logged whole, with or without an end). */
  predicate Counted(f: FeedRecord)
  {
    f.endTime.Some? || f.kind == Bottle
  }

  /** A nursing feed still in progress. */
  predicate NursingInProgress(f: FeedRecord)
  {
    f.endTime.None? && f.kind == Nursing
  }

  /** Every feed is either counted or a nursing feed in progress, never both. */
  lemma CountedOrNursing(f: FeedRecord)
    ensures Counted(f) != NursingInProgress(f)
  {
  }

  /** `feeds.filter { $0.endTime != nil || $0.kind == .bottle }`: the
      counted feeds, in order. */
  function CompletedFeeds(feeds: seq<FeedRecord>): (r: seq<FeedRecord>)
    ensures |r| <= |feeds|
    ensures forall f :: f in r <==> f in feeds && Counted(f)
    ensures (forall i :: 0 <= i < |feeds| ==> Counted(feeds[i])) ==> r == feeds
    ensures (exists i :: 0 <= i < |feeds| && !Counted(feeds[i])) ==> |r| < |feeds|
  {
    if feeds == [] then []
    else
      var rest := CompletedFeeds(feeds[1..]);
      assert forall i :: 1 <= i < |feeds| ==> feeds[i] == feeds[1..][i - 1];
      (if Counted(feeds[0]) then [feeds[0]] else []) + rest
  }

  /** The filter keeps every counted feed as often as it is logged and
      drops every nursing feed in progress. */
  lemma {:induction false} CompletedFeedsKeeps(feeds: seq<FeedRecord>)
    ensures forall f :: multiset(CompletedFeeds(feeds))[f] == if Counted(f) then multiset(feeds)[f] else 0
  {
    if feeds != [] {
      CompletedFeedsKeeps(feeds[1..]);
      assert feeds == [feeds[0]] + feeds[1..];
    }
  }

  lemma {:induction false} CompletedFeedsAppend(feeds: seq<FeedRecord>, f: FeedRecord)
    ensures CompletedFeeds(feeds + [f]) == CompletedFeeds(feeds) + (if Counted(f) then [f] else [])
  {
    if feeds == [] {
      assert [f][1..] == [];
    } else {
      var xs := feeds + [f];
      assert xs[0] == feeds[0] && xs[1..] == feeds[1..] + [f];
      CompletedFeedsAppend(feeds[1..], f);
      var head := if Counted(feeds[0]) then [feeds[0]] else [];
      var tail := if Counted(f) then [f] else [];
      assert CompletedFeeds(xs) == head + CompletedFeeds(xs[1..]);
      assert CompletedFeeds(feeds) == head + CompletedFeeds(feeds[1..]);
      assert head + (CompletedFeeds(feeds[1..]) + tail) == (head + CompletedFeeds(feeds[1..])) + tail;
    }
  }

  /** Extending a prefix by one position adds that position to the counted
      ones exactly when its feed is counted. */
  lemma CountedPositionsStep(feeds: seq<FeedRecord>, k: nat)
    requires k < |feeds|
    ensures |set i | 0 <= i < k + 1 && Counted(feeds[i])|
         == |set i | 0 <= i < k && Counted(feeds[i])| + (if Counted(feeds[k]) then 1 else 0)
  {
    var before := set i | 0 <= i < k && Counted(feeds[i]);
    var after := set i | 0 <= i < k + 1 && Counted(feeds[i]);
    if Counted(feeds[k]) {
      assert after == before + {k};
    } else {
      assert after == before;
    }
  }

  /** The number of counted feeds among the first `k` is the number of those
      positions holding a counted feed. */
  lemma {:induction false} CompletedFeedsCount(feeds: seq<FeedRecord>, k: nat)
    requires k <= |feeds|
    ensures |CompletedFeeds(feeds[..k])| == |set i | 0 <= i < k && Counted(feeds[i])|
    decreases k
  {
    if k > 0 {
      assert feeds[..k] == feeds[..k - 1] + [feeds[k - 1]];
      CompletedFeedsAppend(feeds[..k - 1], feeds[k - 1]);
      CompletedFeedsCount(feeds, k - 1);
      CountedPositionsStep(feeds, k - 1);
    }
  }

  /** Index of the first nursing feed at or after `from` still in progress
      (`feeds.first { $0.endTime == nil && $0.kind == .nursing }`). */
  function FirstNursingInProgress(feeds: seq<FeedRecord>, from: nat): (r: Option<nat>)
    requires from <= |feeds|
    ensures r.Some? ==> from <= r.value < |feeds| && NursingInProgress(feeds[r.value])
    ensures r.Some? ==> forall j :: from <= j < r.value ==> !NursingInProgress(feeds[j])
    ensures r.None? ==> forall j :: from <= j < |feeds| ==> !NursingInProgress(feeds[j])
    decreases |feeds| - from
  {
    if from == |feeds| then None
    else if NursingInProgress(feeds[from]) then Some(from)
    else FirstNursingInProgress(feeds, from + 1)
  }

  /** Index of the latest counted feed among the first `k`: the counted feed
      with the greatest start, the earliest in the list among equals
      (`max(by:)` keeps the first maximum); none when no feed is counted. */
  function LatestCompletedFeed(feeds: seq<FeedRecord>, k: nat): (r: Option<nat>)
    requires k <= |feeds|
    ensures r.None? <==> forall j :: 0 <= j < k ==> !Counted(feeds[j])
    ensures r.Some? ==> r.value < k && Counted(feeds[r.value])
    ensures r.Some? ==> forall j :: 0 <= j < k && Counted(feeds[j]) ==>
      feeds[j].startTime <= feeds[r.value].startTime
    ensures r.Some? ==> forall j :: 0 <= j < r.value && Counted(feeds[j]) ==>
      feeds[j].startTime < feeds[r.value].startTime
    decreases k
  {
    if k == 0 then None
    else
      var best := LatestCompletedFeed(feeds, k - 1);
      if !Counted(feeds[k - 1]) then best
      else if best.None? || feeds[best.value].startTime < feeds[k - 1].startTime then Some(k - 1)
      else best
  }

  /** The start instants of the feeds, in order. */
  function FeedStarts(feeds: seq<FeedRecord>): (r: seq<int>)
    ensures |r| == |feeds| && forall i :: 0 <= i < |feeds| ==> r[i] == feeds[i].startTime
  {
    if feeds == [] then [] else [feeds[0].startTime] + FeedStarts(feeds[1..])
  }

  /** The start instants of the sleeps, in order. */
  function SleepStarts(sleeps: seq<SleepRecord>): (r: seq<int>)
    ensures |r| == |sleeps| && forall i :: 0 <= i < |sleeps| ==> r[i] == sleeps[i].startTime
  {
    if sleeps == [] then [] else [sleeps[0].startTime] + SleepStarts(sleeps[1..])
  }

  /** The earliest start of any event of the day; none when nothing is
      logged. */
  function EarliestEventTime(feeds: seq<FeedRecord>, sleeps: seq<SleepRecord>): (r: Option<int>)
    ensures r.None? <==> |feeds| == 0 && |sleeps| == 0
    ensures r.Some? ==>
      (exists i :: 0 <= i < |feeds| && feeds[i].startTime == r.value)
      || (exists i :: 0 <= i < |sleeps| && sleeps[i].startTime == r.value)
    ensures r.Some? ==>
      (forall i :: 0 <= i < |feeds| ==> r.value <= feeds[i].startTime)
      && (forall i :: 0 <= i < |sleeps| ==> r.value <= sleeps[i].startTime)
  {
    var fs, ss := FeedStarts(feeds), SleepStarts(sleeps);
    var all := fs + ss;
    assert forall i :: 0 <= i < |feeds| ==> all[i] == feeds[i].startTime;
    assert forall i :: 0 <= i < |sleeps| ==> all[|feeds| + i] == sleeps[i].startTime;
    MinOf(all)
  }

  /** Start of the first sleep still in progress, if any. */
  function ActiveSleepStart(sleeps: seq<SleepRecord>): (r: Option<int>)
    ensures r.None? <==> forall i :: 0 <= i < |sleeps| ==> !sleeps[i].IsActive()
  {
    match FirstActiveSleep(sleeps, 0)
    case Some(i) => Some(sleeps[i].startTime)
    case None => None
  }

  /** Start of the first nursing feed still in progress, if any. */
  function ActiveFeedStart(feeds: seq<FeedRecord>): (r: Option<int>)
    ensures r.None? <==> forall i :: 0 <= i < |feeds| ==> !NursingInProgress(feeds[i])
  {
    match FirstNursingInProgress(feeds, 0)
    case Some(i) => Some(feeds[i].startTime)
    case None => None
  }

  /** Start of the latest counted feed, if any: the greatest start among
      the counted feeds. */
  function LastCompletedFeedStart(feeds: seq<FeedRecord>): (r: Option<int>)
    ensures r.None? <==> forall i :: 0 <= i < |feeds| ==> !Counted(feeds[i])
  {
    match LatestCompletedFeed(feeds, |feeds|)
    case Some(i) => Some(feeds[i].startTime)
    case None => None
  }

  /** A present start is that of the first sleep in progress. */
  lemma ActiveSleepStartIsFirst(sleeps: seq<SleepRecord>)
    ensures var r := ActiveSleepStart(sleeps);
      r.Some? ==> exists i :: 0 <= i < |sleeps| && sleeps[i].IsActive() && sleeps[i].startTime == r.value
                           && forall j :: 0 <= j < i ==> !sleeps[j].IsActive()
  {
    if ActiveSleepStart(sleeps).Some? {
      var i := FirstActiveSleep(sleeps, 0).value;
      assert sleeps[i].IsActive() && forall j :: 0 <= j < i ==> !sleeps[j].IsActive();
    }
  }

  /** A present start is that of the first nursing feed in progress. */
  lemma ActiveFeedStartIsFirst(feeds: seq<FeedRecord>)
    ensures var r := ActiveFeedStart(feeds);
      r.Some? ==> exists i :: 0 <= i < |feeds| && NursingInProgress(feeds[i]) && feeds[i].startTime == r.value
                           && forall j :: 0 <= j < i ==> !NursingInProgress(feeds[j])
  {
    if ActiveFeedStart(feeds).Some? {
      var i := FirstNursingInProgress(feeds, 0).value;
      assert NursingInProgress(feeds[i]) && forall j :: 0 <= j < i ==> !NursingInProgress(feeds[j]);
    }
  }

  /** A present start is a counted feed's start that no counted feed's
      start exceeds. */
  lemma LastCompletedFeedStartIsLatest(feeds: seq<FeedRecord>)
    ensures LastCompletedFeedStart(feeds).Some? ==>
      exists i :: 0 <= i < |feeds| && Counted(feeds[i]) && feeds[i].startTime == LastCompletedFeedStart(feeds).value
    ensures LastCompletedFeedStart(feeds).Some? ==>
      forall j :: 0 <= j < |feeds| && Counted(feeds[j]) ==> feeds[j].startTime <= LastCompletedFeedStart(feeds).value
  {
    if LastCompletedFeedStart(feeds).Some? {
      var i := LatestCompletedFeed(feeds, |feeds|).value;
      assert Counted(feeds[i]);
    }
  }

  /** The whole derivation. The bracket comes from the age, the nap cutoff
      from bedtime and the bracket's last wake window, the current wake
      window from the number of finished sleeps; then the two tracks are
      classified independently. */
  function Snapshot(ageInDays: int, bedtime: int, feeds: seq<FeedRecord>, sleeps: seq<SleepRecord>,
                    wakeTime: Option<int>, now: int): (s: DaySnapshot)
    ensures s.ageTable == ForAge(ageInDays) && s.bedtime == bedtime && s.wakeTime == wakeTime
    ensures |s.ageTable.wakeWindows| >= 2
    ensures s.napCutoff == NapCutoffTime(bedtime, s.ageTable.LastWakeWindow())
    ensures s.completedNaps == |CompletedSleeps(sleeps)|
    ensures s.totalFeedCount == |CompletedFeeds(feeds)| + (if ActiveFeedStart(feeds).Some? then 1 else 0)
    ensures s.dayState == DeriveDayState(
      ActiveSleepStart(sleeps), LatestSleepEnd(CompletedSleeps(sleeps)), wakeTime,
      EarliestEventTime(feeds, sleeps), now,
      s.ageTable.CurrentWakeWindow(s.completedNaps), s.napCutoff, bedtime)
    ensures s.feedState == DeriveFeedState(
      ActiveFeedStart(feeds), LastCompletedFeedStart(feeds), now, s.ageTable.feedIntervalMinutes)
  {
    var ageTable := ForAge(ageInDays);
    TablesWellFormed(ageTable);
    var napCutoff := NapCutoffTime(bedtime, ageTable.LastWakeWindow());
    var completedSleeps := CompletedSleeps(sleeps);
    var completedFeeds := CompletedFeeds(feeds);
    var activeFeed := ActiveFeedStart(feeds);
    var napCount := |completedSleeps|;
    var feedCount := |completedFeeds| + (if activeFeed.Some? then 1 else 0);
    var currentWW := ageTable.CurrentWakeWindow(napCount);
    var dayState := DeriveDayState(ActiveSleepStart(sleeps), LatestSleepEnd(completedSleeps), wakeTime,
                                   EarliestEventTime(feeds, sleeps), now, currentWW, napCutoff, bedtime);
    var feedState := DeriveFeedState(activeFeed, LastCompletedFeedStart(feeds), now,
                                     ageTable.feedIntervalMinutes);
    DaySnapshot(dayState, feedState, napCount, feedCount, napCutoff, bedtime, ageTable, wakeTime)
  }

  /** The snapshot's counts by position: one nap per logged sleep with an
      end, one feed per counted feed, and one more while some nursing feed
      is in progress. */
  lemma SnapshotCounts(ageInDays: int, bedtime: int, feeds: seq<FeedRecord>, sleeps: seq<SleepRecord>,
                       wakeTime: Option<int>, now: int)
    ensures var s := Snapshot(ageInDays, bedtime, feeds, sleeps, wakeTime, now);
      && s.completedNaps == |set i | 0 <= i < |sleeps| && !sleeps[i].IsActive()|
      && s.totalFeedCount
         == |set i | 0 <= i < |feeds| && Counted(feeds[i])|
            + (if exists i :: 0 <= i < |feeds| && NursingInProgress(feeds[i]) then 1 else 0)
  {
    CompletedSleepsCount(sleeps, |sleeps|);
    CompletedFeedsCount(feeds, |feeds|);
    assert sleeps[..|sleeps|] == sleeps && feeds[..|feeds|] == feeds;
  }

  /** The day has not started exactly when nothing is logged and no wake
      time was given. */
  lemma SnapshotNotStarted(ageInDays: int, bedtime: int, feeds: seq<FeedRecord>, sleeps: seq<SleepRecord>,
                           wakeTime: Option<int>, now: int)
    ensures Snapshot(ageInDays, bedtime, feeds, sleeps, wakeTime, now).dayState.NotStarted?
        <==> |feeds| == 0 && |sleeps| == 0 && wakeTime.None?
  {
    if |sleeps| == 0 {
      assert CompletedSleeps(sleeps) == [];
    }
  }

  /** A sleep in progress decides the day track: the state is one of the
      three sleeping states exactly when some sleep has no end. */
  lemma SnapshotSleepingIffSleepInProgress(ageInDays: int, bedtime: int, feeds: seq<FeedRecord>,
                                           sleeps: seq<SleepRecord>, wakeTime: Option<int>, now: int)
    ensures var d := Snapshot(ageInDays, bedtime, feeds, sleeps, wakeTime, now).dayState;
      d.SleepingNoPressure? || d.SleepingApproachingCutoff? || d.SleepingMustEnd?
      <==> exists i :: 0 <= i < |sleeps| && sleeps[i].IsActive()
  {
  }

  /** The feed track reports no feeds exactly when no feed is logged: every
      feed is either counted or a nursing feed in progress. */
  lemma SnapshotNoFeedsYet(ageInDays: int, bedtime: int, feeds: seq<FeedRecord>, sleeps: seq<SleepRecord>,
                           wakeTime: Option<int>, now: int)
    ensures Snapshot(ageInDays, bedtime, feeds, sleeps, wakeTime, now).feedState.NoFeedsYet?
        <==> |feeds| == 0
  {
    if |feeds| > 0 {
      CountedOrNursing(feeds[0]);
    }
  }

  /** The feed count never exceeds the number of logged feeds, is positive
      once one is logged, and equals it when no nursing feed is in
      progress. */
  lemma SnapshotFeedCount(ageInDays: int, bedtime: int, feeds: seq<FeedRecord>, sleeps: seq<SleepRecord>,
                          wakeTime: Option<int>, now: int)
    ensures var n := Snapshot(ageInDays, bedtime, feeds, sleeps, wakeTime, now).totalFeedCount;
      0 <= n <= |feeds| && (|feeds| > 0 ==> n > 0)
      && ((forall i :: 0 <= i < |feeds| ==> !NursingInProgress(feeds[i])) ==> n == |feeds|)
  {
    var active := FirstNursingInProgress(feeds, 0);
    if active.Some? {
      CountedOrNursing(feeds[active.value]);
    } else {
      forall i | 0 <= i < |feeds| ensures Counted(feeds[i]) {
        CountedOrNursing(feeds[i]);
      }
    }
    if |feeds| > 0 {
      CountedOrNursing(feeds[0]);
    }
  }

  /** The feed track is independent of the day track: changing the sleeps
      or the wake time never changes it. */
  lemma FeedStateIgnoresSleeps(ageInDays: int, bedtime: int, feeds: seq<FeedRecord>,
                               sleeps1: seq<SleepRecord>, sleeps2: seq<SleepRecord>,
                               wakeTime1: Option<int>, wakeTime2: Option<int>, now: int)
    ensures Snapshot(ageInDays, bedtime, feeds, sleeps1, wakeTime1, now).feedState
         == Snapshot(ageInDays, bedtime, feeds, sleeps2, wakeTime2, now).feedState
  {
  }

  /** Once a sleep has finished, its end is the wake reference and a manual
      wake time no longer matters. */
  lemma WakeTimeIgnoredAfterSleep(ageInDays: int, bedtime: int, feeds: seq<FeedRecord>,
                                  sleeps: seq<SleepRecord>, wakeTime1: Option<int>,
                                  wakeTime2: Option<int>, now: int)
    requires exists i :: 0 <= i < |sleeps| && !sleeps[i].IsActive()
    ensures Snapshot(ageInDays, bedtime, feeds, sleeps, wakeTime1, now).dayState
         == Snapshot(ageInDays, bedtime, feeds, sleeps, wakeTime2, now).dayState
  {
    var i :| 0 <= i < |sleeps| && !sleeps[i].IsActive();
    var c := CompletedSleeps(sleeps);
    assert sleeps[i] in c;
    var j :| 0 <= j < |c| && c[j] == sleeps[i];
    assert !c[j].IsActive();
    var lastSleepEnd := LatestSleepEnd(c);
    assert lastSleepEnd.Some?;
    var t := ForAge(ageInDays);
    TablesWellFormed(t);
    DayStateIgnoresWakeTimeAfterSleep(ActiveSleepStart(sleeps), lastSleepEnd.value, wakeTime1, wakeTime2,
      EarliestEventTime(feeds, sleeps), now, t.CurrentWakeWindow(|c|),
      NapCutoffTime(bedtime, t.LastWakeWindow()), bedtime);
  }

  /** The classifier never looks at the manual wake time once a finished
      sleep gives the wake reference. */
  lemma DayStateIgnoresWakeTimeAfterSleep(activeSleepStart: Option<int>, lastSleepEnd: int,
                                          wakeTime1: Option<int>, wakeTime2: Option<int>,
                                          firstEventTime: Option<int>, now: int,
                                          currentWW: ClosedRange, napCutoff: int, bedtime: int)
    ensures DeriveDayState(activeSleepStart, Some(lastSleepEnd), wakeTime1, firstEventTime, now,
                           currentWW, napCutoff, bedtime)
         == DeriveDayState(activeSleepStart, Some(lastSleepEnd), wakeTime2, firstEventTime, now,
                           currentWW, napCutoff, bedtime)
  {
  }
}
