/** The activity manager: it holds the selected baby, today's events and the
    latest day snapshot, and keeps a reference to the sleep and the nursing
    feed being timed ("the session"). The session methods create, end,
    resume and delete events in the baby's store and then reload today's
    events and the snapshot. */
module Manager {
  import opened Basics
  import opened Text
  import opened Events
  import opened DayStates
  import opened DayEngine

  /** The part of a baby record the manager works with: its two event
      relationships, which are the persistent store of events. */
  class Baby {
    var feedEvents: seq<FeedEvent>
    var sleepEvents: seq<SleepEvent>

    constructor ()
      ensures feedEvents == [] && sleepEvents == []
    {
      feedEvents := [];
      sleepEvents := [];
    }
  }

  /** What the manager reads from the clock and the calendar when it is
      called: the current instant, the start of the current day, the baby's
      age in days and today's bedtime instant. */
  datatype Moment = Moment(now: int, startOfDay: int, ageInDays: int, bedtime: int)

  /** The snapshot the manager keeps: none without a selected baby, else the
      day engine's snapshot at `m` with no recorded wake time. */
  function SnapshotFor(hasBaby: bool, m: Moment, feeds: seq<FeedRecord>, sleeps: seq<SleepRecord>): Option<DaySnapshot>
  {
    if hasBaby then Some(Snapshot(m.ageInDays, m.bedtime, feeds, sleeps, None, m.now)) else None
  }

  /** Each feed keyed by its start. */
  function KeyedFeeds(feeds: seq<FeedEvent>): seq<(int, FeedEvent)>
    reads feeds
  {
    if feeds == [] then [] else [(feeds[0].startTime, feeds[0])] + KeyedFeeds(feeds[1..])
  }

  lemma {:induction false} KeyedFeedsAt(feeds: seq<FeedEvent>)
    ensures |KeyedFeeds(feeds)| == |feeds|
    ensures forall i :: 0 <= i < |feeds| ==> KeyedFeeds(feeds)[i] == (feeds[i].startTime, feeds[i])
  {
    if feeds != [] {
      KeyedFeedsAt(feeds[1..]);
    }
  }

  /** Each sleep keyed by its start. */
  function KeyedSleeps(sleeps: seq<SleepEvent>): seq<(int, SleepEvent)>
    reads sleeps
  {
    if sleeps == [] then [] else [(sleeps[0].startTime, sleeps[0])] + KeyedSleeps(sleeps[1..])
  }

  lemma {:induction false} KeyedSleepsAt(sleeps: seq<SleepEvent>)
    ensures |KeyedSleeps(sleeps)| == |sleeps|
    ensures forall i :: 0 <= i < |sleeps| ==> KeyedSleeps(sleeps)[i] == (sleeps[i].startTime, sleeps[i])
  {
    if sleeps != [] {
      KeyedSleepsAt(sleeps[1..]);
    }
  }

  /** One step of the filter: the first feed is kept exactly when it starts
      at or after `startOfDay`. */
  lemma KeptFeedsStep(feeds: seq<FeedEvent>, startOfDay: int)
    requires feeds != []
    ensures Values<FeedEvent>(KeyAtLeast<FeedEvent>(KeyedFeeds(feeds), startOfDay))
         == (if feeds[0].startTime >= startOfDay then [feeds[0]] else [])
          + Values<FeedEvent>(KeyAtLeast<FeedEvent>(KeyedFeeds(feeds[1..]), startOfDay))
  {
    var x := feeds[0];
    var keyed := KeyedFeeds(feeds);
    var rest := KeyAtLeast<FeedEvent>(KeyedFeeds(feeds[1..]), startOfDay);
    assert keyed == [(x.startTime, x)] + KeyedFeeds(feeds[1..]);
    if x.startTime >= startOfDay {
      assert KeyAtLeast<FeedEvent>(keyed, startOfDay) == [(x.startTime, x)] + rest;
      ValuesPrepend<FeedEvent>((x.startTime, x), rest);
    } else {
      assert KeyAtLeast<FeedEvent>(keyed, startOfDay) == rest;
    }
  }

  /** The counting step of `KeptFeeds`: putting one feed in front adds one
      to its count in the kept feeds exactly when it starts at or after
      `startOfDay`. */
  lemma KeptFeedsCounts(kept: multiset<FeedEvent>, restKept: multiset<FeedEvent>,
                        all: multiset<FeedEvent>, restAll: multiset<FeedEvent>, x: FeedEvent, startOfDay: int)
    requires kept == (if x.startTime >= startOfDay then multiset([x]) else multiset([])) + restKept
    requires all == multiset([x]) + restAll
    requires forall e: FeedEvent :: restKept[e] == if e.startTime >= startOfDay then restAll[e] else 0
    ensures forall e: FeedEvent :: kept[e] == if e.startTime >= startOfDay then all[e] else 0
  {
    forall e: FeedEvent
      ensures kept[e] == if e.startTime >= startOfDay then all[e] else 0
    {
      if e == x {
        assert multiset([x])[e] == 1;
      } else {
        assert multiset([x])[e] == 0;
      }
    }
  }

  /** The feeds that start at or after `startOfDay`, in stored order. */
  function FeedsFrom(feeds: seq<FeedEvent>, startOfDay: int): seq<FeedEvent>
    reads feeds
  {
    if feeds == [] then []
    else (if feeds[0].startTime >= startOfDay then [feeds[0]] else []) + FeedsFrom(feeds[1..], startOfDay)
  }

  /** Filtering the keyed feeds by key and dropping the keys is filtering
      the feeds by start. */
  lemma {:induction false} KeptFeedsAsFilter(feeds: seq<FeedEvent>, startOfDay: int)
    ensures Values<FeedEvent>(KeyAtLeast<FeedEvent>(KeyedFeeds(feeds), startOfDay)) == FeedsFrom(feeds, startOfDay)
  {
    if feeds != [] {
      KeptFeedsStep(feeds, startOfDay);
      KeptFeedsAsFilter(feeds[1..], startOfDay);
    }
  }

  /** The filter keeps each feed starting at or after `startOfDay` as often
      as it is stored, and no other. */
  lemma {:induction false} FeedsFromKeeps(feeds: seq<FeedEvent>, startOfDay: int)
    ensures forall e: FeedEvent :: multiset(FeedsFrom(feeds, startOfDay))[e]
                     == if e.startTime >= startOfDay then multiset(feeds)[e] else 0
  {
    if feeds != [] {
      var x := feeds[0];
      FeedsFromKeeps(feeds[1..], startOfDay);
      assert multiset(feeds) == multiset([x]) + multiset(feeds[1..]) by {
        assert feeds == [x] + feeds[1..];
      }
      KeptFeedsCounts(multiset(FeedsFrom(feeds, startOfDay)), multiset(FeedsFrom(feeds[1..], startOfDay)),
        multiset(feeds), multiset(feeds[1..]), x, startOfDay);
    }
  }

  /** Keeping the keyed feeds that start at or after `startOfDay` keeps
      each such feed as often as it is stored, and no other. */
  lemma KeptFeeds(feeds: seq<FeedEvent>, startOfDay: int)
    ensures forall e: FeedEvent :: multiset(Values<FeedEvent>(KeyAtLeast<FeedEvent>(KeyedFeeds(feeds), startOfDay)))[e]
                     == if e.startTime >= startOfDay then multiset(feeds)[e] else 0
  {
    KeptFeedsAsFilter(feeds, startOfDay);
    FeedsFromKeeps(feeds, startOfDay);
  }

  /** Today's feeds: those starting at or after the start of the day,
      ordered by start. */
  function TodayFeeds(feeds: seq<FeedEvent>, startOfDay: int): seq<FeedEvent>
    reads feeds
  {
    Values<FeedEvent>(SortByKey<FeedEvent>(KeyAtLeast<FeedEvent>(KeyedFeeds(feeds), startOfDay)))
  }

  /** Today's feeds hold each stored feed starting at or after the start of
      the day as often as it is stored, and no other. */
  lemma TodayFeedsKeeps(feeds: seq<FeedEvent>, startOfDay: int)
    ensures forall e: FeedEvent :: multiset(TodayFeeds(feeds, startOfDay))[e]
                     == if e.startTime >= startOfDay then multiset(feeds)[e] else 0
  {
    var kept := KeyAtLeast<FeedEvent>(KeyedFeeds(feeds), startOfDay);
    SortByKeyValues<FeedEvent>(kept);
    KeptFeeds(feeds, startOfDay);
  }

  /** Today's feeds are in order of start. */
  lemma TodayFeedsOrdered(feeds: seq<FeedEvent>, startOfDay: int)
    ensures var r := TodayFeeds(feeds, startOfDay);
      forall i, j :: 0 <= i < j < |r| ==> r[i].startTime <= r[j].startTime
  {
    var keyed := KeyedFeeds(feeds);
    var kept := KeyAtLeast<FeedEvent>(keyed, startOfDay);
    var sorted := SortByKey<FeedEvent>(kept);
    KeyedFeedsAt(feeds);
    KeyAtLeastKeeps<FeedEvent>(keyed, startOfDay);
    SortByKeySorts<FeedEvent>(kept);
    ValuesAt<FeedEvent>(sorted);
    forall k | 0 <= k < |sorted|
      ensures sorted[k].0 == sorted[k].1.startTime
    {
      assert sorted[k] in multiset(sorted);
      assert sorted[k] in multiset(keyed);
      var j :| 0 <= j < |keyed| && keyed[j] == sorted[k];
    }
  }

  /** There are as many of today's feeds as positions of the store holding
      a feed that starts at or after the start of the day. */
  lemma TodayFeedsCount(feeds: seq<FeedEvent>, startOfDay: int)
    ensures |TodayFeeds(feeds, startOfDay)| == |set i | 0 <= i < |feeds| && feeds[i].startTime >= startOfDay|
  {
    var keyed := KeyedFeeds(feeds);
    var sorted := SortByKey<FeedEvent>(KeyAtLeast<FeedEvent>(keyed, startOfDay));
    KeyedFeedsAt(feeds);
    SortedAtLeast<FeedEvent>(keyed, startOfDay);
    ValuesAt<FeedEvent>(sorted);
    assert (set i | 0 <= i < |keyed| && keyed[i].0 >= startOfDay)
        == (set i | 0 <= i < |feeds| && feeds[i].startTime >= startOfDay);
  }

  /** Today's feeds are exactly the stored ones starting at or after the
      start of the day, each as often as it is stored (one per such
      position of the store), in order of start. */
  lemma TodayFeedsSelects(feeds: seq<FeedEvent>, startOfDay: int)
    ensures var r := TodayFeeds(feeds, startOfDay);
      && (forall e: FeedEvent :: multiset(r)[e] == if e.startTime >= startOfDay then multiset(feeds)[e] else 0)
      && (forall e: FeedEvent :: e in r <==> e in feeds && e.startTime >= startOfDay)
      && (forall i, j :: 0 <= i < j < |r| ==> r[i].startTime <= r[j].startTime)
      && |r| == |set i | 0 <= i < |feeds| && feeds[i].startTime >= startOfDay|
  {
    var r := TodayFeeds(feeds, startOfDay);
    TodayFeedsKeeps(feeds, startOfDay);
    TodayFeedsOrdered(feeds, startOfDay);
    TodayFeedsCount(feeds, startOfDay);
    forall e: FeedEvent
      ensures e in r <==> e in feeds && e.startTime >= startOfDay
    {
      assert e in r <==> e in multiset(r);
      assert e in feeds <==> e in multiset(feeds);
    }
  }

  /** One step of the filter: the first sleep is kept exactly when it starts
      at or after `startOfDay`. */
  lemma KeptSleepsStep(sleeps: seq<SleepEvent>, startOfDay: int)
    requires sleeps != []
    ensures Values<SleepEvent>(KeyAtLeast<SleepEvent>(KeyedSleeps(sleeps), startOfDay))
         == (if sleeps[0].startTime >= startOfDay then [sleeps[0]] else [])
          + Values<SleepEvent>(KeyAtLeast<SleepEvent>(KeyedSleeps(sleeps[1..]), startOfDay))
  {
    var x := sleeps[0];
    var keyed := KeyedSleeps(sleeps);
    var rest := KeyAtLeast<SleepEvent>(KeyedSleeps(sleeps[1..]), startOfDay);
    assert keyed == [(x.startTime, x)] + KeyedSleeps(sleeps[1..]);
    if x.startTime >= startOfDay {
      assert KeyAtLeast<SleepEvent>(keyed, startOfDay) == [(x.startTime, x)] + rest;
      ValuesPrepend<SleepEvent>((x.startTime, x), rest);
    } else {
      assert KeyAtLeast<SleepEvent>(keyed, startOfDay) == rest;
    }
  }

  /** The counting step of `KeptSleeps`: putting one sleep in front adds one
      to its count in the kept sleeps exactly when it starts at or after
      `startOfDay`. */
  lemma KeptSleepsCounts(kept: multiset<SleepEvent>, restKept: multiset<SleepEvent>,
                        all: multiset<SleepEvent>, restAll: multiset<SleepEvent>, x: SleepEvent, startOfDay: int)
    requires kept == (if x.startTime >= startOfDay then multiset([x]) else multiset([])) + restKept
    requires all == multiset([x]) + restAll
    requires forall e: SleepEvent :: restKept[e] == if e.startTime >= startOfDay then restAll[e] else 0
    ensures forall e: SleepEvent :: kept[e] == if e.startTime >= startOfDay then all[e] else 0
  {
    forall e: SleepEvent
      ensures kept[e] == if e.startTime >= startOfDay then all[e] else 0
    {
      if e == x {
        assert multiset([x])[e] == 1;
      } else {
        assert multiset([x])[e] == 0;
      }
    }
  }

  /** The sleeps that start at or after `startOfDay`, in stored order. */
  function SleepsFrom(sleeps: seq<SleepEvent>, startOfDay: int): seq<SleepEvent>
    reads sleeps
  {
    if sleeps == [] then []
    else (if sleeps[0].startTime >= startOfDay then [sleeps[0]] else []) + SleepsFrom(sleeps[1..], startOfDay)
  }

  /** Filtering the keyed sleeps by key and dropping the keys is filtering
      the sleeps by start. */
  lemma {:induction false} KeptSleepsAsFilter(sleeps: seq<SleepEvent>, startOfDay: int)
    ensures Values<SleepEvent>(KeyAtLeast<SleepEvent>(KeyedSleeps(sleeps), startOfDay)) == SleepsFrom(sleeps, startOfDay)
  {
    if sleeps != [] {
      KeptSleepsStep(sleeps, startOfDay);
      KeptSleepsAsFilter(sleeps[1..], startOfDay);
    }
  }

  /** The filter keeps each sleep starting at or after `startOfDay` as often
      as it is stored, and no other. */
  lemma {:induction false} SleepsFromKeeps(sleeps: seq<SleepEvent>, startOfDay: int)
    ensures forall e: SleepEvent :: multiset(SleepsFrom(sleeps, startOfDay))[e]
                     == if e.startTime >= startOfDay then multiset(sleeps)[e] else 0
  {
    if sleeps != [] {
      var x := sleeps[0];
      SleepsFromKeeps(sleeps[1..], startOfDay);
      assert multiset(sleeps) == multiset([x]) + multiset(sleeps[1..]) by {
        assert sleeps == [x] + sleeps[1..];
      }
      KeptSleepsCounts(multiset(SleepsFrom(sleeps, startOfDay)), multiset(SleepsFrom(sleeps[1..], startOfDay)),
        multiset(sleeps), multiset(sleeps[1..]), x, startOfDay);
    }
  }

  /** Keeping the keyed sleeps that start at or after `startOfDay` keeps
      each such sleep as often as it is stored, and no other. */
  lemma KeptSleeps(sleeps: seq<SleepEvent>, startOfDay: int)
    ensures forall e: SleepEvent :: multiset(Values<SleepEvent>(KeyAtLeast<SleepEvent>(KeyedSleeps(sleeps), startOfDay)))[e]
                     == if e.startTime >= startOfDay then multiset(sleeps)[e] else 0
  {
    KeptSleepsAsFilter(sleeps, startOfDay);
    SleepsFromKeeps(sleeps, startOfDay);
  }

  /** Today's sleeps: those starting at or after the start of the day,
      ordered by start. */
  function TodaySleeps(sleeps: seq<SleepEvent>, startOfDay: int): seq<SleepEvent>
    reads sleeps
  {
    Values<SleepEvent>(SortByKey<SleepEvent>(KeyAtLeast<SleepEvent>(KeyedSleeps(sleeps), startOfDay)))
  }

  /** Today's sleeps hold each stored sleep starting at or after the start of
      the day as often as it is stored, and no other. */
  lemma TodaySleepsKeeps(sleeps: seq<SleepEvent>, startOfDay: int)
    ensures forall e: SleepEvent :: multiset(TodaySleeps(sleeps, startOfDay))[e]
                     == if e.startTime >= startOfDay then multiset(sleeps)[e] else 0
  {
    var kept := KeyAtLeast<SleepEvent>(KeyedSleeps(sleeps), startOfDay);
    SortByKeyValues<SleepEvent>(kept);
    KeptSleeps(sleeps, startOfDay);
  }

  /** Today's sleeps are in order of start. */
  lemma TodaySleepsOrdered(sleeps: seq<SleepEvent>, startOfDay: int)
    ensures var r := TodaySleeps(sleeps, startOfDay);
      forall i, j :: 0 <= i < j < |r| ==> r[i].startTime <= r[j].startTime
  {
    var keyed := KeyedSleeps(sleeps);
    var kept := KeyAtLeast<SleepEvent>(keyed, startOfDay);
    var sorted := SortByKey<SleepEvent>(kept);
    KeyedSleepsAt(sleeps);
    KeyAtLeastKeeps<SleepEvent>(keyed, startOfDay);
    SortByKeySorts<SleepEvent>(kept);
    ValuesAt<SleepEvent>(sorted);
    forall k | 0 <= k < |sorted|
      ensures sorted[k].0 == sorted[k].1.startTime
    {
      assert sorted[k] in multiset(sorted);
      assert sorted[k] in multiset(keyed);
      var j :| 0 <= j < |keyed| && keyed[j] == sorted[k];
    }
  }

  /** There are as many of today's sleeps as positions of the store holding
      a sleep that starts at or after the start of the day. */
  lemma TodaySleepsCount(sleeps: seq<SleepEvent>, startOfDay: int)
    ensures |TodaySleeps(sleeps, startOfDay)| == |set i | 0 <= i < |sleeps| && sleeps[i].startTime >= startOfDay|
  {
    var keyed := KeyedSleeps(sleeps);
    var sorted := SortByKey<SleepEvent>(KeyAtLeast<SleepEvent>(keyed, startOfDay));
    KeyedSleepsAt(sleeps);
    SortedAtLeast<SleepEvent>(keyed, startOfDay);
    ValuesAt<SleepEvent>(sorted);
    assert (set i | 0 <= i < |keyed| && keyed[i].0 >= startOfDay)
        == (set i | 0 <= i < |sleeps| && sleeps[i].startTime >= startOfDay);
  }

  /** Today's sleeps are exactly the stored ones starting at or after the
      start of the day, each as often as it is stored (one per such
      position of the store), in order of start. */
  lemma TodaySleepsSelects(sleeps: seq<SleepEvent>, startOfDay: int)
    ensures var r := TodaySleeps(sleeps, startOfDay);
      && (forall e: SleepEvent :: multiset(r)[e] == if e.startTime >= startOfDay then multiset(sleeps)[e] else 0)
      && (forall e: SleepEvent :: e in r <==> e in sleeps && e.startTime >= startOfDay)
      && (forall i, j :: 0 <= i < j < |r| ==> r[i].startTime <= r[j].startTime)
      && |r| == |set i | 0 <= i < |sleeps| && sleeps[i].startTime >= startOfDay|
  {
    var r := TodaySleeps(sleeps, startOfDay);
    TodaySleepsKeeps(sleeps, startOfDay);
    TodaySleepsOrdered(sleeps, startOfDay);
    TodaySleepsCount(sleeps, startOfDay);
    forall e: SleepEvent
      ensures e in r <==> e in sleeps && e.startTime >= startOfDay
    {
      assert e in r <==> e in multiset(r);
      assert e in sleeps <==> e in multiset(sleeps);
    }
  }

  /** The `mm:ss` timer shown while timing a session: "00:00" without a
      start; otherwise the seconds from the start to the end (or, while the
      session runs, to `at`), never negative. Reading the text back gives
      those seconds. */
  function TimerString(start: Option<int>, end: Option<int>, at: int): (s: string)
    ensures start.None? ==> s == "00:00"
  {
    match start
    case None => "00:00"
    case Some(st) => TimerText(Max(0, end.GetOr(at) - st))
  }

  /** Reading a running or stopped timer back gives the seconds elapsed from
      its start to its end, or to `at` while it runs, never negative. */
  lemma TimerStringReadsBack(start: int, end: Option<int>, at: int)
    ensures ParseTimer(TimerString(Some(start), end, at)) == Some(Max(0, end.GetOr(at) - start))
  {
    var elapsed := Max(0, end.GetOr(at) - start);
    assert TimerString(Some(start), end, at) == TimerText(elapsed);
    TimerRoundTrip(elapsed);
  }

  /** A stopped session shows the same time whenever it is looked at. */
  lemma StoppedTimerDoesNotTick(start: int, end: int, at1: int, at2: int)
    ensures TimerString(Some(start), Some(end), at1) == TimerString(Some(start), Some(end), at2)
  {
  }

  /** The timer texts the app's own examples expect: five and a half
      minutes, and two minutes five seconds, into a running session. */
  lemma TimerExamples(start: int)
    ensures TimerString(Some(start), None, start + 5 * 60 + 30) == "05:30"
    ensures TimerString(Some(start), None, start + 125) == "02:05"
    ensures TimerString(None, None, start) == "00:00"
  {
    assert NatToString(30) == NatToString(3) + "0";
    assert Pad2(5) == "05" && Pad2(30) == "30" && Pad2(2) == "02";
    assert TimerText(330) == "05:30";
    assert TimerText(125) == "02:05";
  }

  /** `compactMap(\.durationMinutes)`: the durations of the finished
      sleeps, in whole minutes; a value occurs exactly when some finished
      sleep lasted that long. */
  function SleepDurations(sleeps: seq<SleepEvent>): (r: seq<int>)
    reads sleeps
    ensures |r| <= |sleeps|
    ensures forall i :: 0 <= i < |r| ==> r[i] >= 0
    ensures forall d :: d in r <==> exists i :: 0 <= i < |sleeps| && sleeps[i].DurationMinutes() == Some(d)
  {
    if sleeps == [] then []
    else
      assert forall i :: 1 <= i < |sleeps| ==> sleeps[i] == sleeps[1..][i - 1];
      (match sleeps[0].DurationMinutes() case Some(d) => [d] case None => [])
      + SleepDurations(sleeps[1..])
  }

  /** The durations of two runs of sleeps are those of the first run
      followed by those of the second. */
  lemma {:induction false} SleepDurationsAppend(a: seq<SleepEvent>, b: seq<SleepEvent>)
    ensures SleepDurations(a + b) == SleepDurations(a) + SleepDurations(b)
    decreases |a|
  {
    if a == [] {
      assert a + b == b;
    } else {
      assert (a + b)[1..] == a[1..] + b;
      SleepDurationsAppend(a[1..], b);
    }
  }

  /** The minutes slept add up sleep by sleep: a finished sleep adds its
      duration, a sleep in progress adds nothing, and the total of two runs
      of sleeps is the sum of their totals. */
  lemma SleepMinutesAdd(a: seq<SleepEvent>, b: seq<SleepEvent>)
    ensures Sum(SleepDurations(a + b)) == Sum(SleepDurations(a)) + Sum(SleepDurations(b))
    ensures Sum(SleepDurations([])) == 0
    ensures |b| == 1 ==> Sum(SleepDurations(b)) == b[0].DurationMinutes().GetOr(0)
  {
    SleepDurationsAppend(a, b);
    SumAppend(SleepDurations(a), SleepDurations(b));
    if |b| == 1 {
      assert b[1..] == [];
      var d := SleepDurations(b);
      if b[0].IsActive() {
        assert d == [];
      } else {
        assert d == [b[0].DurationMinutes().value];
        assert d[..0] == [];
      }
    }
  }

  /** What the day engine reads of each feed, in order. */
  function FeedRecords(feeds: seq<FeedEvent>): seq<FeedRecord>
    reads feeds
  {
    if feeds == [] then [] else [feeds[0].Record()] + FeedRecords(feeds[1..])
  }

  lemma {:induction false} FeedRecordsAt(feeds: seq<FeedEvent>)
    ensures |FeedRecords(feeds)| == |feeds|
    ensures forall i :: 0 <= i < |feeds| ==> FeedRecords(feeds)[i] == feeds[i].Record()
  {
    if feeds != [] {
      FeedRecordsAt(feeds[1..]);
    }
  }

  /** What the day engine reads of each sleep, in order. */
  function SleepRecords(sleeps: seq<SleepEvent>): seq<SleepRecord>
    reads sleeps
  {
    if sleeps == [] then [] else [sleeps[0].Record()] + SleepRecords(sleeps[1..])
  }

  lemma {:induction false} SleepRecordsAt(sleeps: seq<SleepEvent>)
    ensures |SleepRecords(sleeps)| == |sleeps|
    ensures forall i :: 0 <= i < |sleeps| ==> SleepRecords(sleeps)[i] == sleeps[i].Record()
  {
    if sleeps != [] {
      SleepRecordsAt(sleeps[1..]);
    }
  }

  /** Index of the first nursing feed still in progress (no end) in the
      store, none when there is none. */
  function OpenNursingIndex(feeds: seq<FeedEvent>): (r: Option<nat>)
    reads feeds
    ensures r.Some? ==> r.value < |feeds| && feeds[r.value].IsActive() && feeds[r.value].Kind() == Nursing
    ensures r.Some? ==> forall j :: 0 <= j < r.value ==> !(feeds[j].IsActive() && feeds[j].Kind() == Nursing)
    ensures r.None? ==> forall j :: 0 <= j < |feeds| ==> !(feeds[j].IsActive() && feeds[j].Kind() == Nursing)
  {
    FeedRecordsAt(feeds);
    FirstNursingInProgress(FeedRecords(feeds), 0)
  }

  /** Index of the first sleep still in progress in the store, none when
      there is none. */
  function OpenSleepIndex(sleeps: seq<SleepEvent>): (r: Option<nat>)
    reads sleeps
    ensures r.Some? ==> r.value < |sleeps| && sleeps[r.value].IsActive()
    ensures r.Some? ==> forall j :: 0 <= j < r.value ==> !sleeps[j].IsActive()
    ensures r.None? ==> forall j :: 0 <= j < |sleeps| ==> !sleeps[j].IsActive()
  {
    SleepRecordsAt(sleeps);
    FirstActiveSleep(SleepRecords(sleeps), 0)
  }

  /** Index of the last finished sleep, none when every sleep is still in
      progress. */
  function LastFinishedIndex(sleeps: seq<SleepEvent>): (r: Option<nat>)
    reads sleeps
    ensures r.Some? ==> r.value < |sleeps| && !sleeps[r.value].IsActive()
    ensures r.Some? ==> forall j :: r.value < j < |sleeps| ==> sleeps[j].IsActive()
    ensures r.None? ==> forall j :: 0 <= j < |sleeps| ==> sleeps[j].IsActive()
    decreases |sleeps|
  {
    if sleeps == [] then None
    else if !sleeps[|sleeps| - 1].IsActive() then Some(|sleeps| - 1)
    else LastFinishedIndex(sleeps[..|sleeps| - 1])
  }

  /** The nursing session a baby's store implies: its first open nursing
      feed (none without a baby). */
  function RecoveredNursing(baby: Baby?): (e: FeedEvent?)
    reads baby, if baby != null then baby.feedEvents else []
    ensures e != null ==> baby != null && e in baby.feedEvents && e.IsActive() && e.Kind() == Nursing
    ensures e == null <==>
      (baby == null
       || forall j :: 0 <= j < |baby.feedEvents| ==> !(baby.feedEvents[j].IsActive() && baby.feedEvents[j].Kind() == Nursing))
    ensures e != null ==>
      exists i :: 0 <= i < |baby.feedEvents| && baby.feedEvents[i] == e
        && forall j :: 0 <= j < i ==> !(baby.feedEvents[j].IsActive() && baby.feedEvents[j].Kind() == Nursing)
  {
    if baby == null then null
    else match OpenNursingIndex(baby.feedEvents)
      case Some(i) => baby.feedEvents[i]
      case None => null
  }

  /** The sleep session a baby's store implies: its first open sleep. */
  function RecoveredSleep(baby: Baby?): (e: SleepEvent?)
    reads baby, if baby != null then baby.sleepEvents else []
    ensures e != null ==> baby != null && e in baby.sleepEvents && e.IsActive()
    ensures e == null <==> baby == null || forall j :: 0 <= j < |baby.sleepEvents| ==> !baby.sleepEvents[j].IsActive()
    ensures e != null ==>
      exists i :: 0 <= i < |baby.sleepEvents| && baby.sleepEvents[i] == e
        && forall j :: 0 <= j < i ==> !baby.sleepEvents[j].IsActive()
  {
    if baby == null then null
    else match OpenSleepIndex(baby.sleepEvents)
      case Some(i) => baby.sleepEvents[i]
      case None => null
  }

  class ActivityManager {
    var baby: Baby?
    var snapshot: Option<DaySnapshot>
    var todayFeeds: seq<FeedEvent>
    var todaySleeps: seq<SleepEvent>
    /** The nursing feed being timed, kept in the store with no end. */
    var activeNursingEvent: FeedEvent?
    /** The sleep being timed, kept in the store with no end. */
    var activeSleepEvent: SleepEvent?
    /** What the day engine read of today's feeds and sleeps when the
        snapshot was last computed. */
    ghost var snapshotFeeds: seq<FeedRecord>
    ghost var snapshotSleeps: seq<SleepRecord>

    /** Each session reference points into the selected baby's store. */
    predicate Valid()
      reads this`baby, this`activeSleepEvent, this`activeNursingEvent, baby
    {
      (activeSleepEvent != null ==> baby != null && activeSleepEvent in baby.sleepEvents)
      && (activeNursingEvent != null ==> baby != null && activeNursingEvent in baby.feedEvents)
    }

    /** Today's lists hold the selected baby's events that start on the day
        beginning at `startOfDay`, in order of start (no baby: empty). */
    predicate TodayLoaded(startOfDay: int)
      reads this`baby, this`todayFeeds, this`todaySleeps, baby
      reads if baby != null then baby.feedEvents else []
      reads if baby != null then baby.sleepEvents else []
    {
      if baby == null then
        todayFeeds == [] && todaySleeps == []
      else
        todayFeeds == TodayFeeds(baby.feedEvents, startOfDay)
        && todaySleeps == TodaySleeps(baby.sleepEvents, startOfDay)
    }

    /** The snapshot is the day engine's answer at moment `m` for the
        records it read (no baby: no snapshot). */
    ghost predicate SnapshotCurrent(m: Moment)
      reads this`snapshot, this`baby, this`snapshotFeeds, this`snapshotSleeps
    {
      snapshot == SnapshotFor(baby != null, m, snapshotFeeds, snapshotSleeps)
    }

    /** The records the snapshot was computed from are today's events as
        they stand. */
    ghost predicate RecordsCurrent()
      reads this`snapshotFeeds, this`snapshotSleeps, this`todayFeeds, this`todaySleeps, todayFeeds, todaySleeps
    {
      snapshotFeeds == FeedRecords(todayFeeds) && snapshotSleeps == SleepRecords(todaySleeps)
    }

    /** All of the above: the state a refresh leaves. */
    ghost predicate Loaded(m: Moment)
      reads this`baby, this`todayFeeds, this`todaySleeps, this`snapshot, this`snapshotFeeds, this`snapshotSleeps, baby, todayFeeds, todaySleeps
      reads if baby != null then baby.feedEvents else []
      reads if baby != null then baby.sleepEvents else []
    {
      TodayLoaded(m.startOfDay) && RecordsCurrent() && SnapshotCurrent(m)
    }

    /** A manager starts with no baby selected and nothing loaded. */
    constructor ()
      ensures Valid() && baby == null && snapshot == None
      ensures todayFeeds == [] && todaySleeps == []
      ensures activeNursingEvent == null && activeSleepEvent == null
    {
      baby := null;
      snapshot := None;
      todayFeeds := [];
      todaySleeps := [];
      activeNursingEvent := null;
      activeSleepEvent := null;
      snapshotFeeds := [];
      snapshotSleeps := [];
    }

    // Session state as the sheets see it.

    /** A sleep session exists and is running. */
    predicate IsSleepActive()
      reads this`activeSleepEvent, activeSleepEvent
    {
      activeSleepEvent != null && activeSleepEvent.IsActive()
    }

    /** A sleep session exists, running or stopped. */
    predicate HasSleepSession()
      reads this`activeSleepEvent
    {
      activeSleepEvent != null
    }

    function SleepStartTime(): (t: Option<int>)
      reads this`activeSleepEvent, activeSleepEvent
      ensures t.None? <==> !HasSleepSession()
    {
      if activeSleepEvent == null then None else Some(activeSleepEvent.startTime)
    }

    /** `activeSleepEvent?.endTime`: none without a session or while it runs. */
    function SleepEndTime(): (t: Option<int>)
      reads this`activeSleepEvent, activeSleepEvent
      ensures t.None? <==> !HasSleepSession() || IsSleepActive()
    {
      if activeSleepEvent == null then None else activeSleepEvent.endTime
    }

    predicate IsNursingActive()
      reads this`activeNursingEvent, activeNursingEvent
    {
      activeNursingEvent != null && activeNursingEvent.IsActive()
    }

    predicate HasNursingSession()
      reads this`activeNursingEvent
    {
      activeNursingEvent != null
    }

    /** A session is running exactly when it exists and has no end, and
        stopped exactly when it exists and has one. */
    lemma SessionFlags()
      ensures IsSleepActive() <==> HasSleepSession() && SleepEndTime().None?
      ensures HasSleepSession() && !IsSleepActive() <==> SleepEndTime().Some?
      ensures IsNursingActive() <==> HasNursingSession() && NursingEndTime().None?
      ensures HasNursingSession() && !IsNursingActive() <==> NursingEndTime().Some?
    {
    }

    function NursingStartTime(): (t: Option<int>)
      reads this`activeNursingEvent, activeNursingEvent
      ensures t.None? <==> !HasNursingSession()
    {
      if activeNursingEvent == null then None else Some(activeNursingEvent.startTime)
    }

    function NursingEndTime(): (t: Option<int>)
      reads this`activeNursingEvent, activeNursingEvent
      ensures t.None? <==> !HasNursingSession() || IsNursingActive()
    {
      if activeNursingEvent == null then None else activeNursingEvent.endTime
    }

    /** The sleep timer at instant `at`. */
    function SleepTimerString(at: int): (s: string)
      reads this`activeSleepEvent, activeSleepEvent
      ensures !HasSleepSession() ==> s == "00:00"
    {
      TimerString(SleepStartTime(), SleepEndTime(), at)
    }

    /** The sleep timer reads back as the seconds from the session's start
        to its end, or to `at` while it runs. */
    lemma SleepTimerReadsBack(at: int)
      requires HasSleepSession()
      ensures ParseTimer(SleepTimerString(at))
           == Some(Max(0, SleepEndTime().GetOr(at) - activeSleepEvent.startTime))
    {
      var start, end := activeSleepEvent.startTime, SleepEndTime();
      assert SleepStartTime() == Some(start);
      TimerStringReadsBack(start, end, at);
    }

    /** A stopped sleep session's timer stands still. */
    lemma StoppedSleepTimerStandsStill(at1: int, at2: int)
      requires HasSleepSession() && !IsSleepActive()
      ensures SleepTimerString(at1) == SleepTimerString(at2)
    {
      StoppedTimerDoesNotTick(activeSleepEvent.startTime, activeSleepEvent.endTime.value, at1, at2);
    }

    /** The nursing timer at instant `at`. */
    function NursingTimerString(at: int): (s: string)
      reads this`activeNursingEvent, activeNursingEvent
      ensures !HasNursingSession() ==> s == "00:00"
    {
      TimerString(NursingStartTime(), NursingEndTime(), at)
    }

    lemma NursingTimerReadsBack(at: int)
      requires HasNursingSession()
      ensures ParseTimer(NursingTimerString(at))
           == Some(Max(0, NursingEndTime().GetOr(at) - activeNursingEvent.startTime))
    {
      var start, end := activeNursingEvent.startTime, NursingEndTime();
      assert NursingStartTime() == Some(start);
      TimerStringReadsBack(start, end, at);
    }

    lemma StoppedNursingTimerStandsStill(at1: int, at2: int)
      requires HasNursingSession() && !IsNursingActive()
      ensures NursingTimerString(at1) == NursingTimerString(at2)
    {
      StoppedTimerDoesNotTick(activeNursingEvent.startTime, activeNursingEvent.endTime.value, at1, at2);
    }

    // Counts and totals over today's events.

    function FeedCount(): nat
      reads this`todayFeeds
    {
      |todayFeeds|
    }

    /** With today's lists loaded, the feed count is the number of stored
        feeds starting on the day, and both counts are zero without a
        baby. */
    lemma FeedCountAfterLoad(startOfDay: int)
      requires TodayLoaded(startOfDay)
      ensures baby == null ==> FeedCount() == 0 && NapCount() == 0
      ensures baby != null ==>
        FeedCount() == |set i | 0 <= i < |baby.feedEvents| && baby.feedEvents[i].startTime >= startOfDay|
    {
      if baby != null {
        TodayFeedsCount(baby.feedEvents, startOfDay);
      }
    }

    /** Finished sleeps today: one for each of today's sleeps that has an
        end. */
    function NapCount(): (n: nat)
      reads this`todaySleeps, todaySleeps
      ensures n == |set i | 0 <= i < |todaySleeps| && !todaySleeps[i].IsActive()|
      ensures n <= |todaySleeps|
      ensures (forall i :: 0 <= i < |todaySleeps| ==> !todaySleeps[i].IsActive()) ==> n == |todaySleeps|
    {
      var records := SleepRecords(todaySleeps);
      SleepRecordsAt(todaySleeps);
      CompletedSleepsCount(records, |records|);
      assert records[..|records|] == records;
      assert (set i | 0 <= i < |records| && !records[i].IsActive())
          == (set i | 0 <= i < |todaySleeps| && !todaySleeps[i].IsActive());
      |CompletedSleeps(records)|
    }

    /** Feeds still to offer today out of a fixed seven, never fewer than
        one. */
    function RemainingFeeds(): (n: int)
      reads this`todayFeeds
      ensures n >= 1 && n + FeedCount() >= 7
      ensures FeedCount() < 7 ==> n + FeedCount() == 7
      ensures FeedCount() >= 6 ==> n == 1
    {
      Max(1, 7 - FeedCount())
    }

    /** Minutes slept today over the finished sleeps. */
    function TotalSleepMinutes(): (t: int)
      reads this`todaySleeps, todaySleeps
      ensures t >= 0
    {
      SumOfNonNegative(SleepDurations(todaySleeps));
      Sum(SleepDurations(todaySleeps))
    }

    /** The longest finished sleep today in minutes, 0 when none; never more
        than the total. */
    function LongestSleepMinutes(): (l: int)
      reads this`todaySleeps, todaySleeps
      ensures (forall i :: 0 <= i < |todaySleeps| ==> todaySleeps[i].IsActive()) ==> l == 0
      ensures (exists i :: 0 <= i < |todaySleeps| && !todaySleeps[i].IsActive()) ==>
        exists i :: 0 <= i < |todaySleeps| && todaySleeps[i].DurationMinutes() == Some(l)
      ensures forall i :: 0 <= i < |todaySleeps| && !todaySleeps[i].IsActive() ==>
        todaySleeps[i].DurationMinutes().value <= l
      ensures 0 <= l <= TotalSleepMinutes()
    {
      var ds := SleepDurations(todaySleeps);
      SumOfNonNegative(ds);
      MaxOf(ds).GetOr(0)
    }

    // The latest feed and sleep, and the texts built from them.

    /** `lastFeed`: the last of today's feeds, none when there are none. */
    function LastFeed(): (f: FeedEvent?)
      reads this`todayFeeds
      ensures f == null <==> todayFeeds == []
      ensures f != null ==> f in todayFeeds && f == todayFeeds[|todayFeeds| - 1]
    {
      if todayFeeds == [] then null else todayFeeds[|todayFeeds| - 1]
    }

    /** `lastSleep`: the last of today's finished sleeps, none when no sleep
        has finished. */
    function LastSleep(): (s: SleepEvent?)
      reads this`todaySleeps, todaySleeps
      ensures s == null <==> forall i :: 0 <= i < |todaySleeps| ==> todaySleeps[i].IsActive()
      ensures s != null ==> s in todaySleeps && !s.IsActive()
      ensures s != null ==>
        exists i :: 0 <= i < |todaySleeps| && todaySleeps[i] == s
                    && forall j :: i < j < |todaySleeps| ==> todaySleeps[j].IsActive()
    {
      match LastFinishedIndex(todaySleeps)
      case Some(i) => todaySleeps[i]
      case None => null
    }

    /** `minutesSinceLastFeed` at instant `now`. */
    function MinutesSinceLastFeed(now: int): (r: Option<int>)
      reads this`todayFeeds, todayFeeds
      ensures r.None? <==> todayFeeds == []
    {
      if todayFeeds == [] then None else Some(Minutes(now - todayFeeds[|todayFeeds| - 1].startTime))
    }

    /** `minutesSinceLastWake` at instant `now`: from the end of the last
        finished sleep. */
    function MinutesSinceLastWake(now: int): (r: Option<int>)
      reads this`todaySleeps, todaySleeps
      ensures r.None? <==> forall i :: 0 <= i < |todaySleeps| ==> todaySleeps[i].IsActive()
    {
      var s := LastSleep();
      if s == null then None else Some(Minutes(now - s.endTime.value))
    }

    /** With today's lists loaded, the last feed started no earlier than any
        feed of the day, so the minutes since it are the fewest since any of
        them; the last finished sleep started no earlier than any other
        finished sleep of the day. */
    lemma LatestOfToday(startOfDay: int, now: int)
      requires TodayLoaded(startOfDay)
      ensures LastFeed() != null ==>
        forall i :: 0 <= i < |todayFeeds| ==> todayFeeds[i].startTime <= LastFeed().startTime
      ensures MinutesSinceLastFeed(now).Some? ==>
        forall i :: 0 <= i < |todayFeeds| ==>
          MinutesSinceLastFeed(now).value <= Minutes(now - todayFeeds[i].startTime)
      ensures LastSleep() != null ==>
        forall i :: 0 <= i < |todaySleeps| && !todaySleeps[i].IsActive() ==>
          todaySleeps[i].startTime <= LastSleep().startTime
    {
      if baby != null {
        TodayFeedsOrdered(baby.feedEvents, startOfDay);
        TodaySleepsOrdered(baby.sleepEvents, startOfDay);
      }
      if todayFeeds != [] {
        var last := todayFeeds[|todayFeeds| - 1];
        forall i | 0 <= i < |todayFeeds|
          ensures Minutes(now - last.startTime) <= Minutes(now - todayFeeds[i].startTime)
        {
          MinutesMonotone(now - last.startTime, now - todayFeeds[i].startTime);
        }
      }
    }

    /** `timeSinceLastFeedDuration` at `now`: "--" without a feed. */
    function TimeSinceLastFeedDuration(now: int): string
      reads this`todayFeeds, todayFeeds
    {
      match MinutesSinceLastFeed(now)
      case None => "--"
      case Some(mins) => HoursMinutes(mins)
    }

    /** `wakeWindowFormatted` at `now`: "--" without a finished sleep. */
    function WakeWindowFormatted(now: int): string
      reads this`todaySleeps, todaySleeps
    {
      match MinutesSinceLastWake(now)
      case None => "--"
      case Some(mins) => HoursMinutes(mins)
    }

    /** `lastSleepDurationFormatted`: the last finished sleep's duration
        text, "--" without one. */
    function LastSleepDurationFormatted(): string
      reads this`todaySleeps, todaySleeps
    {
      var s := LastSleep();
      if s == null then "--" else s.DurationDescription()
    }

    /** `totalSleepFormatted` */
    function TotalSleepFormatted(): string
      reads this`todaySleeps, todaySleeps
    {
      HoursMinutes(TotalSleepMinutes())
    }

    /** `longestSleepFormatted`: "--" unless some sleep lasted a minute or
        more. Under an hour the app prints the whole count, which is then
        the remainder the duration style prints. */
    function LongestSleepFormatted(): string
      reads this`todaySleeps, todaySleeps
    {
      var mins := LongestSleepMinutes();
      if mins <= 0 then "--" else HoursMinutes(mins)
    }

    /** `lastFeedOzFormatted`: the last feed's short description, "--"
        without one. */
    function LastFeedOzFormatted(): string
      reads this`todayFeeds, todayFeeds
    {
      if todayFeeds == [] then "--" else todayFeeds[|todayFeeds| - 1].ShortDescription()
    }

    /** The summary texts read back to the counts they show (minute counts
        above -60, which every count of a finished sleep is), and show their
        fallbacks exactly when there is nothing to count. */
    lemma SummaryTextsReadBack(now: int)
      ensures MinutesSinceLastFeed(now).None? ==> TimeSinceLastFeedDuration(now) == "--"
      ensures MinutesSinceLastFeed(now).Some? && MinutesSinceLastFeed(now).value > -60 ==>
        ParseHoursMinutes(TimeSinceLastFeedDuration(now)) == MinutesSinceLastFeed(now)
      ensures MinutesSinceLastWake(now).None? ==> WakeWindowFormatted(now) == "--"
      ensures MinutesSinceLastWake(now).Some? && MinutesSinceLastWake(now).value > -60 ==>
        ParseHoursMinutes(WakeWindowFormatted(now)) == MinutesSinceLastWake(now)
      ensures LastSleep() == null ==> LastSleepDurationFormatted() == "--"
      ensures LastSleep() != null ==>
        ParseHoursMinutes(LastSleepDurationFormatted()) == LastSleep().DurationMinutes()
      ensures ParseHoursMinutes(TotalSleepFormatted()) == Some(TotalSleepMinutes())
      ensures LongestSleepFormatted() == "--" <==> LongestSleepMinutes() == 0
      ensures LongestSleepMinutes() > 0 ==>
        ParseHoursMinutes(LongestSleepFormatted()) == Some(LongestSleepMinutes())
      ensures todayFeeds == [] ==> LastFeedOzFormatted() == "--"
      ensures todayFeeds != [] && LastFeed().Kind() == Nursing ==>
        ReadInt(LastFeedOzFormatted()) == Some((LastFeed().DurationMinutes().GetOr(0), " min"))
    {
      if MinutesSinceLastFeed(now).Some? {
        HoursMinutesRoundTrip(MinutesSinceLastFeed(now).value);
      }
      if MinutesSinceLastWake(now).Some? {
        HoursMinutesRoundTrip(MinutesSinceLastWake(now).value);
      }
      HoursMinutesRoundTrip(TotalSleepMinutes());
      var longest := LongestSleepMinutes();
      if longest > 0 {
        HoursMinutesRoundTrip(longest);
        var h := HoursMinutes(longest);
        assert h[0] != '-' by {
          var q := TruncDiv(longest, 60);
          if q > 0 {
            assert h[0] == IntToString(q)[0];
          } else {
            assert h[0] == IntToString(TruncRem(longest, 60))[0];
          }
        }
      }
    }

    /** The snapshot's nap count is the manager's: both count today's
        finished sleeps. */
    lemma NapCountMatchesSnapshot(m: Moment)
      requires Loaded(m) && baby != null
      ensures snapshot.Some? && snapshot.value.completedNaps == NapCount()
    {
    }

    // Loading.

    /** Reloads today's events from the store and recomputes the snapshot. */
    method Refresh(m: Moment)
      requires Valid()
      modifies this`todayFeeds, this`todaySleeps, this`snapshot, this`snapshotFeeds, this`snapshotSleeps
      ensures Valid() && Loaded(m)
    {
      LoadTodayEvents(m.startOfDay);
      ReadTodayRecords(m.startOfDay);
      ComputeSnapshot(m);
    }

    /** Today's lists from the store: filtered to the day and sorted by
        start. */
    method LoadTodayEvents(startOfDay: int)
      requires Valid()
      modifies this`todayFeeds, this`todaySleeps
      ensures Valid() && TodayLoaded(startOfDay)
    {
      if baby == null {
        todayFeeds, todaySleeps := [], [];
      } else {
        var feeds := TodayFeeds(baby.feedEvents, startOfDay);
        var sleeps := TodaySleeps(baby.sleepEvents, startOfDay);
        todayFeeds, todaySleeps := feeds, sleeps;
      }
    }

    /** Notes what the day engine is about to read of today's lists. */
    ghost method ReadTodayRecords(startOfDay: int)
      requires Valid() && TodayLoaded(startOfDay)
      modifies this`snapshotFeeds, this`snapshotSleeps
      ensures Valid() && TodayLoaded(startOfDay) && RecordsCurrent()
    {
      snapshotFeeds, snapshotSleeps := FeedRecords(todayFeeds), SleepRecords(todaySleeps);
    }

    /** The snapshot from today's lists, or none without a baby. */
    method ComputeSnapshot(m: Moment)
      requires Valid() && TodayLoaded(m.startOfDay) && RecordsCurrent()
      modifies this`snapshot
      ensures Valid() && TodayLoaded(m.startOfDay) && RecordsCurrent() && SnapshotCurrent(m)
    {
      StoreSnapshot(m.startOfDay, SnapshotFor(baby != null, m, FeedRecords(todayFeeds), SleepRecords(todaySleeps)));
    }

    /** Replaces the snapshot, leaving today's lists and their records as
        they are. */
    method StoreSnapshot(startOfDay: int, s: Option<DaySnapshot>)
      requires Valid() && TodayLoaded(startOfDay) && RecordsCurrent()
      modifies this`snapshot
      ensures snapshot == s
      ensures Valid() && TodayLoaded(startOfDay) && RecordsCurrent()
    {
      snapshot := s;
    }

    /** Picks up sessions left running (after launch or a baby switch): the
        first nursing feed without an end and the first sleep without an end
        in the store, none where there is none. */
    method RecoverActiveEvents()
      modifies this`activeNursingEvent, this`activeSleepEvent
      ensures Valid()
      ensures activeNursingEvent == RecoveredNursing(baby)
      ensures activeSleepEvent == RecoveredSleep(baby)
    {
      var nursing, sleep := RecoveredNursing(baby), RecoveredSleep(baby);
      activeNursingEvent, activeSleepEvent := nursing, sleep;
    }

    /** Makes `b` the selected baby and recovers the sessions its store
        implies. */
    method AdoptBaby(b: Baby)
      modifies this`baby, this`activeNursingEvent, this`activeSleepEvent
      ensures baby == b && Valid()
      ensures activeNursingEvent == old(RecoveredNursing(b)) && activeSleepEvent == old(RecoveredSleep(b))
    {
      baby := b;
      RecoverActiveEvents();
    }

    /** Selects a baby, recovers the sessions its store implies and loads
        its day. */
    method SelectBaby(b: Baby, m: Moment)
      modifies this
      ensures baby == b && Valid() && Loaded(m)
      ensures activeNursingEvent == old(RecoveredNursing(b)) && activeSleepEvent == old(RecoveredSleep(b))
    {
      AdoptBaby(b);
      Refresh(m);
    }

    // Sleep sessions.

    /** Starts timing a sleep from `startTime` (default: now): a new unended
        sleep goes into the store and becomes the session. Without a baby,
        nothing happens. */
    method StartSleep(m: Moment, startTime: Option<int>)
      requires Valid()
      modifies this, baby
      ensures Valid() && baby == old(baby)
      ensures old(baby) == null ==> unchanged(this)
      ensures old(baby) != null ==>
        fresh(activeSleepEvent) && activeSleepEvent.startTime == startTime.GetOr(m.now)
        && baby.sleepEvents == old(baby.sleepEvents) + [activeSleepEvent]
        && baby.feedEvents == old(baby.feedEvents)
        && activeNursingEvent == old(activeNursingEvent)
        && IsSleepActive() && SleepEndTime() == None && Loaded(m)
    {
      if baby == null {
        return;
      }
      var event := new SleepEvent(startTime.GetOr(m.now), None);
      baby.sleepEvents := baby.sleepEvents + [event];
      activeSleepEvent := event;
      Refresh(m);
    }

    /** Resumes the session: its sleep loses its end and runs again. Without
        a session, nothing happens. */
    method ResumeSleep(m: Moment)
      requires Valid()
      modifies this, activeSleepEvent
      ensures Valid() && baby == old(baby) && activeSleepEvent == old(activeSleepEvent)
      ensures activeNursingEvent == old(activeNursingEvent)
      ensures old(activeSleepEvent) == null ==> unchanged(this)
      ensures old(activeSleepEvent) != null ==>
        activeSleepEvent.endTime == None && activeSleepEvent.startTime == old(activeSleepEvent.startTime)
        && IsSleepActive() && Loaded(m)
    {
      var event := activeSleepEvent;
      if event == null {
        return;
      }
      SetSessionSleepEnd(m, event, None);
    }

    /** Stops a running session: its sleep ends now and stays the session.
        On a stopped session or none, nothing happens. */
    method StopSleep(m: Moment)
      requires Valid()
      modifies this, activeSleepEvent
      ensures Valid() && baby == old(baby) && activeSleepEvent == old(activeSleepEvent)
      ensures activeNursingEvent == old(activeNursingEvent)
      ensures !old(IsSleepActive()) ==> unchanged(this) && (activeSleepEvent != null ==> unchanged(activeSleepEvent))
      ensures old(IsSleepActive()) ==>
        activeSleepEvent.endTime == Some(m.now) && activeSleepEvent.startTime == old(activeSleepEvent.startTime)
        && !IsSleepActive() && HasSleepSession() && Loaded(m)
    {
      var event := activeSleepEvent;
      if event == null || !event.IsActive() {
        return;
      }
      SetSessionSleepEnd(m, event, Some(m.now));
    }

    /** Sets the session sleep's end (none: running again) and reloads the
        day. */
    method SetSessionSleepEnd(m: Moment, event: SleepEvent, end: Option<int>)
      requires Valid() && event == activeSleepEvent
      modifies this, event`endTime
      ensures Valid() && baby == old(baby) && activeSleepEvent == event
      ensures activeNursingEvent == old(activeNursingEvent)
      ensures event.endTime == end && event.startTime == old(event.startTime)
      ensures Loaded(m)
    {
      event.endTime := end;
      Refresh(m);
    }

    /** Discards the session: its sleep is deleted from the store and the
        session cleared. */
    method ResetSleep(m: Moment)
      requires Valid()
      modifies this, baby
      ensures Valid() && baby == old(baby) && Loaded(m)
      ensures !HasSleepSession() && SleepStartTime() == None && SleepEndTime() == None
      ensures activeNursingEvent == old(activeNursingEvent)
      ensures baby != null ==> baby.feedEvents == old(baby.feedEvents)
      ensures old(activeSleepEvent) != null ==>
        baby.sleepEvents == Without<SleepEvent>(old(baby.sleepEvents), old(activeSleepEvent))
      ensures old(activeSleepEvent) == null && baby != null ==> baby.sleepEvents == old(baby.sleepEvents)
    {
      var event := activeSleepEvent;
      if event != null {
        baby.sleepEvents := Without<SleepEvent>(baby.sleepEvents, event);
      }
      activeSleepEvent := null;
      Refresh(m);
    }

    /** Finishes the session: a running sleep ends now; a stopped one keeps
        its end. Either way the sleep stays in the store and the session is
        cleared. */
    method SaveSleep(m: Moment)
      requires Valid()
      modifies this, activeSleepEvent
      ensures Valid() && baby == old(baby) && Loaded(m)
      ensures !HasSleepSession() && activeNursingEvent == old(activeNursingEvent)
      ensures old(IsSleepActive()) ==>
        old(activeSleepEvent).endTime == Some(m.now)
        && old(activeSleepEvent).startTime == old(activeSleepEvent.startTime)
      ensures old(HasSleepSession()) && !old(IsSleepActive()) ==> unchanged(old(activeSleepEvent))
    {
      var event := activeSleepEvent;
      if event != null && event.IsActive() {
        event.endTime := Some(m.now);
      }
      activeSleepEvent := null;
      Refresh(m);
    }

    /** Logs a finished sleep entered by hand and clears the session. Without
        a baby, nothing happens. */
    method SaveSleepManual(m: Moment, startTime: int, endTime: int)
      requires Valid()
      modifies this, baby
      ensures Valid() && baby == old(baby)
      ensures old(baby) == null ==> unchanged(this)
      ensures old(baby) != null ==>
        |baby.sleepEvents| == |old(baby.sleepEvents)| + 1
        && baby.sleepEvents[..|old(baby.sleepEvents)|] == old(baby.sleepEvents)
        && fresh(baby.sleepEvents[|old(baby.sleepEvents)|])
        && baby.sleepEvents[|old(baby.sleepEvents)|].startTime == startTime
        && baby.sleepEvents[|old(baby.sleepEvents)|].endTime == Some(endTime)
        && baby.feedEvents == old(baby.feedEvents)
        && !HasSleepSession() && activeNursingEvent == old(activeNursingEvent) && Loaded(m)
    {
      if baby == null {
        return;
      }
      var event := new SleepEvent(startTime, Some(endTime));
      activeSleepEvent := null;
      AddSleep(m, event);
    }

    /** Adds a sleep to the selected baby's store and reloads the day; the
        sessions and the feeds are untouched. */
    method AddSleep(m: Moment, event: SleepEvent)
      requires Valid() && baby != null
      modifies this, baby
      ensures baby == old(baby) && baby.sleepEvents == old(baby.sleepEvents) + [event]
      ensures baby.feedEvents == old(baby.feedEvents)
      ensures activeNursingEvent == old(activeNursingEvent) && activeSleepEvent == old(activeSleepEvent)
      ensures Valid() && Loaded(m)
    {
      baby.sleepEvents := baby.sleepEvents + [event];
      Refresh(m);
    }

    /** The sleep start setter: moves the session's start; a missing value
        or a missing session changes nothing. */
    method SetSleepStartTime(t: Option<int>)
      modifies activeSleepEvent
      ensures activeSleepEvent != null && t.Some? ==> activeSleepEvent.startTime == t.value
      ensures activeSleepEvent != null ==> activeSleepEvent.endTime == old(activeSleepEvent.endTime)
      ensures activeSleepEvent != null && t.None? ==> unchanged(activeSleepEvent)
    {
      if t.Some? && activeSleepEvent != null {
        activeSleepEvent.startTime := t.value;
      }
    }

    /** The sleep end setter: sets (or clears) the session's end. */
    method SetSleepEndTime(t: Option<int>)
      modifies activeSleepEvent
      ensures activeSleepEvent != null ==>
        activeSleepEvent.endTime == t && activeSleepEvent.startTime == old(activeSleepEvent.startTime)
    {
      if activeSleepEvent != null {
        activeSleepEvent.endTime := t;
      }
    }

    // Nursing sessions.

    /** Starts timing a nursing feed now on the given side: a new unended
        nursing feed goes into the store and becomes the session. Without a
        baby, nothing happens. */
    method StartNursing(m: Moment, side: NursingSide)
      requires Valid()
      modifies this, baby
      ensures Valid() && baby == old(baby)
      ensures old(baby) == null ==> unchanged(this)
      ensures old(baby) != null ==>
        fresh(activeNursingEvent) && activeNursingEvent.startTime == m.now
        && activeNursingEvent.Kind() == Nursing && activeNursingEvent.Side() == side
        && activeNursingEvent.Source() == BreastMilk && activeNursingEvent.amountOz == 0.0
        && baby.feedEvents == old(baby.feedEvents) + [activeNursingEvent]
        && baby.sleepEvents == old(baby.sleepEvents)
        && activeSleepEvent == old(activeSleepEvent)
        && IsNursingActive() && Loaded(m)
    {
      if baby == null {
        return;
      }
      var event := new FeedEvent(m.now, None, Nursing, BreastMilk, 0.0, side);
      baby.feedEvents := baby.feedEvents + [event];
      activeNursingEvent := event;
      Refresh(m);
    }

    /** Stops a running nursing session: the feed ends now and stays the
        session. On a stopped session or none, nothing happens. */
    method StopNursing(m: Moment)
      requires Valid()
      modifies this, activeNursingEvent
      ensures Valid() && baby == old(baby) && activeNursingEvent == old(activeNursingEvent)
      ensures activeSleepEvent == old(activeSleepEvent)
      ensures activeNursingEvent != null ==> activeNursingEvent.Details() == old(activeNursingEvent.Details())
      ensures !old(IsNursingActive()) ==> unchanged(this) && (activeNursingEvent != null ==> unchanged(activeNursingEvent))
      ensures old(IsNursingActive()) ==>
        activeNursingEvent.endTime == Some(m.now)
        && activeNursingEvent.startTime == old(activeNursingEvent.startTime)
        && !IsNursingActive() && HasNursingSession() && Loaded(m)
    {
      var event := activeNursingEvent;
      if event == null || !event.IsActive() {
        return;
      }
      EndNursingSession(m, event);
    }

    /** Ends the session's nursing feed now and reloads the day. */
    method EndNursingSession(m: Moment, event: FeedEvent)
      requires Valid() && event == activeNursingEvent
      modifies this, event`endTime
      ensures Valid() && baby == old(baby) && activeNursingEvent == event
      ensures activeSleepEvent == old(activeSleepEvent)
      ensures event.Details() == old(event.Details())
      ensures event.endTime == Some(m.now) && event.startTime == old(event.startTime)
      ensures Loaded(m)
    {
      event.endTime := Some(m.now);
      Refresh(m);
    }

    /** Discards the nursing session: its feed is deleted from the store and
        the session cleared. */
    method ResetNursing(m: Moment)
      requires Valid()
      modifies this, baby
      ensures Valid() && baby == old(baby) && Loaded(m)
      ensures !HasNursingSession() && NursingStartTime() == None && NursingEndTime() == None
      ensures activeSleepEvent == old(activeSleepEvent)
      ensures baby != null ==> baby.sleepEvents == old(baby.sleepEvents)
      ensures old(activeNursingEvent) != null ==>
        baby.feedEvents == Without<FeedEvent>(old(baby.feedEvents), old(activeNursingEvent))
      ensures old(activeNursingEvent) == null && baby != null ==> baby.feedEvents == old(baby.feedEvents)
    {
      var event := activeNursingEvent;
      if event != null {
        baby.feedEvents := Without<FeedEvent>(baby.feedEvents, event);
      }
      activeNursingEvent := null;
      Refresh(m);
    }

    /** Finishes the nursing session: a running feed ends now; a stopped one
        keeps its end. The feed stays in the store and the session is
        cleared. */
    method SaveNursing(m: Moment)
      requires Valid()
      modifies this, activeNursingEvent
      ensures Valid() && baby == old(baby) && Loaded(m)
      ensures old(activeNursingEvent) != null ==>
        old(activeNursingEvent).Details() == old(activeNursingEvent.Details())
      ensures !HasNursingSession() && activeSleepEvent == old(activeSleepEvent)
      ensures old(IsNursingActive()) ==> old(activeNursingEvent).endTime == Some(m.now)
      ensures old(HasNursingSession()) && !old(IsNursingActive()) ==> unchanged(old(activeNursingEvent))
    {
      var event := activeNursingEvent;
      if event != null && event.IsActive() {
        event.endTime := Some(m.now);
      }
      activeNursingEvent := null;
      Refresh(m);
    }

    /** The nursing start setter: moves the session's start; a missing
        value or a missing session changes nothing. */
    method SetNursingStartTime(t: Option<int>)
      modifies activeNursingEvent
      ensures activeNursingEvent != null && t.Some? ==> activeNursingEvent.startTime == t.value
      ensures activeNursingEvent != null ==>
        activeNursingEvent.endTime == old(activeNursingEvent.endTime)
        && activeNursingEvent.feedKind == old(activeNursingEvent.feedKind)
        && activeNursingEvent.bottleSource == old(activeNursingEvent.bottleSource)
        && activeNursingEvent.amountOz == old(activeNursingEvent.amountOz)
        && activeNursingEvent.nursingSide == old(activeNursingEvent.nursingSide)
      ensures activeNursingEvent != null && t.None? ==> unchanged(activeNursingEvent)
    {
      if t.Some? && activeNursingEvent != null {
        activeNursingEvent.startTime := t.value;
      }
    }

    /** The nursing end setter: sets (or clears) the session's end. */
    method SetNursingEndTime(t: Option<int>)
      modifies activeNursingEvent
      ensures activeNursingEvent != null ==>
        activeNursingEvent.endTime == t
        && activeNursingEvent.startTime == old(activeNursingEvent.startTime)
        && activeNursingEvent.feedKind == old(activeNursingEvent.feedKind)
        && activeNursingEvent.bottleSource == old(activeNursingEvent.bottleSource)
        && activeNursingEvent.amountOz == old(activeNursingEvent.amountOz)
        && activeNursingEvent.nursingSide == old(activeNursingEvent.nursingSide)
    {
      if activeNursingEvent != null {
        activeNursingEvent.endTime := t;
      }
    }

    // Bottles.

    /** Adds a feed to the selected baby's store and reloads the day; the
        sessions and the sleeps are untouched. */
    method AddFeed(m: Moment, event: FeedEvent)
      requires Valid() && baby != null
      modifies this, baby
      ensures baby == old(baby) && baby.feedEvents == old(baby.feedEvents) + [event]
      ensures baby.sleepEvents == old(baby.sleepEvents)
      ensures activeNursingEvent == old(activeNursingEvent) && activeSleepEvent == old(activeSleepEvent)
      ensures Valid() && Loaded(m)
    {
      baby.feedEvents := baby.feedEvents + [event];
      Refresh(m);
    }

    /** Logs a bottle given at `time` (default: now): a feed that starts and
        ends at that instant. The sessions are untouched. Without a baby,
        nothing happens. */
    method SaveBottle(m: Moment, amountOz: real, source: BottleSource, time: Option<int>)
      requires Valid()
      modifies this, baby
      ensures Valid() && baby == old(baby)
      ensures old(baby) == null ==> unchanged(this)
      ensures old(baby) != null ==>
        |baby.feedEvents| == |old(baby.feedEvents)| + 1
        && baby.feedEvents[..|old(baby.feedEvents)|] == old(baby.feedEvents)
        && fresh(baby.feedEvents[|old(baby.feedEvents)|])
        && baby.feedEvents[|old(baby.feedEvents)|].startTime == time.GetOr(m.now)
        && baby.feedEvents[|old(baby.feedEvents)|].endTime == Some(time.GetOr(m.now))
        && baby.feedEvents[|old(baby.feedEvents)|].Kind() == Bottle
        && baby.feedEvents[|old(baby.feedEvents)|].Source() == source
        && baby.feedEvents[|old(baby.feedEvents)|].amountOz == amountOz
        && baby.feedEvents[|old(baby.feedEvents)|].Side() == Both
        && baby.sleepEvents == old(baby.sleepEvents)
        && activeNursingEvent == old(activeNursingEvent) && activeSleepEvent == old(activeSleepEvent)
        && Loaded(m)
    {
      if baby == null {
        return;
      }
      var t := time.GetOr(m.now);
      var event := new FeedEvent(t, Some(t), Bottle, source, amountOz, Both);
      AddFeed(m, event);
    }
  }
}
