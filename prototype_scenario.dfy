/** The preview app's scenario (`MockData.swift`, present in two copies):
    a baby, the current instant, today's log and the targets, and the
    helpers the preview screens compute from them: the latest feed and
    sleep, minutes since each, totals, readiness tests and the duration
    texts. The baby's age in days comes from the calendar and is passed
    in where a helper needs the age bracket. */
module Scenarios {
  import opened Basics
  import opened Text
  import opened Prototype

  /** `max(by:)` on keys: the position of the first largest key. Swift's
      scan replaces its candidate only on a strictly larger key, so among
      equal keys the earliest wins. */
  function FirstMaxIndex(keys: seq<int>): (i: nat)
    requires |keys| > 0
    ensures i < |keys|
    ensures forall j :: 0 <= j < |keys| ==> keys[j] <= keys[i]
    ensures forall j :: 0 <= j < i ==> keys[j] < keys[i]
    decreases |keys|
  {
    if |keys| == 1 then 0
    else
      var i := FirstMaxIndex(keys[..|keys| - 1]);
      if keys[i] < keys[|keys| - 1] then |keys| - 1 else i
  }

  function StartTimes(feeds: seq<FeedActivity>): seq<int> {
    seq(|feeds|, i requires 0 <= i < |feeds| => feeds[i].startTime)
  }

  function EndTimes(sleeps: seq<SleepActivity>): seq<int> {
    seq(|sleeps|, i requires 0 <= i < |sleeps| => sleeps[i].endTime)
  }

  function Durations(sleeps: seq<SleepActivity>): seq<int> {
    seq(|sleeps|, i requires 0 <= i < |sleeps| => sleeps[i].DurationMinutes())
  }

  /** The minutes since the latest of some instants are the fewest minutes
      since any of them. */
  lemma MinutesSinceLatest(now: int, times: seq<int>, k: nat)
    requires k < |times|
    requires forall j :: 0 <= j < |times| ==> times[j] <= times[k]
    ensures forall j :: 0 <= j < |times| ==> Minutes(now - times[k]) <= Minutes(now - times[j])
  {
    forall j | 0 <= j < |times|
      ensures Minutes(now - times[k]) <= Minutes(now - times[j])
    {
      MinutesMonotone(now - times[k], now - times[j]);
    }
  }

  /** The sum of the bottles' ounces; nursing adds nothing. */
  function BottleOz(feeds: seq<FeedActivity>): real {
    if feeds == [] then 0.0
    else BottleOz(feeds[..|feeds| - 1]) + feeds[|feeds| - 1].feedType.ActualOz().GetOr(0.0)
  }

  /** The sum of every feed's ounces, nursing estimated at the bracket's
      rate. */
  function EstimatedOz(feeds: seq<FeedActivity>, bracket: AgeBracket): real {
    if feeds == [] then 0.0
    else EstimatedOz(feeds[..|feeds| - 1], bracket) + feeds[|feeds| - 1].feedType.EstimatedOz(bracket)
  }

  /** Without nursing, the estimated intake is the measured intake. */
  lemma {:induction false} EstimatedOzWithoutNursing(feeds: seq<FeedActivity>, bracket: AgeBracket)
    requires forall i :: 0 <= i < |feeds| ==> !feeds[i].feedType.IsEstimate()
    ensures EstimatedOz(feeds, bracket) == BottleOz(feeds)
    decreases |feeds|
  {
    if feeds != [] {
      EstimatedOzWithoutNursing(feeds[..|feeds| - 1], bracket);
    }
  }

  datatype Scenario = Scenario(baby: Baby, currentTime: int, today: DayLog, targets: AgeTargets) {
    /** `lastFeed`: the first of the feeds with the latest start; none
        without feeds. */
    function LastFeed(): (r: Option<FeedActivity>)
      ensures r.None? <==> today.feeds == []
      ensures r.Some? ==> forall i :: 0 <= i < |today.feeds| ==> today.feeds[i].startTime <= r.value.startTime
      ensures r.Some? ==> exists k :: 0 <= k < |today.feeds| && today.feeds[k] == r.value
                                  && forall j :: 0 <= j < k ==> today.feeds[j].startTime < r.value.startTime
    {
      if today.feeds == [] then None
      else
        var k := FirstMaxIndex(StartTimes(today.feeds));
        assert forall j :: 0 <= j < |today.feeds| ==> StartTimes(today.feeds)[j] == today.feeds[j].startTime;
        Some(today.feeds[k])
    }

    /** `lastSleep`: the first of the sleeps with the latest end; none
        without sleeps. */
    function LastSleep(): (r: Option<SleepActivity>)
      ensures r.None? <==> today.sleeps == []
      ensures r.Some? ==> forall i :: 0 <= i < |today.sleeps| ==> today.sleeps[i].endTime <= r.value.endTime
      ensures r.Some? ==> exists k :: 0 <= k < |today.sleeps| && today.sleeps[k] == r.value
                                  && forall j :: 0 <= j < k ==> today.sleeps[j].endTime < r.value.endTime
    {
      if today.sleeps == [] then None
      else
        var k := FirstMaxIndex(EndTimes(today.sleeps));
        assert forall j :: 0 <= j < |today.sleeps| ==> EndTimes(today.sleeps)[j] == today.sleeps[j].endTime;
        Some(today.sleeps[k])
    }

    /** `minutesSinceLastFeed`: whole minutes since the latest feed
        started, which are the fewest minutes since any feed started. */
    function MinutesSinceLastFeed(): (r: Option<int>)
      ensures r.None? <==> today.feeds == []
      ensures r.Some? ==> forall i :: 0 <= i < |today.feeds| ==> r.value <= Minutes(currentTime - today.feeds[i].startTime)
      ensures r.Some? ==> exists i :: 0 <= i < |today.feeds| && r.value == Minutes(currentTime - today.feeds[i].startTime)
    {
      match LastFeed()
      case None => None
      case Some(f) =>
        var k :| 0 <= k < |today.feeds| && today.feeds[k] == f;
        MinutesSinceLatest(currentTime, StartTimes(today.feeds), k);
        Some(Minutes(currentTime - f.startTime))
    }

    /** `minutesSinceLastWake`: whole minutes since the latest sleep ended,
        which are the fewest minutes since any sleep ended. */
    function MinutesSinceLastWake(): (r: Option<int>)
      ensures r.None? <==> today.sleeps == []
      ensures r.Some? ==> forall i :: 0 <= i < |today.sleeps| ==> r.value <= Minutes(currentTime - today.sleeps[i].endTime)
      ensures r.Some? ==> exists i :: 0 <= i < |today.sleeps| && r.value == Minutes(currentTime - today.sleeps[i].endTime)
    {
      match LastSleep()
      case None => None
      case Some(s) =>
        var k :| 0 <= k < |today.sleeps| && today.sleeps[k] == s;
        MinutesSinceLatest(currentTime, EndTimes(today.sleeps), k);
        Some(Minutes(currentTime - s.endTime))
    }

    /** `totalFeedOz`: the ounces of today's bottles. */
    function TotalFeedOz(): real {
      BottleOz(today.feeds)
    }

    /** `totalSleepMinutes`: the sum of the sleeps' durations; when no
        sleep ends before it starts, it is at least each of them. */
    function TotalSleepMinutes(): (total: int)
      ensures (forall i :: 0 <= i < |today.sleeps| ==> today.sleeps[i].startTime <= today.sleeps[i].endTime)
        ==> total >= 0 && forall i :: 0 <= i < |today.sleeps| ==> today.sleeps[i].DurationMinutes() <= total
    {
      var ds := Durations(today.sleeps);
      assert forall i :: 0 <= i < |ds| ==> ds[i] == today.sleeps[i].DurationMinutes();
      if forall i :: 0 <= i < |today.sleeps| ==> today.sleeps[i].startTime <= today.sleeps[i].endTime then
        SumOfNonNegative(ds);
        Sum(ds)
      else
        Sum(ds)
    }

    /** `longestSleepMinutes`: the largest duration, 0 without sleeps. */
    function LongestSleepMinutes(): (m: int)
      ensures today.sleeps == [] ==> m == 0
      ensures today.sleeps != [] ==> exists i :: 0 <= i < |today.sleeps| && m == today.sleeps[i].DurationMinutes()
      ensures forall i :: 0 <= i < |today.sleeps| ==> today.sleeps[i].DurationMinutes() <= m
    {
      var ds := Durations(today.sleeps);
      assert forall i :: 0 <= i < |ds| ==> ds[i] == today.sleeps[i].DurationMinutes();
      MaxOf(ds).GetOr(0)
    }

    /** `wakeWindowFormatted`: "--" without a sleep, else the minutes
        since waking as "{h}h {m}m" or "{m}m". */
    function WakeWindowFormatted(): string {
      match MinutesSinceLastWake()
      case None => "--"
      case Some(mins) => HoursMinutes(mins)
    }

    /** `isWakeWindowExceeded`: awake longer than the window's upper end. */
    predicate IsWakeWindowExceeded() {
      match MinutesSinceLastWake()
      case None => false
      case Some(mins) => mins > targets.wakeWindowMinutes.hi
    }

    /** `lastSleepDurationFormatted`: the latest sleep's duration text, "--"
        without one. */
    function LastSleepDurationFormatted(): string {
      match LastSleep()
      case None => "--"
      case Some(s) => s.DurationDescription()
    }

    /** `lastFeedAmountFormatted`: the latest feed's short description,
        "--" without one. */
    function LastFeedAmountFormatted(): string {
      match LastFeed()
      case None => "--"
      case Some(f) => f.feedType.ShortDescription()
    }

    /** `isSleepReady`: awake for at least the window's lower end. */
    predicate IsSleepReady() {
      match MinutesSinceLastWake()
      case None => false
      case Some(mins) => mins >= targets.wakeWindowMinutes.lo
    }

    /** `isFeedReady`: at least the feed interval's lower end since the
        latest feed. */
    predicate IsFeedReady() {
      match MinutesSinceLastFeed()
      case None => false
      case Some(mins) => mins >= targets.feedIntervalMinutes.lo
    }

    /** `feedCount` */
    function FeedCount(): nat {
      |today.feeds|
    }

    /** `totalIntakeOz`: every feed's ounces, nursing estimated at the rate
        for the baby's age. */
    function TotalIntakeOz(ageInDays: int): real {
      EstimatedOz(today.feeds, BracketForAge(ageInDays))
    }

    /** `hasNursingEstimates` */
    predicate HasNursingEstimates() {
      exists i :: 0 <= i < |today.feeds| && today.feeds[i].feedType.IsEstimate()
    }

    /** `intakeProgress`: intake over the middle of the daily target; it
        reaches 1 exactly when the intake reaches that middle. */
    function IntakeProgress(ageInDays: int): (p: real)
      ensures var target := BracketForAge(ageInDays).DailyIntakeOz();
        p >= 1.0 <==> TotalIntakeOz(ageInDays) >= (target.lo + target.hi) as real / 2.0
    {
      var target := BracketForAge(ageInDays).DailyIntakeOz();
      var midpoint := (target.lo + target.hi) as real / 2.0;
      TotalIntakeOz(ageInDays) / midpoint
    }

    /** `timeSinceLastFeedFormatted`: "No feeds" without a feed, else the
        minutes since it as "{h}h {m}m ago" or "{m}m ago". */
    function TimeSinceLastFeedFormatted(): string {
      match MinutesSinceLastFeed()
      case None => "No feeds"
      case Some(mins) => HoursMinutes(mins) + " ago"
    }

    /** `napCount` */
    function NapCount(): nat {
      |today.sleeps|
    }

    /** `totalSleepFormatted`: the total as "{h}h {m}m" or "{m}m". */
    function TotalSleepFormatted(): string {
      HoursMinutes(TotalSleepMinutes())
    }

    /** `sleepProgress`: hours slept over the middle of the daily target;
        it reaches 1 exactly when the minutes slept reach that middle. */
    function SleepProgress(ageInDays: int): (p: real)
      ensures var target := BracketForAge(ageInDays).DailySleepHours();
        p >= 1.0 <==> TotalSleepMinutes() as real >= 60.0 * ((target.lo + target.hi) as real / 2.0)
    {
      var target := BracketForAge(ageInDays).DailySleepHours();
      var midpoint := (target.lo + target.hi) as real / 2.0;
      var hoursSlept := TotalSleepMinutes() as real / 60.0;
      hoursSlept / midpoint
    }

    /** `awakeTimeFormatted`: "Awake" without a sleep, else the minutes
        since waking as "{h}h {m}m" or "{m}m". */
    function AwakeTimeFormatted(): string {
      match MinutesSinceLastWake()
      case None => "Awake"
      case Some(mins) => HoursMinutes(mins)
    }
  }

  /** The readiness tests in terms of the logged events alone: the wake
      window is exceeded, or sleep is due, exactly when there is a sleep
      and every sleep ended more than the window's upper end (at least its
      lower end) minutes ago; a feed is due exactly when there is a feed
      and every feed started at least the interval's lower end minutes
      ago. */
  lemma ReadinessFromEvents(s: Scenario)
    ensures s.IsWakeWindowExceeded()
        <==> (s.today.sleeps != [] && forall i :: 0 <= i < |s.today.sleeps| ==>
                Minutes(s.currentTime - s.today.sleeps[i].endTime) > s.targets.wakeWindowMinutes.hi)
    ensures s.IsSleepReady()
        <==> (s.today.sleeps != [] && forall i :: 0 <= i < |s.today.sleeps| ==>
                Minutes(s.currentTime - s.today.sleeps[i].endTime) >= s.targets.wakeWindowMinutes.lo)
    ensures s.IsFeedReady()
        <==> (s.today.feeds != [] && forall i :: 0 <= i < |s.today.feeds| ==>
                Minutes(s.currentTime - s.today.feeds[i].startTime) >= s.targets.feedIntervalMinutes.lo)
  {
    if s.today.sleeps != [] {
      var i :| 0 <= i < |s.today.sleeps|
        && s.MinutesSinceLastWake().value == Minutes(s.currentTime - s.today.sleeps[i].endTime);
    }
    if s.today.feeds != [] {
      var i :| 0 <= i < |s.today.feeds|
        && s.MinutesSinceLastFeed().value == Minutes(s.currentTime - s.today.feeds[i].startTime);
    }
  }

  /** With a well-formed wake window, an exceeded window means sleep is
      due. */
  lemma ExceededMeansSleepReady(s: Scenario)
    requires s.targets.wakeWindowMinutes.Valid()
    ensures s.IsWakeWindowExceeded() ==> s.IsSleepReady()
  {
  }

  /** The longest sleep is at most the total when no sleep ends before it
      starts. */
  lemma LongestAtMostTotal(s: Scenario)
    requires forall i :: 0 <= i < |s.today.sleeps| ==> s.today.sleeps[i].startTime <= s.today.sleeps[i].endTime
    ensures 0 <= s.LongestSleepMinutes() <= s.TotalSleepMinutes()
  {
    if s.today.sleeps != [] {
      var i :| 0 <= i < |s.today.sleeps| && s.LongestSleepMinutes() == s.today.sleeps[i].DurationMinutes();
    }
  }

  /** The total is a sum: no sleeps total 0, one sleep totals its own
      duration, and splitting the day's sleeps in two splits the total. */
  lemma TotalSleepMinutesAdds(s: Scenario, a: seq<SleepActivity>, b: seq<SleepActivity>)
    requires s.today.sleeps == a + b
    ensures s.TotalSleepMinutes()
      == s.(today := s.today.(sleeps := a)).TotalSleepMinutes()
       + s.(today := s.today.(sleeps := b)).TotalSleepMinutes()
    ensures s.(today := s.today.(sleeps := [])).TotalSleepMinutes() == 0
    ensures |b| == 1 ==> s.(today := s.today.(sleeps := b)).TotalSleepMinutes() == b[0].DurationMinutes()
  {
    assert Durations(a + b) == Durations(a) + Durations(b);
    SumAppend(Durations(a), Durations(b));
    assert Durations([]) == [];
    if |b| == 1 {
      assert Durations(b) == [b[0].DurationMinutes()];
      assert Durations(b)[..0] == [];
    }
  }

  /** Without nursing, the intake counted toward the target is exactly the
      ounces of the bottles. */
  lemma IntakeWithoutNursing(s: Scenario, ageInDays: int)
    requires !s.HasNursingEstimates()
    ensures s.TotalIntakeOz(ageInDays) == s.TotalFeedOz()
  {
    EstimatedOzWithoutNursing(s.today.feeds, BracketForAge(ageInDays));
  }

  /** The feed and nap counts together are the length of the timeline. */
  lemma CountsMatchTimeline(s: Scenario)
    ensures s.FeedCount() + s.NapCount() == |s.today.AllActivities()|
  {
    AllActivitiesNewestFirst(s.today);
  }

  /** The time-awake texts read back to the minutes since waking,
      whenever those are above -60, and show their fallbacks without a
      sleep. */
  lemma AwakeTextsReadBack(s: Scenario)
    ensures s.MinutesSinceLastWake().None? ==> s.WakeWindowFormatted() == "--" && s.AwakeTimeFormatted() == "Awake"
    ensures s.MinutesSinceLastWake().Some? && s.MinutesSinceLastWake().value > -60 ==>
      && ParseHoursMinutes(s.WakeWindowFormatted()) == s.MinutesSinceLastWake()
      && ParseHoursMinutes(s.AwakeTimeFormatted()) == s.MinutesSinceLastWake()
  {
    if s.MinutesSinceLastWake().Some? {
      HoursMinutesRoundTrip(s.MinutesSinceLastWake().value);
    }
  }

  /** The time-since-feed text is the minutes since the latest feed and
      " ago", the minutes reading back whenever they are above -60;
      "No feeds" without a feed. */
  lemma FeedAgoTextReadsBack(s: Scenario)
    ensures s.MinutesSinceLastFeed().None? ==> s.TimeSinceLastFeedFormatted() == "No feeds"
    ensures s.MinutesSinceLastFeed().Some? && s.MinutesSinceLastFeed().value > -60 ==>
      var t := s.TimeSinceLastFeedFormatted();
      |t| >= 4 && t[|t| - 4..] == " ago" && ParseHoursMinutes(t[..|t| - 4]) == s.MinutesSinceLastFeed()
  {
    if s.MinutesSinceLastFeed().Some? {
      var m := s.MinutesSinceLastFeed().value;
      HoursMinutesRoundTrip(m);
      var h := HoursMinutes(m);
      assert (h + " ago")[..|h|] == h;
      assert (h + " ago")[|h|..] == " ago";
    }
  }

  /** The total sleep text reads back to the total whenever that is above
      -60. */
  lemma TotalSleepTextReadsBack(s: Scenario)
    ensures s.TotalSleepMinutes() > -60 ==> ParseHoursMinutes(s.TotalSleepFormatted()) == Some(s.TotalSleepMinutes())
  {
    HoursMinutesRoundTrip(s.TotalSleepMinutes());
  }

  /** The status texts of the latest sleep and feed read back to its
      duration or amount, and are "--" without one. */
  lemma StatusTextsReadBack(s: Scenario)
    ensures s.LastSleep().None? ==> s.LastSleepDurationFormatted() == "--"
    ensures s.LastSleep().Some? && s.LastSleep().value.DurationMinutes() > -60 ==>
      ParseHoursMinutes(s.LastSleepDurationFormatted()) == Some(s.LastSleep().value.DurationMinutes())
    ensures s.LastFeed().None? ==> s.LastFeedAmountFormatted() == "--"
    ensures s.LastFeed().Some? && s.LastFeed().value.feedType.Nursing? ==>
      ReadInt(s.LastFeedAmountFormatted()) == Some((s.LastFeed().value.feedType.durationMinutes, " min"))
    ensures s.LastFeed().Some? && s.LastFeed().value.feedType.Bottle? ==>
      ReadInt(s.LastFeedAmountFormatted()) == Some((TruncReal(s.LastFeed().value.feedType.amountOz), " oz"))
  {
    if s.LastSleep().Some? {
      HoursMinutesRoundTrip(s.LastSleep().value.DurationMinutes());
    }
    if s.LastFeed().Some? {
      ShortDescriptionReadsBack(s.LastFeed().value.feedType);
    }
  }

  // ----- The preview fixture -----

  /** An instant on the fixture's day, in seconds after its midnight. */
  function At(hour: int, minute: int): int {
    3600 * hour + 60 * minute
  }

  /** `Scenario.preview`: January 29, 2026 at 3:15 PM, with four bottles,
      three naps and the targets of a three-month-old. Identifiers are
      numbered and the birthdate is 104 days before the fixture's day. */
  function Preview(): Scenario {
    Scenario(
      Baby(0, "Kaia", -104 * 86400),
      At(15, 15),
      DayLog(0,
        [ FeedActivity(1, At(6, 50), Bottle(BreastMilk, 4.0)),
          FeedActivity(2, At(9, 0), Bottle(BreastMilk, 4.0)),
          FeedActivity(3, At(11, 25), Bottle(BreastMilk, 5.0)),
          FeedActivity(4, At(13, 50), Bottle(BreastMilk, 4.0)) ],
        [ SleepActivity(5, At(8, 2), At(8, 44)),
          SleepActivity(6, At(10, 19), At(10, 49)),
          SleepActivity(7, At(12, 55), At(13, 15)) ]),
      AgeTargets(ClosedRange(75, 90), ClosedRange(150, 180), ClosedRange(24, 32), ClosedRange(14, 17)))
  }

  /** What the preview screens show at 3:15 PM: the last feed at 1:50 PM
      was 85 minutes ago, the last nap ended two hours ago, so the wake
      window is exceeded and sleep is due but a feed is not. */
  lemma PreviewReadiness()
    ensures Preview().MinutesSinceLastFeed() == Some(85)
    ensures Preview().MinutesSinceLastWake() == Some(120)
    ensures Preview().IsWakeWindowExceeded() && Preview().IsSleepReady() && !Preview().IsFeedReady()
  {
    var s := Preview();
    assert s.LastFeed() == Some(s.today.feeds[3]);
    assert s.LastSleep() == Some(s.today.sleeps[2]);
  }

  /** The preview's naps total 92 minutes, the longest 42, and its bottles
      17 ounces. */
  lemma PreviewTotals()
    ensures Preview().TotalSleepMinutes() == 92
    ensures Preview().LongestSleepMinutes() == 42
    ensures Preview().TotalFeedOz() == 17.0
  {
    var s := Preview();
    var ds := Durations(s.today.sleeps);
    assert ds == [42, 30, 20];
    assert Sum(ds) == 92 by {
      assert ds[..2] == [42, 30] && ds[..1] == [42] && ds[..0] == [];
      assert Sum(ds[..1]) == 42 by { assert ds[..1][..0] == []; }
      assert Sum(ds[..2]) == 72 by { assert ds[..2][..1] == ds[..1]; }
      assert ds[..3 - 1] == ds[..2];
    }
    var fs := s.today.feeds;
    assert BottleOz(fs) == 17.0 by {
      assert BottleOz(fs[..1]) == 4.0 by { assert fs[..1][..0] == []; }
      assert BottleOz(fs[..2]) == 8.0 by { assert fs[..2][..1] == fs[..1]; }
      assert BottleOz(fs[..3]) == 13.0 by { assert fs[..3][..2] == fs[..2]; }
      assert fs[..4 - 1] == fs[..3];
    }
  }

  lemma PreviewDurations()
    ensures HoursMinutes(120) == "2h 0m"
    ensures HoursMinutes(85) + " ago" == "1h 25m ago"
    ensures HoursMinutes(92) == "1h 32m"
  {
    assert IntToString(2) == "2" && IntToString(0) == "0" && IntToString(1) == "1" by {
      assert DigitChar(2) == '2' && DigitChar(0) == '0' && DigitChar(1) == '1';
    }
    assert IntToString(25) == "25" by {
      assert DigitChar(2) == '2' && DigitChar(5) == '5';
      assert NatToString(25) == NatToString(2) + [DigitChar(5)];
    }
    assert IntToString(32) == "32" by {
      assert DigitChar(3) == '3' && DigitChar(2) == '2';
      assert NatToString(32) == NatToString(3) + [DigitChar(2)];
    }
    assert TruncDiv(120, 60) == 2 && TruncRem(120, 60) == 0;
    assert TruncDiv(85, 60) == 1 && TruncRem(85, 60) == 25;
    assert TruncDiv(92, 60) == 1 && TruncRem(92, 60) == 32;
  }

  /** The preview's texts: two hours awake, the last feed 1h 25m ago, 1h
      32m slept. */
  lemma PreviewTexts()
    ensures Preview().WakeWindowFormatted() == "2h 0m"
    ensures Preview().TimeSinceLastFeedFormatted() == "1h 25m ago"
    ensures Preview().TotalSleepFormatted() == "1h 32m"
  {
    PreviewReadiness();
    PreviewTotals();
    PreviewDurations();
    TextsOf(Preview(), 120, 85, 92);
  }

  /** The texts in terms of the minute counts they show. */
  lemma TextsOf(s: Scenario, awake: int, sinceFeed: int, slept: int)
    requires s.MinutesSinceLastWake() == Some(awake)
    requires s.MinutesSinceLastFeed() == Some(sinceFeed)
    requires s.TotalSleepMinutes() == slept
    ensures s.WakeWindowFormatted() == HoursMinutes(awake)
    ensures s.TimeSinceLastFeedFormatted() == HoursMinutes(sinceFeed) + " ago"
    ensures s.TotalSleepFormatted() == HoursMinutes(slept)
  {
  }
}
