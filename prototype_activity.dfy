/** The value model of the preview app (`Activity.swift`, present in two
    copies): the baby's age text and age bracket, the kinds of feed, logged
    feeds and sleeps, the unified timeline entry and a day's log sorted
    newest first. Identifiers are plain numbers and instants whole seconds;
    the baby's age in days comes from the calendar and is passed in. */
module Prototype {
  import opened Basics
  import opened Text

  // ----- Baby -----

  datatype Baby = Baby(id: nat, name: string, birthdate: int)

  /** `ageDescription`: months = days / 30 and days = days % 30 (both
      truncating), written "{m} month(s), {d} day(s)" when there is at least
      one month, else "{d} day(s)". */
  function AgeDescription(ageInDays: int): string {
    var months := TruncDiv(ageInDays, 30);
    var days := TruncRem(ageInDays, 30);
    if months > 0 then CountText(months, "month") + ", " + CountText(days, "day")
    else CountText(days, "day")
  }

  /** Reads "{m} month(s), {d} day(s)" or "{d} day(s)" back to days. */
  function ParseAgeDescription(s: string): Option<int> {
    match ReadCount(s, "month")
    case Some((m, rest)) => ParseDaysAfterMonths(m, rest)
    case None => ReadDaysExactly(s)
  }

  /** The ", {d} day(s)" that follows a month count. */
  function ParseDaysAfterMonths(m: int, rest: string): Option<int> {
    if |rest| >= 2 && rest[..2] == ", " then
      match ReadDaysExactly(rest[2..])
      case Some(d) => Some(30 * m + d)
      case None => None
    else None
  }

  /** "{d} day(s)" and nothing after it. */
  function ReadDaysExactly(s: string): Option<int> {
    match ReadCount(s, "day")
    case Some((d, tail)) => if tail == [] then Some(d) else None
    case None => None
  }

  /** `ParseAgeDescription` in terms of what its two reads find. */
  lemma ReadMonthsThenDays(s: string, rest: string, m: int, d: int)
    requires ReadCount(s, "month") == Some((m, ", " + rest))
    requires ReadCount(rest, "day") == Some((d, []))
    ensures ParseAgeDescription(s) == Some(30 * m + d)
  {
    var t := ", " + rest;
    assert |t| >= 2 && t[..2] == ", " && t[2..] == rest;
    assert ReadDaysExactly(rest) == Some(d);
    assert ParseDaysAfterMonths(m, t) == Some(30 * m + d);
  }

  /** A days-only text is not mistaken for a month count. */
  lemma ReadDaysOnly(d: int)
    ensures ParseAgeDescription(CountText(d, "day")) == Some(d)
  {
    var s := CountText(d, "day");
    var rest := " day" + Plural(d);
    assert s == IntToString(d) + rest;
    ReadIntOfIntToString(d, rest);
    assert |" month" + Plural(d)| > |rest|;
    ReadCountOfCountText(d, "day", []);
    assert s + [] == s;
  }

  /** Reading back "{m} month(s), {d} day(s)". */
  lemma ReadMonthsAndDays(m: int, d: int)
    ensures ParseAgeDescription(CountText(m, "month") + ", " + CountText(d, "day")) == Some(30 * m + d)
  {
    var rest := CountText(d, "day");
    var s := CountText(m, "month") + ", " + rest;
    assert s == CountText(m, "month") + (", " + rest);
    ReadCountOfCountText(m, "month", ", " + rest);
    ReadCountOfCountText(d, "day", []);
    assert rest + [] == rest;
    ReadMonthsThenDays(s, rest, m, d);
  }

  /** Reading the age text back gives the age, for every age above -30
      days; from -30 down only the remainder is printed. */
  lemma AgeDescriptionRoundTrip(ageInDays: int)
    ensures ParseAgeDescription(AgeDescription(ageInDays))
         == Some(if ageInDays <= -30 then TruncRem(ageInDays, 30) else ageInDays)
  {
    var months := TruncDiv(ageInDays, 30);
    var days := TruncRem(ageInDays, 30);
    if months > 0 {
      ReadMonthsAndDays(months, days);
    } else {
      ReadDaysOnly(days);
      assert -30 < ageInDays ==> months == 0;
    }
  }

  lemma SmallNumbers()
    ensures IntToString(0) == "0" && IntToString(1) == "1" && IntToString(3) == "3"
    ensures IntToString(14) == "14"
  {
    assert DigitChar(0) == '0' && DigitChar(1) == '1' && DigitChar(3) == '3' && DigitChar(4) == '4';
    assert NatToString(14) == NatToString(1) + [DigitChar(4)];
  }

  /** The preview baby's age, and the singular forms. */
  lemma AgeDescriptionExamples()
    ensures AgeDescription(104) == "3 months, 14 days"
    ensures AgeDescription(31) == "1 month, 1 day"
    ensures AgeDescription(1) == "1 day"
    ensures AgeDescription(0) == "0 days"
  {
    SmallNumbers();
    assert TruncDiv(104, 30) == 3 && TruncRem(104, 30) == 14;
    assert TruncDiv(31, 30) == 1 && TruncRem(31, 30) == 1;
  }

  // ----- Age bracket -----

  datatype AgeBracket = Newborn | Infant1 | Infant2 | Infant3 | Infant4 | Infant5 {
    /** Position in age order. */
    function Index(): nat {
      match this
      case Newborn => 0
      case Infant1 => 1
      case Infant2 => 2
      case Infant3 => 3
      case Infant4 => 4
      case Infant5 => 5
    }

    /** The ages, in days, each bracket is chosen for; the last bracket is
        the fallback and has no range of its own. */
    function Days(): Option<HalfOpenRange> {
      match this
      case Newborn => Some(HalfOpenRange(0, 30))
      case Infant1 => Some(HalfOpenRange(30, 60))
      case Infant2 => Some(HalfOpenRange(60, 120))
      case Infant3 => Some(HalfOpenRange(120, 180))
      case Infant4 => Some(HalfOpenRange(180, 270))
      case Infant5 => None
    }

    /** `dailyIntakeOz`: a well-formed range, between 14 and 36 ounces. */
    function DailyIntakeOz(): (r: ClosedRange)
      ensures r.Valid() && 14 <= r.lo && r.hi <= 36
    {
      match this
      case Newborn => ClosedRange(14, 24)
      case Infant1 => ClosedRange(18, 28)
      case Infant2 => ClosedRange(24, 32)
      case Infant3 => ClosedRange(24, 36)
      case Infant4 => ClosedRange(24, 32)
      case Infant5 => ClosedRange(20, 28)
    }

    /** `dailySleepHours`: a well-formed range, between 12 and 17 hours. */
    function DailySleepHours(): (r: ClosedRange)
      ensures r.Valid() && 12 <= r.lo && r.hi <= 17
    {
      match this
      case Newborn => ClosedRange(14, 17)
      case Infant1 => ClosedRange(14, 17)
      case Infant2 => ClosedRange(14, 16)
      case Infant3 => ClosedRange(12, 16)
      case Infant4 => ClosedRange(12, 15)
      case Infant5 => ClosedRange(12, 14)
    }

    /** `nursingOzPerMinute`: 0.1 for a newborn, 0.15 in the second month,
        0.2 after; the `Double` read as an exact real. */
    function NursingOzPerMinute(): (r: real)
      ensures 0.1 <= r <= 0.2
    {
      match this
      case Newborn => 0.1
      case Infant1 => 0.15
      case _ => 0.2
    }
  }

  /** `AgeBracket(ageInDays:)`: the bracket whose day range holds the age;
      anything outside 0..<270, negative ages included, is the last
      bracket. */
  function BracketForAge(ageInDays: int): (b: AgeBracket)
    ensures b.Days().Some? ==> b.Days().value.Contains(ageInDays)
    ensures b.Days().None? <==> ageInDays < 0 || 270 <= ageInDays
  {
    if 0 <= ageInDays < 30 then Newborn
    else if 30 <= ageInDays < 60 then Infant1
    else if 60 <= ageInDays < 120 then Infant2
    else if 120 <= ageInDays < 180 then Infant3
    else if 180 <= ageInDays < 270 then Infant4
    else Infant5
  }

  /** Each bracket is chosen for exactly the ages in its range. */
  lemma BracketForAgeExactly(ageInDays: int, b: AgeBracket)
    requires b.Days().Some?
    ensures BracketForAge(ageInDays) == b <==> b.Days().value.Contains(ageInDays)
  {
  }

  /** An older baby never falls in an earlier bracket. */
  lemma BracketForAgeMonotone(d1: int, d2: int)
    requires 0 <= d1 <= d2
    ensures BracketForAge(d1).Index() <= BracketForAge(d2).Index()
  {
  }

  /** Sleep needs never grow with age, and the nursing rate never shrinks. */
  lemma OlderBracketTrends(a: AgeBracket, b: AgeBracket)
    requires a.Index() <= b.Index()
    ensures b.DailySleepHours().lo <= a.DailySleepHours().lo
    ensures b.DailySleepHours().hi <= a.DailySleepHours().hi
    ensures a.NursingOzPerMinute() <= b.NursingOzPerMinute()
  {
  }

  /** The recommended targets a screen compares against. */
  datatype AgeTargets = AgeTargets(
    wakeWindowMinutes: ClosedRange,
    feedIntervalMinutes: ClosedRange,
    dailyIntakeOz: ClosedRange,
    dailySleepHours: ClosedRange)

  // ----- Feed types -----

  datatype BottleSource = BreastMilk | Formula {
    function RawValue(): string {
      match this
      case BreastMilk => "Breast milk"
      case Formula => "Formula"
    }
  }

  datatype NursingSide = Left | Right | Both {
    function RawValue(): string {
      match this
      case Left => "Left"
      case Right => "Right"
      case Both => "Both"
    }
  }

  function LowerChar(c: char): char {
    if 'A' <= c <= 'Z' then (c as int + 32) as char else c
  }

  /** `lowercased()` on the ASCII letters the raw values use. */
  function Lowercased(s: string): (r: string)
    ensures |r| == |s| && forall i :: 0 <= i < |s| ==> r[i] == LowerChar(s[i])
  {
    seq(|s|, i requires 0 <= i < |s| => LowerChar(s[i]))
  }

  /** A feed: a bottle of some ounces, or nursing for some minutes. Ounces
      are the app's `Double` read as an exact real. */
  datatype FeedType = Bottle(source: BottleSource, amountOz: real) | Nursing(side: NursingSide, durationMinutes: int) {
    /** `shortDescription`: "{Int(oz)} oz" or "{mins} min". */
    function ShortDescription(): string {
      match this
      case Bottle(_, oz) => IntToString(TruncReal(oz)) + " oz"
      case Nursing(_, mins) => IntToString(mins) + " min"
    }

    /** `displayDescription`: the bottle's source, or "Nursing" and the lower-cased
        side, then a bullet and the short description. */
    function DisplayDescription(): (s: string)
      ensures Bottle? ==> s == source.RawValue() + " • " + ShortDescription()
      ensures Nursing? ==> s == "Nursing " + Lowercased(side.RawValue()) + " • " + ShortDescription()
    {
      match this
      case Bottle(src, oz) => src.RawValue() + " • " + IntToString(TruncReal(oz)) + " oz"
      case Nursing(sd, mins) => "Nursing " + Lowercased(sd.RawValue()) + " • " + IntToString(mins) + " min"
    }

    /** `actualOz`: the measured amount of a bottle; nursing has none. */
    function ActualOz(): (r: Option<real>)
      ensures r.None? <==> Nursing?
      ensures r.Some? ==> r.value == amountOz
    {
      match this
      case Bottle(_, oz) => Some(oz)
      case Nursing(_, _) => None
    }

    /** `isEstimate`: exactly the feeds without a measured amount. */
    predicate IsEstimate(): (b: bool)
      ensures b <==> ActualOz().None?
    {
      match this
      case Bottle(_, _) => false
      case Nursing(_, _) => true
    }

    /** `estimatedOz(for:)`: the measured amount when there is one, else the
        nursing minutes at the bracket's rate. */
    function EstimatedOz(bracket: AgeBracket): (oz: real)
      ensures ActualOz().Some? ==> oz == ActualOz().value
      ensures IsEstimate() && durationMinutes >= 0 ==>
        durationMinutes as real * 0.1 <= oz <= durationMinutes as real * 0.2
    {
      match this
      case Bottle(_, oz) => oz
      case Nursing(_, mins) => mins as real * bracket.NursingOzPerMinute()
    }
  }

  /** The same nursing session is estimated at no less for an older baby:
      the bracket moves forward with age and the rate never drops. */
  lemma NursingEstimateGrowsWithAge(side: NursingSide, mins: int, d1: int, d2: int)
    requires mins >= 0 && 0 <= d1 <= d2
    ensures Nursing(side, mins).EstimatedOz(BracketForAge(d1)) <= Nursing(side, mins).EstimatedOz(BracketForAge(d2))
  {
    var a, b := BracketForAge(d1), BracketForAge(d2);
    BracketForAgeMonotone(d1, d2);
    OlderBracketTrends(a, b);
    MulMonotone(mins as real, a.NursingOzPerMinute(), b.NursingOzPerMinute());
  }

  lemma MulMonotone(x: real, r1: real, r2: real)
    requires x >= 0.0 && r1 <= r2
    ensures x * r1 <= x * r2
  {
    assert x * r2 - x * r1 == x * (r2 - r1);
  }

  /** A nursing estimate adds up minute by minute: splitting a session
      splits its estimate, for every bracket. */
  lemma NursingEstimateAdds(side: NursingSide, m1: int, m2: int, bracket: AgeBracket)
    ensures Nursing(side, m1 + m2).EstimatedOz(bracket)
         == Nursing(side, m1).EstimatedOz(bracket) + Nursing(side, m2).EstimatedOz(bracket)
  {
    var r := bracket.NursingOzPerMinute();
    assert (m1 + m2) as real * r == m1 as real * r + m2 as real * r;
  }

  /** The number in a short description reads back from the front of the
      text: the whole ounces of a bottle, the minutes of nursing. */
  lemma ShortDescriptionReadsBack(t: FeedType)
    ensures t.Bottle? ==> ReadInt(t.ShortDescription()) == Some((TruncReal(t.amountOz), " oz"))
    ensures t.Nursing? ==> ReadInt(t.ShortDescription()) == Some((t.durationMinutes, " min"))
  {
    match t
    case Bottle(_, oz) => ReadIntOfIntToString(TruncReal(oz), " oz");
    case Nursing(_, mins) => ReadIntOfIntToString(mins, " min");
  }

  /** Lower-casing a side's raw value gives the word the nursing label
      shows. */
  lemma LowercasedSides()
    ensures Lowercased(Left.RawValue()) == "left"
    ensures Lowercased(Right.RawValue()) == "right"
    ensures Lowercased(Both.RawValue()) == "both"
  {
    var l, r, b := Lowercased("Left"), Lowercased("Right"), Lowercased("Both");
    assert l == "left" by {
      assert |l| == 4 && l[0] == LowerChar('L') == 'l';
    }
    assert r == "right" by {
      assert |r| == 5 && r[0] == LowerChar('R') == 'r';
    }
    assert b == "both" by {
      assert |b| == 4 && b[0] == LowerChar('B') == 'b';
    }
  }

  /** The display text is a label, a bullet and the short description: the
      label names the bottle's source, or says "Nursing" and the side in
      lower case; the number after the bullet reads back as the whole
      ounces or the minutes. */
  lemma DisplayDescriptionReadsBack(t: FeedType)
    ensures t.Bottle? ==>
      (var head := t.source.RawValue() + " • ";
       var d := t.DisplayDescription();
       |head| <= |d| && d[..|head|] == head
       && ReadInt(d[|head|..]) == Some((TruncReal(t.amountOz), " oz")))
    ensures t.Nursing? ==>
      (var word := (match t.side case Left => "left" case Right => "right" case Both => "both");
       var head := "Nursing " + word + " • ";
       var d := t.DisplayDescription();
       |head| <= |d| && d[..|head|] == head
       && ReadInt(d[|head|..]) == Some((t.durationMinutes, " min")))
  {
    ShortDescriptionReadsBack(t);
    LowercasedSides();
    var d := t.DisplayDescription();
    match t
    case Bottle(src, oz) =>
      var head := src.RawValue() + " • ";
      assert d == head + t.ShortDescription();
      assert d[|head|..] == t.ShortDescription();
    case Nursing(sd, mins) =>
      var head := "Nursing " + Lowercased(sd.RawValue()) + " • ";
      assert d == head + t.ShortDescription();
      assert d[|head|..] == t.ShortDescription();
  }

  lemma BottleDisplayExample()
    ensures Bottle(BreastMilk, 4.5).DisplayDescription() == "Breast milk • 4 oz"
  {
    assert IntToString(TruncReal(4.5)) == "4" by {
      assert TruncReal(4.5) == 4;
      assert DigitChar(4) == '4';
    }
  }

  lemma NursingDisplayExample()
    ensures Nursing(Left, 12).DisplayDescription() == "Nursing left • 12 min"
  {
    assert IntToString(12) == "12" by {
      assert DigitChar(1) == '1' && DigitChar(2) == '2';
      assert NatToString(12) == NatToString(1) + [DigitChar(2)];
    }
    LowercasedSides();
  }

  // ----- Activities -----

  datatype FeedActivity = FeedActivity(id: nat, startTime: int, feedType: FeedType)

  datatype SleepActivity = SleepActivity(id: nat, startTime: int, endTime: int) {
    /** `durationMinutes`: whole minutes from start to end, truncated toward
        zero and not clamped, so an end before the start gives a negative
        count. */
    function DurationMinutes(): (m: int)
      ensures startTime <= endTime ==> 0 <= m && 60 * m <= endTime - startTime < 60 * m + 60
      ensures endTime < startTime ==> m <= 0
    {
      Minutes(endTime - startTime)
    }

    /** `durationDescription`: "{h}h {m}m" or "{m}m". */
    function DurationDescription(): string {
      HoursMinutes(DurationMinutes())
    }
  }

  /** A timeline entry. */
  datatype Activity = Feed(feed: FeedActivity) | Sleep(sleep: SleepActivity) {
    function Id(): nat {
      match this
      case Feed(f) => f.id
      case Sleep(s) => s.id
    }

    function Timestamp(): int {
      match this
      case Feed(f) => f.startTime
      case Sleep(s) => s.startTime
    }

    function Icon(): string {
      match this
      case Feed(_) => "drop.fill"
      case Sleep(_) => "moon.zzz.fill"
    }

    function Title(): string {
      match this
      case Feed(_) => "Feed"
      case Sleep(_) => "Sleep"
    }

    /** `detail`: the feed's short description, or the sleep's duration. */
    function Detail(): string {
      match this
      case Feed(f) => f.feedType.ShortDescription()
      case Sleep(s) => s.DurationDescription()
    }
  }

  /** The icon and the title each tell feeds from sleeps: two entries share
      them exactly when they are of the same kind. */
  lemma IconTitleTellKinds(a: Activity, b: Activity)
    ensures a.Icon() == b.Icon() <==> a.Feed? == b.Feed?
    ensures a.Title() == b.Title() <==> a.Feed? == b.Feed?
    ensures a.Icon() != "" && a.Title() != ""
  {
  }

  /** A timeline entry's detail reads back to what it summarises: a feed's
      amount or minutes, a sleep's duration whenever that is above -60
      minutes. */
  lemma DetailReadsBack(a: Activity)
    ensures a.Feed? && a.feed.feedType.Bottle?
        ==> ReadInt(a.Detail()) == Some((TruncReal(a.feed.feedType.amountOz), " oz"))
    ensures a.Feed? && a.feed.feedType.Nursing?
        ==> ReadInt(a.Detail()) == Some((a.feed.feedType.durationMinutes, " min"))
    ensures a.Sleep? && a.sleep.DurationMinutes() > -60
        ==> ParseHoursMinutes(a.Detail()) == Some(a.sleep.DurationMinutes())
  {
    match a
    case Feed(f) => ShortDescriptionReadsBack(f.feedType);
    case Sleep(s) => HoursMinutesRoundTrip(s.DurationMinutes());
  }

  function FeedItems(feeds: seq<FeedActivity>): seq<Activity> {
    seq(|feeds|, i requires 0 <= i < |feeds| => Feed(feeds[i]))
  }

  function SleepItems(sleeps: seq<SleepActivity>): seq<Activity> {
    seq(|sleeps|, i requires 0 <= i < |sleeps| => Sleep(sleeps[i]))
  }

  /** Each entry keyed by its negated timestamp, so that ascending keys are
      newest first. */
  function NewestFirstKeys(xs: seq<Activity>): seq<(int, Activity)> {
    seq(|xs|, i requires 0 <= i < |xs| => (-xs[i].Timestamp(), xs[i]))
  }

  /** One day's feeds and sleeps. */
  datatype DayLog = DayLog(date: int, feeds: seq<FeedActivity>, sleeps: seq<SleepActivity>) {
    /** `allActivities`: the feeds then the sleeps, wrapped, sorted by
        timestamp with the newest first. */
    function AllActivities(): seq<Activity> {
      Values(SortByKey(NewestFirstKeys(FeedItems(feeds) + SleepItems(sleeps))))
    }
  }

  /** The timeline holds exactly the day's feeds and sleeps, each once, with
      the timestamps never increasing down the list; a feed's or a sleep's
      timestamp is its start. */
  lemma AllActivitiesNewestFirst(log: DayLog)
    ensures var r := log.AllActivities();
      && multiset(r) == multiset(FeedItems(log.feeds) + SleepItems(log.sleeps))
      && |r| == |log.feeds| + |log.sleeps|
      && (forall i, j :: 0 <= i < j < |r| ==> r[i].Timestamp() >= r[j].Timestamp())
  {
    var xs := FeedItems(log.feeds) + SleepItems(log.sleeps);
    var keyed := NewestFirstKeys(xs);
    var sorted := SortByKey(keyed);
    var r := log.AllActivities();
    SortByKeySorts(keyed);
    SortByKeyValues(keyed);
    ValuesAt(keyed);
    assert Values(keyed) == xs;
    ValuesAt(sorted);
    assert |r| == |xs| by {
      assert |multiset(r)| == |multiset(xs)|;
    }
    forall i | 0 <= i < |sorted|
      ensures sorted[i].0 == -r[i].Timestamp()
    {
      assert sorted[i] in multiset(keyed);
    }
  }

  /** An entry is on the timeline exactly when it wraps one of the day's
      feeds or sleeps. */
  lemma AllActivitiesContents(log: DayLog, a: Activity)
    ensures a in log.AllActivities()
        <==> (a.Feed? && a.feed in log.feeds) || (a.Sleep? && a.sleep in log.sleeps)
  {
    AllActivitiesNewestFirst(log);
    var xs := FeedItems(log.feeds) + SleepItems(log.sleeps);
    assert a in log.AllActivities() <==> a in multiset(xs);
    if a.Feed? && a.feed in log.feeds {
      var i :| 0 <= i < |log.feeds| && log.feeds[i] == a.feed;
      assert xs[i] == a;
    }
    if a.Sleep? && a.sleep in log.sleeps {
      var i :| 0 <= i < |log.sleeps| && log.sleeps[i] == a.sleep;
      assert xs[|log.feeds| + i] == a;
    }
  }
}
