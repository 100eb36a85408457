/** The two kinds of logged event, as the persistent store keeps them: a sleep
    (start, optional end) and a feed (start, optional end, and the feed's kind,
    bottle source, amount and nursing side stored as raw strings). Both are
    objects: the activity manager ends, resumes and edits them in place. */
module Events {
  import opened Basics
  import opened Text

  /** How a feed was given. */
  datatype FeedKind = Bottle | Nursing {
    function RawValue(): string {
      match this
      case Bottle => "bottle"
      case Nursing => "nursing"
    }
  }

  /** What a bottle held. */
  datatype BottleSource = BreastMilk | Formula {
    function RawValue(): string {
      match this
      case BreastMilk => "breastMilk"
      case Formula => "formula"
    }
  }

  /** Which side a nursing feed used. */
  datatype NursingSide = Left | Right | Both {
    function RawValue(): string {
      match this
      case Left => "left"
      case Right => "right"
      case Both => "both"
    }
  }

  /** `FeedKind(rawValue:)`: the kind whose raw value is `s`, if any. */
  function ParseFeedKind(s: string): (k: Option<FeedKind>)
    ensures k.Some? ==> k.value.RawValue() == s
  {
    if s == "bottle" then Some(Bottle)
    else if s == "nursing" then Some(Nursing)
    else None
  }

  /** `BottleSource(rawValue:)` */
  function ParseBottleSource(s: string): (b: Option<BottleSource>)
    ensures b.Some? ==> b.value.RawValue() == s
  {
    if s == "breastMilk" then Some(BreastMilk)
    else if s == "formula" then Some(Formula)
    else None
  }

  /** `NursingSide(rawValue:)` */
  function ParseNursingSide(s: string): (n: Option<NursingSide>)
    ensures n.Some? ==> n.value.RawValue() == s
  {
    if s == "left" then Some(Left)
    else if s == "right" then Some(Right)
    else if s == "both" then Some(Both)
    else None
  }

  /** Every kind's raw value parses back to that kind; with the parser's own
      contract, a string parses exactly when it is some kind's raw value. */
  lemma FeedKindRoundTrip(k: FeedKind)
    ensures ParseFeedKind(k.RawValue()) == Some(k)
  {
  }

  lemma BottleSourceRoundTrip(b: BottleSource)
    ensures ParseBottleSource(b.RawValue()) == Some(b)
  {
  }

  lemma NursingSideRoundTrip(n: NursingSide)
    ensures ParseNursingSide(n.RawValue()) == Some(n)
  {
  }

  /** What the day engine reads of a sleep: its start and optional end. */
  datatype SleepRecord = SleepRecord(startTime: int, endTime: Option<int>) {
    predicate IsActive() {
      endTime.None?
    }
  }

  /** What the day engine reads of a feed: its start, optional end and kind
      (an unknown stored kind already read as a bottle). */
  datatype FeedRecord = FeedRecord(startTime: int, endTime: Option<int>, kind: FeedKind)

  /** A logged sleep; it is in progress while it has no end. */
  class SleepEvent {
    var startTime: int
    var endTime: Option<int>

    constructor (startTime: int, endTime: Option<int>)
      ensures this.startTime == startTime && this.endTime == endTime
    {
      this.startTime := startTime;
      this.endTime := endTime;
    }

    predicate IsActive()
      reads this
    {
      endTime.None?
    }

    /** The fields the day engine reads. */
    function Record(): SleepRecord
      reads this
    {
      SleepRecord(startTime, endTime)
    }

    /** Whole minutes slept, never negative; no value while the sleep is in
        progress. */
    function DurationMinutes(): (m: Option<int>)
      reads this
      ensures m.None? <==> IsActive()
      ensures m.Some? ==> m.value == ClampedMinutes(startTime, endTime.value)
    {
      match endTime
      case None => None
      case Some(end) => Some(ClampedMinutes(startTime, end))
    }

    /** "—" while in progress, otherwise the duration as "{h}h {m}m" or
        "{m}m"; reading the text back gives the duration in minutes. */
    function DurationDescription(): (s: string)
      reads this
      ensures IsActive() ==> s == "—"
      ensures !IsActive() ==> ParseHoursMinutes(s) == DurationMinutes()
    {
      match DurationMinutes()
      case None => "—"
      case Some(mins) => HoursMinutesRoundTrip(mins); HoursMinutes(mins)
    }
  }

  /** A logged feed. Kind, source and side are stored as raw strings, so a
      stored value the enums do not know is possible and reads as the
      default. */
  class FeedEvent {
    var startTime: int
    var endTime: Option<int>
    var feedKind: string
    var bottleSource: string
    var amountOz: real
    var nursingSide: string

    constructor (startTime: int, endTime: Option<int>, kind: FeedKind, source: BottleSource,
                 amountOz: real, side: NursingSide)
      ensures this.startTime == startTime && this.endTime == endTime && this.amountOz == amountOz
      ensures feedKind == kind.RawValue() && bottleSource == source.RawValue()
      ensures nursingSide == side.RawValue()
      ensures Kind() == kind && Source() == source && Side() == side
    {
      this.startTime := startTime;
      this.endTime := endTime;
      this.feedKind := kind.RawValue();
      this.bottleSource := source.RawValue();
      this.amountOz := amountOz;
      this.nursingSide := side.RawValue();
      FeedKindRoundTrip(kind);
      BottleSourceRoundTrip(source);
      NursingSideRoundTrip(side);
    }

    /** The stored kind; an unknown raw string reads as a bottle. */
    function Kind(): (k: FeedKind)
      reads this
      ensures k.RawValue() == feedKind || (k == Bottle && ParseFeedKind(feedKind).None?)
    {
      ParseFeedKind(feedKind).GetOr(Bottle)
    }

    /** The stored bottle source; an unknown raw string reads as breast milk. */
    function Source(): (b: BottleSource)
      reads this
      ensures b.RawValue() == bottleSource || (b == BreastMilk && ParseBottleSource(bottleSource).None?)
    {
      ParseBottleSource(bottleSource).GetOr(BreastMilk)
    }

    /** The stored nursing side; an unknown raw string reads as both. */
    function Side(): (n: NursingSide)
      reads this
      ensures n.RawValue() == nursingSide || (n == Both && ParseNursingSide(nursingSide).None?)
    {
      ParseNursingSide(nursingSide).GetOr(Both)
    }

    /** Everything the feed records but its end: start, kind, source,
        amount and side. */
    function Details(): (int, string, string, real, string)
      reads this`startTime, this`feedKind, this`bottleSource, this`amountOz, this`nursingSide
    {
      (startTime, feedKind, bottleSource, amountOz, nursingSide)
    }

    /** The kind setter: stores the raw value, so the getter reads it back. */
    method SetKind(k: FeedKind)
      modifies this`feedKind
      ensures feedKind == k.RawValue() && Kind() == k
    {
      feedKind := k.RawValue();
      FeedKindRoundTrip(k);
    }

    method SetSource(b: BottleSource)
      modifies this`bottleSource
      ensures bottleSource == b.RawValue() && Source() == b
    {
      bottleSource := b.RawValue();
      BottleSourceRoundTrip(b);
    }

    method SetSide(n: NursingSide)
      modifies this`nursingSide
      ensures nursingSide == n.RawValue() && Side() == n
    {
      nursingSide := n.RawValue();
      NursingSideRoundTrip(n);
    }

    predicate IsActive()
      reads this
    {
      endTime.None?
    }

    /** The fields the day engine reads. */
    function Record(): FeedRecord
      reads this
    {
      FeedRecord(startTime, endTime, Kind())
    }

    /** Whole minutes the feed lasted, never negative; no value while it is
        in progress. */
    function DurationMinutes(): (m: Option<int>)
      reads this
      ensures m.None? <==> IsActive()
      ensures m.Some? ==> m.value == ClampedMinutes(startTime, endTime.value)
    {
      match endTime
      case None => None
      case Some(end) => Some(ClampedMinutes(startTime, end))
    }

    /** "{n} oz" for a bottle (the amount truncated to a whole ounce),
        "{n} min" for nursing (zero while the feed is in progress); the
        number reads back from the front of the text. */
    function ShortDescription(): (s: string)
      reads this
      ensures Kind() == Nursing ==> ReadInt(s) == Some((DurationMinutes().GetOr(0), " min"))
      ensures Kind() == Nursing && IsActive() ==> s == "0 min"
      ensures Kind() == Bottle ==> ReadInt(s) == Some((TruncReal(amountOz), " oz"))
    {
      match Kind()
      case Bottle =>
        ReadIntOfIntToString(TruncReal(amountOz), " oz");
        IntToString(TruncReal(amountOz)) + " oz"
      case Nursing =>
        ReadIntOfIntToString(DurationMinutes().GetOr(0), " min");
        IntToString(DurationMinutes().GetOr(0)) + " min"
    }
  }
}
