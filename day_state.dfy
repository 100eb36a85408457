/** What the day engine answers: where the day stands (nine states) and,
    independently, where feeding stands (five states), bundled with the
    quantities the answer was derived from. All three are plain values, so
    equal inputs give equal snapshots. Minute counts are whole minutes;
    instants are seconds. */
module DayStates {
  import opened Basics
  import opened AgeTables

  datatype DayState =
    /** Nothing logged today and no wake time given. */
    | NotStarted
    /** Awake, not yet into the current wake window. */
    | AwakeEarly(wakeMinutes: int, windowRange: ClosedRange)
    /** Awake and inside the current wake window: a nap is due. */
    | AwakeApproaching(wakeMinutes: int, windowRange: ClosedRange)
    /** Awake past the current wake window. */
    | AwakeBeyond(wakeMinutes: int, windowRange: ClosedRange)
    /** Napping, the nap cutoff more than half an hour away. */
    | SleepingNoPressure(sleepMinutes: int, minutesUntilCutoff: int)
    /** Napping, the nap cutoff within half an hour. */
    | SleepingApproachingCutoff(sleepMinutes: int, minutesUntilCutoff: int)
    /** Napping at or past the nap cutoff. */
    | SleepingMustEnd(sleepMinutes: int, minutesPastCutoff: int)
    /** Awake past the nap cutoff: no more naps today. */
    | NapWindowClosed(wakeMinutes: int, minutesToBedtime: int)
    /** Within half an hour of bedtime, or past it. */
    | BedtimeWindow(minutesToBedtime: int)

  datatype FeedState =
    | NoFeedsYet
    | RecentlyFed(minutesAgo: int)
    | Approaching(minutesAgo: int, intervalRange: ClosedRange)
    | Ready(minutesAgo: int, intervalRange: ClosedRange)
    | FeedingNow(startedMinutesAgo: int)

  /** The engine's output. `napCutoff` and `bedtime` are instants;
      `wakeTime` is the manual wake time the caller passed in, echoed back. */
  datatype DaySnapshot = DaySnapshot(
    dayState: DayState,
    feedState: FeedState,
    completedNaps: int,
    totalFeedCount: int,
    napCutoff: int,
    bedtime: int,
    ageTable: AgeTable,
    wakeTime: Option<int>)
}
