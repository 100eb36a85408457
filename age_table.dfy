/** The age-based targets the day engine classifies against: five contiguous
    age brackets, each with progressive wake windows, a feed interval and
    daily targets, and the lookup that picks a bracket for an age in days. */
module AgeTables {
  import opened Basics

  /** One age bracket. `wakeWindows[i]` (minutes) is the wake window after
      `i` completed naps; the last entry is the bedtime wake window. */
  datatype AgeTable = AgeTable(
    ageLabel: string,
    ageRangeDays: HalfOpenRange,
    typicalNapsPerDay: ClosedRange,
    wakeWindows: seq<ClosedRange>,
    feedIntervalMinutes: ClosedRange,
    expectedFeedsPerDay: ClosedRange)
  {
    /** The wake window for the given number of completed naps; a count past
        the last slot reads the last (bedtime) window. An empty window list
        would make the app index out of bounds. */
    function CurrentWakeWindow(completedNaps: nat): (w: ClosedRange)
      requires |wakeWindows| > 0
      ensures w in wakeWindows
      ensures completedNaps < |wakeWindows| ==> w == wakeWindows[completedNaps]
      ensures completedNaps >= |wakeWindows| - 1 ==> w == LastWakeWindow()
    {
      wakeWindows[Min(completedNaps, |wakeWindows| - 1)]
    }

    /** The last wake window, the one that ends at bedtime. */
    function LastWakeWindow(): ClosedRange
      requires |wakeWindows| > 0
    {
      wakeWindows[|wakeWindows| - 1]
    }

    /** Daily intake target in ounces, chosen by the bracket's first day. */
    function DailyIntakeOz(): (r: ClosedRange)
      ensures r.Valid()
      ensures 14 <= r.lo && r.hi <= 36
      ensures r.Contains(24)
    {
      var d := ageRangeDays.lo;
      if 0 <= d < 60 then ClosedRange(14, 28)
      else if 60 <= d < 120 then ClosedRange(24, 32)
      else if 120 <= d < 210 then ClosedRange(24, 36)
      else if 210 <= d < 300 then ClosedRange(24, 32)
      else ClosedRange(20, 28)
    }

    /** Daily sleep target in hours, chosen by the bracket's first day. */
    function DailySleepHours(): (r: ClosedRange)
      ensures r.Valid()
      ensures 12 <= r.lo && r.hi <= 17
    {
      var d := ageRangeDays.lo;
      if 0 <= d < 120 then ClosedRange(14, 17)
      else if 120 <= d < 210 then ClosedRange(12, 16)
      else ClosedRange(12, 15)
    }

    /** What every bracket of the table satisfies: its ranges are well formed,
        there is a first and a last wake window, feeds are spaced and expected,
        and at least one nap is typical. */
    predicate WellFormed() {
      ageRangeDays.lo < ageRangeDays.hi
      && typicalNapsPerDay.Valid() && typicalNapsPerDay.lo >= 1
      && |wakeWindows| >= 2
      && (forall i :: 0 <= i < |wakeWindows| ==> wakeWindows[i].Valid() && wakeWindows[i].lo > 0)
      && feedIntervalMinutes.Valid() && feedIntervalMinutes.lo > 0
      && expectedFeedsPerDay.Valid() && expectedFeedsPerDay.lo > 0
    }

    /** Wake windows never shrink through the day: both bounds are
        non-decreasing from one window to the next. */
    predicate Progressive() {
      forall i :: 0 <= i < |wakeWindows| - 1 ==>
        wakeWindows[i].lo <= wakeWindows[i + 1].lo && wakeWindows[i].hi <= wakeWindows[i + 1].hi
    }
  }

  /** The five brackets, youngest first. */
  function AllTables(): seq<AgeTable> {
    [ AgeTable("0-2 months", HalfOpenRange(0, 60), ClosedRange(4, 5),
               [ClosedRange(45, 60), ClosedRange(45, 60), ClosedRange(45, 60),
                ClosedRange(45, 60), ClosedRange(45, 60)],
               ClosedRange(120, 180), ClosedRange(8, 12)),
      AgeTable("3-4 months", HalfOpenRange(60, 120), ClosedRange(3, 4),
               [ClosedRange(75, 90), ClosedRange(90, 105), ClosedRange(90, 105),
                ClosedRange(105, 120), ClosedRange(105, 120)],
               ClosedRange(150, 210), ClosedRange(6, 8)),
      AgeTable("5-7 months", HalfOpenRange(120, 210), ClosedRange(2, 3),
               [ClosedRange(105, 150), ClosedRange(120, 165), ClosedRange(135, 180),
                ClosedRange(150, 180)],
               ClosedRange(180, 240), ClosedRange(5, 6)),
      AgeTable("8-10 months", HalfOpenRange(210, 300), ClosedRange(2, 2),
               [ClosedRange(150, 180), ClosedRange(180, 210), ClosedRange(180, 240)],
               ClosedRange(210, 270), ClosedRange(4, 5)),
      AgeTable("11-14 months", HalfOpenRange(300, 420), ClosedRange(1, 2),
               [ClosedRange(180, 240), ClosedRange(210, 270), ClosedRange(210, 270)],
               ClosedRange(210, 270), ClosedRange(4, 5)) ]
  }

  /** Index of the first table at or after `from` whose day range holds
      `days`, or `None` when no such table exists. */
  function FirstContaining(tables: seq<AgeTable>, days: int, from: nat): (r: Option<nat>)
    requires from <= |tables|
    ensures r.Some? ==> from <= r.value < |tables| && tables[r.value].ageRangeDays.Contains(days)
    ensures r.Some? ==> forall j :: from <= j < r.value ==> !tables[j].ageRangeDays.Contains(days)
    ensures r.None? ==> forall j :: from <= j < |tables| ==> !tables[j].ageRangeDays.Contains(days)
    decreases |tables| - from
  {
    if from == |tables| then None
    else if tables[from].ageRangeDays.Contains(days) then Some(from)
    else FirstContaining(tables, days, from + 1)
  }

  /** The bracket for an age in days: the first one whose range holds the
      age, or the last bracket for any age outside 0..<420 (negative ages
      included). */
  function ForAge(days: int): (t: AgeTable)
    ensures t in AllTables()
    ensures 0 <= days < 420 ==> t.ageRangeDays.Contains(days)
    ensures !(0 <= days < 420) ==> t == AllTables()[4]
  {
    var tables := AllTables();
    match FirstContaining(tables, days, 0)
    case Some(i) => tables[i]
    case None =>
      assert !tables[0].ageRangeDays.Contains(days) && !tables[1].ageRangeDays.Contains(days)
          && !tables[2].ageRangeDays.Contains(days) && !tables[3].ageRangeDays.Contains(days)
          && !tables[4].ageRangeDays.Contains(days);
      tables[4]
  }

  /** The brackets start at day 0 and leave no gap: each one ends where the
      next begins, and the last ends at day 420. */
  lemma BracketsContiguous()
    ensures |AllTables()| == 5
    ensures AllTables()[0].ageRangeDays.lo == 0
    ensures forall i :: 0 <= i < |AllTables()| - 1 ==>
      AllTables()[i].ageRangeDays.hi == AllTables()[i + 1].ageRangeDays.lo
    ensures AllTables()[4].ageRangeDays.hi == 420
  {
  }

  /** Every bracket is well formed and has progressive wake windows. */
  lemma {:induction false} TablesWellFormed(t: AgeTable)
    requires t in AllTables()
    ensures t.WellFormed() && t.Progressive()
  {
    var ts := AllTables();
    var k :| 0 <= k < |ts| && ts[k] == t;
    if k == 0 {
      TableWellFormed(ts[0]);
    } else if k == 1 {
      TableWellFormed(ts[1]);
    } else if k == 2 {
      TableWellFormed(ts[2]);
    } else if k == 3 {
      TableWellFormed(ts[3]);
    } else {
      TableWellFormed(ts[4]);
    }
  }

  /** One bracket, its windows checked index by index. */
  lemma {:induction false} TableWellFormed(t: AgeTable)
    requires t.ageRangeDays.lo < t.ageRangeDays.hi
    requires t.typicalNapsPerDay.Valid() && t.typicalNapsPerDay.lo >= 1
    requires t.feedIntervalMinutes.Valid() && t.feedIntervalMinutes.lo > 0
    requires t.expectedFeedsPerDay.Valid() && t.expectedFeedsPerDay.lo > 0
    requires 2 <= |t.wakeWindows| <= 5
    requires WindowOk(t.wakeWindows, 0) && WindowOk(t.wakeWindows, 1) && WindowOk(t.wakeWindows, 2)
    requires WindowOk(t.wakeWindows, 3) && WindowOk(t.wakeWindows, 4)
    requires StepUp(t.wakeWindows, 0) && StepUp(t.wakeWindows, 1)
    requires StepUp(t.wakeWindows, 2) && StepUp(t.wakeWindows, 3)
    ensures t.WellFormed() && t.Progressive()
  {
    WindowsWellFormed(t.wakeWindows);
  }

  /** Window `i`, if there is one, is a valid range of positive length
      bounds. */
  predicate WindowOk(w: seq<ClosedRange>, i: nat) {
    i < |w| ==> 0 < w[i].lo <= w[i].hi
  }

  /** Window `i + 1`, if there is one, does not start or end before window
      `i`. */
  predicate StepUp(w: seq<ClosedRange>, i: nat) {
    i + 1 < |w| ==> w[i].lo <= w[i + 1].lo && w[i].hi <= w[i + 1].hi
  }

  /** Up to five windows checked one index at a time give the quantified
      properties `WellFormed` and `Progressive` ask of them. */
  lemma {:induction false} WindowsWellFormed(w: seq<ClosedRange>)
    requires |w| <= 5
    requires WindowOk(w, 0) && WindowOk(w, 1) && WindowOk(w, 2) && WindowOk(w, 3) && WindowOk(w, 4)
    requires StepUp(w, 0) && StepUp(w, 1) && StepUp(w, 2) && StepUp(w, 3)
    ensures forall i :: 0 <= i < |w| ==> w[i].Valid() && w[i].lo > 0
    ensures forall i :: 0 <= i < |w| - 1 ==> w[i].lo <= w[i + 1].lo && w[i].hi <= w[i + 1].hi
  {
    forall i | 0 <= i < |w|
      ensures w[i].Valid() && w[i].lo > 0
    {
      assert WindowOk(w, i);
    }
    forall i | 0 <= i < |w| - 1
      ensures w[i].lo <= w[i + 1].lo && w[i].hi <= w[i + 1].hi
    {
      assert StepUp(w, i);
    }
  }

  /** The weaker ordering the app's tests check, which follows from
      progressiveness: a window's lower bound never exceeds the next window's
      upper bound. */
  lemma {:induction false} WindowsNonDecreasing(t: AgeTable, i: nat)
    requires t in AllTables()
    requires i + 1 < |t.wakeWindows|
    ensures t.wakeWindows[i].lo <= t.wakeWindows[i + 1].hi
  {
    TablesWellFormed(t);
  }

  /** The brackets are disjoint, so the first bracket containing an age is
      the only one: any bracket that contains `days` is the one `ForAge`
      picks. */
  lemma {:induction false} ForAgeUnique(days: int, i: nat)
    requires i < |AllTables()|
    requires AllTables()[i].ageRangeDays.Contains(days)
    ensures ForAge(days) == AllTables()[i]
  {
    var ts := AllTables();
    assert 0 <= days < 420;
    assert forall j :: 0 <= j < |ts| && j != i ==> !ts[j].ageRangeDays.Contains(days);
  }

  /** For any nap count at or past the last slot the current wake window is
      the bedtime window; below it, it is the window at that index. */
  lemma {:induction false} CurrentWakeWindowClamps(t: AgeTable, naps: nat)
    requires t in AllTables()
    ensures |t.wakeWindows| >= 2
    ensures t.CurrentWakeWindow(naps) == t.wakeWindows[Min(naps, |t.wakeWindows| - 1)]
    ensures naps >= |t.wakeWindows| - 1 ==> t.CurrentWakeWindow(naps) == t.LastWakeWindow()
  {
    TablesWellFormed(t);
  }

  /** The youngest bracket's wake windows are all the same. */
  lemma NewbornWindowsFlat(days: int, i: nat)
    requires 0 <= days < 60
    requires i < |ForAge(days).wakeWindows|
    ensures ForAge(days).wakeWindows[i] == ForAge(days).wakeWindows[0] == ClosedRange(45, 60)
  {
    ForAgeUnique(days, 0);
  }

  /** The labels at each bracket's first and last day. */
  lemma BoundaryLabels()
    ensures ForAge(0).ageLabel == "0-2 months" && ForAge(59).ageLabel == "0-2 months"
    ensures ForAge(60).ageLabel == "3-4 months" && ForAge(119).ageLabel == "3-4 months"
    ensures ForAge(120).ageLabel == "5-7 months" && ForAge(209).ageLabel == "5-7 months"
    ensures ForAge(210).ageLabel == "8-10 months" && ForAge(299).ageLabel == "8-10 months"
    ensures ForAge(300).ageLabel == "11-14 months" && ForAge(419).ageLabel == "11-14 months"
    ensures ForAge(-1).ageLabel == "11-14 months" && ForAge(420).ageLabel == "11-14 months"
  {
    ForAgeUnique(0, 0);
    ForAgeUnique(59, 0);
    ForAgeUnique(60, 1);
    ForAgeUnique(119, 1);
    ForAgeUnique(120, 2);
    ForAgeUnique(209, 2);
    ForAgeUnique(210, 3);
    ForAgeUnique(299, 3);
    ForAgeUnique(300, 4);
    ForAgeUnique(419, 4);
  }

  /** The 5-7 month bracket has four wake windows: three nap windows and the
      bedtime window. */
  lemma FiveMonthWindows()
    ensures |ForAge(150).wakeWindows| == 4 && ForAge(150).ageLabel == "5-7 months"
  {
    ForAgeUnique(150, 2);
  }

  /** The daily sleep target never rises with age: both bounds are
      non-increasing from one bracket to the next. */
  lemma SleepTargetsNonIncreasing(i: nat)
    requires i + 1 < |AllTables()|
    ensures AllTables()[i + 1].DailySleepHours().lo <= AllTables()[i].DailySleepHours().lo
    ensures AllTables()[i + 1].DailySleepHours().hi <= AllTables()[i].DailySleepHours().hi
  {
  }
}
