/**
 Whether a time window is open now, and when to look again (IsInWindow and
 NextStatusReconcile in pkg/utils/timewindow.go).
 */
module Requeue {
  import opened Text
  import opened Sorting
  import opened HourRanges
  import opened TimeWindows

  // ----- status and requeue

  ghost predicate InWindow(tw: TimeWindow, t: Moment)
    requires ValidHours(tw)
  {
    Open(tw, t) || NeverOpen(tw)
  }

  method IsInWindow(tw: TimeWindow, now: Moment) returns (b: bool)
    requires ValidHours(tw) && ValidMoment(now)
    ensures MidnightKept(OrientAll(tw.hours)) ==> (b <==> InWindow(tw, now) && !HoursMissed(tw, now))
  {
    var wait := NextStartPoint(tw, now);
    if MidnightKept(OrientAll(tw.hours)) {
      ZeroIsInWindow(tw, now, wait);
    }
    return wait == 0;
  }

  lemma {:induction false} ZeroIsInWindow(tw: TimeWindow, now: Moment, wait: int)
    requires ValidHours(tw) && ValidMoment(now) && NextStart(tw, now, wait)
    ensures wait == 0 <==> InWindow(tw, now) && !HoursMissed(tw, now)
  {
    assert Later(now, 0) == now;
  }

  /** The status does not change before the last minute of the wait. */
  ghost predicate Steady(tw: TimeWindow, now: Moment, wait: int)
    requires ValidHours(tw) && ValidMoment(now)
  {
    forall v | 0 <= v < wait - 1 :: InWindow(tw, Later(now, v)) <==> InWindow(tw, now)
  }

  /** A full week is waited although an earlier listed day changes the status. */
  ghost predicate ChangeMissed(tw: TimeWindow, now: Moment)
    requires ValidHours(tw)
  {
    PastLatestDay(tw, now) && (IsBlocking(tw) ==> exists m | 0 <= m < DAY :: Interior(OrientAll(tw.hours), m))
  }

  /** Open on every day at every minute, whatever the ranges are. */
  ghost predicate AlwaysOpen(tw: TimeWindow)
    requires ValidHours(tw)
  {
    (forall d | 0 <= d < WEEK :: d in ListedDays(tw.daysofweek)) &&
    forall m | 0 <= m < DAY :: Covers(OrientAll(tw.hours), m, false)
  }

  /**
   A change at or before midnight is overlooked because of a range until midnight.
   Blocked, hours only: the evening's blocking is not seen.  Active, hours only: the
   status is not the same from now to the first hour of tomorrow.  Active on
   weekdays: the window is open until midnight, and tomorrow is not looked at.
   */
  ghost predicate EveningMissed(tw: TimeWindow, now: Moment)
    requires ValidHours(tw)
  {
    var hours, days := OrientAll(tw.hours), ListedDays(tw.daysofweek);
    UntilMidnight(tw) &&
    if IsBlocking(tw) then
      tw.daysofweek == [] && now.minute > 0 && Open(tw, now) && exists m | now.minute < m < DAY :: Interior(hours, m)
    else if days == {} then
      now.minute > 0 && !(Covers(hours, 0, false) && forall m | now.minute <= m < DAY :: Covers(hours, m, false))
    else
      Open(tw, now) && (forall m | now.minute <= m < DAY :: Interior(hours, m)) &&
      (exists m | 0 <= m < DAY :: !Interior(hours, m)) && now.day + 1 !in days && !AlwaysOpen(tw)
  }

  // ----- when exactly to look again

  /** A minute of the listed days (all, when none is named) that an hour covers: the blocking may begin. */
  ghost predicate MayBlock(tw: TimeWindow, t: Moment)
    requires ValidHours(tw)
  {
    var days := ListedDays(tw.daysofweek);
    (days == {} || t.day in days) && (tw.hours == [] || Covers(OrientAll(tw.hours), t.minute, false))
  }

  /** A minute of the listed days that is not strictly within the hours, if there is any such: the window may end. */
  ghost predicate MayEnd(tw: TimeWindow, t: Moment)
    requires ValidHours(tw)
  {
    var days, hours := ListedDays(tw.daysofweek), OrientAll(tw.hours);
    (days == {} || t.day in days) && (NoGaps(tw) || !Interior(hours, t.minute))
  }

  ghost predicate NoGaps(tw: TimeWindow)
    requires ValidHours(tw)
  {
    tw.hours == [] || forall m | 0 <= m < DAY :: Interior(OrientAll(tw.hours), m)
  }

  /** The latest of two or more listed days, and no gap is left today. */
  ghost predicate PastLatestGap(tw: TimeWindow, now: Moment)
    requires ValidHours(tw)
  {
    var days := ListedDays(tw.daysofweek);
    !NoGaps(tw) && now.day in days && (forall d | d in days :: d <= now.day) &&
      (exists d | d in days :: d != now.day) &&
    forall m | now.minute <= m < DAY :: Interior(OrientAll(tw.hours), m)
  }

  /** Hours only, one of them until midnight, looked up after midnight. */
  ghost predicate HoursUntilMidnight(tw: TimeWindow, now: Moment)
    requires ValidHours(tw)
  {
    tw.hours != [] && ListedDays(tw.daysofweek) == {} && UntilMidnight(tw) && now.minute > 0
  }

  /** The wait before the last minute, exactly, for the three ways it is computed. */
  ghost predicate LooksAgain(tw: TimeWindow, now: Moment, p: int)
    requires ValidHours(tw) && ValidMoment(now)
  {
    var hours := OrientAll(tw.hours);
    if !InWindow(tw, now) || HoursMissed(tw, now) then NextStart(tw, now, p)
    else if IsBlocking(tw) then
      p >= 0 && MayBlock(tw, Later(now, p)) &&
      ((forall v | 0 <= v < p :: !MayBlock(tw, Later(now, v))) <==>
        !PastLatestDay(tw, now) && !HoursUntilMidnight(tw, now)) &&
      (PastLatestDay(tw, now) || HoursUntilMidnight(tw, now) ==>
        (now.minute + p) / DAY == (if HoursUntilMidnight(tw, now) then 1 else WEEK) &&
        NoneBetween(hours, 0, (now.minute + p) % DAY))
    else
      p >= 0 && MayEnd(tw, Later(now, p)) &&
      ((forall v | 0 <= v < p :: !MayEnd(tw, Later(now, v))) <==> !PastLatestGap(tw, now)) &&
      (PastLatestGap(tw, now) ==>
        (now.minute + p) / DAY == WEEK && forall m | 0 <= m < (now.minute + p) % DAY :: Interior(hours, m))
  }

  lemma {:induction false} LooksAgainForBlock(tw: TimeWindow, now: Moment, ranges: seq<Range>, days: seq<int>, p: int)
    requires ValidHours(tw) && ValidMoment(now) && IsBlocking(tw) && Merged(tw, ranges) && InWindow(tw, now)
    requires forall d :: d in days <==> d in ListedDays(tw.daysofweek)
    requires DaySlots(ranges) ==> NextPoint(ranges, days, now, false, p)
    ensures LooksAgain(tw, now, p)
  {
    MergedAreDaySlots(ranges);
    SameEmptiness(days, ListedDays(tw.daysofweek));
    if ranges != [] {
      MidnightRangeIsLast(tw, ranges);
    }
    assert forall t :: Runs(ranges, days, false, t) <==> MayBlock(tw, t);
    assert PastLatestDay(tw, now) <==> Overdue(ranges, days, now);
    assert HoursUntilMidnight(tw, now) <==> MidnightMissed(ranges, days, now);
    if PastLatestDay(tw, now) || HoursUntilMidnight(tw, now) {
      CurrentDayIsNext(ranges, 0);
      LandsOnTheFirst(now, if HoursUntilMidnight(tw, now) then 1 else WEEK, ranges[0].start, p);
    }
  }

  lemma {:induction false} LooksAgainForEnd(tw: TimeWindow, now: Moment, ranges: seq<Range>, slots: seq<Range>,
      days: seq<int>, p: int)
    requires ValidHours(tw) && ValidMoment(now) && !IsBlocking(tw) && InWindow(tw, now) && !HoursMissed(tw, now)
    requires Merged(tw, ranges) && Complement(ranges, slots) && (ranges == [] ==> slots == [])
    requires forall d :: d in days <==> d in ListedDays(tw.daysofweek)
    requires DaySlots(slots) ==> NextPoint(slots, days, now, false, p)
    ensures LooksAgain(tw, now, p)
  {
    assert DaySlots(slots);
    SameEmptiness(days, ListedDays(tw.daysofweek));
    SameInterior(ranges, OrientAll(tw.hours));
    GapsAreNotInterior(tw, ranges, slots);
    RunsAreEnds(tw, slots, days);
    OverdueIsPastGap(tw, now, slots, days);
    if PastLatestGap(tw, now) {
      LandsOnTheFirst(now, WEEK, slots[0].start, p);
    }
  }

  /** The slots of the gaps, as the minutes at which the window may end. */
  ghost predicate GapSlots(tw: TimeWindow, slots: seq<Range>, days: seq<int>)
    requires ValidHours(tw)
  {
    (slots == [] <==> NoGaps(tw)) && (forall d :: d in days <==> d in ListedDays(tw.daysofweek)) &&
    (days == [] <==> ListedDays(tw.daysofweek) == {}) &&
    forall m | slots != [] && 0 <= m < DAY :: Covers(slots, m, false) <==> !Interior(OrientAll(tw.hours), m)
  }

  lemma {:induction false} RunsAreEnds(tw: TimeWindow, slots: seq<Range>, days: seq<int>)
    requires ValidHours(tw) && GapSlots(tw, slots, days)
    ensures forall t | ValidMoment(t) :: Runs(slots, days, false, t) <==> MayEnd(tw, t)
  {
  }

  lemma {:induction false} OverdueIsPastGap(tw: TimeWindow, now: Moment, slots: seq<Range>, days: seq<int>)
    requires ValidHours(tw) && ValidMoment(now) && GapSlots(tw, slots, days)
    ensures PastLatestGap(tw, now) <==> Overdue(slots, days, now)
  {
  }

  lemma {:induction false} GapsAreNotInterior(tw: TimeWindow, ranges: seq<Range>, slots: seq<Range>)
    requires ValidHours(tw) && Complement(ranges, slots) && (ranges == [] <==> tw.hours == []) &&
             (ranges == [] ==> slots == [])
    requires forall m :: Interior(ranges, m) <==> Interior(OrientAll(tw.hours), m)
    ensures slots == [] <==> NoGaps(tw)
    ensures slots != [] ==> forall m | 0 <= m < DAY :: Covers(slots, m, false) <==> !Interior(OrientAll(tw.hours), m)
  {
    if slots != [] {
      SomeGap(slots);
    }
  }

  /** The right answers of NextStatusReconcile. */
  ghost function Answers(tw: TimeWindow, now: Moment): iset<int>
    requires ValidHours(tw) && ValidMoment(now)
  {
    iset wait: int |
      wait >= 1 && LooksAgain(tw, now, wait - 1) &&
      (Steady(tw, now, wait) <==> !ChangeMissed(tw, now) && !EveningMissed(tw, now))
  }

  lemma {:induction false} AnswersUnblocked(tw: TimeWindow, now: Moment, ranges: seq<Range>, days: seq<int>, p: int)
    requires ValidHours(tw) && ValidMoment(now) && IsBlocking(tw) && Merged(tw, ranges) && InWindow(tw, now)
    requires forall d :: d in days <==> d in ListedDays(tw.daysofweek)
    requires DaySlots(ranges) ==> NextPoint(ranges, days, now, false, p)
    ensures p + 1 in Answers(tw, now)
  {
    SteadyUnblocked(tw, now, ranges, days, p);
    LooksAgainForBlock(tw, now, ranges, days, p);
  }

  lemma {:induction false} AnswersActive(tw: TimeWindow, now: Moment, ranges: seq<Range>, slots: seq<Range>,
      days: seq<int>, p: int)
    requires ValidHours(tw) && ValidMoment(now) && !IsBlocking(tw) && InWindow(tw, now) && !HoursMissed(tw, now)
    requires Merged(tw, ranges) && Complement(ranges, slots) && (ranges == [] ==> slots == [])
    requires forall d :: d in days <==> d in ListedDays(tw.daysofweek)
    requires DaySlots(slots) ==> NextPoint(slots, days, now, false, p)
    ensures p + 1 in Answers(tw, now)
  {
    SteadyActive(tw, now, ranges, slots, days, p);
    LooksAgainForEnd(tw, now, ranges, slots, days, p);
  }

  lemma {:induction false} AnswersOutside(tw: TimeWindow, now: Moment, wait: int)
    requires ValidHours(tw) && ValidMoment(now)
    requires NextStart(tw, now, wait) && !(InWindow(tw, now) && !HoursMissed(tw, now))
    ensures wait + 1 in Answers(tw, now)
  {
    SteadyOutside(tw, now, wait);
  }

  method NextStatusReconcile(tw: TimeWindow, now: Moment) returns (wait: int)
    requires ValidHours(tw) && ValidMoment(now)
    ensures tw.daysofweek == [] && tw.hours == [] ==> wait == 0
    ensures MidnightKept(OrientAll(tw.hours)) && (tw.daysofweek != [] || tw.hours != []) ==> wait in Answers(tw, now)
  {
    if |tw.daysofweek| == 0 && |tw.hours| == 0 {
      return 0;
    }
    var inWindow := IsInWindow(tw, now);
    if inWindow {
      var vHr := ValidateHourRange(tw.hours);
      var vdays, _ := ValidateDaysOfWeek(tw.daysofweek);
      var rvevHr := ReverseRange(vHr);
      if IsBlocking(tw) {
        var p := GenerateNextPoint(vHr, vdays, now, false);
        if MidnightKept(OrientAll(tw.hours)) {
          AnswersUnblocked(tw, now, vHr, vdays, p);
        }
        return p + 1;
      }
      var p := GenerateNextPoint(rvevHr, vdays, now, false);
      if MidnightKept(OrientAll(tw.hours)) {
        AnswersActive(tw, now, vHr, rvevHr, vdays, p);
      }
      return p + 1;
    }
    var w := NextStartPoint(tw, now);
    if MidnightKept(OrientAll(tw.hours)) {
      AnswersOutside(tw, now, w);
    }
    return w + 1;
  }

  /** A range until midnight covers the day's last minute. */
  lemma {:induction false} CoversTheEnd(tw: TimeWindow)
    requires ValidHours(tw) && UntilMidnight(tw)
    ensures Covers(OrientAll(tw.hours), DAY - 1, false)
  {
    var hours := OrientAll(tw.hours);
    var r :| r in hours && r.end == 0;
    var i :| 0 <= i < |hours| && hours[i] == r;
    assert Within(hours[i], DAY - 1, false);
  }

  lemma {:induction false} SteadyOutside(tw: TimeWindow, now: Moment, wait: int)
    requires ValidHours(tw) && ValidMoment(now)
    requires NextStart(tw, now, wait) && !(InWindow(tw, now) && !HoursMissed(tw, now))
    ensures wait >= 0 && (Steady(tw, now, wait + 1) <==> !ChangeMissed(tw, now) && !EveningMissed(tw, now))
  {
    if UntilMidnight(tw) {
      CoversTheEnd(tw);
    }
    if HoursMissed(tw, now) {
      SteadyMissed(tw, now, wait);
    } else if IsBlocking(tw) && tw.hours != [] {
      InteriorIsCovered(OrientAll(tw.hours), now.minute);
    }
  }

  /** The missed hours-only window: the wait ends at the first hour of tomorrow. */
  lemma {:induction false} SteadyMissed(tw: TimeWindow, now: Moment, wait: int)
    requires ValidHours(tw) && ValidMoment(now) && NextStart(tw, now, wait) && HoursMissed(tw, now)
    ensures Steady(tw, now, wait + 1) <==> !EveningMissed(tw, now)
  {
    var hours := OrientAll(tw.hours);
    CoversTheEnd(tw);
    assert wait >= DAY - now.minute;
    TodayIsOpen(tw, now, DAY - 1);
    if EveningMissed(tw, now) {
      if m :| now.minute <= m < DAY && !Covers(hours, m, false) {
        TodayIsOpen(tw, now, m);
      } else {
        assert wait > DAY - now.minute;
        LaterIs(now, 1, 0);
      }
    } else {
      assert wait == DAY - now.minute;
      forall v | 0 <= v < wait ensures InWindow(tw, Later(now, v)) {
        TodayIsOpen(tw, now, now.minute + v);
      }
      assert Later(now, 0) == now;
    }
  }

  lemma {:induction false} TodayIsOpen(tw: TimeWindow, now: Moment, m: int)
    requires ValidHours(tw) && ValidMoment(now) && HoursMissed(tw, now) && now.minute <= m < DAY
    ensures InWindow(tw, Later(now, m - now.minute)) <==> Covers(OrientAll(tw.hours), m, false)
  {
    LaterIs(now, 0, m);
  }

  lemma {:induction false} InteriorIsCovered(rs: seq<Range>, m: int)
    requires m < DAY
    ensures Interior(rs, m) ==> Covers(rs, m, false)
  {
    if Interior(rs, m) {
      var i :| 0 <= i < |rs| && Within(rs[i], m, true);
      assert Within(rs[i], m, false);
    }
  }

  lemma {:induction false} SteadyActive(tw: TimeWindow, now: Moment, ranges: seq<Range>, slots: seq<Range>,
      days: seq<int>, p: int)
    requires ValidHours(tw) && ValidMoment(now) && !IsBlocking(tw)
    requires Merged(tw, ranges) && Complement(ranges, slots) && (ranges == [] ==> slots == [])
    requires forall d :: d in days <==> d in ListedDays(tw.daysofweek)
    requires DaySlots(slots) ==> NextPoint(slots, days, now, false, p)
    requires InWindow(tw, now) && !HoursMissed(tw, now)
    ensures p >= 0 && (Steady(tw, now, p + 1) <==> !EveningMissed(tw, now)) && !ChangeMissed(tw, now)
  {
    assert DaySlots(slots);
    SameEmptiness(days, ListedDays(tw.daysofweek));
    SameInterior(ranges, OrientAll(tw.hours));
    NotPastWhenOpen(tw, now);
    if slots == [] {
      OpenWithoutGaps(tw, now, ranges, slots, days, p);
    } else if m :| now.minute <= m < DAY && Covers(slots, m, false) {
      GapIsSeen(slots, days, now, m);
      GapIsToday(slots, days, now, p, m);
      OpenThroughTheGap(tw, now, ranges, slots, p);
      GapIsNotMissed(tw, now, ranges, slots, m);
    } else {
      if !UntilMidnight(tw) {
        FullComplement(tw, ranges, slots);
      }
      SteadyEvening(tw, now, ranges, slots, days, p);
    }
  }

  lemma {:induction false} NotPastWhenOpen(tw: TimeWindow, now: Moment)
    requires ValidHours(tw) && ValidMoment(now) && !IsBlocking(tw) && InWindow(tw, now)
    ensures !ChangeMissed(tw, now)
  {
  }

  /** No gap at all: the window is open as long as its days are. */
  lemma {:induction false} OpenWithoutGaps(tw: TimeWindow, now: Moment, ranges: seq<Range>, slots: seq<Range>,
      days: seq<int>, p: int)
    requires ValidHours(tw) && ValidMoment(now) && !IsBlocking(tw) && InWindow(tw, now) && !HoursMissed(tw, now)
    requires slots == [] && Complement(ranges, slots) && (ranges == [] <==> tw.hours == [])
    requires forall m :: Interior(ranges, m) <==> Interior(OrientAll(tw.hours), m)
    requires (forall d :: d in days <==> d in ListedDays(tw.daysofweek)) &&
             (days == [] <==> ListedDays(tw.daysofweek) == {})
    requires NextPoint(slots, days, now, false, p)
    ensures p == 0 && Steady(tw, now, 1) && !EveningMissed(tw, now)
  {
    assert Later(now, 0) == now && Runs(slots, days, false, now);
    assert !Overdue(slots, days, now) && !MidnightMissed(slots, days, now) && LeastRun(slots, days, false, now, p);
    assert ranges != [] ==> forall m | 0 <= m < DAY :: !Covers(slots, m, false) && Interior(OrientAll(tw.hours), m);
  }

  lemma {:induction false} GapIsNotMissed(tw: TimeWindow, now: Moment, ranges: seq<Range>, slots: seq<Range>, m: int)
    requires ValidHours(tw) && ValidMoment(now) && !IsBlocking(tw) && !HoursMissed(tw, now) && ranges != []
    requires tw.hours != [] && Complement(ranges, slots) && now.minute <= m < DAY && Covers(slots, m, false)
    requires forall m :: Interior(ranges, m) <==> Interior(OrientAll(tw.hours), m)
    ensures !EveningMissed(tw, now)
  {
    assert !Interior(OrientAll(tw.hours), m);
  }

  /** Open until midnight, with a gap on other days. */
  lemma {:induction false} SteadyEvening(tw: TimeWindow, now: Moment, ranges: seq<Range>, slots: seq<Range>,
      days: seq<int>, p: int)
    requires ValidHours(tw) && ValidMoment(now) && !IsBlocking(tw) && UntilMidnight(tw) && ranges != []
    requires Complement(ranges, slots) && slots != [] && NextPoint(slots, days, now, false, p)
    requires forall m :: Interior(ranges, m) <==> Interior(OrientAll(tw.hours), m)
    requires (forall d :: d in days <==> d in ListedDays(tw.daysofweek)) &&
             (days == [] <==> ListedDays(tw.daysofweek) == {})
    requires Open(tw, now) && !HoursMissed(tw, now) && NoneBetween(slots, now.minute, DAY)
    ensures p >= 0 && (Steady(tw, now, p + 1) <==> !EveningMissed(tw, now))
  {
    var hours := OrientAll(tw.hours);
    SomeGap(slots);
    assert !Interior(hours, slots[0].start);
    assert forall m | now.minute <= m < DAY :: !Covers(slots, m, false) && Interior(hours, m);
    assert days != [];
    if now.day + 1 in days {
      OpenTomorrow(tw, now, ranges, slots, days, p);
    } else if AlwaysOpen(tw) {
      assert forall v | 0 <= v < p :: Open(tw, Later(now, v));
    } else {
      ClosedInBetween(tw, now, slots, days, p);
    }
  }

  lemma {:induction false} SomeGap(slots: seq<Range>)
    requires slots != [] && Chained(slots)
    ensures 0 <= slots[0].start < DAY && Covers(slots, slots[0].start, false) && NoneBetween(slots, 0, slots[0].start)
  {
    assert Within(slots[0], slots[0].start, false);
  }

  /** Tomorrow is listed: the wait ends at its first gap, and until then the window is open. */
  lemma {:induction false} OpenTomorrow(tw: TimeWindow, now: Moment, ranges: seq<Range>, slots: seq<Range>,
      days: seq<int>, p: int)
    requires ValidHours(tw) && ValidMoment(now) && !IsBlocking(tw) && ranges != [] && slots != []
    requires Complement(ranges, slots) && NextPoint(slots, days, now, false, p)
    requires forall m :: Interior(ranges, m) <==> Interior(OrientAll(tw.hours), m)
    requires forall d :: d in days <==> d in ListedDays(tw.daysofweek)
    requires now.day in days && now.day + 1 in days && NoneBetween(slots, now.minute, DAY)
    ensures p >= 0 && forall v | 0 <= v < p :: Open(tw, Later(now, v))
  {
    SomeGap(slots);
    assert !LatestListed(days, now.day);
    assert LeastRun(slots, days, false, now, p);
    LaterIs(now, 1, slots[0].start);
    assert Runs(slots, days, false, Later(now, WaitFor(now, 1, slots[0].start)));
    assert p <= WaitFor(now, 1, slots[0].start);
    forall v | 0 <= v < p ensures Open(tw, Later(now, v)) {
      OpenTill(tw, now, ranges, slots, days, v);
    }
  }

  lemma {:induction false} OpenTill(tw: TimeWindow, now: Moment, ranges: seq<Range>, slots: seq<Range>,
      days: seq<int>, v: int)
    requires ValidHours(tw) && ValidMoment(now) && !IsBlocking(tw) && ranges != [] && slots != []
    requires Complement(ranges, slots) && 0 <= v < WaitFor(now, 1, DAY)
    requires forall m :: Interior(ranges, m) <==> Interior(OrientAll(tw.hours), m)
    requires forall d :: d in days <==> d in ListedDays(tw.daysofweek)
    requires now.day in days && now.day + 1 in days && !Runs(slots, days, false, Later(now, v))
    ensures Open(tw, Later(now, v))
  {
    var k, x := (now.minute + v) / DAY, (now.minute + v) % DAY;
    assert k <= 1 && Later(now, v) == Moment(DayAfter(now.day, k), x);
    assert DayAfter(now.day, k) in days;
    assert !Covers(slots, x, false);
    InteriorIsCovered(OrientAll(tw.hours), x);
  }

  /** The wait passes over a closed moment. */
  lemma {:induction false} ClosedInBetween(tw: TimeWindow, now: Moment, slots: seq<Range>, days: seq<int>, p: int)
    requires ValidHours(tw) && ValidMoment(now) && !IsBlocking(tw) && tw.hours != [] && Chained(slots) && slots != []
    requires NextPoint(slots, days, now, false, p) && (forall d :: d in days <==> d in ListedDays(tw.daysofweek))
    requires Open(tw, now) && now.day in days && now.day + 1 !in days && !AlwaysOpen(tw) &&
             NoneBetween(slots, now.minute, DAY)
    ensures !Steady(tw, now, p + 1)
  {
    if Overdue(slots, days, now) {
      if d :| 0 <= d < WEEK && d !in ListedDays(tw.daysofweek) {
        ClosedAt(tw, now, d, 0, p);
      } else {
        var m :| 0 <= m < DAY && !Covers(OrientAll(tw.hours), m, false);
        var d :| d in days && d != now.day;
        ClosedAt(tw, now, d, m, p);
      }
    } else {
      var tomorrow := DayAfter(now.day, 1);
      assert tomorrow !in days;
      LaterIs(now, 1, 0);
      assert !Open(tw, Later(now, WaitFor(now, 1, 0)));
      PastTomorrow(slots, days, now, p);
    }
  }

  lemma {:induction false} PastTomorrow(slots: seq<Range>, days: seq<int>, now: Moment, p: int)
    requires ValidMoment(now) && slots != [] && days != [] && LeastRun(slots, days, false, now, p)
    requires DayAfter(now.day, 1) !in days && NoneBetween(slots, now.minute, DAY)
    ensures p > WaitFor(now, 1, 0)
  {
    var k, x := (now.minute + p) / DAY, (now.minute + p) % DAY;
    assert Later(now, p) == Moment(DayAfter(now.day, k), x);
    assert DayAfter(now.day, 0) == now.day;
    assert k != 0 && k != 1;
  }

  lemma {:induction false} ClosedAt(tw: TimeWindow, now: Moment, d: int, m: int, p: int)
    requires ValidHours(tw) && ValidMoment(now) && !IsBlocking(tw) && 0 <= d < WEEK && d != now.day && 0 <= m < DAY
    requires p >= WaitFor(now, WEEK, 0) && Open(tw, now) && !Open(tw, Moment(d, m))
    ensures !Steady(tw, now, p + 1)
  {
    var k := if d > now.day then d - now.day else d - now.day + WEEK;
    LaterIs(now, k, m);
    assert DayAfter(now.day, k) == d;
    assert InWindow(tw, Later(now, WaitFor(now, k, m))) <==> Open(tw, Moment(d, m));
  }

  /** While no gap of the hours comes up, an open active window stays open. */
  lemma {:induction false} OpenThroughTheGap(tw: TimeWindow, now: Moment, ranges: seq<Range>, slots: seq<Range>, p: int)
    requires ValidHours(tw) && ValidMoment(now) && !IsBlocking(tw) && InWindow(tw, now)
    requires ranges != [] && (forall m :: Interior(ranges, m) <==> Interior(OrientAll(tw.hours), m))
    requires Complement(ranges, slots) && now.minute + p < DAY
    requires forall v | 0 <= v < p ::
               Later(now, v) == Moment(now.day, now.minute + v) && !Covers(slots, now.minute + v, false)
    ensures forall v | 0 <= v < p :: InWindow(tw, Later(now, v))
  {
    forall v | 0 <= v < p ensures InWindow(tw, Later(now, v)) {
      assert Later(now, v) == Moment(now.day, now.minute + v);
      InteriorIsCovered(OrientAll(tw.hours), now.minute + v);
    }
  }

  lemma {:induction false} GapIsSeen(slots: seq<Range>, days: seq<int>, now: Moment, m: int)
    requires Chained(slots) && slots != [] && now.minute <= m < DAY && Covers(slots, m, false)
    ensures !Overdue(slots, days, now) && !MidnightMissed(slots, days, now)
  {
    assert slots[|slots| - 1].start < slots[|slots| - 1].end;
  }

  /** A gap later today: the wait ends at the first one. */
  lemma {:induction false} GapIsToday(slots: seq<Range>, days: seq<int>, now: Moment, p: int, m: int)
    requires ValidMoment(now) && slots != [] && (days == [] || now.day in days)
    requires now.minute <= m < DAY && Covers(slots, m, false) && LeastRun(slots, days, false, now, p)
    ensures 0 <= p && now.minute + p < DAY
    ensures forall v | 0 <= v < p ::
              Later(now, v) == Moment(now.day, now.minute + v) && !Covers(slots, now.minute + v, false)
  {
    assert DayAfter(now.day, 0) == now.day;
    LaterIs(now, 0, m);
    assert Runs(slots, days, false, Later(now, m - now.minute));
    forall v | 0 <= v < p
      ensures Later(now, v) == Moment(now.day, now.minute + v) && !Covers(slots, now.minute + v, false)
    {
      LaterIs(now, 0, now.minute + v);
      assert !Runs(slots, days, false, Later(now, v));
    }
  }

  /** Without a range until midnight the gaps reach the end of the day. */
  lemma {:induction false} FullComplement(tw: TimeWindow, ranges: seq<Range>, slots: seq<Range>)
    requires ValidHours(tw) && !UntilMidnight(tw) && Merged(tw, ranges) && Complement(ranges, slots)
    ensures ranges != [] ==> slots != [] && Covers(slots, DAY - 1, false)
  {
    if ranges != [] {
      AllInBounds(ranges);
      assert forall k | 0 <= k < |ranges| :: ranges[k] in ranges && ranges[k].end != 0;
      assert !Covers(ranges, DAY - 1, true);
      assert !Interior(ranges, DAY - 1);
    }
  }

  lemma {:induction false} SteadyUnblocked(tw: TimeWindow, now: Moment, ranges: seq<Range>, days: seq<int>, p: int)
    requires ValidHours(tw) && ValidMoment(now) && IsBlocking(tw) && Merged(tw, ranges)
    requires forall d :: d in days <==> d in ListedDays(tw.daysofweek)
    requires DaySlots(ranges) ==> NextPoint(ranges, days, now, false, p)
    requires InWindow(tw, now)
    ensures p >= 0 && (Steady(tw, now, p + 1) <==> !ChangeMissed(tw, now) && !EveningMissed(tw, now))
  {
    MergedAreDaySlots(ranges);
    SameEmptiness(days, ListedDays(tw.daysofweek));
    if ranges != [] {
      MidnightRangeIsLast(tw, ranges);
    }
    if UntilMidnight(tw) {
      CoversTheEnd(tw);
    }
    assert PastLatestDay(tw, now) <==> Overdue(ranges, days, now);
    if MidnightMissed(ranges, days, now) {
      SteadyUnblockedEvening(tw, now, ranges, p);
    } else if ChangeMissed(tw, now) {
      BlockedEarlier(tw, now, p);
    } else if !NeverOpen(tw) {
      forall v | 0 <= v < p ensures Open(tw, Later(now, v)) {
        StillUnblocked(tw, now, ranges, days, p, v);
      }
    }
  }

  /** Hours until midnight block every day; the wait ends at the first range of tomorrow. */
  lemma {:induction false} SteadyUnblockedEvening(tw: TimeWindow, now: Moment, ranges: seq<Range>, p: int)
    requires ValidHours(tw) && ValidMoment(now) && IsBlocking(tw) && Merged(tw, ranges) && InWindow(tw, now)
    requires ranges != [] && ListedDays(tw.daysofweek) == {} && UntilMidnight(tw) && now.minute > 0
    requires p == WaitFor(now, 1, ranges[0].start) && Covers(OrientAll(tw.hours), DAY - 1, false)
    ensures p >= 0 && (Steady(tw, now, p + 1) <==> !EveningMissed(tw, now)) && !ChangeMissed(tw, now)
  {
    var hours := OrientAll(tw.hours);
    assert ranges[0] in ranges;
    assert p >= DAY - now.minute;
    if tw.daysofweek == [] && !NeverOpen(tw) {
      SameInterior(ranges, hours);
      if m :| now.minute < m < DAY && Interior(hours, m) {
        LaterIs(now, 0, m);
        assert !Open(tw, Later(now, m - now.minute));
      } else {
        forall v | 0 <= v < p ensures Open(tw, Later(now, v)) {
          UnblockedTill(tw, now, ranges, v);
        }
      }
    }
  }

  lemma {:induction false} UnblockedTill(tw: TimeWindow, now: Moment, ranges: seq<Range>, v: int)
    requires ValidHours(tw) && ValidMoment(now) && IsBlocking(tw) && tw.hours != [] && Open(tw, now) &&
             tw.daysofweek == []
    requires (forall r | r in ranges :: Proper(r)) && Separated(ranges) && ranges != []
    requires forall m :: Interior(ranges, m) <==> Interior(OrientAll(tw.hours), m)
    requires forall m | now.minute < m < DAY :: !Interior(OrientAll(tw.hours), m)
    requires 0 <= v < WaitFor(now, 1, ranges[0].start) && ranges[0].start < DAY
    ensures Open(tw, Later(now, v))
  {
    var k, x := (now.minute + v) / DAY, (now.minute + v) % DAY;
    assert Later(now, v) == Moment(DayAfter(now.day, k), x);
    if k > 0 {
      BeforeTheFirst(ranges, x);
    }
  }

  lemma {:induction false} BeforeTheFirst(ranges: seq<Range>, x: int)
    requires (forall r | r in ranges :: Proper(r)) && Separated(ranges) && ranges != [] && x < ranges[0].start
    ensures !Interior(ranges, x)
  {
    AllInBounds(ranges);
  }

  lemma {:induction false} BlockedEarlier(tw: TimeWindow, now: Moment, p: int)
    requires ValidHours(tw) && ValidMoment(now) && IsBlocking(tw) && ChangeMissed(tw, now)
    requires p >= WaitFor(now, WEEK, 0) && InWindow(tw, now)
    ensures !Steady(tw, now, p + 1)
  {
    var m :| 0 <= m < DAY && Interior(OrientAll(tw.hours), m);
    var d :| d in ListedDays(tw.daysofweek) && d != now.day;
    var k := d - now.day + WEEK;
    LaterIs(now, k, m);
    assert DayAfter(now.day, k) == d;
    assert !Open(tw, Later(now, WaitFor(now, k, m)));
    assert !NeverOpen(tw) by {
      InteriorIsCovered(OrientAll(tw.hours), now.minute);
    }
  }

  lemma {:induction false} StillUnblocked(tw: TimeWindow, now: Moment, ranges: seq<Range>, days: seq<int>, p: int,
      v: int)
    requires ValidHours(tw) && ValidMoment(now) && IsBlocking(tw) && Merged(tw, ranges) && 0 <= v < p
    requires forall d :: d in days <==> d in ListedDays(tw.daysofweek)
    requires days == [] <==> ListedDays(tw.daysofweek) == {}
    requires LeastRun(ranges, days, false, now, p) ||
             forall m | 0 <= m < DAY :: tw.hours != [] && !Interior(OrientAll(tw.hours), m)
    ensures Open(tw, Later(now, v))
  {
    var t := Later(now, v);
    InteriorIsCovered(OrientAll(tw.hours), t.minute);
    if LeastRun(ranges, days, false, now, p) {
      assert !Runs(ranges, days, false, t);
    }
  }

  // ----- where the code departs from the plain reading

  /** A range until midnight that joins an earlier one is cut off at the end of that one. */
  lemma {:induction false} MergeLosesTheEvening()
    ensures var ranges := [Range(0, 60), Range(30, 0)];
            MergedUpTo(ranges, 2) == [Range(0, 60)] && Covers(ranges, 700, true) && !Covers([Range(0, 60)], 700, true)
  {
    var ranges := [Range(0, 60), Range(30, 0)];
    assert MergedUpTo(ranges, 1) == [Range(0, 60)];
    assert Within(ranges[1], 700, true);
  }

  const MONDAY_AND_FRIDAY := TimeWindow("active", ["Monday", "Friday"], [Range(540, 600)])

  const FRIDAY_NOON := Moment(5, 720)

  lemma {:induction false} FridayNoonIsPast()
    ensures !IsBlocking(MONDAY_AND_FRIDAY) && ValidHours(MONDAY_AND_FRIDAY) && ValidMoment(FRIDAY_NOON)
    ensures OrientAll(MONDAY_AND_FRIDAY.hours) == [Range(540, 600)] &&
            ListedDays(MONDAY_AND_FRIDAY.daysofweek) == {1, 5}
    ensures PastLatestDay(MONDAY_AND_FRIDAY, FRIDAY_NOON) && !HoursMissed(MONDAY_AND_FRIDAY, FRIDAY_NOON)
  {
    var days := MONDAY_AND_FRIDAY.daysofweek;
    assert Lower(days[0]) == "monday" && Lower(days[1]) == "friday" && Lower("active") == "active";
    assert days[0] in days && days[1] in days;
    assert 1 in ListedDays(days) && 5 in ListedDays(days);
  }

  /** Monday and Friday from nine to ten, asked on Friday noon: not next Monday but a week later. */
  lemma {:induction false} FridayWaitsAWeek(wait: int)
    requires ValidHours(MONDAY_AND_FRIDAY) && ValidMoment(FRIDAY_NOON) &&
             NextStart(MONDAY_AND_FRIDAY, FRIDAY_NOON, wait)
    ensures wait == 7 * DAY - 180 && Open(MONDAY_AND_FRIDAY, Later(FRIDAY_NOON, 3 * DAY - 180))
  {
    FridayNoonIsPast();
    var slots := [Range(540, 600)];
    assert Within(slots[0], 540, false) && Covers(slots, 540, false);
    assert Later(FRIDAY_NOON, 3 * DAY - 180) == Moment(1, 540);
    var m := (720 + wait) % DAY;
    assert Covers(slots, m, false) && NoneBetween(slots, 0, m);
    assert m == 540;
  }

  /** From 8PM until midnight, asked at 9PM: the window is open, and yet the wait is until 8PM tomorrow. */
  lemma {:induction false} OpenEveningWaitsADay(wait: int)
    requires NextStart(TimeWindow("active", [], [Range(1200, 0)]), Moment(1, 1260), wait)
    ensures wait == DAY - 60 && Open(TimeWindow("active", [], [Range(1200, 0)]), Moment(1, 1260))
  {
    var tw, now := TimeWindow("active", [], [Range(1200, 0)]), Moment(1, 1260);
    var hours := OrientAll(tw.hours);
    assert Lower("active") == "active" && hours == [Range(1200, 0)];
    assert hours[0] in hours && UntilMidnight(tw) && HoursMissed(tw, now);
    assert Within(hours[0], 1260, false) && Within(hours[0], 1200, false) && Covers(hours, 1200, false);
    var m := (now.minute + wait) % DAY;
    assert NoneBetween(hours, 0, m) && Covers(hours, m, false);
    assert m == 1200;
  }

  /** The same Friday at the requeue: that the window opens on Monday goes unnoticed. */
  lemma {:induction false} RequeueMissesMonday()
    ensures ValidHours(MONDAY_AND_FRIDAY) && ChangeMissed(MONDAY_AND_FRIDAY, FRIDAY_NOON)
  {
    FridayNoonIsPast();
  }

  const MONDAY_EVENING := TimeWindow("active", ["Monday"], [Range(1200, 0)])

  /** Mondays from 8PM until midnight, asked at 9PM: that the window closes at midnight goes unnoticed. */
  lemma {:induction false} RequeueMissesMidnight()
    ensures ValidHours(MONDAY_EVENING) && EveningMissed(MONDAY_EVENING, Moment(1, 1260))
  {
    var hours, days := OrientAll(MONDAY_EVENING.hours), MONDAY_EVENING.daysofweek;
    assert Lower("active") == "active" && hours == [Range(1200, 0)] && hours[0] in hours;
    assert Lower(days[0]) == "monday" && days[0] in days && 1 in ListedDays(days);
    assert forall m | 1200 <= m < DAY :: Within(hours[0], m, true) && Covers(hours, m, true);
    assert Within(hours[0], 1260, false) && Open(MONDAY_EVENING, Moment(1, 1260));
    assert !Interior(hours, 0) && 2 !in ListedDays(days);
  }

  /** Every weekday blocked, no hours: no moment is open, and yet the wait is zero. */
  lemma {:induction false} AllWeekBlocksNothing(now: Moment, wait: int)
    requires ValidMoment(now) && NextStart(TimeWindow("blocked", NAMES, []), now, wait)
    ensures wait == 0 && forall t | ValidMoment(t) :: !Open(TimeWindow("blocked", NAMES, []), t)
  {
    AllDaysAreListed();
  }

  lemma {:induction false} AllDaysAreListed()
    ensures Lower("blocked") == "blocked" && forall d | 0 <= d < WEEK :: d in ListedDays(NAMES)
  {
    forall d | 0 <= d < WEEK ensures d in ListedDays(NAMES) {
      NamesAndDays();
      assert NAMES[d] in NAMES && Lower(NAMES[d]) == NAMES[d];
    }
  }
}
