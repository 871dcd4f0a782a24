/**
 Time windows (pkg/utils/timewindow.go): how long until a subscription may
 deploy again, and when its status must be looked at next.  A week is seven days
 of 1440 minutes; every wait is in minutes.
 */
module TimeWindows {
  import opened HourRanges
  import opened Sorting
  import opened Text

  const WEEK := 7

  datatype Moment = Moment(day: int, minute: int)

  datatype TimeWindow = TimeWindow(windowType: string, daysofweek: seq<string>, hours: seq<Range>)

  const WEEKDAYS: map<string, int> := map[
    "sunday" := 0, "monday" := 1, "tuesday" := 2, "wednesday" := 3,
    "thursday" := 4, "friday" := 5, "saturday" := 6]

  const NAMES: seq<string> := ["sunday", "monday", "tuesday", "wednesday", "thursday", "friday", "saturday"]

  function DayAfter(day: int, k: int): int {
    (day + k) % WEEK
  }

  predicate IsBlocking(tw: TimeWindow) {
    Lower(tw.windowType) == "block" || Lower(tw.windowType) == "blocked"
  }

  predicate ValidMoment(t: Moment) {
    0 <= t.day < WEEK && 0 <= t.minute < DAY
  }

  /** The hour strings parse, as minutes of the day. */
  predicate ValidHours(tw: TimeWindow) {
    forall r | r in tw.hours :: OnClock(r)
  }

  /** The moment a number of minutes later. */
  function Later(now: Moment, wait: int): (t: Moment)
    requires ValidMoment(now) && wait >= 0
    ensures ValidMoment(t)
  {
    Moment(DayAfter(now.day, (now.minute + wait) / DAY), (now.minute + wait) % DAY)
  }

  /** The weekdays that the list names. */
  ghost function ListedDays(names: seq<string>): (days: set<int>)
    ensures forall d | d in days :: 0 <= d < WEEK
  {
    set name | name in names && Lower(name) in WEEKDAYS :: WEEKDAYS[Lower(name)]
  }

  /**
   What the user asked for.  An active window is open on its days (all, when it
   names none) within its hours; a blocked one is closed on the days it lists
   (every day, when it has no list) strictly within its hours.
   */
  ghost predicate Open(tw: TimeWindow, t: Moment)
    requires ValidHours(tw)
  {
    var days, hours := ListedDays(tw.daysofweek), OrientAll(tw.hours);
    if IsBlocking(tw) then
      !((tw.daysofweek == [] || t.day in days) && (tw.hours == [] || Interior(hours, t.minute)))
    else
      (days == {} || t.day in days) && (tw.hours == [] || Covers(hours, t.minute, false))
  }

  ghost predicate NamesDay(names: seq<string>, d: int) {
    0 <= d < WEEK && exists k :: 0 <= k < |names| && SameLetters(names[k], NAMES[d])
  }

  /** Strictly within the hours as written: on both sides of the minute. */
  ghost predicate WrittenInterior(hours: seq<Range>, m: int) {
    WrittenCover(hours, m, true) && (m == 0 || WrittenCover(hours, m - 1, true))
  }

  /** The same on the window as the user wrote it: names in any case, ranges in either direction. */
  ghost predicate OpenAsWritten(tw: TimeWindow, t: Moment) {
    if SameLetters(tw.windowType, "block") || SameLetters(tw.windowType, "blocked") then
      !((tw.daysofweek == [] || NamesDay(tw.daysofweek, t.day)) &&
        (tw.hours == [] || WrittenInterior(tw.hours, t.minute)))
    else
      ((forall d :: !NamesDay(tw.daysofweek, d)) || NamesDay(tw.daysofweek, t.day)) &&
      (tw.hours == [] || WrittenCover(tw.hours, t.minute, false))
  }

  lemma {:induction false} ListedAsWritten(names: seq<string>, d: int)
    ensures d in ListedDays(names) <==> NamesDay(names, d)
  {
    NamesAndDays();
    if d in ListedDays(names) {
      var name :| name in names && Lower(name) in WEEKDAYS && WEEKDAYS[Lower(name)] == d;
      var k :| 0 <= k < |names| && names[k] == name;
      FoldIsSameLetters(name, NAMES[d]);
    }
    if NamesDay(names, d) {
      var k :| 0 <= k < |names| && SameLetters(names[k], NAMES[d]);
      FoldIsSameLetters(names[k], NAMES[d]);
      assert names[k] in names;
    }
  }

  lemma {:induction false} OpenIsAsWritten(tw: TimeWindow, t: Moment)
    requires ValidHours(tw) && ValidMoment(t)
    ensures Open(tw, t) <==> OpenAsWritten(tw, t)
  {
    FoldIsSameLetters(tw.windowType, "block");
    FoldIsSameLetters(tw.windowType, "blocked");
    OrientKeepsHours(tw.hours);
    forall d ensures d in ListedDays(tw.daysofweek) <==> NamesDay(tw.daysofweek, d) {
      ListedAsWritten(tw.daysofweek, d);
    }
    assert ListedDays(tw.daysofweek) == {} <==> forall d :: !NamesDay(tw.daysofweek, d);
  }

  /** The wait is the shortest one to an open moment. */
  ghost predicate LeastWait(tw: TimeWindow, now: Moment, wait: int)
    requires ValidHours(tw) && ValidMoment(now)
  {
    wait >= 0 && Open(tw, Later(now, wait)) && forall v | 0 <= v < wait :: !Open(tw, Later(now, v))
  }

  // ----- weekdays

  method ValidateDaysOfWeek(names: seq<string>) returns (run: seq<int>, rest: seq<int>)
    ensures forall d :: d in run <==> d in ListedDays(names)
    ensures forall i, j | 0 <= i < j < |run| :: run[i] != run[j]
    ensures names == [] ==> rest == []
    ensures names != [] ==> forall d :: d in rest <==> 0 <= d < WEEK && d !in ListedDays(names)
  {
    run, rest := [], [];
    if |names| == 0 {
      return;
    }
    NamesAndDays();
    var found: set<string> := {};
    for i := 0 to |names|
      invariant forall n | n in found :: n in WEEKDAYS
      invariant forall n | n in WEEKDAYS :: n in found <==> exists k | 0 <= k < i :: Lower(names[k]) == n
      invariant forall d :: d in run <==> 0 <= d < WEEK && NAMES[d] in found
      invariant forall a, b | 0 <= a < b < |run| :: run[a] != run[b]
    {
      var name := Lower(names[i]);
      if name in WEEKDAYS && name !in found {
        run := run + [WEEKDAYS[name]];
        found := found + {name};
      }
    }
    FoundAreListed(names, found);
    var left := WEEKDAYS.Keys;
    while left != {}
      invariant left <= WEEKDAYS.Keys
      invariant forall d :: d in rest <==> 0 <= d < WEEK && NAMES[d] !in left && NAMES[d] !in found
    {
      var name :| name in left;
      if name !in found {
        rest := rest + [WEEKDAYS[name]];
      }
      left := left - {name};
    }
  }

  lemma {:induction false} FoundAreListed(names: seq<string>, found: set<string>)
    requires forall n | n in found :: n in WEEKDAYS
    requires forall n | n in WEEKDAYS :: n in found <==> exists k | 0 <= k < |names| :: Lower(names[k]) == n
    ensures forall d :: d in ListedDays(names) <==> 0 <= d < WEEK && NAMES[d] in found
  {
    NamesAndDays();
    forall d ensures d in ListedDays(names) <==> 0 <= d < WEEK && NAMES[d] in found {
      if d in ListedDays(names) {
        var name :| name in names && Lower(name) in WEEKDAYS && WEEKDAYS[Lower(name)] == d;
        var k :| 0 <= k < |names| && names[k] == name;
        assert Lower(name) in found;
      }
      if 0 <= d < WEEK && NAMES[d] in found {
        var k :| 0 <= k < |names| && Lower(names[k]) == NAMES[d];
        assert names[k] in names;
      }
    }
  }

  lemma {:induction false} NamesAndDays()
    ensures forall n | n in WEEKDAYS :: 0 <= WEEKDAYS[n] < WEEK == |NAMES| && NAMES[WEEKDAYS[n]] == n
    ensures forall d | 0 <= d < WEEK :: NAMES[d] in WEEKDAYS && WEEKDAYS[NAMES[d]] == d
  {
  }

  method SortDays(days: seq<int>) returns (r: seq<int>)
    ensures |r| == |days| && (forall d :: d in r <==> d in days)
    ensures forall i, j | 0 <= i < j < |r| :: r[i] <= r[j]
  {
    var same := (d: int) => d;
    r := SortBy(days, same);
    assert forall i, j | 0 <= i < j < |r| :: same(r[i]) <= same(r[j]);
  }

  predicate IsCurDayInDaysOfWeek(days: seq<int>, day: int) {
    day in days
  }

  /** k days from `day` is the first listed day after it. */
  ghost predicate NextDay(days: seq<int>, day: int, k: int) {
    1 <= k <= WEEK && DayAfter(day, k) in days && forall j | 1 <= j < k :: DayAfter(day, j) !in days
  }

  ghost predicate LatestListed(days: seq<int>, day: int) {
    day in days && forall d | d in days :: d <= day
  }

  lemma {:induction false} LaterThisWeek(days: seq<int>, day: int, d: int)
    requires 0 <= day < d < WEEK && d in days && forall e | e in days :: e <= day || d <= e
    ensures NextDay(days, day, d - day)
  {
  }

  lemma {:induction false} WrapsAround(days: seq<int>, day: int, d: int)
    requires 0 <= d < day < WEEK && d in days && forall e | e in days :: d <= e < day
    ensures NextDay(days, day, WEEK - day + d)
  {
  }

  /**
   Whole days between tonight and the next day to run on; zero when a slot is still
   to come today.  On the latest listed day the answer is always a full week.
   */
  method DurationToNextRunableWeekday(days: seq<int>, slots: seq<Range>, now: Moment)
    returns (wait: int, ghost k: int)
    requires ValidMoment(now) && forall d | d in days :: 0 <= d < WEEK
    ensures days == [] ==> wait == 0
    ensures now.day in days && TillNextSlotInCurrentDay(slots, now.minute) >= 0 ==> wait == 0
    ensures days != [] && !(now.day in days && TillNextSlotInCurrentDay(slots, now.minute) >= 0) ==>
              wait == (k - 1) * DAY && if LatestListed(days, now.day) then k == WEEK else NextDay(days, now.day, k)
  {
    k := 0;
    if |days| == 0 {
      return 0, 0;
    }
    var r := SortDays(days);
    assert forall i | 0 <= i < |r| :: r[i] in r && r[i] in days;
    var last := r[|r| - 1];
    assert last in days;
    var ahead := (WEEK - now.day) + r[0];
    if now.day > last {
      WrapsAround(days, now.day, r[0]);
    } else {
      ahead := DaysAhead(r, slots, now);
      if ahead == 0 {
        return 0, 0;
      }
      if now.day < last {
        LaterThisWeek(days, now.day, now.day + ahead);
      }
    }
    k := ahead;
    wait := (ahead - 1) * DAY;
  }

  /** Days until the first of the sorted days that is still to come, a week if there is none, 0 when today will do. */
  method DaysAhead(r: seq<int>, slots: seq<Range>, now: Moment) returns (ahead: int)
    requires r != [] && now.day <= r[|r| - 1] && forall i, j | 0 <= i < j < |r| :: r[i] <= r[j]
    ensures ahead == 0 <==> now.day in r && TillNextSlotInCurrentDay(slots, now.minute) >= 0
    ensures ahead != 0 && now.day == r[|r| - 1] ==> ahead == WEEK
    ensures ahead != 0 && now.day < r[|r| - 1] ==>
              ahead > 0 && now.day + ahead in r && forall d | d in r :: d <= now.day || now.day + ahead <= d
  {
    ahead := 0;
    var i := 0;
    while i < |r|
      invariant 0 <= i <= |r|
      invariant forall j | 0 <= j < i :: r[j] <= now.day
      invariant i > 0 ==> ahead == r[i - 1] - now.day + WEEK
      invariant TillNextSlotInCurrentDay(slots, now.minute) >= 0 ==> forall j | 0 <= j < i :: r[j] != now.day
    {
      if now.day == r[i] && TillNextSlotInCurrentDay(slots, now.minute) >= 0 {
        return 0;
      }
      if now.day < r[i] {
        return r[i] - now.day;
      }
      ahead := r[i] - now.day + WEEK;
      i := i + 1;
    }
  }

  // ----- slots of a day

  function TimeLeftTillNextMidNight(now: Moment): int {
    DAY - now.minute
  }

  /** Wait until the next slot of the same day, or -1. */
  function TillNextSlotInCurrentDay(slots: seq<Range>, minute: int): int {
    if slots == [] then -1
    else if minute > slots[0].start && (minute <= slots[0].end || IsMidnight(slots[0].end)) then 0
    else if minute <= slots[0].start then slots[0].start - minute
    else TillNextSlotInCurrentDay(slots[1..], minute)
  }

  function FirstSlotFrom(slots: seq<Range>, minute: int): int {
    if slots == [] then 0
    else if minute <= slots[0].start then slots[0].start - minute
    else if minute <= slots[0].end then 0
    else FirstSlotFrom(slots[1..], minute)
  }

  function TillNextSlot(slots: seq<Range>, minute: int): int
    requires slots != []
  {
    if slots[|slots| - 1].end < minute then (DAY - minute) + slots[0].start
    else FirstSlotFrom(slots, minute)
  }

  function TillNextSlotFromMidnight(slots: seq<Range>): int
    requires slots != []
  {
    TillNextSlot(slots, 0)
  }

  /** Slots in order within one day; both merged ranges and their gaps are. */
  ghost predicate DaySlots(slots: seq<Range>) {
    (forall i :: 0 <= i < |slots| ==> 0 <= slots[i].start < DAY && slots[i].start <= Stop(slots[i]) <= DAY) &&
    (forall i, j :: 0 <= i < j < |slots| ==> Stop(slots[i]) <= slots[j].start)
  }

  ghost predicate NoneBetween(slots: seq<Range>, from: int, to: int) {
    forall m | from <= m < to :: !Covers(slots, m, false)
  }

  lemma {:induction false} CurrentDayIsNext(slots: seq<Range>, minute: int)
    requires DaySlots(slots) && 0 <= minute < DAY
    ensures var w := TillNextSlotInCurrentDay(slots, minute);
            if w < 0 then w == -1 && NoneBetween(slots, minute, DAY)
            else minute + w < DAY && Covers(slots, minute + w, false) && NoneBetween(slots, minute, minute + w)
  {
    if slots != [] {
      CoverageOfHead(slots);
      if minute > Stop(slots[0]) {
        CurrentDayIsNext(slots[1..], minute);
      } else {
        var at := if minute > slots[0].start then minute else slots[0].start;
        assert Within(slots[0], at, false);
      }
    }
  }

  lemma {:induction false} CoverageOfHead(slots: seq<Range>)
    requires slots != []
    ensures forall m :: Covers(slots, m, false) <==> Within(slots[0], m, false) || Covers(slots[1..], m, false)
  {
    forall m ensures Covers(slots, m, false) <==> Within(slots[0], m, false) || Covers(slots[1..], m, false) {
      if Covers(slots[1..], m, false) {
        var i :| 0 <= i < |slots[1..]| && Within(slots[1..][i], m, false);
        assert Within(slots[i + 1], m, false);
      }
      if Covers(slots, m, false) {
        var i :| 0 <= i < |slots| && Within(slots[i], m, false);
        assert i > 0 ==> Within(slots[1..][i - 1], m, false);
      }
    }
  }

  lemma {:induction false} FirstSlotIsNext(slots: seq<Range>, minute: int)
    requires slots != [] && DaySlots(slots) && 0 <= minute <= slots[|slots| - 1].end
    requires minute < DAY
    ensures var w := FirstSlotFrom(slots, minute);
            0 <= w && minute + w < DAY && Covers(slots, minute + w, false) && NoneBetween(slots, minute, minute + w)
  {
    CoverageOfHead(slots);
    if minute <= slots[0].start || minute <= slots[0].end {
      var at := if minute > slots[0].start then minute else slots[0].start;
      assert Within(slots[0], at, false);
    } else {
      assert Stop(slots[0]) <= slots[1].start;
      FirstSlotIsNext(slots[1..], minute);
    }
  }

  // ----- the search over days

  /**
   A moment counts when day and slot both do (with an empty list meaning any), or,
   for `either`, when its day is free or a slot covers it.
   */
  ghost predicate Runs(slots: seq<Range>, days: seq<int>, either: bool, t: Moment) {
    if either then t.day in days || Covers(slots, t.minute, false)
    else (days == [] || t.day in days) && (slots == [] || Covers(slots, t.minute, false))
  }

  ghost predicate LeastRun(slots: seq<Range>, days: seq<int>, either: bool, now: Moment, wait: int)
    requires ValidMoment(now)
  {
    wait >= 0 && Runs(slots, days, either, Later(now, wait)) &&
    forall v | 0 <= v < wait :: !Runs(slots, days, either, Later(now, v))
  }

  ghost predicate ClosedOn(slots: seq<Range>, days: seq<int>, either: bool, day: int, from: int, to: int) {
    forall m | from <= m < to :: !Runs(slots, days, either, Moment(day, m))
  }

  function WaitFor(now: Moment, k: int, m: int): int {
    k * DAY + m - now.minute
  }

  lemma {:induction false} LaterIs(now: Moment, k: int, m: int)
    requires ValidMoment(now) && 0 <= k && 0 <= m < DAY && WaitFor(now, k, m) >= 0
    ensures Later(now, WaitFor(now, k, m)) == Moment(DayAfter(now.day, k), m)
  {
  }

  /** Day by day, then minute by minute: the first moment that counts is the least wait. */
  lemma {:induction false} LeastAt(slots: seq<Range>, days: seq<int>, either: bool, now: Moment, k: int, m: int)
    requires ValidMoment(now) && 0 <= k && 0 <= m < DAY && (k == 0 ==> now.minute <= m)
    requires Runs(slots, days, either, Moment(DayAfter(now.day, k), m))
    requires ClosedOn(slots, days, either, now.day, now.minute, if k == 0 then m else DAY)
    requires forall j | 1 <= j < k :: ClosedOn(slots, days, either, DayAfter(now.day, j), 0, DAY)
    requires k > 0 ==> ClosedOn(slots, days, either, DayAfter(now.day, k), 0, m)
    ensures LeastRun(slots, days, either, now, WaitFor(now, k, m))
  {
    var wait := WaitFor(now, k, m);
    LaterIs(now, k, m);
    forall v | 0 <= v < wait ensures !Runs(slots, days, either, Later(now, v)) {
      var j, x := (now.minute + v) / DAY, (now.minute + v) % DAY;
      assert Later(now, v) == Moment(DayAfter(now.day, j), x);
      if j == 0 {
        assert DayAfter(now.day, 0) == now.day;
      }
    }
  }

  ghost predicate Overdue(slots: seq<Range>, days: seq<int>, now: Moment) {
    slots != [] && LatestListed(days, now.day) && (exists d | d in days :: d != now.day) &&
    NoneBetween(slots, now.minute, DAY)
  }

  /** Hours alone, one of them until midnight, looked up after midnight. */
  ghost predicate MidnightMissed(slots: seq<Range>, days: seq<int>, now: Moment) {
    slots != [] && days == [] && slots[|slots| - 1].end == 0 && now.minute > 0
  }

  /** What the generated wait is, for lists of slots and days. */
  ghost predicate NextPoint(slots: seq<Range>, days: seq<int>, now: Moment, blocked: bool, wait: int)
    requires ValidMoment(now)
  {
    (slots == [] && days == [] ==> wait == 0) &&
    (blocked && (slots != [] || days != []) ==> LeastRun(slots, days, true, now, wait)) &&
    (!blocked ==> (LeastRun(slots, days, false, now, wait) <==>
                   !Overdue(slots, days, now) && !MidnightMissed(slots, days, now))) &&
    (!blocked ==> 0 <= wait < WEEK * DAY && Runs(slots, days, false, Later(now, wait))) &&
    (!blocked && Overdue(slots, days, now) ==> wait == WaitFor(now, WEEK, slots[0].start)) &&
    (!blocked && MidnightMissed(slots, days, now) ==> wait == WaitFor(now, 1, slots[0].start))
  }

  method GenerateNextPoint(slots: seq<Range>, days: seq<int>, now: Moment, blocked: bool) returns (wait: int)
    requires ValidMoment(now) && forall d | d in days :: 0 <= d < WEEK
    ensures DaySlots(slots) ==> NextPoint(slots, days, now, blocked, wait)
  {
    if |slots| == 0 && |days| == 0 {
      Anytime(now, blocked);
      return 0;
    }
    if blocked {
      if now.day in days {
        LeastAt(slots, days, true, now, 0, now.minute);
        return 0;
      }
      if |slots| != 0 {
        var cdTime := TillNextSlotInCurrentDay(slots, now.minute);
        if cdTime >= 0 {
          if DaySlots(slots) { BlockedToday(slots, days, now); }
          return cdTime;
        }
      }
      wait := TimeLeftTillNextMidNight(now);
      if |slots| != 0 {
        if DaySlots(slots) { BlockedTillTomorrow(slots, days, now); }
        var nextDay := DayAfter(now.day, 1);
        if !IsCurDayInDaysOfWeek(days, nextDay) {
          wait := wait + TillNextSlotFromMidnight(slots);
        }
      } else {
        var more, k := DurationToNextRunableWeekday(days, slots, now);
        LeastAt(slots, days, true, now, k, 0);
        wait := wait + more;
      }
      return;
    }
    if |slots| == 0 && |days| != 0 {
      if IsCurDayInDaysOfWeek(days, now.day) {
        LeastAt(slots, days, false, now, 0, now.minute);
        return 0;
      }
      var more, k := DurationToNextRunableWeekday(days, slots, now);
      if DaySlots(slots) { OtherDay(slots, days, now, k); }
      return TimeLeftTillNextMidNight(now) + more;
    }
    if |slots| != 0 && |days| == 0 {
      if DaySlots(slots) { HoursOnly(slots, now); }
      return TillNextSlot(slots, now.minute);
    }
    var more, k := DurationToNextRunableWeekday(days, slots, now);
    if !IsCurDayInDaysOfWeek(days, now.day) {
      if DaySlots(slots) { OtherDay(slots, days, now, k); }
      return TimeLeftTillNextMidNight(now) + TillNextSlotFromMidnight(slots) + more;
    }
    if more == 0 {
      var ns := TillNextSlotInCurrentDay(slots, now.minute);
      if ns >= 0 {
        if DaySlots(slots) { LaterToday(slots, days, now); }
        return ns;
      }
    }
    if DaySlots(slots) { AllSlotsPast(slots, days, now, k); }
    return TimeLeftTillNextMidNight(now) + TillNextSlotFromMidnight(slots) + more;
  }

  lemma {:induction false} Anytime(now: Moment, blocked: bool)
    requires ValidMoment(now)
    ensures NextPoint([], [], now, blocked, 0)
  {
    LeastAt([], [], false, now, 0, now.minute);
  }

  lemma {:induction false} BlockedToday(slots: seq<Range>, days: seq<int>, now: Moment)
    requires ValidMoment(now) && DaySlots(slots) && now.day !in days
    requires TillNextSlotInCurrentDay(slots, now.minute) >= 0
    ensures LeastRun(slots, days, true, now, TillNextSlotInCurrentDay(slots, now.minute))
  {
    CurrentDayIsNext(slots, now.minute);
    assert DayAfter(now.day, 0) == now.day;
    LeastAt(slots, days, true, now, 0, now.minute + TillNextSlotInCurrentDay(slots, now.minute));
  }

  lemma {:induction false} BlockedTillTomorrow(slots: seq<Range>, days: seq<int>, now: Moment)
    requires ValidMoment(now) && DaySlots(slots) && slots != [] && now.day !in days
    requires TillNextSlotInCurrentDay(slots, now.minute) < 0
    ensures LeastRun(slots, days, true, now, (DAY - now.minute) +
                     if DayAfter(now.day, 1) in days then 0 else TillNextSlotFromMidnight(slots))
  {
    CurrentDayIsNext(slots, now.minute);
    CurrentDayIsNext(slots, 0);
    LeastAt(slots, days, true, now, 1, if DayAfter(now.day, 1) in days then 0 else slots[0].start);
  }

  lemma {:induction false} OtherDay(slots: seq<Range>, days: seq<int>, now: Moment, k: int)
    requires ValidMoment(now) && DaySlots(slots) && now.day !in days && NextDay(days, now.day, k)
    ensures NextPoint(slots, days, now, false, WaitFor(now, k, if slots == [] then 0 else slots[0].start))
  {
    CurrentDayIsNext(slots, 0);
    assert k != WEEK;
    LeastAt(slots, days, false, now, k, if slots == [] then 0 else slots[0].start);
  }

  lemma {:induction false} LaterToday(slots: seq<Range>, days: seq<int>, now: Moment)
    requires ValidMoment(now) && DaySlots(slots) && now.day in days
    requires TillNextSlotInCurrentDay(slots, now.minute) >= 0
    ensures NextPoint(slots, days, now, false, TillNextSlotInCurrentDay(slots, now.minute))
  {
    CurrentDayIsNext(slots, now.minute);
    assert DayAfter(now.day, 0) == now.day;
    LeastAt(slots, days, false, now, 0, now.minute + TillNextSlotInCurrentDay(slots, now.minute));
  }

  lemma {:induction false} HoursOnly(slots: seq<Range>, now: Moment)
    requires ValidMoment(now) && DaySlots(slots) && slots != []
    ensures NextPoint(slots, [], now, false, TillNextSlot(slots, now.minute))
  {
    var last := slots[|slots| - 1];
    if last.end >= now.minute {
      HoursToday(slots, now);
    } else if last.end != 0 {
      HoursTomorrow(slots, now);
    } else {
      HoursPassedOver(slots, now);
    }
  }

  lemma {:induction false} HoursToday(slots: seq<Range>, now: Moment)
    requires ValidMoment(now) && DaySlots(slots) && slots != [] && slots[|slots| - 1].end >= now.minute
    ensures NextPoint(slots, [], now, false, FirstSlotFrom(slots, now.minute))
  {
    FirstSlotIsNext(slots, now.minute);
    LeastAt(slots, [], false, now, 0, now.minute + FirstSlotFrom(slots, now.minute));
  }

  lemma {:induction false} HoursTomorrow(slots: seq<Range>, now: Moment)
    requires ValidMoment(now) && DaySlots(slots) && slots != [] && slots[|slots| - 1].end < now.minute
    requires slots[|slots| - 1].end != 0
    ensures NextPoint(slots, [], now, false, WaitFor(now, 1, slots[0].start))
  {
    CurrentDayIsNext(slots, 0);
    AllOver(slots, now.minute);
    LeastAt(slots, [], false, now, 1, slots[0].start);
  }

  lemma {:induction false} HoursPassedOver(slots: seq<Range>, now: Moment)
    requires ValidMoment(now) && DaySlots(slots) && slots != [] && slots[|slots| - 1].end == 0 && now.minute > 0
    ensures NextPoint(slots, [], now, false, WaitFor(now, 1, slots[0].start))
  {
    RunsUntilMidnight(slots, now);
    CurrentDayIsNext(slots, 0);
    LaterIs(now, 1, slots[0].start);
  }

  /** A window until midnight lets the subscription run today. */
  lemma {:induction false} RunsUntilMidnight(slots: seq<Range>, now: Moment)
    requires ValidMoment(now) && DaySlots(slots) && slots != [] && slots[|slots| - 1].end == 0
    ensures var start := slots[|slots| - 1].start;
            Runs(slots, [], false, Later(now, if now.minute < start then start - now.minute else 0))
  {
    var last := slots[|slots| - 1];
    var at := if now.minute < last.start then last.start else now.minute;
    assert Within(last, at, false) && Covers(slots, at, false);
    LaterIs(now, 0, at);
    assert DayAfter(now.day, 0) == now.day;
  }

  lemma {:induction false} AllOver(slots: seq<Range>, minute: int)
    requires DaySlots(slots) && slots != [] && slots[|slots| - 1].end < minute && slots[|slots| - 1].end != 0
    ensures NoneBetween(slots, minute, DAY)
  {
    var l := |slots| - 1;
    assert forall i | 0 <= i < l :: Stop(slots[i]) <= slots[l].start;
  }

  lemma {:induction false} AllSlotsPast(slots: seq<Range>, days: seq<int>, now: Moment, k: int)
    requires ValidMoment(now) && DaySlots(slots) && slots != [] && now.day in days
    requires (forall d | d in days :: 0 <= d < WEEK) && TillNextSlotInCurrentDay(slots, now.minute) < 0
    requires if LatestListed(days, now.day) then k == WEEK else NextDay(days, now.day, k)
    ensures var w := WaitFor(now, k, slots[0].start);
            0 <= w < WEEK * DAY && Runs(slots, days, false, Later(now, w)) &&
            (LeastRun(slots, days, false, now, w) <==> !Overdue(slots, days, now))
  {
    CurrentDayIsNext(slots, now.minute);
    CurrentDayIsNext(slots, 0);
    var first := slots[0].start;
    assert Covers(slots, first, false) && first < now.minute;
    LaterIs(now, k, first);
    assert DayAfter(now.day, WEEK) == now.day;
    if d :| LatestListed(days, now.day) && d in days && d != now.day {
      EarlierDayRuns(slots, days, now, d);
    } else {
      NoDayBefore(days, now.day, k);
      LeastAt(slots, days, false, now, k, first);
    }
  }

  lemma {:induction false} EarlierDayRuns(slots: seq<Range>, days: seq<int>, now: Moment, d: int)
    requires ValidMoment(now) && slots != [] && d in days && 0 <= d < now.day && 0 <= slots[0].start < DAY
    requires Covers(slots, slots[0].start, false)
    ensures !LeastRun(slots, days, false, now, WaitFor(now, WEEK, slots[0].start))
  {
    var k := d - now.day + WEEK;
    LaterIs(now, k, slots[0].start);
    assert DayAfter(now.day, k) == d;
    assert Runs(slots, days, false, Later(now, WaitFor(now, k, slots[0].start)));
  }

  lemma {:induction false} NoDayBefore(days: seq<int>, day: int, k: int)
    requires 0 <= day < WEEK && day in days && forall d | d in days :: 0 <= d < WEEK
    requires if LatestListed(days, day) then k == WEEK && forall d | d in days :: d == day else NextDay(days, day, k)
    ensures NextDay(days, day, k)
  {
    if LatestListed(days, day) {
      assert forall j | 1 <= j < WEEK :: DayAfter(day, j) != day;
    }
  }

  // ----- windows

  /** The latest of two or more listed weekdays, after the last hour of the day. */
  ghost predicate PastLatestDay(tw: TimeWindow, now: Moment)
    requires ValidHours(tw)
  {
    var days := ListedDays(tw.daysofweek);
    tw.hours != [] && now.day in days && (forall d | d in days :: d <= now.day) &&
    (exists d | d in days :: d != now.day) &&
    NoneBetween(OrientAll(tw.hours), now.minute, DAY)
  }

  ghost predicate UntilMidnight(tw: TimeWindow)
    requires ValidHours(tw)
  {
    exists r | r in OrientAll(tw.hours) :: r.end == 0
  }

  /** An active window of hours only, one of them until midnight, looked up after midnight. */
  ghost predicate HoursMissed(tw: TimeWindow, now: Moment)
    requires ValidHours(tw)
  {
    !IsBlocking(tw) && tw.hours != [] && ListedDays(tw.daysofweek) == {} && UntilMidnight(tw) && now.minute > 0
  }

  /** No weekday is left free and no hour is: the code never blocks such a window. */
  ghost predicate NeverOpen(tw: TimeWindow)
    requires ValidHours(tw)
  {
    IsBlocking(tw) && (tw.daysofweek == [] || forall d | 0 <= d < WEEK :: d in ListedDays(tw.daysofweek)) &&
    (tw.hours == [] || forall m | 0 <= m < DAY :: Interior(OrientAll(tw.hours), m))
  }

  /** What the wait promises for a window whose hours merge exactly. */
  ghost predicate NextStart(tw: TimeWindow, now: Moment, wait: int)
    requires ValidHours(tw) && ValidMoment(now)
  {
    if IsBlocking(tw) then
      if NeverOpen(tw) then wait == 0 else LeastWait(tw, now, wait)
    else
      (LeastWait(tw, now, wait) <==> !PastLatestDay(tw, now) && !HoursMissed(tw, now)) &&
      0 <= wait < WEEK * DAY && Open(tw, Later(now, wait)) &&
      (PastLatestDay(tw, now) || HoursMissed(tw, now) ==>
        (now.minute + wait) / DAY == (if HoursMissed(tw, now) then 1 else WEEK) &&
        NoneBetween(OrientAll(tw.hours), 0, (now.minute + wait) % DAY))
  }

  method NextStartPoint(tw: TimeWindow, now: Moment) returns (wait: int)
    requires ValidHours(tw) && ValidMoment(now)
    ensures MidnightKept(OrientAll(tw.hours)) ==> NextStart(tw, now, wait)
  {
    var vHr := ValidateHourRange(tw.hours);
    var rDays, rveDays := ValidateDaysOfWeek(tw.daysofweek);
    if IsBlocking(tw) {
      var rvevHr := ReverseRange(vHr);
      wait := GenerateNextPoint(rvevHr, rveDays, now, true);
      if MidnightKept(OrientAll(tw.hours)) {
        BlockedStart(tw, now, vHr, rvevHr, rveDays, wait);
      }
      return;
    }
    wait := GenerateNextPoint(vHr, rDays, now, false);
    if MidnightKept(OrientAll(tw.hours)) {
      ActiveStart(tw, now, vHr, rDays, wait);
    }
  }

  ghost predicate Merged(tw: TimeWindow, slots: seq<Range>)
    requires ValidHours(tw)
  {
    (slots == [] <==> tw.hours == []) && (forall r | r in slots :: Proper(r)) && Separated(slots) &&
    SameCoverage(slots, OrientAll(tw.hours)) && forall r | r in slots && r.end == 0 :: r in OrientAll(tw.hours)
  }

  lemma {:induction false} MergedAreDaySlots(slots: seq<Range>)
    requires (forall r | r in slots :: Proper(r)) && Separated(slots)
    ensures DaySlots(slots)
  {
    AllInBounds(slots);
  }

  lemma {:induction false} LeastIsLeast(tw: TimeWindow, slots: seq<Range>, days: seq<int>, either: bool, now: Moment,
      wait: int)
    requires ValidHours(tw) && ValidMoment(now)
    requires forall t | ValidMoment(t) :: Runs(slots, days, either, t) <==> Open(tw, t)
    ensures LeastRun(slots, days, either, now, wait) <==> LeastWait(tw, now, wait)
  {
  }

  lemma {:induction false} ActiveRuns(tw: TimeWindow, slots: seq<Range>, days: seq<int>)
    requires ValidHours(tw) && !IsBlocking(tw) && Merged(tw, slots)
    requires forall d :: d in days <==> d in ListedDays(tw.daysofweek)
    ensures forall t | ValidMoment(t) :: Runs(slots, days, false, t) <==> Open(tw, t)
  {
    SameEmptiness(days, ListedDays(tw.daysofweek));
  }

  lemma {:induction false} ActiveStart(tw: TimeWindow, now: Moment, slots: seq<Range>, days: seq<int>, wait: int)
    requires ValidHours(tw) && ValidMoment(now) && !IsBlocking(tw) && Merged(tw, slots)
    requires forall d :: d in days <==> d in ListedDays(tw.daysofweek)
    requires DaySlots(slots) ==> NextPoint(slots, days, now, false, wait)
    ensures NextStart(tw, now, wait)
  {
    MergedAreDaySlots(slots);
    ActiveRuns(tw, slots, days);
    LeastIsLeast(tw, slots, days, false, now, wait);
    SameEmptiness(days, ListedDays(tw.daysofweek));
    if slots != [] {
      MidnightRangeIsLast(tw, slots);
    }
    assert PastLatestDay(tw, now) <==> Overdue(slots, days, now);
    assert HoursMissed(tw, now) <==> MidnightMissed(slots, days, now);
    if PastLatestDay(tw, now) || HoursMissed(tw, now) {
      CurrentDayIsNext(slots, 0);
      LandsOnTheFirst(now, if HoursMissed(tw, now) then 1 else WEEK, slots[0].start, wait);
    }
  }

  lemma {:induction false} LandsOnTheFirst(now: Moment, k: int, first: int, wait: int)
    requires 0 <= first < DAY && wait == WaitFor(now, k, first)
    ensures (now.minute + wait) / DAY == k && (now.minute + wait) % DAY == first
  {
  }

  lemma {:induction false} MidnightRangeIsLast(tw: TimeWindow, slots: seq<Range>)
    requires ValidHours(tw) && Merged(tw, slots) && slots != []
    ensures UntilMidnight(tw) <==> slots[|slots| - 1].end == 0
  {
    var hours, l := OrientAll(tw.hours), |slots| - 1;
    AllInBounds(slots);
    assert slots[l] in slots;
    if r :| r in hours && r.end == 0 {
      var i :| 0 <= i < |hours| && hours[i] == r;
      assert Within(hours[i], DAY - 1, true) && Covers(hours, DAY - 1, true);
      assert Covers(slots, DAY - 1, true);
    }
  }

  lemma {:induction false} BlockedStart(tw: TimeWindow, now: Moment, ranges: seq<Range>, slots: seq<Range>,
      days: seq<int>, wait: int)
    requires ValidHours(tw) && ValidMoment(now) && IsBlocking(tw) && Merged(tw, ranges)
    requires Complement(ranges, slots) && (ranges == [] ==> slots == [])
    requires tw.daysofweek == [] ==> days == []
    requires tw.daysofweek != [] ==> forall d :: d in days <==> 0 <= d < WEEK && d !in ListedDays(tw.daysofweek)
    requires DaySlots(slots) ==> NextPoint(slots, days, now, true, wait)
    ensures NextStart(tw, now, wait)
  {
    assert DaySlots(slots);
    BlockedRuns(tw, ranges, slots, days);
    LeastIsLeast(tw, slots, days, true, now, wait);
    NothingLeft(tw, ranges, slots, days);
  }

  lemma {:induction false} SameInterior(a: seq<Range>, b: seq<Range>)
    requires SameCoverage(a, b)
    ensures forall m :: Interior(a, m) <==> Interior(b, m)
  {
  }

  lemma {:induction false} BlockedRuns(tw: TimeWindow, ranges: seq<Range>, slots: seq<Range>, days: seq<int>)
    requires ValidHours(tw) && IsBlocking(tw) && Merged(tw, ranges)
    requires Complement(ranges, slots) && (ranges == [] ==> slots == [])
    requires tw.daysofweek == [] ==> days == []
    requires tw.daysofweek != [] ==> forall d :: d in days <==> 0 <= d < WEEK && d !in ListedDays(tw.daysofweek)
    ensures forall t | ValidMoment(t) :: Runs(slots, days, true, t) <==> Open(tw, t)
  {
    SameInterior(ranges, OrientAll(tw.hours));
  }

  lemma {:induction false} NothingLeft(tw: TimeWindow, ranges: seq<Range>, slots: seq<Range>, days: seq<int>)
    requires ValidHours(tw) && IsBlocking(tw) && Merged(tw, ranges)
    requires Complement(ranges, slots) && (ranges == [] ==> slots == [])
    requires tw.daysofweek == [] ==> days == []
    requires tw.daysofweek != [] ==> forall d :: d in days <==> 0 <= d < WEEK && d !in ListedDays(tw.daysofweek)
    ensures slots == [] && days == [] <==> NeverOpen(tw)
  {
    SameInterior(ranges, OrientAll(tw.hours));
    if slots != [] {
      assert Within(slots[0], slots[0].start, false) && Covers(slots, slots[0].start, false);
      assert !Interior(OrientAll(tw.hours), slots[0].start);
    } else if days != [] {
      var d := days[0];
      assert d in days;
      assert 0 <= d < WEEK && d !in ListedDays(tw.daysofweek);
    } else {
      assert tw.hours != [] ==> forall m | 0 <= m < DAY :: !Covers(slots, m, false) && Interior(OrientAll(tw.hours), m);
    }
  }
}
