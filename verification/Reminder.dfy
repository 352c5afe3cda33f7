/** The course reminder (`CourseReminder` in reminder.py): the academic week
    of a date, today's courses, class start times, and the two places that
    decide whether a class is close enough to remind of. */
module Reminder {
  import opened Common
  import opened Sorting

  /** A course record as this variant stores it. */
  datatype Course = Course(
    course_name: string, day: string, time: string, classroom: string, teacher: string,
    start_week: int, end_week: int, period: int)

  // ================================================================ calendar dates

  datatype Date = Date(year: int, month: int, day: int)

  predicate IsLeapYear(y: int) {
    y % 4 == 0 && (y % 100 != 0 || y % 400 == 0)
  }

  function DaysInMonth(y: int, m: int): (n: int)
    requires 1 <= m <= 12
    ensures 28 <= n <= 31
  {
    if m == 2 then (if IsLeapYear(y) then 29 else 28)
    else if m == 4 || m == 6 || m == 9 || m == 11 then 30
    else 31
  }

  /** The dates Python's `date` accepts. */
  predicate ValidDate(d: Date) {
    1 <= d.year <= 9999 && 1 <= d.month <= 12 && 1 <= d.day <= DaysInMonth(d.year, d.month)
  }

  type CalendarDate = d: Date | ValidDate(d) witness Date(2024, 9, 1)

  /** Days in the years before `y`, proleptic Gregorian. */
  function DaysBeforeYear(y: int): int
    requires y >= 1
  {
    var p := y - 1;
    p * 365 + p / 4 - p / 100 + p / 400
  }

  /** Days in the months of year `y` before month `m`. */
  function DaysBeforeMonth(y: int, m: int): int
    requires 1 <= m <= 12
  {
    [0, 31, 59, 90, 120, 151, 181, 212, 243, 273, 304, 334][m - 1]
    + (if m > 2 && IsLeapYear(y) then 1 else 0)
  }

  /** `date.toordinal()`: 1 for 0001-01-01, one more for every following day. */
  function Ordinal(d: CalendarDate): (n: int)
    ensures n >= 1
  {
    DaysBeforeYear(d.year) + DaysBeforeMonth(d.year, d.month) + d.day
  }

  /** The ordinal counts days: the next day of the same month, the first
      day of the next month and the first day of the next year each come
      one after the day before them. */
  lemma OrdinalCountsDays(d: CalendarDate)
    ensures d.day < DaysInMonth(d.year, d.month) ==>
      Ordinal(Date(d.year, d.month, d.day + 1)) == Ordinal(d) + 1
    ensures d.day == DaysInMonth(d.year, d.month) && d.month < 12 ==>
      Ordinal(Date(d.year, d.month + 1, 1)) == Ordinal(d) + 1
    ensures d.day == 31 && d.month == 12 && d.year < 9999 ==>
      Ordinal(Date(d.year + 1, 1, 1)) == Ordinal(d) + 1
  {
    if d.day == 31 && d.month == 12 && d.year < 9999 {
      YearLength(d.year);
    }
  }

  lemma YearLength(y: int)
    requires y >= 1
    ensures DaysBeforeYear(y + 1) == DaysBeforeYear(y) + (if IsLeapYear(y) then 366 else 365)
  {
    var p := y - 1;
    DivisionStep(p);
    MultipleOfMultiple(y);
  }

  /** How the three floor quotients of the day count move from `p` to `p + 1`. */
  lemma DivisionStep(p: int)
    requires p >= 0
    ensures (p + 1) / 4 == p / 4 + (if (p + 1) % 4 == 0 then 1 else 0)
    ensures (p + 1) / 100 == p / 100 + (if (p + 1) % 100 == 0 then 1 else 0)
    ensures (p + 1) / 400 == p / 400 + (if (p + 1) % 400 == 0 then 1 else 0)
  {
  }

  lemma MultipleOfMultiple(y: int)
    ensures y % 400 == 0 ==> y % 100 == 0
    ensures y % 100 == 0 ==> y % 4 == 0
  {
    var q, d, f := y / 400, y / 100, y / 4;
    assert y == 400 * q + y % 400 && 0 <= y % 400 < 400;
    assert y == 100 * d + y % 100 && 0 <= y % 100 < 100;
    assert y == 4 * f + y % 4 && 0 <= y % 4 < 4;
    if y % 400 == 0 {
      assert y % 100 == 100 * (4 * q - d);
    }
    if y % 100 == 0 {
      assert y % 4 == 4 * (25 * d - f);
    }
  }

  // ================================================================ _get_current_week

  /** `datetime(2024, 9, 1)`, the Sunday the first week starts on. */
  const TermStart: CalendarDate := Date(2024, 9, 1)

  const MicrosPerDay: int := 86400 * 1000000

  /** `(D * MicrosPerDay + t) // MicrosPerDay` is `D` for a time of day `t`. */
  lemma DayOfInstant(days: int, t: int)
    requires 0 <= t < MicrosPerDay
    ensures (days * MicrosPerDay + t) / MicrosPerDay == days
  {
  }

  /** `_get_current_week`: the whole days from midnight of the term start to
      now, floor-divided by 7, plus 1. The time of day never counts. */
  function CurrentWeek(today: CalendarDate, now: Clock): (week: int)
    ensures week == (Ordinal(today) - Ordinal(TermStart)) / 7 + 1
  {
    var elapsed := (Ordinal(today) - Ordinal(TermStart)) * MicrosPerDay + ClockMicros(now);
    DayOfInstant(Ordinal(today) - Ordinal(TermStart), ClockMicros(now));
    var days := elapsed / MicrosPerDay;
    days / 7 + 1
  }

  /** The term starts in week 1 and the following Sunday starts week 2. */
  lemma WeekOfTermStart(now: Clock)
    ensures CurrentWeek(TermStart, now) == 1
    ensures CurrentWeek(Date(2024, 9, 7), now) == 1
    ensures CurrentWeek(Date(2024, 9, 8), now) == 2
  {
  }

  /** Seven days later is exactly one week later, whatever the times of day. */
  lemma WeekAfterSevenDays(d1: CalendarDate, d2: CalendarDate, c1: Clock, c2: Clock)
    requires Ordinal(d2) == Ordinal(d1) + 7
    ensures CurrentWeek(d2, c2) == CurrentWeek(d1, c1) + 1
  {
  }

  /** Nothing clamps the week: any day before the term start is week 0 or
      lower. */
  lemma WeekBeforeTermStart(d: CalendarDate, now: Clock)
    requires Ordinal(d) < Ordinal(TermStart)
    ensures CurrentWeek(d, now) <= 0
  {
  }

  /** The week never goes back as the date goes forward. */
  lemma WeekMonotone(d1: CalendarDate, d2: CalendarDate, c1: Clock, c2: Clock)
    requires Ordinal(d1) <= Ordinal(d2)
    ensures CurrentWeek(d1, c1) <= CurrentWeek(d2, c2)
  {
  }

  // ================================================================ _get_today_courses

  /** The condition of the comprehension in `_get_today_courses`. */
  predicate IsToday(c: Course, weekday: Weekday, week: int) {
    c.day == WeekdayName(weekday) && week >= c.start_week && week <= c.end_week
  }

  /** The sort key `x['period']`. */
  function PeriodOrder(c: Course): Key {
    Key(c.period, 0)
  }

  /** The comprehension, before sorting. */
  function TodayCandidates(schedule: seq<Course>, weekday: Weekday, week: int): seq<Course> {
    Filter(schedule, (c: Course) => IsToday(c, weekday, week))
  }

  /** `_get_today_courses` for a given weekday and week: the matching
      courses, sorted by period. */
  function TodayCourses(schedule: seq<Course>, weekday: Weekday, week: int): (r: seq<Course>)
    ensures |r| <= |schedule|
  {
    SortBy(TodayCandidates(schedule, weekday, week), PeriodOrder)
  }

  /** A course is kept exactly when it is on today's weekday and the week is
      within its range. */
  lemma TodayCoursesMembers(schedule: seq<Course>, weekday: Weekday, week: int, c: Course)
    ensures c in TodayCourses(schedule, weekday, week) <==> c in schedule && IsToday(c, weekday, week)
  {
    var f := TodayCandidates(schedule, weekday, week);
    SortByIsPermutation(f, PeriodOrder);
    assert c in TodayCourses(schedule, weekday, week) <==> c in multiset(f);
    FilterMembers(schedule, (c: Course) => IsToday(c, weekday, week), c);
  }

  /** The kept courses are ordered by period, each as often as in the
      schedule, and courses of the same period keep their schedule order. */
  lemma TodayCoursesOrdered(schedule: seq<Course>, weekday: Weekday, week: int)
    ensures SortedBy(TodayCourses(schedule, weekday, week), PeriodOrder)
    ensures multiset(TodayCourses(schedule, weekday, week)) == multiset(TodayCandidates(schedule, weekday, week))
    ensures forall k :: WithKey(TodayCourses(schedule, weekday, week), PeriodOrder, k)
                     == WithKey(TodayCandidates(schedule, weekday, week), PeriodOrder, k)
  {
    var f := TodayCandidates(schedule, weekday, week);
    SortByIsSorted(f, PeriodOrder);
    SortByIsPermutation(f, PeriodOrder);
    forall k {
      SortByIsStable(f, PeriodOrder, k);
    }
  }

  // ================================================================ start times

  /** An hour and a minute `datetime.replace` accepts. */
  predicate ValidHourMinute(hm: (int, int)) {
    0 <= hm.0 < 24 && 0 <= hm.1 < 60
  }

  /** The second of the day at which `hh:mm:00` falls. */
  function SecondOf(hm: (int, int)): (s: SecondOfDay)
    requires ValidHourMinute(hm)
    ensures s / 3600 == hm.0 && s % 3600 / 60 == hm.1 && s % 60 == 0
  {
    hm.0 * 3600 + hm.1 * 60
  }

  /** `_parse_course_time`: the start `(h, m)` read as `get_class_time_from_str`
      does and placed on today's date with `datetime.replace`, which rejects
      an hour outside 0..23 or a minute outside 0..59; that failure is `None`
      as well. The result is the start in seconds since midnight. */
  function ParseCourseTime(time: string): (r: Option<SecondOfDay>)
    ensures r.Some? <==> StartClock(time).Some? && ValidHourMinute(StartClock(time).value)
  {
    var t := StartClock(time);
    if t.Some? && ValidHourMinute(t.value) then Some(SecondOf(t.value)) else None
  }

  /** A range written `HH:MM-...` reads back as the start it names. */
  lemma ParseCourseTimeOfRange(h: nat, m: nat, end: string)
    requires h < 24 && m < 60
    ensures ParseCourseTime(TwoDigits(h) + ":" + TwoDigits(m) + "-" + end) == Some(SecondOf((h, m)))
  {
    StartClockOfRange(h, m, end);
  }

  // ================================================================ the firing windows

  /** The test in `_reminder_loop`: `course_time - lead minutes <= now < course_time`,
      compared to the microsecond. */
  predicate InLoopWindow(start: SecondOfDay, lead: int, now: Clock) {
    start * 1000000 - lead * 60 * 1000000 <= ClockMicros(now) < start * 1000000
  }

  /** The test in `get_upcoming_courses`: `0 < (class_dt - now) in minutes <= lead`. */
  predicate InUpcomingWindow(start: SecondOfDay, lead: int, now: Clock) {
    var diff := start * 1000000 - ClockMicros(now);
    0 < diff && diff <= lead * 60 * 1000000
  }

  /** The two code paths use the same half-open window before the start. */
  lemma WindowsAgree(start: SecondOfDay, lead: int, now: Clock)
    ensures InLoopWindow(start, lead, now) <==> InUpcomingWindow(start, lead, now)
  {
  }

  /** Both windows are empty unless the lead is at least a minute, and
      both end strictly before the start. */
  lemma WindowsBeforeStart(start: SecondOfDay, lead: int, now: Clock)
    ensures InLoopWindow(start, lead, now) ==> lead >= 1 && ClockMicros(now) < start * 1000000
    ensures InUpcomingWindow(start, lead, now) ==> lead >= 1 && ClockMicros(now) < start * 1000000
  {
  }

  /** Nothing records that a reminder was sent: a tick on each of the `lead`
      whole minutes before the start finds the course inside the window
      again. */
  lemma WindowRepeats(start: SecondOfDay, lead: int, k: int)
    requires 1 <= k <= lead && start - 60 * k >= 0
    ensures InLoopWindow(start, lead, Clock(start - 60 * k, 0))
  {
  }

  /** A course whose start reads and whose window contains `now`. */
  predicate IsDue(c: Course, lead: int, now: Clock) {
    ParseCourseTime(c.time).Some? && InLoopWindow(ParseCourseTime(c.time).value, lead, now)
  }

  /** The courses of `today` the loop passes to the callback. */
  function DueCourses(today: seq<Course>, lead: int, now: Clock): seq<Course> {
    Filter(today, (c: Course) => IsDue(c, lead, now))
  }

  // ================================================================ get_today_courses / get_upcoming_courses

  /** The key `get_class_time_from_str(x['time'])`, as a pair. */
  function ClockKey(c: Course): Key {
    var t := StartClock(c.time).GetOr((0, 0));
    Key(t.0, t.1)
  }

  predicate AllTimesRead(s: seq<Course>) {
    forall i :: 0 <= i < |s| ==> StartClock(s[i].time).Some?
  }

  /** The courses on a given weekday, in schedule order. */
  function OnWeekday(courses: seq<Course>, weekday: Weekday): seq<Course> {
    Filter(courses, (c: Course) => c.day == WeekdayName(weekday))
  }

  /** `get_today_courses`: the courses of the weekday, whatever the week,
      sorted by start `(hour, minute)`. With two or more such courses, one
      unreadable time makes the sort compare `None` and raise `TypeError`,
      which is `None` here. */
  function GetTodayCourses(courses: seq<Course>, weekday: Weekday): (r: Option<seq<Course>>)
    ensures r.None? <==> |OnWeekday(courses, weekday)| >= 2 && !AllTimesRead(OnWeekday(courses, weekday))
    ensures r.Some? ==> multiset(r.value) == multiset(OnWeekday(courses, weekday))
    ensures r.Some? ==> SortedBy(r.value, ClockKey)
    ensures r.Some? ==> forall k :: WithKey(r.value, ClockKey, k) == WithKey(OnWeekday(courses, weekday), ClockKey, k)
  {
    var todays := OnWeekday(courses, weekday);
    if |todays| >= 2 && !AllTimesRead(todays) then None
    else
      SortByIsPermutation(todays, ClockKey);
      SortByIsSorted(todays, ClockKey);
      assert forall k :: WithKey(SortBy(todays, ClockKey), ClockKey, k) == WithKey(todays, ClockKey, k) by {
        forall k ensures WithKey(SortBy(todays, ClockKey), ClockKey, k) == WithKey(todays, ClockKey, k) {
          SortByIsStable(todays, ClockKey, k);
        }
      }
      Some(SortBy(todays, ClockKey))
  }

  /** A single course of the day is returned as is, readable or not. */
  lemma GetTodayCoursesSingle(courses: seq<Course>, weekday: Weekday)
    requires |OnWeekday(courses, weekday)| <= 1
    ensures GetTodayCourses(courses, weekday) == Some(OnWeekday(courses, weekday))
  {
    SortByOfShort(OnWeekday(courses, weekday), ClockKey);
  }

  /** The loop of `get_upcoming_courses` over the sorted courses: unreadable
      times are skipped, an hour or minute `replace` rejects raises
      (`None`), courses in the window are kept in order. */
  function Upcoming(today: seq<Course>, lead: int, now: Clock): (r: Option<seq<Course>>)
    ensures r.Some? ==> |r.value| <= |today|
  {
    if today == [] then Some([])
    else
      var t := StartClock(today[0].time);
      if t.None? then Upcoming(today[1..], lead, now)
      else if !ValidHourMinute(t.value) then None
      else
        Prepend(if InUpcomingWindow(SecondOf(t.value), lead, now) then [today[0]] else [],
                Upcoming(today[1..], lead, now))
  }

  /** A start that reads but that `datetime.replace` rejects. */
  predicate OutOfRange(c: Course) {
    StartClock(c.time).Some? && !ValidHourMinute(StartClock(c.time).value)
  }

  /** The loop raises exactly when some course has a start that reads but
      is out of range; an unreadable start is skipped, not an error. */
  lemma {:induction false} UpcomingFails(today: seq<Course>, lead: int, now: Clock)
    ensures Upcoming(today, lead, now).None? <==> exists c :: c in today && OutOfRange(c)
  {
    if today != [] {
      UpcomingFails(today[1..], lead, now);
      assert today == [today[0]] + today[1..];
      if !OutOfRange(today[0]) {
        assert (exists c :: c in today && OutOfRange(c)) <==> (exists c :: c in today[1..] && OutOfRange(c));
      }
    }
  }

  /** When no time is out of range, `get_upcoming_courses` keeps exactly the
      courses the reminder loop would send for the same instant. */
  lemma {:induction false} UpcomingIsDue(today: seq<Course>, lead: int, now: Clock)
    requires Upcoming(today, lead, now).Some?
    ensures Upcoming(today, lead, now).value == DueCourses(today, lead, now)
  {
    if today != [] {
      var c := today[0];
      DueCoursesCons(today, lead, now);
      var t := StartClock(c.time);
      if t.Some? {
        assert ValidHourMinute(t.value);
        assert ParseCourseTime(c.time) == Some(SecondOf(t.value));
        WindowsAgree(SecondOf(t.value), lead, now);
      }
      UpcomingIsDue(today[1..], lead, now);
    }
  }

  lemma DueCoursesCons(today: seq<Course>, lead: int, now: Clock)
    requires today != []
    ensures DueCourses(today, lead, now)
         == (if IsDue(today[0], lead, now) then [today[0]] else []) + DueCourses(today[1..], lead, now)
  {
    FilterCons(today, (c: Course) => IsDue(c, lead, now));
  }

  lemma DueCoursesPrefix(today: seq<Course>, i: nat, lead: int, now: Clock)
    requires i < |today|
    ensures DueCourses(today[..i + 1], lead, now)
         == DueCourses(today[..i], lead, now) + (if IsDue(today[i], lead, now) then [today[i]] else [])
  {
    FilterPrefix(today, i, (c: Course) => IsDue(c, lead, now));
  }

  /** `get_upcoming_courses` for one user's courses. */
  function UpcomingCourses(courses: seq<Course>, weekday: Weekday, lead: int, now: Clock): (r: Option<seq<Course>>)
    ensures r.Some? ==> |r.value| <= |OnWeekday(courses, weekday)|
  {
    match GetTodayCourses(courses, weekday)
    case None => None
    case Some(today) =>
      assert |today| == |multiset(today)| == |OnWeekday(courses, weekday)|;
      Upcoming(today, lead, now)
  }

  /** Two sequences with the same multiset have the same members. */
  lemma SameMembers(a: seq<Course>, b: seq<Course>)
    requires multiset(a) == multiset(b)
    ensures forall c :: c in a <==> c in b
  {
    forall c ensures c in a <==> c in b {
      assert c in a <==> c in multiset(a);
      assert c in b <==> c in multiset(b);
    }
  }

  /** Prefixes a successful result. */
  function Prepend(acc: seq<Course>, r: Option<seq<Course>>): Option<seq<Course>> {
    match r
    case None => None
    case Some(s) => Some(acc + s)
  }

  lemma PrependTwice(a: seq<Course>, b: seq<Course>, r: Option<seq<Course>>)
    ensures Prepend(a, Prepend(b, r)) == Prepend(a + b, r)
  {
    if r.Some? {
      assert a + (b + r.value) == (a + b) + r.value;
    }
  }

  /** One step of `Upcoming`, for the loop of `SelectUpcoming`. */
  lemma UpcomingStep(today: seq<Course>, i: nat, lead: int, now: Clock)
    requires i < |today|
    ensures Upcoming(today[i..], lead, now) ==
      var t := StartClock(today[i].time);
      if t.None? then Upcoming(today[i + 1..], lead, now)
      else if !ValidHourMinute(t.value) then None
      else
        Prepend(if InUpcomingWindow(SecondOf(t.value), lead, now) then [today[i]] else [],
                Upcoming(today[i + 1..], lead, now))
  {
    assert today[i..][0] == today[i] && today[i..][1..] == today[i + 1..];
  }

  // ================================================================ the reminder object

  class CourseReminder {
    /** Minutes of warning before a class. */
    const reminder_time: int

    /** Whether `set_callback` has installed a callback; the callback itself
        is outside the model. */
    var has_callback: bool

    constructor(reminder_time: int)
      ensures this.reminder_time == reminder_time && !has_callback
    {
      this.reminder_time := reminder_time;
      has_callback := false;
    }

    method SetCallback()
      modifies this
      ensures has_callback
    {
      has_callback := true;
    }

    /** One pass of `_reminder_loop` at `today`/`now`: the courses handed to
        the callback, in order. */
    method ReminderTick(schedule: seq<Course>, today: CalendarDate, weekday: Weekday, now: Clock)
      returns (sent: seq<Course>)
      ensures sent == if has_callback then DueCourses(TodayCourses(schedule, weekday, CurrentWeek(today, now)), reminder_time, now) else []
    {
      var todays := TodayCourses(schedule, weekday, CurrentWeek(today, now));
      sent := SendDue(todays, now);
    }

    /** The `for` loop of `_reminder_loop` over today's courses. */
    method SendDue(todays: seq<Course>, now: Clock) returns (sent: seq<Course>)
      ensures sent == if has_callback then DueCourses(todays, reminder_time, now) else []
    {
      sent := [];
      var i := 0;
      while i < |todays|
        invariant 0 <= i <= |todays|
        invariant sent == if has_callback then DueCourses(todays[..i], reminder_time, now) else []
      {
        DueCoursesPrefix(todays, i, reminder_time, now);
        var reminded := RemindIfDue(todays[i], now);
        sent := sent + reminded;
        i := i + 1;
      }
      assert todays[..i] == todays;
    }

    /** The body of that loop for one course. */
    method RemindIfDue(course: Course, now: Clock) returns (reminded: seq<Course>)
      ensures reminded == if has_callback && IsDue(course, reminder_time, now) then [course] else []
    {
      reminded := [];
      var course_time := ParseCourseTime(course.time);
      if course_time.Some? {
        if InLoopWindow(course_time.value, reminder_time, now) {
          if has_callback {
            reminded := [course];
          }
        }
      }
    }

    /** `get_upcoming_courses` for one user's courses at `now`. */
    method GetUpcomingCourses(courses: seq<Course>, weekday: Weekday, now: Clock)
      returns (r: Option<seq<Course>>)
      ensures r == UpcomingCourses(courses, weekday, reminder_time, now)
      ensures r.None? <==>
        GetTodayCourses(courses, weekday).None? || exists c :: c in OnWeekday(courses, weekday) && OutOfRange(c)
      ensures r.Some? ==> r.value == DueCourses(GetTodayCourses(courses, weekday).value, reminder_time, now)
    {
      var today_courses := GetTodayCourses(courses, weekday);
      if today_courses.Some? {
        SameMembers(today_courses.value, OnWeekday(courses, weekday));
      }
      if today_courses.None? {
        return None;
      }
      r := SelectUpcoming(today_courses.value, now);
    }

    /** The `for` loop of `get_upcoming_courses` over the sorted courses. */
    method SelectUpcoming(todays: seq<Course>, now: Clock) returns (r: Option<seq<Course>>)
      ensures r == Upcoming(todays, reminder_time, now)
      ensures r.None? <==> exists c :: c in todays && OutOfRange(c)
      ensures r.Some? ==> r.value == DueCourses(todays, reminder_time, now)
    {
      UpcomingFails(todays, reminder_time, now);
      if Upcoming(todays, reminder_time, now).Some? {
        UpcomingIsDue(todays, reminder_time, now);
      }
      var upcoming: seq<Course> := [];
      var i := 0;
      assert todays[i..] == todays;
      assert Upcoming(todays, reminder_time, now).Some? ==>
        upcoming + Upcoming(todays, reminder_time, now).value == Upcoming(todays, reminder_time, now).value;
      while i < |todays|
        invariant 0 <= i <= |todays|
        invariant Upcoming(todays, reminder_time, now) == Prepend(upcoming, Upcoming(todays[i..], reminder_time, now))
      {
        var class_time := StartClock(todays[i].time);
        UpcomingStep(todays, i, reminder_time, now);
        if class_time.Some? {
          // `now.replace(hour=..., minute=...)` raises for these, and
          // nothing in `get_upcoming_courses` catches it
          if !ValidHourMinute(class_time.value) {
            return None;
          }
          ghost var rest := Upcoming(todays[i + 1..], reminder_time, now);
          if InUpcomingWindow(SecondOf(class_time.value), reminder_time, now) {
            PrependTwice(upcoming, [todays[i]], rest);
            upcoming := upcoming + [todays[i]];
          } else {
            PrependTwice(upcoming, [], rest);
            assert upcoming + [] == upcoming;
          }
        }
        i := i + 1;
      }
      assert todays[i..] == [] && upcoming + [] == upcoming;
      return Some(upcoming);
    }
  }
}
