/** The chat-plugin variant of the reminder (`main.py`): per-user records kept
    in a dictionary, a configurable table from period keys such as `1-2` to
    clock ranges such as `08:00-09:40`, and one tick of the once-a-minute
    check that sends the evening digest of tomorrow's courses and a reminder
    a fixed number of minutes before each course. */
module Plugin {
  import opened Common

  // ================================================================ records

  /** A course as the plugin stores it: the six fields the language model is
      asked to return. */
  datatype Course = Course(day: string, time: string, name: string, teacher: string,
                           location: string, weeks: string)

  datatype Settings = Settings(enable_reminder: bool, reminder_time: int, enable_daily_reminder: bool)

  /** The free-form `basic_info` object (school, class, major, college). */
  type BasicInfo = map<string, string>

  /** One user's entry of `self.schedules`. */
  datatype UserData = UserData(courses: seq<Course>, settings: Settings, basic_info: BasicInfo)

  /** The plugin configuration. A key that is absent is `None`; the accessors
      give the default the source passes to `config.get`. */
  datatype Config = Config(
    reminder_time: Option<int>,
    enable_daily_reminder: Option<bool>,
    enable_auto_reminder: Option<bool>,
    daily_reminder_time: Option<string>,
    time_slots: Option<map<string, string>>)
  {
    function ReminderTime(): int { reminder_time.GetOr(30) }
    function DailyReminder(): bool { enable_daily_reminder.GetOr(true) }
    function AutoReminder(): bool { enable_auto_reminder.GetOr(true) }
    function DailyTime(): string { daily_reminder_time.GetOr("23:00") }
    function Slots(): map<string, string> { time_slots.GetOr(map[]) }
  }

  /** The record created for a user seen for the first time. */
  function DefaultUserData(config: Config): UserData {
    UserData([], Settings(true, config.ReminderTime(), config.DailyReminder()), map[])
  }

  // ================================================================ period slots

  /** The period key of a course time: the text after the first `第`, up to
      the next `第` or `节`, whichever comes first; `None` unless the time
      holds both characters. */
  function PeriodKey(time: string): (r: Option<string>)
    ensures r.Some? <==> '第' in time && '节' in time
    ensures r.Some? ==> '第' !in r.value && '节' !in r.value
  {
    if '第' in time && '节' in time then
      SplitAtSeparator(time, '第');
      var piece := Split(time, '第')[1];
      SplitPieces(time, '第', 1);
      SplitPieces(piece, '节', 0);
      SplitFirstPrefix(piece, '节');
      Some(Split(piece, '节')[0])
    else None
  }

  /** The key of a time written `<prefix>第<key>节<suffix>` is `<key>`,
      whatever the suffix holds. */
  lemma PeriodKeyOf(prefix: string, key: string, suffix: string)
    requires '第' !in prefix && '第' !in key && '节' !in key
    ensures PeriodKey(prefix + "第" + key + "节" + suffix) == Some(key)
  {
    var time := prefix + "第" + key + "节" + suffix;
    var after := key + "节" + suffix;
    assert time == prefix + ['第'] + after;
    SplitAtFirst(prefix, after, '第');
    assert '第' !in key + "节";
    SplitFirstOfAppend(key + "节", suffix, '第');
    var first := Split(suffix, '第')[0];
    assert key + "节" + first == key + ['节'] + first;
    SplitAtFirst(key, first, '节');
    assert time[|prefix|] == '第' && time[|prefix| + 1 + |key|] == '节';
  }

  /** What `parse_time_slot` gives: no slot, the two halves of the slot, or
      the `ValueError` of unpacking a slot that does not split into exactly
      two halves on `-`. */
  datatype SlotLookup = NoSlot | Slot(start: string, end: string) | SlotError

  function ParseTimeSlot(slots: map<string, string>, time: string): (r: SlotLookup)
    ensures r.Slot? ==> '-' !in r.start && '-' !in r.end
  {
    match PeriodKey(time)
    case None => NoSlot
    case Some(key) =>
      if key !in slots then NoSlot
      else
        var halves := Split(slots[key], '-');
        if |halves| != 2 then SlotError
        else
          SplitPieces(slots[key], '-', 0);
          SplitPieces(slots[key], '-', 1);
          Slot(halves[0], halves[1])
  }

  /** No slot when the time has no key or the key is not in the table; an
      error when the key's entry is not two halves around a single `-`. */
  lemma ParseTimeSlotMisses(slots: map<string, string>, time: string)
    ensures ParseTimeSlot(slots, time).NoSlot? <==> PeriodKey(time).None? || PeriodKey(time).value !in slots
    ensures ParseTimeSlot(slots, time).SlotError? <==>
      PeriodKey(time).Some? && PeriodKey(time).value in slots &&
      !exists a, b :: slots[PeriodKey(time).value] == a + "-" + b && '-' !in a && '-' !in b
  {
    if PeriodKey(time).Some? && PeriodKey(time).value in slots {
      var entry := slots[PeriodKey(time).value];
      var halves := Split(entry, '-');
      if |halves| == 2 {
        SplitPair(entry, '-', halves[0], halves[1]);
        assert halves == [halves[0], halves[1]];
        assert entry == halves[0] + "-" + halves[1];
      } else {
        forall a, b ensures !(entry == a + "-" + b && '-' !in a && '-' !in b) {
          SplitPair(entry, '-', a, b);
        }
      }
    }
  }

  /** A slot is found exactly when the time's key is in the table, and its
      halves are the two sides of the single `-` of the table entry. */
  lemma ParseTimeSlotHalves(slots: map<string, string>, time: string, start: string, end: string)
    ensures ParseTimeSlot(slots, time) == Slot(start, end) <==>
      PeriodKey(time).Some? && PeriodKey(time).value in slots &&
      slots[PeriodKey(time).value] == start + "-" + end && '-' !in start && '-' !in end
  {
    if PeriodKey(time).Some? && PeriodKey(time).value in slots {
      SplitPair(slots[PeriodKey(time).value], '-', start, end);
    }
  }

  /** `format_course_time`: the time followed by `（slot）` when its period
      key is in the table, the time itself otherwise. */
  function FormatCourseTime(slots: map<string, string>, time: string): (r: string)
    ensures time <= r
    ensures PeriodKey(time).Some? && PeriodKey(time).value in slots ==>
      r == time + "（" + slots[PeriodKey(time).value] + "）"
    ensures PeriodKey(time).None? || PeriodKey(time).value !in slots ==> r == time
  {
    match PeriodKey(time)
    case Some(key) => if key in slots then time + "（" + slots[key] + "）" else time
    case None => time
  }

  /** The display changes a time exactly when the lookup finds its key. */
  lemma FormatCourseTimeResolves(slots: map<string, string>, time: string)
    ensures FormatCourseTime(slots, time) != time <==> !ParseTimeSlot(slots, time).NoSlot?
  {
    if PeriodKey(time).Some? && PeriodKey(time).value in slots {
      assert |FormatCourseTime(slots, time)| > |time|;
    }
  }

  // ================================================================ strptime("%H:%M")

  /** The two-character alternatives of `%H`, `2[0-3]` and `[0-1]\d`; they
      cannot both match, and the regular-expression engine tries them before
      the one-character `\d`. */
  predicate LongHour(s: string) {
    |s| >= 2 && ((s[0] == '2' && '0' <= s[1] <= '3') || ((s[0] == '0' || s[0] == '1') && IsDigit(s[1])))
  }

  /** The width `%M` (`[0-5]\d`, then `\d`) matches at the start of `s`. */
  function MinuteWidth(s: string): (w: Option<nat>)
    ensures w.Some? ==> 1 <= w.value <= 2 && w.value <= |s| && AllDigits(s[..w.value])
  {
    if |s| >= 2 && '0' <= s[0] <= '5' && IsDigit(s[1]) then Some(2)
    else if |s| >= 1 && IsDigit(s[0]) then Some(1)
    else None
  }

  /** A `:` and a minute follow an hour of width `n`. */
  predicate HourEnds(s: string, n: nat) {
    n < |s| && s[n] == ':' && MinuteWidth(s[n + 1..]).Some?
  }

  /** The width of the hour in the match `re.match` finds for `%H:%M`: the
      first alternative after which the rest of the pattern matches. */
  function HourWidth(s: string): (w: Option<nat>)
    ensures w.Some? ==> HourEnds(s, w.value) && AllDigits(s[..w.value])
    ensures w == Some(2) ==> LongHour(s)
    ensures w.Some? ==> w.value == 1 || w.value == 2
  {
    if LongHour(s) && HourEnds(s, 2) then Some(2)
    else if |s| >= 1 && IsDigit(s[0]) && HourEnds(s, 1) then Some(1)
    else None
  }

  /** `datetime.strptime(s, "%H:%M")` as an hour and a minute: `None` where
      it raises, because the pattern does not match or because the match
      leaves characters over. */
  function Strptime(s: string): (r: Option<(int, int)>)
    ensures r.Some? ==> 0 <= r.value.0 < 24 && 0 <= r.value.1 < 60
  {
    match HourWidth(s)
    case None => None
    case Some(n) =>
      var m := MinuteWidth(s[n + 1..]).value;
      if n + 1 + m != |s| then None
      else
        var hh, mm := s[..n], s[n + 1..];
        assert mm == s[n + 1..][..m];
        DigitsValueShort(hh);
        DigitsValueShort(mm);
        Some((DigitsValue(hh), DigitsValue(mm)))
  }

  /** Every `%H:%M` rendering reads back. */
  lemma StrptimeFormatHM(h: nat, m: nat)
    requires h < 24 && m < 60
    ensures Strptime(TwoDigits(h) + ":" + TwoDigits(m)) == Some((h, m))
  {
    var hh, mm := TwoDigits(h), TwoDigits(m);
    var s := hh + ":" + mm;
    assert s[..2] == hh && s[2] == ':' && s[3..] == mm;
    assert s[0] == hh[0] && s[1] == hh[1];
    assert LongHour(s);
    assert MinuteWidth(s[3..]) == Some(2);
  }

  /** Unpadded fields read. */
  lemma StrptimeReadsUnpadded()
    ensures Strptime("8:05") == Some((8, 5)) && Strptime("08:5") == Some((8, 5))
  {
    assert !LongHour("8:05") && HourEnds("8:05", 1) && "8:05"[2..] == "05";
    DigitsValueShort("8");
    DigitsValueShort("05");
    assert LongHour("08:5") && HourEnds("08:5", 2) && "08:5"[3..] == "5" && "08:5"[..2] == "08";
    DigitsValueShort("08");
    DigitsValueShort("5");
  }

  /** An hour past 23, a minute past 59 and text left after the minute do
      not read. */
  lemma StrptimeRejects()
    ensures Strptime("24:00") == None && Strptime("08:60") == None && Strptime("08:00 ") == None
  {
    assert "08:60"[3..] == "60" && MinuteWidth("60") == Some(1);
    assert "08:00 "[3..] == "00 " && MinuteWidth("00 ") == Some(2);
    assert !LongHour("24:00") && !HourEnds("24:00", 1);
  }

  // ================================================================ get_class_time_from_str

  /** The module-level `get_class_time_from_str`: the start clock, or `(8, 0)`
      whenever it does not read. */
  function GetClassTimeFromStr(time: string): (hm: (int, int))
    ensures StartClock(time).Some? ==> hm == StartClock(time).value
    ensures StartClock(time).None? ==> hm == (8, 0)
  {
    StartClock(time).GetOr((8, 0))
  }

  /** The start of a range written `HH:MM-<end>` reads back, and a time
      without `:` before its first `-` falls back to 08:00. */
  lemma GetClassTimeOfRange(h: nat, m: nat, end: string, bare: string)
    requires h < 100 && m < 100 && ':' !in bare
    ensures GetClassTimeFromStr(TwoDigits(h) + ":" + TwoDigits(m) + "-" + end) == (h, m)
    ensures GetClassTimeFromStr(bare) == (8, 0)
  {
    StartClockOfRange(h, m, end);
    assert ':' !in Split(bare, '-')[0] by {
      SplitFirstPrefix(bare, '-');
    }
  }

  // ================================================================ the user table

  /** The table after `get_user_settings(user)`: a default record is added
      for an unknown user and every existing record stays as it was. */
  function WithUser(schedules: map<string, UserData>, user: string, config: Config): (r: map<string, UserData>)
    ensures r.Keys == schedules.Keys + {user}
    ensures user in schedules ==> r == schedules
    ensures user !in schedules ==> r[user] == DefaultUserData(config)
  {
    if user in schedules then schedules else schedules[user := DefaultUserData(config)]
  }

  lemma WithUserKeepsOthers(schedules: map<string, UserData>, user: string, config: Config, other: string)
    requires other in schedules
    ensures WithUser(schedules, user, config)[other] == schedules[other]
  {
  }

  lemma WithUserIdempotent(schedules: map<string, UserData>, user: string, config: Config)
    ensures WithUser(WithUser(schedules, user, config), user, config) == WithUser(schedules, user, config)
  {
  }

  /** The store step of `on_message`: an empty course list changes nothing;
      otherwise the user's courses and basic information are replaced, and
      the user's settings are kept, or created with the defaults. */
  function Stored(schedules: map<string, UserData>, user: string, courses: seq<Course>,
                  info: BasicInfo, config: Config): (r: map<string, UserData>)
    ensures courses == [] ==> r == schedules
    ensures courses != [] ==>
      r.Keys == schedules.Keys + {user} &&
      r[user] == UserData(courses, WithUser(schedules, user, config)[user].settings, info)
  {
    if courses == [] then schedules
    else
      var m := WithUser(schedules, user, config);
      m[user := m[user].(courses := courses, basic_info := info)]
  }

  /** Storing leaves every other user alone, keeps an existing user's
      settings, and a user who stored a schedule reads back that schedule. */
  lemma StoredKeepsSettings(schedules: map<string, UserData>, user: string, courses: seq<Course>,
                            info: BasicInfo, config: Config, other: string)
    requires other in schedules && other != user
    ensures Stored(schedules, user, courses, info, config)[other] == schedules[other]
    ensures courses != [] && user in schedules ==>
      Stored(schedules, user, courses, info, config)[user].settings == schedules[user].settings
    ensures courses != [] ==>
      WithUser(Stored(schedules, user, courses, info, config), user, config)[user].courses == courses
  {
  }

  /** The insertion order of the table's keys: an unknown user goes last. */
  function Enrolled(users: seq<string>, user: string): (r: seq<string>)
    ensures users <= r && user in r
    ensures user in users ==> r == users
    ensures user !in users ==> r == users + [user]
    ensures forall u :: u in r <==> u in users || u == user
  {
    if user in users then users else users + [user]
  }

  // ================================================================ one tick

  datatype Notice =
    | Digest(user: string, courses: seq<Course>)   // tomorrow's courses
    | Reminder(user: string, course: Course)      // a course about to start

  /** What a tick sends, and whether an exception cut it short (the source
      logs it and waits for the next minute). */
  datatype Outcome = Outcome(sent: seq<Notice>, aborted: bool)

  /** `a` followed by `b`, unless `a` raised. */
  function Then(a: Outcome, b: Outcome): Outcome {
    if a.aborted then a else Outcome(a.sent + b.sent, b.aborted)
  }

  lemma ThenAssociative(a: Outcome, b: Outcome, c: Outcome)
    ensures Then(Then(a, b), c) == Then(a, Then(b, c))
  {
    if !a.aborted && !b.aborted {
      assert a.sent + b.sent + c.sent == a.sent + (b.sent + c.sent);
    }
  }

  /** The courses whose `day` is tomorrow's `星期X`. */
  function TomorrowCourses(courses: seq<Course>, weekday: Weekday): seq<Course> {
    Filter(courses, (c: Course) => c.day == WeekdayName((weekday + 1) % 7))
  }

  lemma TomorrowCoursesMembers(courses: seq<Course>, weekday: Weekday, c: Course)
    ensures c in TomorrowCourses(courses, weekday) <==>
      c in courses && c.day == WeekdayName(if weekday == 6 then 0 else weekday + 1)
  {
    FilterMembers(courses, (c: Course) => c.day == WeekdayName((weekday + 1) % 7), c);
  }

  /** Every user of the insertion order has a record. */
  predicate Registered(users: seq<string>, schedules: map<string, UserData>)
    decreases |users|
  {
    users == [] || (users[0] in schedules && Registered(users[1..], schedules))
  }

  lemma {:induction false} RegisteredOfKeys(users: seq<string>, schedules: map<string, UserData>)
    requires forall u :: u in users ==> u in schedules
    ensures Registered(users, schedules)
    decreases |users|
  {
    if users != [] {
      assert forall u :: u in users[1..] ==> u in users;
      RegisteredOfKeys(users[1..], schedules);
    }
  }

  /** The digest for one user, if the user has it on and a course tomorrow. */
  function DigestOf(user: string, data: UserData, weekday: Weekday): seq<Notice> {
    var tomorrow := TomorrowCourses(data.courses, weekday);
    if data.settings.enable_daily_reminder && tomorrow != [] then [Digest(user, tomorrow)] else []
  }

  /** The body of the digest loop for one user. */
  method SendDigest(user: string, data: UserData, weekday: Weekday) returns (notice: seq<Notice>)
    ensures notice == DigestOf(user, data, weekday)
  {
    notice := [];
    if data.settings.enable_daily_reminder {
      var tomorrow := TomorrowCourses(data.courses, weekday);
      if tomorrow != [] {
        notice := [Digest(user, tomorrow)];
      }
    }
  }

  /** The digests, user by user in table order. */
  function Digests(users: seq<string>, schedules: map<string, UserData>, weekday: Weekday): seq<Notice>
    requires Registered(users, schedules)
    decreases |users|
  {
    if users == [] then []
    else DigestOf(users[0], schedules[users[0]], weekday) + Digests(users[1..], schedules, weekday)
  }

  lemma DigestsStep(users: seq<string>, schedules: map<string, UserData>, weekday: Weekday, i: nat)
    requires i < |users| && Registered(users[i..], schedules)
    ensures users[i] in schedules && Registered(users[i + 1..], schedules)
    ensures Digests(users[i..], schedules, weekday)
         == DigestOf(users[i], schedules[users[i]], weekday) + Digests(users[i + 1..], schedules, weekday)
  {
    assert users[i..][0] == users[i] && users[i..][1..] == users[i + 1..];
  }

  /** A digest goes to a user exactly when the user has the digest on and a
      course tomorrow, and it lists all of them. */
  lemma {:induction false} DigestsFor(users: seq<string>, schedules: map<string, UserData>, weekday: Weekday,
                                      user: string, courses: seq<Course>)
    requires Registered(users, schedules)
    ensures Digest(user, courses) in Digests(users, schedules, weekday) <==>
      user in users && user in schedules && schedules[user].settings.enable_daily_reminder &&
      courses == TomorrowCourses(schedules[user].courses, weekday) && courses != []
    decreases |users|
  {
    if users != [] {
      DigestsFor(users[1..], schedules, weekday, user, courses);
      assert users == [users[0]] + users[1..];
    }
  }

  /** `(combine(today, start) - timedelta(minutes=lead)).time()`: the clock
      `lead` minutes before `hh:mm`, wrapped into the day. */
  function ReminderClock(hm: (int, int), lead: int): (c: Clock)
    requires 0 <= hm.0 < 24 && 0 <= hm.1 < 60
    ensures c.microsecond == 0
  {
    Clock((hm.0 * 3600 + hm.1 * 60 - 60 * lead) % 86400, 0)
  }

  /** The reminder clock is `lead` minutes before the start, on the same day
      or, past midnight, on the day before. */
  lemma ReminderClockBefore(hm: (int, int), lead: int)
    requires 0 <= hm.0 < 24 && 0 <= hm.1 < 60 && 0 <= 60 * lead <= 86400
    ensures var start := hm.0 * 3600 + hm.1 * 60;
      ReminderClock(hm, lead).second == if 60 * lead <= start then start - 60 * lead
                                        else start - 60 * lead + 86400
  {
  }

  /** The start of a course whose time resolves through the table. */
  function SlotStart(slots: map<string, string>, c: Course): Option<(int, int)> {
    var slot := ParseTimeSlot(slots, c.time);
    if slot.Slot? then Strptime(slot.start) else None
  }

  /** A course whose lookup raises: a malformed slot or a start `strptime`
      rejects. */
  predicate Breaks(slots: map<string, string>, c: Course) {
    var slot := ParseTimeSlot(slots, c.time);
    slot.SlotError? || (slot.Slot? && Strptime(slot.start).None?)
  }

  /** The reminder for `c` is due at `now`. */
  predicate Fires(slots: map<string, string>, lead: int, c: Course, now: Clock) {
    var start := SlotStart(slots, c);
    start.Some? && now == ReminderClock(start.value, lead)
  }

  /** One course of the inner loop. */
  function CourseCheck(slots: map<string, string>, user: string, lead: int, c: Course, now: Clock): Outcome {
    if Breaks(slots, c) then Outcome([], true)
    else Outcome(if Fires(slots, lead, c, now) then [Reminder(user, c)] else [], false)
  }

  function CourseChecks(slots: map<string, string>, user: string, lead: int, courses: seq<Course>, now: Clock): Outcome
    decreases |courses|
  {
    if courses == [] then Outcome([], false)
    else Then(CourseCheck(slots, user, lead, courses[0], now), CourseChecks(slots, user, lead, courses[1..], now))
  }

  /** The course loop of one user raises exactly when one of the courses
      breaks; until then it reminds of exactly the courses that fire, and of
      nothing else. No weekday or week enters. */
  lemma {:induction false} CourseChecksSpec(slots: map<string, string>, user: string, lead: int,
                                            courses: seq<Course>, now: Clock, n: Notice)
    ensures var o := CourseChecks(slots, user, lead, courses, now);
      (o.aborted <==> exists k :: 0 <= k < |courses| && Breaks(slots, courses[k])) &&
      (n in o.sent ==> n.Reminder? && n.user == user && n.course in courses && Fires(slots, lead, n.course, now)) &&
      ((!o.aborted && n.Reminder? && n.user == user && n.course in courses &&
        Fires(slots, lead, n.course, now)) ==> n in o.sent)
    decreases |courses|
  {
    if courses != [] {
      CourseChecksSpec(slots, user, lead, courses[1..], now, n);
      assert courses == [courses[0]] + courses[1..];
      if !Breaks(slots, courses[0]) {
        assert (exists k :: 0 <= k < |courses| && Breaks(slots, courses[k])) <==>
               (exists k :: 0 <= k < |courses[1..]| && Breaks(slots, courses[1..][k])) by {
          if k :| 0 <= k < |courses| && Breaks(slots, courses[k]) {
            assert courses[1..][k - 1] == courses[k];
          }
        }
      }
    }
  }

  lemma CourseChecksStep(slots: map<string, string>, user: string, lead: int, courses: seq<Course>,
                         i: nat, now: Clock)
    requires i < |courses|
    ensures CourseChecks(slots, user, lead, courses[i..], now)
         == Then(CourseCheck(slots, user, lead, courses[i], now), CourseChecks(slots, user, lead, courses[i + 1..], now))
  {
    assert courses[i..][0] == courses[i] && courses[i..][1..] == courses[i + 1..];
  }

  /** The course loop of one user, if the user has reminders on. */
  function UserCheck(slots: map<string, string>, user: string, data: UserData, now: Clock): Outcome {
    if data.settings.enable_reminder
    then CourseChecks(slots, user, data.settings.reminder_time, data.courses, now)
    else Outcome([], false)
  }

  /** The course loops of all users, in table order. */
  function UserChecks(slots: map<string, string>, users: seq<string>, schedules: map<string, UserData>, now: Clock): Outcome
    requires Registered(users, schedules)
    decreases |users|
  {
    if users == [] then Outcome([], false)
    else Then(UserCheck(slots, users[0], schedules[users[0]], now), UserChecks(slots, users[1..], schedules, now))
  }

  lemma UserChecksStep(slots: map<string, string>, users: seq<string>, schedules: map<string, UserData>,
                       now: Clock, i: nat)
    requires i < |users| && Registered(users[i..], schedules)
    ensures users[i] in schedules && Registered(users[i + 1..], schedules)
    ensures UserChecks(slots, users[i..], schedules, now)
         == Then(UserCheck(slots, users[i], schedules[users[i]], now), UserChecks(slots, users[i + 1..], schedules, now))
  {
    assert users[i..][0] == users[i] && users[i..][1..] == users[i + 1..];
  }

  /** The course loops send reminders only. */
  lemma {:induction false} UserChecksRemindOnly(slots: map<string, string>, users: seq<string>,
                                                schedules: map<string, UserData>, now: Clock, n: Notice)
    requires Registered(users, schedules)
    requires n in UserChecks(slots, users, schedules, now).sent
    ensures n.Reminder? && n.user in users && n.user in schedules && n.course in schedules[n.user].courses
    decreases |users|
  {
    var data := schedules[users[0]];
    if data.settings.enable_reminder {
      CourseChecksSpec(slots, users[0], data.settings.reminder_time, data.courses, now, n);
    }
    if n !in CourseChecks(slots, users[0], data.settings.reminder_time, data.courses, now).sent || !data.settings.enable_reminder {
      UserChecksRemindOnly(slots, users[1..], schedules, now, n);
    }
  }

  /** One iteration of `check_reminders`' loop. */
  function Tick(config: Config, users: seq<string>, schedules: map<string, UserData>, weekday: Weekday, now: Clock): (r: Outcome)
    requires Registered(users, schedules)
    ensures r.aborted ==> config.AutoReminder()
    ensures !config.AutoReminder() ==> forall n :: n in r.sent ==> n.Digest?
  {
    var digests := if config.DailyReminder() && FormatHM(now.second) == config.DailyTime()
                   then Digests(users, schedules, weekday) else [];
    assert forall n :: n in digests ==> n.Digest? by {
      forall n ensures n in Digests(users, schedules, weekday) ==> n.Digest? {
        DigestsOnly(users, schedules, weekday, n);
      }
    }
    if config.AutoReminder() then Then(Outcome(digests, false), UserChecks(config.Slots(), users, schedules, now))
    else Outcome(digests, false)
  }

  /** Digests go out only in the minute `daily_reminder_time` names, and
      reminders only at a whole second (`now.time()` must equal a clock
      without microseconds). */
  lemma TickTiming(config: Config, users: seq<string>, schedules: map<string, UserData>,
                   weekday: Weekday, now: Clock, n: Notice)
    requires Registered(users, schedules)
    requires n in Tick(config, users, schedules, weekday, now).sent
    ensures n.Digest? ==> config.DailyReminder() && FormatHM(now.second) == config.DailyTime()
    ensures n.Reminder? ==> config.AutoReminder() && now.microsecond == 0
  {
    var digests := if config.DailyReminder() && FormatHM(now.second) == config.DailyTime()
                   then Digests(users, schedules, weekday) else [];
    var rest := UserChecks(config.Slots(), users, schedules, now);
    if config.AutoReminder() && n !in digests {
      UserChecksRemindOnly(config.Slots(), users, schedules, now, n);
      var data := schedules[n.user];
      assert n in CourseChecks(config.Slots(), n.user, data.settings.reminder_time, data.courses, now).sent
        by { UserRemindersFrom(config.Slots(), users, schedules, now, n); }
      CourseChecksSpec(config.Slots(), n.user, data.settings.reminder_time, data.courses, now, n);
    }
    if n in digests && n.Reminder? {
      DigestsOnly(users, schedules, weekday, n);
    }
  }

  lemma {:induction false} DigestsOnly(users: seq<string>, schedules: map<string, UserData>, weekday: Weekday, n: Notice)
    requires Registered(users, schedules)
    ensures n in Digests(users, schedules, weekday) ==> n.Digest?
    decreases |users|
  {
    if users != [] {
      DigestsOnly(users[1..], schedules, weekday, n);
    }
  }

  /** A reminder in the users' loops comes from its own user's course loop. */
  lemma {:induction false} UserRemindersFrom(slots: map<string, string>, users: seq<string>,
                                             schedules: map<string, UserData>, now: Clock, n: Notice)
    requires Registered(users, schedules)
    requires n.Reminder? && n in UserChecks(slots, users, schedules, now).sent
    ensures n.user in schedules && schedules[n.user].settings.enable_reminder
    ensures var data := schedules[n.user];
      n in CourseChecks(slots, n.user, data.settings.reminder_time, data.courses, now).sent
    decreases |users|
  {
    var data := schedules[users[0]];
    var here := CourseChecks(slots, users[0], data.settings.reminder_time, data.courses, now);
    if data.settings.enable_reminder && n in here.sent {
      CourseChecksSpec(slots, users[0], data.settings.reminder_time, data.courses, now, n);
    } else {
      UserRemindersFrom(slots, users[1..], schedules, now, n);
    }
  }

  /** Unless the users' loops raise, every enabled user is reminded of each
      of their courses that fires. */
  lemma {:induction false} UserChecksComplete(slots: map<string, string>, users: seq<string>,
                                              schedules: map<string, UserData>, now: Clock, u: string, c: Course)
    requires Registered(users, schedules)
    ensures (!UserChecks(slots, users, schedules, now).aborted && u in users && u in schedules &&
             schedules[u].settings.enable_reminder && c in schedules[u].courses &&
             Fires(slots, schedules[u].settings.reminder_time, c, now))
            ==> Reminder(u, c) in UserChecks(slots, users, schedules, now).sent
    decreases |users|
  {
    if users != [] && u in users {
      if users[0] == u {
        var data := schedules[u];
        CourseChecksSpec(slots, u, data.settings.reminder_time, data.courses, now, Reminder(u, c));
      } else {
        UserChecksComplete(slots, users[1..], schedules, now, u, c);
      }
    }
  }

  /** A broken slot in the courses of an enabled user makes the users' loops
      raise: either that user's loop raises, or an earlier one already has. */
  lemma {:induction false} UserChecksAborts(slots: map<string, string>, users: seq<string>,
                                            schedules: map<string, UserData>, now: Clock, u: string, c: Course)
    requires Registered(users, schedules)
    ensures (u in users && u in schedules && schedules[u].settings.enable_reminder && c in schedules[u].courses && Breaks(slots, c))
            ==> UserChecks(slots, users, schedules, now).aborted
    decreases |users|
  {
    if users != [] && u in users && u in schedules && schedules[u].settings.enable_reminder && c in schedules[u].courses && Breaks(slots, c) {
      if users[0] == u {
        var data := schedules[u];
        CourseChecksSpec(slots, u, data.settings.reminder_time, data.courses, now, Reminder(u, c));
        var k :| 0 <= k < |data.courses| && data.courses[k] == c;
      } else {
        UserChecksAborts(slots, users[1..], schedules, now, u, c);
      }
    }
  }

  /** With auto-reminders on, a tick raises if an enabled user has a broken
      slot, and a tick that does not raise reminds every enabled user of
      every course of theirs that fires, after the digests. */
  lemma TickSpec(config: Config, users: seq<string>, schedules: map<string, UserData>,
                 weekday: Weekday, now: Clock, u: string, c: Course)
    requires Registered(users, schedules)
    ensures var r := Tick(config, users, schedules, weekday, now);
      config.AutoReminder() && u in users && u in schedules && schedules[u].settings.enable_reminder && c in schedules[u].courses ==>
        (Breaks(config.Slots(), c) ==> r.aborted) &&
        (!r.aborted && Fires(config.Slots(), schedules[u].settings.reminder_time, c, now) ==> Reminder(u, c) in r.sent)
  {
    UserChecksComplete(config.Slots(), users, schedules, now, u, c);
    UserChecksAborts(config.Slots(), users, schedules, now, u, c);
  }

  // ================================================================ the plugin object

  class CoursePlugin {
    const config: Config
    /** `self.schedules`: user id to record. */
    var schedules: map<string, UserData>
    /** The keys of `schedules` in insertion order, the order in which
        `dict.items()` walks them. */
    var users: seq<string>

    ghost predicate Valid()
      reads this
    {
      (forall u :: u in users <==> u in schedules) &&
      (forall i, j :: 0 <= i < j < |users| ==> users[i] != users[j])
    }

    /** A plugin whose data file does not exist yet. */
    constructor (config: Config)
      ensures this.config == config && schedules == map[] && users == [] && Valid()
    {
      this.config := config;
      schedules := map[];
      users := [];
    }

    /** `get_user_settings`. */
    method GetUserSettings(user: string) returns (settings: Settings)
      requires Valid()
      modifies this
      ensures Valid()
      ensures schedules == WithUser(old(schedules), user, config)
      ensures users == Enrolled(old(users), user)
      ensures settings == schedules[user].settings
    {
      if user !in schedules {
        schedules := schedules[user := DefaultUserData(config)];
        users := users + [user];
      }
      settings := schedules[user].settings;
    }

    /** The store step of `on_message`, for the course list and basic
        information the parser returned. */
    method StoreSchedule(user: string, courses: seq<Course>, info: BasicInfo)
      requires Valid()
      modifies this
      ensures Valid()
      ensures schedules == Stored(old(schedules), user, courses, info, config)
      ensures users == if courses == [] then old(users) else Enrolled(old(users), user)
    {
      if courses == [] {
        return;
      }
      if user !in schedules {
        schedules := schedules[user := DefaultUserData(config)];
        users := users + [user];
      }
      schedules := schedules[user := schedules[user].(courses := courses, basic_info := info)];
    }

    /** One tick of `check_reminders` at clock `now` on weekday `weekday`. */
    method CheckReminders(weekday: Weekday, now: Clock) returns (sent: seq<Notice>, aborted: bool)
      requires Valid()
      ensures Registered(users, schedules)
      ensures Outcome(sent, aborted) == Tick(config, users, schedules, weekday, now)
    {
      RegisteredOfKeys(users, schedules);
      sent := [];
      if config.DailyReminder() {
        if FormatHM(now.second) == config.DailyTime() {
          sent := SendDigests(weekday);
        }
      }
      aborted := false;
      if config.AutoReminder() {
        var reminders, failed := CheckUsers(now);
        sent := sent + reminders;
        aborted := failed;
      }
    }

    /** The daily digest loop. */
    method SendDigests(weekday: Weekday) returns (digests: seq<Notice>)
      requires Registered(users, schedules)
      ensures digests == Digests(users, schedules, weekday)
    {
      digests := [];
      var i := 0;
      assert users[0..] == users;
      while i < |users|
        invariant 0 <= i <= |users|
        invariant Registered(users[i..], schedules)
        invariant Digests(users, schedules, weekday) == digests + Digests(users[i..], schedules, weekday)
      {
        var user := users[i];
        DigestsStep(users, schedules, weekday, i);
        var notice := SendDigest(user, schedules[user], weekday);
        assert digests + notice + Digests(users[i + 1..], schedules, weekday)
            == digests + (notice + Digests(users[i + 1..], schedules, weekday));
        digests := digests + notice;
        i := i + 1;
      }
      assert users[i..] == [] && digests + [] == digests;
    }

    /** The course reminder loop over all users; it stops at the first
        exception. */
    method CheckUsers(now: Clock) returns (sent: seq<Notice>, aborted: bool)
      requires Registered(users, schedules)
      ensures Outcome(sent, aborted) == UserChecks(config.Slots(), users, schedules, now)
    {
      sent := [];
      var i := 0;
      assert users[0..] == users;
      while i < |users|
        invariant 0 <= i <= |users|
        invariant Registered(users[i..], schedules)
        invariant UserChecks(config.Slots(), users, schedules, now)
               == Then(Outcome(sent, false), UserChecks(config.Slots(), users[i..], schedules, now))
      {
        var user := users[i];
        UserChecksStep(config.Slots(), users, schedules, now, i);
        var data := schedules[user];
        ghost var rest := UserChecks(config.Slots(), users[i + 1..], schedules, now);
        var reminders: seq<Notice> := [];
        var failed := false;
        if data.settings.enable_reminder {
          reminders, failed := CheckCourses(user, data.settings.reminder_time, data.courses, now);
        }
        assert Outcome(reminders, failed) == UserCheck(config.Slots(), user, data, now);
        ThenAssociative(Outcome(sent, false), Outcome(reminders, failed), rest);
        sent := sent + reminders;
        if failed {
          return sent, true;
        }
        i := i + 1;
      }
      assert users[i..] == [] && sent + [] == sent;
      aborted := false;
    }

    /** The loop over one user's courses, with the user's lead in minutes. */
    method CheckCourses(user: string, lead: int, courses: seq<Course>, now: Clock)
      returns (sent: seq<Notice>, aborted: bool)
      ensures Outcome(sent, aborted) == CourseChecks(config.Slots(), user, lead, courses, now)
    {
      sent := [];
      var i := 0;
      while i < |courses|
        invariant 0 <= i <= |courses|
        invariant CourseChecks(config.Slots(), user, lead, courses, now)
               == Then(Outcome(sent, false), CourseChecks(config.Slots(), user, lead, courses[i..], now))
      {
        var course := courses[i];
        CourseChecksStep(config.Slots(), user, lead, courses, i, now);
        ghost var rest := CourseChecks(config.Slots(), user, lead, courses[i + 1..], now);
        var notice, failed := CheckCourse(user, lead, course, now);
        if failed {
          return sent, true;
        }
        ThenAssociative(Outcome(sent, false), Outcome(notice, false), rest);
        sent := sent + notice;
        i := i + 1;
      }
      assert sent + [] == sent;
      aborted := false;
    }

    /** The body of the course loop: look the slot up, read its start, and
        compare the reminder clock with `now`. */
    method CheckCourse(user: string, lead: int, course: Course, now: Clock)
      returns (notice: seq<Notice>, failed: bool)
      ensures Outcome(notice, failed) == CourseCheck(config.Slots(), user, lead, course, now)
    {
      notice := [];
      var slot := ParseTimeSlot(config.Slots(), course.time);
      if slot.SlotError? {
        return [], true;
      }
      if slot.Slot? {
        var start := Strptime(slot.start);
        if start.None? {
          return [], true;
        }
        if now == ReminderClock(start.value, lead) {
          notice := [Reminder(user, course)];
        }
      }
      failed := false;
    }
  }
}
