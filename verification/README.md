# Class-schedule reminder — a Dafny model

This project models the core of a chat-bot plugin that reads students'
class schedules and reminds them before each class. The plugin has three
parts, and each has its own module:

- **`ScheduleParser`** (`parser.py`) turns schedule text into course
  records:
  - a line such as `高等数学 一 08:00-09:40 A101 张老师` is matched by a regular
    expression;
  - the weekday is normalised to `星期X`;
  - a period such as `第1-2节` is mapped to its clock range;
  - a spreadsheet row (a dictionary of cells) is read with fallback column
    names;
  - a whole text is parsed line by line.
- **`Reminder`** (`reminder.py`) is the `CourseReminder` object. It covers:
  - the academic week of a date;
  - today's courses, sorted by period;
  - reading a class start `HH:MM`;
  - one pass of the per-user reminder loop;
  - `get_today_courses` and `get_upcoming_courses`.
- **`Plugin`** (`main.py`) is the plugin object. It keeps one record per
  user in a dictionary and holds:
  - the configured table from period keys (`1-2`) to clock ranges;
  - the store step that saves a parsed schedule;
  - one tick of the once-a-minute check, which sends the evening digest
    of tomorrow's courses and the course reminders.

Two shared modules support them:

- **`Common`** holds the Python string operations the source relies on
  (`isspace`, `strip`, `split`, `in`, `int()`), clock readings and weekday
  names.
- **`Sorting`** gives the result of Python's stable `list.sort(key=...)`.

The current date, clock and weekday are parameters wherever the source
calls `datetime.now()` or `strftime('%A')`. The weekday is numbered as
`datetime.weekday()` numbers it: 0 is Monday.

Behaviour worth noting:

- **Weeks are not clamped.** `_get_current_week` is not clamped to at least
  1: a date before 2024-09-01 gives week 0 or less (`WeekBeforeTermStart`).
- **Nothing records that a reminder was sent.** The reminder loop of
  `reminder.py` sends the same course again on every tick inside its window
  (`WindowRepeats`).
- **`main.py` fires on exact equality.** It reminds only when `now.time()`
  equals the reminder clock exactly, microseconds included
  (`TickTiming`, `CourseChecksSpec`). It also applies no weekday or week
  filter: every course of the user is checked on every day.
- **Day-of-week names are strict.** The day of a text line must be one of
  the fixed `[一二三四五六日]` or `星期X` tokens of the regular expression,
  and a line that fails the match is dropped as a whole.
- **Courses are not deduplicated.** Parsed courses are appended one per
  matching line, and a stored schedule replaces the previous one wholesale.

## Model

| member | source | states |
|---|---|---|
| ScheduleParser.StandardizeDay | parser.py:192-202 | a lone `一`…`日` becomes its `星期X` name, a `周`-prefixed day becomes `星期` plus the rest, a canonical name is returned unchanged, and anything else passes through |
| ScheduleParser.StandardizeDayIdempotent | parser.py:192-202 | normalising a day twice gives the same result as normalising it once |
| ScheduleParser.StandardizeDaySpellings | parser.py:192-202 | `X`, `周X` and `星期X` all normalise to `星期X` for each of the seven weekdays |
| ScheduleParser.FirstMapped | parser.py:207-210 | the scan over the table finds nothing exactly when no key occurs in the time; otherwise its result is the value of a key that occurs in the time, and no earlier key of the table occurs |
| ScheduleParser.StandardizeTime | parser.py:204-212 | the result is the input or one of the five clock ranges, and a time without both `第` and `节` is returned unchanged |
| ScheduleParser.StandardizeTimeIsFirstKey | parser.py:204-212 | the result is the range of the first table key (in table order) that occurs in the time, or the time itself; the `第`/`节` guard never changes the outcome |
| ScheduleParser.StandardizeTimeIdempotent | parser.py:204-212 | normalising a time twice gives the same result as normalising it once |
| ScheduleParser.MatchCourseLine | parser.py:137-138 | when the pattern matches, the five groups are well formed (non-empty, day token, time from `[\d:-]`, no newline), and the line is laid out as the name, then whitespace-separated day, time, classroom and teacher, the teacher running to the end of the line or a newline (`Layout`) |
| ScheduleParser.MatchAfterName | parser.py:137-138 | what follows the name group is whitespace, the day, whitespace, the time, whitespace, the classroom, whitespace and the teacher up to the line end |
| ScheduleParser.MatchTeacher | parser.py:137-138 | the teacher group `(.+)` is a non-empty prefix of the rest that stops at the end of the text or at a newline |
| ScheduleParser.MatchCanonicalLine | parser.py:137-141 | a line built from name, day, time, room and teacher separated by whitespace (name and room without spaces) matches with exactly those five groups |
| ScheduleParser.ParseCourseText | parser.py:133-160 | a record is returned exactly when the pattern matches; its name, classroom and teacher are the stripped groups, its day is the normalised day group (a `星期X` name), and its time is the time group as matched, non-empty and free of `第` |
| ScheduleParser.ParseCanonicalLine | parser.py:133-160 | such a line parses to the record with the name, the normalised day, the time, the room and the stripped teacher |
| ScheduleParser.ParseCourseDict | parser.py:162-190 | a record is returned exactly when all five looked-up cells are truthy and day and time are strings; name, classroom and teacher are the stripped text of their cells, and day and time are the normalised cell text, not stripped; each cell comes from the first column name present |
| ScheduleParser.PrimaryColumnShadowsFallback | parser.py:166-173 | an empty `课程名称` cell hides a `课程` column, so the row is rejected |
| ScheduleParser.BlankNameAccepted | parser.py:166-186 | a name of spaces only passes the truthiness test and yields a record with an empty name |
| ScheduleParser.ParseLines | parser.py:115-126 | the lines yield at most one record each |
| ScheduleParser.ParseLinesBound | parser.py:118-126 | no more courses are produced than there are non-blank lines |
| ScheduleParser.ParseLinesAppend | parser.py:118-126 | parsing the concatenation of two line lists is the concatenation of the results, so each line is parsed independently and in order |
| ScheduleParser.ParseLinesWellFormed | parser.py:118-126 | every produced course has a `星期X` day and a non-empty time without `第` |
| ScheduleParser.ParseLine | parser.py:118-125 | one pass of the line loop yields at most one record, the one `ParseLines` gives for that line alone |
| ScheduleParser.ParseTextSchedule | parser.py:111-131 | the loop returns, in order, the parsed record of every line (split on `\n`, stripped, blank lines skipped) that matches |
| Common.StartClock | reminder.py:146-154 | the start `(hour, minute)` is read only when the text before the first `-` contains a `:` |
| Common.StartClockReads | reminder.py:146-154 | the start reads exactly when the text before the first `-` is `a:b` with a single `:` and both `a` and `b` are integers for `int()` |
| Common.StartClockOf | reminder.py:150-152 | for text `a:b` with a single `:` before the first `-`, the start is `(int(a), int(b))`, or nothing when either does not read |
| Common.ParseInt | reminder.py:151 | `int()` succeeds only on text that is not blank after stripping and holds no information separator, and a negative value is written with a leading `-` |
| Common.ParseDecimalString | reminder.py:151 | `int()` reads back the decimal rendering of every integer |
| Common.ParseTwoDigits | reminder.py:151 | `int()` reads back every two-digit zero-padded number |
| Common.Strip | parser.py:119 | `str.strip()` leaves text that neither starts nor ends with whitespace |
| Common.StripInfix | parser.py:119 | `str.strip()` removes a whitespace run at each end and nothing else: the input is the result between two whitespace runs |
| Common.TrailingSpaceIsSpace | parser.py:119 | everything counted as trailing whitespace is whitespace |
| Common.StripEmpty | parser.py:119-121 | a line strips to nothing exactly when it is all whitespace |
| Common.StripIdempotent | parser.py:150-154 | stripping twice is stripping once |
| Common.Split | parser.py:115 | `str.split(sep)` always gives at least one piece |
| Common.JoinSplit | parser.py:115 | joining the pieces with the separator gives back the text |
| Common.SplitPair | main.py:181 | the text splits into exactly two pieces `[a, b]` exactly when it is `a`, the separator and `b`, with no separator in `a` or `b` |
| Common.StartClockOfRange | reminder.py:150-152 | a range written `HH:MM-<end>` reads back as `(HH, MM)` |
| Reminder.OrdinalCountsDays | reminder.py:136-139 | the day count behind date subtraction advances by one from each day to the next, across month and year ends |
| Reminder.YearLength | reminder.py:136-139 | a year holds 366 days when it is a Gregorian leap year and 365 otherwise |
| Reminder.CurrentWeek | reminder.py:132-140 | the week is the whole days since 2024-09-01, floor-divided by 7, plus 1, whatever the time of day |
| Reminder.WeekOfTermStart | reminder.py:134-140 | 2024-09-01 and 2024-09-07 are in week 1, and 2024-09-08 is in week 2 |
| Reminder.WeekAfterSevenDays | reminder.py:136-140 | seven days later the week is one more |
| Reminder.WeekBeforeTermStart | reminder.py:136-140 | a date before the term start gives week 0 or less |
| Reminder.WeekMonotone | reminder.py:136-140 | a later date never has an earlier week |
| Reminder.TodayCourses | reminder.py:101-112 | today's courses are never more than the schedule's |
| Reminder.TodayCoursesMembers | reminder.py:101-107 | a course is kept exactly when its day is today's name and the current week lies in its week range |
| Reminder.TodayCoursesOrdered | reminder.py:109-112 | today's courses are sorted by period, are a permutation of the kept courses, and courses of equal period keep their schedule order |
| Reminder.SecondOf | reminder.py:125 | the start second gives back its hour and minute and has no seconds |
| Reminder.ParseCourseTime | reminder.py:114-130 | a start is returned exactly when `(hour, minute)` reads and `replace` accepts the hour (0-23) and the minute (0-59) |
| Reminder.ParseCourseTimeOfRange | reminder.py:116-127 | a range written `HH:MM-<end>` gives the second of the day at `HH:MM:00` |
| Reminder.WindowsBeforeStart | reminder.py:76-79 | `now` lies in either window (`InLoopWindow` of the loop, `InUpcomingWindow` of `get_upcoming_courses`) only with a lead of at least one minute and strictly before the start |
| Reminder.WindowsAgree | reminder.py:206-209 | the window of `get_upcoming_courses` (`0 < start - now <= lead`) is the same as that of the reminder loop |
| Reminder.WindowRepeats | reminder.py:75-82 | a tick on any whole minute among the `lead` minutes before the start is inside the window, so the reminder is sent again |
| Reminder.GetTodayCourses | reminder.py:170-184 | the result is a permutation of the weekday's courses sorted by `(hour, minute)`, and courses with the same start keep their schedule order; the sort raises exactly when two or more courses are on that weekday and one of their times does not read |
| Reminder.GetTodayCoursesSingle | reminder.py:176-184 | a single course of the day is returned as is, even with an unreadable time |
| Reminder.Upcoming | reminder.py:192-210 | a successful loop keeps at most the courses it is given |
| Reminder.UpcomingFails | reminder.py:192-212 | the loop raises exactly when one of the courses has a start that reads but whose hour or minute `replace` rejects |
| Reminder.UpcomingCourses | reminder.py:186-212 | the upcoming courses are never more than the courses of the weekday |
| Reminder.UpcomingIsDue | reminder.py:186-212 | when no start is out of range, the upcoming courses are exactly the courses in the reminder window, in order |
| Reminder.CourseReminder.constructor | reminder.py:14-26 | a new reminder has the given lead time and no callback |
| Reminder.CourseReminder.SetCallback | reminder.py:45-47 | a callback is installed |
| Reminder.CourseReminder.ReminderTick | reminder.py:64-82 | one pass of the loop hands to the callback, in order, today's courses (for the current week) whose window contains `now`, and nothing without a callback |
| Reminder.CourseReminder.SendDue | reminder.py:75-82 | the `for` loop sends exactly the courses in the window, in order |
| Reminder.CourseReminder.RemindIfDue | reminder.py:76-82 | one course goes to the callback exactly when a callback is set, its start reads and its window contains `now` |
| Reminder.CourseReminder.GetUpcomingCourses | reminder.py:186-212 | an error exactly when the sort raises or a course of the weekday has an out-of-range start; otherwise the sorted day's courses whose window contains `now`, in order |
| Reminder.CourseReminder.SelectUpcoming | reminder.py:192-210 | an error exactly when a course has a start that reads but is out of range; otherwise, in order, the courses whose start reads and whose window contains `now` (the courses the reminder loop would send) |
| Plugin.PeriodKey | main.py:177-178 | a key is read exactly when the time holds both `第` and `节`, and it holds neither |
| Plugin.PeriodKeyOf | main.py:177-178 | the period key of `<prefix>第<key>节<suffix>` is `<key>`, for a prefix without `第` and a key without `第` or `节`, whatever the suffix |
| Plugin.ParseTimeSlot | main.py:175-183 | the two halves of a slot hold no `-` |
| Plugin.ParseTimeSlotMisses | main.py:175-183 | no slot exactly when the time has no key or the key is not in the table; a `ValueError` exactly when the key's entry is not `start-end` with a single `-` |
| Plugin.ParseTimeSlotHalves | main.py:175-183 | a slot is returned exactly when the time's key is in the table and the entry is `start-end` with a single `-` |
| Plugin.FormatCourseTime | main.py:166-173 | the result starts with the given time; when the period key is in the table it is the time followed by `（`, the table's range and `）`, and otherwise the time alone |
| Plugin.FormatCourseTimeResolves | main.py:166-183 | the display changes a time exactly when `parse_time_slot` finds its key |
| Plugin.Strptime | main.py:457 | a `%H:%M` start that reads has an hour in 0..23 and a minute in 0..59 |
| Plugin.StrptimeFormatHM | main.py:457 | every zero-padded `HH:MM` reads back as its hour and minute |
| Plugin.StrptimeReadsUnpadded | main.py:457 | `8:05` and `08:5` both read as 08:05 |
| Plugin.StrptimeRejects | main.py:457 | `24:00`, `08:60` and `08:00 ` (text left over) do not read |
| Plugin.GetClassTimeFromStr | main.py:661-670 | the result is the start clock whenever it reads, and `(8, 0)` whenever it does not |
| Plugin.GetClassTimeOfRange | main.py:661-670 | `HH:MM-<end>` gives `(HH, MM)`, and a time without `:` before its first `-` gives `(8, 0)` |
| Plugin.WithUser | main.py:152-164 | the user is added with the default record if unknown; the table is unchanged if the user is known |
| Plugin.WithUserKeepsOthers | main.py:152-164 | every other user's record is unchanged |
| Plugin.WithUserIdempotent | main.py:152-164 | a second call changes nothing |
| Plugin.Stored | main.py:372-390 | an empty course list changes nothing; otherwise the user is registered, with the new courses and basic information and the kept or default settings |
| Plugin.StoredKeepsSettings | main.py:376-390 | storing leaves other users alone, keeps an existing user's settings, and the stored courses read back |
| Plugin.Enrolled | main.py:378-379 | the old insertion order is kept as a prefix; a known user leaves it unchanged, an unknown user is appended last, and nobody else is added |
| Plugin.TomorrowCoursesMembers | main.py:417-428 | a course is in the digest exactly when its day is tomorrow's name (Monday after Sunday) |
| Plugin.DigestsFor | main.py:412-440 | a user gets a digest exactly when the user has the digest on and courses tomorrow, and the digest lists all of them |
| Plugin.ReminderClock | main.py:458-459 | the reminder clock has no microseconds |
| Plugin.ReminderClockBefore | main.py:458-459 | the reminder clock is `lead` minutes before the start, on the day before when that crosses midnight |
| Plugin.CourseChecksSpec | main.py:451-468 | a user's course loop raises exactly when a slot is malformed or its start does not read; otherwise it reminds of exactly the courses whose reminder clock equals `now`, and of nothing else |
| Plugin.UserChecksRemindOnly | main.py:443-468 | the reminder loop sends only reminders, to known users, about their own courses |
| Plugin.UserRemindersFrom | main.py:443-468 | a reminder comes from its own user's course loop, and only if that user has reminders on |
| Plugin.Tick | main.py:405-468 | only the reminder loop can raise, so a tick aborts only with auto-reminders on; with them off it sends digests only (the converse, abort and completeness, is `TickSpec`) |
| Plugin.UserChecksComplete | main.py:443-468 | unless the users' loops raise, every user with reminders on is reminded of each of their courses whose reminder clock equals `now` |
| Plugin.UserChecksAborts | main.py:443-468 | a malformed slot or unreadable start in the courses of a user with reminders on makes the users' loops raise |
| Plugin.TickSpec | main.py:443-470 | with auto-reminders on, an enabled user's broken slot aborts the tick, and a tick that does not abort reminds every enabled user of every course of theirs that fires |
| Plugin.TickTiming | main.py:402-468 | a digest goes out only in the configured minute, and a reminder only with auto-reminders on and at zero microseconds |
| Plugin.CoursePlugin.constructor | main.py:95-103 | a new plugin has the given configuration and no users |
| Plugin.CoursePlugin.GetUserSettings | main.py:152-164 | the table becomes `WithUser` of the old table, and the user's settings are returned |
| Plugin.CoursePlugin.StoreSchedule | main.py:372-390 | the table becomes `Stored` of the old table, and the insertion order grows only for a new user |
| Plugin.CoursePlugin.CheckReminders | main.py:405-468 | one tick sends the digests and the reminders of `Tick` in order, and reports whether an exception ended it |
| Plugin.CoursePlugin.SendDigests | main.py:412-440 | the digest loop sends `Digests` over the users in insertion order |
| Plugin.CoursePlugin.CheckUsers | main.py:444-468 | the user loop stops at the first exception and otherwise sends `UserChecks` |
| Plugin.CoursePlugin.CheckCourses | main.py:451-468 | the course loop stops at the first exception and otherwise sends `CourseChecks` |
| Plugin.CoursePlugin.CheckCourse | main.py:453-468 | one course gives nothing, an exception, or a reminder when `now` equals its reminder clock |

## Left out

- Parsing with the language model (`parse_course_with_ai`) is a foreign
  call. The store step takes its course list and basic information as
  arbitrary inputs.
- File I/O is not modelled. This covers JSON load and save
  (`load_schedules`, `save_schedules`, `load_schedule`), directory
  scanning, and the `docx`, `pandas` and `pytesseract` readers. The plugin
  starts with an empty table, as when no data file exists.
- The `parse_word` and `parse_image` loops are not modelled separately;
  they are the same per-line loop as `parse_text_schedule`.
- The asynchronous machinery is not modelled: tasks, start and stop of
  per-user loops, `sleep(60)`, and cancellation. A tick is one call with
  `now` and the weekday as inputs, and a single `now` serves the whole
  tick. The source reads `datetime.now()` afresh in each helper:
  `_reminder_loop`, `_get_today_courses`, `_parse_course_time`,
  `_get_current_week`, `get_today_weekday` and `get_upcoming_courses`
  (reminder.py:69, 95, 122, 136, 144, 188).
- Locale-dependent `strftime('%A')` is replaced by a weekday input, so
  the `KeyError` or `未知` that a Chinese locale causes is not modelled.
- The gallery commands, downloads and message templates are
  presentation or depend on code that is not part of this model. The
  digest and reminder notices carry the user and the courses, not the
  message text.
- Reminder.WindowsAgree: compares whole microseconds; the source divides
  `total_seconds()` by 60 as a float before comparing with the lead.
- Dictionary records are typed. Every course has all of its keys, cells
  are strings, integers or NaN, and settings always hold their three keys,
  as the records the plugin itself creates do. The `KeyError` of a missing
  key, non-string values and float cells are not modelled.
- Date arithmetic near the ends of the calendar (year 1 or 9999) is not
  modelled, so the `OverflowError` there is left out.
- A callback or `send_message` that raises is not modelled.
- Reminder.CourseReminder.SetCallback: records only that a callback is
  installed; the callback itself is outside the model.
- Python's `list.sort` (Timsort) is modelled by its result, a stable sort,
  computed by insertion sort.
- The import-time defects are not behaviour and are left out: `Tuple` is
  never imported in `main.py`, and `datetime` is rebound before
  `get_today_weekday` uses it.
- Common.ParseInt: accepts ASCII digits only; Python's `int()` also
  accepts underscores between digits and other Unicode decimal digits.
  The whitespace it skips is modelled, including that the information
  separators U+001C..U+001F, which `str.strip()` removes, make it raise.
- ScheduleParser.MatchCourseLine: `\d` in the time group is taken as the
  ASCII digits 0-9; a Python `str` pattern also matches other Unicode
  decimal digits, such as the full-width `０８:００`. The converse of
  `Layout` (every laid-out line matches) is proved only for the lines of
  `MatchCanonicalLine`, since the lazy groups can split other lines
  differently.
- Reminder.CourseReminder.constructor: the default `reminder_time=10` of
  the Python constructor is not modelled; the lead is always passed.
- Plugin.Strptime: reads ASCII digits only, where `\d` in the `%H`/`%M`
  patterns matches any Unicode digit.
- Concurrent writes to the schedule table during a tick's `await` are not
  modelled; a tick sees one snapshot of the table.
