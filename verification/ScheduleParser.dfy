/** The schedule parser (`ScheduleParser` in parser.py): normalises weekday
    and period spellings, reads one course from a line of text or from a
    spreadsheet row, and collects the courses of a multi-line text. */
module ScheduleParser {
  import opened Common

  /** The dict both `_parse_course_text` and `_parse_course_dict` return:
      exactly the keys `course_name`, `day`, `time`, `classroom`, `teacher`. */
  datatype ParsedCourse = ParsedCourse(
    course_name: string, day: string, time: string, classroom: string, teacher: string)

  /** `self.time_map`, in insertion order: period spelling to clock range. */
  const TimeMap: seq<(string, string)> := [
    ("第1-2节", "08:00-09:40"),
    ("第3-4节", "10:00-11:40"),
    ("第5-6节", "14:00-15:40"),
    ("第7-8节", "16:00-17:40"),
    ("第9-10节", "19:00-20:40")
  ]

  /** A canonical weekday name `星期X`. */
  predicate IsWeekdayName(s: string) {
    |s| == 3 && s[0] == '星' && s[1] == '期' && s[2] in DayChars
  }

  // ================================================================ _standardize_day

  /** `_standardize_day`: a lone day character gets the `星期` prefix, a
      `周` prefix becomes `星期`, anything else is left alone. */
  function StandardizeDay(day: string): (r: string)
    ensures r == day || (|r| >= 2 && r[..2] == "星期")
    ensures |day| == 1 && day[0] in DayChars ==> IsWeekdayName(r)
    ensures |day| >= 1 && day[0] == '周' ==> r == "星期" + day[1..]
    ensures !(|day| == 1 && day[0] in DayChars) && !(|day| >= 1 && day[0] == '周') ==> r == day
    ensures IsWeekdayName(day) ==> r == day
  {
    assert '周' !in DayChars;
    if |day| == 1 && day[0] in DayChars then "星期" + day
    else if |day| >= 1 && day[0] == '周' then "星期" + day[1..]
    else day
  }

  /** Normalising twice changes nothing beyond normalising once. */
  lemma {:induction false} StandardizeDayIdempotent(day: string)
    ensures StandardizeDay(StandardizeDay(day)) == StandardizeDay(day)
  {
    var r := StandardizeDay(day);
    if r != day {
      assert r[0] == '星' by { assert r[..2][0] == r[0]; }
      assert !(|r| == 1) && r[0] != '周';
    }
  }

  /** The three spellings `X`, `周X` and `星期X` of a weekday all normalise to
      the name that weekday has in `week_map`. */
  lemma {:induction false} StandardizeDaySpellings(w: Weekday)
    ensures StandardizeDay([DayChars[w]]) == WeekdayName(w)
    ensures StandardizeDay("周" + [DayChars[w]]) == WeekdayName(w)
    ensures StandardizeDay(WeekdayName(w)) == WeekdayName(w)
  {
    assert '周' !in DayChars;
    assert ("周" + [DayChars[w]])[1..] == [DayChars[w]];
  }

  // ================================================================ _standardize_time

  /** The value of the first entry of `m` whose key occurs in `time`. */
  function FirstMapped(m: seq<(string, string)>, time: string): (r: Option<string>)
    ensures r.Some? ==> exists k :: 0 <= k < |m| && Contains(time, m[k].0) && r.value == m[k].1 &&
                                    forall j :: 0 <= j < k ==> !Contains(time, m[j].0)
    ensures r.None? <==> forall k :: 0 <= k < |m| ==> !Contains(time, m[k].0)
  {
    if m == [] then None
    else if Contains(time, m[0].0) then Some(m[0].1)
    else
      var r := FirstMapped(m[1..], time);
      assert forall k :: 1 <= k < |m| ==> m[k] == m[1..][k - 1];
      r
  }

  /** `_standardize_time`: a string mentioning both `第` and `节` is replaced by
      the clock range of the first period key it contains, if any. */
  function StandardizeTime(time: string): (r: string)
    ensures r == time || exists k :: 0 <= k < |TimeMap| && r == TimeMap[k].1
    ensures !('第' in time && '节' in time) ==> r == time
  {
    if '第' in time && '节' in time then FirstMapped(TimeMap, time).GetOr(time) else time
  }

  /** The `第`/`节` guard never decides anything: every key contains both
      characters, so the result is exactly the first key found, in
      `time_map` order, or the input when none is found. */
  lemma {:induction false} StandardizeTimeIsFirstKey(time: string)
    ensures StandardizeTime(time) == FirstMapped(TimeMap, time).GetOr(time)
  {
    if !('第' in time && '节' in time) && FirstMapped(TimeMap, time).Some? {
      var k :| 0 <= k < |TimeMap| && Contains(time, TimeMap[k].0);
      assert '第' in TimeMap[k].0 && '节' in TimeMap[k].0 by {
        assert TimeMap[k].0[0] == '第' && TimeMap[k].0[|TimeMap[k].0| - 1] == '节';
      }
      ContainsChar(time, TimeMap[k].0, '第');
      ContainsChar(time, TimeMap[k].0, '节');
    }
  }

  /** A clock range from `time_map` no longer mentions a period, so a second
      standardisation leaves the first one's result alone. */
  lemma {:induction false} StandardizeTimeIdempotent(time: string)
    ensures StandardizeTime(StandardizeTime(time)) == StandardizeTime(time)
  {
    var r := StandardizeTime(time);
    if r != time {
      var k :| 0 <= k < |TimeMap| && r == TimeMap[k].1;
      assert '第' !in TimeMap[k].1 by {
        assert forall i :: 0 <= i < |TimeMap[k].1| ==> IsDigit(TimeMap[k].1[i]) || TimeMap[k].1[i] in ":-";
      }
    }
  }

  // ================================================================ the line pattern
  //
  // `_parse_course_text` matches, with `re.match`, the pattern
  //     (.+?)\s+([一二三四五六日]|星期[一二三四五六日])\s+([\d:-]+)\s+(.+?)\s+(.+)
  // The functions below search for the first match in the order the
  // backtracking engine tries them. `.` matches anything but a newline; `\s`
  // is `IsSpace`. The three `\s+` before the day, the time and the whitespace
  // after the day, and the `[\d:-]+` run are taken longest-only: giving any
  // of them back would put a whitespace character where a day or time
  // character is needed, or a time character where whitespace is needed,
  // so the engine's retries there never succeed. The other quantifiers keep
  // their full retry order.

  /** Where a match ends: at the end of the text or before a newline. */
  predicate LineEnd(rest: string) {
    rest == [] || rest[0] == '\n'
  }

  /** The five groups of a match, before stripping. */
  datatype Groups = Groups(name: string, day: string, time: string, classroom: string, teacher: string)

  predicate IsTimeChar(c: char) {
    IsDigit(c) || c == ':' || c == '-'
  }

  /** `[一二三四五六日]|星期[一二三四五六日]` as a whole group. */
  predicate IsDayToken(s: string) {
    (|s| == 1 && s[0] in DayChars) || IsWeekdayName(s)
  }

  /** What every match guarantees about its groups. */
  predicate WellFormed(g: Groups) {
    && g.name != [] && '\n' !in g.name
    && IsDayToken(g.day)
    && g.time != [] && (forall i :: 0 <= i < |g.time| ==> IsTimeChar(g.time[i]))
    && g.classroom != [] && '\n' !in g.classroom
    && g.teacher != [] && '\n' !in g.teacher
  }

  /** The length of the `[\d:-]` run `u` starts with. */
  function TimeRun(u: string): (n: nat)
    ensures n <= |u| && (n == |u| || !IsTimeChar(u[n]))
    ensures forall i :: 0 <= i < n ==> IsTimeChar(u[i])
  {
    if u != [] && IsTimeChar(u[0]) then 1 + TimeRun(u[1..]) else 0
  }

  /** The number of characters before the first newline. */
  function LineLength(u: string): (n: nat)
    ensures n <= |u| && (n == |u| || u[n] == '\n')
    ensures '\n' !in u[..n]
  {
    if u != [] && u[0] != '\n' then
      var n := 1 + LineLength(u[1..]);
      assert u[..n] == [u[0]] + u[1..][..n - 1];
      n
    else 0
  }

  /** The closing `(.+)`: as many non-newline characters as there are. */
  function MatchTeacher(u: string): (r: Option<string>)
    ensures r.Some? ==> r.value != [] && '\n' !in r.value
    ensures r.Some? ==> r.value <= u && LineEnd(u[|r.value|..])
  {
    var e := LineLength(u);
    if e > 0 then Some(u[..e]) else None
  }

  /** `\s+(.+)`, the whitespace run given back one character at a time,
      starting from length `k`. */
  function MatchSpaceTeacher(u: string, k: nat): (r: Option<string>)
    requires k <= |u|
    ensures r.Some? ==> r.value != [] && '\n' !in r.value
  {
    if k == 0 then None
    else
      match MatchTeacher(u[k..])
      case Some(t) => Some(t)
      case None => MatchSpaceTeacher(u, k - 1)
  }

  /** `(.+?)\s+(.+)`: the lazy classroom group grown one character at a time;
      `r` is the length under trial. */
  function MatchRoomTeacher(u: string, r: nat): (res: Option<(string, string)>)
    requires 1 <= r <= |u|
    requires '\n' !in u[..r - 1]
    ensures res.Some? ==> res.value.0 != [] && '\n' !in res.value.0
    ensures res.Some? ==> res.value.1 != [] && '\n' !in res.value.1
    decreases |u| - r
  {
    if u[r - 1] == '\n' then None
    else
      assert u[..r] == u[..r - 1] + [u[r - 1]];
      match MatchSpaceTeacher(u[r..], LeadingSpace(u[r..]))
      case Some(t) => Some((u[..r], t))
      case None => if r < |u| then MatchRoomTeacher(u, r + 1) else None
  }

  /** `\s+(.+?)\s+(.+)` after the time; the leading whitespace is given back
      one character at a time from length `j`. */
  function MatchSpaceRoomTeacher(u: string, j: nat): (res: Option<(string, string)>)
    requires j <= |u|
    ensures res.Some? ==> res.value.0 != [] && '\n' !in res.value.0
    ensures res.Some? ==> res.value.1 != [] && '\n' !in res.value.1
  {
    if j == 0 then None
    else
      var here := if j < |u| then MatchRoomTeacher(u[j..], 1) else None;
      if here.Some? then here else MatchSpaceRoomTeacher(u, j - 1)
  }

  /** `([\d:-]+)\s+(.+?)\s+(.+)`: time, classroom and teacher. */
  function MatchTimeRest(u: string): (res: Option<(string, string, string)>)
    ensures res.Some? ==> res.value.0 != [] && forall i :: 0 <= i < |res.value.0| ==> IsTimeChar(res.value.0[i])
    ensures res.Some? ==> res.value.1 != [] && '\n' !in res.value.1
    ensures res.Some? ==> res.value.2 != [] && '\n' !in res.value.2
  {
    var n := TimeRun(u);
    if n == 0 then None
    else
      match MatchSpaceRoomTeacher(u[n..], LeadingSpace(u[n..]))
      case Some((room, teacher)) => Some((u[..n], room, teacher))
      case None => None
  }

  /** The length of the day group at the front of `u`, 0 when there is none.
      The one-character alternative is tried first. */
  function DayLength(u: string): (d: nat)
    ensures d <= |u| && (d == 0 || IsDayToken(u[..d]))
  {
    if |u| >= 1 && u[0] in DayChars then 1
    else if |u| >= 3 && u[0] == '星' && u[1] == '期' && u[2] in DayChars then 3
    else 0
  }

  /** `\s+(day)\s+(time)\s+(classroom)\s+(teacher)` after the name. */
  function MatchAfterName(u: string): (res: Option<(string, string, string, string)>)
    ensures res.Some? ==> WellFormed(Groups("x", res.value.0, res.value.1, res.value.2, res.value.3))
    ensures res.Some? ==> DayLayout(u, res.value.0, res.value.1, res.value.2, res.value.3)
  {
    var w1 := LeadingSpace(u);
    if w1 == 0 then None
    else
      var v := u[w1..];
      var d := DayLength(v);
      if d == 0 then None
      else
        var after := v[d..];
        var w2 := LeadingSpace(after);
        if w2 == 0 then None
        else
          var rest := MatchTimeRest(after[w2..]);
          if rest.None? then None
          else
            MatchTimeLayout(after, rest.value.0, rest.value.1, rest.value.2);
            LeadingSpaceIsSpace(u);
            DayLayoutOf(u, w1, v, d, after, rest.value.0, rest.value.1, rest.value.2);
            Some((v[..d], rest.value.0, rest.value.1, rest.value.2))
  }

  /** `(.+?)` for the name, grown one character at a time; `n` is the length
      under trial. */
  function MatchFrom(t: string, n: nat): (r: Option<Groups>)
    requires 1 <= n <= |t|
    requires '\n' !in t[..n - 1]
    ensures r.Some? ==> WellFormed(r.value) && r.value.name <= t
    ensures r.Some? ==> Layout(t, r.value)
    decreases |t| - n
  {
    if t[n - 1] == '\n' then None
    else
      assert t[..n] == t[..n - 1] + [t[n - 1]];
      match MatchAfterName(t[n..])
      case Some((day, time, room, teacher)) =>
        assert t[|t[..n]|..] == t[n..];
        Some(Groups(t[..n], day, time, room, teacher))
      case None => if n < |t| then MatchFrom(t, n + 1) else None
  }

  /** `re.match(pattern, text)`: the groups of the first match at the start
      of `text`, or `None`. */
  function MatchCourseLine(t: string): (r: Option<Groups>)
    ensures r.Some? ==> WellFormed(r.value) && r.value.name <= t
    ensures r.Some? ==> Layout(t, r.value)
  {
    if t == [] then None else MatchFrom(t, 1)
  }

  // ---------------------------------------------------------------- what a match consumed

  /** `u` is a nonempty whitespace run, then `x`, then `rest`. */
  predicate SpacedThen(u: string, x: string, rest: string) {
    var w := |u| - |x| - |rest|;
    w >= 1 && AllSpace(u[..w]) && u[w..] == x + rest
  }

  /** `u` is a whitespace run, `x`, and then the end of the line. */
  ghost predicate SpacedLast(u: string, x: string) {
    exists rest :: SpacedThen(u, x, rest) && LineEnd(rest)
  }

  /** `u` is whitespace, the classroom, whitespace, the teacher, the end of
      the line. */
  ghost predicate RoomTeacherLayout(u: string, room: string, teacher: string) {
    exists v :: SpacedThen(u, room, v) && SpacedLast(v, teacher)
  }

  /** `u` is whitespace and the time, followed by the classroom and teacher. */
  ghost predicate TimeLayout(u: string, time: string, room: string, teacher: string) {
    exists v :: SpacedThen(u, time, v) && RoomTeacherLayout(v, room, teacher)
  }

  /** `u` is whitespace and the day, followed by the time, classroom and
      teacher. */
  ghost predicate DayLayout(u: string, day: string, time: string, room: string, teacher: string) {
    exists v :: SpacedThen(u, day, v) && TimeLayout(v, time, room, teacher)
  }

  /** The text starts with the five groups in order, separated by nonempty
      whitespace runs, and the teacher runs to the end of the line. */
  ghost predicate Layout(t: string, g: Groups) {
    g.name <= t && DayLayout(t[|g.name|..], g.day, g.time, g.classroom, g.teacher)
  }

  lemma {:induction false} MatchSpaceTeacherLayout(u: string, k: nat)
    requires k <= |u| && AllSpace(u[..k]) && MatchSpaceTeacher(u, k).Some?
    ensures SpacedLast(u, MatchSpaceTeacher(u, k).value)
    decreases k
  {
    var m := MatchTeacher(u[k..]);
    if m.Some? {
      var t := m.value;
      var rest := u[k..][|t|..];
      assert u[k..] == t + rest;
      assert SpacedThen(u, t, rest);
    } else {
      AllSpacePrefix(u[..k], k - 1);
      assert u[..k][..k - 1] == u[..k - 1];
      MatchSpaceTeacherLayout(u, k - 1);
    }
  }

  lemma {:induction false} MatchRoomTeacherLayout(u: string, r: nat)
    requires 1 <= r <= |u| && '\n' !in u[..r - 1] && MatchRoomTeacher(u, r).Some?
    ensures MatchRoomTeacher(u, r).value.0 <= u
    ensures SpacedLast(u[|MatchRoomTeacher(u, r).value.0|..], MatchRoomTeacher(u, r).value.1)
    decreases |u| - r
  {
    var v := u[r..];
    if MatchSpaceTeacher(v, LeadingSpace(v)).Some? {
      LeadingSpaceIsSpace(v);
      MatchSpaceTeacherLayout(v, LeadingSpace(v));
    } else {
      assert u[..r] == u[..r - 1] + [u[r - 1]];
      MatchRoomTeacherLayout(u, r + 1);
    }
  }

  lemma {:induction false} MatchSpaceRoomTeacherLayout(u: string, j: nat)
    requires j <= |u| && AllSpace(u[..j]) && MatchSpaceRoomTeacher(u, j).Some?
    ensures RoomTeacherLayout(u, MatchSpaceRoomTeacher(u, j).value.0, MatchSpaceRoomTeacher(u, j).value.1)
    decreases j
  {
    var here := if j < |u| then MatchRoomTeacher(u[j..], 1) else None;
    if here.Some? {
      MatchRoomTeacherLayout(u[j..], 1);
      RoomTeacherLayoutOf(u, j, here.value.0, here.value.1);
    } else {
      AllSpacePrefix(u[..j], j - 1);
      assert u[..j][..j - 1] == u[..j - 1];
      MatchSpaceRoomTeacherLayout(u, j - 1);
    }
  }

  lemma RoomTeacherLayoutOf(u: string, j: nat, room: string, teacher: string)
    requires 1 <= j <= |u| && AllSpace(u[..j])
    requires room <= u[j..] && SpacedLast(u[j..][|room|..], teacher)
    ensures RoomTeacherLayout(u, room, teacher)
  {
    var x := u[j..];
    var v := x[|room|..];
    assert x == room + v;
    SpacedThenOf(u, j, room, v);
  }

  lemma MatchTimeRestLayout(u: string)
    requires MatchTimeRest(u).Some?
    ensures MatchTimeRest(u).value.0 <= u
    ensures RoomTeacherLayout(u[|MatchTimeRest(u).value.0|..], MatchTimeRest(u).value.1, MatchTimeRest(u).value.2)
  {
    var x := u[TimeRun(u)..];
    LeadingSpaceIsSpace(x);
    MatchSpaceRoomTeacherLayout(x, LeadingSpace(x));
  }

  lemma SpacedThenOf(u: string, w: nat, x: string, rest: string)
    requires 1 <= w <= |u| && AllSpace(u[..w]) && u[w..] == x + rest
    ensures SpacedThen(u, x, rest)
  {
    assert |u| == w + |x| + |rest| by { assert |u[w..]| == |u| - w; }
  }

  lemma MatchTimeLayout(after: string, time: string, room: string, teacher: string)
    requires 1 <= LeadingSpace(after)
    requires MatchTimeRest(after[LeadingSpace(after)..]) == Some((time, room, teacher))
    ensures TimeLayout(after, time, room, teacher)
  {
    var w2 := LeadingSpace(after);
    var x := after[w2..];
    MatchTimeRestLayout(x);
    var y := x[|time|..];
    assert x == time + y;
    LeadingSpaceIsSpace(after);
    SpacedThenOf(after, w2, time, y);
  }

  lemma DayLayoutOf(
    u: string, w: nat, v: string, d: nat, after: string, time: string, room: string, teacher: string)
    requires 1 <= w <= |u| && AllSpace(u[..w]) && v == u[w..]
    requires 1 <= d <= |v| && after == v[d..] && TimeLayout(after, time, room, teacher)
    ensures DayLayout(u, v[..d], time, room, teacher)
  {
    assert v == v[..d] + after;
    SpacedThenOf(u, w, v[..d], after);
  }

  // ---------------------------------------------------------------- the canonical line

  lemma {:induction false} LeadingSpaceOf(w: string, rest: string)
    requires AllSpace(w) && (rest == [] || !IsSpace(rest[0]))
    ensures LeadingSpace(w + rest) == |w|
    decreases |w|
  {
    if w != [] {
      assert (w + rest)[1..] == w[1..] + rest;
      LeadingSpaceOf(w[1..], rest);
    } else {
      assert w + rest == rest;
    }
  }

  lemma {:induction false} TimeRunOf(time: string, rest: string)
    requires forall i :: 0 <= i < |time| ==> IsTimeChar(time[i])
    requires rest != [] && IsSpace(rest[0])
    ensures TimeRun(time + rest) == |time|
    decreases |time|
  {
    if time != [] {
      assert (time + rest)[1..] == time[1..] + rest;
      TimeRunOf(time[1..], rest);
    } else {
      assert time + rest == rest;
    }
  }

  lemma {:induction false} LineLengthOf(s: string)
    requires '\n' !in s
    ensures LineLength(s) == |s|
    decreases |s|
  {
    if s != [] {
      LineLengthOf(s[1..]);
    }
  }

  /** Trying classroom lengths shorter than a whitespace-free `room` only
      moves on to the next length. */
  lemma {:induction false} MatchRoomSkips(room: string, rest: string, r: nat)
    requires room != [] && NoSpace(room) && 1 <= r <= |room|
    ensures '\n' !in (room + rest)[..r - 1]
    ensures MatchRoomTeacher(room + rest, r) == MatchRoomTeacher(room + rest, |room|)
    decreases |room| - r
  {
    var u := room + rest;
    assert u[..r - 1] == room[..r - 1];
    assert forall i :: 0 <= i < r - 1 ==> !IsSpace(room[i]);
    if r < |room| {
      assert u[r - 1] == room[r - 1];
      assert u[r..][0] == room[r];
      assert LeadingSpace(u[r..]) == 0;
      MatchRoomSkips(room, rest, r + 1);
    }
  }

  /** At the full length of a whitespace-free `room` the classroom group
      closes and the teacher is the rest of the line. */
  lemma MatchRoomAtEnd(room: string, w4: string, teacher: string)
    requires room != [] && NoSpace(room)
    requires w4 != [] && AllSpace(w4)
    requires teacher != [] && !IsSpace(teacher[0]) && '\n' !in teacher
    ensures '\n' !in (room + w4 + teacher)[..|room| - 1]
    ensures MatchRoomTeacher(room + w4 + teacher, |room|) == Some((room, teacher))
  {
    var u := room + w4 + teacher;
    var r := |room|;
    assert u[..r] == room && u[r..] == w4 + teacher;
    assert '\n' !in u[..r - 1] by {
      assert forall i :: 0 <= i < r - 1 ==> u[..r - 1][i] == room[i];
    }
    assert u[r - 1] == room[r - 1];
    LeadingSpaceOf(w4, teacher);
    assert (w4 + teacher)[|w4|..] == teacher;
    LineLengthOf(teacher);
    assert teacher[..|teacher|] == teacher;
  }

  lemma MatchRoomTeacherOf(room: string, w4: string, teacher: string)
    requires room != [] && NoSpace(room)
    requires w4 != [] && AllSpace(w4)
    requires teacher != [] && !IsSpace(teacher[0]) && '\n' !in teacher
    ensures MatchSpaceRoomTeacher(room + w4 + teacher, 0) == None
    ensures '\n' !in (room + w4 + teacher)[..0]
    ensures MatchRoomTeacher(room + w4 + teacher, 1) == Some((room, teacher))
  {
    assert room + w4 + teacher == room + (w4 + teacher);
    MatchRoomSkips(room, w4 + teacher, 1);
    MatchRoomAtEnd(room, w4, teacher);
  }

  /** The whitespace after the time is taken whole and the classroom and
      teacher follow. */
  lemma {:induction false} MatchSpaceRoomTeacherOf(
    w3: string, room: string, w4: string, teacher: string)
    requires w3 != [] && AllSpace(w3)
    requires room != [] && NoSpace(room)
    requires w4 != [] && AllSpace(w4)
    requires teacher != [] && !IsSpace(teacher[0]) && '\n' !in teacher
    ensures LeadingSpace(w3 + (room + w4 + teacher)) == |w3|
    ensures MatchSpaceRoomTeacher(w3 + (room + w4 + teacher), |w3|) == Some((room, teacher))
  {
    var tail := room + w4 + teacher;
    var u := w3 + tail;
    assert tail[0] == room[0];
    LeadingSpaceOf(w3, tail);
    assert u[|w3|..] == tail;
    MatchRoomTeacherOf(room, w4, teacher);
  }

  lemma {:induction false} MatchTimeRestOf(
    time: string, w3: string, room: string, w4: string, teacher: string)
    requires time != [] && forall i :: 0 <= i < |time| ==> IsTimeChar(time[i])
    requires w3 != [] && AllSpace(w3)
    requires room != [] && NoSpace(room)
    requires w4 != [] && AllSpace(w4)
    requires teacher != [] && !IsSpace(teacher[0]) && '\n' !in teacher
    ensures MatchTimeRest(time + (w3 + (room + w4 + teacher))) == Some((time, room, teacher))
  {
    var rest := w3 + (room + w4 + teacher);
    var u := time + rest;
    TimeRunOf(time, rest);
    assert u[..|time|] == time;
    assert u[|time|..] == rest;
    MatchSpaceRoomTeacherOf(w3, room, w4, teacher);
  }

  /** The day token is read whole and the time follows its whitespace. */
  lemma {:induction false} MatchDayOf(day: string, w2: string, rest: string)
    requires IsDayToken(day) && w2 != [] && AllSpace(w2)
    requires rest != [] && !IsSpace(rest[0])
    ensures DayLength(day + (w2 + rest)) == |day|
    ensures (day + (w2 + rest))[..|day|] == day
    ensures LeadingSpace((day + (w2 + rest))[|day|..]) == |w2|
    ensures (day + (w2 + rest))[|day| + |w2|..] == rest
  {
    var v := day + (w2 + rest);
    assert '星' !in DayChars;
    assert v[0] == day[0];
    if |day| == 3 {
      assert v[1] == day[1] && v[2] == day[2];
    }
    assert v[|day|..] == w2 + rest;
    LeadingSpaceOf(w2, rest);
    assert (w2 + rest)[|w2|..] == rest;
  }

  lemma {:induction false} MatchAfterNameOf(
    w1: string, day: string, w2: string, time: string, w3: string,
    room: string, w4: string, teacher: string)
    requires w1 != [] && AllSpace(w1) && w2 != [] && AllSpace(w2)
    requires IsDayToken(day)
    requires time != [] && forall i :: 0 <= i < |time| ==> IsTimeChar(time[i])
    requires w3 != [] && AllSpace(w3)
    requires room != [] && NoSpace(room)
    requires w4 != [] && AllSpace(w4)
    requires teacher != [] && !IsSpace(teacher[0]) && '\n' !in teacher
    ensures MatchAfterName(w1 + (day + (w2 + (time + (w3 + (room + w4 + teacher))))))
         == Some((day, time, room, teacher))
  {
    var rest := time + (w3 + (room + w4 + teacher));
    var v := day + (w2 + rest);
    var u := w1 + v;
    assert rest[0] == time[0];
    assert v[0] == day[0];
    assert !IsSpace(v[0]) by {
      assert day[0] in DayChars || day[0] == '星';
    }
    LeadingSpaceOf(w1, v);
    assert u[LeadingSpace(u)..] == v;
    MatchDayOf(day, w2, rest);
    MatchTimeRestOf(time, w3, room, w4, teacher);
    assert MatchTimeRest(v[|day| + |w2|..]) == Some((time, room, teacher));
  }

  lemma {:induction false} MatchFromSkips(t: string, name: string, n: nat)
    requires name != [] && NoSpace(name) && name <= t && 1 <= n <= |name|
    ensures '\n' !in t[..n - 1]
    ensures MatchFrom(t, n) == MatchFrom(t, |name|)
    decreases |name| - n
  {
    assert t[..n - 1] == name[..n - 1];
    if n < |name| {
      assert t[n - 1] == name[n - 1];
      assert LeadingSpace(t[n..]) == 0 by {
        assert !IsSpace(name[n]);
        assert t[n..][0] == name[n];
      }
      MatchFromStep(t, n);
      MatchFromSkips(t, name, n + 1);
    }
  }

  /** A name length after which no whitespace follows cannot end the name. */
  lemma MatchFromStep(t: string, n: nat)
    requires 1 <= n < |t| && '\n' !in t[..n - 1] && t[n - 1] != '\n'
    requires LeadingSpace(t[n..]) == 0
    ensures '\n' !in t[..n]
    ensures MatchFrom(t, n) == MatchFrom(t, n + 1)
  {
    assert t[..n] == t[..n - 1] + [t[n - 1]];
    assert MatchAfterName(t[n..]) == None;
  }

  /** A line laid out as the pattern expects — a whitespace-free name, a day
      token, a time made of digits, `:` and `-`, a whitespace-free classroom
      and a teacher, separated by whitespace — matches with exactly those
      five groups. */
  lemma {:induction false} MatchCanonicalLine(
    name: string, w1: string, day: string, w2: string, time: string, w3: string,
    room: string, w4: string, teacher: string)
    requires name != [] && NoSpace(name)
    requires w1 != [] && AllSpace(w1) && w2 != [] && AllSpace(w2)
    requires IsDayToken(day)
    requires time != [] && forall i :: 0 <= i < |time| ==> IsTimeChar(time[i])
    requires w3 != [] && AllSpace(w3)
    requires room != [] && NoSpace(room)
    requires w4 != [] && AllSpace(w4)
    requires teacher != [] && !IsSpace(teacher[0]) && '\n' !in teacher
    ensures MatchCourseLine(name + w1 + day + w2 + time + w3 + room + w4 + teacher)
         == Some(Groups(name, day, time, room, teacher))
  {
    var after := w1 + (day + (w2 + (time + (w3 + (room + w4 + teacher)))));
    var t := name + after;
    assert name + w1 + day + w2 + time + w3 + room + w4 + teacher == t;
    assert t[..|name|] == name;
    MatchFromSkips(t, name, 1);
    var n := |name|;
    assert t[n - 1] == name[n - 1];
    assert t[n..] == after;
    MatchAfterNameOf(w1, day, w2, time, w3, room, w4, teacher);
  }

  // ================================================================ _parse_course_text

  /** `_parse_course_text`: the groups of the line pattern, stripped, with the
      day and the time standardised. */
  function ParseCourseText(text: string): (r: Option<ParsedCourse>)
    ensures r.Some? <==> MatchCourseLine(text).Some?
    ensures r.Some? ==> IsWeekdayName(r.value.day)
    ensures r.Some? ==> var g := MatchCourseLine(text).value;
      && r.value.course_name == Strip(g.name)
      && r.value.day == StandardizeDay(g.day)
      && r.value.time == g.time
      && r.value.classroom == Strip(g.classroom)
      && r.value.teacher == Strip(g.teacher)
    ensures r.Some? ==> r.value.time != [] && '第' !in r.value.time
  {
    match MatchCourseLine(text)
    case None => None
    case Some(g) =>
      assert '第' !in g.time by {
        assert forall i :: 0 <= i < |g.time| ==> IsTimeChar(g.time[i]);
      }
      Some(ParsedCourse(
        Strip(g.name), StandardizeDay(g.day), StandardizeTime(g.time),
        Strip(g.classroom), Strip(g.teacher)))
  }

  /** Reading a canonical line back: the name and classroom as written, the
      day as `星期X`, the time untouched, the teacher without trailing
      whitespace. */
  lemma {:induction false} ParseCanonicalLine(
    name: string, w1: string, day: string, w2: string, time: string, w3: string,
    room: string, w4: string, teacher: string)
    requires name != [] && NoSpace(name)
    requires w1 != [] && AllSpace(w1) && w2 != [] && AllSpace(w2)
    requires IsDayToken(day)
    requires time != [] && forall i :: 0 <= i < |time| ==> IsTimeChar(time[i])
    requires w3 != [] && AllSpace(w3)
    requires room != [] && NoSpace(room)
    requires w4 != [] && AllSpace(w4)
    requires teacher != [] && !IsSpace(teacher[0]) && '\n' !in teacher
    ensures ParseCourseText(name + w1 + day + w2 + time + w3 + room + w4 + teacher)
         == Some(ParsedCourse(name, StandardizeDay(day), time, room, Strip(teacher)))
    ensures IsWeekdayName(StandardizeDay(day))
  {
    MatchCanonicalLine(name, w1, day, w2, time, w3, room, w4, teacher);
    StripOfTrimmed(name);
    StripOfTrimmed(room);
  }

  // ================================================================ _parse_course_dict

  /** A cell of a spreadsheet row as `row.to_dict()` delivers it: text, an
      integer, or the NaN pandas puts in an empty cell. */
  datatype Cell = Str(text: string) | Int(value: int) | NaN

  /** Python truthiness of a cell: empty text and zero are false, NaN is true. */
  predicate Truthy(c: Cell) {
    match c
    case Str(s) => s != []
    case Int(v) => v != 0
    case NaN => true
  }

  /** `str(c)`. */
  function CellText(c: Cell): string {
    match c
    case Str(s) => s
    case Int(v) => DecimalString(v)
    case NaN => "nan"
  }

  /** `data.get(primary, data.get(fallback, ''))`. */
  function Lookup(data: map<string, Cell>, primary: string, fallback: string): Cell {
    if primary in data then data[primary]
    else if fallback in data then data[fallback]
    else Str("")
  }

  /** `_parse_course_dict`: the five values come from their primary or
      fallback column; the row is rejected when any is falsy, and also when
      the day or the time is not text (`len` and `in` on a number raise,
      and the `except` returns `None`). */
  function ParseCourseDict(data: map<string, Cell>): (r: Option<ParsedCourse>)
    ensures r.Some? <==>
      && Truthy(Lookup(data, "课程名称", "课程"))
      && Truthy(Lookup(data, "星期", "上课时间")) && Lookup(data, "星期", "上课时间").Str?
      && Truthy(Lookup(data, "节次", "时间")) && Lookup(data, "节次", "时间").Str?
      && Truthy(Lookup(data, "教室", "地点"))
      && Truthy(Lookup(data, "教师", "老师"))
    ensures r.Some? ==> r.value.course_name == Strip(CellText(Lookup(data, "课程名称", "课程")))
    ensures r.Some? ==> r.value.day == StandardizeDay(Lookup(data, "星期", "上课时间").text)
    ensures r.Some? ==> r.value.time == StandardizeTime(Lookup(data, "节次", "时间").text)
    ensures r.Some? ==> r.value.classroom == Strip(CellText(Lookup(data, "教室", "地点")))
    ensures r.Some? ==> r.value.teacher == Strip(CellText(Lookup(data, "教师", "老师")))
  {
    var name := Lookup(data, "课程名称", "课程");
    var day := Lookup(data, "星期", "上课时间");
    var time := Lookup(data, "节次", "时间");
    var room := Lookup(data, "教室", "地点");
    var teacher := Lookup(data, "教师", "老师");
    if !(Truthy(name) && Truthy(day) && Truthy(time) && Truthy(room) && Truthy(teacher)) then None
    else if !day.Str? || !time.Str? then None
    else Some(ParsedCourse(
      Strip(CellText(name)), StandardizeDay(day.text), StandardizeTime(time.text),
      Strip(CellText(room)), Strip(CellText(teacher))))
  }

  /** A primary column that is present shadows its fallback even when it is
      empty: an empty `课程名称` cell rejects the row whatever `课程` holds. */
  lemma PrimaryColumnShadowsFallback(data: map<string, Cell>)
    requires "课程名称" in data && data["课程名称"] == Str("")
    ensures ParseCourseDict(data) == None
  {
  }

  /** Emptiness is checked before stripping: a name of whitespace only is
      accepted and comes out as the empty string. */
  lemma {:induction false} BlankNameAccepted(data: map<string, Cell>)
    requires "课程名称" in data && data["课程名称"].Str?
    requires data["课程名称"].text != [] && AllSpace(data["课程名称"].text)
    requires Truthy(Lookup(data, "星期", "上课时间")) && Lookup(data, "星期", "上课时间").Str?
    requires Truthy(Lookup(data, "节次", "时间")) && Lookup(data, "节次", "时间").Str?
    requires Truthy(Lookup(data, "教室", "地点")) && Truthy(Lookup(data, "教师", "老师"))
    ensures ParseCourseDict(data).Some?
    ensures ParseCourseDict(data).value.course_name == ""
  {
    StripEmpty(data["课程名称"].text);
  }

  // ================================================================ parse_text_schedule

  /** The courses of `lines`, in order: each line is stripped, blank lines
      are skipped, lines the pattern rejects contribute nothing. */
  function ParseLines(lines: seq<string>): (r: seq<ParsedCourse>)
    ensures |r| <= |lines|
  {
    if lines == [] then []
    else
      var line := Strip(lines[0]);
      var rest := ParseLines(lines[1..]);
      if line == [] then rest
      else
        match ParseCourseText(line)
        case Some(c) => [c] + rest
        case None => rest
  }

  /** The number of lines that are not blank after stripping. */
  function NonBlankCount(lines: seq<string>): nat {
    if lines == [] then 0
    else (if Strip(lines[0]) == [] then 0 else 1) + NonBlankCount(lines[1..])
  }

  /** At most one course per non-blank line. */
  lemma {:induction false} ParseLinesBound(lines: seq<string>)
    ensures |ParseLines(lines)| <= NonBlankCount(lines)
  {
    if lines != [] {
      ParseLinesBound(lines[1..]);
    }
  }

  /** Lines are handled one after another and independently, so the courses
      keep the order of the lines they come from. */
  lemma {:induction false} ParseLinesAppend(a: seq<string>, b: seq<string>)
    ensures ParseLines(a + b) == ParseLines(a) + ParseLines(b)
  {
    if a == [] {
      assert a + b == b;
    } else {
      assert (a + b)[0] == a[0] && (a + b)[1..] == a[1..] + b;
      ParseLinesAppend(a[1..], b);
    }
  }

  /** Every collected course has a canonical weekday and a clock-style time. */
  lemma {:induction false} ParseLinesWellFormed(lines: seq<string>)
    ensures forall c :: c in ParseLines(lines) ==>
      IsWeekdayName(c.day) && c.time != [] && '第' !in c.time
  {
    if lines != [] {
      ParseLinesWellFormed(lines[1..]);
    }
  }

  /** `ParseLines` on a single line. */
  lemma ParseLinesOne(line: string)
    ensures ParseLines([line]) ==
      (if Strip(line) == [] || ParseCourseText(Strip(line)).None? then []
       else [ParseCourseText(Strip(line)).value])
  {
    assert [line][1..] == [];
  }

  /** `ParseLines` takes the lines one at a time. */
  lemma ParseLinesStep(lines: seq<string>, i: nat)
    requires i < |lines|
    ensures ParseLines(lines[i..]) == ParseLines([lines[i]]) + ParseLines(lines[i + 1..])
  {
    assert lines[i..] == [lines[i]] + lines[i + 1..];
    ParseLinesAppend([lines[i]], lines[i + 1..]);
  }

  /** One more line handled keeps the loop's account of the output. */
  lemma ParseLinesAdvance(lines: seq<string>, i: nat, done: seq<ParsedCourse>, parsed: seq<ParsedCourse>)
    requires i < |lines| && parsed == ParseLines([lines[i]])
    requires ParseLines(lines) == done + ParseLines(lines[i..])
    ensures ParseLines(lines) == (done + parsed) + ParseLines(lines[i + 1..])
  {
    ParseLinesStep(lines, i);
    ConcatAssoc(done, parsed, ParseLines(lines[i + 1..]));
  }

  lemma ConcatAssoc<T>(a: seq<T>, b: seq<T>, c: seq<T>)
    ensures a + b + c == a + (b + c)
  {
  }

  /** The body of the line loop: strip one line and parse it unless it is
      blank. */
  method ParseLine(raw: string) returns (parsed: seq<ParsedCourse>)
    ensures parsed == ParseLines([raw])
    ensures |parsed| <= 1
  {
    ParseLinesOne(raw);
    parsed := [];
    var line := Strip(raw);
    if line != [] {
      var info := ParseCourseText(line);
      if info.Some? {
        parsed := [info.value];
      }
    }
  }

  /** `parse_text_schedule`: split the text on newlines and collect the
      courses of its lines. */
  method ParseTextSchedule(text: string) returns (courses: seq<ParsedCourse>)
    ensures courses == ParseLines(Split(text, '\n'))
  {
    var lines := Split(text, '\n');
    courses := [];
    var i := 0;
    assert lines[0..] == lines;
    while i < |lines|
      invariant 0 <= i <= |lines|
      invariant ParseLines(lines) == courses + ParseLines(lines[i..])
    {
      var parsed := ParseLine(lines[i]);
      ParseLinesAdvance(lines, i, courses, parsed);
      courses := courses + parsed;
      i := i + 1;
    }
    assert courses + [] == courses;
  }
}
