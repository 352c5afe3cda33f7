/** Shared vocabulary of the three schedule variants: optional values, clock
    readings, weekday names, and the handful of Python `str` operations the
    source relies on (`isspace`, `strip`, `split`, `in`, `int()`). */
module Common {

  datatype Option<+T> = None | Some(value: T) {
    function GetOr(default: T): T {
      match this
      case Some(v) => v
      case None => default
    }
  }

  /** Seconds since midnight; a `datetime.time` without its microseconds. */
  type SecondOfDay = s: int | 0 <= s < 86400

  type Microsecond = u: int | 0 <= u < 1000000

  /** The time-of-day part of `datetime.now()`. */
  datatype Clock = Clock(second: SecondOfDay, microsecond: Microsecond)

  /** The instant of a clock reading in microseconds since midnight. */
  function ClockMicros(now: Clock): int {
    now.second * 1000000 + now.microsecond
  }

  /** A weekday as `datetime.weekday()` numbers it: 0 is Monday, 6 is Sunday. */
  type Weekday = w: int | 0 <= w < 7

  /** The day characters of `一二三四五六日`, Monday first. */
  const DayChars: string := "一二三四五六日"

  /** The `星期X` name the source's `week_map` gives each weekday. */
  function WeekdayName(w: Weekday): (name: string)
    ensures |name| == 3 && name[..2] == "星期" && name[2] == DayChars[w]
  {
    "星期" + [DayChars[w]]
  }

  lemma {:induction false} WeekdayNameInjective(v: Weekday, w: Weekday)
    ensures WeekdayName(v) == WeekdayName(w) <==> v == w
  {
    if WeekdayName(v) == WeekdayName(w) {
      assert DayChars[v] == WeekdayName(v)[2] == WeekdayName(w)[2] == DayChars[w];
    }
  }

  // ---------------------------------------------------------------- characters

  /** Python's `str.isspace`, which is also what `\s` and `str.strip()` use. */
  predicate IsSpace(c: char) {
    ('\t' <= c <= '\r') || ('\U{1C}' <= c <= '\U{1F}') || c == ' '
    || c == '\U{85}' || c == '\U{A0}' || c == '\U{1680}'
    || ('\U{2000}' <= c <= '\U{200A}') || c == '\U{2028}' || c == '\U{2029}'
    || c == '\U{202F}' || c == '\U{205F}' || c == '\U{3000}'
  }

  predicate IsDigit(c: char) {
    '0' <= c <= '9'
  }

  predicate AllSpace(s: string) {
    forall i :: 0 <= i < |s| ==> IsSpace(s[i])
  }

  predicate NoSpace(s: string) {
    forall i :: 0 <= i < |s| ==> !IsSpace(s[i])
  }

  predicate AllDigits(s: string) {
    forall i :: 0 <= i < |s| ==> IsDigit(s[i])
  }

  lemma AllSpacePrefix(s: string, n: nat)
    requires AllSpace(s) && n <= |s|
    ensures AllSpace(s[..n])
  {
    assert forall i :: 0 <= i < n ==> s[..n][i] == s[i];
  }

  // ---------------------------------------------------------------- strip

  /** The number of whitespace characters `s` starts with. */
  function LeadingSpace(s: string): (n: nat)
    ensures n <= |s| && (n == |s| || !IsSpace(s[n]))
  {
    if s != [] && IsSpace(s[0]) then 1 + LeadingSpace(s[1..]) else 0
  }

  /** The number of whitespace characters `s` ends with. */
  function TrailingSpace(s: string): (n: nat)
    ensures n <= |s| && (n == |s| || !IsSpace(s[|s| - 1 - n]))
    ensures n == |s| && s != [] ==> IsSpace(s[0])
  {
    if s != [] && IsSpace(s[|s| - 1]) then 1 + TrailingSpace(s[..|s| - 1]) else 0
  }

  /** Python's `str.strip()`: `s` without its leading and trailing
      whitespace. */
  function Strip(s: string): (r: string)
    ensures r == [] || (!IsSpace(r[0]) && !IsSpace(r[|r| - 1]))
  {
    var t := s[LeadingSpace(s)..];
    t[..|t| - TrailingSpace(t)]
  }

  /** Everything `LeadingSpace` counts is whitespace. */
  lemma {:induction false} LeadingSpaceIsSpace(s: string)
    ensures AllSpace(s[..LeadingSpace(s)])
  {
    if s != [] && IsSpace(s[0]) {
      LeadingSpaceIsSpace(s[1..]);
      assert s[..LeadingSpace(s)] == [s[0]] + s[1..][..LeadingSpace(s[1..])];
    }
  }

  /** Everything `TrailingSpace` counts is whitespace. */
  lemma {:induction false} TrailingSpaceIsSpace(s: string)
    ensures AllSpace(s[|s| - TrailingSpace(s)..])
    decreases |s|
  {
    if s != [] && IsSpace(s[|s| - 1]) {
      var p := s[..|s| - 1];
      TrailingSpaceIsSpace(p);
      assert s[|s| - TrailingSpace(s)..] == p[|p| - TrailingSpace(p)..] + [s[|s| - 1]];
    }
  }

  /** `str.strip()` takes off a whitespace run at each end and nothing
      else: the input is the result between two whitespace runs. Since the
      result neither starts nor ends with whitespace, the runs are the
      longest ones. */
  lemma StripInfix(s: string)
    ensures exists a, b :: s == a + Strip(s) + b && AllSpace(a) && AllSpace(b)
  {
    var n := LeadingSpace(s);
    var t := s[n..];
    var m := |t| - TrailingSpace(t);
    LeadingSpaceIsSpace(s);
    TrailingSpaceIsSpace(t);
    assert t == t[..m] + t[m..];
    assert s == s[..n] + t[..m] + t[m..];
  }

  /** Only whitespace-only strings strip to nothing. */
  lemma StripEmpty(s: string)
    ensures Strip(s) == [] <==> AllSpace(s)
  {
    var a := LeadingSpace(s);
    if a < |s| {
      assert s[a..][0] == s[a];
    } else {
      LeadingSpaceIsSpace(s);
      assert s[..a] == s;
    }
  }

  lemma {:induction false} StripOfTrimmed(s: string)
    requires s == [] || (!IsSpace(s[0]) && !IsSpace(s[|s| - 1]))
    ensures Strip(s) == s
  {
  }

  lemma StripIdempotent(s: string)
    ensures Strip(Strip(s)) == Strip(s)
  {
    StripOfTrimmed(Strip(s));
  }

  // ---------------------------------------------------------------- split / join

  /** Python's `s.split(sep)` for a one-character separator: the pieces
      between separators, one more piece than there are separators. */
  function Split(s: string, sep: char): (r: seq<string>)
    ensures |r| >= 1
    decreases |s|
  {
    if s == [] then [[]]
    else
      assert s == [s[0]] + s[1..];
      var rest := Split(s[1..], sep);
      if s[0] == sep then [[]] + rest
      else [[s[0]] + rest[0]] + rest[1..]
  }

  /** Python's `sep.join(ps)`. */
  function Join(ps: seq<string>, sep: char): string
    requires |ps| >= 1
  {
    if |ps| == 1 then ps[0] else ps[0] + [sep] + Join(ps[1..], sep)
  }

  lemma {:induction false} JoinSplit(s: string, sep: char)
    ensures Join(Split(s, sep), sep) == s
    decreases |s|
  {
    if s != [] {
      var rest := Split(s[1..], sep);
      JoinSplit(s[1..], sep);
      if s[0] == sep {
        assert ([[]] + rest)[1..] == rest;
      } else {
        var r := [[s[0]] + rest[0]] + rest[1..];
        assert r[1..] == rest[1..];
        if |rest| > 1 {
          assert Join(rest, sep) == rest[0] + [sep] + Join(rest[1..], sep);
        }
      }
    }
  }

  lemma {:induction false} SplitOfPiece(s: string, sep: char)
    requires sep !in s
    ensures Split(s, sep) == [s]
    decreases |s|
  {
    if s != [] {
      SplitOfPiece(s[1..], sep);
      assert [s[0]] + s[1..] == s;
    }
  }

  /** Splitting `a + [sep] + b`, where `a` holds no separator, yields `a` and
      then the pieces of `b`. */
  lemma {:induction false} SplitAtFirst(a: string, b: string, sep: char)
    requires sep !in a
    ensures Split(a + [sep] + b, sep) == [a] + Split(b, sep)
    decreases |a|
  {
    var s := a + [sep] + b;
    if a == [] {
      assert s[1..] == b;
    } else {
      assert s[1..] == a[1..] + [sep] + b;
      SplitAtFirst(a[1..], b, sep);
      assert [a[0]] + a[1..] == a;
    }
  }

  /** Text without the separator in front of a string joins its first
      piece. */
  lemma {:induction false} SplitFirstOfAppend(a: string, b: string, sep: char)
    requires sep !in a
    ensures Split(a + b, sep)[0] == a + Split(b, sep)[0]
    decreases |a|
  {
    if a != [] {
      assert (a + b)[1..] == a[1..] + b;
      SplitFirstOfAppend(a[1..], b, sep);
      assert a == [a[0]] + a[1..];
    } else {
      assert a + b == b;
    }
  }

  /** The first piece of a split is a prefix of the string. */
  lemma {:induction false} SplitFirstPrefix(s: string, sep: char)
    ensures Split(s, sep)[0] <= s
    decreases |s|
  {
    if s != [] && s[0] != sep {
      SplitFirstPrefix(s[1..], sep);
      assert s == [s[0]] + s[1..];
    }
  }

  /** A string holding the separator splits into at least two pieces. */
  lemma {:induction false} SplitAtSeparator(s: string, sep: char)
    requires sep in s
    ensures |Split(s, sep)| >= 2
    decreases |s|
  {
    if s[0] != sep {
      assert sep in s[1..] by {
        var k :| 0 <= k < |s| && s[k] == sep;
        assert s[1..][k - 1] == sep;
      }
      SplitAtSeparator(s[1..], sep);
    }
  }

  /** No piece of a split holds the separator. */
  lemma {:induction false} SplitPieces(s: string, sep: char, k: nat)
    requires k < |Split(s, sep)|
    ensures sep !in Split(s, sep)[k]
    decreases |s|
  {
    if s != [] {
      var rest := Split(s[1..], sep);
      if s[0] == sep {
        if k > 0 {
          SplitPieces(s[1..], sep, k - 1);
        }
      } else if k == 0 {
        SplitPieces(s[1..], sep, 0);
      } else {
        SplitPieces(s[1..], sep, k);
      }
    }
  }

  /** `a, b = s.split(sep)` succeeds with exactly the two sides of the one
      separator in `s`. */
  lemma SplitPair(s: string, sep: char, a: string, b: string)
    ensures Split(s, sep) == [a, b] <==> s == a + [sep] + b && sep !in a && sep !in b
  {
    if Split(s, sep) == [a, b] {
      JoinSplit(s, sep);
      SplitPieces(s, sep, 0);
      SplitPieces(s, sep, 1);
    }
    if s == a + [sep] + b && sep !in a && sep !in b {
      SplitAtFirst(a, b, sep);
      SplitOfPiece(b, sep);
    }
  }

  // ---------------------------------------------------------------- substrings

  /** Python's `sub in s` on strings. */
  predicate Contains(s: string, sub: string)
    decreases |s|
  {
    sub <= s || (s != [] && Contains(s[1..], sub))
  }

  lemma {:induction false} ContainsChar(s: string, sub: string, c: char)
    requires Contains(s, sub) && c in sub
    ensures c in s
    decreases |s|
  {
    if sub <= s {
      var k :| 0 <= k < |sub| && sub[k] == c;
      assert s[k] == c;
    } else {
      ContainsChar(s[1..], sub, c);
    }
  }

  // ---------------------------------------------------------------- integers

  function DigitValue(c: char): nat
    requires IsDigit(c)
  {
    c as int - '0' as int
  }

  function DigitsValue(d: string): nat
    requires AllDigits(d)
  {
    if d == [] then 0 else DigitsValue(d[..|d| - 1]) * 10 + DigitValue(d[|d| - 1])
  }

  lemma DigitsValueShort(d: string)
    requires AllDigits(d) && 1 <= |d| <= 2
    ensures |d| == 1 ==> DigitsValue(d) == DigitValue(d[0])
    ensures |d| == 2 ==> DigitsValue(d) == 10 * DigitValue(d[0]) + DigitValue(d[1])
  {
    if |d| == 2 {
      assert d[..1][..0] == [];
    }
  }

  /** The information separators U+001C..U+001F: `str.isspace` and
      `str.strip` treat them as whitespace, `int()` does not. */
  predicate IsSeparatorControl(c: char) {
    '\U{1C}' <= c <= '\U{1F}'
  }

  predicate HasSeparatorControl(s: string)
    decreases |s|
  {
    s != [] && (IsSeparatorControl(s[0]) || HasSeparatorControl(s[1..]))
  }

  lemma {:induction false} NoSeparatorControl(s: string)
    requires forall i :: 0 <= i < |s| ==> !IsSeparatorControl(s[i])
    ensures !HasSeparatorControl(s)
    decreases |s|
  {
    if s != [] {
      assert forall i :: 0 <= i < |s[1..]| ==> s[1..][i] == s[i + 1];
      NoSeparatorControl(s[1..]);
    }
  }

  /** Python's `int(s)` on a string: surrounding whitespace, an optional sign
      and at least one decimal digit; anything else raises `ValueError`,
      which is `None` here. The whitespace `int()` skips is `IsSpace` without
      the information separators, which can only sit in the surrounding
      whitespace, so one of them anywhere rejects the string. */
  function ParseInt(s: string): (r: Option<int>)
    ensures r.Some? ==> Strip(s) != [] && !HasSeparatorControl(s)
    ensures r.Some? && r.value < 0 ==> Strip(s)[0] == '-'
  {
    var t := Strip(s);
    if HasSeparatorControl(s) then None
    else if |t| >= 2 && (t[0] == '+' || t[0] == '-') && AllDigits(t[1..]) then
      var v: int := DigitsValue(t[1..]);
      Some(if t[0] == '-' then -v else v)
    else if |t| >= 1 && AllDigits(t) then
      Some(DigitsValue(t))
    else
      None
  }

  function DigitChar(n: nat): (c: char)
    requires n < 10
    ensures IsDigit(c) && DigitValue(c) == n
  {
    (n + '0' as int) as char
  }

  /** Python's `str(n)` for an integer. */
  function DecimalString(n: int): (s: string)
    ensures s != []
  {
    if n < 0 then "-" + NaturalString(-n) else NaturalString(n)
  }

  function NaturalString(n: nat): (s: string)
    ensures s != [] && AllDigits(s) && DigitsValue(s) == n
  {
    if n < 10 then [DigitChar(n)]
    else
      var s := NaturalString(n / 10) + [DigitChar(n % 10)];
      assert s[..|s| - 1] == NaturalString(n / 10);
      s
  }

  lemma ParseDecimalString(n: int)
    ensures ParseInt(DecimalString(n)) == Some(n)
  {
    var s := DecimalString(n);
    NoSeparatorControl(s);
    if n < 0 {
      var d := NaturalString(-n);
      assert s == ['-'] + d && s[1..] == d;
      assert !IsSpace(s[0]) && !IsSpace(s[|s| - 1]) by { assert s[|s| - 1] == d[|d| - 1]; }
      StripOfTrimmed(s);
      assert |s| >= 2 && s[0] == '-' && AllDigits(s[1..]);
    } else {
      assert IsDigit(s[0]) && IsDigit(s[|s| - 1]);
      StripOfTrimmed(s);
      assert !(s[0] == '+' || s[0] == '-');
    }
  }

  /** The zero-padded two-digit rendering of `%H` and `%M`. */
  function TwoDigits(n: nat): (s: string)
    requires n < 100
    ensures |s| == 2 && AllDigits(s) && DigitsValue(s) == n
  {
    var s := [DigitChar(n / 10), DigitChar(n % 10)];
    assert s[..1] == [DigitChar(n / 10)] && s[..1][..0] == [];
    assert DigitsValue(s[..1]) == n / 10;
    s
  }

  /** `strftime("%H:%M")` of a second of the day. */
  function FormatHM(second: SecondOfDay): (s: string)
    ensures |s| == 5 && s[2] == ':'
  {
    TwoDigits(second / 3600) + ":" + TwoDigits(second / 60 % 60)
  }

  /** The start clock of a `HH:MM-HH:MM` string as the source reads it: the
      text before the first `-`, cut at every `:`, must give exactly two
      pieces, and `int` must accept both. Every failure of that reading is
      `None`; no range is checked. */
  function StartClock(s: string): (r: Option<(int, int)>)
    ensures r.Some? ==> ':' in Split(s, '-')[0]
  {
    var first := Split(s, '-')[0];
    var parts := Split(first, ':');
    if |parts| != 2 then None
    else
      assert parts == [parts[0], parts[1]];
      SplitPair(first, ':', parts[0], parts[1]);
      assert first[|parts[0]|] == ':';
      match (ParseInt(parts[0]), ParseInt(parts[1]))
      case (Some(h), Some(m)) => Some((h, m))
      case _ => None
  }

  /** When the text before the first `-` is `a:b` with a single `:`, the
      start is the pair of `int(a)` and `int(b)`, or `None` if either does
      not read. */
  lemma StartClockOf(s: string, a: string, b: string)
    requires Split(s, '-')[0] == a + ":" + b && ':' !in a && ':' !in b
    ensures StartClock(s) == if ParseInt(a).Some? && ParseInt(b).Some?
                             then Some((ParseInt(a).value, ParseInt(b).value)) else None
  {
    SplitPair(Split(s, '-')[0], ':', a, b);
  }

  /** The start reads exactly when the text before the first `-` is two
      pieces around a single `:` that `int` both accepts. */
  lemma StartClockReads(s: string)
    ensures StartClock(s).Some? <==>
      exists a, b :: Split(s, '-')[0] == a + ":" + b && ':' !in a && ':' !in b &&
                     ParseInt(a).Some? && ParseInt(b).Some?
  {
    var first := Split(s, '-')[0];
    var parts := Split(first, ':');
    if StartClock(s).Some? {
      assert parts == [parts[0], parts[1]];
      SplitPair(first, ':', parts[0], parts[1]);
      assert first == parts[0] + ":" + parts[1];
    }
    if a, b :| first == a + ":" + b && ':' !in a && ':' !in b && ParseInt(a).Some? && ParseInt(b).Some? {
      StartClockOf(s, a, b);
    }
  }

  lemma ParseTwoDigits(n: nat)
    requires n < 100
    ensures ParseInt(TwoDigits(n)) == Some(n)
  {
    StripOfTrimmed(TwoDigits(n));
    NoSeparatorControl(TwoDigits(n));
  }

  /** Reading back the start of a range written as `HH:MM-<end>`. */
  lemma StartClockOfRange(h: nat, m: nat, end: string)
    requires h < 100 && m < 100
    ensures StartClock(TwoDigits(h) + ":" + TwoDigits(m) + "-" + end) == Some((h, m))
  {
    var hh, mm := TwoDigits(h), TwoDigits(m);
    var parts := Split(Split(hh + ":" + mm + "-" + end, '-')[0], ':');
    SplitClockRange(hh, mm, end);
    assert (hh + ":" + mm)[2] == ':';
    assert parts == [hh, mm];
    ParseTwoDigits(h);
    ParseTwoDigits(m);
  }

  lemma SplitClockRange(hh: string, mm: string, end: string)
    requires |hh| == 2 && |mm| == 2 && AllDigits(hh) && AllDigits(mm)
    ensures Split(hh + ":" + mm + "-" + end, '-')[0] == hh + ":" + mm
    ensures Split(Split(hh + ":" + mm + "-" + end, '-')[0], ':') == [hh, mm]
  {
    var hm := hh + [':'] + mm;
    assert NoDash: '-' !in hm by {
      assert hm == [hh[0], hh[1], ':', mm[0], mm[1]];
    }
    assert NoColon: ':' !in hh && ':' !in mm by {
      assert hh == [hh[0], hh[1]] && mm == [mm[0], mm[1]];
    }
    assert hh + ":" + mm + "-" + end == hm + ['-'] + end;
    SplitAtFirst(hm, end, '-');
    var first := Split(hh + ":" + mm + "-" + end, '-')[0];
    assert first == hm;
    SplitAtFirst(hh, mm, ':');
    SplitOfPiece(mm, ':');
    assert Split(first, ':') == [hh] + [mm];
  }

  // ---------------------------------------------------------------- filtering

  /** A list comprehension `[x for x in s if p(x)]`. */
  function Filter<T>(s: seq<T>, p: T -> bool): (r: seq<T>)
    ensures |r| <= |s|
  {
    if s == [] then []
    else if p(s[0]) then [s[0]] + Filter(s[1..], p) else Filter(s[1..], p)
  }

  /** An element survives the filter exactly when it is in `s` and passes. */
  lemma {:induction false} FilterMembers<T>(s: seq<T>, p: T -> bool, x: T)
    ensures x in Filter(s, p) <==> x in s && p(x)
  {
    if s != [] {
      FilterMembers(s[1..], p, x);
      assert s == [s[0]] + s[1..];
    }
  }

  /** The first element decides whether it is kept; the rest is filtered on. */
  lemma FilterCons<T>(s: seq<T>, p: T -> bool)
    requires s != []
    ensures Filter(s, p) == (if p(s[0]) then [s[0]] else []) + Filter(s[1..], p)
  {
  }

  /** Filtering distributes over concatenation. */
  lemma {:induction false} FilterAppend<T>(a: seq<T>, b: seq<T>, p: T -> bool)
    ensures Filter(a + b, p) == Filter(a, p) + Filter(b, p)
  {
    if a == [] {
      assert a + b == b;
    } else {
      assert (a + b)[0] == a[0] && (a + b)[1..] == a[1..] + b;
      FilterAppend(a[1..], b, p);
    }
  }

  /** Filtering one more element of `s`. */
  lemma FilterPrefix<T>(s: seq<T>, i: nat, p: T -> bool)
    requires i < |s|
    ensures Filter(s[..i + 1], p) == Filter(s[..i], p) + (if p(s[i]) then [s[i]] else [])
  {
    assert s[..i + 1] == s[..i] + [s[i]];
    FilterAppend(s[..i], [s[i]], p);
    assert [s[i]][1..] == [];
  }
}
