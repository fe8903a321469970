/**
  Time-range and date normalisation (`normalizeTimeRange`, `parseRuDate` in
  lib/generator.js). JavaScript `Date` values are replaced by a day ordinal:
  a date's `ts` is its number of days since 1970-01-01 (proleptic Gregorian,
  UTC) times 86 400 000.
*/
module Calendar {
  import opened Wrappers
  import opened Text

  /** 24 * 60 * 60 * 1000 */
  const DayMs: int := 86400000

  // ===========================================================================
  // Time ranges

  /** The `{ ok: true, fromMinutes, toMinutes, timeText, timeShort, key }` object. */
  datatype TimeRange = TimeRange(fromMinutes: nat, toMinutes: nat, timeText: string, timeShort: string, key: string)

  /** "HH:MM" for a number of minutes after midnight. */
  function ClockText(minutes: nat): string {
    Pad2(minutes / 60) + ":" + Pad2(minutes % 60)
  }

  /** A range within one day, ending after it starts, whose texts spell its minutes. */
  predicate ValidTimeRange(t: TimeRange) {
    && t.fromMinutes < t.toMinutes <= 1439
    && t.key == ClockText(t.fromMinutes) + "-" + ClockText(t.toMinutes)
    && t.timeShort == t.key
    && t.timeText == "с " + ClockText(t.fromMinutes) + " до " + ClockText(t.toMinutes)
  }

  function UnifyChar(c: char): char {
    if c == '–' || c == '—' then '-' else if c == '.' then ':' else c
  }

  /** Replaces en and em dashes by `-` and periods by `:`. */
  function UnifySeparators(s: string): (r: string)
    ensures |r| == |s|
    ensures forall i :: 0 <= i < |s| ==> r[i] == UnifyChar(s[i])
  {
    if s == [] then [] else [UnifyChar(s[0])] + UnifySeparators(s[1..])
  }

  /** The text the time pattern is matched against: trimmed, blanks removed, separators unified. */
  function TimeShape(raw: string): string {
    UnifySeparators(RemoveSpaces(Trim(raw)))
  }

  /** `^(\d{1,2}):(\d{2})$` as (hours, minutes). */
  function MatchClock(s: string): Option<(nat, nat)> {
    if 4 <= |s| <= 5 && s[|s| - 3] == ':' && AllDigits(s[..|s| - 3]) && AllDigits(s[|s| - 2..]) then
      Some((ParseDigits(s[..|s| - 3]), ParseDigits(s[|s| - 2..])))
    else None
  }

  /**
    `^(\d{1,2}):(\d{2})-(\d{1,2}):(\d{2})$` as (h1, min1, h2, min2). Neither
    clock can hold a `-`, so a match cuts the text at its only `-`.
  */
  function MatchRange(s: string): Option<(nat, nat, nat, nat)> {
    var parts := Split(s, '-');
    if |parts| != 2 then None
    else match (MatchClock(parts[0]), MatchClock(parts[1]))
      case (Some((h1, m1)), Some((h2, m2))) => Some((h1, m1, h2, m2))
      case _ => None
  }

  lemma ClockOfHourMinute(f: nat, h: nat, m: nat)
    requires m < 60 && f == h * 60 + m
    ensures ClockText(f) == Pad2(h) + ":" + Pad2(m)
  {
    assert f / 60 == h;
    assert f % 60 == m;
  }

  /** The range object `normalizeTimeRange` builds from checked hours and minutes. */
  function BuildRange(h1: nat, min1: nat, h2: nat, min2: nat): TimeRange {
    var from := Pad2(h1) + ":" + Pad2(min1);
    var to := Pad2(h2) + ":" + Pad2(min2);
    TimeRange(h1 * 60 + min1, h2 * 60 + min2, "с " + from + " до " + to, from + "-" + to, from + "-" + to)
  }

  lemma BuildRangeValid(h1: nat, min1: nat, h2: nat, min2: nat)
    requires h1 <= 23 && h2 <= 23 && min1 <= 59 && min2 <= 59
    requires h1 * 60 + min1 < h2 * 60 + min2
    ensures ValidTimeRange(BuildRange(h1, min1, h2, min2))
  {
    var f, t := h1 * 60 + min1, h2 * 60 + min2;
    assert t <= 1439 by {
      assert h2 * 60 <= 23 * 60;
    }
    var a, b := Pad2(h1) + ":" + Pad2(min1), Pad2(h2) + ":" + Pad2(min2);
    ClockOfHourMinute(f, h1, min1);
    ClockOfHourMinute(t, h2, min2);
    assert BuildRange(h1, min1, h2, min2) == TimeRange(f, t, "с " + a + " до " + b, a + "-" + b, a + "-" + b);
    RangeTextsValid(f, t, a, b);
  }

  /** A range whose texts are built from the clock texts of its bounds is valid. */
  lemma RangeTextsValid(f: nat, t: nat, a: string, b: string)
    requires f < t <= 1439 && ClockText(f) == a && ClockText(t) == b
    ensures ValidTimeRange(TimeRange(f, t, "с " + a + " до " + b, a + "-" + b, a + "-" + b))
  {
  }

  /**
    The pattern and range checks of `normalizeTimeRange` on the rewritten
    text; a failure carries the message that precedes the quoted input.
  */
  function RangeOfShape(s: string): (r: Result<TimeRange>)
    ensures r.Ok? ==> ValidTimeRange(r.value)
  {
    match MatchRange(s)
    case None => Err("Неверный формат времени: ")
    case Some((h1, min1, h2, min2)) =>
      if h1 > 23 || h2 > 23 || min1 > 59 || min2 > 59 then Err("Неверные часы/минуты: ")
      else if h2 * 60 + min2 <= h1 * 60 + min1 then Err("Время окончания раньше начала: ")
      else
        BuildRangeValid(h1, min1, h2, min2);
        Ok(BuildRange(h1, min1, h2, min2))
  }

  /** `normalizeTimeRange(raw)` (lib/generator.js:12-48). */
  function NormalizeTimeRange(raw: string): (r: Result<TimeRange>)
    ensures r.Ok? ==> ValidTimeRange(r.value)
  {
    if raw == "" then Err("Пустое время")
    else match RangeOfShape(TimeShape(raw))
      case Ok(t) => Ok(t)
      case Err(prefix) => Err(prefix + raw)
  }

  /** The range with the given bounds, as `normalizeTimeRange` builds it. */
  function RangeOf(from: nat, to: nat): (t: TimeRange)
    requires from < to <= 1439
    ensures ValidTimeRange(t)
  {
    var a := ClockText(from);
    var b := ClockText(to);
    TimeRange(from, to, "с " + a + " до " + b, a + "-" + b, a + "-" + b)
  }

  /** A valid range is determined by its two minute bounds. */
  lemma ValidRangeDeterminedByMinutes(t: TimeRange)
    requires ValidTimeRange(t)
    ensures t == RangeOf(t.fromMinutes, t.toMinutes)
  {
  }

  lemma ClockTextShape(m: nat)
    requires m < 1440
    ensures |ClockText(m)| == 5 && ClockText(m)[2] == ':'
    ensures AllDigits(ClockText(m)[..2]) && AllDigits(ClockText(m)[3..])
    ensures ParseDigits(ClockText(m)[..2]) == m / 60 && ParseDigits(ClockText(m)[3..]) == m % 60
  {
    var c := ClockText(m);
    Pad2Digits(m / 60);
    Pad2Digits(m % 60);
    assert c[..2] == Pad2(m / 60);
    assert c[3..] == Pad2(m % 60);
  }

  /** A clock text reads back as its hours and minutes. */
  lemma MatchClockText(m: nat)
    requires m < 1440
    ensures '-' !in ClockText(m)
    ensures MatchClock(ClockText(m)) == Some((m / 60, m % 60))
  {
    ClockTextShape(m);
    var c := ClockText(m);
    assert c[..|c| - 3] == c[..2];
    assert c[|c| - 2..] == c[3..];
    assert forall i :: 0 <= i < 5 ==> c[i] == ':' || IsDigit(c[i]) by {
      forall i | 0 <= i < 5 ensures c[i] == ':' || IsDigit(c[i]) {
        if i < 2 { assert c[i] == c[..2][i]; }
        else if i > 2 { assert c[i] == c[3..][i - 3]; }
      }
    }
  }

  /** Clock texts are different for different minute counts within a day. */
  lemma ClockTextInjective(a: nat, b: nat)
    requires a < 1440 && b < 1440 && ClockText(a) == ClockText(b)
    ensures a == b
  {
    MatchClockText(a);
    MatchClockText(b);
  }

  /** Two valid ranges have the same key exactly when they have the same bounds. */
  lemma KeyIffSameMinutes(s: TimeRange, t: TimeRange)
    requires ValidTimeRange(s) && ValidTimeRange(t)
    ensures s.key == t.key <==> (s.fromMinutes == t.fromMinutes && s.toMinutes == t.toMinutes)
    ensures s.key == t.key <==> s == t
  {
    if s.key == t.key {
      MatchClockText(s.fromMinutes);
      MatchClockText(s.toMinutes);
      MatchClockText(t.fromMinutes);
      MatchClockText(t.toMinutes);
      SplitTwo(ClockText(s.fromMinutes), ClockText(s.toMinutes), '-');
      SplitTwo(ClockText(t.fromMinutes), ClockText(t.toMinutes), '-');
      assert ClockText(s.fromMinutes) + "-" + ClockText(s.toMinutes) == ClockText(s.fromMinutes) + ['-'] + ClockText(s.toMinutes);
      assert ClockText(t.fromMinutes) + "-" + ClockText(t.toMinutes) == ClockText(t.fromMinutes) + ['-'] + ClockText(t.toMinutes);
      ClockTextInjective(s.fromMinutes, t.fromMinutes);
      ClockTextInjective(s.toMinutes, t.toMinutes);
    }
  }

  lemma {:induction false} RemoveSpacesOfSpaceless(s: string)
    requires forall i :: 0 <= i < |s| ==> !IsSpace(s[i])
    ensures RemoveSpaces(s) == s
  {
    if s != [] {
      RemoveSpacesOfSpaceless(s[1..]);
      assert [s[0]] + s[1..] == s;
    }
  }

  lemma {:induction false} UnifySeparatorsOfPlain(s: string)
    requires forall i :: 0 <= i < |s| ==> s[i] !in {'–', '—', '.'}
    ensures UnifySeparators(s) == s
  {
    if s != [] {
      UnifySeparatorsOfPlain(s[1..]);
      assert [s[0]] + s[1..] == s;
    }
  }

  predicate IsClockChar(c: char) {
    c == '-' || c == ':' || IsDigit(c)
  }

  lemma KeyChars(from: nat, to: nat)
    requires from < to <= 1439
    ensures var k := RangeOf(from, to).key;
      forall i :: 0 <= i < |k| ==> IsClockChar(k[i])
  {
    var a, b := ClockText(from), ClockText(to);
    var k := a + "-" + b;
    ClockTextShape(from);
    ClockTextShape(to);
    forall i | 0 <= i < |k| ensures IsClockChar(k[i]) {
      if i < 2 { assert k[i] == a[..2][i]; }
      else if 2 < i < 5 { assert k[i] == a[3..][i - 3]; }
      else if 6 <= i < 8 { assert k[i] == b[..2][i - 6]; }
      else if 8 < i { assert k[i] == b[3..][i - 9]; }
    }
  }

  /** Text made of digits, `:` and `-` has no blanks to remove and no separators to rewrite. */
  lemma {:induction false} ClockCharsUnchanged(s: string)
    requires forall i :: 0 <= i < |s| ==> IsClockChar(s[i])
    ensures RemoveSpaces(s) == s && UnifySeparators(s) == s
  {
    if s != [] {
      ClockCharsUnchanged(s[1..]);
      assert [s[0]] + s[1..] == s;
    }
  }

  /** A key is already in the shape the pattern is matched against. */
  lemma KeyIsShaped(from: nat, to: nat)
    requires from < to <= 1439
    ensures TimeShape(RangeOf(from, to).key) == RangeOf(from, to).key
  {
    var k := RangeOf(from, to).key;
    KeyChars(from, to);
    assert IsClockChar(k[0]) && IsClockChar(k[|k| - 1]);
    TrimOfUnpadded(k);
    ClockCharsUnchanged(k);
  }

  lemma KeyMatches(from: nat, to: nat)
    requires from < to <= 1439
    ensures MatchRange(RangeOf(from, to).key) == Some((from / 60, from % 60, to / 60, to % 60))
  {
    var a, b := ClockText(from), ClockText(to);
    MatchClockText(from);
    MatchClockText(to);
    SplitTwo(a, b, '-');
    assert a + "-" + b == a + ['-'] + b;
  }

  lemma BuildRangeOfMinutes(from: nat, to: nat)
    requires from < to <= 1439
    ensures BuildRange(from / 60, from % 60, to / 60, to % 60) == RangeOf(from, to)
  {
    assert (from / 60) * 60 + from % 60 == from;
    assert (to / 60) * 60 + to % 60 == to;
  }

  /**
    Round trip: the key of any range of the day (`HH:MM-HH:MM`) normalises
    back to exactly that range; every valid range is reachable.
  */
  lemma NormalizeKey(from: nat, to: nat)
    requires from < to <= 1439
    ensures NormalizeTimeRange(RangeOf(from, to).key) == Ok(RangeOf(from, to))
  {
    var k := RangeOf(from, to).key;
    KeyIsShaped(from, to);
    KeyMatches(from, to);
    ShapeOfMinutes(k, from, to);
  }

  /** Text that matches as the clock readings of `from` and `to` builds their range. */
  lemma ShapeOfMinutes(s: string, from: nat, to: nat)
    requires from < to <= 1439
    requires MatchRange(s) == Some((from / 60, from % 60, to / 60, to % 60))
    ensures RangeOfShape(s) == Ok(RangeOf(from, to))
  {
    MinuteParts(from);
    MinuteParts(to);
    BuildRangeOfMinutes(from, to);
  }

  lemma MinuteParts(m: nat)
    requires m <= 1439
    ensures m / 60 <= 23 && m % 60 <= 59 && (m / 60) * 60 + m % 60 == m
  {
  }

  /** Blank text, a broken shape, an out-of-range clock and an empty or reversed range all fail. */
  lemma NormalizeTimeRangeErrors(raw: string)
    ensures raw == "" ==> NormalizeTimeRange(raw) == Err("Пустое время")
    ensures raw != "" && MatchRange(TimeShape(raw)).None? ==>
      NormalizeTimeRange(raw) == Err("Неверный формат времени: " + raw)
    ensures raw != "" && MatchRange(TimeShape(raw)).Some? ==>
      var (h1, m1, h2, m2) := MatchRange(TimeShape(raw)).value;
      (h1 > 23 || h2 > 23 || m1 > 59 || m2 > 59 ==> NormalizeTimeRange(raw) == Err("Неверные часы/минуты: " + raw)) &&
      (h1 <= 23 && h2 <= 23 && m1 <= 59 && m2 <= 59 && h2 * 60 + m2 <= h1 * 60 + m1 ==>
        NormalizeTimeRange(raw) == Err("Время окончания раньше начала: " + raw))
  {
  }

  /**
    Inputs that differ only in white space, dash style or `.` versus `:`
    normalise identically (error messages quote the raw input).
  */
  lemma NormalizeSameShape(a: string, b: string)
    requires a != "" && b != "" && TimeShape(a) == TimeShape(b)
    ensures NormalizeTimeRange(a).Ok? == NormalizeTimeRange(b).Ok?
    ensures NormalizeTimeRange(a).Ok? ==> NormalizeTimeRange(a) == NormalizeTimeRange(b)
  {
  }

  /** A clock text written with `.` instead of `:`. */
  function DotSeparated(s: string): (r: string)
    ensures |r| == |s|
    ensures forall i :: 0 <= i < |s| ==> r[i] == (if s[i] == ':' then '.' else s[i])
  {
    if s == [] then [] else [if s[0] == ':' then '.' else s[0]] + DotSeparated(s[1..])
  }

  /** Digits, `-` and `.`-for-`:` text has no blanks and unifies back to the `:` spelling. */
  lemma {:induction false} DottedCharsShape(s: string)
    requires forall i :: 0 <= i < |s| ==> IsClockChar(s[i])
    ensures RemoveSpaces(DotSeparated(s)) == DotSeparated(s)
    ensures UnifySeparators(DotSeparated(s)) == s
  {
    if s != [] {
      DottedCharsShape(s[1..]);
      assert [s[0]] + s[1..] == s;
    }
  }

  /** A key written with periods (`18.30-19.30`) normalises to the same range as the key itself. */
  lemma DottedKeyNormalizes(from: nat, to: nat)
    requires from < to <= 1439
    ensures NormalizeTimeRange(DotSeparated(RangeOf(from, to).key)) == Ok(RangeOf(from, to))
  {
    var k := RangeOf(from, to).key;
    var d := DotSeparated(k);
    DottedKeyShape(from, to);
    NormalizeKey(from, to);
    KeyIsShaped(from, to);
    NormalizeSameShape(d, k);
  }

  lemma DottedKeyShape(from: nat, to: nat)
    requires from < to <= 1439
    ensures var k := RangeOf(from, to).key;
      DotSeparated(k) != "" && TimeShape(DotSeparated(k)) == k
  {
    var k := RangeOf(from, to).key;
    var d := DotSeparated(k);
    KeyChars(from, to);
    ClockCharNotSpace(d[0]);
    ClockCharNotSpace(d[|d| - 1]);
    TrimOfUnpadded(d);
    DottedCharsShape(k);
  }

  lemma ClockCharNotSpace(c: char)
    requires IsClockChar(c) || c == '.'
    ensures !IsSpace(c)
  {
  }

  lemma HalfPastClocks(from: nat, to: nat)
    requires from == 1110 && to == 1170
    ensures ClockText(from) == "18:30" && ClockText(to) == "19:30"
  {
    assert NatToString(18) == "18" && NatToString(30) == "30" && NatToString(19) == "19";
  }

  /** The wording of half past six to half past seven. */
  lemma HalfPastWording(from: nat, to: nat)
    requires from == 1110 && to == 1170
    ensures RangeOf(from, to).key == "18:30-19:30"
    ensures RangeOf(from, to).timeText == "с 18:30 до 19:30"
  {
    HalfPastClocks(from, to);
    var a, b := ClockText(from), ClockText(to);
    assert RangeOf(from, to).timeText == "с " + a + " до " + b;
    assert RangeOf(from, to).key == a + "-" + b;
    HalfPastTexts(a, b);
  }

  lemma HalfPastTexts(a: string, b: string)
    requires a == "18:30" && b == "19:30"
    ensures a + "-" + b == "18:30-19:30" && "с " + a + " до " + b == "с 18:30 до 19:30"
  {
  }

  lemma DotExample(key: string)
    requires key == "18:30-19:30"
    ensures DotSeparated(key) == "18.30-19.30"
  {
    var d := DotSeparated(key);
    assert d[2] == '.' && d[8] == '.';
    assert d == "18.30-19.30";
  }

  /** Half past six to half past seven can be typed with periods. */
  lemma DottedTimeExample(dotted: string)
    requires dotted == "18.30-19.30"
    ensures NormalizeTimeRange(dotted) == Ok(RangeOf(1110, 1170))
  {
    HalfPastClocks(1110, 1170);
    var key := RangeOf(1110, 1170).key;
    assert key == ClockText(1110) + "-" + ClockText(1170);
    assert key == "18:30-19:30";
    DotExample(key);
    DottedKeyNormalizes(1110, 1170);
  }

  // ===========================================================================
  // Calendar dates

  /** The `{ y, m, d, ts }` object of a parsed date. */
  datatype Date = Date(y: int, m: int, d: int, ts: int)

  predicate IsLeapYear(y: int) {
    (y % 4 == 0 && y % 100 != 0) || y % 400 == 0
  }

  function DaysInMonth(y: int, m: int): (n: nat)
    requires 1 <= m <= 12
    ensures 28 <= n <= 31
  {
    if m == 2 then (if IsLeapYear(y) then 29 else 28)
    else if m in {4, 6, 9, 11} then 30
    else 31
  }

  /** Days of the year before the first of month `m`. */
  function DaysBeforeMonth(y: int, m: int): nat
    requires 1 <= m <= 12
  {
    var table := [0, 31, 59, 90, 120, 151, 181, 212, 243, 273, 304, 334];
    table[m - 1] + (if m > 2 && IsLeapYear(y) then 1 else 0)
  }

  /** Days from 0001-01-01 to the first of January of year `y`. */
  function DaysBeforeYear(y: int): int {
    365 * (y - 1) + (y - 1) / 4 - (y - 1) / 100 + (y - 1) / 400
  }

  /** Days from 1970-01-01 (UTC) to the given calendar day. */
  function DayOrdinal(y: int, m: int, d: int): int
    requires 1 <= m <= 12
  {
    DaysBeforeYear(y) - 719162 + DaysBeforeMonth(y, m) + d - 1
  }

  /** A date `parseRuDate` can return: a real day of a year from 100 to 9999. */
  predicate ValidDate(dt: Date) {
    && 100 <= dt.y <= 9999
    && 1 <= dt.m <= 12
    && 1 <= dt.d <= DaysInMonth(dt.y, dt.m)
    && dt.ts == DayOrdinal(dt.y, dt.m, dt.d) * DayMs
  }

  /** `^(\d{1,2})\.(\d{1,2})\.(\d{4})$` as (day, month, year). */
  function MatchRuDate(s: string): Option<(nat, nat, nat)> {
    var parts := Split(s, '.');
    if |parts| == 3
      && 1 <= |parts[0]| <= 2 && AllDigits(parts[0])
      && 1 <= |parts[1]| <= 2 && AllDigits(parts[1])
      && |parts[2]| == 4 && AllDigits(parts[2])
    then Some((ParseDigits(parts[0]), ParseDigits(parts[1]), ParseDigits(parts[2])))
    else None
  }

  /** `Date.UTC` reads a year from 0 to 99 as 1900 plus that year. */
  function UtcYear(y: int): int {
    if 0 <= y <= 99 then 1900 + y else y
  }

  /**
    The UTC year, month and day of `new Date(Date.UTC(y, m - 1, d))` for a
    month 1..12 and a day 1..31: a day past the month's end rolls into the
    next month (December has 31 days, so the year never changes).
  */
  function UtcFields(y: int, m: int, d: int): (int, int, int)
    requires 1 <= m <= 12 && 1 <= d <= 31
  {
    var y' := UtcYear(y);
    if d <= DaysInMonth(y', m) then (y', m, d) else (y', m + 1, d - DaysInMonth(y', m))
  }

  /**
    The range and calendar checks of `parseRuDate` on the matched numbers; a
    failure carries the message that precedes the quoted input.
  */
  function DateOfNumbers(d: nat, mo: nat, y: nat): (r: Result<Date>)
    requires y < 10000
    ensures r.Ok? ==> ValidDate(r.value)
  {
    if mo < 1 || mo > 12 || d < 1 || d > 31 then Err("Неверная дата: ")
    else if UtcFields(y, mo, d) != (y, mo, d) then Err("Несуществующая дата: ")
    else Ok(Date(y, mo, d, DayOrdinal(UtcYear(y), mo, d) * DayMs))
  }

  lemma MatchRuDateYear(s: string)
    requires MatchRuDate(s).Some?
    ensures MatchRuDate(s).value.2 < 10000
  {
    ParseDigitsBound(Split(s, '.')[2]);
    assert Pow10(4) == 10000;
  }

  /** `parseRuDate(raw)` (lib/generator.js:50-67). */
  function ParseRuDate(raw: string): (r: Result<Date>)
    ensures r.Ok? ==> ValidDate(r.value)
  {
    if raw == "" then Err("Пустая дата")
    else match MatchRuDate(Trim(raw))
      case None => Err("Неверный формат даты: " + raw)
      case Some((d, mo, y)) =>
        MatchRuDateYear(Trim(raw));
        match DateOfNumbers(d, mo, y)
        case Ok(dt) => Ok(dt)
        case Err(prefix) => Err(prefix + raw)
  }

  /**
    `parseRuDate` accepts exactly the D.M.YYYY texts naming a real day of a
    year from 100 to 9999, and returns that day's numbers.
  */
  lemma ParseRuDateIff(raw: string)
    ensures ParseRuDate(raw).Ok? <==>
      raw != "" && MatchRuDate(Trim(raw)).Some? &&
      var (d, mo, y) := MatchRuDate(Trim(raw)).value;
      100 <= y && 1 <= mo <= 12 && 1 <= d <= DaysInMonth(y, mo)
    ensures ParseRuDate(raw).Ok? ==>
      var (d, mo, y) := MatchRuDate(Trim(raw)).value;
      ParseRuDate(raw).value == Date(y, mo, d, DayOrdinal(y, mo, d) * DayMs)
  {
    if raw != "" && MatchRuDate(Trim(raw)).Some? {
      MatchRuDateYear(Trim(raw));
    }
  }

  /** Day, month and year printed as D.M.YYYY. */
  function RuDateText(d: nat, m: nat, y: nat): string
    requires 1000 <= y <= 9999
  {
    NatToString(d) + "." + NatToString(m) + "." + NatToString(y)
  }

  lemma {:induction false} NatToStringWidth(n: nat)
    ensures n < 10 ==> |NatToString(n)| == 1
    ensures 10 <= n < 100 ==> |NatToString(n)| == 2
    ensures 100 <= n < 1000 ==> |NatToString(n)| == 3
    ensures 1000 <= n < 10000 ==> |NatToString(n)| == 4
  {
    NatToStringDigits(n);
    if n >= 10 {
      NatToStringWidth(n / 10);
    }
  }

  /** Round trip: every real day of the years 1000..9999, written D.M.YYYY, parses back to itself. */
  lemma ParsePrintedDate(d: nat, m: nat, y: nat)
    requires 1000 <= y <= 9999 && 1 <= m <= 12 && 1 <= d <= DaysInMonth(y, m)
    ensures ParseRuDate(RuDateText(d, m, y)) == Ok(Date(y, m, d, DayOrdinal(y, m, d) * DayMs))
  {
    var a, b, c := NatToString(d), NatToString(m), NatToString(y);
    NatToStringWidth(d);
    NatToStringWidth(m);
    NatToStringWidth(y);
    ParsePrinted(d);
    ParsePrinted(m);
    ParsePrinted(y);
    ParseDigitFields(a, b, c);
    assert DateOfNumbers(d, m, y) == Ok(Date(y, m, d, DayOrdinal(y, m, d) * DayMs));
  }

  /** Digit text holds no `.` and neither starts nor ends with white space. */
  lemma DigitsPlain(a: string)
    requires a != [] && AllDigits(a)
    ensures '.' !in a && !IsSpace(a[0]) && !IsSpace(a[|a| - 1])
  {
    assert forall i :: 0 <= i < |a| ==> IsDigit(a[i]);
  }

  /** A clean D.M.YYYY text matches with the numbers its three fields spell. */
  lemma MatchDigitFields(a: string, b: string, c: string)
    requires 1 <= |a| <= 2 && 1 <= |b| <= 2 && |c| == 4
    requires AllDigits(a) && AllDigits(b) && AllDigits(c)
    ensures var s := a + "." + b + "." + c;
      MatchRuDate(Trim(s)) == Some((ParseDigits(a), ParseDigits(b), ParseDigits(c)))
  {
    var s := a + "." + b + "." + c;
    DigitsPlain(a);
    DigitsPlain(b);
    DigitsPlain(c);
    assert s == a + ['.'] + b + ['.'] + c;
    SplitThree(a, b, c, '.');
    assert s[0] == a[0] && s[|s| - 1] == c[3];
    TrimOfUnpadded(s);
  }

  /** A clean D.M.YYYY text parses exactly as its three numbers are checked. */
  lemma ParseDigitFields(a: string, b: string, c: string)
    requires 1 <= |a| <= 2 && 1 <= |b| <= 2 && |c| == 4
    requires AllDigits(a) && AllDigits(b) && AllDigits(c)
    ensures ParseDigits(c) < 10000
    ensures var s := a + "." + b + "." + c;
      ParseRuDate(s) ==
        match DateOfNumbers(ParseDigits(a), ParseDigits(b), ParseDigits(c))
        case Ok(dt) => Ok(dt)
        case Err(prefix) => Err(prefix + s)
  {
    MatchDigitFields(a, b, c);
    ParseDigitsBound(c);
    assert Pow10(4) == 10000;
  }

  lemma ParseTwoDigits(s: string)
    requires |s| == 2 && AllDigits(s)
    ensures ParseDigits(s) == 10 * DigitValue(s[0]) + DigitValue(s[1])
  {
    var head := s[..1];
    assert head[..0] == [] && head[0] == s[0];
    assert ParseDigits(head) == DigitValue(s[0]);
  }

  lemma ParseFourDigits(s: string)
    requires |s| == 4 && AllDigits(s)
    ensures ParseDigits(s) == 1000 * DigitValue(s[0]) + 100 * DigitValue(s[1]) + 10 * DigitValue(s[2]) + DigitValue(s[3])
  {
    ParseTwoDigits(s[..2]);
    assert s[..3][..2] == s[..2];
  }

  /** The calendar checks on a few day, month and year triples. */
  lemma CalendarCheckExamples()
    ensures DateOfNumbers(29, 2, 2024).Ok?
    ensures DateOfNumbers(29, 2, 2023) == Err("Несуществующая дата: ")
    ensures DateOfNumbers(31, 4, 2025) == Err("Несуществующая дата: ")
    ensures DateOfNumbers(1, 13, 2025) == Err("Неверная дата: ")
    ensures DateOfNumbers(1, 1, 50) == Err("Несуществующая дата: ")
  {
  }

  /** 29.02.2024 exists: 2024 is a leap year. */
  lemma LeapDayExample(a: string, b: string, c: string)
    requires a == "29" && b == "02" && c == "2024"
    ensures ParseRuDate(a + "." + b + "." + c).Ok?
  {
    ParseTwoDigits(a);
    ParseTwoDigits(b);
    ParseFourDigits(c);
    assert ParseDigits(a) == 29 && ParseDigits(b) == 2 && ParseDigits(c) == 2024;
    CalendarCheckExamples();
    ParseDigitFields(a, b, c);
  }

  /** 29.02.2023 does not exist. */
  lemma NoLeapDayExample(a: string, b: string, c: string)
    requires a == "29" && b == "02" && c == "2023"
    ensures var s := a + "." + b + "." + c; ParseRuDate(s) == Err("Несуществующая дата: " + s)
  {
    ParseTwoDigits(a);
    ParseTwoDigits(b);
    ParseFourDigits(c);
    assert ParseDigits(a) == 29 && ParseDigits(b) == 2 && ParseDigits(c) == 2023;
    CalendarCheckExamples();
    ParseDigitFields(a, b, c);
  }

  /** 31.04.2025 does not exist (it is not rolled over into 1 May). */
  lemma ShortMonthExample(a: string, b: string, c: string)
    requires a == "31" && b == "04" && c == "2025"
    ensures var s := a + "." + b + "." + c; ParseRuDate(s) == Err("Несуществующая дата: " + s)
  {
    ParseTwoDigits(a);
    ParseTwoDigits(b);
    ParseFourDigits(c);
    ParseDigitFields(a, b, c);
    CalendarCheckExamples();
  }

  /** 01.13.2025: a month number past 12 is rejected before any calendar check. */
  lemma BadMonthExample(a: string, b: string, c: string)
    requires a == "01" && b == "13" && c == "2025"
    ensures var s := a + "." + b + "." + c; ParseRuDate(s) == Err("Неверная дата: " + s)
  {
    ParseTwoDigits(a);
    ParseTwoDigits(b);
    ParseFourDigits(c);
    ParseDigitFields(a, b, c);
    CalendarCheckExamples();
  }

  /** 01.01.0050: `Date.UTC` moves year 50 to 1950, so a well-formed date of that year is rejected. */
  lemma EarlyYearExample(a: string, c: string)
    requires a == "01" && c == "0050"
    ensures var s := a + "." + a + "." + c; ParseRuDate(s) == Err("Несуществующая дата: " + s)
  {
    ParseTwoDigits(a);
    ParseFourDigits(c);
    ParseDigitFields(a, a, c);
    CalendarCheckExamples();
  }

  // ---------------------------------------------------------------------------
  // Ordering of day ordinals

  lemma YearLength(y: int)
    ensures DaysBeforeYear(y + 1) == DaysBeforeYear(y) + (if IsLeapYear(y) then 366 else 365)
  {
    assert DaysBeforeYear(y + 1) == 365 * y + y / 4 - y / 100 + y / 400;
    DivStep(y, 4);
    DivStep(y, 100);
    DivStep(y, 400);
  }

  /** Stepping onto a multiple of 4, 100 or 400 adds one to the quotient. */
  lemma DivStep(y: int, k: int)
    requires k == 4 || k == 100 || k == 400
    ensures y / k == (y - 1) / k + (if y % k == 0 then 1 else 0)
  {
    if k == 4 {
    } else if k == 100 {
    } else {
    }
  }

  lemma {:induction false} YearsAscend(a: int, b: int)
    requires a < b
    ensures DaysBeforeYear(a) + (if IsLeapYear(a) then 366 else 365) <= DaysBeforeYear(b)
    decreases b - a
  {
    YearLength(a);
    if a + 1 < b {
      YearsAscend(a + 1, b);
    }
  }

  lemma MonthsAscend(y: int, m1: int, m2: int)
    requires 1 <= m1 < m2 <= 12
    ensures DaysBeforeMonth(y, m1) + DaysInMonth(y, m1) <= DaysBeforeMonth(y, m2)
  {
  }

  lemma WithinYear(y: int, m: int, d: int)
    requires 1 <= m <= 12 && 1 <= d <= DaysInMonth(y, m)
    ensures 0 <= DayOrdinal(y, m, d) - (DaysBeforeYear(y) - 719162) < (if IsLeapYear(y) then 366 else 365)
  {
  }

  /** Calendar order on (year, month, day). */
  predicate CalendarBefore(a: Date, b: Date) {
    a.y < b.y || (a.y == b.y && (a.m < b.m || (a.m == b.m && a.d < b.d)))
  }

  /** `ts` is strictly increasing in calendar order. */
  lemma TsMonotone(a: Date, b: Date)
    requires ValidDate(a) && ValidDate(b) && CalendarBefore(a, b)
    ensures a.ts < b.ts
  {
    WithinYear(a.y, a.m, a.d);
    WithinYear(b.y, b.m, b.d);
    if a.y < b.y {
      YearsAscend(a.y, b.y);
    } else if a.m < b.m {
      MonthsAscend(a.y, a.m, b.m);
    }
    assert DayOrdinal(a.y, a.m, a.d) < DayOrdinal(b.y, b.m, b.d);
  }

  /** Two valid dates with the same `ts` are the same date. */
  lemma TsInjective(a: Date, b: Date)
    requires ValidDate(a) && ValidDate(b) && a.ts == b.ts
    ensures a == b
  {
    if CalendarBefore(a, b) {
      TsMonotone(a, b);
    } else if CalendarBefore(b, a) {
      TsMonotone(b, a);
    }
  }

  // ---------------------------------------------------------------------------
  // The next calendar day

  /** The calendar day after (y, m, d), as (year, month, day). */
  function NextDay(y: int, m: int, d: int): (int, int, int)
    requires 1 <= m <= 12 && 1 <= d <= DaysInMonth(y, m)
  {
    if d < DaysInMonth(y, m) then (y, m, d + 1)
    else if m < 12 then (y, m + 1, 1)
    else (y + 1, 1, 1)
  }

  lemma MonthEnd(y: int, m: int)
    requires 1 <= m < 12
    ensures DaysBeforeMonth(y, m + 1) == DaysBeforeMonth(y, m) + DaysInMonth(y, m)
  {
  }

  /** The next calendar day is one day ordinal later. */
  lemma NextDayOrdinal(y: int, m: int, d: int)
    requires 1 <= m <= 12 && 1 <= d <= DaysInMonth(y, m)
    ensures var (y', m', d') := NextDay(y, m, d);
      1 <= m' <= 12 && DayOrdinal(y', m', d') == DayOrdinal(y, m, d) + 1
  {
    if d == DaysInMonth(y, m) {
      if m < 12 {
        MonthEnd(y, m);
      } else {
        YearLength(y);
      }
    }
  }

  /**
    Two valid dates are one day (86 400 000 ms) apart exactly when the second
    is the calendar day after the first.
  */
  lemma OneDayApartIffNext(a: Date, b: Date)
    requires ValidDate(a) && ValidDate(b)
    ensures b.ts - a.ts == DayMs <==> (b.y, b.m, b.d) == NextDay(a.y, a.m, a.d)
  {
    var (y', m', d') := NextDay(a.y, a.m, a.d);
    NextDayOrdinal(a.y, a.m, a.d);
    var c := Date(y', m', d', DayOrdinal(y', m', d') * DayMs);
    assert c.ts == a.ts + DayMs;
    if b.ts - a.ts == DayMs {
      if y' <= 9999 {
        TsInjective(b, c);
      } else if CalendarBefore(b, a) {
        TsMonotone(b, a);
      }
    }
  }
}
