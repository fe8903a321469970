/**
  Human-readable date phrases of the generator: "5 мая", "5, 6 и 7 мая",
  "Завтра и послезавтра", "Ближайшие 3 дня" (lib/generator.js:69-132).
*/
module Phrases {
  import opened Text
  import opened Calendar

  /** Month names in the genitive case, January first. */
  const MonthsGen: seq<string> := [
    "января", "февраля", "марта", "апреля", "мая", "июня",
    "июля", "августа", "сентября", "октября", "ноября", "декабря"
  ]

  /** Every date of the list is one `parseRuDate` can return. */
  predicate ValidDates(dates: seq<Date>)
    ensures ValidDates(dates) ==> MonthsValid(dates)
    ensures ValidDates(dates) ==> forall i :: 0 <= i < |dates| ==> dates[i].d >= 1
  {
    forall i :: 0 <= i < |dates| ==> ValidDate(dates[i])
  }

  /** Every date of the list has a month number 1..12. */
  predicate MonthsValid(dates: seq<Date>) {
    forall i :: 0 <= i < |dates| ==> 1 <= dates[i].m <= 12
  }

  function MonthWord(m: int): string
    requires 1 <= m <= 12
  {
    MonthsGen[m - 1]
  }

  /** No month name holds a blank or a comma, and different months have different names. */
  lemma MonthWordsPlain(m: int)
    requires 1 <= m <= 12
    ensures ' ' !in MonthWord(m) && ',' !in MonthWord(m) && |MonthWord(m)| >= 3
    ensures forall k :: 1 <= k <= 12 && MonthWord(k) == MonthWord(m) ==> k == m
  {
  }

  // ---------------------------------------------------------------------------
  // formatDateHuman / formatDateListHuman

  /** `formatDateHuman(d)`: the day number and the month name, e.g. "5 мая". */
  function FormatDateHuman(dt: Date): (r: string)
    requires 1 <= dt.m <= 12
  {
    NatToStringOfInt(dt.d) + " " + MonthWord(dt.m)
  }

  /** `String(n)` for the day number of a date (days of parsed dates are positive). */
  function NatToStringOfInt(n: int): string {
    if n >= 0 then NatToString(n) else "-" + NatToString(-n)
  }

  /** The words of a human date hold no blank and no comma. */
  lemma DayWordPlain(n: int)
    requires n >= 0
    ensures ' ' !in NatToStringOfInt(n) && ',' !in NatToStringOfInt(n)
    ensures NatToStringOfInt(n) != ""
  {
    NatToStringDigits(n);
    assert forall i :: 0 <= i < |NatToString(n)| ==> IsDigit(NatToString(n)[i]);
  }

  /** The day and the month can be read back from "D month": different days give different text. */
  lemma FormatDateHumanInjective(a: Date, b: Date)
    requires 1 <= a.m <= 12 && 1 <= b.m <= 12 && a.d >= 0 && b.d >= 0
    requires FormatDateHuman(a) == FormatDateHuman(b)
    ensures a.d == b.d && a.m == b.m
  {
    DayWordPlain(a.d);
    DayWordPlain(b.d);
    MonthWordsPlain(a.m);
    MonthWordsPlain(b.m);
    var x, y := NatToString(a.d), MonthWord(a.m);
    var x', y' := NatToString(b.d), MonthWord(b.m);
    assert FormatDateHuman(a) == x + [' '] + y;
    assert FormatDateHuman(b) == x' + [' '] + y';
    SplitTwo(x, y, ' ');
    SplitTwo(x', y', ' ');
    NatToStringInjective(a.d, b.d);
  }

  /** All dates fall in the first date's month of the first date's year. */
  predicate SameMonth(dates: seq<Date>)
    requires |dates| >= 1
  {
    forall i :: 0 <= i < |dates| ==> dates[i].m == dates[0].m && dates[i].y == dates[0].y
  }

  /** `dates.map(formatDateHuman)` */
  function HumanDates(dates: seq<Date>): (r: seq<string>)
    requires MonthsValid(dates)
    ensures |r| == |dates|
  {
    seq(|dates|, i requires 0 <= i < |dates| && MonthsValid(dates) => FormatDateHuman(dates[i]))
  }

  /** `dates.map(x => x.d)`, each printed as in a template string. */
  function DayNumbers(dates: seq<Date>): (r: seq<string>)
    ensures |r| == |dates|
  {
    seq(|dates|, i requires 0 <= i < |dates| => NatToStringOfInt(dates[i].d))
  }

  /** `formatDateListHuman(dates)` (lib/generator.js:73-89). */
  function FormatDateListHuman(dates: seq<Date>): string
    requires MonthsValid(dates)
  {
    if |dates| == 0 then ""
    else if |dates| == 1 then FormatDateHuman(dates[0])
    else if !SameMonth(dates) then
      if |dates| == 2 then FormatDateHuman(dates[0]) + " и " + FormatDateHuman(dates[1])
      else
        var parts := HumanDates(dates);
        Join(parts[..|parts| - 1], ", ") + " и " + parts[|parts| - 1]
    else
      var monthWord := MonthWord(dates[0].m);
      var days := DayNumbers(dates);
      if |days| == 2 then days[0] + " и " + days[1] + " " + monthWord
      else Join(days[..|days| - 1], ", ") + " и " + days[|days| - 1] + " " + monthWord
  }

  /** Russian enumeration: "a", "a и b", "a, b и c", ... */
  function Enumeration(items: seq<string>): string
    requires |items| >= 1
  {
    if |items| == 1 then items[0]
    else Join(items[..|items| - 1], ", ") + " и " + items[|items| - 1]
  }

  /**
    Reference reading of `formatDateListHuman`: one rule for every length —
    the enumeration of the day numbers followed by the shared month name when
    all dates share a month, otherwise the enumeration of full dates. The
    source's special cases for one and two dates agree with it.
  */
  lemma FormatDateListIsEnumeration(dates: seq<Date>)
    requires MonthsValid(dates) && |dates| >= 1
    ensures SameMonth(dates) ==>
      FormatDateListHuman(dates) == Enumeration(DayNumbers(dates)) + " " + MonthWord(dates[0].m)
    ensures !SameMonth(dates) ==> FormatDateListHuman(dates) == Enumeration(HumanDates(dates))
  {
    var days := DayNumbers(dates);
    var parts := HumanDates(dates);
    if |dates| == 2 {
      assert days[..1] == [days[0]];
      assert parts[..1] == [parts[0]];
    }
  }

  /** An enumeration starts with its first item. */
  lemma EnumerationStart(items: seq<string>)
    requires |items| >= 1 && items[0] != []
    ensures Enumeration(items) != [] && Enumeration(items)[0] == items[0][0]
  {
    if |items| > 1 {
      var front := items[..|items| - 1];
      assert front[0] == items[0];
      var j := Join(front, ", ");
      assert j != [] && j[0] == items[0][0] by {
        if |front| > 1 {
          assert j == front[0] + ", " + Join(front[1..], ", ");
        }
      }
    }
  }

  /** A list of dates with day numbers starts with the first date's day number, hence with a digit. */
  lemma DateListStartsWithDigit(dates: seq<Date>)
    requires MonthsValid(dates) && |dates| >= 1
    requires forall i :: 0 <= i < |dates| ==> dates[i].d >= 0
    ensures FormatDateListHuman(dates) != [] && IsDigit(FormatDateListHuman(dates)[0])
  {
    FormatDateListIsEnumeration(dates);
    NatToStringDigits(dates[0].d);
    var first := NatToString(dates[0].d);
    if SameMonth(dates) {
      var days := DayNumbers(dates);
      assert days[0] == first;
      EnumerationStart(days);
    } else {
      var parts := HumanDates(dates);
      assert parts[0] == FormatDateHuman(dates[0]) == first + " " + MonthWord(dates[0].m);
      EnumerationStart(parts);
    }
  }

  /** Items without commas, joined by ", ", hold one comma per gap. */
  lemma {:induction false} JoinCommas(items: seq<string>)
    requires forall k :: 0 <= k < |items| ==> ',' !in items[k]
    ensures |items| >= 1 ==> Count(Join(items, ", "), ',') == |items| - 1
  {
    if |items| == 1 {
      CountZero(items[0], ',');
    } else if |items| > 1 {
      JoinCommas(items[1..]);
      CountZero(items[0], ',');
      CountConcat(items[0], ", ", ',');
      CountConcat(items[0] + ", ", Join(items[1..], ", "), ',');
    }
  }

  lemma EnumerationCommas(items: seq<string>)
    requires |items| >= 1
    requires forall k :: 0 <= k < |items| ==> ',' !in items[k]
    ensures Count(Enumeration(items), ',') == |items| - (if |items| == 1 then 1 else 2)
  {
    if |items| > 1 {
      var init := items[..|items| - 1];
      JoinCommas(init);
      CountZero(" и ", ',');
      CountZero(items[|items| - 1], ',');
      CountConcat(Join(init, ", "), " и ", ',');
      CountConcat(Join(init, ", ") + " и ", items[|items| - 1], ',');
    } else {
      CountZero(items[0], ',');
    }
  }

  /**
    Every date is listed: a list of n >= 2 dates is written with exactly
    n - 2 commas (all but the last two items end in ", ").
  */
  lemma FormatDateListCommas(dates: seq<Date>)
    requires MonthsValid(dates) && |dates| >= 2
    requires forall i :: 0 <= i < |dates| ==> dates[i].d >= 0
    ensures Count(FormatDateListHuman(dates), ',') == |dates| - 2
  {
    FormatDateListIsEnumeration(dates);
    ItemsWithoutCommas(dates);
    if SameMonth(dates) {
      var days := DayNumbers(dates);
      MonthWordsPlain(dates[0].m);
      EnumerationCommas(days);
      SuffixCommas(Enumeration(days), MonthWord(dates[0].m));
    } else {
      EnumerationCommas(HumanDates(dates));
    }
  }

  lemma SuffixCommas(e: string, m: string)
    requires ',' !in m
    ensures Count(e + " " + m, ',') == Count(e, ',')
  {
    CountZero(" " + m, ',');
    CountConcat(e, " " + m, ',');
    assert e + " " + m == e + (" " + m);
  }

  lemma ItemsWithoutCommas(dates: seq<Date>)
    requires MonthsValid(dates)
    requires forall i :: 0 <= i < |dates| ==> dates[i].d >= 0
    ensures forall k :: 0 <= k < |dates| ==> ',' !in DayNumbers(dates)[k] && ',' !in HumanDates(dates)[k]
  {
    forall k | 0 <= k < |dates|
      ensures ',' !in DayNumbers(dates)[k] && ',' !in HumanDates(dates)[k]
    {
      DayWordPlain(dates[k].d);
      MonthWordsPlain(dates[k].m);
      assert HumanDates(dates)[k] == NatToStringOfInt(dates[k].d) + " " + MonthWord(dates[k].m);
    }
  }

  // ---------------------------------------------------------------------------
  // areConsecutiveDays

  /** Each date is exactly one day (86 400 000 ms) after the previous one. */
  predicate Consecutive(dates: seq<Date>) {
    forall i :: 1 <= i < |dates| ==> dates[i].ts - dates[i - 1].ts == DayMs
  }

  /** `areConsecutiveDays(dates)` (lib/generator.js:91-97). */
  method AreConsecutiveDays(dates: seq<Date>) returns (b: bool)
    ensures b <==> Consecutive(dates)
  {
    if |dates| <= 1 {
      return true;
    }
    var i := 1;
    while i < |dates|
      invariant 1 <= i <= |dates|
      invariant forall j :: 1 <= j < i ==> dates[j].ts - dates[j - 1].ts == DayMs
    {
      if dates[i].ts - dates[i - 1].ts != DayMs {
        return false;
      }
      i := i + 1;
    }
    return true;
  }

  /** `b` is the calendar day after the real day `a`. */
  predicate IsNextDay(a: Date, b: Date) {
    && 1 <= a.m <= 12 && 1 <= a.d <= DaysInMonth(a.y, a.m)
    && (b.y, b.m, b.d) == NextDay(a.y, a.m, a.d)
  }

  /** Each date is the calendar day after the previous one. */
  predicate CalendarRun(dates: seq<Date>) {
    forall i :: 1 <= i < |dates| ==> IsNextDay(dates[i - 1], dates[i])
  }

  /** For parsed dates, the millisecond test of consecutiveness is the calendar one. */
  lemma ConsecutiveIsCalendarRun(dates: seq<Date>)
    requires ValidDates(dates)
    ensures Consecutive(dates) <==> CalendarRun(dates)
  {
    forall i | 1 <= i < |dates|
      ensures dates[i].ts - dates[i - 1].ts == DayMs <==> IsNextDay(dates[i - 1], dates[i])
    {
      OneDayApartIffNext(dates[i - 1], dates[i]);
    }
  }

  // ---------------------------------------------------------------------------
  // pluralDays / buildPushRelative / buildPushRelativePiket

  /** `pluralDays(n)` (lib/generator.js:99-106). */
  function PluralDays(n: int): string {
    var nn := if n < 0 then -n else n;
    var mod10 := nn % 10;
    var mod100 := nn % 100;
    if mod10 == 1 && mod100 != 11 then "день"
    else if 2 <= mod10 <= 4 && (mod100 < 12 || mod100 > 14) then "дня"
    else "дней"
  }

  /**
    The Russian rule for the word after a count: numbers ending in 11..14
    take "дней"; otherwise a last digit 1 takes "день", 2..4 take "дня", and
    the rest "дней".
  */
  function PluralDaysRule(n: nat): string {
    if 11 <= n % 100 <= 14 then "дней"
    else if n % 10 == 1 then "день"
    else if 2 <= n % 10 <= 4 then "дня"
    else "дней"
  }

  lemma PluralDaysFollowsRule(n: int)
    ensures PluralDays(n) == PluralDaysRule(if n < 0 then -n else n)
  {
    var nn := if n < 0 then -n else n;
    var r := nn % 100;
    assert r % 10 == nn % 10;
    assert 11 <= r <= 14 ==> r == 11 || r == 12 || r == 13 || r == 14;
  }

  /** `buildPushRelative(dates)` (lib/generator.js:108-120); the first date is read as tomorrow. */
  function BuildPushRelative(dates: seq<Date>): string
    requires MonthsValid(dates)
  {
    if |dates| == 0 then ""
    else if |dates| == 1 then "Завтра"
    else if |dates| == 2 then
      if Consecutive(dates) then "Завтра и послезавтра"
      else "Завтра и " + FormatDateHuman(dates[1])
    else if Consecutive(dates) then "Завтра и следующие " + NatToString(|dates| - 1) + " дня"
    else FormatDateListHuman(dates)
  }

  /** `buildPushRelativePiket(dates)` (lib/generator.js:122-132). */
  function BuildPushRelativePiket(dates: seq<Date>): string
    requires MonthsValid(dates)
  {
    if |dates| == 0 then ""
    else if |dates| == 1 then "Завтра"
    else if Consecutive(dates) then
      if 2 <= |dates| <= 6 then "Ближайшие " + NatToString(|dates|) + " " + PluralDays(|dates|)
      else if |dates| == 7 then "Ближайшую неделю"
      else "Ближайшие " + NatToString(|dates|) + " " + PluralDays(|dates|)
    else BuildPushRelative(dates)
  }

  /**
    With tomorrow as the first date: two parsed dates read "tomorrow and the
    day after" exactly when the second is the calendar day after the first;
    otherwise the second date is named.
  */
  lemma PushRelativeTwoDates(dates: seq<Date>)
    requires |dates| == 2 && ValidDate(dates[0]) && ValidDate(dates[1])
    ensures BuildPushRelative(dates) == "Завтра и послезавтра" <==> IsNextDay(dates[0], dates[1])
    ensures BuildPushRelative(dates) != "Завтра и послезавтра" ==>
      BuildPushRelative(dates) == "Завтра и " + FormatDateHuman(dates[1])
  {
    ConsecutiveIsCalendarRun(dates);
    var tail := FormatDateHuman(dates[1]);
    if !Consecutive(dates) {
      HumanDateStartsWithDigit(dates[1]);
      assert ("Завтра и " + tail)[9] == tail[0];
      assert "Завтра и послезавтра"[9] == 'п';
    }
  }

  /** A human date starts with its day number. */
  lemma HumanDateStartsWithDigit(dt: Date)
    requires 1 <= dt.m <= 12 && dt.d >= 0
    ensures IsDigit(FormatDateHuman(dt)[0])
  {
    NatToStringDigits(dt.d);
  }

  /**
    Three or more parsed dates: a calendar run is "tomorrow and the next N
    days" with N one less than the number of dates (the wording keeps "дня"
    for every N); any gap falls back to the full date list.
  */
  lemma PushRelativeLongList(dates: seq<Date>)
    requires |dates| >= 3 && ValidDates(dates)
    ensures CalendarRun(dates) ==>
      exists count :: BuildPushRelative(dates) == "Завтра и следующие " + count + " дня"
        && AllDigits(count) && ParseDigits(count) == |dates| - 1
    ensures !CalendarRun(dates) ==> BuildPushRelative(dates) == FormatDateListHuman(dates)
  {
    ConsecutiveIsCalendarRun(dates);
    ParsePrinted(|dates| - 1);
  }

  /**
    A picket period that is a calendar run of n >= 2 days: a week reads "the
    coming week", any other length "the coming n days" with the Russian plural.
  */
  lemma PushRelativePiketRun(dates: seq<Date>)
    requires ValidDates(dates) && |dates| >= 2 && CalendarRun(dates)
    ensures BuildPushRelativePiket(dates) ==
      if |dates| == 7 then "Ближайшую неделю"
      else "Ближайшие " + NatToString(|dates|) + " " + PluralDaysRule(|dates|)
  {
    ConsecutiveIsCalendarRun(dates);
    PluralDaysFollowsRule(|dates|);
  }

  /** A picket period with a gap is phrased like any other event's dates; one date is "tomorrow". */
  lemma PushRelativePiketGap(dates: seq<Date>)
    requires ValidDates(dates)
    ensures |dates| == 1 ==> BuildPushRelativePiket(dates) == "Завтра"
    ensures |dates| >= 2 && !CalendarRun(dates) ==> BuildPushRelativePiket(dates) == BuildPushRelative(dates)
  {
    ConsecutiveIsCalendarRun(dates);
  }

  /** Both push phrases are empty exactly for an empty date list. */
  lemma PushRelativeEmptyIff(dates: seq<Date>)
    requires MonthsValid(dates)
    requires forall i :: 0 <= i < |dates| ==> dates[i].d >= 0
    ensures BuildPushRelative(dates) == "" <==> |dates| == 0
    ensures BuildPushRelativePiket(dates) == "" <==> |dates| == 0
  {
    if |dates| >= 3 && !Consecutive(dates) {
      FormatDateListCommas(dates);
    }
  }
}
