/**
  The block engine of door-to-door visits, `buildObhodResultsFromRows`
  (lib/generator.js:416-616): rows become events, events are bucketed by
  address and by day, each day keeps at most its two earliest distinct
  slots, and the days of an address are cut greedily into blocks of one day
  or of two consecutive days, each block becoming one item.
*/
module ObhodEngine {
  import opened Wrappers
  import opened Text
  import opened Calendar
  import opened Phrases
  import opened Tsv
  import opened Lists
  import opened Obhod
  import Grouping

  // ===========================================================================
  // Rows to events

  /** `{ rowNum, okrug_row, address, date, slot }` */
  datatype Event = Event(rowNum: nat, okrugRow: string, address: string, date: Date, slot: TimeRange)

  predicate ValidEvent(e: Event) {
    e.address != "" && ValidDate(e.date) && ValidTimeRange(e.slot)
  }

  /** The checks of one row, in this path's order: address, then date, then time. */
  function CheckRow(r: Row): (c: Result<Event>)
    ensures c.Ok? ==> ValidEvent(c.value) && c.value.rowNum == r.rowNum && c.value.address == Trim(r.address)
  {
    var address := Trim(r.address);
    if address == "" then Err("Пустой адрес")
    else match ParseRuDate(r.dateRaw)
      case Err(e) => Err(e)
      case Ok(d) =>
        match NormalizeTimeRange(r.timeRaw)
        case Err(e) => Err(e)
        case Ok(t) => Ok(Event(r.rowNum, r.okrugRow, address, d, t))
  }

  /** The checks of every row, in order. */
  function Checks(rows: seq<Row>): (cs: seq<Result<Event>>)
    ensures |cs| == |rows| && forall i :: 0 <= i < |rows| ==> cs[i] == CheckRow(rows[i])
  {
    seq(|rows|, i requires 0 <= i < |rows| => CheckRow(rows[i]))
  }

  /** `events` and `rowErrors` after the first loop. */
  datatype Screened = Screened(events: seq<Event>, rowErrors: seq<RowError>)

  /** The first loop over rows whose checks gave `checks`. */
  function Screen(rows: seq<Row>, checks: seq<Result<Event>>): Screened
    requires |checks| == |rows|
    decreases |rows|
  {
    if rows == [] then Screened([], [])
    else
      var n := |rows| - 1;
      var s := Screen(rows[..n], checks[..n]);
      match checks[n]
      case Err(e) => Screened(s.events, s.rowErrors + [RowError(rows[n].rowNum, e)])
      case Ok(ev) => Screened(s.events + [ev], s.rowErrors)
  }

  /** One more row adds its event or its error. */
  lemma ScreenStep(rows: seq<Row>, checks: seq<Result<Event>>, i: nat, prev: Screened, c: Result<Event>)
    requires |checks| == |rows| && i < |rows|
    requires prev == Screen(rows[..i], checks[..i]) && c == checks[i]
    ensures Screen(rows[..i + 1], checks[..i + 1]) ==
      if c.Err? then Screened(prev.events, prev.rowErrors + [RowError(rows[i].rowNum, c.error)])
      else Screened(prev.events + [c.value], prev.rowErrors)
  {
    assert rows[..i + 1][..i] == rows[..i];
    assert checks[..i + 1][..i] == checks[..i];
  }

  /** The first loop of `buildObhodResultsFromRows`. */
  method ScreenRows(rows: seq<Row>) returns (s: Screened)
    ensures s == Screen(rows, Checks(rows))
  {
    ghost var cs := Checks(rows);
    s := Screened([], []);
    var i := 0;
    while i < |rows|
      invariant 0 <= i <= |rows|
      invariant s == Screen(rows[..i], cs[..i])
    {
      var c := CheckRow(rows[i]);
      ScreenStep(rows, cs, i, s, c);
      if c.Err? {
        s := Screened(s.events, s.rowErrors + [RowError(rows[i].rowNum, c.error)]);
      } else {
        s := Screened(s.events + [c.value], s.rowErrors);
      }
      i := i + 1;
    }
    assert rows[..i] == rows;
    assert cs[..i] == cs;
  }

  /**
    Every row is accounted for exactly once: an accepted row is an event, a
    rejected one an error with its row number and the failing check's message.
  */
  lemma {:induction false} ScreenAccounts(rows: seq<Row>, checks: seq<Result<Event>>)
    requires |checks| == |rows|
    ensures |Screen(rows, checks).events| + |Screen(rows, checks).rowErrors| == |rows|
    ensures forall i :: 0 <= i < |rows| && checks[i].Ok? ==> checks[i].value in Screen(rows, checks).events
    ensures forall i :: 0 <= i < |rows| && checks[i].Err? ==>
      RowError(rows[i].rowNum, checks[i].error) in Screen(rows, checks).rowErrors
    ensures forall k :: 0 <= k < |Screen(rows, checks).events| ==>
      exists i :: 0 <= i < |rows| && checks[i] == Ok(Screen(rows, checks).events[k])
    decreases |rows|
  {
    if rows != [] {
      var n := |rows| - 1;
      ScreenAccounts(rows[..n], checks[..n]);
      assert forall i :: 0 <= i < n ==> checks[..n][i] == checks[i] && rows[..n][i] == rows[i];
    }
  }

  /** The events of checked rows are valid. */
  lemma ScreenValid(rows: seq<Row>)
    ensures forall k :: 0 <= k < |Screen(rows, Checks(rows)).events| ==> ValidEvent(Screen(rows, Checks(rows)).events[k])
  {
    ScreenAccounts(rows, Checks(rows));
  }

  /**
    The two paths check a row in different orders: a row with an empty
    address and a malformed time is reported here for its address, and by
    `buildGroups` for its time.
  */
  lemma ValidationOrderDiffers(r: Row)
    requires Trim(r.address) == "" && NormalizeTimeRange(r.timeRaw).Err?
    ensures CheckRow(r) == Err("Пустой адрес")
    ensures Grouping.Classify(r) == Err(NormalizeTimeRange(r.timeRaw).error)
  {
  }

  // ===========================================================================
  // Days

  /** `dayKey(d)`: `${d.y}-${pad2(d.m)}-${pad2(d.d)}`. */
  function DayKey(dt: Date): string {
    NatToStringOfInt(dt.y) + "-" + PadInt(dt.m) + "-" + PadInt(dt.d)
  }

  /** `String(n).padStart(2, "0")` for an integer. */
  function PadInt(n: int): string {
    if n >= 0 then Pad2(n) else NatToStringOfInt(n)
  }

  lemma DigitsHaveNoDash(s: string)
    requires AllDigits(s)
    ensures '-' !in s
  {
    forall i | 0 <= i < |s|
      ensures s[i] != '-'
    {
      assert IsDigit(s[i]);
    }
  }

  /** Two parsed dates with the same day key are the same date. */
  lemma DayKeyInjective(a: Date, b: Date)
    requires ValidDate(a) && ValidDate(b) && DayKey(a) == DayKey(b)
    ensures a == b
  {
    NatToStringDigits(a.y);
    NatToStringDigits(b.y);
    Pad2Digits(a.m);
    Pad2Digits(b.m);
    Pad2Digits(a.d);
    Pad2Digits(b.d);
    DigitsHaveNoDash(NatToString(a.y));
    DigitsHaveNoDash(NatToString(b.y));
    DigitsHaveNoDash(Pad2(a.m));
    DigitsHaveNoDash(Pad2(b.m));
    DigitsHaveNoDash(Pad2(a.d));
    DigitsHaveNoDash(Pad2(b.d));
    SplitThree(NatToString(a.y), Pad2(a.m), Pad2(a.d), '-');
    SplitThree(NatToString(b.y), Pad2(b.m), Pad2(b.d), '-');
    assert NatToString(a.y) + "-" + Pad2(a.m) + "-" + Pad2(a.d) ==
      NatToString(a.y) + ['-'] + Pad2(a.m) + ['-'] + Pad2(a.d);
    assert NatToString(b.y) + "-" + Pad2(b.m) + "-" + Pad2(b.d) ==
      NatToString(b.y) + ['-'] + Pad2(b.m) + ['-'] + Pad2(b.d);
    NatToStringInjective(a.y, b.y);
  }

  /** `{ date, slots, okrug_row }` of `byDay`. */
  datatype Day = Day(date: Date, slots: seq<TimeRange>, okrugRow: string)

  function EventDayKey(e: Event): string {
    DayKey(e.date)
  }

  function EventAddress(e: Event): string {
    e.address
  }

  /**
    The order of `list.sort((a, b) => a.date.ts - b.date.ts || a.slot.fromMinutes - b.slot.fromMinutes)`
    as one number: start minutes are below 1440 (see `EventOrderIsLexicographic`).
  */
  function EventOrder(e: Event): int {
    e.date.ts * 1440 + e.slot.fromMinutes
  }

  /** Ordering by `EventOrder` is ordering by date, then by start. */
  lemma EventOrderIsLexicographic(a: Event, b: Event)
    requires a.slot.fromMinutes < 1440 && b.slot.fromMinutes < 1440
    ensures EventOrder(a) <= EventOrder(b) <==>
      a.date.ts < b.date.ts || (a.date.ts == b.date.ts && a.slot.fromMinutes <= b.slot.fromMinutes)
  {
    var x, y := a.date.ts, b.date.ts;
    if x < y {
      assert x * 1440 + 1440 <= y * 1440 by {
        assert (y - x) * 1440 >= 1440;
      }
    } else if y < x {
      assert y * 1440 + 1440 <= x * 1440 by {
        assert (x - y) * 1440 >= 1440;
      }
    }
  }

  function DayTs(d: Day): int {
    d.date.ts
  }

  function EventSlots(es: seq<Event>): (r: seq<TimeRange>)
    ensures |r| == |es| && forall i :: 0 <= i < |es| ==> r[i] == es[i].slot
  {
    seq(|es|, i requires 0 <= i < |es| => es[i].slot)
  }

  /**
    The day of one `byDay` bucket: the date and `okrug_row` of its first
    event, and the slots of all its events in order.
  */
  function DayOfEvents(es: seq<Event>): Day
    requires es != []
  {
    Day(es[0].date, EventSlots(es), es[0].okrugRow)
  }

  /** `Array.from(byDay.values())` over the sorted events of one address. */
  function GatherDays(sorted: seq<Event>): (days: seq<Day>)
    ensures |days| == |Buckets(sorted, EventDayKey)|
  {
    var bs := Buckets(sorted, EventDayKey);
    BucketsShape(sorted, EventDayKey);
    seq(|bs|, i requires 0 <= i < |bs| && bs[i] != [] => DayOfEvents(bs[i]))
  }

  /** `uniq.slice(0, 2)` of the distinct slots of a day. */
  function CapSlots(d: Day): Day {
    var s := DistinctSlots(d.slots);
    d.(slots := s[..if |s| < 2 then |s| else 2])
  }

  /** The gathered days in date order, before capping their slots. */
  function SortedDays(list: seq<Event>): seq<Day> {
    SortBy(GatherDays(SortBy(list, EventOrder)), DayTs)
  }

  /** The days of one address: gathered, sorted by date, each with its slots capped. */
  function DaysOf(list: seq<Event>): (r: seq<Day>)
    ensures |r| == |SortedDays(list)|
  {
    var days := SortedDays(list);
    seq(|days|, i requires 0 <= i < |days| => CapSlots(days[i]))
  }

  /** Step 3 for one address: sort its events, gather them by day, sort the days by date. */
  method GatherSortedDays(list: seq<Event>) returns (all: seq<Day>)
    ensures all == SortedDays(list)
  {
    var sorted := SortBy(list, EventOrder);
    var buckets := BucketBy(sorted, EventDayKey);
    BucketsShape(sorted, EventDayKey);
    var gathered := seq(|buckets|, i requires 0 <= i < |buckets| && buckets[i] != [] => DayOfEvents(buckets[i]));
    assert gathered == GatherDays(sorted);
    all := SortBy(gathered, DayTs);
  }

  /** Step 4: cap each day's distinct slots at two, in place. */
  method CapEachDay(all: seq<Day>) returns (days: seq<Day>)
    ensures |days| == |all| && forall k :: 0 <= k < |all| ==> days[k] == CapSlots(all[k])
  {
    days := all;
    var j := 0;
    while j < |days|
      invariant 0 <= j <= |days| == |all|
      invariant forall k :: 0 <= k < j ==> days[k] == CapSlots(all[k])
      invariant forall k :: j <= k < |days| ==> days[k] == all[k]
    {
      var d := days[j];
      var uniq := UniqSlots(d.slots);
      var s := SortBy(uniq, SlotStart);
      var capped := d.(slots := s[..if |s| < 2 then |s| else 2]);
      assert capped == CapSlots(all[j]);
      days := days[j := capped];
      j := j + 1;
    }
  }

  /** Steps 3 and 4 for one address. */
  method CollectDays(list: seq<Event>) returns (days: seq<Day>)
    ensures days == DaysOf(list)
  {
    var all := GatherSortedDays(list);
    days := CapEachDay(all);
  }

  // ---------------------------------------------------------------------------
  // What the days of one address satisfy

  predicate AllValid(es: seq<Event>) {
    forall i :: 0 <= i < |es| ==> ValidEvent(es[i])
  }

  predicate SlotsValid(ss: seq<TimeRange>) {
    forall i :: 0 <= i < |ss| ==> ValidTimeRange(ss[i])
  }

  /** What the items need of a day: a month, a positive day number, and one or two slots. */
  predicate ValidDay(d: Day) {
    1 <= d.date.m <= 12 && d.date.d >= 1 && 1 <= |d.slots| <= 2
  }

  /**
    Capping keeps at most two slots of distinct keys, ascending by start,
    taken from the day's own slots; a day with slots keeps at least one, and
    a distinct slot is dropped only when two slots starting no later are kept.
  */
  lemma CapSlotsFacts(d: Day)
    ensures var c := CapSlots(d).slots;
      |c| <= 2 && DistinctBy(c, SlotKey) && SortedBy(c, SlotStart) && Within(c, d.slots)
      && (d.slots != [] ==> c != [])
      && forall y :: y in DistinctSlots(d.slots) ==> y in c || (|c| == 2 && c[1].fromMinutes <= y.fromMinutes)
    ensures CapSlots(d).date == d.date && CapSlots(d).okrugRow == d.okrugRow
  {
    var s := DistinctSlots(d.slots);
    var n := if |s| < 2 then |s| else 2;
    DistinctSlotsFacts(d.slots);
    TakeTwoFacts(s, n);
    WithinTrans(s[..n], s, d.slots);
  }

  /** The first `n` (at most two) of distinct slots sorted by start. */
  lemma TakeTwoFacts(s: seq<TimeRange>, n: nat)
    requires n == (if |s| < 2 then |s| else 2)
    requires DistinctBy(s, SlotKey) && SortedBy(s, SlotStart)
    ensures DistinctBy(s[..n], SlotKey) && SortedBy(s[..n], SlotStart) && Within(s[..n], s)
    ensures s != [] ==> s[..n] != []
    ensures forall y :: y in s ==> y in s[..n] || (n == 2 && s[..n][1].fromMinutes <= y.fromMinutes)
  {
    TakeFacts(s, n, SlotKey, SlotStart);
    assert Within(s[..n], s) by {
      forall i | 0 <= i < n
        ensures s[..n][i] in s
      {
        assert s[..n][i] == s[i];
      }
    }
    if n < 2 {
      assert s[..n] == s;
    }
  }

  /** Two valid dates with the same timestamp are the same date. */
  lemma SameTsSameDate(a: Date, b: Date)
    requires ValidDate(a) && ValidDate(b)
    ensures a.ts == b.ts ==> a == b
  {
    if a.ts == b.ts {
      TsInjective(a, b);
    }
  }

  /** The gathered days of valid events have valid dates and one or more valid slots. */
  lemma GatherDaysValid(sorted: seq<Event>)
    requires AllValid(sorted)
    ensures forall i :: 0 <= i < |GatherDays(sorted)| ==>
      ValidDate(GatherDays(sorted)[i].date) && GatherDays(sorted)[i].slots != [] && SlotsValid(GatherDays(sorted)[i].slots)
  {
    var bs := Buckets(sorted, EventDayKey);
    var g := GatherDays(sorted);
    BucketsShape(sorted, EventDayKey);
    forall i | 0 <= i < |g|
      ensures g[i] == DayOfEvents(bs[i]) && ValidDate(g[i].date) && g[i].slots != [] && SlotsValid(g[i].slots)
    {
      assert bs[i][0] in sorted;
      forall k | 0 <= k < |bs[i]|
        ensures ValidTimeRange(bs[i][k].slot)
      {
        assert bs[i][k] in sorted;
      }
    }
  }

  function DayDate(d: Day): Date {
    d.date
  }

  /** No two gathered days share a date. */
  lemma GatherDaysDistinct(sorted: seq<Event>)
    ensures DistinctBy(GatherDays(sorted), DayDate)
  {
    var g := GatherDays(sorted);
    BucketsShape(sorted, EventDayKey);
    forall i, j | 0 <= i < j < |g|
      ensures DayDate(g[i]) != DayDate(g[j])
    {
      assert DayKey(g[i].date) != DayKey(g[j].date);
    }
  }

  /** An event's day key is the day key of a gathered day. */
  lemma GatherDayOf(sorted: seq<Event>, m: nat) returns (i: nat)
    requires m < |sorted|
    ensures i < |GatherDays(sorted)| && DayKey(GatherDays(sorted)[i].date) == DayKey(sorted[m].date)
  {
    var bs := Buckets(sorted, EventDayKey);
    var g := GatherDays(sorted);
    BucketsShape(sorted, EventDayKey);
    BucketsCover(sorted, EventDayKey, m);
    i :| 0 <= i < |bs| && sorted[m] in bs[i];
    var k :| 0 <= k < |bs[i]| && bs[i][k] == sorted[m];
    assert DayKey(g[i].date) == EventDayKey(bs[i][k]);
  }

  /** Sorting by `EventOrder` keeps the events valid. */
  lemma SortedEventsValid(list: seq<Event>)
    requires AllValid(list)
    ensures AllValid(SortBy(list, EventOrder))
  {
    var sorted := SortBy(list, EventOrder);
    SortBySameElements(list, EventOrder);
    forall i | 0 <= i < |sorted|
      ensures ValidEvent(sorted[i])
    {
      assert sorted[i] in list;
    }
  }

  /** The sorted days of valid events have valid dates and one or more valid slots. */
  lemma SortedDaysValid(list: seq<Event>)
    requires AllValid(list)
    ensures forall i :: 0 <= i < |SortedDays(list)| ==>
      ValidDate(SortedDays(list)[i].date) && SortedDays(list)[i].slots != [] && SlotsValid(SortedDays(list)[i].slots)
  {
    var g := GatherDays(SortBy(list, EventOrder));
    var all := SortedDays(list);
    SortedEventsValid(list);
    GatherDaysValid(SortBy(list, EventOrder));
    SortBySameElements(g, DayTs);
    forall i | 0 <= i < |all|
      ensures ValidDate(all[i].date) && all[i].slots != [] && SlotsValid(all[i].slots)
    {
      assert all[i] in g;
    }
  }

  /** The sorted days ascend by timestamp and have distinct dates. */
  lemma SortedDaysOrder(list: seq<Event>)
    ensures SortedBy(SortedDays(list), DayTs) && DistinctBy(SortedDays(list), DayDate)
  {
    var g := GatherDays(SortBy(list, EventOrder));
    GatherDaysDistinct(SortBy(list, EventOrder));
    SortBySorted(g, DayTs);
    SortByKeepsDistinct(g, DayTs, DayDate);
  }

  /** An event's day key is the day key of a sorted day. */
  lemma SortedDayOf(list: seq<Event>, m: nat)
    requires m < |list|
    ensures exists i :: 0 <= i < |SortedDays(list)| && DayKey(SortedDays(list)[i].date) == DayKey(list[m].date)
  {
    var sorted := SortBy(list, EventOrder);
    var g := GatherDays(sorted);
    var s := SortByIndex(list, EventOrder, m);
    var i := GatherDayOf(sorted, s);
    var j := SortByIndex(g, DayTs, i);
    var all := SortBy(g, DayTs);
    assert all == SortedDays(list);
    assert DayKey(all[j].date) == DayKey(list[m].date);
  }

  /** Each day of an address has a parsed date and one or two valid slots. */
  lemma DaysOfValid(list: seq<Event>)
    requires AllValid(list)
    ensures forall i :: 0 <= i < |DaysOf(list)| ==>
      ValidDate(DaysOf(list)[i].date) && ValidDay(DaysOf(list)[i]) && SlotsValid(DaysOf(list)[i].slots)
  {
    var all := SortedDays(list);
    var days := DaysOf(list);
    SortedDaysValid(list);
    forall i | 0 <= i < |days|
      ensures ValidDate(days[i].date) && ValidDay(days[i]) && SlotsValid(days[i].slots)
    {
      assert days[i] == CapSlots(all[i]);
      CapSlotsFacts(all[i]);
      forall k | 0 <= k < |days[i].slots|
        ensures ValidTimeRange(days[i].slots[k])
      {
        assert days[i].slots[k] in all[i].slots;
      }
    }
  }

  /** The days of one address strictly ascend by date. */
  lemma DaysOfAscending(list: seq<Event>)
    requires AllValid(list)
    ensures forall i, j :: 0 <= i < j < |DaysOf(list)| ==> DaysOf(list)[i].date.ts < DaysOf(list)[j].date.ts
  {
    var all := SortedDays(list);
    var days := DaysOf(list);
    SortedDaysOrder(list);
    DaysOfValid(list);
    forall i, j | 0 <= i < j < |days|
      ensures days[i].date.ts < days[j].date.ts
    {
      assert days[i].date == DayDate(all[i]) && days[j].date == DayDate(all[j]);
      SameTsSameDate(days[i].date, days[j].date);
    }
  }

  /** Every event's date is the date of one of the days of its address. */
  lemma DayOf(list: seq<Event>, m: nat)
    requires AllValid(list) && m < |list|
    ensures exists i :: 0 <= i < |DaysOf(list)| && DaysOf(list)[i].date == list[m].date
  {
    var all := SortedDays(list);
    var days := DaysOf(list);
    SortedDayOf(list, m);
    DaysOfValid(list);
    var i :| 0 <= i < |all| && DayKey(all[i].date) == DayKey(list[m].date);
    assert days[i].date == all[i].date;
    DayKeyInjective(days[i].date, list[m].date);
  }

  // ---------------------------------------------------------------------------
  // Blocks of at most two consecutive days

  /** `isNextDay(prev.date, next.date)`: the second date is 24 hours after the first. */
  predicate DayAfter(a: Day, b: Day) {
    b.date.ts - a.date.ts == DayMs
  }

  /** Step 5's cut: two days when the second follows the first, otherwise one. */
  function Blocks(days: seq<Day>): seq<seq<Day>>
    decreases |days|
  {
    if days == [] then []
    else if |days| >= 2 && DayAfter(days[0], days[1]) then [days[..2]] + Blocks(days[2..])
    else [days[..1]] + Blocks(days[1..])
  }

  /** The blocks, put back together, are the days in order. */
  lemma {:induction false} BlocksConcat(days: seq<Day>)
    ensures Concat(Blocks(days)) == days
    decreases |days|
  {
    if days == [] {
    } else if |days| >= 2 && DayAfter(days[0], days[1]) {
      BlocksConcat(days[2..]);
      assert days[..2] + days[2..] == days;
    } else {
      BlocksConcat(days[1..]);
      assert days[..1] + days[1..] == days;
    }
  }

  /**
    Every block holds one or two days, a block of two is two consecutive
    days, and a block of one is never followed by the next calendar day.
  */
  lemma BlocksShape(days: seq<Day>)
    ensures forall k :: 0 <= k < |Blocks(days)| ==>
      1 <= |Blocks(days)[k]| <= 2 && (|Blocks(days)[k]| == 2 ==> DayAfter(Blocks(days)[k][0], Blocks(days)[k][1]))
    ensures forall k :: 0 <= k < |Blocks(days)| - 1 && |Blocks(days)[k]| == 1 ==>
      !DayAfter(Blocks(days)[k][0], Blocks(days)[k + 1][0])
  {
    BlocksSized(days);
    BlocksSingletonsCut(days);
  }

  /** Every block holds one or two days, and a block of two is two consecutive days. */
  lemma {:induction false} BlocksSized(days: seq<Day>)
    ensures forall k :: 0 <= k < |Blocks(days)| ==>
      1 <= |Blocks(days)[k]| <= 2 && (|Blocks(days)[k]| == 2 ==> DayAfter(Blocks(days)[k][0], Blocks(days)[k][1]))
    decreases |days|
  {
    if days != [] {
      var n := if |days| >= 2 && DayAfter(days[0], days[1]) then 2 else 1;
      var rest := days[n..];
      BlocksSized(rest);
      var bs, br := Blocks(days), Blocks(rest);
      assert bs == [days[..n]] + br;
      forall k | 0 <= k < |bs|
        ensures 1 <= |bs[k]| <= 2 && (|bs[k]| == 2 ==> DayAfter(bs[k][0], bs[k][1]))
      {
        if k > 0 {
          assert bs[k] == br[k - 1];
        }
      }
    }
  }

  /** The blocks of a non-empty list start with its first day. */
  lemma BlocksHead(days: seq<Day>)
    requires days != []
    ensures Blocks(days) != [] && Blocks(days)[0] != [] && Blocks(days)[0][0] == days[0]
  {
  }

  /** A block of one day is never followed by a block starting on the next day. */
  lemma {:induction false} BlocksSingletonsCut(days: seq<Day>)
    ensures forall k :: 0 <= k < |Blocks(days)| - 1 && |Blocks(days)[k]| == 1 ==>
      Blocks(days)[k + 1] != [] && !DayAfter(Blocks(days)[k][0], Blocks(days)[k + 1][0])
    decreases |days|
  {
    if days != [] {
      var n := if |days| >= 2 && DayAfter(days[0], days[1]) then 2 else 1;
      var rest := days[n..];
      BlocksSingletonsCut(rest);
      var bs, br := Blocks(days), Blocks(rest);
      assert bs == [days[..n]] + br;
      forall k | 0 <= k < |bs| - 1 && |bs[k]| == 1
        ensures bs[k + 1] != [] && !DayAfter(bs[k][0], bs[k + 1][0])
      {
        if k == 0 {
          assert n == 1 && rest != [];
          BlocksHead(rest);
          assert bs[1] == br[0];
          assert days[1] == rest[0];
        } else {
          assert bs[k] == br[k - 1] && bs[k + 1] == br[k];
        }
      }
    }
  }

  /** The blocks of valid days hold valid days. */
  lemma BlocksValid(days: seq<Day>)
    requires forall i :: 0 <= i < |days| ==> ValidDay(days[i])
    ensures forall k, j :: 0 <= k < |Blocks(days)| && 0 <= j < |Blocks(days)[k]| ==> ValidDay(Blocks(days)[k][j])
  {
    BlocksConcat(days);
    forall k, j | 0 <= k < |Blocks(days)| && 0 <= j < |Blocks(days)[k]|
      ensures ValidDay(Blocks(days)[k][j])
    {
      ConcatHas(Blocks(days), k, j);
    }
  }

  /**
    A run of consecutive days is cut into pairs from the front: every block
    but the last holds two days, so there are half as many blocks, rounded up.
  */
  lemma {:induction false} ConsecutiveRunPairs(days: seq<Day>)
    requires forall i :: 0 <= i < |days| - 1 ==> DayAfter(days[i], days[i + 1])
    ensures |Blocks(days)| == (|days| + 1) / 2
    ensures forall k :: 0 <= k < |Blocks(days)| - 1 ==> |Blocks(days)[k]| == 2
    decreases |days|
  {
    if |days| >= 2 {
      var rest := days[2..];
      forall i | 0 <= i < |rest| - 1
        ensures DayAfter(rest[i], rest[i + 1])
      {
        assert rest[i] == days[i + 2] && rest[i + 1] == days[i + 3];
      }
      ConsecutiveRunPairs(rest);
    }
  }

  /** Three consecutive days give a block of two and a block of one. */
  lemma ThreeConsecutiveDays(a: Day, b: Day, c: Day)
    requires DayAfter(a, b) && DayAfter(b, c)
    ensures Blocks([a, b, c]) == [[a, b], [c]]
  {
    assert [a, b, c][..2] == [a, b];
    assert [a, b, c][2..] == [c];
    assert [c][..1] == [c] && [c][1..] == [];
    assert Blocks([c]) == [[c]] + Blocks([]);
    assert Blocks([a, b, c]) == [[a, b]] + Blocks([c]);
  }

  /** A block of two valid days is a date and the calendar day after it. */
  lemma PairIsNextCalendarDay(a: Day, b: Day)
    requires ValidDate(a.date) && ValidDate(b.date) && DayAfter(a, b)
    ensures (b.date.y, b.date.m, b.date.d) == NextDay(a.date.y, a.date.m, a.date.d)
  {
    OneDayApartIffNext(a.date, b.date);
  }

  // ---------------------------------------------------------------------------
  // One item per block

  /** A block as step 5 makes it: one or two valid days. */
  predicate ValidBlock(block: seq<Day>) {
    1 <= |block| <= 2 && ValidDay(block[0]) && (|block| == 2 ==> ValidDay(block[1]))
  }

  function SlotKeys(slots: seq<TimeRange>): (r: seq<string>)
    ensures |r| == |slots| && forall i :: 0 <= i < |slots| ==> r[i] == slots[i].key
  {
    seq(|slots|, i requires 0 <= i < |slots| => slots[i].key)
  }

  /** `sameSlots(aSlots, bSlots)`: the same keys in the same order. */
  method SameSlots(a: seq<TimeRange>, b: seq<TimeRange>) returns (same: bool)
    ensures same <==> SlotKeys(a) == SlotKeys(b)
  {
    if |a| != |b| {
      return false;
    }
    var i := 0;
    while i < |a|
      invariant 0 <= i <= |a|
      invariant forall k :: 0 <= k < i ==> a[k].key == b[k].key
    {
      if a[i].key != b[i].key {
        assert SlotKeys(a)[i] != SlotKeys(b)[i];
        return false;
      }
      i := i + 1;
    }
    assert SlotKeys(a) == SlotKeys(b);
    return true;
  }

  /** `selectObhodScenarioKey(days)` */
  function SelectScenarioKey(block: seq<Day>): string
    requires |block| >= 1
  {
    if |block| == 1 then
      (if |block[0].slots| == 2 then "obhod_1d_2slot" else "obhod_1d_1slot")
    else
      var s1, s2 := |block[0].slots|, |block[1].slots|;
      if s1 == 1 && s2 == 1 then
        (if block[0].slots[0].key == block[1].slots[0].key then "obhod_2d_1_1_same" else "obhod_2d_1_1_diff")
      else if s1 == 2 && s2 == 1 then "obhod_2d_2_1"
      else if s1 == 1 && s2 == 2 then "obhod_2d_1_2"
      else "obhod_2d_2_2"
  }

  /**
    The scenario key spells the shape of the block: the number of days, the
    number of slots of each day, and for two single-slot days whether the
    two slots are the same.
  */
  lemma ScenarioKeyByCounts(block: seq<Day>)
    requires ValidBlock(block)
    ensures |block| == 1 ==>
      SelectScenarioKey(block) == "obhod_1d_" + NatToString(|block[0].slots|) + "slot"
    ensures |block| == 2 ==>
      var s1, s2 := |block[0].slots|, |block[1].slots|;
      SelectScenarioKey(block) == "obhod_2d_" + NatToString(s1) + "_" + NatToString(s2)
        + (if s1 == 1 && s2 == 1 then (if SlotKeys(block[0].slots) == SlotKeys(block[1].slots) then "_same" else "_diff") else "")
  {
    assert NatToString(1) == "1" && NatToString(2) == "2";
    if |block| == 2 && |block[0].slots| == 1 && |block[1].slots| == 1 {
      assert SlotKeys(block[0].slots) == [block[0].slots[0].key];
      assert SlotKeys(block[1].slots) == [block[1].slots[0].key];
    }
  }

  /** `formatSingleDayWithSlots(d, slots)` */
  function FormatSingleDayWithSlots(d: Date, slots: seq<TimeRange>): string
    requires 1 <= d.m <= 12 && |slots| >= 1
  {
    if |slots| == 1 then FormatDateHuman(d) + " " + slots[0].timeText
    else FormatDateHuman(d) + " " + slots[0].timeText + " и " + slots[1].timeText
  }

  /** One day's text is the date followed by all its slots joined by " и ", as in the reschedule phrase. */
  lemma SingleDayIsSlotsPhrase(d: Date, slots: seq<TimeRange>)
    requires 1 <= d.m <= 12 && 1 <= |slots| <= 2
    ensures FormatSingleDayWithSlots(d, slots) == SlotsPhrase(d, slots)
  {
    var t := TimeTexts(slots);
    var h := FormatDateHuman(d);
    if |slots| == 2 {
      assert t[1..] == [t[1]];
      assert Join(t, " и ") == t[0] + " и " + t[1];
      assert h + " " + (t[0] + " и " + t[1]) == h + " " + t[0] + " и " + t[1];
    }
  }

  /** `buildNewsDateTime(block)` */
  function BuildNewsDateTime(block: seq<Day>): string
    requires block == [] || ValidBlock(block)
  {
    if |block| == 0 then ""
    else if |block| == 1 then FormatSingleDayWithSlots(block[0].date, block[0].slots)
    else if SlotKeys(block[0].slots) == SlotKeys(block[1].slots) then
      Trim(FormatDateListHuman([block[0].date, block[1].date]) + " " + Join(TimeTexts(block[0].slots), " и "))
    else
      FormatSingleDayWithSlots(block[0].date, block[0].slots) + " и " + FormatSingleDayWithSlots(block[1].date, block[1].slots)
  }

  /** A slot's text ends in a digit. */
  lemma TimeTextEndsInDigit(t: TimeRange)
    requires ValidTimeRange(t)
    ensures t.timeText != [] && IsDigit(t.timeText[|t.timeText| - 1])
  {
    ClockTextShape(t.toMinutes);
    var c := ClockText(t.toMinutes);
    assert c[4] == c[3..][1];
  }

  /** A text that starts and ends with a digit, around a blank, is left alone by trimming. */
  lemma TrimDigits(a: string, b: string)
    requires a != [] && IsDigit(a[0]) && b != [] && IsDigit(b[|b| - 1])
    ensures Trim(a + " " + b) == a + " " + b
  {
    var s := a + " " + b;
    assert s[0] == a[0] && s[|s| - 1] == b[|b| - 1];
    TrimOfUnpadded(s);
  }

  /** The list of two dates starts with the first day number. */
  lemma ListStartsWithDigit(d0: Date, d1: Date)
    requires 1 <= d0.m <= 12 && 1 <= d1.m <= 12 && d0.d >= 0
    ensures FormatDateListHuman([d0, d1]) != [] && IsDigit(FormatDateListHuman([d0, d1])[0])
  {
    NatToStringDigits(d0.d);
    assert DayNumbers([d0, d1])[0] == NatToString(d0.d);
  }

  lemma TextsEndInDigit(t: seq<string>)
    requires t != [] && t[0] != [] && t[|t| - 1] != [] && IsDigit(t[|t| - 1][|t[|t| - 1]| - 1])
    ensures var j := Join(t, " и "); j != [] && IsDigit(j[|j| - 1])
  {
    JoinEnds(t, " и ");
  }

  /** The joined slot texts end with the last slot's final character. */
  lemma JoinEndsInDigit(slots: seq<TimeRange>)
    requires slots != [] && slots[0].timeText != []
    requires var last := slots[|slots| - 1].timeText; last != [] && IsDigit(last[|last| - 1])
    ensures var j := Join(TimeTexts(slots), " и "); j != [] && IsDigit(j[|j| - 1])
  {
    var t := TimeTexts(slots);
    assert t[0] == slots[0].timeText && t[|t| - 1] == slots[|slots| - 1].timeText;
    TextsEndInDigit(t);
  }

  /**
    Two days with the same slots share one text: both dates listed once,
    then the common slots. The `.trim()` changes nothing, since the text
    starts with the first day number and ends with a minute digit.
  */
  lemma NewsOfSameSlots(block: seq<Day>)
    requires ValidBlock(block) && |block| == 2 && SlotKeys(block[0].slots) == SlotKeys(block[1].slots)
    requires SlotsValid(block[0].slots)
    ensures BuildNewsDateTime(block) ==
      FormatDateListHuman([block[0].date, block[1].date]) + " " + Join(TimeTexts(block[0].slots), " и ")
  {
    var slots := block[0].slots;
    var a := FormatDateListHuman([block[0].date, block[1].date]);
    var b := Join(TimeTexts(slots), " и ");
    assert BuildNewsDateTime(block) == Trim(a + " " + b);
    ListStartsWithDigit(block[0].date, block[1].date);
    SlotTextsEndInDigit(slots);
    TrimDigits(a, b);
  }

  /** Valid slots joined end with a minute digit. */
  lemma SlotTextsEndInDigit(slots: seq<TimeRange>)
    requires slots != [] && SlotsValid(slots)
    ensures var j := Join(TimeTexts(slots), " и "); j != [] && IsDigit(j[|j| - 1])
  {
    TimeTextEndsInDigit(slots[0]);
    TimeTextEndsInDigit(slots[|slots| - 1]);
    JoinEndsInDigit(slots);
  }

  /** Within one month the shared text names the month once: "5 и 6 мая с 10:00 до 12:00". */
  lemma NewsOfSameSlotsSameMonth(block: seq<Day>)
    requires ValidBlock(block) && |block| == 2 && SlotKeys(block[0].slots) == SlotKeys(block[1].slots)
    requires SlotsValid(block[0].slots)
    requires block[0].date.m == block[1].date.m && block[0].date.y == block[1].date.y
    ensures BuildNewsDateTime(block) ==
      NatToString(block[0].date.d) + " и " + NatToString(block[1].date.d) + " " + MonthWord(block[0].date.m)
        + " " + Join(TimeTexts(block[0].slots), " и ")
  {
    NewsOfSameSlots(block);
    TwoDatesSameMonth(block[0].date, block[1].date);
  }

  /** Two dates of one month are listed as "5 и 6 мая". */
  lemma TwoDatesSameMonth(d0: Date, d1: Date)
    requires 1 <= d0.m <= 12 && d0.m == d1.m && d0.y == d1.y && d0.d >= 0 && d1.d >= 0
    ensures FormatDateListHuman([d0, d1]) == NatToString(d0.d) + " и " + NatToString(d1.d) + " " + MonthWord(d0.m)
  {
    var dates := [d0, d1];
    assert SameMonth(dates);
    var days := DayNumbers(dates);
    assert days[0] == NatToString(d0.d) && days[1] == NatToString(d1.d);
  }

  /** `buildPushDay(blockDays)`, the helper defined next to the loop. */
  function PushDay(block: seq<Day>): string
    requires 1 <= |block| && (|block| >= 2 ==> 1 <= block[1].date.m <= 12)
  {
    if |block| == 1 then "Завтра"
    else if DayAfter(block[0], block[1]) then "Завтра и послезавтра"
    else "Завтра и " + FormatDateHuman(block[1].date)
  }

  /** `blockDays[0].slots?.[0]?.timeText || ""` */
  function FirstSlotText(d: Day): string {
    if |d.slots| > 0 then d.slots[0].timeText else ""
  }

  /** `buildPushTime(blockDays, scenarioKey)`, the helper defined next to the loop. */
  function PushTime(block: seq<Day>, scenarioKey: string): string
    requires |block| >= 1
  {
    if |block| == 2 && scenarioKey == "obhod_2d_1_1_same" then FirstSlotText(block[0])
    else if |block| == 1 then FirstSlotText(block[0])
    else ""
  }

  /**
    The push time of a block is the first slot's text for a single day and
    for two days sharing their one slot, and empty for every other pair.
  */
  lemma PushTimeOfBlock(block: seq<Day>)
    requires ValidBlock(block) && ValidTimeRange(block[0].slots[0])
    ensures var t := PushTime(block, SelectScenarioKey(block));
      (t != "" <==> |block| == 1 || (|block[0].slots| == 1 && |block[1].slots| == 1 && SlotKeys(block[0].slots) == SlotKeys(block[1].slots)))
      && (t != "" ==> t == block[0].slots[0].timeText)
  {
    TimeTextEndsInDigit(block[0].slots[0]);
    if |block| == 2 && |block[0].slots| == 1 && |block[1].slots| == 1 {
      assert SlotKeys(block[0].slots) == [block[0].slots[0].key];
      assert SlotKeys(block[1].slots) == [block[1].slots[0].key];
    }
  }

  /** `address` in the `vars` of an item. */
  datatype Vars = Vars(address: string, newsDateTime: string, pushDay: string, pushTime: string)

  /** `{ event_type, scenario_key, address, date_list_human, time_range_human, vars, okrug_row }` */
  datatype Item = Item(eventType: string, scenarioKey: string, address: string, dateListHuman: string,
                       timeRangeHuman: string, vars: Vars, okrugRow: string)

  /** The item pushed for one block of an address. */
  function ItemOf(address: string, block: seq<Day>): Item
    requires ValidBlock(block)
  {
    var key := SelectScenarioKey(block);
    Item("obhod", key, address,
      if |block| == 2 then FormatDateHuman(block[0].date) + " и " + FormatDateHuman(block[1].date)
      else FormatDateHuman(block[0].date),
      "",
      Vars(address, BuildNewsDateTime(block), PushDay(block), PushTime(block, key)),
      block[0].okrugRow)
  }

  /** The items of an address's blocks, in order. */
  function ItemsOf(address: string, blocks: seq<seq<Day>>): (r: seq<Item>)
    requires forall k :: 0 <= k < |blocks| ==> ValidBlock(blocks[k])
    ensures |r| == |blocks|
    decreases |blocks|
  {
    if blocks == [] then [] else [ItemOf(address, blocks[0])] + ItemsOf(address, blocks[1..])
  }

  /** The blocks of valid days are valid blocks. */
  lemma BlocksAreValid(days: seq<Day>)
    requires forall i :: 0 <= i < |days| ==> ValidDay(days[i])
    ensures forall k :: 0 <= k < |Blocks(days)| ==> ValidBlock(Blocks(days)[k])
  {
    BlocksShape(days);
    BlocksValid(days);
  }

  /**
    In the engine a block of two is always two consecutive days, so its push
    day is always "Завтра и послезавтра" and never names the second date.
  */
  lemma PushDayOfBlocks(days: seq<Day>)
    requires forall i :: 0 <= i < |days| ==> ValidDay(days[i])
    ensures forall k :: 0 <= k < |Blocks(days)| ==>
      (ValidBlock(Blocks(days)[k]) &&
       PushDay(Blocks(days)[k]) == (if |Blocks(days)[k]| == 1 then "Завтра" else "Завтра и послезавтра"))
  {
    BlocksAreValid(days);
    BlocksShape(days);
  }

  /** `buildNewsDateTime(block)` as the loop calls it, with `sameSlots` as a loop. */
  method NewsDateTime(block: seq<Day>) returns (news: string)
    requires block == [] || ValidBlock(block)
    ensures news == BuildNewsDateTime(block)
  {
    if |block| == 0 {
      return "";
    }
    if |block| == 1 {
      return FormatSingleDayWithSlots(block[0].date, block[0].slots);
    }
    var same := SameSlots(block[0].slots, block[1].slots);
    if same {
      news := Trim(FormatDateListHuman([block[0].date, block[1].date]) + " " + Join(TimeTexts(block[0].slots), " и "));
    } else {
      news := FormatSingleDayWithSlots(block[0].date, block[0].slots) + " и "
        + FormatSingleDayWithSlots(block[1].date, block[1].slots);
    }
  }

  /** The item the loop builds for one block. */
  method MakeItem(address: string, block: seq<Day>) returns (item: Item)
    requires ValidBlock(block)
    ensures item == ItemOf(address, block)
  {
    var key := SelectScenarioKey(block);
    var news := NewsDateTime(block);
    var dateList := if |block| == 2 then FormatDateHuman(block[0].date) + " и " + FormatDateHuman(block[1].date)
      else FormatDateHuman(block[0].date);
    item := Item("obhod", key, address, dateList, "",
      Vars(address, news, PushDay(block), PushTime(block, key)), block[0].okrugRow);
  }

  /** The first block of the days from `i` on, and where the next block starts. */
  lemma BlocksStep(days: seq<Day>, i: nat, n: nat)
    requires i < |days|
    requires n == if i + 1 < |days| && DayAfter(days[i], days[i + 1]) then 2 else 1
    ensures i + n <= |days| && Blocks(days[i..]) == [days[i..i + n]] + Blocks(days[i + n..])
  {
    var rest := days[i..];
    assert rest[..n] == days[i..i + n];
    assert rest[n..] == days[i + n..];
  }

  /** The items from position `i` on: the item of the block there, then the items after it. */
  lemma ItemsStep(address: string, days: seq<Day>, i: nat, n: nat, next: nat)
    requires forall j :: 0 <= j < |days| ==> ValidDay(days[j])
    requires i < |days|
    requires n == if i + 1 < |days| && DayAfter(days[i], days[i + 1]) then 2 else 1
    requires next == i + n
    ensures next <= |days| && ValidBlock(days[i..next])
    ensures forall k :: 0 <= k < |Blocks(days[i..])| ==> ValidBlock(Blocks(days[i..])[k])
    ensures forall k :: 0 <= k < |Blocks(days[next..])| ==> ValidBlock(Blocks(days[next..])[k])
    ensures ItemsOf(address, Blocks(days[i..])) ==
      [ItemOf(address, days[i..next])] + ItemsOf(address, Blocks(days[next..]))
  {
    BlocksStep(days, i, n);
    BlocksAreValid(days[i..]);
    BlocksAreValid(days[next..]);
    assert ValidDay(days[i]);
    if n == 2 {
      assert ValidDay(days[i + 1]);
    }
  }

  /** Step 5 for one address: the loop that cuts the days into blocks and pushes one item per block. */
  method CutBlocks(address: string, days: seq<Day>) returns (items: seq<Item>)
    requires forall i :: 0 <= i < |days| ==> ValidDay(days[i])
    ensures forall k :: 0 <= k < |Blocks(days)| ==> ValidBlock(Blocks(days)[k])
    ensures items == ItemsOf(address, Blocks(days))
  {
    items := [];
    var i := 0;
    BlocksAreValid(days);
    assert days[0..] == days;
    while i < |days|
      invariant 0 <= i <= |days|
      invariant forall k :: 0 <= k < |Blocks(days[i..])| ==> ValidBlock(Blocks(days[i..])[k])
      invariant items + ItemsOf(address, Blocks(days[i..])) == ItemsOf(address, Blocks(days))
      decreases |days| - i
    {
      var n := if i + 1 < |days| && DayAfter(days[i], days[i + 1]) then 2 else 1;
      var next := i + n;
      ItemsStep(address, days, i, n, next);
      var item := MakeItem(address, days[i..next]);
      var later := ItemsOf(address, Blocks(days[next..]));
      AppendAssoc(items, item, later);
      items := items + [item];
      i := next;
    }
  }

  // ===========================================================================
  // The whole path

  /** `{ items, rowErrors }` */
  datatype ObhodResults = ObhodResults(items: seq<Item>, rowErrors: seq<RowError>)

  /** The events of one address are valid and share its address. */
  predicate AddressList(list: seq<Event>) {
    list != [] && AllValid(list)
  }

  /** The days of an address are what the items need. */
  lemma DaysOfAreValidDays(list: seq<Event>)
    requires AddressList(list)
    ensures forall i :: 0 <= i < |DaysOf(list)| ==> ValidDay(DaysOf(list)[i])
  {
    DaysOfValid(list);
  }

  /** The items of one address: its days cut into blocks, one item per block. */
  function AddressItems(list: seq<Event>): seq<Item>
    requires AddressList(list)
  {
    DaysOfAreValidDays(list);
    BlocksAreValid(DaysOf(list));
    ItemsOf(list[0].address, Blocks(DaysOf(list)))
  }

  /** The items of every address, in the order the addresses were first seen. */
  function AllItems(lists: seq<seq<Event>>): (items: seq<Item>)
    requires forall k :: 0 <= k < |lists| ==> AddressList(lists[k])
    ensures |items| >= |lists|
    decreases |lists|
  {
    if lists == [] then []
    else
      AddressItemsNonEmpty(lists[|lists| - 1]);
      AllItems(lists[..|lists| - 1]) + AddressItems(lists[|lists| - 1])
  }

  /** One more address adds its items at the end. */
  lemma AllItemsStep(lists: seq<seq<Event>>, k: nat)
    requires k < |lists| && forall j :: 0 <= j < |lists| ==> AddressList(lists[j])
    ensures AllItems(lists[..k + 1]) == AllItems(lists[..k]) + AddressItems(lists[k])
  {
    assert lists[..k + 1][..k] == lists[..k];
  }

  /** The events grouped by address, as `byAddress` holds them. */
  function ByAddress(rows: seq<Row>): seq<seq<Event>> {
    Buckets(Screen(rows, Checks(rows)).events, EventAddress)
  }

  /** Each address bucket is non-empty, its events share the address, and no two buckets share one. */
  lemma ByAddressShape(rows: seq<Row>)
    ensures forall k :: 0 <= k < |ByAddress(rows)| ==> ByAddress(rows)[k] != []
    ensures forall k, j :: 0 <= k < |ByAddress(rows)| && 0 <= j < |ByAddress(rows)[k]| ==>
      ByAddress(rows)[k][j].address == ByAddress(rows)[k][0].address
    ensures forall k, l :: 0 <= k < l < |ByAddress(rows)| ==> ByAddress(rows)[k][0].address != ByAddress(rows)[l][0].address
  {
    var events := Screen(rows, Checks(rows)).events;
    AddressBucketsShape(events);
    assert ByAddress(rows) == Buckets(events, EventAddress);
  }

  lemma AddressBucketsShape(events: seq<Event>)
    ensures forall k :: 0 <= k < |Buckets(events, EventAddress)| ==> Buckets(events, EventAddress)[k] != []
    ensures forall k, j :: 0 <= k < |Buckets(events, EventAddress)| && 0 <= j < |Buckets(events, EventAddress)[k]| ==>
      Buckets(events, EventAddress)[k][j].address == Buckets(events, EventAddress)[k][0].address
    ensures forall k, l :: 0 <= k < l < |Buckets(events, EventAddress)| ==>
      Buckets(events, EventAddress)[k][0].address != Buckets(events, EventAddress)[l][0].address
  {
    var bs := Buckets(events, EventAddress);
    BucketsShape(events, EventAddress);
    assert forall k, j :: 0 <= k < |bs| && 0 <= j < |bs[k]| ==> EventAddress(bs[k][j]) == EventAddress(bs[k][0]);
    assert forall k, l :: 0 <= k < l < |bs| ==> EventAddress(bs[k][0]) != EventAddress(bs[l][0]);
  }

  /** Every address bucket is a non-empty list of valid events. */
  lemma ByAddressValid(rows: seq<Row>)
    ensures forall k :: 0 <= k < |ByAddress(rows)| ==> AddressList(ByAddress(rows)[k])
  {
    var events := Screen(rows, Checks(rows)).events;
    var bs := ByAddress(rows);
    ScreenValid(rows);
    BucketsShape(events, EventAddress);
    forall k | 0 <= k < |bs|
      ensures AddressList(bs[k])
    {
      forall j | 0 <= j < |bs[k]|
        ensures ValidEvent(bs[k][j])
      {
        assert bs[k][j] in events;
      }
    }
  }

  /** `buildObhodResultsFromRows(rows)` with the push helpers it evidently means to call. */
  function BuildObhodResults(rows: seq<Row>): ObhodResults {
    ByAddressValid(rows);
    ObhodResults(AllItems(ByAddress(rows)), Screen(rows, Checks(rows)).rowErrors)
  }

  /** Steps 3 to 5 for one address. */
  method ItemsOfAddress(list: seq<Event>) returns (items: seq<Item>)
    requires AddressList(list)
    ensures items == AddressItems(list)
  {
    var days := CollectDays(list);
    DaysOfAreValidDays(list);
    items := CutBlocks(list[0].address, days);
  }

  /** The loop over `byAddress`: the items of each address, one address after another. */
  method ItemsOfAddresses(lists: seq<seq<Event>>) returns (items: seq<Item>)
    requires forall k :: 0 <= k < |lists| ==> AddressList(lists[k])
    ensures items == AllItems(lists)
  {
    items := [];
    var k := 0;
    while k < |lists|
      invariant 0 <= k <= |lists|
      invariant items == AllItems(lists[..k])
    {
      var its := ItemsOfAddress(lists[k]);
      AllItemsStep(lists, k);
      items := items + its;
      k := k + 1;
    }
    assert lists[..k] == lists;
  }

  /** `buildObhodResultsFromRows(rows)`: screening, grouping by address, then days and blocks per address. */
  method BuildObhodResultsFromRows(rows: seq<Row>) returns (res: ObhodResults)
    ensures res == BuildObhodResults(rows)
  {
    var s := ScreenRows(rows);
    var byAddress := BucketBy(s.events, EventAddress);
    assert byAddress == ByAddress(rows);
    ByAddressValid(rows);
    var items := ItemsOfAddresses(byAddress);
    res := ObhodResults(items, s.rowErrors);
  }

  /** The seven scenario keys of the obhod templates. */
  const ScenarioKeys: set<string> := {"obhod_1d_1slot", "obhod_1d_2slot", "obhod_2d_1_1_same", "obhod_2d_1_1_diff",
    "obhod_2d_2_1", "obhod_2d_1_2", "obhod_2d_2_2"}

  /**
    What every item says whatever its block: an obhod item with a non-empty
    address repeated in its variables, no time range and a known scenario.
  */
  predicate ItemShape(it: Item) {
    it.eventType == "obhod" && it.address != "" && it.vars.address == it.address
    && it.timeRangeHuman == "" && it.scenarioKey in ScenarioKeys
  }

  lemma {:induction false} ItemsOfShape(address: string, blocks: seq<seq<Day>>)
    requires address != "" && forall k :: 0 <= k < |blocks| ==> ValidBlock(blocks[k])
    ensures forall j :: 0 <= j < |ItemsOf(address, blocks)| ==>
      ItemShape(ItemsOf(address, blocks)[j]) && ItemsOf(address, blocks)[j].address == address
    decreases |blocks|
  {
    if blocks != [] {
      ItemsOfShape(address, blocks[1..]);
      var r := ItemsOf(address, blocks);
      assert r == [ItemOf(address, blocks[0])] + ItemsOf(address, blocks[1..]);
      assert ItemShape(r[0]);
    }
  }

  /** Every item of an address is an obhod item of that address. */
  lemma AddressItemsShape(list: seq<Event>)
    requires AddressList(list)
    ensures forall j :: 0 <= j < |AddressItems(list)| ==>
      ItemShape(AddressItems(list)[j]) && AddressItems(list)[j].address == list[0].address
  {
    assert ValidEvent(list[0]);
    DaysOfAreValidDays(list);
    BlocksAreValid(DaysOf(list));
    ItemsOfShape(list[0].address, Blocks(DaysOf(list)));
  }

  /** Every item of the path has that shape, one position at a time. */
  lemma AllItemsShape(lists: seq<seq<Event>>, j: nat)
    requires forall k :: 0 <= k < |lists| ==> AddressList(lists[k])
    requires j < |AllItems(lists)|
    ensures ItemShape(AllItems(lists)[j])
  {
    AllItemsShaped(lists);
  }

  predicate AllShaped(items: seq<Item>) {
    forall j :: 0 <= j < |items| ==> ItemShape(items[j])
  }

  lemma ShapedAppend(a: seq<Item>, b: seq<Item>)
    requires AllShaped(a) && AllShaped(b)
    ensures AllShaped(a + b)
  {
    forall j | 0 <= j < |a + b|
      ensures ItemShape((a + b)[j])
    {
      if j < |a| {
        assert (a + b)[j] == a[j];
      } else {
        assert (a + b)[j] == b[j - |a|];
      }
    }
  }

  lemma {:induction false} AllItemsShaped(lists: seq<seq<Event>>)
    requires forall k :: 0 <= k < |lists| ==> AddressList(lists[k])
    ensures AllShaped(AllItems(lists))
    decreases |lists|
  {
    if lists != [] {
      var n := |lists| - 1;
      var prefix := lists[..n];
      AllItemsShaped(prefix);
      AddressItemsShape(lists[n]);
      ShapedAppend(AllItems(prefix), AddressItems(lists[n]));
    }
  }

  /** Every item `buildObhodResultsFromRows` returns has that shape. */
  lemma ObhodItemShape(rows: seq<Row>, j: nat)
    requires j < |BuildObhodResults(rows).items|
    ensures ItemShape(BuildObhodResults(rows).items[j])
  {
    ByAddressValid(rows);
    AllItemsShape(ByAddress(rows), j);
  }

  /** An address with events has at least one item. */
  lemma AddressItemsNonEmpty(list: seq<Event>)
    requires AddressList(list)
    ensures AddressItems(list) != []
  {
    DayOf(list, 0);
    BlocksConcat(DaysOf(list));
  }

  /** A row that passes the checks gives an event. */
  lemma ValidRowGivesEvent(rows: seq<Row>, i: nat)
    requires i < |rows| && CheckRow(rows[i]).Ok?
    ensures Screen(rows, Checks(rows)).events != []
  {
    ScreenAccounts(rows, Checks(rows));
    assert Checks(rows)[i].value in Screen(rows, Checks(rows)).events;
  }

  /** With an event there is an address bucket. */
  lemma EventGivesBucket(rows: seq<Row>)
    requires Screen(rows, Checks(rows)).events != []
    ensures ByAddress(rows) != []
  {
    BucketsCover(Screen(rows, Checks(rows)).events, EventAddress, 0);
  }

  /** With an event there is an item. */
  lemma EventGivesItem(rows: seq<Row>)
    requires Screen(rows, Checks(rows)).events != []
    ensures BuildObhodResults(rows).items != []
  {
    EventGivesBucket(rows);
    ByAddressValid(rows);
  }

  /** A row that passes the checks gives at least one item. */
  lemma ValidRowGivesItem(rows: seq<Row>, i: nat)
    requires i < |rows| && CheckRow(rows[i]).Ok?
    ensures BuildObhodResults(rows).items != []
  {
    ValidRowGivesEvent(rows, i);
    EventGivesItem(rows);
  }

  /** With every check failing, no event is kept. */
  lemma {:induction false} ScreenNoEvents(rows: seq<Row>, checks: seq<Result<Event>>)
    requires |checks| == |rows| && forall i :: 0 <= i < |checks| ==> checks[i].Err?
    ensures Screen(rows, checks).events == []
    decreases |rows|
  {
    if rows != [] {
      var n := |rows| - 1;
      ScreenNoEvents(rows[..n], checks[..n]);
    }
  }

  /** When no row passes the checks there is no item. */
  lemma NoValidRowNoItems(rows: seq<Row>)
    requires forall i :: 0 <= i < |rows| ==> CheckRow(rows[i]).Err?
    ensures BuildObhodResults(rows).items == []
  {
    ScreenNoEvents(rows, Checks(rows));
    ByAddressValid(rows);
    assert ByAddress(rows) == [];
  }

  // ---------------------------------------------------------------------------
  // As written

  /** The exception the loop raises: the helpers it calls are defined under other names. */
  const UndefinedPushDay := "ReferenceError: buildObhodPushDay is not defined"

  /**
    `buildObhodResultsFromRows(rows)` as written: the first block reaches
    `buildObhodPushDay(block)`, which is defined nowhere, so the call throws
    whenever there is any item to build, and returns only when there is none.
  */
  function BuildObhodResultsAsWritten(rows: seq<Row>): Result<ObhodResults> {
    var r := BuildObhodResults(rows);
    if r.items == [] then Ok(r) else Err(UndefinedPushDay)
  }

  /**
    As written, one row that passes every check is enough to make the whole
    call throw, where the helpers defined next to the loop give items.
  */
  lemma AsWrittenThrowsOnValidRow(rows: seq<Row>, i: nat)
    requires i < |rows| && CheckRow(rows[i]).Ok?
    ensures BuildObhodResultsAsWritten(rows) == Err(UndefinedPushDay)
    ensures BuildObhodResults(rows).items != []
  {
    ValidRowGivesItem(rows, i);
  }

  /** As written, the call returns only when no row passes, and then it agrees with the corrected one. */
  lemma AsWrittenReturnsOnlyWithoutEvents(rows: seq<Row>)
    requires BuildObhodResultsAsWritten(rows).Ok?
    ensures forall i :: 0 <= i < |rows| ==> CheckRow(rows[i]).Err?
    ensures BuildObhodResultsAsWritten(rows).value == BuildObhodResults(rows)
  {
    forall i | 0 <= i < |rows|
      ensures CheckRow(rows[i]).Err?
    {
      if CheckRow(rows[i]).Ok? {
        ValidRowGivesItem(rows, i);
      }
    }
  }
}
