/**
  Door-to-door visits ("обходы"): the reschedule phrase
  `formatObhodDateTimeHumanMulti` and the block engine
  `buildObhodResultsFromRows` with its helpers (lib/generator.js:385-616).
*/
module Obhod {
  import opened Wrappers
  import opened Text
  import opened Calendar
  import opened Phrases
  import opened Tsv
  import opened Lists

  // ===========================================================================
  // Time slots

  /** A slot's identity, `slot.key` ("HH:MM-HH:MM"). */
  function SlotKey(t: TimeRange): string {
    t.key
  }

  /** What slots are ordered by, `slot.fromMinutes`. */
  function SlotStart(t: TimeRange): int {
    t.fromMinutes
  }

  /** `normalizeTimeRange` of every time, in order. */
  function NormalizeAll(times: seq<string>): (rs: seq<Result<TimeRange>>)
    ensures |rs| == |times| && forall i :: 0 <= i < |times| ==> rs[i] == NormalizeTimeRange(times[i])
  {
    seq(|times|, i requires 0 <= i < |times| => NormalizeTimeRange(times[i]))
  }

  /** The slots in the order of their texts: `slots.map((s) => s.timeText)`. */
  function TimeTexts(ts: seq<TimeRange>): (r: seq<string>)
    ensures |r| == |ts| && forall i :: 0 <= i < |ts| ==> r[i] == ts[i].timeText
  {
    seq(|ts|, i requires 0 <= i < |ts| => ts[i].timeText)
  }

  // ===========================================================================
  // formatObhodDateTimeHumanMulti

  const TooManyTimes: string := "Больше двух обходов в день не поддерживается"

  /** The non-empty trimmed times: `(timeRaws || []).map(x => String(x || "").trim()).filter(Boolean)`. */
  function NonEmptyTimes(timeRaws: seq<string>): seq<string> {
    DropEmpty(TrimAll(timeRaws))
  }

  /** The first slot of each key, ordered by start: the `uniq` loop followed by `uniq.sort(...)`. */
  function DistinctSlots(slots: seq<TimeRange>): seq<TimeRange> {
    SortBy(UniqBy(slots, SlotKey), SlotStart)
  }

  /** The distinct slots have distinct keys, ascend by start, come from the input and cover its keys. */
  lemma DistinctSlotsFacts(slots: seq<TimeRange>)
    ensures DistinctBy(DistinctSlots(slots), SlotKey) && SortedBy(DistinctSlots(slots), SlotStart)
    ensures Within(DistinctSlots(slots), slots) && KeysCovered(DistinctSlots(slots), slots, SlotKey)
    ensures slots != [] ==> DistinctSlots(slots) != []
  {
    SortedUniqFacts(slots, SlotKey, SlotStart);
  }

  /** The phrase for a date and its slots: "5 мая с 10:00 до 12:00 и с 14:00 до 16:00". */
  function SlotsPhrase(d: Date, slots: seq<TimeRange>): string
    requires 1 <= d.m <= 12
  {
    FormatDateHuman(d) + " " + Join(TimeTexts(slots), " и ")
  }

  /** What is left of `formatObhodDateTimeHumanMulti` once the date parsed, over the non-empty times. */
  function TimesPhrase(d: Date, times: seq<string>): Result<string>
    requires 1 <= d.m <= 12
  {
    if |times| == 0 then Err("Пустое время")
    else if |times| > 2 then Err(TooManyTimes)
    else ResultsPhrase(d, NormalizeAll(times))
  }

  /** The phrase over the parsed times: the first error, or the distinct slots phrased. */
  function ResultsPhrase(d: Date, rs: seq<Result<TimeRange>>): Result<string>
    requires 1 <= d.m <= 12
  {
    match AllOk(rs)
    case Err(e) => Err(e)
    case Ok(parsed) => Ok(SlotsPhrase(d, DistinctSlots(parsed)))
  }

  /** What `formatObhodDateTimeHumanMulti(dateRaw, timeRaws)` returns. */
  function ObhodDateTime(dateRaw: string, timeRaws: seq<string>): Result<string> {
    match ParseRuDate(dateRaw)
    case Err(e) => Err(e)
    case Ok(d) => TimesPhrase(d, NonEmptyTimes(timeRaws))
  }

  /** The parse loop of `formatObhodDateTimeHumanMulti`: every time parsed in order, or the first error. */
  method ParseTimes(times: seq<string>) returns (r: Result<seq<TimeRange>>)
    ensures r == AllOk(NormalizeAll(times))
  {
    ghost var rs := NormalizeAll(times);
    var parsed: seq<TimeRange> := [];
    var i := 0;
    while i < |times|
      invariant 0 <= i <= |times|
      invariant AllOk(rs[..i]) == Ok(parsed)
    {
      var t := NormalizeTimeRange(times[i]);
      AllOkLast(rs, i, parsed);
      if t.Err? {
        AllOkPrefixError(rs, i + 1);
        return Err(t.error);
      }
      parsed := parsed + [t.value];
      i := i + 1;
    }
    assert rs[..i] == rs;
    return Ok(parsed);
  }

  /** The de-duplication loop: the first slot of each key, in order. */
  method UniqSlots(parsed: seq<TimeRange>) returns (uniq: seq<TimeRange>)
    ensures uniq == UniqBy(parsed, SlotKey)
  {
    uniq := [];
    var j := 0;
    while j < |parsed|
      invariant 0 <= j <= |parsed|
      invariant uniq == UniqBy(parsed[..j], SlotKey)
    {
      assert parsed[..j + 1][..j] == parsed[..j];
      if !HasKey(uniq, parsed[j].key, SlotKey) {
        uniq := uniq + [parsed[j]];
      }
      j := j + 1;
    }
    assert parsed[..j] == parsed;
  }

  /** `formatObhodDateTimeHumanMulti(dateRaw, timeRaws)` (lib/generator.js:386-414). */
  method FormatObhodDateTimeHumanMulti(dateRaw: string, timeRaws: seq<string>) returns (r: Result<string>)
    ensures r == ObhodDateTime(dateRaw, timeRaws)
  {
    var d := ParseRuDate(dateRaw);
    if d.Err? {
      return Err(d.error);
    }
    var times := NonEmptyTimes(timeRaws);
    if |times| == 0 {
      return Err("Пустое время");
    }
    if |times| > 2 {
      return Err(TooManyTimes);
    }
    var parsed := ParseTimes(times);
    if parsed.Err? {
      return Err(parsed.error);
    }
    var uniq := UniqSlots(parsed.value);
    var sorted := SortBy(uniq, SlotStart);
    return Ok(SlotsPhrase(d.value, sorted));
  }

  // ---------------------------------------------------------------------------
  // What the phrase promises

  /**
    The phrase exists exactly when the date parses, one or two non-empty
    times were given, and every one of them parses.
  */
  lemma ObhodDateTimeOkIff(dateRaw: string, timeRaws: seq<string>)
    ensures var times := NonEmptyTimes(timeRaws);
      ObhodDateTime(dateRaw, timeRaws).Ok? <==>
        && ParseRuDate(dateRaw).Ok?
        && 1 <= |times| <= 2
        && forall i :: 0 <= i < |times| ==> NormalizeTimeRange(times[i]).Ok?
  {
    var times := NonEmptyTimes(timeRaws);
    var rs := NormalizeAll(times);
    AllOkValues(rs);
    match ParseRuDate(dateRaw)
    case Err(_) =>
    case Ok(d) =>
      assert ObhodDateTime(dateRaw, timeRaws) == TimesPhrase(d, times);
      TimesPhraseOk(d, times, rs);
  }

  /** The phrase over the times exists exactly when there are one or two and every one parsed. */
  lemma TimesPhraseOk(d: Date, times: seq<string>, rs: seq<Result<TimeRange>>)
    requires 1 <= d.m <= 12 && rs == NormalizeAll(times)
    ensures TimesPhrase(d, times).Ok? <==> 1 <= |times| <= 2 && AllOk(rs).Ok?
  {
    if 1 <= |times| <= 2 {
      ResultsPhraseOk(d, rs);
    }
  }

  /** The phrase over parsed times exists exactly when every time parsed. */
  lemma ResultsPhraseOk(d: Date, rs: seq<Result<TimeRange>>)
    requires 1 <= d.m <= 12
    ensures ResultsPhrase(d, rs).Ok? <==> AllOk(rs).Ok?
  {
  }

  /**
    Times are counted before duplicates are dropped: three copies of one
    valid time are refused, although they name a single slot.
  */
  lemma ThreeCopiesRefused(dateRaw: string, t: string)
    requires ParseRuDate(dateRaw).Ok? && Trim(t) != ""
    ensures ObhodDateTime(dateRaw, [t, t, t]) == Err(TooManyTimes)
  {
    ThreeCopiesKept(t);
    TooManyTimesPhrase(ParseRuDate(dateRaw).value, NonEmptyTimes([t, t, t]));
  }

  lemma ThreeCopiesKept(t: string)
    requires Trim(t) != ""
    ensures |NonEmptyTimes([t, t, t])| == 3
  {
    var xs := [t, t, t];
    var trimmed := TrimAll(xs);
    forall k | 0 <= k < 3
      ensures trimmed[k] != ""
    {
      assert xs[k] == t;
    }
    KeepNonEmpty(trimmed);
  }

  lemma KeepNonEmpty(xs: seq<string>)
    requires forall k :: 0 <= k < |xs| ==> xs[k] != ""
    ensures |DropEmpty(xs)| == |xs|
  {
    DropEmptyOfNonEmpty(xs);
  }

  lemma TooManyTimesPhrase(d: Date, times: seq<string>)
    requires 1 <= d.m <= 12 && |times| > 2
    ensures TimesPhrase(d, times) == Err(TooManyTimes)
  {
  }

  /** Collecting one or two results. */
  lemma AllOkSmall(x: Result<TimeRange>, y: Result<TimeRange>)
    ensures AllOk([x]) == if x.Ok? then Ok([x.value]) else Err(x.error)
    ensures AllOk([x, y]) ==
      if x.Err? then Err(x.error) else if y.Err? then Err(y.error) else Ok([x.value, y.value])
  {
    assert [x][..0] == [];
    assert [x, y][..1] == [x];
    if x.Ok? {
      assert [] + [x.value] == [x.value];
      if y.Ok? {
        assert [x.value] + [y.value] == [x.value, y.value];
      }
    }
  }

  /** Two copies of a parse result phrase as one. */
  lemma ResultsRepeated(d: Date, x: Result<TimeRange>)
    requires 1 <= d.m <= 12
    ensures ResultsPhrase(d, [x, x]) == ResultsPhrase(d, [x])
  {
    AllOkSmall(x, x);
    if x.Ok? {
      var v := x.value;
      assert [v, v][..1] == [v];
      assert [v][..0] == [];
      assert UniqBy([v, v], SlotKey) == UniqBy([v], SlotKey);
    }
  }

  /** Parsing one time. */
  lemma NormalizeOne(s: string)
    ensures NormalizeAll([s]) == [NormalizeTimeRange(s)]
  {
    var r := NormalizeAll([s]);
    assert r == [r[0]];
  }

  /** Parsing two times. */
  lemma NormalizeTwo(s: string, v: string)
    ensures NormalizeAll([s, v]) == [NormalizeTimeRange(s), NormalizeTimeRange(v)]
  {
    var r := NormalizeAll([s, v]);
    assert r == [r[0], r[1]];
  }

  /** Two copies of a time phrase as one. */
  lemma TimesRepeated(d: Date, s: string)
    requires 1 <= d.m <= 12
    ensures TimesPhrase(d, [s, s]) == TimesPhrase(d, [s])
  {
    NormalizeOne(s);
    NormalizeTwo(s, s);
    ResultsRepeated(d, NormalizeTimeRange(s));
  }

  /** The phrase over the non-empty times, once the date is known. */
  lemma ObhodOfTimes(dateRaw: string, timeRaws: seq<string>, times: seq<string>)
    requires NonEmptyTimes(timeRaws) == times
    ensures ObhodDateTime(dateRaw, timeRaws) ==
      match ParseRuDate(dateRaw)
      case Err(e) => Err(e)
      case Ok(d) => TimesPhrase(d, times)
  {
  }

  /** Dropping the empty strings from one or two strings. */
  lemma DropEmptySmall(s: string, v: string)
    ensures DropEmpty([s]) == if s == "" then [] else [s]
    ensures DropEmpty([s, v]) == (if s == "" then [] else [s]) + (if v == "" then [] else [v])
  {
    assert [s, v][1..] == [v];
    assert [s][1..] == [];
    assert [v][1..] == [];
  }

  /** Trimming one raw time. */
  lemma TrimOne(t: string)
    ensures TrimAll([t]) == [Trim(t)]
  {
    var r := TrimAll([t]);
    assert r[0] == Trim(t);
    assert r == [r[0]];
  }

  /** Trimming two raw times. */
  lemma TrimTwo(t: string, u: string)
    ensures TrimAll([t, u]) == [Trim(t), Trim(u)]
  {
    var r := TrimAll([t, u]);
    var s, v := Trim(t), Trim(u);
    assert r[0] == s && r[1] == v;
    assert r == [r[0], r[1]];
  }

  /** The non-empty times of one or two raw times. */
  lemma NonEmptySmall(t: string, u: string)
    ensures NonEmptyTimes([t]) == if Trim(t) == "" then [] else [Trim(t)]
    ensures Trim(t) != "" && Trim(u) != "" ==> NonEmptyTimes([t, u]) == [Trim(t), Trim(u)]
    ensures Trim(t) == "" && Trim(u) == "" ==> NonEmptyTimes([t, u]) == []
  {
    var a, b := Trim(t), Trim(u);
    TrimOne(t);
    TrimTwo(t, u);
    DropEmptySmall(a, b);
    assert NonEmptyTimes([t]) == DropEmpty([a]);
    assert NonEmptyTimes([t, u]) == DropEmpty([a, b]);
  }

  /** A repeated time reads as that time once. */
  lemma RepeatedTimeOnce(dateRaw: string, t: string)
    ensures ObhodDateTime(dateRaw, [t, t]) == ObhodDateTime(dateRaw, [t])
  {
    var s := Trim(t);
    NonEmptySmall(t, t);
    if s != "" {
      ObhodOfTimes(dateRaw, [t, t], [s, s]);
      ObhodOfTimes(dateRaw, [t], [s]);
      if ParseRuDate(dateRaw).Ok? {
        TimesRepeated(ParseRuDate(dateRaw).value, s);
      }
    } else {
      ObhodOfTimes(dateRaw, [t, t], []);
      ObhodOfTimes(dateRaw, [t], []);
    }
  }

  /** Two slots with different keys are both kept, in order. */
  lemma UniqTwo(x: TimeRange, y: TimeRange)
    requires x.key != y.key
    ensures UniqBy([x, y], SlotKey) == [x, y]
  {
    assert [x, y][..1] == [x];
    assert UniqBy([x], SlotKey) == [x] by {
      assert [x][..0] == [];
    }
    assert !HasKey([x], SlotKey(y), SlotKey) by {
      assert [x][..0] == [];
    }
  }

  /** Two slots sorted by start. */
  lemma SortTwo(x: TimeRange, y: TimeRange)
    ensures SortBy([x, y], SlotStart) == if x.fromMinutes <= y.fromMinutes then [x, y] else [y, x]
  {
    assert [x, y][1..] == [y];
    assert SortBy([y], SlotStart) == [y] by {
      assert [y][1..] == [];
    }
    assert [y][1..] == [];
  }

  /** Two slots with different keys and starts give the same distinct slots in either order. */
  lemma DistinctSlotsSwap(x: TimeRange, y: TimeRange)
    requires x.key != y.key && x.fromMinutes != y.fromMinutes
    ensures DistinctSlots([x, y]) == DistinctSlots([y, x])
  {
    UniqTwo(x, y);
    UniqTwo(y, x);
    SortTwo(x, y);
    SortTwo(y, x);
  }

  /** Two parsed slots with different keys and starts phrase the same in either order. */
  lemma ResultsSwapped(d: Date, x: TimeRange, y: TimeRange)
    requires 1 <= d.m <= 12 && x.key != y.key && x.fromMinutes != y.fromMinutes
    ensures ResultsPhrase(d, [Ok(x), Ok(y)]) == ResultsPhrase(d, [Ok(y), Ok(x)])
  {
    AllOkSmall(Ok(x), Ok(y));
    AllOkSmall(Ok(y), Ok(x));
    DistinctSlotsSwap(x, y);
  }

  /** Two valid times with different starts phrase the same in either order. */
  lemma TimesSwapped(d: Date, a: string, b: string)
    requires 1 <= d.m <= 12
    requires NormalizeTimeRange(a).Ok? && NormalizeTimeRange(b).Ok?
    requires NormalizeTimeRange(a).value.fromMinutes != NormalizeTimeRange(b).value.fromMinutes
    ensures TimesPhrase(d, [a, b]) == TimesPhrase(d, [b, a])
  {
    var x := NormalizeTimeRange(a).value;
    var y := NormalizeTimeRange(b).value;
    assert x.key != y.key by {
      KeyIffSameMinutes(x, y);
    }
    NormalizeTwo(a, b);
    NormalizeTwo(b, a);
    ResultsSwapped(d, x, y);
  }

  /** Two valid times with different starts read the same in either order. */
  lemma TimeOrderIrrelevant(dateRaw: string, a: string, b: string)
    requires Trim(a) != "" && Trim(b) != ""
    requires NormalizeTimeRange(Trim(a)).Ok? && NormalizeTimeRange(Trim(b)).Ok?
    requires NormalizeTimeRange(Trim(a)).value.fromMinutes != NormalizeTimeRange(Trim(b)).value.fromMinutes
    ensures ObhodDateTime(dateRaw, [a, b]) == ObhodDateTime(dateRaw, [b, a])
  {
    var sa, sb := Trim(a), Trim(b);
    NonEmptySmall(a, b);
    NonEmptySmall(b, a);
    ObhodOfTimes(dateRaw, [a, b], [sa, sb]);
    ObhodOfTimes(dateRaw, [b, a], [sb, sa]);
    if ParseRuDate(dateRaw).Ok? {
      TimesSwapped(ParseRuDate(dateRaw).value, sa, sb);
    }
  }
}
