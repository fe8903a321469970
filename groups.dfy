/**
  `buildGroups(rows, eventType, scenarioKey, placeOverrides)`: picket and
  meeting rows grouped by (event type, scenario, trimmed address, time key),
  with the dates of each group sorted and de-duplicated
  (lib/generator.js:227-291).
*/
module Grouping {
  import opened Wrappers
  import opened Text
  import opened Calendar
  import opened Tsv

  /** What a row that passes the checks contributes: its trimmed address, time range and date. */
  datatype Accepted = Accepted(address: string, time: TimeRange, date: Date)

  /** The checks of one row, in the source's order: time, then date, then address. */
  function Classify(r: Row): (c: Result<Accepted>)
    ensures c.Ok? ==> ValidTimeRange(c.value.time) && ValidDate(c.value.date) && c.value.address != ""
  {
    match NormalizeTimeRange(r.timeRaw)
    case Err(e) => Err(e)
    case Ok(t) =>
      match ParseRuDate(r.dateRaw)
      case Err(e) => Err(e)
      case Ok(d) =>
        var address := Trim(r.address);
        if address == "" then Err("Пустой адрес") else Ok(Accepted(address, t, d))
  }

  /** `${eventType}|${scenarioKey}|${address}|${t.key}` */
  function GroupKey(eventType: string, scenarioKey: string, address: string, timeKey: string): string {
    eventType + "|" + scenarioKey + "|" + address + "|" + timeKey
  }

  /** The key a row is grouped under, if it passed the checks (`verdict` is its `Classify`). */
  function KeyOf(verdict: Result<Accepted>, eventType: string, scenarioKey: string): Option<string> {
    match verdict
    case Err(_) => None
    case Ok(a) => Some(GroupKey(eventType, scenarioKey, a.address, a.time.key))
  }

  /** A group: the fields copied from the row that created it, and every date and row added to it. */
  datatype Group = Group(
    key: string,
    eventType: string,
    scenarioKey: string,
    address: string,
    time: TimeRange,
    dates: seq<Date>,
    placeOriginal: string,
    placeFinal: string,
    topicRaw: string,
    okrugRow: string,
    raionRaw: string,
    meetingTypeRaw: string,
    linkRaw: string,
    sourceRows: seq<Row>)

  /** `{ groups, rowErrors }` */
  datatype Grouped = Grouped(groups: seq<Group>, rowErrors: seq<RowError>)

  /**
    The group the first row with a key creates. `overrides` maps a row number
    to the `place_final` of `placeOverrides[rowNum]` where that is neither
    null nor undefined.
  */
  function NewGroup(key: string, eventType: string, scenarioKey: string, r: Row, address: string, time: TimeRange,
                    overrides: map<nat, string>): Group
  {
    var placeOriginal := r.placeRaw.GetOr("");
    Group(key, eventType, scenarioKey, address, time, [], placeOriginal,
      if r.rowNum in overrides then overrides[r.rowNum] else placeOriginal,
      r.topicRaw.GetOr(""), r.okrugRow, r.raionRaw.GetOr(""), r.meetingTypeRaw.GetOr(""),
      r.linkRaw.GetOr(""), [])
  }

  /** `g.dates.push(date); g.sourceRows.push(r)` */
  function Extend(g: Group, r: Row, d: Date): Group {
    g.(dates := g.dates + [d], sourceRows := g.sourceRows + [r])
  }

  /** Where `groupsMap` holds `key`, as a position in insertion order. */
  function FindKey(groups: seq<Group>, key: string): (i: Option<nat>)
    ensures i.Some? ==> i.value < |groups| && groups[i.value].key == key
    ensures i.None? ==> forall j :: 0 <= j < |groups| ==> groups[j].key != key
  {
    if groups == [] then None
    else if groups[0].key == key then Some(0)
    else match FindKey(groups[1..], key)
      case None => None
      case Some(j) => Some(j + 1)
  }

  /**
    One turn of the first loop, for row `r` whose checks gave `verdict`: a
    rejected row is reported, an accepted one joins its group.
  */
  function AddRow(s: Grouped, r: Row, verdict: Result<Accepted>, eventType: string, scenarioKey: string,
                  overrides: map<nat, string>): Grouped
  {
    match verdict
    case Err(e) => Grouped(s.groups, s.rowErrors + [RowError(r.rowNum, e)])
    case Ok(a) => AddAccepted(s, r, a, eventType, scenarioKey, overrides)
  }

  /** An accepted row joins the group of its key, which is created first if it is new. */
  function AddAccepted(s: Grouped, r: Row, a: Accepted, eventType: string, scenarioKey: string,
                       overrides: map<nat, string>): Grouped
  {
    var key := GroupKey(eventType, scenarioKey, a.address, a.time.key);
    match FindKey(s.groups, key)
    case Some(i) => Grouped(s.groups[i := Extend(s.groups[i], r, a.date)], s.rowErrors)
    case None =>
      var gs := s.groups + [NewGroup(key, eventType, scenarioKey, r, a.address, a.time, overrides)];
      Grouped(gs[|gs| - 1 := Extend(gs[|gs| - 1], r, a.date)], s.rowErrors)
  }

  /**
    The groups (in insertion order) and the rejected rows after the first
    loop, over rows whose checks gave `verdicts`.
  */
  function Gather(rows: seq<Row>, verdicts: seq<Result<Accepted>>, eventType: string, scenarioKey: string,
                  overrides: map<nat, string>): Grouped
    requires |verdicts| == |rows|
    decreases |rows|
  {
    if rows == [] then Grouped([], [])
    else
      var n := |rows| - 1;
      AddRow(Gather(rows[..n], verdicts[..n], eventType, scenarioKey, overrides), rows[n], verdicts[n],
             eventType, scenarioKey, overrides)
  }

  /** The checks of every row, in order. */
  function Verdicts(rows: seq<Row>): (vs: seq<Result<Accepted>>)
    ensures |vs| == |rows|
    decreases |rows|
  {
    if rows == [] then [] else Verdicts(rows[..|rows| - 1]) + [Classify(rows[|rows| - 1])]
  }

  /** The three checks of `Classify`, one after another. */
  lemma ClassifySteps(r: Row)
    ensures var t := NormalizeTimeRange(r.timeRaw);
      var d := ParseRuDate(r.dateRaw);
      Classify(r) ==
        if t.Err? then Err(t.error)
        else if d.Err? then Err(d.error)
        else if Trim(r.address) == "" then Err("Пустой адрес")
        else Ok(Accepted(Trim(r.address), t.value, d.value))
  {
  }

  /** The last row is added to what the others gathered. */
  lemma GatherLast(rows: seq<Row>, verdicts: seq<Result<Accepted>>, eventType: string, scenarioKey: string,
                   overrides: map<nat, string>)
    requires |verdicts| == |rows| && rows != []
    ensures var n := |rows| - 1;
      Gather(rows, verdicts, eventType, scenarioKey, overrides) ==
      AddRow(Gather(rows[..n], verdicts[..n], eventType, scenarioKey, overrides), rows[n], verdicts[n],
             eventType, scenarioKey, overrides)
  {
  }

  /** The verdicts of all rows are those of all but the last, then the last row's. */
  lemma VerdictsLast(rows: seq<Row>, n: nat)
    requires n < |rows|
    ensures Verdicts(rows[..n + 1]) == Verdicts(rows[..n]) + [Classify(rows[n])]
  {
    assert rows[..n + 1][..n] == rows[..n];
  }

  // ---------------------------------------------------------------------------
  // Sorting and de-duplicating dates

  /** `x` placed before the first date that is not earlier. */
  function Insert(x: Date, ds: seq<Date>): (r: seq<Date>)
    ensures |r| == |ds| + 1 && multiset(r) == multiset(ds) + multiset{x}
  {
    if ds == [] || x.ts <= ds[0].ts then [x] + ds
    else
      assert ds == [ds[0]] + ds[1..];
      [ds[0]] + Insert(x, ds[1..])
  }

  /** The dates in ascending `ts` order (the result of `g.dates.sort((a, b) => a.ts - b.ts)`). */
  function SortByTs(ds: seq<Date>): (r: seq<Date>)
    ensures |r| == |ds| && multiset(r) == multiset(ds)
  {
    if ds == [] then []
    else
      assert ds == [ds[0]] + ds[1..];
      Insert(ds[0], SortByTs(ds[1..]))
  }

  predicate Ascending(ds: seq<Date>) {
    forall i, j :: 0 <= i < j < |ds| ==> ds[i].ts <= ds[j].ts
  }

  predicate StrictlyAscending(ds: seq<Date>) {
    forall i, j :: 0 <= i < j < |ds| ==> ds[i].ts < ds[j].ts
  }

  /** The second loop's `uniq`: a date is kept unless the last kept one has its `ts`. */
  function UniqueByTs(ds: seq<Date>): seq<Date>
    decreases |ds|
  {
    if ds == [] then []
    else
      var u := UniqueByTs(ds[..|ds| - 1]);
      if u == [] || u[|u| - 1].ts != ds[|ds| - 1].ts then u + [ds[|ds| - 1]] else u
  }

  /** A group with its dates sorted and de-duplicated. */
  function Finalize(g: Group): Group {
    g.(dates := UniqueByTs(SortByTs(g.dates)))
  }

  function FinalizeAll(gs: seq<Group>): (r: seq<Group>)
    ensures |r| == |gs|
    decreases |gs|
  {
    if gs == [] then [] else FinalizeAll(gs[..|gs| - 1]) + [Finalize(gs[|gs| - 1])]
  }

  /** What `buildGroups` returns. */
  function BuildGroupsSpec(rows: seq<Row>, eventType: string, scenarioKey: string,
                           overrides: map<nat, string>): Grouped
  {
    var s := Gather(rows, Verdicts(rows), eventType, scenarioKey, overrides);
    Grouped(FinalizeAll(s.groups), s.rowErrors)
  }

  // ---------------------------------------------------------------------------
  // The procedure

  /** The de-duplicating loop over sorted dates. */
  method UniqueDates(ds: seq<Date>) returns (uniq: seq<Date>)
    ensures uniq == UniqueByTs(ds)
  {
    uniq := [];
    var i := 0;
    while i < |ds|
      invariant 0 <= i <= |ds|
      invariant uniq == UniqueByTs(ds[..i])
    {
      assert ds[..i + 1][..i] == ds[..i];
      var x := ds[i];
      if uniq == [] || uniq[|uniq| - 1].ts != x.ts {
        uniq := uniq + [x];
      }
      i := i + 1;
    }
    assert ds[..i] == ds;
  }

  /** `buildGroups(rows, eventType, scenarioKey, placeOverrides)` (lib/generator.js:227-291). */
  method BuildGroups(rows: seq<Row>, eventType: string, scenarioKey: string, overrides: map<nat, string>)
    returns (groups: seq<Group>, rowErrors: seq<RowError>)
    ensures Grouped(groups, rowErrors) == BuildGroupsSpec(rows, eventType, scenarioKey, overrides)
  {
    var gathered := GatherRows(rows, eventType, scenarioKey, overrides);
    rowErrors := gathered.rowErrors;
    groups := FinalizeGroups(gathered.groups);
  }

  /** The first loop of `buildGroups`: fill `groupsMap` and `rowErrors`. */
  method GatherRows(rows: seq<Row>, eventType: string, scenarioKey: string, overrides: map<nat, string>)
    returns (s: Grouped)
    ensures s == Gather(rows, Verdicts(rows), eventType, scenarioKey, overrides)
  {
    s := Grouped([], []);
    var i := 0;
    while i < |rows|
      invariant 0 <= i <= |rows|
      invariant s == Gather(rows[..i], Verdicts(rows[..i]), eventType, scenarioKey, overrides)
    {
      var s' := GatherRow(s, rows[i], eventType, scenarioKey, overrides);
      GatherStep(rows, i, s, s', eventType, scenarioKey, overrides);
      s := s';
      i := i + 1;
    }
    assert rows[..i] == rows;
  }

  /** One more row gathered. */
  lemma GatherStep(rows: seq<Row>, i: nat, s: Grouped, s': Grouped, eventType: string, scenarioKey: string,
                   overrides: map<nat, string>)
    requires i < |rows|
    requires s == Gather(rows[..i], Verdicts(rows[..i]), eventType, scenarioKey, overrides)
    requires s' == AddRow(s, rows[i], Classify(rows[i]), eventType, scenarioKey, overrides)
    ensures s' == Gather(rows[..i + 1], Verdicts(rows[..i + 1]), eventType, scenarioKey, overrides)
  {
    VerdictsLast(rows, i);
    GatherLast(rows[..i + 1], Verdicts(rows[..i + 1]), eventType, scenarioKey, overrides);
    assert rows[..i + 1][..i] == rows[..i];
    assert Verdicts(rows[..i + 1])[..i] == Verdicts(rows[..i]);
  }

  /** The body of the first loop for one row `r`, on the groups and errors so far. */
  method GatherRow(s: Grouped, r: Row, eventType: string, scenarioKey: string, overrides: map<nat, string>)
    returns (s': Grouped)
    ensures s' == AddRow(s, r, Classify(r), eventType, scenarioKey, overrides)
  {
    ClassifySteps(r);
    var t := NormalizeTimeRange(r.timeRaw);
    if t.Err? {
      return Grouped(s.groups, s.rowErrors + [RowError(r.rowNum, t.error)]);
    }
    var d := ParseRuDate(r.dateRaw);
    if d.Err? {
      return Grouped(s.groups, s.rowErrors + [RowError(r.rowNum, d.error)]);
    }
    var address := Trim(r.address);
    if address == "" {
      return Grouped(s.groups, s.rowErrors + [RowError(r.rowNum, "Пустой адрес")]);
    }
    s' := JoinGroup(s, r, Accepted(address, t.value, d.value), eventType, scenarioKey, overrides);
  }

  /** `groupsMap.has(key)` / `set` / `get`, then the pushes onto the group. */
  method JoinGroup(s: Grouped, r: Row, a: Accepted, eventType: string, scenarioKey: string,
                   overrides: map<nat, string>)
    returns (s': Grouped)
    ensures s' == AddAccepted(s, r, a, eventType, scenarioKey, overrides)
  {
    var key := GroupKey(eventType, scenarioKey, a.address, a.time.key);
    var groups := s.groups;
    var found := FindKey(groups, key);
    if found.None? {
      groups := groups + [NewGroup(key, eventType, scenarioKey, r, a.address, a.time, overrides)];
      found := Some(|groups| - 1);
    }
    var g := groups[found.value];
    groups := groups[found.value := Extend(g, r, a.date)];
    s' := Grouped(groups, s.rowErrors);
  }

  /** The `map` over `groupsMap`'s values: sort each group's dates, then drop repeated days. */
  method FinalizeGroups(gathered: seq<Group>) returns (groups: seq<Group>)
    ensures groups == FinalizeAll(gathered)
  {
    groups := [];
    var j := 0;
    while j < |gathered|
      invariant 0 <= j <= |gathered|
      invariant groups == FinalizeAll(gathered[..j])
    {
      assert gathered[..j + 1][..j] == gathered[..j];
      var g := gathered[j];
      var sorted := SortByTs(g.dates);
      var uniq := UniqueDates(sorted);
      groups := groups + [g.(dates := uniq)];
      j := j + 1;
    }
    assert gathered[..j] == gathered;
  }

  // ---------------------------------------------------------------------------
  // Reference definitions over the input rows and their verdicts

  /** The rejected rows, in input order, each with its row number and the failing check's message. */
  function Rejected(rows: seq<Row>, verdicts: seq<Result<Accepted>>): seq<RowError>
    requires |verdicts| == |rows|
    decreases |rows|
  {
    if rows == [] then []
    else
      var n := |rows| - 1;
      Rejected(rows[..n], verdicts[..n]) +
        (if verdicts[n].Err? then [RowError(rows[n].rowNum, verdicts[n].error)] else [])
  }

  /** The key of every row (`None` for a rejected one). */
  function Keys(verdicts: seq<Result<Accepted>>, eventType: string, scenarioKey: string): (ks: seq<Option<string>>)
    ensures |ks| == |verdicts|
    decreases |verdicts|
  {
    if verdicts == [] then []
    else
      var n := |verdicts| - 1;
      Keys(verdicts[..n], eventType, scenarioKey) + [KeyOf(verdicts[n], eventType, scenarioKey)]
  }

  /** The keys of all rows but the last are the keys of the shorter list. */
  lemma KeysPrefix(verdicts: seq<Result<Accepted>>, eventType: string, scenarioKey: string)
    requires verdicts != []
    ensures var n := |verdicts| - 1; var ks := Keys(verdicts, eventType, scenarioKey);
      ks[..n] == Keys(verdicts[..n], eventType, scenarioKey) && ks[n] == KeyOf(verdicts[n], eventType, scenarioKey)
  {
    var n := |verdicts| - 1;
    var prev := Keys(verdicts[..n], eventType, scenarioKey);
    assert Keys(verdicts, eventType, scenarioKey) == prev + [KeyOf(verdicts[n], eventType, scenarioKey)];
    assert (prev + [KeyOf(verdicts[n], eventType, scenarioKey)])[..n] == prev;
  }

  /** The distinct keys present, in order of first occurrence. */
  function FirstOf(ks: seq<Option<string>>): seq<string>
    decreases |ks|
  {
    if ks == [] then [] else NoteKey(FirstOf(ks[..|ks| - 1]), ks[|ks| - 1])
  }

  /** A key not seen before is appended. */
  function NoteKey(firsts: seq<string>, k: Option<string>): seq<string> {
    match k
    case None => firsts
    case Some(k) => if k in firsts then firsts else firsts + [k]
  }

  /** The entries of `items` whose key is `key`, in order. */
  function Select<T>(items: seq<T>, ks: seq<Option<string>>, key: string): seq<T>
    requires |items| == |ks|
    decreases |ks|
  {
    if ks == [] then []
    else
      Select(items[..|items| - 1], ks[..|ks| - 1], key) +
        (if ks[|ks| - 1] == Some(key) then [items[|items| - 1]] else [])
  }

  /** The dates of the accepted verdicts, in order. */
  function DatesOf(verdicts: seq<Result<Accepted>>): seq<Date>
    decreases |verdicts|
  {
    if verdicts == [] then []
    else
      var n := |verdicts| - 1;
      DatesOf(verdicts[..n]) + (match verdicts[n] case Ok(a) => [a.date] case Err(_) => [])
  }

  /** The number of rows held by the groups. */
  function TotalRows(gs: seq<Group>): nat
    decreases |gs|
  {
    if gs == [] then 0 else TotalRows(gs[..|gs| - 1]) + |gs[|gs| - 1].sourceRows|
  }

  predicate Distinct(xs: seq<string>) {
    forall i, j :: 0 <= i < j < |xs| ==> xs[i] != xs[j]
  }

  /** The groups' keys, in order, are `firsts`. */
  predicate KeysAre(gs: seq<Group>, firsts: seq<string>) {
    |gs| == |firsts| && forall i :: 0 <= i < |gs| ==> gs[i].key == firsts[i]
  }

  /**
    A group holds exactly the rows with its key, in input order, and their
    dates; its address and time are those of its first row.
  */
  predicate GroupMembers(g: Group, rows: seq<Row>, verdicts: seq<Result<Accepted>>, ks: seq<Option<string>>)
    requires |rows| == |ks| && |verdicts| == |ks|
  {
    var sel := Select(verdicts, ks, g.key);
    && g.sourceRows == Select(rows, ks, g.key)
    && g.dates == DatesOf(sel)
    && sel != [] && sel[0].Ok? && sel[0].value.address == g.address && sel[0].value.time == g.time
  }

  predicate MembersAre(gs: seq<Group>, rows: seq<Row>, verdicts: seq<Result<Accepted>>, ks: seq<Option<string>>)
    requires |rows| == |ks| && |verdicts| == |ks|
  {
    forall i :: 0 <= i < |gs| ==> GroupMembers(gs[i], rows, verdicts, ks)
  }

  /**
    A group whose key is made of its own address and time, and whose other
    copied fields are those `NewGroup` takes from its first source row under
    the given overrides.
  */
  predicate HeadedBy(g: Group, eventType: string, scenarioKey: string, overrides: map<nat, string>) {
    && g.sourceRows != []
    && g.key == GroupKey(eventType, scenarioKey, g.address, g.time.key)
    && g.(dates := [], sourceRows := []) ==
       NewGroup(g.key, eventType, scenarioKey, g.sourceRows[0], g.address, g.time, overrides)
  }

  predicate AllHeaded(gs: seq<Group>, eventType: string, scenarioKey: string, overrides: map<nat, string>) {
    forall i :: 0 <= i < |gs| ==> HeadedBy(gs[i], eventType, scenarioKey, overrides)
  }

  // ---------------------------------------------------------------------------
  // Small facts about the reference definitions

  /** The keys of all verdicts but the last, and the last one's key. */
  lemma KeysLast(verdicts: seq<Result<Accepted>>, v: Result<Accepted>, eventType: string, scenarioKey: string)
    ensures Keys(verdicts + [v], eventType, scenarioKey) == Keys(verdicts, eventType, scenarioKey) + [KeyOf(v, eventType, scenarioKey)]
  {
    assert (verdicts + [v])[..|verdicts|] == verdicts;
  }

  /** The first-occurrence keys grow by the last key, if new. */
  lemma FirstOfLast(ks: seq<Option<string>>, k: Option<string>)
    ensures FirstOf(ks + [k]) == NoteKey(FirstOf(ks), k)
  {
    assert (ks + [k])[..|ks|] == ks;
  }

  /** The entries selected from `items` with one more entry appended. */
  lemma SelectLast<T>(items: seq<T>, ks: seq<Option<string>>, x: T, kx: Option<string>, k: string)
    requires |items| == |ks|
    ensures Select(items + [x], ks + [kx], k) == Select(items, ks, k) + (if kx == Some(k) then [x] else [])
  {
    assert (items + [x])[..|items|] == items;
    assert (ks + [kx])[..|ks|] == ks;
  }

  lemma DatesOfLast(verdicts: seq<Result<Accepted>>, a: Accepted)
    ensures DatesOf(verdicts + [Ok(a)]) == DatesOf(verdicts) + [a.date]
  {
    assert (verdicts + [Ok(a)])[..|verdicts|] == verdicts;
  }

  /** The first-occurrence keys are distinct. */
  lemma {:induction false} FirstOfDistinct(ks: seq<Option<string>>)
    ensures Distinct(FirstOf(ks))
    decreases |ks|
  {
    if ks != [] {
      var fs0 := FirstOf(ks[..|ks| - 1]);
      FirstOfDistinct(ks[..|ks| - 1]);
      var fs := FirstOf(ks);
      assert fs == NoteKey(fs0, ks[|ks| - 1]);
      if ks[|ks| - 1].Some? && ks[|ks| - 1].value !in fs0 {
        var k := ks[|ks| - 1].value;
        assert fs == fs0 + [k];
        forall i, j | 0 <= i < j < |fs| ensures fs[i] != fs[j] {
          assert fs[i] == fs0[i];
          if j < |fs0| {
            assert fs[j] == fs0[j];
          } else {
            assert fs[j] == k && fs0[i] in fs0;
          }
        }
      } else {
        assert fs == fs0;
      }
    }
  }

  /** A key is among the first-occurrence keys exactly when some entry has it. */
  lemma {:induction false} FirstOfIff(ks: seq<Option<string>>, k: string)
    ensures k in FirstOf(ks) <==> Some(k) in ks
    decreases |ks|
  {
    if ks != [] {
      var init := ks[..|ks| - 1];
      FirstOfIff(init, k);
      assert ks == init + [ks[|ks| - 1]];
      assert FirstOf(ks) == NoteKey(FirstOf(init), ks[|ks| - 1]);
    }
  }

  /** No entry has a key that is not present. */
  lemma {:induction false} SelectAbsent<T>(items: seq<T>, ks: seq<Option<string>>, k: string)
    requires |items| == |ks| && Some(k) !in ks
    ensures Select(items, ks, k) == []
    decreases |ks|
  {
    if ks != [] {
      assert ks[..|ks| - 1] + [ks[|ks| - 1]] == ks;
      SelectAbsent(items[..|items| - 1], ks[..|ks| - 1], k);
    }
  }

  // ---------------------------------------------------------------------------
  // Properties of the first loop

  /** The rejected rows are reported in input order, each with its number and the first failing check's message. */
  lemma {:induction false} GatherErrors(rows: seq<Row>, verdicts: seq<Result<Accepted>>, eventType: string,
                                        scenarioKey: string, overrides: map<nat, string>)
    requires |verdicts| == |rows|
    ensures Gather(rows, verdicts, eventType, scenarioKey, overrides).rowErrors == Rejected(rows, verdicts)
    decreases |rows|
  {
    if rows != [] {
      var n := |rows| - 1;
      GatherErrors(rows[..n], verdicts[..n], eventType, scenarioKey, overrides);
      GatherLast(rows, verdicts, eventType, scenarioKey, overrides);
    }
  }

  /** One accepted row keeps the groups' keys equal to the first-occurrence keys. */
  lemma AddAcceptedKeys(s: Grouped, r: Row, a: Accepted, eventType: string, scenarioKey: string,
                        overrides: map<nat, string>, firsts: seq<string>)
    requires KeysAre(s.groups, firsts)
    ensures KeysAre(AddAccepted(s, r, a, eventType, scenarioKey, overrides).groups,
                    NoteKey(firsts, Some(GroupKey(eventType, scenarioKey, a.address, a.time.key))))
  {
    var k := GroupKey(eventType, scenarioKey, a.address, a.time.key);
    var gs := AddAccepted(s, r, a, eventType, scenarioKey, overrides).groups;
    match FindKey(s.groups, k)
    case Some(i) =>
      assert k in firsts by { assert firsts[i] == k; }
      forall j | 0 <= j < |gs| ensures gs[j].key == firsts[j] {
        if j == i {
          assert gs[j] == Extend(s.groups[i], r, a.date);
        }
      }
    case None =>
      forall j | 0 <= j < |firsts| ensures firsts[j] != k {
        assert s.groups[j].key == firsts[j];
      }
  }

  /** Groups appear in the order their keys first occur, one group per key. */
  lemma {:induction false} GatherKeys(rows: seq<Row>, verdicts: seq<Result<Accepted>>, eventType: string,
                                      scenarioKey: string, overrides: map<nat, string>)
    requires |verdicts| == |rows|
    ensures KeysAre(Gather(rows, verdicts, eventType, scenarioKey, overrides).groups,
                    FirstOf(Keys(verdicts, eventType, scenarioKey)))
    decreases |rows|
  {
    if rows != [] {
      var n := |rows| - 1;
      var s := Gather(rows[..n], verdicts[..n], eventType, scenarioKey, overrides);
      var ks := Keys(verdicts[..n], eventType, scenarioKey);
      GatherKeys(rows[..n], verdicts[..n], eventType, scenarioKey, overrides);
      GatherLast(rows, verdicts, eventType, scenarioKey, overrides);
      assert verdicts[..n] + [verdicts[n]] == verdicts;
      KeysLast(verdicts[..n], verdicts[n], eventType, scenarioKey);
      FirstOfLast(ks, KeyOf(verdicts[n], eventType, scenarioKey));
      if verdicts[n].Ok? {
        AddAcceptedKeys(s, rows[n], verdicts[n].value, eventType, scenarioKey, overrides, FirstOf(ks));
      }
    }
  }

  /** The last row joins the group of its key and leaves the others as they were. */
  lemma ExistingMember(g: Group, rows: seq<Row>, verdicts: seq<Result<Accepted>>, ks: seq<Option<string>>)
    requires |rows| == |ks| && |verdicts| == |ks| && ks != []
    requires var n := |ks| - 1; GroupMembers(g, rows[..n], verdicts[..n], ks[..n])
    requires ks[|ks| - 1] == Some(g.key) ==> verdicts[|ks| - 1].Ok?
    ensures var n := |ks| - 1;
      GroupMembers(if ks[n] == Some(g.key) then Extend(g, rows[n], verdicts[n].value.date) else g, rows, verdicts, ks)
  {
    var n := |ks| - 1;
    var sel := Select(verdicts[..n], ks[..n], g.key);
    if ks[n] == Some(g.key) {
      DatesOfLast(sel, verdicts[n].value);
      assert (sel + [verdicts[n]])[0] == sel[0];
    } else {
      assert sel + [] == sel;
    }
  }

  /** The group the last row creates for a key no earlier row has holds that row alone. */
  lemma FreshMember(rows: seq<Row>, verdicts: seq<Result<Accepted>>, ks: seq<Option<string>>, a: Accepted,
                    eventType: string, scenarioKey: string, overrides: map<nat, string>)
    requires |rows| == |ks| && |verdicts| == |ks| && ks != []
    requires var n := |ks| - 1; var k := GroupKey(eventType, scenarioKey, a.address, a.time.key);
      verdicts[n] == Ok(a) && ks[n] == Some(k) && Some(k) !in ks[..n]
    ensures var n := |ks| - 1; var k := GroupKey(eventType, scenarioKey, a.address, a.time.key);
      GroupMembers(Extend(NewGroup(k, eventType, scenarioKey, rows[n], a.address, a.time, overrides), rows[n], a.date),
                   rows, verdicts, ks)
  {
    var n := |ks| - 1;
    var k := GroupKey(eventType, scenarioKey, a.address, a.time.key);
    SelectAbsent(rows[..n], ks[..n], k);
    SelectAbsent(verdicts[..n], ks[..n], k);
    DatesOfLast([], a);
    assert [] + [Ok(a)] == [Ok(a)];
  }

  /** The last row, accepted or not, keeps every group holding exactly the rows with its key. */
  lemma AddRowMembers(s: Grouped, rows: seq<Row>, verdicts: seq<Result<Accepted>>, eventType: string,
                      scenarioKey: string, overrides: map<nat, string>)
    requires |verdicts| == |rows| && rows != []
    requires var n := |rows| - 1; var ks := Keys(verdicts[..n], eventType, scenarioKey);
      KeysAre(s.groups, FirstOf(ks)) && Distinct(FirstOf(ks)) && MembersAre(s.groups, rows[..n], verdicts[..n], ks)
    ensures var n := |rows| - 1;
      MembersAre(AddRow(s, rows[n], verdicts[n], eventType, scenarioKey, overrides).groups,
                 rows, verdicts, Keys(verdicts, eventType, scenarioKey))
  {
    var n := |rows| - 1;
    var ks := Keys(verdicts, eventType, scenarioKey);
    KeysPrefix(verdicts, eventType, scenarioKey);
    match verdicts[n]
    case Err(e) =>
      RejectedMembers(s.groups, rows, verdicts, ks);
    case Ok(a) =>
      AcceptedMembers(s, rows, verdicts, ks, a, eventType, scenarioKey, overrides);
  }

  /** A rejected last row changes no group. */
  lemma RejectedMembers(gs: seq<Group>, rows: seq<Row>, verdicts: seq<Result<Accepted>>, ks: seq<Option<string>>)
    requires |rows| == |ks| && |verdicts| == |ks| && ks != []
    requires var n := |ks| - 1; MembersAre(gs, rows[..n], verdicts[..n], ks[..n]) && ks[n] == None
    ensures MembersAre(gs, rows, verdicts, ks)
  {
    forall j | 0 <= j < |gs| ensures GroupMembers(gs[j], rows, verdicts, ks) {
      ExistingMember(gs[j], rows, verdicts, ks);
    }
  }

  /** An accepted last row joins the group of its key, created first when new. */
  lemma AcceptedMembers(s: Grouped, rows: seq<Row>, verdicts: seq<Result<Accepted>>, ks: seq<Option<string>>,
                        a: Accepted, eventType: string, scenarioKey: string, overrides: map<nat, string>)
    requires |rows| == |ks| && |verdicts| == |ks| && ks != []
    requires var n := |ks| - 1;
      && KeysAre(s.groups, FirstOf(ks[..n])) && Distinct(FirstOf(ks[..n]))
      && MembersAre(s.groups, rows[..n], verdicts[..n], ks[..n])
      && verdicts[n] == Ok(a) && ks[n] == Some(GroupKey(eventType, scenarioKey, a.address, a.time.key))
    ensures var n := |ks| - 1;
      MembersAre(AddAccepted(s, rows[n], a, eventType, scenarioKey, overrides).groups, rows, verdicts, ks)
  {
    var n := |ks| - 1;
    var k := GroupKey(eventType, scenarioKey, a.address, a.time.key);
    match FindKey(s.groups, k)
    case Some(i) =>
      JoinedMembers(s.groups, i, rows, verdicts, ks, a);
    case None =>
      UnseenKey(s.groups, ks[..n], k);
      CreatedMembers(s.groups, rows, verdicts, ks, a, eventType, scenarioKey, overrides);
  }

  /** A key no group has is the key of no row so far. */
  lemma UnseenKey(gs: seq<Group>, ks: seq<Option<string>>, k: string)
    requires KeysAre(gs, FirstOf(ks)) && FindKey(gs, k).None?
    ensures Some(k) !in ks
  {
    FirstOfIff(ks, k);
    forall j | 0 <= j < |FirstOf(ks)| ensures FirstOf(ks)[j] != k {
      assert gs[j].key == FirstOf(ks)[j];
    }
  }

  /** The last row joining group `i`, whose key no other group has. */
  lemma JoinedMembers(gs: seq<Group>, i: nat, rows: seq<Row>, verdicts: seq<Result<Accepted>>,
                      ks: seq<Option<string>>, a: Accepted)
    requires |rows| == |ks| && |verdicts| == |ks| && ks != []
    requires var n := |ks| - 1;
      && KeysAre(gs, FirstOf(ks[..n])) && Distinct(FirstOf(ks[..n]))
      && MembersAre(gs, rows[..n], verdicts[..n], ks[..n])
      && i < |gs| && verdicts[n] == Ok(a) && ks[n] == Some(gs[i].key)
    ensures var n := |ks| - 1; MembersAre(gs[i := Extend(gs[i], rows[n], a.date)], rows, verdicts, ks)
  {
    var n := |ks| - 1;
    var gs' := gs[i := Extend(gs[i], rows[n], a.date)];
    forall j | 0 <= j < |gs'| ensures GroupMembers(gs'[j], rows, verdicts, ks) {
      ExistingMember(gs[j], rows, verdicts, ks);
      if j != i {
        assert gs[j].key != gs[i].key by {
          assert FirstOf(ks[..n])[j] == gs[j].key && FirstOf(ks[..n])[i] == gs[i].key;
        }
      }
    }
  }

  /** The last row creating a group for a key no group has. */
  lemma CreatedMembers(gs: seq<Group>, rows: seq<Row>, verdicts: seq<Result<Accepted>>, ks: seq<Option<string>>,
                       a: Accepted, eventType: string, scenarioKey: string, overrides: map<nat, string>)
    requires |rows| == |ks| && |verdicts| == |ks| && ks != []
    requires var n := |ks| - 1; var k := GroupKey(eventType, scenarioKey, a.address, a.time.key);
      && MembersAre(gs, rows[..n], verdicts[..n], ks[..n])
      && verdicts[n] == Ok(a) && ks[n] == Some(k) && Some(k) !in ks[..n]
    ensures var n := |ks| - 1; var k := GroupKey(eventType, scenarioKey, a.address, a.time.key);
      var g := NewGroup(k, eventType, scenarioKey, rows[n], a.address, a.time, overrides);
      MembersAre((gs + [g])[|gs| := Extend(g, rows[n], a.date)], rows, verdicts, ks)
  {
    var n := |ks| - 1;
    var k := GroupKey(eventType, scenarioKey, a.address, a.time.key);
    var g := NewGroup(k, eventType, scenarioKey, rows[n], a.address, a.time, overrides);
    var gs' := (gs + [g])[|gs| := Extend(g, rows[n], a.date)];
    forall j | 0 <= j < |gs'| ensures GroupMembers(gs'[j], rows, verdicts, ks) {
      if j < |gs| {
        ExistingMember(gs[j], rows, verdicts, ks);
        assert gs[j].key != k by {
          assert Select(verdicts[..n], ks[..n], gs[j].key) != [];
          if gs[j].key == k {
            SelectAbsent(verdicts[..n], ks[..n], k);
          }
        }
      } else {
        FreshMember(rows, verdicts, ks, a, eventType, scenarioKey, overrides);
      }
    }
  }

  /**
    Each group holds exactly the accepted rows with its key, in input order,
    and the dates of those rows in the same order; so every accepted row is
    in the one group of its key, and in no other.
  */
  lemma {:induction false} GatherMembers(rows: seq<Row>, verdicts: seq<Result<Accepted>>, eventType: string,
                                         scenarioKey: string, overrides: map<nat, string>)
    requires |verdicts| == |rows|
    ensures MembersAre(Gather(rows, verdicts, eventType, scenarioKey, overrides).groups, rows, verdicts,
                       Keys(verdicts, eventType, scenarioKey))
    decreases |rows|
  {
    if rows != [] {
      var n := |rows| - 1;
      var s := Gather(rows[..n], verdicts[..n], eventType, scenarioKey, overrides);
      var ks := Keys(verdicts[..n], eventType, scenarioKey);
      GatherMembers(rows[..n], verdicts[..n], eventType, scenarioKey, overrides);
      GatherKeys(rows[..n], verdicts[..n], eventType, scenarioKey, overrides);
      FirstOfDistinct(ks);
      GatherLast(rows, verdicts, eventType, scenarioKey, overrides);
      AddRowMembers(s, rows, verdicts, eventType, scenarioKey, overrides);
    }
  }

  /** Adding a row to a group keeps its head. */
  lemma ExtendHeaded(g: Group, r: Row, d: Date, eventType: string, scenarioKey: string, overrides: map<nat, string>)
    requires HeadedBy(g, eventType, scenarioKey, overrides)
    ensures HeadedBy(Extend(g, r, d), eventType, scenarioKey, overrides)
  {
    var g' := Extend(g, r, d);
    assert g'.sourceRows[0] == g.sourceRows[0];
    assert g'.(dates := [], sourceRows := []) == g.(dates := [], sourceRows := []);
  }

  /** A group created by an accepted row is headed by it. */
  lemma NewGroupHeaded(r: Row, a: Accepted, eventType: string, scenarioKey: string, overrides: map<nat, string>)
    ensures var k := GroupKey(eventType, scenarioKey, a.address, a.time.key);
      HeadedBy(Extend(NewGroup(k, eventType, scenarioKey, r, a.address, a.time, overrides), r, a.date),
               eventType, scenarioKey, overrides)
  {
  }

  lemma AddAcceptedHeaded(s: Grouped, r: Row, a: Accepted, eventType: string, scenarioKey: string,
                          overrides: map<nat, string>)
    requires AllHeaded(s.groups, eventType, scenarioKey, overrides)
    ensures AllHeaded(AddAccepted(s, r, a, eventType, scenarioKey, overrides).groups, eventType, scenarioKey, overrides)
  {
    var k := GroupKey(eventType, scenarioKey, a.address, a.time.key);
    var gs := AddAccepted(s, r, a, eventType, scenarioKey, overrides).groups;
    match FindKey(s.groups, k)
    case Some(i) =>
      forall j | 0 <= j < |gs| ensures HeadedBy(gs[j], eventType, scenarioKey, overrides) {
        if j == i {
          ExtendHeaded(s.groups[i], r, a.date, eventType, scenarioKey, overrides);
        }
      }
    case None =>
      forall j | 0 <= j < |gs| ensures HeadedBy(gs[j], eventType, scenarioKey, overrides) {
        if j == |s.groups| {
          NewGroupHeaded(r, a, eventType, scenarioKey, overrides);
        }
      }
  }

  /**
    Every group was created by its first row: its key is made of its address
    and time key, and the original and final place (the override for that
    row's number, if any), topic, district, area, meeting type and link are
    that row's.
  */
  lemma {:induction false} GatherHeaded(rows: seq<Row>, verdicts: seq<Result<Accepted>>, eventType: string,
                                        scenarioKey: string, overrides: map<nat, string>)
    requires |verdicts| == |rows|
    ensures AllHeaded(Gather(rows, verdicts, eventType, scenarioKey, overrides).groups, eventType, scenarioKey, overrides)
    decreases |rows|
  {
    if rows != [] {
      var n := |rows| - 1;
      GatherHeaded(rows[..n], verdicts[..n], eventType, scenarioKey, overrides);
      GatherLast(rows, verdicts, eventType, scenarioKey, overrides);
      if verdicts[n].Ok? {
        AddAcceptedHeaded(Gather(rows[..n], verdicts[..n], eventType, scenarioKey, overrides), rows[n],
                          verdicts[n].value, eventType, scenarioKey, overrides);
      }
    }
  }

  /** The copied fields of a group headed by its first row, spelled out. */
  lemma HeadFields(g: Group, eventType: string, scenarioKey: string, overrides: map<nat, string>)
    requires HeadedBy(g, eventType, scenarioKey, overrides)
    ensures var r := g.sourceRows[0];
      && g.eventType == eventType && g.scenarioKey == scenarioKey
      && g.placeOriginal == r.placeRaw.GetOr("")
      && g.placeFinal == (if r.rowNum in overrides then overrides[r.rowNum] else g.placeOriginal)
      && g.topicRaw == r.topicRaw.GetOr("") && g.okrugRow == r.okrugRow
      && g.raionRaw == r.raionRaw.GetOr("") && g.meetingTypeRaw == r.meetingTypeRaw.GetOr("")
      && g.linkRaw == r.linkRaw.GetOr("")
  {
  }

  // ---------------------------------------------------------------------------
  // Every row is accounted for once

  lemma {:induction false} TotalRowsUpdate(gs: seq<Group>, i: nat, g: Group)
    requires i < |gs|
    ensures TotalRows(gs[i := g]) + |gs[i].sourceRows| == TotalRows(gs) + |g.sourceRows|
    decreases |gs|
  {
    var n := |gs|;
    var gs' := gs[i := g];
    assert gs'[..n - 1] == if i == n - 1 then gs[..n - 1] else gs[..n - 1][i := g];
    if i < n - 1 {
      TotalRowsUpdate(gs[..n - 1], i, g);
    }
  }

  lemma AddAcceptedCount(s: Grouped, r: Row, a: Accepted, eventType: string, scenarioKey: string,
                         overrides: map<nat, string>)
    ensures TotalRows(AddAccepted(s, r, a, eventType, scenarioKey, overrides).groups) == TotalRows(s.groups) + 1
  {
    var k := GroupKey(eventType, scenarioKey, a.address, a.time.key);
    match FindKey(s.groups, k)
    case Some(i) =>
      TotalRowsUpdate(s.groups, i, Extend(s.groups[i], r, a.date));
    case None =>
      var gs := s.groups + [NewGroup(k, eventType, scenarioKey, r, a.address, a.time, overrides)];
      TotalRowsUpdate(gs, |gs| - 1, Extend(gs[|gs| - 1], r, a.date));
      assert gs[..|gs| - 1] == s.groups;
  }

  /** Each input row is counted once: as a rejected row or as a row of a group. */
  lemma {:induction false} GatherCount(rows: seq<Row>, verdicts: seq<Result<Accepted>>, eventType: string,
                                       scenarioKey: string, overrides: map<nat, string>)
    requires |verdicts| == |rows|
    ensures var s := Gather(rows, verdicts, eventType, scenarioKey, overrides);
      |s.rowErrors| + TotalRows(s.groups) == |rows|
    decreases |rows|
  {
    if rows != [] {
      var n := |rows| - 1;
      GatherCount(rows[..n], verdicts[..n], eventType, scenarioKey, overrides);
      GatherLast(rows, verdicts, eventType, scenarioKey, overrides);
      if verdicts[n].Ok? {
        AddAcceptedCount(Gather(rows[..n], verdicts[..n], eventType, scenarioKey, overrides), rows[n],
                         verdicts[n].value, eventType, scenarioKey, overrides);
      }
    }
  }

  // ---------------------------------------------------------------------------
  // The dates of a finished group

  /** Inserting into ascending dates keeps them ascending. */
  lemma {:induction false} InsertAscending(x: Date, ds: seq<Date>)
    requires Ascending(ds)
    ensures Ascending(Insert(x, ds))
    decreases |ds|
  {
    if ds != [] && x.ts > ds[0].ts {
      var rest := Insert(x, ds[1..]);
      InsertAscending(x, ds[1..]);
      forall k | 0 <= k < |rest| ensures ds[0].ts <= rest[k].ts {
        assert rest[k] in multiset(rest);
        assert rest[k] in multiset(ds[1..]) + multiset{x};
        if rest[k] != x {
          var j :| 1 <= j < |ds| && ds[j] == rest[k] by {
            assert rest[k] in ds[1..];
          }
        }
      }
    }
  }

  /** `SortByTs` orders the dates by `ts`. */
  lemma {:induction false} SortAscending(ds: seq<Date>)
    ensures Ascending(SortByTs(ds))
    decreases |ds|
  {
    if ds != [] {
      SortAscending(ds[1..]);
      InsertAscending(ds[0], SortByTs(ds[1..]));
    }
  }

  /** What `UniqueByTs` keeps is taken from its input, and its last `ts` is the input's last. */
  lemma {:induction false} UniqueFacts(ds: seq<Date>)
    ensures var u := UniqueByTs(ds);
      && (u == [] <==> ds == [])
      && (u != [] ==> u[|u| - 1].ts == ds[|ds| - 1].ts)
      && (forall x :: x in u ==> x in ds)
      && (Ascending(ds) ==> StrictlyAscending(u))
    decreases |ds|
  {
    if ds != [] {
      var n := |ds| - 1;
      var u0 := UniqueByTs(ds[..n]);
      UniqueFacts(ds[..n]);
      if Ascending(ds) {
        assert Ascending(ds[..n]);
      }
      forall x | x in u0 ensures x in ds {
        assert x in ds[..n];
      }
    }
  }

  /** Every date of the input has its `ts` among the kept dates. */
  lemma {:induction false} UniqueCovers(ds: seq<Date>, x: Date)
    requires x in ds
    ensures exists y :: y in UniqueByTs(ds) && y.ts == x.ts
    decreases |ds|
  {
    var n := |ds| - 1;
    var u0 := UniqueByTs(ds[..n]);
    var u := UniqueByTs(ds);
    UniqueFacts(ds[..n]);
    assert u0 <= u;
    if x == ds[n] {
      if u0 == [] || u0[|u0| - 1].ts != ds[n].ts {
        assert u[|u| - 1] == x;
      } else {
        assert u0[|u0| - 1] in u;
      }
    } else {
      assert x in ds[..n];
      UniqueCovers(ds[..n], x);
      var y :| y in u0 && y.ts == x.ts;
      assert y in u;
    }
  }

  predicate AllValidDates(ds: seq<Date>) {
    forall i :: 0 <= i < |ds| ==> ValidDate(ds[i])
  }

  /**
    A finished group's dates: in strictly ascending `ts` order, so no day
    twice, and the same days as were gathered.
  */
  lemma FinalDates(ds: seq<Date>)
    requires AllValidDates(ds)
    ensures var r := UniqueByTs(SortByTs(ds));
      StrictlyAscending(r) && forall x :: x in r <==> x in ds
  {
    var sorted := SortByTs(ds);
    var r := UniqueByTs(sorted);
    SortAscending(ds);
    UniqueFacts(sorted);
    forall x | x in r ensures x in ds {
      assert x in multiset(sorted);
    }
    forall x | x in ds ensures x in r {
      assert x in multiset(sorted);
      UniqueCovers(sorted, x);
      var y :| y in r && y.ts == x.ts;
      assert y in multiset(ds);
      var i :| 0 <= i < |ds| && ds[i] == y;
      var j :| 0 <= j < |ds| && ds[j] == x;
      TsInjective(ds[i], ds[j]);
    }
  }

  /** `FinalizeAll` finalizes each group in place. */
  lemma {:induction false} FinalizeAt(gs: seq<Group>, i: nat)
    requires i < |gs|
    ensures FinalizeAll(gs)[i] == Finalize(gs[i])
    decreases |gs|
  {
    if i < |gs| - 1 {
      FinalizeAt(gs[..|gs| - 1], i);
    }
  }

  // ---------------------------------------------------------------------------
  // Keys

  /** The text after the last `|`, or all of it if there is none. */
  function AfterLastBar(s: string): string
    decreases |s|
  {
    if s == [] then []
    else if s[|s| - 1] == '|' then []
    else AfterLastBar(s[..|s| - 1]) + [s[|s| - 1]]
  }

  /** The text before the last `|`. */
  function BeforeLastBar(s: string): string
    decreases |s|
  {
    if s == [] then []
    else if s[|s| - 1] == '|' then s[..|s| - 1]
    else BeforeLastBar(s[..|s| - 1])
  }

  /** `x + "|" + k` cuts back into `x` and `k` at its last `|` when `k` holds none. */
  lemma {:induction false} CutAtLastBar(x: string, k: string)
    requires '|' !in k
    ensures BeforeLastBar(x + "|" + k) == x && AfterLastBar(x + "|" + k) == k
    decreases |k|
  {
    var s := x + "|" + k;
    if k == [] {
      assert s[..|s| - 1] == x;
    } else {
      var k0 := k[..|k| - 1];
      assert s[..|s| - 1] == x + "|" + k0;
      assert k == k0 + [k[|k| - 1]];
      CutAtLastBar(x, k0);
    }
  }

  /**
    A time key holds no `|`, so two keys of the same event type and scenario
    agree exactly when the addresses and time keys do.
  */
  lemma GroupKeyInjective(eventType: string, scenarioKey: string, a1: string, k1: string, a2: string, k2: string)
    requires '|' !in k1 && '|' !in k2
    ensures GroupKey(eventType, scenarioKey, a1, k1) == GroupKey(eventType, scenarioKey, a2, k2) <==>
            a1 == a2 && k1 == k2
  {
    var p := eventType + "|" + scenarioKey + "|";
    assert GroupKey(eventType, scenarioKey, a1, k1) == (p + a1) + "|" + k1;
    assert GroupKey(eventType, scenarioKey, a2, k2) == (p + a2) + "|" + k2;
    CutAtLastBar(p + a1, k1);
    CutAtLastBar(p + a2, k2);
    assert (p + a1)[|p|..] == a1 && (p + a2)[|p|..] == a2;
  }

  /** The key of a valid time range holds no `|`. */
  lemma TimeKeyPlain(t: TimeRange)
    requires ValidTimeRange(t)
    ensures '|' !in t.key
  {
    ValidRangeDeterminedByMinutes(t);
    KeyChars(t.fromMinutes, t.toMinutes);
    forall i | 0 <= i < |t.key| ensures t.key[i] != '|' {
      assert IsClockChar(t.key[i]);
    }
  }

  /** Two accepted rows share a group exactly when their addresses and time ranges are equal. */
  lemma SameGroupIff(a: Accepted, b: Accepted, eventType: string, scenarioKey: string)
    requires ValidTimeRange(a.time) && ValidTimeRange(b.time)
    ensures KeyOf(Ok(a), eventType, scenarioKey) == KeyOf(Ok(b), eventType, scenarioKey) <==>
            a.address == b.address && a.time == b.time
  {
    TimeKeyPlain(a.time);
    TimeKeyPlain(b.time);
    GroupKeyInjective(eventType, scenarioKey, a.address, a.time.key, b.address, b.time.key);
    KeyIffSameMinutes(a.time, b.time);
  }

  // ---------------------------------------------------------------------------
  // What `buildGroups` returns

  /** Every accepted verdict has a real date and a valid time range. */
  predicate VerdictsValid(verdicts: seq<Result<Accepted>>) {
    forall i :: 0 <= i < |verdicts| && verdicts[i].Ok? ==>
      ValidDate(verdicts[i].value.date) && ValidTimeRange(verdicts[i].value.time)
  }

  lemma {:induction false} VerdictsAreValid(rows: seq<Row>)
    ensures VerdictsValid(Verdicts(rows))
    decreases |rows|
  {
    if rows != [] {
      VerdictsAreValid(rows[..|rows| - 1]);
    }
  }

  lemma {:induction false} SelectValid(verdicts: seq<Result<Accepted>>, ks: seq<Option<string>>, key: string)
    requires |verdicts| == |ks| && VerdictsValid(verdicts)
    ensures VerdictsValid(Select(verdicts, ks, key))
    decreases |ks|
  {
    if ks != [] {
      var n := |ks| - 1;
      assert VerdictsValid(verdicts[..n]);
      SelectValid(verdicts[..n], ks[..n], key);
    }
  }

  lemma {:induction false} DatesOfValid(verdicts: seq<Result<Accepted>>)
    requires VerdictsValid(verdicts)
    ensures AllValidDates(DatesOf(verdicts))
    decreases |verdicts|
  {
    if verdicts != [] {
      var n := |verdicts| - 1;
      assert VerdictsValid(verdicts[..n]);
      DatesOfValid(verdicts[..n]);
    }
  }

  predicate AllKeyed(verdicts: seq<Result<Accepted>>, eventType: string, scenarioKey: string, key: string) {
    forall m :: 0 <= m < |verdicts| ==> KeyOf(verdicts[m], eventType, scenarioKey) == Some(key)
  }

  /** Every verdict selected under a key has that key. */
  lemma {:induction false} SelectKeyed(verdicts: seq<Result<Accepted>>, eventType: string, scenarioKey: string, key: string)
    ensures AllKeyed(Select(verdicts, Keys(verdicts, eventType, scenarioKey), key), eventType, scenarioKey, key)
    decreases |verdicts|
  {
    if verdicts != [] {
      var n := |verdicts| - 1;
      var ks := Keys(verdicts, eventType, scenarioKey);
      assert ks[..n] == Keys(verdicts[..n], eventType, scenarioKey);
      SelectKeyed(verdicts[..n], eventType, scenarioKey, key);
      var sel0 := Select(verdicts[..n], ks[..n], key);
      var sel := Select(verdicts, ks, key);
      assert sel == sel0 + (if ks[n] == Some(key) then [verdicts[n]] else []);
      forall m | 0 <= m < |sel| ensures KeyOf(sel[m], eventType, scenarioKey) == Some(key) {
        if m < |sel0| {
          assert sel[m] == sel0[m];
        } else {
          assert ks[n] == KeyOf(verdicts[n], eventType, scenarioKey);
        }
      }
    }
  }

  /**
    A finished group: headed by its first row, holding exactly the rows with
    its key, all of which have the group's address and time range, with the
    days of those rows once each in ascending order.
  */
  predicate FinishedGroup(g: Group, rows: seq<Row>, verdicts: seq<Result<Accepted>>, ks: seq<Option<string>>,
                          eventType: string, scenarioKey: string, overrides: map<nat, string>)
    requires |rows| == |ks| && |verdicts| == |ks|
  {
    var sel := Select(verdicts, ks, g.key);
    && HeadedBy(g, eventType, scenarioKey, overrides)
    && g.sourceRows == Select(rows, ks, g.key)
    && (forall m :: 0 <= m < |sel| ==> sel[m].Ok? && sel[m].value.address == g.address && sel[m].value.time == g.time)
    && StrictlyAscending(g.dates)
    && (forall x :: x in g.dates ==> x in DatesOf(sel))
    && (forall x :: x in DatesOf(sel) ==> x in g.dates)
  }

  /** All rows of a group share its address and time range. */
  lemma SameAddressAndTime(g: Group, verdicts: seq<Result<Accepted>>, eventType: string, scenarioKey: string)
    requires VerdictsValid(verdicts)
    requires var sel := Select(verdicts, Keys(verdicts, eventType, scenarioKey), g.key);
      sel != [] && sel[0].Ok? && sel[0].value.address == g.address && sel[0].value.time == g.time
    ensures var sel := Select(verdicts, Keys(verdicts, eventType, scenarioKey), g.key);
      forall m :: 0 <= m < |sel| ==> sel[m].Ok? && sel[m].value.address == g.address && sel[m].value.time == g.time
  {
    var ks := Keys(verdicts, eventType, scenarioKey);
    var sel := Select(verdicts, ks, g.key);
    SelectKeyed(verdicts, eventType, scenarioKey, g.key);
    SelectValid(verdicts, ks, g.key);
    forall m | 0 <= m < |sel|
      ensures sel[m].Ok? && sel[m].value.address == g.address && sel[m].value.time == g.time
    {
      assert KeyOf(sel[m], eventType, scenarioKey) == KeyOf(sel[0], eventType, scenarioKey);
      SameGroupIff(sel[m].value, sel[0].value, eventType, scenarioKey);
    }
  }

  lemma FinishedOne(g: Group, rows: seq<Row>, verdicts: seq<Result<Accepted>>, eventType: string,
                    scenarioKey: string, overrides: map<nat, string>)
    requires |verdicts| == |rows| && VerdictsValid(verdicts)
    requires GroupMembers(g, rows, verdicts, Keys(verdicts, eventType, scenarioKey))
    requires HeadedBy(g, eventType, scenarioKey, overrides)
    ensures FinishedGroup(Finalize(g), rows, verdicts, Keys(verdicts, eventType, scenarioKey), eventType, scenarioKey, overrides)
  {
    var ks := Keys(verdicts, eventType, scenarioKey);
    var sel := Select(verdicts, ks, g.key);
    SameAddressAndTime(g, verdicts, eventType, scenarioKey);
    SelectValid(verdicts, ks, g.key);
    DatesOfValid(sel);
    FinalDates(g.dates);
    assert Finalize(g).(dates := [], sourceRows := []) == g.(dates := [], sourceRows := []);
  }

  lemma {:induction false} TotalRowsFinalize(gs: seq<Group>)
    ensures TotalRows(FinalizeAll(gs)) == TotalRows(gs)
    decreases |gs|
  {
    if gs != [] {
      TotalRowsFinalize(gs[..|gs| - 1]);
    }
  }

  /** The first loop's result, finished, over any verdicts that pass the checks' guarantees. */
  lemma FinishedAll(rows: seq<Row>, verdicts: seq<Result<Accepted>>, eventType: string, scenarioKey: string,
                    overrides: map<nat, string>)
    requires |verdicts| == |rows| && VerdictsValid(verdicts)
    ensures var gs := FinalizeAll(Gather(rows, verdicts, eventType, scenarioKey, overrides).groups);
      var ks := Keys(verdicts, eventType, scenarioKey);
      && KeysAre(gs, FirstOf(ks))
      && forall i :: 0 <= i < |gs| ==> FinishedGroup(gs[i], rows, verdicts, ks, eventType, scenarioKey, overrides)
  {
    var gathered := Gather(rows, verdicts, eventType, scenarioKey, overrides).groups;
    var gs := FinalizeAll(gathered);
    var ks := Keys(verdicts, eventType, scenarioKey);
    GatherMembers(rows, verdicts, eventType, scenarioKey, overrides);
    GatherHeaded(rows, verdicts, eventType, scenarioKey, overrides);
    GatherKeys(rows, verdicts, eventType, scenarioKey, overrides);
    forall i | 0 <= i < |gs| ensures gs[i].key == FirstOf(ks)[i] {
      FinalizeAt(gathered, i);
    }
    forall i | 0 <= i < |gs| ensures FinishedGroup(gs[i], rows, verdicts, ks, eventType, scenarioKey, overrides) {
      FinalizeAt(gathered, i);
      FinishedOne(gathered[i], rows, verdicts, eventType, scenarioKey, overrides);
    }
  }

  /**
    `buildGroups`: the rejected rows are reported in order with the failing
    check's message; every other row is in exactly one group; groups come in
    order of their keys' first occurrence, one per key; and each group is
    finished as `FinishedGroup` says.
  */
  lemma BuildGroupsCorrect(rows: seq<Row>, eventType: string, scenarioKey: string, overrides: map<nat, string>)
    ensures var out := BuildGroupsSpec(rows, eventType, scenarioKey, overrides);
      var vs := Verdicts(rows);
      var ks := Keys(vs, eventType, scenarioKey);
      && out.rowErrors == Rejected(rows, vs)
      && |out.rowErrors| + TotalRows(out.groups) == |rows|
      && KeysAre(out.groups, FirstOf(ks)) && Distinct(FirstOf(ks))
      && forall i :: 0 <= i < |out.groups| ==> FinishedGroup(out.groups[i], rows, vs, ks, eventType, scenarioKey, overrides)
  {
    var vs := Verdicts(rows);
    var gathered := Gather(rows, vs, eventType, scenarioKey, overrides);
    VerdictsAreValid(rows);
    GatherErrors(rows, vs, eventType, scenarioKey, overrides);
    GatherCount(rows, vs, eventType, scenarioKey, overrides);
    TotalRowsFinalize(gathered.groups);
    FirstOfDistinct(Keys(vs, eventType, scenarioKey));
    FinishedAll(rows, vs, eventType, scenarioKey, overrides);
  }
}
