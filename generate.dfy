/**
  The record-building part of the generator page (app/app/page.js:206-560):
  `getCell`, the page's own `detectPlacePush`, and `generate()`, which turns
  the parsed rows, the per-cell edits and the templates into result records.
  The React state it reads becomes parameters and the state it writes
  becomes the `Generated` value it returns.
*/
module Generate {
  import opened Wrappers
  import opened Text
  import opened Calendar
  import opened Phrases
  import opened Tsv
  import Render
  import Grouping
  import Places
  import Obhod
  import ObhodEngine
  import Lists

  // ---------------------------------------------------------------------------
  // Cell edits

  /** `${row.rowNum}:${field}`: where the grid stores an edit of one cell. */
  function CellKey(rowNum: nat, field: string): string {
    NatToString(rowNum) + ":" + field
  }

  /** `getCell(row, field, fallback)`: the edit when there is one (even ""), else `row[field] ?? fallback`. */
  function GetCell(edits: map<string, string>, row: Row, field: string, fallback: string): string {
    var k := CellKey(row.rowNum, field);
    if k in edits then edits[k] else Field(row, field).GetOr(fallback)
  }

  /** `setCell(row, field, value)`: the grid's write of one cell. */
  function SetCell(edits: map<string, string>, row: Row, field: string, value: string): map<string, string> {
    edits[CellKey(row.rowNum, field) := value]
  }

  /** Where the first ':' of a key stands (its length when it has none). */
  function ColonAt(k: string): (i: nat)
    ensures i <= |k|
  {
    if k == [] || k[0] == ':' then 0 else 1 + ColonAt(k[1..])
  }

  /** The first ':' after a run of digits is the one right after them. */
  lemma {:induction false} ColonAfterDigits(d: string, rest: string)
    requires AllDigits(d)
    ensures ColonAt(d + ":" + rest) == |d|
  {
    if d != [] {
      assert (d + ":" + rest)[1..] == d[1..] + ":" + rest;
      ColonAfterDigits(d[1..], rest);
    }
  }

  /** Different cells have different keys: a row number has no ':' in it. */
  lemma CellKeyInjective(n1: nat, f1: string, n2: nat, f2: string)
    requires CellKey(n1, f1) == CellKey(n2, f2)
    ensures n1 == n2 && f1 == f2
  {
    var s1, s2 := NatToString(n1), NatToString(n2);
    NatToStringDigits(n1);
    NatToStringDigits(n2);
    ColonAfterDigits(s1, f1);
    ColonAfterDigits(s2, f2);
    var k1, k2 := CellKey(n1, f1), CellKey(n2, f2);
    assert s1 == k1[..|s1|] == k2[..|s2|] == s2;
    assert f1 == k1[|s1| + 1..] == k2[|s2| + 1..] == f2;
    NatToStringInjective(n1, n2);
  }

  /**
    Reading a cell after writing it gives what was written, even the empty
    text; every other cell reads as before.
  */
  lemma SetThenGet(edits: map<string, string>, row: Row, field: string, value: string,
                   other: Row, otherField: string, fallback: string)
    ensures GetCell(SetCell(edits, row, field, value), row, field, fallback) == value
    ensures other.rowNum != row.rowNum || otherField != field ==>
      GetCell(SetCell(edits, row, field, value), other, otherField, fallback) == GetCell(edits, other, otherField, fallback)
  {
    if other.rowNum != row.rowNum || otherField != field {
      if CellKey(other.rowNum, otherField) == CellKey(row.rowNum, field) {
        CellKeyInjective(other.rowNum, otherField, row.rowNum, field);
      }
    }
  }

  /** No edit of a row's cells: `getCell` reads the row itself. */
  lemma GetCellWithoutEdit(edits: map<string, string>, row: Row, field: string, fallback: string)
    requires forall f :: CellKey(row.rowNum, f) !in edits
    ensures GetCell(edits, row, field, fallback) == Field(row, field).GetOr(fallback)
  {
    assert CellKey(row.rowNum, field) !in edits;
  }

  /** The obhod paths' `{ ...r, okrug_row, address, date_raw, time_raw }`, each read through `getCell`. */
  function PatchObhodRow(edits: map<string, string>, r: Row): Row {
    r.(okrugRow := GetCell(edits, r, "okrug_row", r.okrugRow),
       address := GetCell(edits, r, "address", r.address),
       dateRaw := GetCell(edits, r, "date_raw", r.dateRaw),
       timeRaw := GetCell(edits, r, "time_raw", r.timeRaw))
  }

  /** `rowsPatched`: the same four cells and the topic, place and OSS cells. */
  function PatchPiketRow(edits: map<string, string>, r: Row): Row {
    PatchObhodRow(edits, r).(
      topicRaw := Some(GetCell(edits, r, "topic_raw", r.topicRaw.GetOr(""))),
      placeRaw := Some(GetCell(edits, r, "place_raw", r.placeRaw.GetOr(""))),
      ossStartRaw := Some(GetCell(edits, r, "oss_start_raw", r.ossStartRaw.GetOr(""))),
      ossEndRaw := Some(GetCell(edits, r, "oss_end_raw", r.ossEndRaw.GetOr(""))))
  }

  /** An edit of a row's address is what every obhod path reads as its address. */
  lemma PatchReadsEdit(edits: map<string, string>, r: Row, value: string)
    ensures PatchObhodRow(SetCell(edits, r, "address", value), r).address == value
    ensures PatchObhodRow(SetCell(edits, r, "address", value), r).dateRaw == PatchObhodRow(edits, r).dateRaw
  {
    SetThenGet(edits, r, "address", value, r, "address", r.address);
    SetThenGet(edits, r, "address", value, r, "date_raw", r.dateRaw);
  }

  function ObhodRows(edits: map<string, string>, rows: seq<Row>): (out: seq<Row>)
    ensures |out| == |rows|
  {
    seq(|rows|, i requires 0 <= i < |rows| => PatchObhodRow(edits, rows[i]))
  }

  function PiketRows(edits: map<string, string>, rows: seq<Row>): (out: seq<Row>)
    ensures |out| == |rows|
  {
    seq(|rows|, i requires 0 <= i < |rows| => PatchPiketRow(edits, rows[i]))
  }

  // ---------------------------------------------------------------------------
  // The page's own detectPlacePush

  /**
    The `detectPlacePush` the page defines for itself, which shadows the
    library's: lower-case only, and "в вашем доме" whenever the text does not
    say "около дома", so it never answers with the empty text.
  */
  function DetectPlacePushLocal(placeText: string): string {
    var s := LowerString(placeText);
    if Contains(s, "около дома") then "в вашем дворе"
    else if Contains(s, "холл") || Contains(s, "подъезд") || Contains(s, "в холле") then "в вашем доме"
    else "в вашем доме"
  }

  /**
    The page's answer is always one of the two phrases, never empty, and it
    is the yard exactly when the lower-cased text says "около дома".
  */
  lemma DetectPlacePushLocalMeaning(placeText: string)
    ensures var push := DetectPlacePushLocal(placeText);
      && (push == "в вашем дворе" || push == "в вашем доме")
      && (push == "в вашем дворе" <==> Contains(LowerString(placeText), "около дома"))
  {
  }

  // ---------------------------------------------------------------------------
  // Templates and records

  /** `template.rules || {}`: each flag as JavaScript reads it, for truthiness. */
  datatype Rules = Rules(requiresPlaceText: bool, requiresPlacePush: bool, requiresTopic: bool, requiresReason: bool)

  /** A row of the `templates` table. A text the table leaves null is `None`. */
  datatype Template = Template(
    eventType: string,
    scenarioKey: string,
    isActive: bool,
    titleNews: Option<string>,
    bodyNewsHtml: Option<string>,
    pushTitle: Option<string>,
    pushBody: Option<string>,
    rules: Rules)

  /** What the page's selectors and inputs hold: `cancelReason`, `whenWord`, `link`, `topicShort`. */
  datatype Options = Options(cancelReason: string, whenWord: string, link: string, topicShort: string)

  /** One result record. */
  datatype Record = Record(
    eventType: string,
    scenarioKey: string,
    address: string,
    dateListHuman: string,
    timeRangeHuman: string,
    newsTitle: string,
    newsHtml: string,
    pushTitle: string,
    pushBody: string,
    status: string,
    errorText: string)

  /** The `vars` object of `renderTemplate`, in its entries' order. */
  type Bindings = seq<(string, Option<string>)>

  predicate Matches(t: Template, eventType: string, scenarioKey: string, activeOnly: bool) {
    t.eventType == eventType && t.scenarioKey == scenarioKey && (activeOnly ==> t.isActive)
  }

  predicate HasTemplate(templates: seq<Template>, eventType: string, scenarioKey: string, activeOnly: bool) {
    exists i :: 0 <= i < |templates| && Matches(templates[i], eventType, scenarioKey, activeOnly)
  }

  /** The position `templates.find(...)` stops at: the first template that matches. */
  function FirstTemplate(templates: seq<Template>, eventType: string, scenarioKey: string, activeOnly: bool)
    : (i: Option<nat>)
    ensures i.Some? ==> (i.value < |templates| && Matches(templates[i.value], eventType, scenarioKey, activeOnly)
      && forall j :: 0 <= j < i.value ==> !Matches(templates[j], eventType, scenarioKey, activeOnly))
    ensures i.None? ==> forall j :: 0 <= j < |templates| ==> !Matches(templates[j], eventType, scenarioKey, activeOnly)
  {
    if templates == [] then None
    else if Matches(templates[0], eventType, scenarioKey, activeOnly) then Some(0)
    else match FirstTemplate(templates[1..], eventType, scenarioKey, activeOnly)
      case None => None
      case Some(j) => Some(j + 1)
  }

  /**
    `templates.find(...) || null`: the template of that type and scenario,
    and active where the obhod paths ask for it.
  */
  function FindTemplate(templates: seq<Template>, eventType: string, scenarioKey: string, activeOnly: bool)
    : Option<Template>
  {
    match FirstTemplate(templates, eventType, scenarioKey, activeOnly)
    case None => None
    case Some(i) => Some(templates[i])
  }

  /** The lookup finds a template exactly when one matches, and what it finds matches. */
  lemma FindTemplateFacts(templates: seq<Template>, eventType: string, scenarioKey: string, activeOnly: bool)
    ensures var found := FindTemplate(templates, eventType, scenarioKey, activeOnly);
      && (found.Some? <==> HasTemplate(templates, eventType, scenarioKey, activeOnly))
      && (found.Some? ==> found.value in templates && Matches(found.value, eventType, scenarioKey, activeOnly))
  {
    if HasTemplate(templates, eventType, scenarioKey, activeOnly) {
      var i :| 0 <= i < |templates| && Matches(templates[i], eventType, scenarioKey, activeOnly);
    }
  }

  /**
    Whatever the active-only lookup finds, the lookup that ignores `is_active`
    finds too, though it may find an inactive template first.
  */
  lemma ActiveLookupImpliesAny(templates: seq<Template>, eventType: string, scenarioKey: string)
    ensures FindTemplate(templates, eventType, scenarioKey, true).Some? ==>
      FindTemplate(templates, eventType, scenarioKey, false).Some?
  {
    FindTemplateFacts(templates, eventType, scenarioKey, true);
    FindTemplateFacts(templates, eventType, scenarioKey, false);
    if HasTemplate(templates, eventType, scenarioKey, true) {
      var i :| 0 <= i < |templates| && Matches(templates[i], eventType, scenarioKey, true);
      assert Matches(templates[i], eventType, scenarioKey, false);
    }
  }

  /** A record with only its error filled in: status "error", every text empty. */
  function ErrorRecord(eventType: string, scenarioKey: string, address: string, dateList: string, timeRange: string,
                       errorText: string): Record
  {
    Record(eventType, scenarioKey, address, dateList, timeRange, "", "", "", "", "error", errorText)
  }

  /** A record whose four texts are the template's, rendered with `vars`. */
  function RenderedRecord(tpl: Template, vars: Bindings, eventType: string, scenarioKey: string, address: string,
                          dateList: string, timeRange: string, status: string, errorText: string): Record
  {
    Record(eventType, scenarioKey, address, dateList, timeRange,
      Render.Render(tpl.titleNews.GetOr(""), vars), Render.Render(tpl.bodyNewsHtml.GetOr(""), vars),
      Render.Render(tpl.pushTitle.GetOr(""), vars), Render.Render(tpl.pushBody.GetOr(""), vars),
      status, errorText)
  }

  function EmptyAddressError(rowNum: nat): string {
    "Строка " + NatToString(rowNum) + ": пустой адрес"
  }

  function NoTemplateError(scenarioKey: string): string {
    "Нет шаблона для scenario_key=" + scenarioKey
  }

  function NumberTexts(ns: seq<nat>): (r: seq<string>)
    ensures |r| == |ns|
  {
    seq(|ns|, i requires 0 <= i < |ns| => NatToString(ns[i]))
  }

  /** `Строки ${rowNums.join(", ")}: ${error}` */
  function RowsError(rowNums: seq<nat>, error: string): string {
    "Строки " + Join(NumberTexts(rowNums), ", ") + ": " + error
  }

  /** The record of a row whose address trims to nothing. */
  function EmptyAddressRecord(scenarioKey: string, rowNum: nat): Record {
    ErrorRecord("obhod", scenarioKey, "", "", "", EmptyAddressError(rowNum))
  }

  /** The three obhod scenarios written by hand rather than built from the days. */
  predicate IsManual(scenarioKey: string) {
    scenarioKey in {"cancel_generic", "cancel_quorum", "reschedule"}
  }

  // ---------------------------------------------------------------------------
  // Obhod: cancellation, one record per row (app/app/page.js:366-424)

  /** The record one row gives in a cancellation scenario. */
  function CancelRecord(templates: seq<Template>, scenarioKey: string, r: Row): Record {
    var address := Trim(r.address);
    if address == "" then EmptyAddressRecord(scenarioKey, r.rowNum)
    else match FindTemplate(templates, "obhod", scenarioKey, true)
      case None => ErrorRecord("obhod", scenarioKey, address, "", "", NoTemplateError(scenarioKey))
      case Some(tpl) => RenderedRecord(tpl, [("ADDRESS", Some(address))], "obhod", scenarioKey, address, "", "", "ok", "")
  }

  /**
    A cancellation record is "ok" exactly when the row has an address and an
    active template exists; otherwise it names the empty row or the missing
    scenario.
  */
  lemma CancelRecordMeaning(templates: seq<Template>, scenarioKey: string, r: Row)
    ensures var rec := CancelRecord(templates, scenarioKey, r);
      && rec.eventType == "obhod" && rec.scenarioKey == scenarioKey
      && (rec.status == "ok" <==> Trim(r.address) != "" && HasTemplate(templates, "obhod", scenarioKey, true))
      && (Trim(r.address) == "" ==> rec.status == "error" && rec.address == "" && rec.errorText == EmptyAddressError(r.rowNum))
      && (Trim(r.address) != "" ==> rec.address == Trim(r.address))
      && (Trim(r.address) != "" && !HasTemplate(templates, "obhod", scenarioKey, true) ==>
            rec.status == "error" && rec.errorText == NoTemplateError(scenarioKey))
  {
    FindTemplateFacts(templates, "obhod", scenarioKey, true);
  }

  function CancelRecords(templates: seq<Template>, scenarioKey: string, rows: seq<Row>): (out: seq<Record>)
    ensures |out| == |rows|
  {
    seq(|rows|, i requires 0 <= i < |rows| => CancelRecord(templates, scenarioKey, rows[i]))
  }

  /** The cancellation loop: exactly one record per row, in the rows' order. */
  method GenerateCancel(templates: seq<Template>, scenarioKey: string, rows: seq<Row>) returns (out: seq<Record>)
    ensures out == CancelRecords(templates, scenarioKey, rows)
  {
    ghost var want := CancelRecords(templates, scenarioKey, rows);
    out := [];
    var i := 0;
    while i < |rows|
      invariant 0 <= i <= |rows| && out == want[..i]
    {
      var r := rows[i];
      var address := Trim(r.address);
      var rec;
      if address == "" {
        rec := EmptyAddressRecord(scenarioKey, r.rowNum);
      } else {
        var tpl := FindTemplate(templates, "obhod", scenarioKey, true);
        if tpl.None? {
          rec := ErrorRecord("obhod", scenarioKey, address, "", "", NoTemplateError(scenarioKey));
        } else {
          rec := RenderedRecord(tpl.value, [("ADDRESS", Some(address))], "obhod", scenarioKey, address, "", "", "ok", "");
        }
      }
      Lists.PrefixGrows(want, i);
      out := out + [rec];
      i := i + 1;
    }
    Lists.PrefixWhole(want);
  }

  // ---------------------------------------------------------------------------
  // Obhod: reschedule, one record per (address, date) (app/app/page.js:269-362)

  /** A value of the `groups` map: `{ address, date_raw, times, rowNums }`. */
  datatype Batch = Batch(address: string, dateRaw: string, times: seq<string>, rowNums: seq<nat>)

  /** `${addr}||${dateRaw}` */
  function BatchKey(address: string, dateRaw: string): string {
    address + "||" + dateRaw
  }

  function KeyOfBatch(b: Batch): string {
    BatchKey(b.address, b.dateRaw)
  }

  /** The key a row is filed under: its trimmed address and date. */
  function RowKey(r: Row): string {
    BatchKey(Trim(r.address), Trim(r.dateRaw))
  }

  /** Where the map holds `key`, as a position in insertion order. */
  function FindBatch(batches: seq<Batch>, key: string): (i: Option<nat>)
    ensures i.Some? ==> i.value < |batches| && KeyOfBatch(batches[i.value]) == key
    ensures i.None? ==> forall j :: 0 <= j < |batches| ==> KeyOfBatch(batches[j]) != key
  {
    if batches == [] then None
    else if KeyOfBatch(batches[0]) == key then Some(0)
    else match FindBatch(batches[1..], key)
      case None => None
      case Some(j) => Some(j + 1)
  }

  /**
    `groups.set(k, ...)` when the key is new, then `times.push(timeRaw)` and
    `rowNums.push(r.rowNum)`, for the trimmed address, date and time of a row.
  */
  function Enter(batches: seq<Batch>, address: string, dateRaw: string, timeRaw: string, rowNum: nat): seq<Batch> {
    match FindBatch(batches, BatchKey(address, dateRaw))
    case None => batches + [Batch(address, dateRaw, [timeRaw], [rowNum])]
    case Some(i) => batches[i := batches[i].(times := batches[i].times + [timeRaw], rowNums := batches[i].rowNums + [rowNum])]
  }

  /** The batches the first loop files, in the order their keys first appear. */
  function Batches(rows: seq<Row>): seq<Batch>
    decreases |rows|
  {
    if rows == [] then []
    else
      var r := rows[|rows| - 1];
      var prev := Batches(rows[..|rows| - 1]);
      if Trim(r.address) == "" then prev
      else Enter(prev, Trim(r.address), Trim(r.dateRaw), Trim(r.timeRaw), r.rowNum)
  }

  /** The error records the first loop pushes, one per row whose address trims to nothing. */
  function EmptyAddressRecords(rows: seq<Row>, scenarioKey: string): seq<Record>
    decreases |rows|
  {
    if rows == [] then []
    else
      var r := rows[|rows| - 1];
      EmptyAddressRecords(rows[..|rows| - 1], scenarioKey)
        + (if Trim(r.address) == "" then [EmptyAddressRecord(scenarioKey, r.rowNum)] else [])
  }

  /** The record one batch gives. */
  function BatchRecord(tpl: Option<Template>, scenarioKey: string, b: Batch): Record {
    match tpl
    case None => ErrorRecord("obhod", scenarioKey, b.address, "", "", NoTemplateError(scenarioKey))
    case Some(t) =>
      match Obhod.ObhodDateTime(b.dateRaw, b.times)
      case Err(e) => ErrorRecord("obhod", scenarioKey, b.address, "", "", RowsError(b.rowNums, e))
      case Ok(text) =>
        RenderedRecord(t, [("ADDRESS", Some(b.address)), ("NEWS_DATETIME", Some(text))],
          "obhod", scenarioKey, b.address, "", "", "ok", "")
  }

  /**
    A batch's record is "ok" exactly when there is an active template and
    the batch's date and times format; a formatting error names every row of
    the batch.
  */
  lemma BatchRecordMeaning(tpl: Option<Template>, scenarioKey: string, b: Batch)
    ensures var rec := BatchRecord(tpl, scenarioKey, b);
      var f := Obhod.ObhodDateTime(b.dateRaw, b.times);
      && rec.eventType == "obhod" && rec.scenarioKey == scenarioKey && rec.address == b.address
      && (rec.status == "ok" <==> tpl.Some? && f.Ok?)
      && (tpl.None? ==> rec.errorText == NoTemplateError(scenarioKey))
      && (tpl.Some? && f.Err? ==> rec.errorText == RowsError(b.rowNums, f.error))
  {
  }

  function BatchRecords(tpl: Option<Template>, scenarioKey: string, batches: seq<Batch>): (out: seq<Record>)
    ensures |out| == |batches|
  {
    seq(|batches|, i requires 0 <= i < |batches| => BatchRecord(tpl, scenarioKey, batches[i]))
  }

  /** The reschedule path's `out`: the empty-address errors first, then one record per batch. */
  function RescheduleRecords(templates: seq<Template>, scenarioKey: string, rows: seq<Row>): seq<Record> {
    EmptyAddressRecords(rows, scenarioKey)
      + BatchRecords(FindTemplate(templates, "obhod", scenarioKey, true), scenarioKey, Batches(rows))
  }

  /** How many rows have an address that trims to nothing. */
  function EmptyAddressRows(rows: seq<Row>): (n: nat)
    ensures n <= |rows|
    decreases |rows|
  {
    if rows == [] then 0
    else EmptyAddressRows(rows[..|rows| - 1]) + (if Trim(rows[|rows| - 1].address) == "" then 1 else 0)
  }

  /** One error record per row with an empty address. */
  lemma {:induction false} EmptyAddressRecordsCount(rows: seq<Row>, scenarioKey: string)
    ensures |EmptyAddressRecords(rows, scenarioKey)| == EmptyAddressRows(rows)
    decreases |rows|
  {
    if rows != [] {
      EmptyAddressRecordsCount(rows[..|rows| - 1], scenarioKey);
    }
  }

  lemma EmptyAddressRecordsStep(rows: seq<Row>, scenarioKey: string)
    requires rows != []
    ensures var r := rows[|rows| - 1];
      EmptyAddressRecords(rows, scenarioKey) == EmptyAddressRecords(rows[..|rows| - 1], scenarioKey)
        + (if Trim(r.address) == "" then [EmptyAddressRecord(scenarioKey, r.rowNum)] else [])
  {
  }

  /** Every row with an empty address has its error record, naming its row number. */
  lemma {:induction false} EmptyAddressRowReported(rows: seq<Row>, scenarioKey: string, i: nat)
    requires i < |rows| && Trim(rows[i].address) == ""
    ensures EmptyAddressRecord(scenarioKey, rows[i].rowNum) in EmptyAddressRecords(rows, scenarioKey)
    decreases |rows|
  {
    var n := |rows| - 1;
    var prev := EmptyAddressRecords(rows[..n], scenarioKey);
    var rec := EmptyAddressRecord(scenarioKey, rows[i].rowNum);
    var tail := if Trim(rows[n].address) == "" then [EmptyAddressRecord(scenarioKey, rows[n].rowNum)] else [];
    EmptyAddressRecordsStep(rows, scenarioKey);
    if i < n {
      assert rows[..n][i] == rows[i];
      EmptyAddressRowReported(rows[..n], scenarioKey, i);
      Lists.InAppend(prev, tail, rec);
    } else {
      assert i == n;
      assert Trim(rows[n].address) == "";
      assert tail == [rec];
      Lists.InAppend(tail, prev, rec);
    }
  }

  /** A value of the map: an address, and one time per row number, at least one. */
  predicate BatchFilled(b: Batch) {
    b.address != "" && |b.times| == |b.rowNums| >= 1
  }

  /** The map's invariant: distinct keys and filled values. */
  predicate WellFormedBatches(batches: seq<Batch>) {
    Lists.DistinctBy(batches, KeyOfBatch) && forall i :: 0 <= i < |batches| ==> BatchFilled(batches[i])
  }

  /** With distinct keys, the batch with a key is where the lookup finds it. */
  lemma FindBatchUnique(batches: seq<Batch>, key: string, j: nat)
    requires Lists.DistinctBy(batches, KeyOfBatch) && j < |batches| && KeyOfBatch(batches[j]) == key
    ensures FindBatch(batches, key) == Some(j)
  {
  }

  /** Filing a row keeps the keys distinct and every batch filled. */
  lemma EnterWellFormed(batches: seq<Batch>, address: string, dateRaw: string, timeRaw: string, rowNum: nat)
    requires WellFormedBatches(batches) && address != ""
    ensures WellFormedBatches(Enter(batches, address, dateRaw, timeRaw, rowNum))
  {
    var e := Enter(batches, address, dateRaw, timeRaw, rowNum);
    assert forall i :: 0 <= i < |batches| ==> KeyOfBatch(e[i]) == KeyOfBatch(batches[i]);
  }

  /** After filing, the lookup of the row's key finds a batch holding its row number and time. */
  lemma EnterFinds(batches: seq<Batch>, address: string, dateRaw: string, timeRaw: string, rowNum: nat)
    requires WellFormedBatches(batches) && address != ""
    ensures var e := Enter(batches, address, dateRaw, timeRaw, rowNum);
      var k := FindBatch(e, BatchKey(address, dateRaw));
      k.Some? && rowNum in e[k.value].rowNums && timeRaw in e[k.value].times
  {
    var e := Enter(batches, address, dateRaw, timeRaw, rowNum);
    var key := BatchKey(address, dateRaw);
    EnterWellFormed(batches, address, dateRaw, timeRaw, rowNum);
    match FindBatch(batches, key)
    case None =>
      FindBatchUnique(e, key, |batches|);
    case Some(k) =>
      FindBatchUnique(e, key, k);
  }

  /** Filing a row leaves every batch where it was, under its key, with what it held. */
  lemma EnterKeeps(batches: seq<Batch>, address: string, dateRaw: string, timeRaw: string, rowNum: nat, j: nat)
    requires j < |batches|
    ensures var e := Enter(batches, address, dateRaw, timeRaw, rowNum);
      && j < |e| && KeyOfBatch(e[j]) == KeyOfBatch(batches[j])
      && batches[j].times <= e[j].times && batches[j].rowNums <= e[j].rowNums
  {
  }

  /** The first loop keeps the map's keys distinct and each value filled. */
  lemma {:induction false} BatchesWellFormed(rows: seq<Row>)
    ensures WellFormedBatches(Batches(rows))
    decreases |rows|
  {
    if rows != [] {
      var n := |rows| - 1;
      var r := rows[n];
      BatchesWellFormed(rows[..n]);
      if Trim(r.address) != "" {
        EnterWellFormed(Batches(rows[..n]), Trim(r.address), Trim(r.dateRaw), Trim(r.timeRaw), r.rowNum);
      }
    }
  }

  /**
    A row with an address ends up in the batch of its (address, date) key,
    with its row number and its trimmed time.
  */
  lemma {:induction false} RowInBatch(rows: seq<Row>, i: nat)
    requires i < |rows| && Trim(rows[i].address) != ""
    ensures var bs := Batches(rows);
      var k := FindBatch(bs, RowKey(rows[i]));
      k.Some? && rows[i].rowNum in bs[k.value].rowNums && Trim(rows[i].timeRaw) in bs[k.value].times
    decreases |rows|
  {
    var n := |rows| - 1;
    var r := rows[n];
    var prev := Batches(rows[..n]);
    BatchesWellFormed(rows[..n]);
    if i == n {
      EnterFinds(prev, Trim(r.address), Trim(r.dateRaw), Trim(r.timeRaw), r.rowNum);
    } else {
      assert rows[..n][i] == rows[i];
      RowInBatch(rows[..n], i);
      var k := FindBatch(prev, RowKey(rows[i])).value;
      var bs := Batches(rows);
      BatchesWellFormed(rows);
      if Trim(r.address) != "" {
        EnterKeeps(prev, Trim(r.address), Trim(r.dateRaw), Trim(r.timeRaw), r.rowNum, k);
      }
      Lists.PrefixHas(prev[k].rowNums, bs[k].rowNums, rows[i].rowNum);
      Lists.PrefixHas(prev[k].times, bs[k].times, Trim(rows[i].timeRaw));
      FindBatchUnique(bs, RowKey(rows[i]), k);
    }
  }

  /** Rows with the same trimmed address and date share one batch, hence one record. */
  lemma SameAddressAndDateOneBatch(rows: seq<Row>, i: nat, j: nat)
    requires i < |rows| && j < |rows| && Trim(rows[i].address) != ""
    requires Trim(rows[i].address) == Trim(rows[j].address) && Trim(rows[i].dateRaw) == Trim(rows[j].dateRaw)
    ensures var bs := Batches(rows);
      var k := FindBatch(bs, RowKey(rows[i]));
      k.Some? && rows[i].rowNum in bs[k.value].rowNums && rows[j].rowNum in bs[k.value].rowNums
  {
    RowInBatch(rows, i);
    RowInBatch(rows, j);
  }

  /**
    The reschedule path gives one error record per empty address and then
    one record per batch, in the batches' order.
  */
  lemma RescheduleShape(templates: seq<Template>, scenarioKey: string, rows: seq<Row>, k: nat)
    requires k < |Batches(rows)|
    ensures var out := RescheduleRecords(templates, scenarioKey, rows);
      && |out| == EmptyAddressRows(rows) + |Batches(rows)|
      && out[EmptyAddressRows(rows) + k]
         == BatchRecord(FindTemplate(templates, "obhod", scenarioKey, true), scenarioKey, Batches(rows)[k])
  {
    EmptyAddressRecordsCount(rows, scenarioKey);
  }

  /** One more row either adds an error record or is filed into a batch. */
  lemma GatherStep(rows: seq<Row>, scenarioKey: string, i: nat)
    requires i < |rows|
    ensures var r := rows[i];
      && EmptyAddressRecords(rows[..i + 1], scenarioKey)
         == EmptyAddressRecords(rows[..i], scenarioKey)
            + (if Trim(r.address) == "" then [EmptyAddressRecord(scenarioKey, r.rowNum)] else [])
      && Batches(rows[..i + 1])
         == (if Trim(r.address) == "" then Batches(rows[..i])
             else Enter(Batches(rows[..i]), Trim(r.address), Trim(r.dateRaw), Trim(r.timeRaw), r.rowNum))
  {
    assert rows[..i + 1][..i] == rows[..i];
  }

  /** `groups.get(k)`, creating the entry when absent, then the two pushes. */
  method FileRow(batches: seq<Batch>, address: string, dateRaw: string, timeRaw: string, rowNum: nat)
    returns (next: seq<Batch>)
    ensures next == Enter(batches, address, dateRaw, timeRaw, rowNum)
  {
    var k := FindBatch(batches, BatchKey(address, dateRaw));
    if k.None? {
      next := batches + [Batch(address, dateRaw, [timeRaw], [rowNum])];
    } else {
      var b := batches[k.value];
      next := batches[k.value := b.(times := b.times + [timeRaw], rowNums := b.rowNums + [rowNum])];
    }
  }

  /** The first loop of the reschedule path: fill `groups` and push the empty-address errors. */
  method GatherRescheduleRows(rows: seq<Row>, scenarioKey: string) returns (errors: seq<Record>, batches: seq<Batch>)
    ensures errors == EmptyAddressRecords(rows, scenarioKey) && batches == Batches(rows)
  {
    errors, batches := [], [];
    var i := 0;
    while i < |rows|
      invariant 0 <= i <= |rows|
      invariant errors == EmptyAddressRecords(rows[..i], scenarioKey) && batches == Batches(rows[..i])
    {
      GatherStep(rows, scenarioKey, i);
      var r := rows[i];
      var address := Trim(r.address);
      if address == "" {
        errors := errors + [EmptyAddressRecord(scenarioKey, r.rowNum)];
      } else {
        var dateRaw := Trim(r.dateRaw);
        var timeRaw := Trim(r.timeRaw);
        batches := FileRow(batches, address, dateRaw, timeRaw, r.rowNum);
      }
      i := i + 1;
    }
    assert rows[..i] == rows;
  }

  /** The reschedule path: the first loop, then one record per value of `groups`. */
  method GenerateReschedule(templates: seq<Template>, scenarioKey: string, rows: seq<Row>) returns (out: seq<Record>)
    ensures out == RescheduleRecords(templates, scenarioKey, rows)
  {
    var errors, batches := GatherRescheduleRows(rows, scenarioKey);
    var tpl := FindTemplate(templates, "obhod", scenarioKey, true);
    ghost var want := BatchRecords(tpl, scenarioKey, batches);
    var recs := [];
    var i := 0;
    while i < |batches|
      invariant 0 <= i <= |batches| && recs == want[..i]
    {
      var b := batches[i];
      var rec;
      if tpl.None? {
        rec := ErrorRecord("obhod", scenarioKey, b.address, "", "", NoTemplateError(scenarioKey));
      } else {
        var f := Obhod.FormatObhodDateTimeHumanMulti(b.dateRaw, b.times);
        if f.Err? {
          rec := ErrorRecord("obhod", scenarioKey, b.address, "", "", RowsError(b.rowNums, f.error));
        } else {
          rec := RenderedRecord(tpl.value, [("ADDRESS", Some(b.address)), ("NEWS_DATETIME", Some(f.value))],
            "obhod", scenarioKey, b.address, "", "", "ok", "");
        }
      }
      Lists.PrefixGrows(want, i);
      recs := recs + [rec];
      i := i + 1;
    }
    Lists.PrefixWhole(want);
    out := errors + recs;
  }

  // ---------------------------------------------------------------------------
  // Obhod: the regular scenario, one record per item (app/app/page.js:428-478)

  /** `it.vars`: `{ ADDRESS, NEWS_DATETIME, PUSH_DAY, PUSH_TIME }`. */
  function ItemBindings(v: ObhodEngine.Vars): Bindings {
    [("ADDRESS", Some(v.address)), ("NEWS_DATETIME", Some(v.newsDateTime)),
     ("PUSH_DAY", Some(v.pushDay)), ("PUSH_TIME", Some(v.pushTime))]
  }

  /** The record one item gives. */
  function ItemRecord(templates: seq<Template>, it: ObhodEngine.Item): Record {
    match FindTemplate(templates, "obhod", it.scenarioKey, true)
    case None =>
      ErrorRecord("obhod", it.scenarioKey, it.address, it.dateListHuman, it.timeRangeHuman, NoTemplateError(it.scenarioKey))
    case Some(tpl) =>
      RenderedRecord(tpl, ItemBindings(it.vars), "obhod", it.scenarioKey, it.address, it.dateListHuman,
        it.timeRangeHuman, "ok", "")
  }

  /**
    An item's record copies the item's fields, and is an error, naming the
    scenario, exactly when no active template has the item's scenario.
  */
  lemma ItemRecordMeaning(templates: seq<Template>, it: ObhodEngine.Item)
    ensures var rec := ItemRecord(templates, it);
      && rec.eventType == "obhod" && rec.scenarioKey == it.scenarioKey && rec.address == it.address
      && rec.dateListHuman == it.dateListHuman && rec.timeRangeHuman == it.timeRangeHuman
      && (rec.status == "error" <==> !HasTemplate(templates, "obhod", it.scenarioKey, true))
      && (rec.status == "error" ==> rec.errorText == NoTemplateError(it.scenarioKey))
  {
    FindTemplateFacts(templates, "obhod", it.scenarioKey, true);
  }

  function ItemRecords(templates: seq<Template>, items: seq<ObhodEngine.Item>): (out: seq<Record>)
    ensures |out| == |items|
  {
    seq(|items|, i requires 0 <= i < |items| => ItemRecord(templates, items[i]))
  }

  /** The loop over the items: one record per item, in the items' order. */
  method GenerateRegular(templates: seq<Template>, items: seq<ObhodEngine.Item>) returns (out: seq<Record>)
    ensures out == ItemRecords(templates, items)
  {
    ghost var want := ItemRecords(templates, items);
    out := [];
    var i := 0;
    while i < |items|
      invariant 0 <= i <= |items| && out == want[..i]
    {
      var it := items[i];
      var tpl := FindTemplate(templates, "obhod", it.scenarioKey, true);
      var rec;
      if tpl.None? {
        rec := ErrorRecord("obhod", it.scenarioKey, it.address, it.dateListHuman, it.timeRangeHuman,
          NoTemplateError(it.scenarioKey));
      } else {
        rec := RenderedRecord(tpl.value, ItemBindings(it.vars), "obhod", it.scenarioKey, it.address,
          it.dateListHuman, it.timeRangeHuman, "ok", "");
      }
      Lists.PrefixGrows(want, i);
      out := out + [rec];
      i := i + 1;
    }
    Lists.PrefixWhole(want);
  }

  // ---------------------------------------------------------------------------
  // Pickets and meetings (app/app/page.js:482-557)

  const PlaceTextMissing: string := "Не заполнено место (PLACE_TEXT)"
  const PlacePushMissing: string := "Не выбран вариант PLACE_PUSH"
  const TopicMissing: string := "Не заполнена тематика (TOPIC_FULL)"
  const ReasonMissing: string := "Не выбрана причина (REASON)"

  /** The rule checks, in the source's order. */
  function RuleErrors(rules: Rules, placeText: string, placePush: string, topicFull: string, reason: string)
    : seq<string>
  {
    (if rules.requiresPlaceText && placeText == "" then [PlaceTextMissing] else [])
    + (if rules.requiresPlacePush && placePush == "" then [PlacePushMissing] else [])
    + (if rules.requiresTopic && topicFull == "" then [TopicMissing] else [])
    + (if rules.requiresReason && reason == "" then [ReasonMissing] else [])
  }

  /** Each message is there exactly when its rule is on and its value empty; none at all means every rule holds. */
  lemma RuleErrorsMeaning(rules: Rules, placeText: string, placePush: string, topicFull: string, reason: string)
    ensures var errs := RuleErrors(rules, placeText, placePush, topicFull, reason);
      && (PlaceTextMissing in errs <==> rules.requiresPlaceText && placeText == "")
      && (PlacePushMissing in errs <==> rules.requiresPlacePush && placePush == "")
      && (TopicMissing in errs <==> rules.requiresTopic && topicFull == "")
      && (ReasonMissing in errs <==> rules.requiresReason && reason == "")
      && (errs == [] <==> (!(rules.requiresPlaceText && placeText == "") && !(rules.requiresPlacePush && placePush == "")
        && !(rules.requiresTopic && topicFull == "") && !(rules.requiresReason && reason == "")))
  {
  }

  /** `(g.topic_raw || "").trim()` */
  function TopicFull(g: Grouping.Group): string {
    Trim(g.topicRaw)
  }

  /** `(topicShort || topicFull || "").trim()`: a non-empty `topicShort` wins even when it trims to nothing. */
  function TopicShortFinal(g: Grouping.Group, opts: Options): string {
    Trim(if opts.topicShort != "" then opts.topicShort else TopicFull(g))
  }

  /** `${dateList} ${timeRange}`.trim() */
  function DateTime(g: Grouping.Group): string
    requires MonthsValid(g.dates)
  {
    Trim(FormatDateListHuman(g.dates) + " " + g.time.timeText)
  }

  /**
    `DATE_TIME` is the date list, one blank and the time text: the list starts
    with a day number and the time text ends with a minute digit, so the
    `.trim()` removes nothing.
  */
  lemma DateTimeUntrimmed(g: Grouping.Group)
    requires MonthsValid(g.dates) && g.dates != [] && ValidTimeRange(g.time)
    requires forall i :: 0 <= i < |g.dates| ==> g.dates[i].d >= 0
    ensures DateTime(g) == FormatDateListHuman(g.dates) + " " + g.time.timeText
  {
    DateListStartsWithDigit(g.dates);
    ObhodEngine.TimeTextEndsInDigit(g.time);
    ObhodEngine.TrimDigits(FormatDateListHuman(g.dates), g.time.timeText);
  }

  /** The `vars` of one group, in the source's order. */
  function PiketBindings(g: Grouping.Group, opts: Options): Bindings
    requires MonthsValid(g.dates)
  {
    [("ADDRESS", Some(g.address)),
     ("DATE_LIST", Some(FormatDateListHuman(g.dates))),
     ("TIME_RANGE", Some(g.time.timeText)),
     ("DATE_TIME", Some(DateTime(g))),
     ("PUSH_RELATIVE", Some(BuildPushRelative(g.dates))),
     ("PLACE_TEXT", Some(Places.FormatPlaceHuman(g.placeFinal))),
     ("PLACE_PUSH", Some(DetectPlacePushLocal(g.placeFinal))),
     ("TOPIC_FULL", Some(TopicFull(g))),
     ("TOPIC_SHORT", Some(TopicShortFinal(g, opts))),
     ("REASON", Some(opts.cancelReason)),
     ("WHEN_WORD", Some(opts.whenWord)),
     ("LINK", Some(opts.link))]
  }

  /** The rules of the template that can fail; `requires_place_push` cannot. */
  predicate RuleFails(rules: Rules, g: Grouping.Group, opts: Options) {
    || (rules.requiresPlaceText && Places.FormatPlaceHuman(g.placeFinal) == "")
    || (rules.requiresTopic && TopicFull(g) == "")
    || (rules.requiresReason && opts.cancelReason == "")
  }

  /** The rule checks of one group. */
  function GroupErrors(rules: Rules, g: Grouping.Group, opts: Options): seq<string> {
    RuleErrors(rules, Places.FormatPlaceHuman(g.placeFinal), DetectPlacePushLocal(g.placeFinal), TopicFull(g),
      opts.cancelReason)
  }

  /** A group fails the checks exactly when a rule other than the place-push one does. */
  lemma GroupErrorsMeaning(rules: Rules, g: Grouping.Group, opts: Options)
    ensures PlacePushMissing !in GroupErrors(rules, g, opts)
    ensures GroupErrors(rules, g, opts) == [] <==> !RuleFails(rules, g, opts)
  {
    DetectPlacePushLocalMeaning(g.placeFinal);
    RuleErrorsMeaning(rules, Places.FormatPlaceHuman(g.placeFinal), DetectPlacePushLocal(g.placeFinal), TopicFull(g),
      opts.cancelReason);
  }

  /** The record one group gives. */
  function PiketRecord(tpl: Template, tab: string, scenarioKey: string, opts: Options, g: Grouping.Group): Record
    requires MonthsValid(g.dates)
  {
    var errs := GroupErrors(tpl.rules, g, opts);
    RenderedRecord(tpl, PiketBindings(g, opts), tab, scenarioKey, g.address, FormatDateListHuman(g.dates),
      g.time.timeText, if |errs| > 0 then "error" else "ok", Join(errs, "; "))
  }

  /**
    A group's record has the group's address, date list and time text, and is
    an error exactly when a rule that can fail does, with the failing
    messages joined by "; ".
  */
  lemma PiketRecordMeaning(tpl: Template, tab: string, scenarioKey: string, opts: Options, g: Grouping.Group)
    requires MonthsValid(g.dates)
    ensures var rec := PiketRecord(tpl, tab, scenarioKey, opts, g);
      && rec.eventType == tab && rec.scenarioKey == scenarioKey && rec.address == g.address
      && rec.dateListHuman == FormatDateListHuman(g.dates) && rec.timeRangeHuman == g.time.timeText
      && (rec.status == "error" <==> RuleFails(tpl.rules, g, opts))
      && (rec.status == "ok" || rec.status == "error")
      && rec.errorText == Join(GroupErrors(tpl.rules, g, opts), "; ")
  {
    GroupErrorsMeaning(tpl.rules, g, opts);
  }

  predicate GroupsDated(groups: seq<Grouping.Group>) {
    forall i :: 0 <= i < |groups| ==> MonthsValid(groups[i].dates)
  }

  /** The records of the groups, one per group, in order. */
  function PiketRecords(tpl: Template, tab: string, scenarioKey: string, opts: Options, groups: seq<Grouping.Group>)
    : (out: seq<Record>)
    requires GroupsDated(groups)
    ensures |out| == |groups|
  {
    seq(|groups|, i requires 0 <= i < |groups| => PiketRecord(tpl, tab, scenarioKey, opts, groups[i]))
  }

  /** The record at a position is the record of the group there, with its meaning. */
  lemma PiketRecordsMeaning(tpl: Template, tab: string, scenarioKey: string, opts: Options,
                            groups: seq<Grouping.Group>, i: nat)
    requires GroupsDated(groups) && i < |groups|
    ensures var rec := PiketRecords(tpl, tab, scenarioKey, opts, groups)[i];
      && rec.address == groups[i].address
      && (rec.status == "error" <==> RuleFails(tpl.rules, groups[i], opts))
  {
    PiketRecordMeaning(tpl, tab, scenarioKey, opts, groups[i]);
  }

  /** Every date `buildGroups` puts in a group is a real date. */
  lemma GroupDatesValid(rows: seq<Row>, eventType: string, scenarioKey: string, overrides: map<nat, string>, i: nat)
    requires i < |Grouping.BuildGroupsSpec(rows, eventType, scenarioKey, overrides).groups|
    ensures Grouping.AllValidDates(Grouping.BuildGroupsSpec(rows, eventType, scenarioKey, overrides).groups[i].dates)
  {
    var out := Grouping.BuildGroupsSpec(rows, eventType, scenarioKey, overrides);
    var vs := Grouping.Verdicts(rows);
    var ks := Grouping.Keys(vs, eventType, scenarioKey);
    Grouping.BuildGroupsCorrect(rows, eventType, scenarioKey, overrides);
    var g := out.groups[i];
    assert Grouping.FinishedGroup(g, rows, vs, ks, eventType, scenarioKey, overrides);
    var sel := Grouping.Select(vs, ks, g.key);
    Grouping.VerdictsAreValid(rows);
    Grouping.SelectValid(vs, ks, g.key);
    Grouping.DatesOfValid(sel);
    forall j | 0 <= j < |g.dates|
      ensures ValidDate(g.dates[j])
    {
      assert g.dates[j] in Grouping.DatesOf(sel);
    }
  }

  /** So every group's months are 1..12, as the date phrases need. */
  lemma GroupsAreDated(rows: seq<Row>, eventType: string, scenarioKey: string, overrides: map<nat, string>)
    ensures GroupsDated(Grouping.BuildGroupsSpec(rows, eventType, scenarioKey, overrides).groups)
  {
    var groups := Grouping.BuildGroupsSpec(rows, eventType, scenarioKey, overrides).groups;
    forall i | 0 <= i < |groups|
      ensures MonthsValid(groups[i].dates)
    {
      GroupDatesValid(rows, eventType, scenarioKey, overrides, i);
    }
  }

  /** The loop over the groups: one record per group, in the groups' order. */
  method GeneratePiket(tpl: Template, tab: string, scenarioKey: string, opts: Options, groups: seq<Grouping.Group>)
    returns (out: seq<Record>)
    requires GroupsDated(groups)
    ensures out == PiketRecords(tpl, tab, scenarioKey, opts, groups)
  {
    ghost var want := PiketRecords(tpl, tab, scenarioKey, opts, groups);
    out := [];
    var i := 0;
    while i < |groups|
      invariant 0 <= i <= |groups| && out == want[..i]
    {
      var rec := PiketRecord(tpl, tab, scenarioKey, opts, groups[i]);
      Lists.PrefixGrows(want, i);
      out := out + [rec];
      i := i + 1;
    }
    Lists.PrefixWhole(want);
  }

  // ---------------------------------------------------------------------------
  // generate()

  /**
    What `generate()` leaves in the page's state: the results, and the row
    errors where it sets them (`None` when it returns before doing so).
  */
  datatype Generated = Generated(results: seq<Record>, rowErrors: Option<seq<RowError>>)

  /** The obhod tab, over the patched rows. */
  function ObhodSpec(scenarioKey: string, patched: seq<Row>, templates: seq<Template>): Generated {
    if IsManual(scenarioKey) then
      if scenarioKey == "reschedule" then Generated(RescheduleRecords(templates, scenarioKey, patched), Some([]))
      else Generated(CancelRecords(templates, scenarioKey, patched), Some([]))
    else
      var res := ObhodEngine.BuildObhodResults(patched);
      Generated(ItemRecords(templates, res.items), Some(res.rowErrors))
  }

  /** Any other tab: pickets and meetings, through the template that ignores `is_active`. */
  function PiketSpec(tab: string, scenarioKey: string, patched: seq<Row>, templates: seq<Template>, opts: Options)
    : Generated
  {
    match FindTemplate(templates, tab, scenarioKey, false)
    case None => Generated([], None)
    case Some(tpl) =>
      var grouped := Grouping.BuildGroupsSpec(patched, tab, scenarioKey, map[]);
      GroupsAreDated(patched, tab, scenarioKey, map[]);
      Generated(PiketRecords(tpl, tab, scenarioKey, opts, grouped.groups), Some(grouped.rowErrors))
  }

  /** `generate()` over the page state it reads. */
  function GenerateSpec(tab: string, scenarioKey: string, rows: seq<Row>, edits: map<string, string>,
                        templates: seq<Template>, opts: Options): Generated
  {
    if tab == "obhod" then ObhodSpec(scenarioKey, ObhodRows(edits, rows), templates)
    else PiketSpec(tab, scenarioKey, PiketRows(edits, rows), templates, opts)
  }

  /** `generate()`: pick the path by tab and scenario and run its loop. */
  method Generate(tab: string, scenarioKey: string, rows: seq<Row>, edits: map<string, string>,
                  templates: seq<Template>, opts: Options) returns (g: Generated)
    ensures g == GenerateSpec(tab, scenarioKey, rows, edits, templates, opts)
  {
    if tab == "obhod" {
      var patched := ObhodRows(edits, rows);
      if IsManual(scenarioKey) {
        var out;
        if scenarioKey == "reschedule" {
          out := GenerateReschedule(templates, scenarioKey, patched);
        } else {
          out := GenerateCancel(templates, scenarioKey, patched);
        }
        return Generated(out, Some([]));
      }
      var res := ObhodEngine.BuildObhodResultsFromRows(patched);
      var out := GenerateRegular(templates, res.items);
      return Generated(out, Some(res.rowErrors));
    }
    var tpl := FindTemplate(templates, tab, scenarioKey, false);
    if tpl.None? {
      return Generated([], None);
    }
    var patched := PiketRows(edits, rows);
    var groups, rowErrors := Grouping.BuildGroups(patched, tab, scenarioKey, map[]);
    GroupsAreDated(patched, tab, scenarioKey, map[]);
    var out := GeneratePiket(tpl.value, tab, scenarioKey, opts, groups);
    return Generated(out, Some(rowErrors));
  }

  // ---------------------------------------------------------------------------
  // What the paths promise

  /** Cancellation: one record per input row, in order, each as `CancelRecordMeaning` says. */
  lemma CancelPath(tab: string, scenarioKey: string, rows: seq<Row>, edits: map<string, string>,
                   templates: seq<Template>, opts: Options, i: nat)
    requires tab == "obhod" && (scenarioKey == "cancel_generic" || scenarioKey == "cancel_quorum") && i < |rows|
    ensures var g := GenerateSpec(tab, scenarioKey, rows, edits, templates, opts);
      var r := PatchObhodRow(edits, rows[i]);
      && |g.results| == |rows| && g.rowErrors == Some([])
      && (Trim(r.address) == "" ==> g.results[i].status == "error" && g.results[i].errorText == EmptyAddressError(rows[i].rowNum))
      && (Trim(r.address) != "" && !HasTemplate(templates, "obhod", scenarioKey, true) ==>
            g.results[i].errorText == NoTemplateError(scenarioKey))
      && (g.results[i].status == "ok" <==> Trim(r.address) != "" && HasTemplate(templates, "obhod", scenarioKey, true))
  {
    var patched := ObhodRows(edits, rows);
    assert patched[i] == PatchObhodRow(edits, rows[i]);
    CancelRecordMeaning(templates, scenarioKey, patched[i]);
  }

  /** Regular obhod: one record per item, an error exactly when no active template has the item's scenario. */
  lemma RegularPath(tab: string, scenarioKey: string, rows: seq<Row>, edits: map<string, string>,
                    templates: seq<Template>, opts: Options, i: nat)
    requires tab == "obhod" && !IsManual(scenarioKey)
    requires i < |ObhodEngine.BuildObhodResults(ObhodRows(edits, rows)).items|
    ensures var g := GenerateSpec(tab, scenarioKey, rows, edits, templates, opts);
      var it := ObhodEngine.BuildObhodResults(ObhodRows(edits, rows)).items[i];
      && |g.results| == |ObhodEngine.BuildObhodResults(ObhodRows(edits, rows)).items|
      && g.results[i].scenarioKey == it.scenarioKey && g.results[i].address == it.address
      && (g.results[i].status == "error" <==> !HasTemplate(templates, "obhod", it.scenarioKey, true))
  {
    var it := ObhodEngine.BuildObhodResults(ObhodRows(edits, rows)).items[i];
    ItemRecordMeaning(templates, it);
  }

  /** Pickets and meetings without a template, active or not, give no records and leave the row errors alone. */
  lemma PiketWithoutTemplate(tab: string, scenarioKey: string, rows: seq<Row>, edits: map<string, string>,
                             templates: seq<Template>, opts: Options)
    requires tab != "obhod" && !HasTemplate(templates, tab, scenarioKey, false)
    ensures GenerateSpec(tab, scenarioKey, rows, edits, templates, opts) == Generated([], None)
  {
    FindTemplateFacts(templates, tab, scenarioKey, false);
  }

  /**
    Pickets and meetings: one record per group; a record is an error exactly
    when a rule that can fail does, the place-push rule never being one.
  */
  lemma PiketPath(tab: string, scenarioKey: string, rows: seq<Row>, templates: seq<Template>, opts: Options, i: nat)
    requires tab != "obhod" && HasTemplate(templates, tab, scenarioKey, false)
    requires i < |Grouping.BuildGroupsSpec(rows, tab, scenarioKey, map[]).groups|
    ensures FindTemplate(templates, tab, scenarioKey, false).Some?
    ensures var g := PiketSpec(tab, scenarioKey, rows, templates, opts);
      var grouped := Grouping.BuildGroupsSpec(rows, tab, scenarioKey, map[]);
      var tpl := FindTemplate(templates, tab, scenarioKey, false).value;
      && |g.results| == |grouped.groups| && g.rowErrors == Some(grouped.rowErrors)
      && g.results[i].address == grouped.groups[i].address
      && (g.results[i].status == "error" <==> RuleFails(tpl.rules, grouped.groups[i], opts))
      && PlacePushMissing !in GroupErrors(tpl.rules, grouped.groups[i], opts)
  {
    FindTemplateFacts(templates, tab, scenarioKey, false);
    var grouped := Grouping.BuildGroupsSpec(rows, tab, scenarioKey, map[]);
    var tpl := FindTemplate(templates, tab, scenarioKey, false).value;
    GroupsAreDated(rows, tab, scenarioKey, map[]);
    assert PiketSpec(tab, scenarioKey, rows, templates, opts)
      == Generated(PiketRecords(tpl, tab, scenarioKey, opts, grouped.groups), Some(grouped.rowErrors));
    PiketRecordsMeaning(tpl, tab, scenarioKey, opts, grouped.groups, i);
    GroupErrorsMeaning(tpl.rules, grouped.groups[i], opts);
  }

  // ---------------------------------------------------------------------------
  // As written

  /**
    `generate()` as written: the regular obhod path calls the engine as
    written. When that throws, the results stay as `generate()` cleared them
    and `setRowErrors` is never reached.
  */
  function GenerateAsWritten(tab: string, scenarioKey: string, rows: seq<Row>, edits: map<string, string>,
                             templates: seq<Template>, opts: Options): Generated
  {
    if tab == "obhod" && !IsManual(scenarioKey) then
      match ObhodEngine.BuildObhodResultsAsWritten(ObhodRows(edits, rows))
      case Err(_) => Generated([], None)
      case Ok(_) => GenerateSpec(tab, scenarioKey, rows, edits, templates, opts)
    else GenerateSpec(tab, scenarioKey, rows, edits, templates, opts)
  }

  /**
    As written, one pasted row that passes the engine's checks leaves a
    regular-scenario `generate()` with no records and the row errors unset,
    where the corrected engine gives at least one record.
  */
  lemma AsWrittenRegularPathEmpty(tab: string, scenarioKey: string, rows: seq<Row>, edits: map<string, string>,
                                  templates: seq<Template>, opts: Options, i: nat)
    requires tab == "obhod" && !IsManual(scenarioKey) && i < |rows|
    requires ObhodEngine.CheckRow(PatchObhodRow(edits, rows[i])).Ok?
    ensures GenerateAsWritten(tab, scenarioKey, rows, edits, templates, opts) == Generated([], None)
    ensures GenerateSpec(tab, scenarioKey, rows, edits, templates, opts).results != []
  {
    var patched := ObhodRows(edits, rows);
    assert patched[i] == PatchObhodRow(edits, rows[i]);
    ObhodEngine.AsWrittenThrowsOnValidRow(patched, i);
    var res := ObhodEngine.BuildObhodResults(patched);
    assert GenerateSpec(tab, scenarioKey, rows, edits, templates, opts)
      == Generated(ItemRecords(templates, res.items), Some(res.rowErrors));
  }

  /** As written, the page differs from the corrected model only where the engine throws. */
  lemma AsWrittenAgreesOtherwise(tab: string, scenarioKey: string, rows: seq<Row>, edits: map<string, string>,
                                 templates: seq<Template>, opts: Options)
    requires !(tab == "obhod" && !IsManual(scenarioKey))
      || forall i :: 0 <= i < |rows| ==> ObhodEngine.CheckRow(PatchObhodRow(edits, rows[i])).Err?
    ensures GenerateAsWritten(tab, scenarioKey, rows, edits, templates, opts)
      == GenerateSpec(tab, scenarioKey, rows, edits, templates, opts)
  {
    if tab == "obhod" && !IsManual(scenarioKey) {
      var patched := ObhodRows(edits, rows);
      forall i | 0 <= i < |patched|
        ensures ObhodEngine.CheckRow(patched[i]).Err?
      {
        assert patched[i] == PatchObhodRow(edits, rows[i]);
      }
      ObhodEngine.NoValidRowNoItems(patched);
    }
  }
}
