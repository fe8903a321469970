/**
  `parseTSV(tsv, eventType)`: rows pasted from a spreadsheet, one event per
  line, columns separated by tabs (lib/generator.js:152-221).
*/
module Tsv {
  import opened Wrappers
  import opened Text

  /**
    A parsed row. Every event type has the row number, district, address,
    date and time; the other columns exist only for some types and are
    `None` (JavaScript `undefined`) otherwise.
  */
  datatype Row = Row(
    rowNum: nat,
    okrugRow: string,
    address: string,
    dateRaw: string,
    timeRaw: string,
    raionRaw: Option<string>,
    placeRaw: Option<string>,
    topicRaw: Option<string>,
    ossStartRaw: Option<string>,
    ossEndRaw: Option<string>,
    meetingTypeRaw: Option<string>,
    linkRaw: Option<string>)

  /** `row[field]` for the field names the generator uses. */
  function Field(r: Row, name: string): Option<string> {
    match name
    case "okrug_row" => Some(r.okrugRow)
    case "address" => Some(r.address)
    case "date_raw" => Some(r.dateRaw)
    case "time_raw" => Some(r.timeRaw)
    case "raion_raw" => r.raionRaw
    case "place_raw" => r.placeRaw
    case "topic_raw" => r.topicRaw
    case "oss_start_raw" => r.ossStartRaw
    case "oss_end_raw" => r.ossEndRaw
    case "meeting_type_raw" => r.meetingTypeRaw
    case "link_raw" => r.linkRaw
    case _ => None
  }

  /** `{ rowNum, error }`: a row the later stages reject, with the reason. */
  datatype RowError = RowError(rowNum: nat, error: string)

  /** `{ rows, errors }` */
  datatype Parsed = Parsed(rows: seq<Row>, errors: seq<string>)

  // ---------------------------------------------------------------------------
  // Lines and columns

  /** `xs.map(x => x.trim())` */
  function TrimAll(xs: seq<string>): (r: seq<string>)
    ensures |r| == |xs|
    ensures forall k :: 0 <= k < |xs| ==> r[k] == Trim(xs[k])
  {
    seq(|xs|, k requires 0 <= k < |xs| => Trim(xs[k]))
  }

  /** `xs.filter(x => x.length > 0)` */
  function DropEmpty(xs: seq<string>): (r: seq<string>)
    ensures |r| <= |xs|
    ensures forall k :: 0 <= k < |r| ==> r[k] != "" && r[k] in xs
  {
    if xs == [] then []
    else (if xs[0] == "" then [] else [xs[0]]) + DropEmpty(xs[1..])
  }

  /**
    The non-blank lines of the paste, trimmed. Splitting on `\n` alone and
    trimming gives what splitting on `\r?\n` and trimming gives, since a `\r`
    left at the end of a line is white space (see `TrimDropsCarriageReturn`).
  */
  function Lines(tsv: string): seq<string> {
    DropEmpty(TrimAll(Split(tsv, '\n')))
  }

  /** `line.split("\t").map(c => c.trim())` */
  function Columns(line: string): (cols: seq<string>)
    ensures |cols| >= 1
  {
    TrimAll(Split(line, '\t'))
  }

  /** The number of columns a row of the given event type needs. */
  function MinColumns(eventType: string): nat {
    if eventType == "obhod" then 4 else 8
  }

  /** The error for a line with too few columns. */
  function ColumnsError(eventType: string, rowNum: nat): string {
    "Строка " + NatToString(rowNum) + ": " +
    if eventType == "obhod" then
      "ожидалось 4 колонки (Округ, Адрес, Дата обхода, Время обхода)"
    else if eventType == "vstrecha" then
      "ожидалось 8 колонок (Округ, Район, Адреса..., Место встречи, Тематика, Дата, Время, Тип встречи)"
    else
      "ожидалось 8 колонок (Округ, Адрес, Дата старта, Дата окончания, Тематика, Место проведения, Дата, Время)"
  }

  /** The row object built from the columns of a long enough line. */
  function RowOfColumns(eventType: string, rowNum: nat, cols: seq<string>): Row
    requires |cols| >= MinColumns(eventType)
  {
    if eventType == "obhod" then
      Row(rowNum, cols[0], cols[1], cols[2], cols[3], None, None, None, None, None, None, None)
    else if eventType == "vstrecha" then
      Row(rowNum, cols[0], cols[2], cols[5], cols[6], Some(cols[1]), Some(cols[3]), Some(cols[4]),
          None, None, Some(cols[7]), Some(if |cols| > 8 then cols[8] else ""))
    else
      Row(rowNum, cols[0], cols[1], cols[6], cols[7], None, Some(cols[5]), Some(cols[4]),
          Some(cols[2]), Some(cols[3]), None, None)
  }

  /** One line becomes a row or an error. */
  function LineOutcome(eventType: string, rowNum: nat, line: string): Result<Row> {
    var cols := Columns(line);
    if |cols| < MinColumns(eventType) then Err(ColumnsError(eventType, rowNum))
    else Ok(RowOfColumns(eventType, rowNum, cols))
  }

  /** The outcome of every line, numbered from 1. */
  function Outcomes(lines: seq<string>, eventType: string): (outs: seq<Result<Row>>)
    ensures |outs| == |lines|
    decreases |lines|
  {
    if lines == [] then []
    else Outcomes(lines[..|lines| - 1], eventType) + [LineOutcome(eventType, |lines|, lines[|lines| - 1])]
  }

  /** The outcome at position `j` is that of line `j`, numbered `j + 1`. */
  lemma {:induction false} OutcomeAt(lines: seq<string>, eventType: string, j: nat)
    requires j < |lines|
    ensures Outcomes(lines, eventType)[j] == LineOutcome(eventType, j + 1, lines[j])
    decreases |lines|
  {
    if j < |lines| - 1 {
      OutcomeAt(lines[..|lines| - 1], eventType, j);
    }
  }

  /** The rows and the errors of a sequence of outcomes, each in order. */
  function Collect(outs: seq<Result<Row>>): Parsed
    decreases |outs|
  {
    if outs == [] then Parsed([], [])
    else
      var p := Collect(outs[..|outs| - 1]);
      match outs[|outs| - 1]
      case Ok(r) => Parsed(p.rows + [r], p.errors)
      case Err(e) => Parsed(p.rows, p.errors + [e])
  }

  /** What `parseTSV` returns. */
  function ParseTsvSpec(tsv: string, eventType: string): Parsed {
    var lines := Lines(tsv);
    if lines == [] then Parsed([], ["Пустая вставка"]) else Collect(Outcomes(lines, eventType))
  }

  /** `parseTSV(tsv, eventType)` (lib/generator.js:152-221). */
  method ParseTsv(tsv: string, eventType: string) returns (rows: seq<Row>, errors: seq<string>)
    ensures Parsed(rows, errors) == ParseTsvSpec(tsv, eventType)
  {
    var lines := Lines(tsv);
    if |lines| == 0 {
      return [], ["Пустая вставка"];
    }
    rows, errors := ParseLines(lines, eventType);
  }

  /** The loop of `parseTSV` over the non-blank lines, numbering them from 1. */
  method ParseLines(lines: seq<string>, eventType: string) returns (rows: seq<Row>, errors: seq<string>)
    ensures Parsed(rows, errors) == Collect(Outcomes(lines, eventType))
  {
    rows, errors := [], [];
    var i := 0;
    while i < |lines|
      invariant 0 <= i <= |lines|
      invariant Parsed(rows, errors) == Collect(Outcomes(lines[..i], eventType))
    {
      var cols := Columns(lines[i]);
      var rowNum := i + 1;
      ghost var outs := Outcomes(lines[..i + 1], eventType);
      assert lines[..i + 1][..i] == lines[..i];
      assert outs == Outcomes(lines[..i], eventType) + [LineOutcome(eventType, rowNum, lines[i])];
      assert outs[..i] == Outcomes(lines[..i], eventType);
      if |cols| < MinColumns(eventType) {
        errors := errors + [ColumnsError(eventType, rowNum)];
        i := i + 1;
        continue;
      }
      rows := rows + [RowOfColumns(eventType, rowNum, cols)];
      i := i + 1;
    }
    assert lines[..i] == lines;
  }

  // ---------------------------------------------------------------------------
  // Properties

  /** A line gives a row exactly when it has enough columns; the row carries the line's number. */
  lemma LineOutcomeCases(eventType: string, rowNum: nat, line: string)
    ensures LineOutcome(eventType, rowNum, line).Ok? <==> |Columns(line)| >= MinColumns(eventType)
    ensures LineOutcome(eventType, rowNum, line).Ok? ==> LineOutcome(eventType, rowNum, line).value.rowNum == rowNum
    ensures LineOutcome(eventType, rowNum, line).Err? ==>
      LineOutcome(eventType, rowNum, line).error == ColumnsError(eventType, rowNum)
  {
  }

  /** Every outcome is kept: each one is a row or an error. */
  lemma {:induction false} CollectCount(outs: seq<Result<Row>>)
    ensures |Collect(outs).rows| + |Collect(outs).errors| == |outs|
    decreases |outs|
  {
    if outs != [] {
      CollectCount(outs[..|outs| - 1]);
    }
  }

  /** Outcomes whose rows carry their 1-based position. */
  predicate Numbered(outs: seq<Result<Row>>) {
    forall j :: 0 <= j < |outs| && outs[j].Ok? ==> outs[j].value.rowNum == j + 1
  }

  /** Each collected row is the outcome at the position its number names. */
  lemma {:induction false} CollectRowsFrom(outs: seq<Result<Row>>)
    requires Numbered(outs)
    ensures var rows := Collect(outs).rows;
      forall k :: 0 <= k < |rows| ==> 1 <= rows[k].rowNum <= |outs| && outs[rows[k].rowNum - 1] == Ok(rows[k])
    decreases |outs|
  {
    if outs != [] {
      var n := |outs|;
      var init := outs[..n - 1];
      assert Numbered(init);
      CollectRowsFrom(init);
      var q := Collect(init).rows;
      var rows := Collect(outs).rows;
      CollectLast(outs);
      forall k | 0 <= k < |rows|
        ensures 1 <= rows[k].rowNum <= n && outs[rows[k].rowNum - 1] == Ok(rows[k])
      {
        if k < |q| {
          assert rows[k] == q[k];
          assert init[q[k].rowNum - 1] == outs[q[k].rowNum - 1];
        } else {
          assert rows[k] == outs[n - 1].value;
        }
      }
    }
  }

  /** The last outcome adds its row, or nothing, to the rows of the others. */
  lemma CollectLast(outs: seq<Result<Row>>)
    requires outs != []
    ensures var q := Collect(outs[..|outs| - 1]).rows;
      Collect(outs).rows == if outs[|outs| - 1].Ok? then q + [outs[|outs| - 1].value] else q
  {
  }

  /** The collected rows ascend strictly by number. */
  lemma {:induction false} CollectRowsAscend(outs: seq<Result<Row>>)
    requires Numbered(outs)
    ensures var rows := Collect(outs).rows;
      forall k, l :: 0 <= k < l < |rows| ==> rows[k].rowNum < rows[l].rowNum
    decreases |outs|
  {
    if outs != [] {
      var n := |outs|;
      var init := outs[..n - 1];
      assert Numbered(init);
      CollectRowsAscend(init);
      CollectRowsFrom(init);
      CollectLast(outs);
      var q := Collect(init).rows;
      var rows := Collect(outs).rows;
      forall k, l | 0 <= k < l < |rows| ensures rows[k].rowNum < rows[l].rowNum {
        assert rows[k] == q[k];
        if l < |q| {
          assert rows[l] == q[l];
        } else {
          assert rows[l].rowNum == n;
        }
      }
    }
  }

  /** Every outcome that is a row is collected. */
  lemma {:induction false} CollectRowsAll(outs: seq<Result<Row>>)
    requires Numbered(outs)
    ensures var rows := Collect(outs).rows;
      forall j :: 0 <= j < |outs| && outs[j].Ok? ==> exists k :: 0 <= k < |rows| && rows[k].rowNum == j + 1
    decreases |outs|
  {
    if outs != [] {
      var n := |outs|;
      var init := outs[..n - 1];
      assert Numbered(init);
      CollectRowsAll(init);
      var q := Collect(init).rows;
      var rows := Collect(outs).rows;
      CollectLast(outs);
      forall j | 0 <= j < n && outs[j].Ok?
        ensures exists k :: 0 <= k < |rows| && rows[k].rowNum == j + 1
      {
        if j == n - 1 {
          assert rows[|q|] == outs[n - 1].value;
        } else {
          assert init[j] == outs[j];
          var k :| 0 <= k < |q| && q[k].rowNum == j + 1;
          assert rows[k] == q[k];
        }
      }
    }
  }

  /**
    The rows collected from numbered outcomes ascend strictly by number, each
    is the outcome at its number, and an outcome is a row exactly when some
    collected row has its number.
  */
  lemma CollectRows(outs: seq<Result<Row>>)
    requires Numbered(outs)
    ensures var rows := Collect(outs).rows;
      && (forall k :: 0 <= k < |rows| ==> 1 <= rows[k].rowNum <= |outs| && outs[rows[k].rowNum - 1] == Ok(rows[k]))
      && (forall k, l :: 0 <= k < l < |rows| ==> rows[k].rowNum < rows[l].rowNum)
      && (forall j :: 0 <= j < |outs| ==> (outs[j].Ok? <==> exists k :: 0 <= k < |rows| && rows[k].rowNum == j + 1))
  {
    CollectRowsFrom(outs);
    CollectRowsAscend(outs);
    CollectRowsAll(outs);
  }

  /** Every collected error is the error of some outcome. */
  lemma {:induction false} CollectErrors(outs: seq<Result<Row>>)
    ensures forall e :: e in Collect(outs).errors ==>
      exists j :: 0 <= j < |outs| && outs[j] == Err(e)
    decreases |outs|
  {
    if outs != [] {
      var init := outs[..|outs| - 1];
      CollectErrors(init);
      forall e | e in Collect(init).errors
        ensures exists j :: 0 <= j < |outs| && outs[j] == Err(e)
      {
        var j :| 0 <= j < |init| && init[j] == Err(e);
        assert outs[j] == Err(e);
      }
    }
  }

  /** Outcomes that are all rows collect into exactly those rows and no errors. */
  lemma {:induction false} CollectAllOk(outs: seq<Result<Row>>)
    requires forall j :: 0 <= j < |outs| ==> outs[j].Ok?
    ensures var p := Collect(outs);
      p.errors == [] && |p.rows| == |outs| && forall j :: 0 <= j < |outs| ==> Ok(p.rows[j]) == outs[j]
    decreases |outs|
  {
    if outs != [] {
      CollectAllOk(outs[..|outs| - 1]);
    }
  }

  /**
    What the loop makes of the non-blank lines (`ParseTsvSpec` of a paste with
    at least one): every line gives one row or one error; rows ascend strictly
    by line number; each row is built from the line its number names; a line
    gives a row exactly when it has enough columns; and every error is the
    too-few-columns error of such a line.
  */
  lemma ParseLinesFacts(lines: seq<string>, eventType: string)
    ensures var p := Collect(Outcomes(lines, eventType));
      && |p.rows| + |p.errors| == |lines|
      && (forall k :: 0 <= k < |p.rows| ==>
            1 <= p.rows[k].rowNum <= |lines|
            && LineOutcome(eventType, p.rows[k].rowNum, lines[p.rows[k].rowNum - 1]) == Ok(p.rows[k]))
      && (forall k, l :: 0 <= k < l < |p.rows| ==> p.rows[k].rowNum < p.rows[l].rowNum)
      && (forall j :: 0 <= j < |lines| ==>
            (|Columns(lines[j])| >= MinColumns(eventType) <==>
              exists k :: 0 <= k < |p.rows| && p.rows[k].rowNum == j + 1))
      && (forall e :: e in p.errors ==>
            exists n :: 1 <= n <= |lines| && e == ColumnsError(eventType, n)
              && |Columns(lines[n - 1])| < MinColumns(eventType))
  {
    CollectCount(Outcomes(lines, eventType));
    OutcomesNumbered(lines, eventType);
    CollectRowsAscend(Outcomes(lines, eventType));
    ParseLinesRows(lines, eventType);
    ParseLinesCover(lines, eventType);
    ParseLinesErrors(lines, eventType);
  }

  lemma ParseLinesRows(lines: seq<string>, eventType: string)
    ensures var rows := Collect(Outcomes(lines, eventType)).rows;
      forall k :: 0 <= k < |rows| ==>
        1 <= rows[k].rowNum <= |lines|
        && LineOutcome(eventType, rows[k].rowNum, lines[rows[k].rowNum - 1]) == Ok(rows[k])
  {
    var outs := Outcomes(lines, eventType);
    var rows := Collect(outs).rows;
    RowsOfOutcomes(lines, eventType);
    forall k | 0 <= k < |rows| && 1 <= rows[k].rowNum <= |lines|
      ensures LineOutcome(eventType, rows[k].rowNum, lines[rows[k].rowNum - 1]) == Ok(rows[k])
    {
      OutcomeOk(lines, eventType, rows[k].rowNum - 1, rows[k]);
    }
  }

  lemma RowsOfOutcomes(lines: seq<string>, eventType: string)
    ensures var rows := Collect(Outcomes(lines, eventType)).rows;
      forall k :: 0 <= k < |rows| ==>
        1 <= rows[k].rowNum <= |lines| && Outcomes(lines, eventType)[rows[k].rowNum - 1] == Ok(rows[k])
  {
    OutcomesNumbered(lines, eventType);
    CollectRowsFrom(Outcomes(lines, eventType));
  }

  lemma ParseLinesCover(lines: seq<string>, eventType: string)
    ensures var rows := Collect(Outcomes(lines, eventType)).rows;
      forall j :: 0 <= j < |lines| ==>
        (|Columns(lines[j])| >= MinColumns(eventType) <==>
          exists k :: 0 <= k < |rows| && rows[k].rowNum == j + 1)
  {
    var outs := Outcomes(lines, eventType);
    OutcomesNumbered(lines, eventType);
    CollectRows(outs);
    forall j | 0 <= j < |lines|
      ensures |Columns(lines[j])| >= MinColumns(eventType) <==> outs[j].Ok?
    {
      OutcomeFacts(lines, eventType, j);
    }
  }

  lemma ParseLinesErrors(lines: seq<string>, eventType: string)
    ensures forall e :: e in Collect(Outcomes(lines, eventType)).errors ==>
      exists n :: 1 <= n <= |lines| && e == ColumnsError(eventType, n)
        && |Columns(lines[n - 1])| < MinColumns(eventType)
  {
    var outs := Outcomes(lines, eventType);
    CollectErrors(outs);
    forall e | e in Collect(outs).errors
      ensures exists n :: (1 <= n <= |lines| && e == ColumnsError(eventType, n)
        && |Columns(lines[n - 1])| < MinColumns(eventType))
    {
      var j :| 0 <= j < |outs| && outs[j] == Err(e);
      OutcomeFacts(lines, eventType, j);
      assert e == ColumnsError(eventType, j + 1);
    }
  }

  /** The outcome of the line at position `j` carries number `j + 1`. */
  lemma OutcomesNumbered(lines: seq<string>, eventType: string)
    ensures Numbered(Outcomes(lines, eventType))
  {
    var outs := Outcomes(lines, eventType);
    forall j | 0 <= j < |outs| && outs[j].Ok? ensures outs[j].value.rowNum == j + 1 {
      OutcomeFacts(lines, eventType, j);
    }
  }

  lemma OutcomeOk(lines: seq<string>, eventType: string, j: nat, r: Row)
    requires j < |lines| && Outcomes(lines, eventType)[j] == Ok(r)
    ensures LineOutcome(eventType, j + 1, lines[j]) == Ok(r)
  {
    OutcomeAt(lines, eventType, j);
  }

  /** The outcome of line `j` in the terms of its columns. */
  lemma OutcomeFacts(lines: seq<string>, eventType: string, j: nat)
    requires j < |lines|
    ensures var o := Outcomes(lines, eventType)[j];
      && (o.Ok? <==> |Columns(lines[j])| >= MinColumns(eventType))
      && (o.Ok? ==> o.value.rowNum == j + 1)
      && (o.Err? ==> o.error == ColumnsError(eventType, j + 1))
  {
    OutcomeAt(lines, eventType, j);
    LineOutcomeCases(eventType, j + 1, lines[j]);
  }

  /** A row of the given event type carries its own line's columns (an optional link defaults to ""). */
  lemma RowFields(eventType: string, rowNum: nat, cols: seq<string>)
    requires |cols| >= MinColumns(eventType)
    ensures var r := RowOfColumns(eventType, rowNum, cols);
      && r.rowNum == rowNum && r.okrugRow == cols[0]
      && (eventType == "obhod" ==>
            (r.address == cols[1] && r.dateRaw == cols[2] && r.timeRaw == cols[3]
             && r.placeRaw.None? && r.topicRaw.None? && r.linkRaw.None?))
      && (eventType == "vstrecha" ==>
            (r.address == cols[2] && r.dateRaw == cols[5] && r.timeRaw == cols[6]
             && r.raionRaw == Some(cols[1]) && r.placeRaw == Some(cols[3]) && r.topicRaw == Some(cols[4])
             && r.meetingTypeRaw == Some(cols[7])
             && r.linkRaw == Some(if |cols| >= 9 then cols[8] else "")))
      && (eventType != "obhod" && eventType != "vstrecha" ==>
            (r.address == cols[1] && r.dateRaw == cols[6] && r.timeRaw == cols[7]
             && r.ossStartRaw == Some(cols[2]) && r.ossEndRaw == Some(cols[3])
             && r.topicRaw == Some(cols[4]) && r.placeRaw == Some(cols[5])))
  {
  }

  /** Filtering a list of empty texts leaves nothing. */
  lemma {:induction false} DropEmptyBlank(xs: seq<string>)
    requires forall k :: 0 <= k < |xs| ==> xs[k] == ""
    ensures DropEmpty(xs) == []
    decreases |xs|
  {
    if xs != [] {
      DropEmptyBlank(xs[1..]);
    }
  }

  /** A paste of white space only has no non-blank line. */
  lemma BlankPasteLines(tsv: string)
    requires forall i :: 0 <= i < |tsv| ==> IsSpace(tsv[i])
    ensures Lines(tsv) == []
  {
    var parts := Split(tsv, '\n');
    SplitChars(tsv, '\n');
    forall k | 0 <= k < |parts|
      ensures Trim(parts[k]) == ""
    {
      forall j | 0 <= j < |parts[k]|
        ensures IsSpace(parts[k][j])
      {
        assert parts[k][j] in tsv;
      }
      TrimEmptyIffBlank(parts[k]);
    }
    DropEmptyBlank(TrimAll(parts));
  }

  /** A column error is never the empty-paste error. */
  lemma ColumnsErrorNotEmptyPaste(eventType: string, rowNum: nat)
    ensures ColumnsError(eventType, rowNum) != "Пустая вставка"
  {
    assert ColumnsError(eventType, rowNum)[0] == 'С';
  }

  /**
    `parseTSV` answers with no rows and the single error "Пустая вставка"
    exactly when the paste has no non-blank line; a paste of white space only
    is one.
  */
  lemma EmptyPasteIff(tsv: string, eventType: string)
    ensures ParseTsvSpec(tsv, eventType) == Parsed([], ["Пустая вставка"]) <==> Lines(tsv) == []
    ensures (forall i :: 0 <= i < |tsv| ==> IsSpace(tsv[i])) ==> ParseTsvSpec(tsv, eventType) == Parsed([], ["Пустая вставка"])
  {
    var lines := Lines(tsv);
    if lines != [] {
      ParseLinesFacts(lines, eventType);
      var p := Collect(Outcomes(lines, eventType));
      if |p.errors| == 1 {
        var e := p.errors[0];
        assert e in p.errors;
        var n :| 1 <= n <= |lines| && e == ColumnsError(eventType, n) && |Columns(lines[n - 1])| < MinColumns(eventType);
        ColumnsErrorNotEmptyPaste(eventType, n);
      }
    }
    if forall i :: 0 <= i < |tsv| ==> IsSpace(tsv[i]) {
      BlankPasteLines(tsv);
    }
  }

  /** A trailing carriage return does not survive trimming. */
  lemma TrimDropsCarriageReturn(s: string)
    ensures Trim(s + "\r") == Trim(s)
  {
    TrimStartAppend(s, "\r");
    if TrimStart(s) != [] {
      TrimEndSpace(TrimStart(s), '\r');
    }
  }

  // ---------------------------------------------------------------------------
  // Round trip

  /** A cell that survives pasting: non-empty, no outer blanks, no tab or line break. */
  predicate CleanCell(c: string) {
    c != [] && !IsSpace(c[0]) && !IsSpace(c[|c| - 1]) && '\t' !in c && '\n' !in c
  }

  predicate CleanLine(cols: seq<string>) {
    |cols| >= 1 && forall k :: 0 <= k < |cols| ==> CleanCell(cols[k])
  }

  /** `cols.join("\t")` */
  function TabLine(cols: seq<string>): string {
    Join(cols, "\t")
  }

  function TabLines(table: seq<seq<string>>): (r: seq<string>)
    ensures |r| == |table|
    ensures forall i :: 0 <= i < |table| ==> r[i] == TabLine(table[i])
  {
    seq(|table|, i requires 0 <= i < |table| => TabLine(table[i]))
  }

  /** The paste of a table: rows joined by line breaks, cells by tabs. */
  function TabText(table: seq<seq<string>>): string {
    Join(TabLines(table), "\n")
  }

  /** A clean line is one non-empty line with no outer blanks. */
  lemma CleanLineText(cols: seq<string>)
    requires CleanLine(cols)
    ensures '\n' !in TabLine(cols) && TabLine(cols) != ""
    ensures Trim(TabLine(cols)) == TabLine(cols)
  {
    JoinFree(cols, "\t", '\n');
    JoinEnds(cols, "\t");
    TrimOfUnpadded(TabLine(cols));
  }

  /** Trimming text that has no outer blanks changes nothing. */
  lemma TrimAllOfTrimmed(xs: seq<string>)
    requires forall k :: 0 <= k < |xs| ==> Trim(xs[k]) == xs[k]
    ensures TrimAll(xs) == xs
  {
  }

  /** A clean line splits back into its cells. */
  lemma CleanLineParses(cols: seq<string>)
    requires CleanLine(cols)
    ensures Columns(TabLine(cols)) == cols
  {
    assert "\t" == ['\t'];
    SplitOfJoin(cols, '\t');
    forall k | 0 <= k < |cols| ensures Trim(cols[k]) == cols[k] {
      TrimOfUnpadded(cols[k]);
    }
    TrimAllOfTrimmed(cols);
  }

  lemma {:induction false} DropEmptyOfNonEmpty(xs: seq<string>)
    requires forall k :: 0 <= k < |xs| ==> xs[k] != ""
    ensures DropEmpty(xs) == xs
  {
    if xs != [] {
      DropEmptyOfNonEmpty(xs[1..]);
      assert [xs[0]] + xs[1..] == xs;
    }
  }

  /** The non-blank lines of a pasted clean table are its rows' tab-joined lines. */
  lemma LinesOfTable(table: seq<seq<string>>)
    requires |table| >= 1
    requires forall i :: 0 <= i < |table| ==> CleanLine(table[i])
    ensures Lines(TabText(table)) == TabLines(table)
  {
    var lines := TabLines(table);
    forall i | 0 <= i < |table|
      ensures '\n' !in lines[i] && lines[i] != "" && Trim(lines[i]) == lines[i]
    {
      CleanLineText(table[i]);
    }
    assert "\n" == ['\n'];
    SplitOfJoin(lines, '\n');
    TrimAllOfTrimmed(lines);
    DropEmptyOfNonEmpty(lines);
  }

  /** A clean line with enough cells gives the row built from its cells. */
  lemma CleanLineOutcome(cols: seq<string>, eventType: string, rowNum: nat)
    requires CleanLine(cols) && |cols| >= MinColumns(eventType)
    ensures LineOutcome(eventType, rowNum, TabLine(cols)) == Ok(RowOfColumns(eventType, rowNum, cols))
  {
    CleanLineParses(cols);
  }

  /** The outcomes of a clean table's lines, each with enough columns, are its rows. */
  lemma OutcomesOfTable(table: seq<seq<string>>, eventType: string)
    requires forall i :: 0 <= i < |table| ==> CleanLine(table[i]) && |table[i]| >= MinColumns(eventType)
    ensures var p := Collect(Outcomes(TabLines(table), eventType));
      && p.errors == [] && |p.rows| == |table|
      && forall i :: 0 <= i < |table| ==> p.rows[i] == RowOfColumns(eventType, i + 1, table[i])
  {
    var lines := TabLines(table);
    var outs := Outcomes(lines, eventType);
    forall i | 0 <= i < |table| ensures outs[i] == Ok(RowOfColumns(eventType, i + 1, table[i])) {
      OutcomeAt(lines, eventType, i);
      CleanLineOutcome(table[i], eventType, i + 1);
    }
    CollectAllOk(outs);
  }

  /**
    Round trip: pasting a table of clean cells, each row with enough columns,
    gives back one row per table row, numbered from 1, built from exactly those
    cells, and no errors.
  */
  lemma ParseTable(table: seq<seq<string>>, eventType: string)
    requires |table| >= 1
    requires forall i :: 0 <= i < |table| ==> CleanLine(table[i]) && |table[i]| >= MinColumns(eventType)
    ensures var p := ParseTsvSpec(TabText(table), eventType);
      && p.errors == [] && |p.rows| == |table|
      && forall i :: 0 <= i < |table| ==> p.rows[i] == RowOfColumns(eventType, i + 1, table[i])
  {
    LinesOfTable(table);
    OutcomesOfTable(table, eventType);
  }
}
