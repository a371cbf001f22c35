/** sensor_logger/google_sheet_api.go: prepending a row to a spreadsheet through the Sheets
    API. The service calls are replaced by their outcomes; the calls made are returned. */
module SheetApi {
  import opened Results
  import opened Cmds
  import opened Board

  /** The properties of one sheet (tab) of a spreadsheet. */
  datatype SheetProps = SheetProps(title: string, id: int)

  /** The service calls PrependRow makes, in order. */
  datatype Call = GetSpreadsheet(spreadsheet: string) | InsertRows(sheetId: int, start: int, end: int) |
    UpdateValues(range: string, row: seq<Cell>)

  /** sheetID: the ID of the first sheet titled `name`. */
  method SheetIdOf(sheets: seq<SheetProps>, name: string) returns (r: Result<int>)
    ensures r.Ok? <==> exists i :: 0 <= i < |sheets| && sheets[i].title == name
    ensures r.Ok? ==> exists i :: (0 <= i < |sheets| && sheets[i].title == name && sheets[i].id == r.value &&
      forall j :: 0 <= j < i ==> sheets[j].title != name)
    ensures r.Err? ==> r.error == "couldn't find sheet:" + name
  {
    var i := 0;
    while i < |sheets|
      invariant 0 <= i <= |sheets|
      invariant forall j :: 0 <= j < i ==> sheets[j].title != name
    {
      if sheets[i].title == name {
        return Ok(sheets[i].id);
      }
      i := i + 1;
    }
    return Err("couldn't find sheet:" + name);
  }

  /** strings.Split(rangeA1, "!") has two parts exactly when the range holds one '!'. */
  lemma A1Check(rangeA1: string)
    ensures |Split(rangeA1, '!')| == 2 <==> Occurrences(rangeA1, '!') == 1
  {
    SplitCount(rangeA1, '!');
  }

  /** The range both loggers write: sheet "RawData", cells A2:F2. */
  lemma RawDataRange()
    ensures Split("RawData!A2:F2", '!') == ["RawData", "A2:F2"]
  {
    SplitJoin(["RawData", "A2:F2"], '!');
    assert Join(["RawData", "A2:F2"], '!') == "RawData!A2:F2";
  }

  /** PrependRow: parse the A1 range, look up the sheet named before the '!', insert an empty
      row at index 1, then write the row into the range. The first failure is returned and no
      later call is made. `spreadsheet` is the Get result, `insert` and `update` the errors of
      the two later calls. */
  method PrependRow(spreadsheetId: string, rangeA1: string, row: seq<Cell>, spreadsheet: Result<seq<SheetProps>>,
                    insert: Error, update: Error) returns (err: Error, calls: seq<Call>)
    ensures |Split(rangeA1, '!')| != 2 ==> err == Some("unable to parse A1 notation " + rangeA1) && calls == []
    ensures |Split(rangeA1, '!')| == 2 ==> |calls| >= 1 && calls[0] == GetSpreadsheet(spreadsheetId)
    ensures |Split(rangeA1, '!')| == 2 && spreadsheet.Err? ==> err == Some(spreadsheet.error) && |calls| == 1
    ensures (|Split(rangeA1, '!')| == 2 && spreadsheet.Ok? &&
      forall i :: 0 <= i < |spreadsheet.value| ==> spreadsheet.value[i].title != Split(rangeA1, '!')[0]) ==>
      err == Some("couldn't find sheet:" + Split(rangeA1, '!')[0]) && |calls| == 1
    ensures |calls| >= 2 ==> spreadsheet.Ok? && exists i :: (0 <= i < |spreadsheet.value| &&
      spreadsheet.value[i].title == Split(rangeA1, '!')[0] && calls[1] == InsertRows(spreadsheet.value[i].id, 1, 2) &&
      forall j :: 0 <= j < i ==> spreadsheet.value[j].title != Split(rangeA1, '!')[0])
    ensures (|Split(rangeA1, '!')| == 2 && spreadsheet.Ok? &&
      exists i :: 0 <= i < |spreadsheet.value| && spreadsheet.value[i].title == Split(rangeA1, '!')[0]) ==>
      |calls| >= 2
    ensures |calls| == 2 ==> insert.Some? && err == insert
    ensures |calls| >= 2 && insert.Some? ==> |calls| == 2
    ensures |calls| >= 2 && insert.None? ==> |calls| == 3 && calls[2] == UpdateValues(rangeA1, row) && err == update
    ensures |calls| <= 3
    ensures err == None ==> |calls| == 3
  {
    var a1 := Split(rangeA1, '!');
    if |a1| != 2 {
      return Some("unable to parse A1 notation " + rangeA1), [];
    }
    calls := [GetSpreadsheet(spreadsheetId)];
    if spreadsheet.Err? {
      return Some(spreadsheet.error), calls;
    }
    var id := SheetIdOf(spreadsheet.value, a1[0]);
    if id.Err? {
      return Some(id.error), calls;
    }
    calls := calls + [InsertRows(id.value, 1, 2)];
    if insert.Some? {
      return insert, calls;
    }
    calls := calls + [UpdateValues(rangeA1, row)];
    err := update;
  }
}
