/** google_sheet_write.go: the spreadsheet writer used by temp_led.go. A cursor `nextRow`
    says where the next row goes; it starts after the last used row found at start-up. */
module SheetWrite {
  import opened Results

  /** A row is where writing resumes when it has a first cell and that cell is empty. */
  predicate IsTarget(row: seq<string>) {
    |row| >= 1 && row[0] == ""
  }

  /** The start-up scan of InitGoogleSheet over the first-sheet rows: the first target row,
      else one past the last row; with no rows at all the cursor keeps its value. */
  method NextRowAfterScan(rows: seq<seq<string>>, current: int) returns (next: int)
    ensures |rows| == 0 ==> next == current
    ensures (exists i :: 0 <= i < |rows| && IsTarget(rows[i])) ==>
      0 <= next < |rows| && IsTarget(rows[next]) && forall j :: 0 <= j < next ==> !IsTarget(rows[j])
    ensures |rows| > 0 && (forall i :: 0 <= i < |rows| ==> !IsTarget(rows[i])) ==> next == |rows|
  {
    next := current;
    var i := 0;
    while i < |rows|
      invariant 0 <= i <= |rows|
      invariant forall j :: 0 <= j < i ==> !IsTarget(rows[j])
      invariant i == 0 ==> next == current
      invariant i > 0 ==> next == i
    {
      if IsTarget(rows[i]) {
        next := i;
        return;
      }
      next := i + 1;
      i := i + 1;
    }
  }

  /** Cells keyed (row, column). */
  type Cells = map<(int, int), string>

  /** The cells after `content[c]` is written to (r, c) for every column c of the content. */
  function WriteRow(cells: Cells, r: int, content: seq<string>): Cells
    decreases |content|
  {
    if |content| == 0 then cells
    else WriteRow(cells, r, content[..|content| - 1])[(r, |content| - 1) := content[|content| - 1]]
  }

  /** Writing a row puts each value in its column of row r and leaves every other cell alone. */
  lemma {:induction false} WriteRowEffect(cells: Cells, r: int, content: seq<string>)
    ensures forall c :: 0 <= c < |content| ==>
      (r, c) in WriteRow(cells, r, content) && WriteRow(cells, r, content)[(r, c)] == content[c]
    ensures forall k: (int, int) :: !(k.0 == r && 0 <= k.1 < |content|) ==>
      (k in WriteRow(cells, r, content) <==> k in cells) &&
      (k in cells ==> WriteRow(cells, r, content)[k] == cells[k])
    decreases |content|
  {
    if |content| > 0 {
      var front := content[..|content| - 1];
      WriteRowEffect(cells, r, front);
      assert forall c :: 0 <= c < |front| ==> front[c] == content[c];
    }
  }

  /** The cells of a fetched sheet: row i, column j holds rows[i][j], and nothing else is set. */
  function SheetOf(rows: seq<seq<string>>): (cells: Cells)
    ensures forall i, j :: 0 <= i < |rows| && 0 <= j < |rows[i]| ==>
      (i, j) in cells && cells[(i, j)] == rows[i][j]
    ensures forall k :: k in cells ==> 0 <= k.0 < |rows| && 0 <= k.1 < |rows[k.0]|
    decreases |rows|
  {
    if |rows| == 0 then map[]
    else
      var front := rows[..|rows| - 1];
      var before := SheetOf(front);
      WriteRowEffect(before, |rows| - 1, rows[|rows| - 1]);
      assert forall i :: 0 <= i < |front| ==> front[i] == rows[i];
      WriteRow(before, |rows| - 1, rows[|rows| - 1])
  }

  /** The writer's state: the package-level cursor and the sheet's cells. */
  class Writer {
    var nextRow: int
    var cells: Cells

    /** `var nextRow int = 1`, then the scan of InitGoogleSheet over the fetched rows, which
        are also the sheet's cells at start-up. */
    constructor (rows: seq<seq<string>>)
      ensures |rows| == 0 ==> nextRow == 1
      ensures (exists i :: 0 <= i < |rows| && IsTarget(rows[i])) ==>
        0 <= nextRow < |rows| && IsTarget(rows[nextRow]) && forall j :: 0 <= j < nextRow ==> !IsTarget(rows[j])
      ensures |rows| > 0 && (forall i :: 0 <= i < |rows| ==> !IsTarget(rows[i])) ==> nextRow == |rows|
      ensures cells == SheetOf(rows)
    {
      var next := NextRowAfterScan(rows, 1);
      nextRow := next;
      cells := SheetOf(rows);
    }

    /** WriteRowToSheet: write the row at the cursor, advance the cursor by one whatever
        happens, and return Synchronize's error (`sync`). */
    method WriteRowToSheet(content: seq<string>, sync: Error) returns (err: Error)
      modifies this
      ensures cells == WriteRow(old(cells), old(nextRow), content)
      ensures nextRow == old(nextRow) + 1
      ensures err == sync
    {
      var i := 0;
      while i < |content|
        invariant 0 <= i <= |content|
        invariant nextRow == old(nextRow)
        invariant cells == WriteRow(old(cells), old(nextRow), content[..i])
      {
        assert content[..i + 1][..i] == content[..i];
        cells := cells[(nextRow, i) := content[i]];
        i := i + 1;
      }
      assert content[..|content|] == content;
      nextRow := nextRow + 1;
      err := sync;
    }
  }
}
