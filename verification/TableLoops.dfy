/** The loops of the table editor: line offsets, the run of table lines around the
    cursor, pipe counting, and the in-place changes of rows. Each computes the
    function that specifies it. */
module TableLoops {
  import opened Text
  import opened MarkdownTable
  import opened LineBlocks
  import opened TableEditor

  ghost predicate StartsOf(starts: seq<nat>, lines: seq<string>) {
    |starts| == |lines| && forall i :: 0 <= i < |lines| ==> starts[i] == Start(lines, i)
  }

  method LineStarts(lines: seq<string>) returns (starts: seq<nat>)
    ensures StartsOf(starts, lines)
  {
    starts := [];
    var pos := 0;
    for i := 0 to |lines|
      invariant |starts| == i && pos == Start(lines, i)
      invariant forall j :: 0 <= j < i ==> starts[j] == Start(lines, j)
    {
      starts := starts + [pos];
      pos := pos + |lines[i]| + 1;
    }
  }

  method CursorLine(lines: seq<string>, starts: seq<nat>, cursor: int) returns (lineIdx: nat)
    requires |lines| >= 1 && StartsOf(starts, lines)
    ensures lineIdx < |lines| && lineIdx == LineFrom(lines, cursor, 0)
  {
    lineIdx := |lines| - 1;
    var i := 0;
    while i < |lines|
      invariant i <= |lines| && lineIdx == |lines| - 1
      invariant LineFrom(lines, cursor, 0) == if i < |lines| then LineFrom(lines, cursor, i) else |lines| - 1
    {
      if starts[i] <= cursor <= starts[i] + |lines[i]| {
        lineIdx := i;
        break;
      }
      i := i + 1;
    }
  }

  method Run(lines: seq<string>, isTable: string -> bool, lineIdx: nat) returns (first: nat, last: nat)
    requires lineIdx < |lines|
    ensures first == First(lines, isTable, lineIdx) && last == Last(lines, isTable, lineIdx)
  {
    first := lineIdx;
    while first > 0 && isTable(lines[first - 1])
      invariant first <= lineIdx && First(lines, isTable, lineIdx) == First(lines, isTable, first)
    {
      first := first - 1;
    }
    last := lineIdx;
    while last + 1 < |lines| && isTable(lines[last + 1])
      invariant lineIdx <= last < |lines| && Last(lines, isTable, lineIdx) == Last(lines, isTable, last)
    {
      last := last + 1;
    }
  }

  /** The running count of header and data rows, less one. */
  method RowIndex(block: seq<string>, reader: Reader, k: nat, rows: nat) returns (row: int)
    requires k < |block| && forall i :: 0 <= i < |block| ==> reader.isTable(block[i])
    ensures row == RowAt(block, reader.isSeparator, k, rows)
  {
    var seen := -1;
    for i := 0 to k + 1
      invariant seen == NonSeparators(block[..i], reader.isSeparator) - 1
    {
      NonSeparatorsNext(block, reader.isSeparator, i);
      if reader.isTable(block[i]) && !reader.isSeparator(block[i]) {
        seen := seen + 1;
      }
    }
    row := if seen <= 0 then -1 else seen - 1;
    if reader.isSeparator(block[k]) {
      row := -1;
    }
    if row >= rows {
      row := rows - 1;
    }
  }

  lemma {:induction false} CountPipesSnoc(line: string, i: nat)
    requires i < |line|
    ensures CountPipes(line[..i + 1]) == CountPipes(line[..i]) + if line[i] == '|' then 1 else 0
  {
    assert line[..i + 1] == line[..i] + [line[i]];
    CountPipesConcat(line[..i], [line[i]]);
    assert [line[i]][1..] == "";
  }

  method CursorColumn(line: string, inLine: nat, columns: nat) returns (column: nat)
    ensures column == ColumnAt(line, inLine, columns)
  {
    var pipes := 0;
    var end := if inLine < |line| then inLine else |line|;
    for i := 0 to end
      invariant pipes == CountPipes(line[..i])
    {
      CountPipesSnoc(line, i);
      if line[i] == '|' {
        pipes := pipes + 1;
      }
    }
    column := if pipes == 0 then 0 else pipes - 1;
    var bound := if columns == 0 then 0 else columns - 1;
    if bound < column {
      column := bound;
    }
  }

  /** Row, column and offsets of a cursor in a run of table lines. */
  method Fill(lines: seq<string>, starts: seq<nat>, spot: Spot, cursor: int, reader: Reader, block: seq<string>,
              table: Table)
    returns (loc: Locator)
    requires spot.first <= spot.line <= spot.last < |lines| && StartsOf(starts, lines)
    requires block == lines[spot.first..spot.last + 1]
    requires forall i :: 0 <= i < |block| ==> reader.isTable(block[i])
    ensures Place(lines, spot, cursor, reader, Some(table)) == Some(loc)
  {
    var i := spot.line;
    var row := RowIndex(block, reader, i - spot.first, |table.rows|);
    var inLine := if cursor < starts[i] then 0 else cursor - starts[i];
    var column := CursorColumn(lines[i], inLine, ColumnCount(table));
    loc := Locator(spot.first, spot.last, lines, table, row, column,
                   starts[spot.first], starts[spot.last] + |lines[spot.last]|);
  }

  method FindSpot(text: string, cursor: int, isTable: string -> bool, lines: seq<string>, starts: seq<nat>)
    returns (spot: Option<Spot>)
    requires lines == Split(text, '\n') && StartsOf(starts, lines)
    ensures spot == SpotAt(text, cursor, isTable)
  {
    if cursor < 0 || cursor > |text| {
      return None;
    }
    var lineIdx := CursorLine(lines, starts, cursor);
    if !isTable(lines[lineIdx]) {
      return None;
    }
    var first, last := Run(lines, isTable, lineIdx);
    spot := Some(Spot(first, last, lineIdx));
  }

  method FillSpot(lines: seq<string>, starts: seq<nat>, spot: Spot, cursor: int, reader: Reader)
    returns (found: Option<Locator>)
    requires spot.first <= spot.line <= spot.last < |lines| && StartsOf(starts, lines)
    requires Block(lines, reader.isTable, spot.first, spot.last)
    ensures found == Place(lines, spot, cursor, reader, reader.parse(lines[spot.first..spot.last + 1]))
  {
    var block := lines[spot.first..spot.last + 1];
    var table := reader.parse(block);
    if table.None? {
      return None;
    }
    var loc := Fill(lines, starts, spot, cursor, reader, block, table.value);
    found := Some(loc);
  }

  method FindBy(text: string, cursor: int, reader: Reader) returns (found: Option<Locator>)
    ensures found == LocateBy(text, cursor, reader)
  {
    var lines := Split(text, '\n');
    var starts := LineStarts(lines);
    var spot := FindSpot(text, cursor, reader.isTable, lines, starts);
    if spot.None? {
      NoSpot(text, cursor, reader);
      return None;
    }
    LocateIsPlace(text, cursor, lines, spot.value, reader);
    found := FillSpot(lines, starts, spot.value, cursor, reader);
  }

  /** `locate` as it runs. */
  method Find(text: string, cursor: int) returns (found: Option<Locator>)
    ensures found == Locate(text, cursor)
  {
    found := FindBy(text, cursor, PipeTables());
  }

  // ------------------------------------------------------------------- the cursor

  method Pipes(line: string) returns (p: seq<nat>)
    ensures p == PipeIndices(line)
  {
    p := [];
    for i := 0 to |line|
      invariant p == PipeIndices(line[..i])
    {
      assert line[..i + 1][..i] == line[..i];
      if line[i] == '|' {
        p := p + [i];
      }
    }
    assert line[..|line|] == line;
  }

  method ContentEndOf(line: string, column: nat) returns (r: nat)
    ensures r == CellContentEnd(line, column)
  {
    var p := Pipes(line);
    if |p| < 2 {
      return |line|;
    }
    var c := if column < |p| - 2 then column else |p| - 2;
    PipesAscend(line);
    var start, end := p[c] + 1, p[c + 1];
    var e := end;
    while e > start && line[e - 1] == ' '
      invariant start <= e <= end && WalkBack(line, start, end) == WalkBack(line, start, e)
    {
      e := e - 1;
    }
    if e == start {
      e := start + 1;
    }
    r := if e < |line| then e else |line|;
  }

  method Rewrite(loc: Locator, t: Table, row: int, column: nat, text: string) returns (e: Edit)
    requires loc.startOffset <= |text|
    ensures e == Apply(loc, t, row, column, text)
  {
    var serialized := Print(t);
    var before, after := text[..loc.startOffset], text[if loc.endOffset < |text| then loc.endOffset else |text|..];
    var sLines := Split(serialized, '\n');
    var targetLine := if row < 0 then 0 else row + 2;
    var offset := 0;
    for i := 0 to if targetLine < |sLines| then targetLine else |sLines|
      invariant offset == Start(sLines, i)
    {
      offset := offset + |sLines[i]| + 1;
    }
    var line := if targetLine < |sLines| then sLines[targetLine] else sLines[|sLines| - 1];
    var cellEnd := ContentEndOf(line, column);
    var inTable := offset + cellEnd;
    e := Edit(before + serialized + after, loc.startOffset + if inTable < |serialized| then inTable else |serialized|);
  }

  // ------------------------------------------------------------------- the edits

  /** Finding the table, rewriting it and placing the cursor is the edit. */
  lemma {:induction false} Performed(text: string, cursor: int, target: Locator -> Option<Target>, loc: Locator,
                                     to: Target)
    requires Located(text, cursor, loc) && target(loc) == Some(to)
    ensures loc.startOffset <= |text|
    ensures Perform(text, cursor, target) == Some(Apply(loc, to.table, to.row, to.column, text))
  {
    LocatedShape(text, cursor, loc);
  }

  method NextStep(t: Table, startRow: int, startColumn: nat) returns (to: Target)
    ensures to == NextTarget(t, startRow, startColumn)
  {
    var table, row, col := t, startRow, startColumn;
    if col + 1 < ColumnCount(table) {
      col := col + 1;
    } else {
      col := 0;
      if row < 0 {
        row := 0;
        if table.rows == [] {
          table := table.(rows := table.rows + [BlankRow(ColumnCount(table))]);
          assert table.rows == [BlankRow(ColumnCount(t))];
        }
      } else if row + 1 < |table.rows| {
        row := row + 1;
      } else {
        table := table.(rows := table.rows + [BlankRow(ColumnCount(table))]);
        row := |table.rows| - 1;
      }
    }
    to := Target(table, row, col);
  }

  method NextCell(text: string, cursor: int) returns (edit: Option<Edit>)
    ensures edit == Perform(text, cursor, NextOf)
  {
    var found := Find(text, cursor);
    if found.None? {
      return None;
    }
    var loc := found.value;
    var to := NextStep(loc.table, loc.row, loc.column);
    Performed(text, cursor, NextOf, loc, to);
    var e := Rewrite(loc, to.table, to.row, to.column, text);
    edit := Some(e);
  }

  method PreviousStep(t: Table, startRow: int, startColumn: nat) returns (to: Option<Target>)
    requires ColumnCount(t) > 0
    ensures to == PreviousTarget(t, startRow, startColumn)
  {
    var row, col := startRow, startColumn;
    if col > 0 {
      col := col - 1;
    } else if row >= 0 {
      row := if row == 0 then -1 else row - 1;
      col := ColumnCount(t) - 1;
    } else {
      return None;
    }
    to := Some(Target(t, row, col));
  }

  method PreviousCell(text: string, cursor: int) returns (edit: Option<Edit>)
    ensures edit == Perform(text, cursor, PreviousOf)
  {
    var found := Find(text, cursor);
    if found.None? {
      return None;
    }
    var loc := found.value;
    LocatedTable(text, cursor, loc);
    var to := PreviousStep(loc.table, loc.row, loc.column);
    if to.None? {
      return None;
    }
    Performed(text, cursor, PreviousOf, loc, to.value);
    var e := Rewrite(loc, to.value.table, to.value.row, to.value.column, text);
    edit := Some(e);
  }

  method InsertStep(t: Table, row: int) returns (to: Target)
    ensures to == InsertTarget(t, row)
  {
    var table := t;
    var insertAt := if row < 0 then 0 else row + 1;
    var at := if insertAt < |table.rows| then insertAt else |table.rows|;
    table := table.(rows := table.rows[..at] + [BlankRow(ColumnCount(table))] + table.rows[at..]);
    to := Target(table, insertAt, 0);
  }

  method InsertRowBelow(text: string, cursor: int) returns (edit: Option<Edit>)
    ensures edit == Perform(text, cursor, InsertOf)
  {
    var found := Find(text, cursor);
    if found.None? {
      return None;
    }
    var loc := found.value;
    var to := InsertStep(loc.table, loc.row);
    Performed(text, cursor, InsertOf, loc, to);
    var e := Rewrite(loc, to.table, to.row, to.column, text);
    edit := Some(e);
  }

  /** The nested `insert`: fill up to the column count, then insert one cell. */
  method InsertCell(before: seq<string>, columnCount: nat, at: nat, cell: string) returns (row: seq<string>)
    ensures row == InsertAt(FilledWith(before, columnCount, cell), at, cell)
  {
    row := before;
    while |row| < columnCount
      invariant |before| <= |row| && row == FilledWith(before, |row|, cell)
      invariant |row| > |before| ==> |row| <= columnCount
    {
      row := row + [cell];
      assert row == FilledWith(before, |row|, cell);
    }
    assert row == FilledWith(before, columnCount, cell);
    var k := if at < |row| then at else |row|;
    row := row[..k] + [cell] + row[k..];
  }

  method AddStep(t: Table, at: nat) returns (table: Table)
    ensures table == WithColumn(t, at)
  {
    var columnCount := ColumnCount(t);
    var header := InsertCell(t.header, columnCount, at, "");
    var alignments := t.alignments;
    if alignments != [] {
      alignments := InsertCell(alignments, columnCount, at, "---");
    }
    var rows := t.rows;
    for i := 0 to |rows|
      invariant |rows| == |t.rows|
      invariant forall j :: 0 <= j < i ==> rows[j] == InsertAt(FilledWith(t.rows[j], columnCount, ""), at, "")
      invariant forall j :: i <= j < |rows| ==> rows[j] == t.rows[j]
    {
      var row := InsertCell(rows[i], columnCount, at, "");
      rows := rows[i := row];
    }
    assert rows == InsertAll(t.rows, columnCount, at);
    table := Table(header, alignments, rows);
  }

  /** `addColumn` up to the rewriting: the table with the new column and its cell. */
  method AddTarget(loc: Locator) returns (to: Target)
    ensures AddOf(loc) == Some(to)
  {
    var table := AddStep(loc.table, loc.column + 1);
    to := Target(table, loc.row, loc.column + 1);
  }

  method AddColumn(text: string, cursor: int) returns (edit: Option<Edit>)
    ensures edit == Perform(text, cursor, AddOf)
  {
    var found := Find(text, cursor);
    if found.None? {
      return None;
    }
    var loc := found.value;
    var to := AddTarget(loc);
    Performed(text, cursor, AddOf, loc, to);
    var e := Rewrite(loc, to.table, to.row, to.column, text);
    edit := Some(e);
  }

  method RemoveStep(t: Table, at: nat) returns (table: Table)
    ensures table == WithoutColumn(t, at)
  {
    var rows := t.rows;
    for i := 0 to |rows|
      invariant |rows| == |t.rows|
      invariant forall j :: 0 <= j < i ==> rows[j] == DropAt(t.rows[j], at)
      invariant forall j :: i <= j < |rows| ==> rows[j] == t.rows[j]
    {
      if at < |rows[i]| {
        rows := rows[i := rows[i][..at] + rows[i][at + 1..]];
      }
    }
    assert rows == DropAll(t.rows, at);
    table := Table(DropAt(t.header, at), DropAt(t.alignments, at), rows);
  }

  method RemoveColumn(text: string, cursor: int) returns (edit: Option<Edit>)
    ensures edit == Perform(text, cursor, RemoveOf)
  {
    var found := Find(text, cursor);
    if found.None? || ColumnCount(found.value.table) <= 1 {
      return None;
    }
    var loc := found.value;
    var table := RemoveStep(loc.table, loc.column);
    var bound := if ColumnCount(table) == 0 then 0 else ColumnCount(table) - 1;
    var column := if loc.column < bound then loc.column else bound;
    Performed(text, cursor, RemoveOf, loc, Target(table, loc.row, column));
    var e := Rewrite(loc, table, loc.row, column, text);
    edit := Some(e);
  }
}
