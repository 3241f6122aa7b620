/** Cursor-aware edits of the pipe table under the cursor. Offsets count the
    character units of the document. */
module TableEditor {
  import opened Text
  import opened MarkdownTable
  import opened LineBlocks

  datatype Edit = Edit(text: string, cursor: int)

  /** Where the cursor is in a table: the lines `first` to `last` of the
      document, row -1 for the header, and the offsets of the table. */
  datatype Locator = Locator(first: nat, last: nat, lines: seq<string>, table: Table,
                             row: int, column: nat, startOffset: nat, endOffset: nat)

  // ------------------------------------------------------------ row and column

  /** Pipes before the cursor, less one, within the columns. */
  function ColumnAt(line: string, inLine: nat, columns: nat): nat {
    var pipes := CountPipes(line[..if inLine < |line| then inLine else |line|]);
    var column := if pipes == 0 then 0 else pipes - 1;
    var bound := if columns == 0 then 0 else columns - 1;
    if column < bound then column else bound
  }

  /** What counts as a table line and as a separator line, and how a run of
      table lines is read. */
  datatype Reader = Reader(isTable: string -> bool, isSeparator: string -> bool, parse: seq<string> -> Option<Table>)

  function PipeTables(): Reader {
    Reader(IsTableLine, IsSeparatorLine, Parse)
  }

  lemma {:induction false} SpotInLines(text: string, cursor: int, p: string -> bool)
    ensures var spot := SpotAt(text, cursor, p);
      spot.Some? ==> spot.value.first <= spot.value.line <= spot.value.last < |Split(text, '\n')|
  {
    var spot := SpotAt(text, cursor, p);
    if spot.Some? {
      SpotIsBlock(text, cursor, p, spot.value);
    }
  }

  function LocateAt(lines: seq<string>, spot: Option<Spot>, cursor: int, reader: Reader): Option<Locator>
    requires spot.Some? ==> spot.value.first <= spot.value.line <= spot.value.last < |lines|
  {
    if spot.None? then None
    else Place(lines, spot.value, cursor, reader, reader.parse(lines[spot.value.first..spot.value.last + 1]))
  }

  /** `locate`, for any reader of tables. */
  function LocateBy(text: string, cursor: int, reader: Reader): Option<Locator> {
    SpotInLines(text, cursor, reader.isTable);
    LocateAt(Split(text, '\n'), SpotAt(text, cursor, reader.isTable), cursor, reader)
  }

  function Locate(text: string, cursor: int): Option<Locator> {
    LocateBy(text, cursor, PipeTables())
  }

  /** The locator of a cursor in a run of lines, once the run has been parsed. */
  function Place(lines: seq<string>, spot: Spot, cursor: int, reader: Reader, parsed: Option<Table>): Option<Locator>
    requires spot.first <= spot.line <= spot.last < |lines|
  {
    if parsed.None? then None
    else
      var t, i := parsed.value, spot.line;
      var inLine := if cursor < Start(lines, i) then 0 else cursor - Start(lines, i);
      Some(Locator(spot.first, spot.last, lines, t,
                   RowAt(lines[spot.first..spot.last + 1], reader.isSeparator, i - spot.first, |t.rows|),
                   ColumnAt(lines[i], inLine, ColumnCount(t)),
                   Start(lines, spot.first), Start(lines, spot.last) + |lines[spot.last]|))
  }

  lemma {:induction false} LocateIsPlace(text: string, cursor: int, lines: seq<string>, spot: Spot, reader: Reader)
    requires lines == Split(text, '\n') && SpotAt(text, cursor, reader.isTable) == Some(spot)
    ensures spot.first <= spot.line <= spot.last < |lines| && Block(lines, reader.isTable, spot.first, spot.last)
    ensures Start(lines, spot.first) <= Start(lines, spot.last) + |lines[spot.last]| <= |text|
    ensures LocateBy(text, cursor, reader)
      == Place(lines, spot, cursor, reader, reader.parse(lines[spot.first..spot.last + 1]))
  {
    SpotIsBlock(text, cursor, reader.isTable, spot);
    assert LocateBy(text, cursor, reader) == LocateAt(lines, Some(spot), cursor, reader);
  }

  lemma {:induction false} NoSpot(text: string, cursor: int, reader: Reader)
    requires SpotAt(text, cursor, reader.isTable) == None
    ensures LocateBy(text, cursor, reader) == None
  {
    SpotInLines(text, cursor, reader.isTable);
    assert LocateBy(text, cursor, reader) == LocateAt(Split(text, '\n'), None, cursor, reader);
  }

  /** What is found is the run of table lines around the cursor and its offsets. */
  ghost predicate Shaped(lines: seq<string>, reader: Reader, loc: Locator, length: nat) {
    && loc.lines == lines && loc.first <= loc.last < |lines|
    && Block(lines, reader.isTable, loc.first, loc.last)
    && reader.parse(lines[loc.first..loc.last + 1]) == Some(loc.table)
    && loc.startOffset == Start(lines, loc.first)
    && loc.endOffset == Start(lines, loc.last) + |lines[loc.last]|
    && loc.startOffset <= loc.endOffset <= length
    && -1 <= loc.row && (loc.row < |loc.table.rows| || loc.row == -1)
    && (ColumnCount(loc.table) > 0 ==> loc.column < ColumnCount(loc.table))
  }

  lemma {:induction false} ShapeBy(text: string, cursor: int, reader: Reader, loc: Locator)
    requires LocateBy(text, cursor, reader) == Some(loc)
    ensures Shaped(Split(text, '\n'), reader, loc, |text|)
  {
    var spot, lines := SpotAt(text, cursor, reader.isTable), Split(text, '\n');
    if spot.None? {
      NoSpot(text, cursor, reader);
    } else {
      LocateIsPlace(text, cursor, lines, spot.value, reader);
      PlaceShape(lines, spot.value, cursor, reader, reader.parse(lines[spot.value.first..spot.value.last + 1]), loc);
    }
  }

  lemma {:induction false} PlaceShape(lines: seq<string>, spot: Spot, cursor: int, reader: Reader,
                                      parsed: Option<Table>, loc: Locator)
    requires spot.first <= spot.line <= spot.last < |lines| && Place(lines, spot, cursor, reader, parsed) == Some(loc)
    ensures loc.lines == lines && loc.first == spot.first && loc.last == spot.last && parsed == Some(loc.table)
    ensures loc.startOffset == Start(lines, loc.first) && loc.endOffset == Start(lines, loc.last) + |lines[loc.last]|
    ensures -1 <= loc.row && (loc.row < |loc.table.rows| || loc.row == -1)
    ensures ColumnCount(loc.table) > 0 ==> loc.column < ColumnCount(loc.table)
  {
  }

  ghost predicate Located(text: string, cursor: int, loc: Locator) {
    Locate(text, cursor) == Some(loc)
  }

  lemma {:induction false} LocatedShape(text: string, cursor: int, loc: Locator)
    requires Located(text, cursor, loc)
    ensures loc.lines == Split(text, '\n') && loc.first <= loc.last < |loc.lines|
    ensures Block(loc.lines, IsTableLine, loc.first, loc.last)
    ensures loc.startOffset == Start(loc.lines, loc.first)
    ensures loc.endOffset == Start(loc.lines, loc.last) + |loc.lines[loc.last]|
    ensures loc.startOffset <= loc.endOffset <= |text|
  {
    ShapeBy(text, cursor, PipeTables(), loc);
  }

  lemma {:induction false} LocatedTable(text: string, cursor: int, loc: Locator)
    requires Located(text, cursor, loc)
    ensures Clean(loc.table) && -1 <= loc.row < |loc.table.rows| && loc.column < ColumnCount(loc.table)
  {
    ShapeBy(text, cursor, PipeTables(), loc);
    SplitPieces(text, '\n');
    var block := loc.lines[loc.first..loc.last + 1];
    assert Parse(block) == Some(loc.table);
    ParsedIsClean(block);
  }

  // ------------------------------------------------------------------- cells

  function PipeIndices(line: string): (p: seq<nat>)
    ensures |p| == CountPipes(line)
    ensures forall i :: 0 <= i < |p| ==> p[i] < |line| && line[p[i]] == '|'
  {
    if |line| == 0 then []
    else
      var init, n := line[..|line| - 1], |line| - 1;
      CountPipesConcat(init, [line[n]]);
      assert init + [line[n]] == line;
      assert [line[n]][1..] == "";
      PipeIndices(init) + if line[n] == '|' then [n] else []
  }

  /** Back over padding spaces. */
  function WalkBack(line: string, start: nat, e: nat): (r: nat)
    requires start <= e <= |line|
    ensures start <= r <= e
  {
    if e > start && line[e - 1] == ' ' then WalkBack(line, start, e - 1) else e
  }

  /** Offset in a printed line of the end of the content of a cell. */
  function CellContentEnd(line: string, column: nat): nat {
    var p := PipeIndices(line);
    if |p| < 2 then |line|
    else
      var c := if column < |p| - 2 then column else |p| - 2;
      PipesAscend(line);
      ContentEnd(line, p[c] + 1, p[c + 1])
  }

  /** Before the padding; an empty cell keeps one space on the left. */
  function ContentEnd(line: string, start: nat, end: nat): nat
    requires start <= end <= |line|
  {
    var e := WalkBack(line, start, end);
    var e' := if e == start then start + 1 else e;
    if e' < |line| then e' else |line|
  }

  lemma {:induction false} PipesAscend(line: string)
    ensures forall i, j :: 0 <= i < j < |PipeIndices(line)| ==> PipeIndices(line)[i] < PipeIndices(line)[j]
  {
    if |line| > 0 {
      PipesAscend(line[..|line| - 1]);
    }
  }

  /** The document with the table replaced and the cursor at the end of a cell. */
  function Apply(loc: Locator, t: Table, row: int, column: nat, text: string): Edit
    requires loc.startOffset <= |text|
  {
    var serialized := Serialize(t);
    var end := if loc.endOffset < |text| then loc.endOffset else |text|;
    var newText := text[..loc.startOffset] + serialized + text[end..];
    var sLines := Split(serialized, '\n');
    var targetLine := if row < 0 then 0 else row + 2;
    var offset := Start(sLines, if targetLine < |sLines| then targetLine else |sLines|);
    var line := sLines[if targetLine < |sLines| then targetLine else |sLines| - 1];
    var inTable := offset + CellContentEnd(line, column);
    Edit(newText, loc.startOffset + if inTable < |serialized| then inTable else |serialized|)
  }

  // ------------------------------------------------------------------- edits

  /** What an edit does to the table, and the cell in which it puts the cursor. */
  datatype Target = Target(table: Table, row: int, column: nat)

  function BlankRow(n: nat): (r: seq<string>)
    ensures |r| == n && forall i :: 0 <= i < n ==> r[i] == ""
  {
    seq(n, _ => "")
  }

  function NextTarget(t: Table, row: int, column: nat): Target {
    if column + 1 < ColumnCount(t) then Target(t, row, column + 1)
    else if row < 0 then
      if t.rows == [] then Target(t.(rows := [BlankRow(ColumnCount(t))]), 0, 0) else Target(t, 0, 0)
    else if row + 1 < |t.rows| then Target(t, row + 1, 0)
    else Target(t.(rows := t.rows + [BlankRow(ColumnCount(t))]), |t.rows|, 0)
  }

  function PreviousTarget(t: Table, row: int, column: nat): Option<Target> {
    if column > 0 then Some(Target(t, row, column - 1))
    else if row >= 0 then
      Some(Target(t, if row == 0 then -1 else row - 1, if ColumnCount(t) == 0 then 0 else ColumnCount(t) - 1))
    else None
  }

  function InsertTarget(t: Table, row: int): Target {
    var insertAt := if row < 0 then 0 else row + 1;
    var at := if insertAt < |t.rows| then insertAt else |t.rows|;
    Target(t.(rows := t.rows[..at] + [BlankRow(ColumnCount(t))] + t.rows[at..]), insertAt, 0)
  }

  function InsertAt(row: seq<string>, at: nat, cell: string): seq<string> {
    var k := if at < |row| then at else |row|;
    row[..k] + [cell] + row[k..]
  }

  function FilledWith(row: seq<string>, n: nat, cell: string): (r: seq<string>) {
    row + seq(if |row| < n then n - |row| else 0, _ => cell)
  }

  function InsertAll(rows: seq<seq<string>>, n: nat, at: nat): (r: seq<seq<string>>)
    ensures |r| == |rows| && forall i :: 0 <= i < |r| ==> r[i] == InsertAt(FilledWith(rows[i], n, ""), at, "")
  {
    seq(|rows|, i requires 0 <= i < |rows| => InsertAt(FilledWith(rows[i], n, ""), at, ""))
  }

  function WithColumn(t: Table, at: nat): Table {
    var n := ColumnCount(t);
    Table(InsertAt(FilledWith(t.header, n, ""), at, ""),
          if t.alignments == [] then [] else InsertAt(FilledWith(t.alignments, n, "---"), at, "---"),
          InsertAll(t.rows, n, at))
  }

  function DropAt(row: seq<string>, at: nat): seq<string> {
    if at < |row| then row[..at] + row[at + 1..] else row
  }

  function DropAll(rows: seq<seq<string>>, at: nat): (r: seq<seq<string>>)
    ensures |r| == |rows| && forall i :: 0 <= i < |r| ==> r[i] == DropAt(rows[i], at)
  {
    seq(|rows|, i requires 0 <= i < |rows| => DropAt(rows[i], at))
  }

  function WithoutColumn(t: Table, at: nat): Table {
    Table(DropAt(t.header, at), DropAt(t.alignments, at), DropAll(t.rows, at))
  }

  function RemoveTarget(t: Table, row: int, column: nat): Option<Target> {
    if ColumnCount(t) <= 1 then None
    else
      var u := WithoutColumn(t, column);
      var bound := if ColumnCount(u) == 0 then 0 else ColumnCount(u) - 1;
      Some(Target(u, row, if column < bound then column else bound))
  }

  /** The outcome of an edit whose target is known. */
  function Perform(text: string, cursor: int, target: Locator -> Option<Target>): Option<Edit> {
    var loc := Locate(text, cursor);
    if loc.None? then None
    else
      LocatedShape(text, cursor, loc.value);
      var to := target(loc.value);
      if to.None? then None else Some(Apply(loc.value, to.value.table, to.value.row, to.value.column, text))
  }

  function NextOf(loc: Locator): Option<Target> { Some(NextTarget(loc.table, loc.row, loc.column)) }
  function PreviousOf(loc: Locator): Option<Target> { PreviousTarget(loc.table, loc.row, loc.column) }
  function InsertOf(loc: Locator): Option<Target> { Some(InsertTarget(loc.table, loc.row)) }
  function AddOf(loc: Locator): Option<Target> {
    Some(Target(WithColumn(loc.table, loc.column + 1), loc.row, loc.column + 1))
  }
  function RemoveOf(loc: Locator): Option<Target> { RemoveTarget(loc.table, loc.row, loc.column) }

  // --------------------------------------------- the printed line under the cursor

  /** The pipes of a prefix are the first pipes of the line. */
  lemma {:induction false} PipesPrefix(line: string, k: nat)
    requires k <= |line|
    ensures var p, q := PipeIndices(line), PipeIndices(line[..k]);
      && |q| <= |p|
      && (forall i :: 0 <= i < |q| ==> p[i] == q[i] && q[i] < k)
      && (forall i :: |q| <= i < |p| ==> p[i] >= k)
  {
    if k == |line| {
      assert line[..k] == line;
    } else {
      var m := |line| - 1;
      assert line[..m][..k] == line[..k];
      PipesPrefix(line[..m], k);
    }
  }

  lemma {:induction false} PipesBefore(line: string, k: nat, n: nat)
    requires k <= |line| && n + 1 < CountPipes(line)
    requires PipeIndices(line)[n] < k <= PipeIndices(line)[n + 1]
    ensures CountPipes(line[..k]) == n + 1
  {
    PipesPrefix(line, k);
  }

  /** No two pipes touch: every cell has a space on both sides. */
  ghost predicate Apart(s: string) {
    forall i :: 0 <= i < |s| - 1 ==> !(s[i] == '|' && s[i + 1] == '|')
  }

  lemma {:induction false} JoinedApart(cells: seq<string>)
    requires |cells| >= 1 && forall i :: 0 <= i < |cells| ==> '|' !in cells[i]
    ensures var j := Join(Spaced(cells), '|'); j[0] == ' ' && j[|j| - 1] == ' ' && Apart(j)
  {
    var piece := " " + cells[0] + " ";
    assert forall i :: 0 <= i < |piece| ==> piece[i] != '|';
    if |cells| > 1 {
      JoinedApart(cells[1..]);
      assert Spaced(cells)[1..] == Spaced(cells[1..]);
      var rest := Join(Spaced(cells[1..]), '|');
      var j := piece + ['|'] + rest;
      forall i | 0 <= i < |j| - 1 ensures !(j[i] == '|' && j[i + 1] == '|') {
        if i >= |piece| + 1 {
          assert j[i] == rest[i - |piece| - 1] && j[i + 1] == rest[i - |piece|];
        }
      }
    }
  }

  lemma {:induction false} FramedApart(cells: seq<string>)
    requires |cells| >= 1 && forall i :: 0 <= i < |cells| ==> '|' !in cells[i]
    ensures Apart(Framed(cells))
  {
    FramedIsJoined(cells);
    JoinedApart(cells);
    var j := Join(Spaced(cells), '|');
    var line := "|" + j + "|";
    forall i | 0 <= i < |line| - 1 ensures !(line[i] == '|' && line[i + 1] == '|') {
      if 0 < i < |j| {
        assert line[i] == j[i - 1] && line[i + 1] == j[i];
      }
    }
  }

  lemma {:induction false} ContentEndBetween(line: string, start: nat, end: nat)
    requires start < end < |line|
    ensures start <= ContentEnd(line, start, end) <= end
  {
  }

  lemma {:induction false} PipesFarApart(line: string, p: seq<nat>, column: nat)
    requires Apart(line) && column + 1 < |p| && p == PipeIndices(line)
    ensures p[column] + 1 < p[column + 1] < |line|
  {
    PipesAscend(line);
    var a, b := p[column], p[column + 1];
    assert line[a] == '|' && line[b] == '|';
  }

  lemma {:induction false} CellEndBetween(line: string, p: seq<nat>, column: nat)
    requires Apart(line) && column + 1 < |p| && p == PipeIndices(line)
    ensures p[column] < CellContentEnd(line, column) <= p[column + 1]
  {
    PipesFarApart(line, p, column);
    ContentEndBetween(line, p[column] + 1, p[column + 1]);
  }

  /** The cursor at the end of a cell has exactly the pipes of that cell and of
      the cells before it on its left. */
  lemma {:induction false} CellEndColumn(line: string, column: nat, columns: nat)
    requires Apart(line) && CountPipes(line) == columns + 1 && column < columns
    ensures CellContentEnd(line, column) <= |line|
    ensures ColumnAt(line, CellContentEnd(line, column), columns) == column
  {
    CellEndBetween(line, PipeIndices(line), column);
    PipesBefore(line, CellContentEnd(line, column), column);
  }

  /** The end of a cell is the end of its content, before the padding. */
  lemma {:induction false} WalkBackStops(line: string, start: nat, e: nat)
    requires start <= e <= |line|
    ensures var r := WalkBack(line, start, e);
      && (r > start ==> line[r - 1] != ' ')
      && forall i :: r <= i < e ==> line[i] == ' '
  {
    if e > start && line[e - 1] == ' ' {
      WalkBackStops(line, start, e - 1);
    }
  }

  // -------------------------------------------------- the document after an edit

  /** Whether the printed table is read back with its rows in place down to
      `row`: the header always is, a row is unless it or something above it
      looks like a separator. */
  ghost predicate Readable(t: Table, row: int) {
    row < 0 || (!SeparatorLike(t.header) && forall k :: 0 <= k <= row && k < |t.rows| ==> !SeparatorLike(t.rows[k]))
  }

  /** Where a row stands among the printed lines. */
  function LineOfRow(row: int): nat {
    if row < 0 then 0 else row + 2
  }

  lemma {:induction false} PrintedRows(t: Table, block: seq<string>, k: nat)
    requires Clean(t) && block == PrintedLines(t) && k < |t.rows|
    ensures |block| == |t.rows| + 2 && block[k + 2] == RowLine(t, t.rows[k])
    ensures IsSeparatorLine(block[k + 2]) <==> SeparatorLike(t.rows[k])
  {
    RowSeparatorIff(t, t.rows[k]);
  }

  lemma {:induction false} PrintedHead(t: Table, block: seq<string>)
    requires Clean(t) && block == PrintedLines(t)
    ensures |block| == |t.rows| + 2 && IsSeparatorLine(block[1])
    ensures IsSeparatorLine(block[0]) <==> SeparatorLike(t.header)
  {
    SeparatorLineIsOne(t);
    RowSeparatorIff(t, t.header);
  }

  lemma {:induction false} PrintedSeparators(t: Table, block: seq<string>, row: nat)
    requires Clean(t) && row < |t.rows| && block == PrintedLines(t)
    ensures |block| == |t.rows| + 2
    ensures (forall j :: 2 <= j <= row + 2 ==> !IsSeparatorLine(block[j]))
      <==> forall k :: 0 <= k <= row && k < |t.rows| ==> !SeparatorLike(t.rows[k])
  {
    forall k | 0 <= k < |t.rows|
      ensures |block| == |t.rows| + 2 && (IsSeparatorLine(block[k + 2]) <==> SeparatorLike(t.rows[k]))
    {
      PrintedRows(t, block, k);
    }
    ShiftedNone(block, t.rows, row, IsSeparatorLine);
  }

  lemma {:induction false} ShiftedNone(block: seq<string>, rows: seq<seq<string>>, row: nat, q: string -> bool)
    requires row < |rows| && |block| == |rows| + 2
    requires forall k :: 0 <= k < |rows| ==> (q(block[k + 2]) <==> SeparatorLike(rows[k]))
    ensures (forall j :: 2 <= j <= row + 2 ==> !q(block[j]))
      <==> forall k :: 0 <= k <= row && k < |rows| ==> !SeparatorLike(rows[k])
  {
    forall j | 2 <= j <= row + 2 ensures q(block[j]) <==> SeparatorLike(rows[j - 2]) {
      assert block[j] == block[(j - 2) + 2];
    }
    if forall j :: 2 <= j <= row + 2 ==> !q(block[j]) {
      forall k | 0 <= k <= row ensures !SeparatorLike(rows[k]) {
        assert !q(block[k + 2]);
      }
    }
  }

  /** A row read back, which is `row` exactly when `readable` and never one below. */
  predicate ReadsRow(found: int, row: int, readable: bool) {
    found <= row && (found == row <==> readable)
  }

  lemma {:induction false} RowReadBack(t: Table, block: seq<string>, row: int)
    requires Clean(t) && -1 <= row < |t.rows| && block == PrintedLines(t)
    ensures LineOfRow(row) < |block|
    ensures ReadsRow(RowAt(block, IsSeparatorLine, LineOfRow(row), |t.rows|), row, Readable(t, row))
  {
    if row < 0 {
      NonSeparatorsNext(block, IsSeparatorLine, 0);
      assert block[..0] == [];
    } else {
      PrintedHead(t, block);
      PrintedSeparators(t, block, row);
      CountRows(block, IsSeparatorLine, row + 2);
    }
  }

  // ---------------------------------------------------------- the new cursor

  lemma {:induction false} PrintedApart(t: Table, k: nat)
    requires Clean(t) && k < |PrintedLines(t)|
    ensures Apart(PrintedLines(t)[k])
  {
    if k == 1 {
      forall i | 0 <= i < ColumnCount(t) ensures '|' !in SeparatorCell(t, i) {
        WidthAtLeast(t, i);
        RulerShape(if i < |t.alignments| then t.alignments[i] else "---", Width(t, i));
      }
      FramedApart(SeparatorCells(t));
    } else {
      RowApart(t, if k == 0 then t.header else t.rows[k - 2]);
    }
  }

  lemma {:induction false} RowApart(t: Table, row: seq<string>)
    requires Clean(t) && CleanRow(row)
    ensures Apart(RowLine(t, row))
  {
    var cells := PaddedCells(t, row);
    forall i | 0 <= i < |cells| ensures '|' !in cells[i] {
      assert CellAt(row, i) == "" || CleanCell(CellAt(row, i));
    }
    FramedApart(cells);
  }

  /** The cursor inside the printed table. */
  function CursorIn(block: seq<string>, row: int, column: nat): nat
    requires LineOfRow(row) < |block|
  {
    Start(block, LineOfRow(row)) + CellContentEnd(block[LineOfRow(row)], column)
  }

  lemma {:induction false} CursorInBlock(t: Table, block: seq<string>, row: int, column: nat)
    requires Clean(t) && block == PrintedLines(t) && -1 <= row < |t.rows| && column < ColumnCount(t)
    ensures var k := LineOfRow(row);
      && k < |block| && OnLine(block, CursorIn(block, row, column), k)
      && CursorIn(block, row, column) <= |Join(block, '\n')|
      && ColumnAt(block[k], CellContentEnd(block[k], column), ColumnCount(t)) == column
  {
    var k := LineOfRow(row);
    PrintedIsRectangular(t);
    PrintedApart(t, k);
    CellEndColumn(block[k], column, ColumnCount(t));
    JoinLength(block);
    StartMonotone(block, k, |block|);
  }

  lemma {:induction false} AppliedCursor(loc: Locator, t: Table, block: seq<string>, row: int, column: nat,
                                         text: string)
    requires loc.startOffset <= |text| && Clean(t) && block == PrintedLines(t)
    requires -1 <= row < |t.rows| && column < ColumnCount(t)
    ensures LineOfRow(row) < |block|
    ensures Apply(loc, t, row, column, text).cursor == loc.startOffset + CursorIn(block, row, column)
  {
    ParseSerialize(t);
    CursorInBlock(t, block, row, column);
  }

  /** The text after an edit: everything outside the table is as it was, and the
      table is printed in its normal form. */
  lemma {:induction false} AppliedText(text: string, cursor: int, loc: Locator, t: Table, row: int, column: nat,
                                       e: Edit)
    requires Located(text, cursor, loc) && Clean(t)
    requires loc.startOffset <= |text| && e == Apply(loc, t, row, column, text)
    ensures loc.first <= loc.last < |loc.lines| && loc.startOffset <= loc.endOffset <= |text|
    ensures e.text == text[..loc.startOffset] + Serialize(t) + text[loc.endOffset..]
    ensures e.text == Join(Splice(loc.lines, loc.first, loc.last, PrintedLines(t)), '\n')
  {
    LocatedShape(text, cursor, loc);
    ExchangedText(text, loc.lines, loc.first, loc.last, PrintedLines(t), loc.startOffset, loc.endOffset);
  }

  lemma {:induction false} ExchangedText(text: string, lines: seq<string>, first: nat, last: nat, block: seq<string>,
                                         start: nat, end: nat)
    requires lines == Split(text, '\n') && first <= last < |lines| && |block| >= 1
    requires start == Start(lines, first) && end == Start(lines, last) + |lines[last]|
    ensures start <= |text| && end <= |text|
    ensures text[..start] + Join(block, '\n') + text[end..] == Join(Splice(lines, first, last, block), '\n')
  {
    JoinSplit(text, '\n');
    SpliceText(lines, first, last, block);
  }

  /** What looking again finds: the table `u` from `start` on, the column, and
      the row exactly when it can be read back, and otherwise one above it. */
  ghost predicate Found(found: Option<Locator>, u: Table, row: int, column: nat, start: nat, length: nat,
                        readable: bool)
  {
    && found.Some?
    && found.value.table == u && found.value.column == column
    && found.value.startOffset == start && found.value.endOffset == start + length
    && ReadsRow(found.value.row, row, readable)
  }

  lemma {:induction false} SpliceLines(lines: seq<string>, first: nat, last: nat, block: seq<string>, k: nat)
    requires first <= last < |lines| && k < |block|
    ensures first + |block| <= |Splice(lines, first, last, block)|
    ensures Splice(lines, first, last, block)[first + k] == block[k]
  {
  }

  lemma {:induction false} BlockEnd(block: seq<string>)
    requires |block| > 0
    ensures Start(block, |block| - 1) + |block[|block| - 1]| == |Join(block, '\n')|
  {
    JoinLength(block);
  }

  lemma {:induction false} SpliceOffsets(lines: seq<string>, first: nat, last: nat, block: seq<string>, k: nat)
    requires first <= last < |lines| && k < |block|
    ensures var spliced, n := Splice(lines, first, last, block), |block|;
      && first + n <= |spliced| && spliced[first + k] == block[k]
      && Start(spliced, first) == Start(lines, first)
      && Start(spliced, first + k) == Start(lines, first) + Start(block, k)
      && Start(spliced, first + n - 1) + |spliced[first + n - 1]| == Start(lines, first) + |Join(block, '\n')|
  {
    var n := |block|;
    SpliceStart(lines, first, last, block, 0);
    SpliceStart(lines, first, last, block, k);
    SpliceStart(lines, first, last, block, n - 1);
    SpliceLines(lines, first, last, block, k);
    SpliceLines(lines, first, last, block, n - 1);
    BlockEnd(block);
  }

  lemma {:induction false} LocateAtSpot(text: string, cursor: int, reader: Reader, lines: seq<string>, spot: Spot,
                                        u: Table)
    requires lines == Split(text, '\n') && spot.first <= spot.line <= spot.last < |lines|
    requires Block(lines, reader.isTable, spot.first, spot.last) && OnLine(lines, cursor, spot.line)
    requires reader.parse(lines[spot.first..spot.last + 1]) == Some(u)
    ensures LocateBy(text, cursor, reader) == Place(lines, spot, cursor, reader, Some(u))
  {
    BlockIsSpot(text, cursor, reader.isTable, spot);
    LocateIsPlace(text, cursor, lines, spot, reader);
  }

  lemma {:induction false} PlaceFinds(lines: seq<string>, spot: Spot, cursor: int, inLine: nat, reader: Reader,
                                      block: seq<string>, u: Table, row: int, column: nat, start: nat,
                                      length: nat, readable: bool)
    requires spot.first <= spot.line <= spot.last < |lines| && block == lines[spot.first..spot.last + 1]
    requires cursor == Start(lines, spot.line) + inLine
    requires ColumnAt(lines[spot.line], inLine, ColumnCount(u)) == column
    requires ReadsRow(RowAt(block, reader.isSeparator, spot.line - spot.first, |u.rows|), row, readable)
    requires Start(lines, spot.first) == start && Start(lines, spot.last) + |lines[spot.last]| == start + length
    ensures Found(Place(lines, spot, cursor, reader, Some(u)), u, row, column, start, length, readable)
  {
  }

  /** Looking again, for any reader: a run exchanged for another one is found at
      its place when the cursor is on one of its lines. */
  lemma {:induction false} RelocateBy(text: string, cursor: int, lines: seq<string>, first: nat, last: nat,
                                      block: seq<string>, k: nat, inLine: nat, reader: Reader, u: Table,
                                      row: int, column: nat, readable: bool)
    requires first <= last < |lines| && Block(lines, reader.isTable, first, last)
    requires forall i :: 0 <= i < |lines| ==> '\n' !in lines[i]
    requires forall i :: 0 <= i < |block| ==> '\n' !in block[i] && reader.isTable(block[i])
    requires text == Join(Splice(lines, first, last, block), '\n')
    requires k < |block| && cursor == Start(lines, first) + Start(block, k) + inLine
    requires inLine <= |block[k]| && reader.parse(block) == Some(u)
    requires ColumnAt(block[k], inLine, ColumnCount(u)) == column
    requires ReadsRow(RowAt(block, reader.isSeparator, k, |u.rows|), row, readable)
    ensures Found(LocateBy(text, cursor, reader), u, row, column, Start(lines, first), |Join(block, '\n')|, readable)
  {
    var spliced := Exchanged(text, lines, first, last, block, k, reader.isTable);
    RelocateSpot(text, cursor, spliced, Spot(first, first + |block| - 1, first + k), block, inLine, reader, u, row,
                 column, Start(lines, first), |Join(block, '\n')|, readable);
  }

  /** The lines of a text whose run `first` to `last` was exchanged. */
  lemma {:induction false} Exchanged(text: string, lines: seq<string>, first: nat, last: nat, block: seq<string>,
                                     k: nat, p: string -> bool) returns (spliced: seq<string>)
    requires first <= last < |lines| && k < |block| && Block(lines, p, first, last)
    requires forall i :: 0 <= i < |lines| ==> '\n' !in lines[i]
    requires forall i :: 0 <= i < |block| ==> '\n' !in block[i] && p(block[i])
    requires text == Join(Splice(lines, first, last, block), '\n')
    ensures spliced == Split(text, '\n') && first + |block| <= |spliced|
    ensures spliced[first..first + |block|] == block && spliced[first + k] == block[k]
    ensures Block(spliced, p, first, first + |block| - 1)
    ensures Start(spliced, first) == Start(lines, first)
    ensures Start(spliced, first + k) == Start(lines, first) + Start(block, k)
    ensures Start(spliced, first + |block| - 1) + |spliced[first + |block| - 1]|
      == Start(lines, first) + |Join(block, '\n')|
  {
    spliced := Splice(lines, first, last, block);
    SpliceOffsets(lines, first, last, block, k);
    SpliceBlock(lines, p, first, last, block);
    SplitSplice(text, lines, first, last, block);
  }

  lemma {:induction false} SplitSplice(text: string, lines: seq<string>, first: nat, last: nat, block: seq<string>)
    requires first <= last < |lines| && |block| >= 1
    requires forall i :: 0 <= i < |lines| ==> '\n' !in lines[i]
    requires forall i :: 0 <= i < |block| ==> '\n' !in block[i]
    requires text == Join(Splice(lines, first, last, block), '\n')
    ensures Split(text, '\n') == Splice(lines, first, last, block)
  {
    SpliceNoNewline(lines, first, last, block);
    SplitJoin(Splice(lines, first, last, block), '\n');
  }

  lemma {:induction false} RelocateSpot(text: string, cursor: int, lines: seq<string>, spot: Spot, block: seq<string>,
                                        inLine: nat, reader: Reader, u: Table, row: int, column: nat,
                                        start: nat, length: nat, readable: bool)
    requires lines == Split(text, '\n') && spot.first <= spot.line <= spot.last < |lines|
    requires Block(lines, reader.isTable, spot.first, spot.last)
    requires block == lines[spot.first..spot.last + 1] && reader.parse(block) == Some(u)
    requires cursor == Start(lines, spot.line) + inLine && inLine <= |lines[spot.line]|
    requires ColumnAt(lines[spot.line], inLine, ColumnCount(u)) == column
    requires ReadsRow(RowAt(block, reader.isSeparator, spot.line - spot.first, |u.rows|), row, readable)
    requires Start(lines, spot.first) == start && Start(lines, spot.last) + |lines[spot.last]| == start + length
    ensures Found(LocateBy(text, cursor, reader), u, row, column, start, length, readable)
  {
    LocateAtSpot(text, cursor, reader, lines, spot, u);
    PlaceFinds(lines, spot, cursor, inLine, reader, block, u, row, column, start, length, readable);
  }

  lemma {:induction false} Relocate(text: string, cursor: int, lines: seq<string>, first: nat, last: nat, t: Table,
                                    block: seq<string>, row: int, column: nat)
    requires first <= last < |lines| && Block(lines, IsTableLine, first, last)
    requires forall i :: 0 <= i < |lines| ==> '\n' !in lines[i]
    requires Clean(t) && block == PrintedLines(t) && -1 <= row < |t.rows| && column < ColumnCount(t)
    requires text == Join(Splice(lines, first, last, block), '\n')
    requires LineOfRow(row) < |block| && cursor == Start(lines, first) + CursorIn(block, row, column)
    ensures Found(Locate(text, cursor), Padded(t), row, column, Start(lines, first), |Join(block, '\n')|,
                  Readable(t, row))
  {
    var k := LineOfRow(row);
    PrintedAreTableLines(t);
    PrintedHasNoNewline(t);
    CursorInBlock(t, block, row, column);
    PaddedShape(t);
    RowReadBack(t, block, row);
    ParsePrinted(t);
    RelocateBy(text, cursor, lines, first, last, block, k, CellContentEnd(block[k], column), PipeTables(),
               Padded(t), row, column, Readable(t, row));
  }

  /** An edit rewrites the table and nothing else, and looking again at its
      cursor finds the table in its normal form, the intended column, and the
      intended row exactly when no row down to it reads as a separator line; otherwise
      it finds a row above. */
  lemma {:induction false} EditRelocates(text: string, cursor: int, loc: Locator, t: Table, row: int, column: nat)
    requires Located(text, cursor, loc) && Clean(t) && -1 <= row < |t.rows| && column < ColumnCount(t)
    ensures loc.startOffset <= loc.endOffset <= |text|
    ensures var e := Apply(loc, t, row, column, text);
      && e.text == text[..loc.startOffset] + Serialize(t) + text[loc.endOffset..]
      && Found(Locate(e.text, e.cursor), Padded(t), row, column, loc.startOffset, |Serialize(t)|, Readable(t, row))
  {
    LocatedShape(text, cursor, loc);
    SplitPieces(text, '\n');
    var e, block := Apply(loc, t, row, column, text), PrintedLines(t);
    AppliedText(text, cursor, loc, t, row, column, e);
    AppliedCursor(loc, t, block, row, column, text);
    Relocate(e.text, e.cursor, loc.lines, loc.first, loc.last, t, block, row, column);
  }
}
