/** A printed table character by character: where its cells stand, what its separator
    line keeps of the alignments, and that the edits keep them too. */
module TablePrints {
  import opened Text
  import opened MarkdownTable
  import opened LineBlocks
  import opened TableEditor
  import opened TableEdits

  // ---------------------------------------------------------------- alignments

  /** Whether an alignment is given for the column and starts with a colon. */
  predicate Left(t: Table, i: nat) {
    i < |t.alignments| && t.alignments[i] != "" && t.alignments[i][0] == ':'
  }

  predicate Right(t: Table, i: nat) {
    i < |t.alignments| && t.alignments[i] != "" && t.alignments[i][|t.alignments[i]| - 1] == ':'
  }

  /** A separator cell with a colon at the sides that are asked for, and dashes. */
  ghost predicate Ruled(cell: string, left: bool, right: bool) {
    && |cell| >= 3
    && cell[0] == (if left then ':' else '-')
    && cell[|cell| - 1] == (if right then ':' else '-')
    && forall j :: 0 < j < |cell| - 1 ==> cell[j] == '-'
  }

  lemma {:induction false} RulerIsRuled(raw: string, w: nat)
    requires w >= 3
    ensures Ruled(Ruler(raw, w), raw != "" && raw[0] == ':', raw != "" && raw[|raw| - 1] == ':')
  {
  }

  lemma {:induction false} SeparatorIsRuled(t: Table, i: nat)
    ensures Ruled(SeparatorCell(t, i), Left(t, i), Right(t, i))
  {
    WidthAtLeast(t, i);
    RulerIsRuled(if i < |t.alignments| then t.alignments[i] else "---", Width(t, i));
  }

  /** A printed table keeps the colons of every column, and everything else in its
      separator line is dashes. */
  lemma {:induction false} AlignmentsPrinted(t: Table)
    requires Clean(t)
    ensures var p := Parse(PrintedLines(t));
      && p.Some? && |p.value.alignments| == ColumnCount(t)
      && forall i :: 0 <= i < ColumnCount(t) ==> Ruled(p.value.alignments[i], Left(t, i), Right(t, i))
  {
    ParsePrinted(t);
    forall i | 0 <= i < ColumnCount(t) ensures Ruled(SeparatorCells(t)[i], Left(t, i), Right(t, i)) {
      SeparatorIsRuled(t, i);
    }
  }

  /** Column `j` of `u` is aligned as column `i` of `t`. */
  ghost predicate SameSides(u: Table, j: nat, t: Table, i: nat) {
    (Left(u, j) <==> Left(t, i)) && (Right(u, j) <==> Right(t, i))
  }

  lemma {:induction false} PaddedSides(t: Table, i: nat)
    requires i < ColumnCount(t)
    ensures SameSides(Padded(t), i, t, i)
  {
    SeparatorIsRuled(t, i);
  }

  /** What looking again after an edit finds of the alignments of `u`. */
  lemma {:induction false} LandedSides(text: string, loc: Locator, e: Edit, to: Target, i: nat)
    requires loc.startOffset <= loc.endOffset <= |text| && Lands(text, loc, e, to) && i < ColumnCount(to.table)
    ensures SameSides(Locate(e.text, e.cursor).value.table, i, to.table, i)
  {
    PaddedSides(to.table, i);
  }

  ghost predicate KeepsSides(t: Table, e: Edit) {
    var again := Locate(e.text, e.cursor);
    again.Some? && forall i :: 0 <= i < ColumnCount(t) ==> SameSides(again.value.table, i, t, i)
  }

  lemma {:induction false} TargetKeepsSides(text: string, loc: Locator, e: Edit, to: Target)
    requires loc.startOffset <= loc.endOffset <= |text| && Lands(text, loc, e, to)
    requires to.table.alignments == loc.table.alignments && ColumnCount(to.table) == ColumnCount(loc.table)
    ensures KeepsSides(loc.table, e)
  {
    forall i | 0 <= i < ColumnCount(loc.table)
      ensures SameSides(Locate(e.text, e.cursor).value.table, i, loc.table, i)
    {
      LandedSides(text, loc, e, to, i);
    }
  }

  /** Tab, Shift-Tab and a new row leave every column aligned as it was. */
  lemma {:induction false} MovesKeepAlignment(text: string, cursor: int, loc: Locator)
    requires Located(text, cursor, loc)
    ensures Perform(text, cursor, NextOf).Some? ==> KeepsSides(loc.table, Perform(text, cursor, NextOf).value)
    ensures Perform(text, cursor, PreviousOf).Some? ==> KeepsSides(loc.table, Perform(text, cursor, PreviousOf).value)
    ensures Perform(text, cursor, InsertOf).Some? ==> KeepsSides(loc.table, Perform(text, cursor, InsertOf).value)
  {
    var next, previous := Perform(text, cursor, NextOf), Perform(text, cursor, PreviousOf);
    var insert := Perform(text, cursor, InsertOf);
    LocatedTable(text, cursor, loc);
    NextCellLands(text, cursor);
    NextIsNext(loc.table, loc.row, loc.column);
    TargetKeepsSides(text, loc, next.value, NextOf(loc).value);
    PreviousCellLands(text, cursor);
    if previous.Some? {
      PreviousIsPrevious(loc.table, loc.row, loc.column);
      TargetKeepsSides(text, loc, previous.value, PreviousOf(loc).value);
    }
    InsertRowLands(text, cursor);
    InsertIsBelow(loc.table, loc.row);
    TargetKeepsSides(text, loc, insert.value, InsertOf(loc).value);
  }

  lemma {:induction false} InsertedSides(t: Table, at: nat, i: nat)
    requires at <= ColumnCount(t) && i < ColumnCount(t)
    ensures SameSides(WithColumn(t, at), if i < at then i else i + 1, t, i)
    ensures !Left(WithColumn(t, at), at) && !Right(WithColumn(t, at), at)
  {
    var n := ColumnCount(t);
    if t.alignments != [] {
      var f := FilledWith(t.alignments, n, "---");
      assert |f| >= n && f[i] == if i < |t.alignments| then t.alignments[i] else "---";
      InsertedAt(f, at, "---", at);
      InsertedAt(f, at, "---", if i < at then i else i + 1);
    }
  }

  lemma {:induction false} DroppedSides(t: Table, at: nat, i: nat)
    ensures SameSides(WithoutColumn(t, at), i, t, if i < at then i else i + 1)
  {
  }

  /** When an edit puts a new column into the table, the column is not aligned and the
      others take their alignment along. */
  lemma {:induction false} NewColumnKeepsAlignment(text: string, cursor: int, target: Locator -> Option<Target>,
                                                   loc: Locator, e: Edit, to: Target, i: nat)
    requires Located(text, cursor, loc) && Perform(text, cursor, target) == Some(e)
    requires target(loc) == Some(to) && Sound(to) && Clean(loc.table) && i < ColumnCount(loc.table)
    requires to.column <= ColumnCount(loc.table) && to.table == WithColumn(loc.table, to.column)
    ensures Locate(e.text, e.cursor).Some?
    ensures var u, at := Locate(e.text, e.cursor).value.table, to.column;
      SameSides(u, if i < at then i else i + 1, loc.table, i) && !Left(u, at) && !Right(u, at)
  {
    LandsOn(text, cursor, target, loc, to, e);
    AddedClean(loc.table, to.column);
    AddedSides(text, loc, e, to, i);
  }

  lemma {:induction false} AddedSides(text: string, loc: Locator, e: Edit, to: Target, i: nat)
    requires loc.startOffset <= loc.endOffset <= |text| && Lands(text, loc, e, to)
    requires to.table == WithColumn(loc.table, to.column)
    requires i < ColumnCount(loc.table) && to.column <= ColumnCount(loc.table)
    requires ColumnCount(to.table) == ColumnCount(loc.table) + 1
    ensures var u, at := Locate(e.text, e.cursor).value.table, to.column;
      SameSides(u, if i < at then i else i + 1, loc.table, i) && !Left(u, at) && !Right(u, at)
  {
    InsertedSides(loc.table, to.column, i);
    LandedSides(text, loc, e, to, to.column);
    LandedSides(text, loc, e, to, if i < to.column then i else i + 1);
  }

  /** The columns that are left keep their alignment. */
  lemma {:induction false} RemoveKeepsAlignment(text: string, cursor: int, loc: Locator, e: Edit, i: nat)
    requires Located(text, cursor, loc) && Perform(text, cursor, RemoveOf) == Some(e) && i + 1 < ColumnCount(loc.table)
    ensures Locate(e.text, e.cursor).Some?
    ensures SameSides(Locate(e.text, e.cursor).value.table, i, loc.table, if i < loc.column then i else i + 1)
  {
    LocatedTable(text, cursor, loc);
    RemoveColumnLands(text, cursor);
    RemoveIsRemoval(loc.table, loc.row, loc.column);
    RemoveColumnCells(loc.table, loc.column);
    DroppedSides(loc.table, loc.column, i);
    LandedSides(text, loc, e, RemoveOf(loc).value, i);
  }

  // ------------------------------------------------------------- where cells stand

  /** Offset of the content of cell `i`: every cell has a pipe and a space before it
      and a space behind it. */
  function Offset(cells: seq<string>, i: nat): nat
    requires i <= |cells|
  {
    if i == 0 then 2 else |cells[0]| + 3 + Offset(cells[1..], i - 1)
  }

  lemma {:induction false} FramedCons(cells: seq<string>)
    requires |cells| > 1
    ensures Framed(cells) == "| " + cells[0] + " " + Framed(cells[1..])
  {
    var j := JoinWith(cells[1..], " | ");
    assert "| " + (cells[0] + " | " + j) + " |" == "| " + cells[0] + " " + ("| " + j + " |");
  }

  lemma {:induction false} FramedOne(cells: seq<string>)
    requires |cells| == 1
    ensures Framed(cells) == "| " + cells[0] + " " + "|"
  {
  }

  lemma {:induction false} PieceOf(head: string, cell: string, tail: string, line: string)
    requires line == head + cell + " " + tail && |head| == 2
    ensures line[2..2 + |cell|] == cell && line[2 + |cell|] == ' ' && line[|cell| + 3..] == tail
    ensures line[0] == head[0] && line[1] == head[1]
  {
  }

  /** A text from `at` on, between a pipe and a space and a space and a pipe. */
  ghost predicate CellIn(line: string, at: nat, cell: string) {
    && 2 <= at && at + |cell| + 1 < |line|
    && line[at..at + |cell|] == cell
    && line[at - 2] == '|' && line[at - 1] == ' ' && line[at + |cell|] == ' ' && line[at + |cell| + 1] == '|'
  }

  /** Cell `i` of a framed line, with what frames it and the pipes before it. */
  lemma {:induction false} FramedAt(cells: seq<string>, i: nat)
    requires i < |cells| && forall k :: 0 <= k < |cells| ==> '|' !in cells[k]
    ensures CellIn(Framed(cells), Offset(cells, i), cells[i])
    ensures CountPipes(Framed(cells)[..Offset(cells, i) - 2]) == i
  {
    var line := Framed(cells);
    if i == 0 {
      FirstCell(cells, line);
    } else {
      FramedCons(cells);
      FramedAt(cells[1..], i - 1);
      ShiftedCell(line, cells[0], Framed(cells[1..]), Offset(cells[1..], i - 1), cells[i], i - 1);
    }
  }

  lemma {:induction false} FirstCell(cells: seq<string>, line: string)
    requires |cells| > 0 && line == Framed(cells)
    ensures CellIn(line, 2, cells[0]) && CountPipes(line[..0]) == 0
  {
    var tail := if |cells| > 1 then Framed(cells[1..]) else "|";
    if |cells| > 1 {
      FramedCons(cells);
    } else {
      FramedOne(cells);
    }
    PieceOf("| ", cells[0], tail, line);
    assert line[|cells[0]| + 3] == tail[0];
  }

  lemma {:induction false} ShiftedCell(line: string, first: string, tail: string, at: nat, cell: string, i: nat)
    requires line == "| " + first + " " + tail && '|' !in first
    requires CellIn(tail, at, cell) && CountPipes(tail[..at - 2]) == i
    ensures CellIn(line, |first| + 3 + at, cell) && CountPipes(line[..|first| + 3 + at - 2]) == i + 1
  {
    var n := |first| + 3;
    PieceOf("| ", first, tail, line);
    ShiftedPiece(line, tail, n, at, cell);
    assert line[..n + at - 2] == line[..n] + tail[..at - 2];
    CountPipesConcat(line[..n], tail[..at - 2]);
    HeadPipes(first, line);
  }

  lemma {:induction false} ShiftedPiece(line: string, tail: string, n: nat, at: nat, cell: string)
    requires n <= |line| && line[n..] == tail && CellIn(tail, at, cell)
    ensures CellIn(line, n + at, cell)
  {
    assert forall j :: 0 <= j < |tail| ==> line[n + j] == line[n..][j] == tail[j];
    assert line[n + at..n + at + |cell|] == line[n..][at..at + |cell|];
    assert line[n + (at - 2)] == tail[at - 2] && line[n + (at - 1)] == tail[at - 1];
    assert line[n + (at + |cell|)] == tail[at + |cell|] && line[n + (at + |cell| + 1)] == tail[at + |cell| + 1];
  }

  lemma {:induction false} HeadPipes(cell: string, line: string)
    requires '|' !in cell && |cell| + 3 <= |line| && line[0] == '|' && line[1] == ' '
    requires line[2..2 + |cell|] == cell && line[2 + |cell|] == ' '
    ensures CountPipes(line[..|cell| + 3]) == 1
  {
    var inner := " " + cell + " ";
    assert line[..|cell| + 3] == "|" + inner;
    CountPipesConcat("|", inner);
    NoPipes(inner);
    assert "|"[1..] == "";
  }

  /** Where column `i` of a printed table starts, in every row. */
  function ColumnStart(t: Table, i: nat): nat {
    if i == 0 then 2 else ColumnStart(t, i - 1) + Width(t, i - 1) + 3
  }

  lemma {:induction false} OffsetNext(cells: seq<string>, i: nat)
    requires i < |cells|
    ensures Offset(cells, i + 1) == Offset(cells, i) + |cells[i]| + 3
  {
    if i > 0 {
      OffsetNext(cells[1..], i - 1);
    }
  }

  lemma {:induction false} OffsetIs(t: Table, cells: seq<string>, i: nat)
    requires i <= |cells| && forall k :: 0 <= k < |cells| ==> |cells[k]| == Width(t, k)
    ensures Offset(cells, i) == ColumnStart(t, i)
  {
    if i > 0 {
      OffsetIs(t, cells, i - 1);
      OffsetNext(cells, i - 1);
    }
  }

  /** A column is as wide as its longest cell, but at least three. */
  lemma {:induction false} WidthIs(t: Table, i: nat)
    ensures Width(t, i) >= 3 && |CellAt(t.header, i)| <= Width(t, i)
    ensures forall k :: 0 <= k < |t.rows| ==> |CellAt(t.rows[k], i)| <= Width(t, i)
    ensures Width(t, i) == 3 || |CellAt(t.header, i)| == Width(t, i)
      || exists k :: 0 <= k < |t.rows| && |CellAt(t.rows[k], i)| == Width(t, i)
  {
    WidthAtLeast(t, i);
    WidthReached(t.rows, i);
  }

  lemma {:induction false} WidthReached(rows: seq<seq<string>>, i: nat)
    ensures WidthIn(rows, i) == 3 || exists k :: 0 <= k < |rows| && |CellAt(rows[k], i)| == WidthIn(rows, i)
  {
    if |rows| > 0 {
      WidthReached(rows[1..], i);
      if WidthIn(rows, i) == |CellAt(rows[0], i)| {
      } else if WidthIn(rows[1..], i) != 3 {
        var k :| 0 <= k < |rows| - 1 && |CellAt(rows[1..][k], i)| == WidthIn(rows[1..], i);
        assert rows[k + 1] == rows[1..][k];
      }
    }
  }

  lemma {:induction false} CellsOfRow(t: Table, row: seq<string>)
    requires Clean(t) && CleanRow(row) && forall i :: 0 <= i < ColumnCount(t) ==> |CellAt(row, i)| <= Width(t, i)
    ensures forall k :: 0 <= k < ColumnCount(t) ==>
      |PaddedCells(t, row)[k]| == Width(t, k) && '|' !in PaddedCells(t, row)[k]
  {
    forall k | 0 <= k < ColumnCount(t)
      ensures |PaddedCells(t, row)[k]| == Width(t, k) && '|' !in PaddedCells(t, row)[k]
    {
      assert CellAt(row, k) == "" || CleanCell(CellAt(row, k));
    }
  }

  /** A text from `at` on in a column of width `w`: behind a pipe and a space, and
      filled up with spaces to the next pipe. */
  ghost predicate StandsAt(line: string, at: nat, cell: string, w: nat) {
    && 2 <= at && |cell| <= w && at + w + 1 < |line|
    && line[at - 2] == '|' && line[at - 1] == ' ' && line[at..at + |cell|] == cell
    && (forall j :: at + |cell| <= j <= at + w ==> line[j] == ' ')
    && line[at + w + 1] == '|'
  }

  lemma {:induction false} PadStands(line: string, at: nat, cell: string, w: nat)
    requires |cell| <= w && CellIn(line, at, Pad(cell, w))
    ensures StandsAt(line, at, cell, w)
  {
    var padded := Pad(cell, w);
    assert line[at..at + |cell|] == padded[..|cell|] == cell;
    forall j | at + |cell| <= j < at + w ensures line[j] == ' ' {
      assert line[j] == line[at..at + w][j - at] == padded[j - at];
    }
  }

  /** Every cell stands at the left end of its column. */
  lemma {:induction false} PrintedCell(t: Table, r: int, i: nat)
    requires Clean(t) && InTable(t, r, i)
    ensures StandsAt(RowLine(t, RowOf(t, r)), ColumnStart(t, i), Cell(t, r, i), Width(t, i))
    ensures CountPipes(RowLine(t, RowOf(t, r))[..ColumnStart(t, i) - 2]) == i
  {
    var row := RowOf(t, r);
    CleanRowOf(t, r);
    forall k | 0 <= k < ColumnCount(t) ensures |CellAt(row, k)| <= Width(t, k) {
      WidthIs(t, k);
    }
    CellsOfRow(t, row);
    OffsetIs(t, PaddedCells(t, row), i);
    FramedAt(PaddedCells(t, row), i);
    PadStands(RowLine(t, row), ColumnStart(t, i), CellAt(row, i), Width(t, i));
  }

  // ------------------------------------------------------------------- the cursor

  /** The pipe with `n` pipes before it is pipe number `n`. */
  lemma {:induction false} PipeNumber(line: string, q: nat, n: nat)
    requires q < |line| && line[q] == '|' && CountPipes(line[..q]) == n
    ensures n < |PipeIndices(line)| && PipeIndices(line)[n] == q
  {
    PipesPrefix(line, q);
    PipesPrefix(line, q + 1);
    CountPipesConcat(line[..q], "|");
    assert line[..q + 1] == line[..q] + "|" && "|"[1..] == "";
  }

  /** A cursor between two pipes is in the column of the left one. */
  lemma {:induction false} ColumnUnderCursor(line: string, inLine: nat, columns: nat, n: nat)
    requires n + 1 < |PipeIndices(line)| && n < columns
    requires PipeIndices(line)[n] < inLine <= PipeIndices(line)[n + 1]
    ensures ColumnAt(line, inLine, columns) == n
  {
    PipesBefore(line, inLine, n);
  }

  lemma {:induction false} WalkTo(line: string, start: nat, stop: nat, e: nat)
    requires start <= stop <= e <= |line| && forall j :: stop <= j < e ==> line[j] == ' '
    requires stop > start ==> line[stop - 1] != ' '
    ensures WalkBack(line, start, e) == stop
  {
    if e > stop {
      WalkTo(line, start, stop, e - 1);
    }
  }

  /** The cursor of an edit stands right behind the text of its cell, and in an empty
      cell behind the space that follows the pipe. */
  lemma {:induction false} CursorBehindText(t: Table, r: int, i: nat)
    requires Clean(t) && InTable(t, r, i)
    ensures CellContentEnd(RowLine(t, RowOf(t, r)), i) == ColumnStart(t, i) + |Cell(t, r, i)|
  {
    PrintedCell(t, r, i);
    CleanRowOf(t, r);
    EndOfText(RowLine(t, RowOf(t, r)), ColumnStart(t, i), Cell(t, r, i), Width(t, i), i);
  }

  lemma {:induction false} EndOfText(line: string, at: nat, cell: string, w: nat, n: nat)
    requires StandsAt(line, at, cell, w) && CountPipes(line[..at - 2]) == n
    requires '|' !in cell && Trimmed(cell, IsBlank)
    ensures CellContentEnd(line, n) == at + |cell|
  {
    PipeNumber(line, at - 2, n);
    NextPipe(line, at, w, n, cell);
    PipeNumber(line, at + w + 1, n + 1);
    TextEnd(line, at, w, cell);
  }

  lemma {:induction false} NextPipe(line: string, at: nat, w: nat, n: nat, cell: string)
    requires StandsAt(line, at, cell, w) && '|' !in cell && CountPipes(line[..at - 2]) == n
    ensures CountPipes(line[..at + w + 1]) == n + 1
  {
    var rest := line[at - 1..at + w + 1];
    assert line[..at + w + 1] == line[..at - 2] + ("|" + rest);
    forall j | 0 <= j < |rest| ensures rest[j] != '|' {
      if 0 < j <= |cell| {
        assert rest[j] == line[at..at + |cell|][j - 1] && cell[j - 1] in cell;
      }
    }
    NoPipes(rest);
    CountPipesConcat("|", rest);
    assert "|"[1..] == "";
    CountPipesConcat(line[..at - 2], "|" + rest);
  }

  lemma {:induction false} TextEnd(line: string, at: nat, w: nat, cell: string)
    requires StandsAt(line, at, cell, w) && Trimmed(cell, IsBlank)
    ensures ContentEnd(line, at - 1, at + w + 1) == at + |cell|
  {
    if |cell| == 0 {
      WalkTo(line, at - 1, at - 1, at + w + 1);
    } else {
      assert line[at + |cell| - 1] == cell[|cell| - 1];
      WalkTo(line, at - 1, at + |cell|, at + w + 1);
    }
  }

  // ----------------------------------------------------------- reading table lines

  /** A table line is a pipe behind blanks, with something behind it that is not
      blank. */
  lemma {:induction false} TableLineIff(line: string)
    ensures IsTableLine(line) <==> exists a, s :: line == a + "|" + s && Only(a, IsBlank) && !Only(s, IsBlank)
  {
    var a, b := TrimParts(line, IsBlank);
    var t := Trim(line, IsBlank);
    if IsTableLine(line) {
      var s := t[1..] + b;
      assert line == a + "|" + s && s[|t| - 2] == t[|t| - 1];
      assert !Only(s, IsBlank);
    }
    forall x, s | line == x + "|" + s && Only(x, IsBlank) && !Only(s, IsBlank) ensures IsTableLine(line) {
      PipeTrims(line, x, s);
    }
  }

  lemma {:induction false} PipeTrims(line: string, x: string, s: string)
    requires line == x + "|" + s && Only(x, IsBlank) && !Only(s, IsBlank)
    ensures IsTableLine(line)
  {
    var c, d := TrimParts(s, IsBlank);
    PipeCore(line, x, c, Trim(s, IsBlank), d);
  }

  lemma {:induction false} PipeCore(line: string, x: string, c: string, inner: string, d: string)
    requires line == x + "|" + (c + inner + d) && Only(x, IsBlank) && Only(d, IsBlank)
    requires inner != "" && Trimmed(inner, IsBlank)
    ensures IsTableLine(line)
  {
    var core := "|" + c + inner;
    assert core[|core| - 1] == inner[|inner| - 1];
    assert line == x + core + d;
    TrimCore(x, core, d, IsBlank);
  }

  /** A row is read cell by cell, however it is padded. */
  lemma {:induction false} RowReads(a: string, cells: seq<string>, b: string)
    requires Only(a, IsBlank) && Only(b, IsBlank) && |cells| > 0
    requires forall i :: 0 <= i < |cells| ==> '|' !in cells[i]
    ensures SplitRow(a + ("|" + Join(cells, '|') + "|") + b) == TrimAllCells(cells)
  {
    var inner := Join(cells, '|');
    var full := "|" + inner + "|";
    SplitJoin(cells, '|');
    BetweenPipes(full, inner);
    TrimCore(a, full, b, IsBlank);
    InnerOf(a + full + b, full, inner);
  }

  lemma {:induction false} InnerOf(line: string, full: string, inner: string)
    requires Trim(line, IsBlank) == full == Trim(full, IsBlank) && Inner(full) == inner
    ensures Inner(line) == inner
  {
  }

  /** The outer pipes are not needed, when the outer cells are not empty. */
  lemma {:induction false} OpenRowReads(a: string, cells: seq<string>, b: string)
    requires Only(a, IsBlank) && Only(b, IsBlank) && |cells| > 0
    requires forall i :: 0 <= i < |cells| ==> '|' !in cells[i]
    requires cells[0] != "" && cells[|cells| - 1] != "" && Trimmed(Join(cells, '|'), IsBlank)
    ensures SplitRow(a + Join(cells, '|') + b) == TrimAllCells(cells)
    ensures SplitRow(a + ("|" + Join(cells, '|')) + b) == TrimAllCells(cells)
  {
    var inner := Join(cells, '|');
    SplitJoin(cells, '|');
    JoinEnds(cells);
    OpenInner(a, inner, b);
  }

  lemma {:induction false} OpenInner(a: string, inner: string, b: string)
    requires Only(a, IsBlank) && Only(b, IsBlank) && inner != "" && Trimmed(inner, IsBlank)
    requires inner[0] != '|' && inner[|inner| - 1] != '|'
    ensures Inner(a + inner + b) == inner && Inner(a + ("|" + inner) + b) == inner
  {
    TrimCore(a, inner, b, IsBlank);
    assert ("|" + inner)[1..] == inner && ("|" + inner)[|inner|] == inner[|inner| - 1];
    TrimCore(a, "|" + inner, b, IsBlank);
  }

  lemma {:induction false} JoinEnds(cells: seq<string>)
    requires |cells| > 0 && cells[0] != "" && cells[|cells| - 1] != ""
    ensures var j, last := Join(cells, '|'), cells[|cells| - 1];
      j != "" && j[0] == cells[0][0] && j[|j| - 1] == last[|last| - 1]
  {
    if |cells| == 2 {
      assert cells[1..] == [cells[1]];
    } else if |cells| > 2 {
      var j := Join(cells, '|');
      JoinAppend(cells[..|cells| - 1], [cells[|cells| - 1]], '|');
      assert cells[..|cells| - 1] + [cells[|cells| - 1]] == cells;
      assert Join(cells, '|')[0] == cells[0][0];
    }
  }

  // ------------------------------------------------------------- reading the block

  lemma {:induction false} ParseUnruled(lines: seq<string>)
    requires |lines| > 0 && (|lines| > 1 ==> !IsSeparatorLine(lines[1]))
    requires forall i :: 0 <= i < |lines| ==> IsTableLine(lines[i])
    ensures Parse(lines) == Some(Table(SplitRow(lines[0]), [], SplitRows(lines[1..])))
  {
    AllTableLines(lines);
  }

  /** What is read from table lines: the header, the alignments if a separator line
      follows, and every other line as a row. */
  lemma {:induction false} ParsedTable(lines: seq<string>)
    requires |lines| > 0 && forall i :: 0 <= i < |lines| ==> IsTableLine(lines[i])
    ensures Parse(lines)
      == Some(if |lines| > 1 && IsSeparatorLine(lines[1])
              then Table(SplitRow(lines[0]), SplitRow(lines[1]), SplitRows(lines[2..]))
              else Table(SplitRow(lines[0]), [], SplitRows(lines[1..])))
  {
    if |lines| > 1 && IsSeparatorLine(lines[1]) {
      ParseRuled(lines);
    } else {
      ParseUnruled(lines);
    }
  }

  lemma {:induction false} SameTableLines(a: seq<string>, b: seq<string>)
    requires TableLines(a) == TableLines(b)
    ensures Parse(a) == Parse(b)
  {
  }

  lemma {:induction false} TableLinesConcat(a: seq<string>, b: seq<string>)
    ensures TableLines(a + b) == TableLines(a) + TableLines(b)
  {
    if |a| == 0 {
      assert a + b == b;
    } else {
      TailOfConcat(a, b);
      TableLinesConcat(a[1..], b);
    }
  }

  /** Lines that are no table lines are passed over. */
  lemma {:induction false} OtherLinesIgnored(a: seq<string>, other: string, b: seq<string>)
    requires !IsTableLine(other)
    ensures Parse(a + [other] + b) == Parse(a + b)
  {
    TableLinesConcat(a + [other], b);
    TableLinesConcat(a, [other]);
    TableLinesConcat(a, b);
    NoTableLine(other);
    assert TableLines(a) + [] == TableLines(a);
    SameTableLines(a + [other] + b, a + b);
  }

  lemma {:induction false} NoTableLine(other: string)
    requires !IsTableLine(other)
    ensures TableLines([other]) == []
  {
    assert [other][1..] == [];
  }
}
