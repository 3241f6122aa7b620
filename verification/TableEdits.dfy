/** What the five structured edits of a pipe table do: where each one puts the
    cursor, which cells it moves, and which edits undo each other. */
module TableEdits {
  import opened Text
  import opened MarkdownTable
  import opened LineBlocks
  import opened TableEditor

  // ------------------------------------------------------------ cells of a table

  function RowOf(t: Table, row: int): seq<string>
    requires -1 <= row < |t.rows|
  {
    if row < 0 then t.header else t.rows[row]
  }

  /** The text of a cell; a short row reads as filled up with empty cells. */
  function Cell(t: Table, row: int, column: nat): string
    requires -1 <= row < |t.rows|
  {
    CellAt(RowOf(t, row), column)
  }

  ghost predicate InTable(t: Table, row: int, column: nat) {
    -1 <= row < |t.rows| && column < ColumnCount(t)
  }

  /** The target of an edit is a printable table and one of its cells. */
  ghost predicate Sound(to: Target) {
    Clean(to.table) && InTable(to.table, to.row, to.column)
  }

  lemma {:induction false} WidestReached(rows: seq<seq<string>>)
    ensures if |rows| == 0 then Widest(rows) == 0 else exists i :: 0 <= i < |rows| && |rows[i]| == Widest(rows)
  {
    if |rows| > 0 {
      WidestReached(rows[1..]);
      if |rows[0]| < Widest(rows[1..]) {
        var i :| 0 <= i < |rows| - 1 && |rows[1..][i]| == Widest(rows[1..]);
        assert |rows[i + 1]| == Widest(rows);
      } else {
        assert |rows[0]| == Widest(rows);
      }
    }
  }

  /** The column count is the length of the longest row, the header included. */
  lemma {:induction false} ColumnCountIs(t: Table, n: nat)
    requires forall r :: -1 <= r < |t.rows| ==> |RowOf(t, r)| <= n
    requires exists r :: -1 <= r < |t.rows| && |RowOf(t, r)| == n
    ensures ColumnCount(t) == n
  {
    WidestReached(t.rows);
    assert |RowOf(t, -1)| <= n;
    assert forall i :: 0 <= i < |t.rows| ==> t.rows[i] == RowOf(t, i);
    var r :| -1 <= r < |t.rows| && |RowOf(t, r)| == n;
    if r >= 0 {
      assert |t.rows[r]| <= Widest(t.rows);
    }
  }

  lemma {:induction false} LongestRow(t: Table) returns (r: int)
    ensures -1 <= r < |t.rows| && |RowOf(t, r)| == ColumnCount(t)
    ensures forall k :: -1 <= k < |t.rows| ==> |RowOf(t, k)| <= ColumnCount(t)
  {
    WidestReached(t.rows);
    if |t.header| < Widest(t.rows) {
      r :| 0 <= r < |t.rows| && |t.rows[r]| == Widest(t.rows);
    } else {
      r := -1;
    }
  }

  // ------------------------------------------------------------ moving between cells

  /** Cells in reading order, the header row first. */
  function Index(row: int, column: nat, columns: nat): int {
    (row + 1) * columns + column
  }

  lemma {:induction false} IndexStep(row: int, columns: nat)
    requires columns > 0
    ensures Index(row + 1, 0, columns) == Index(row, columns - 1, columns) + 1
  {
    assert (row + 2) * columns == (row + 1) * columns + columns;
  }

  lemma {:induction false} AppendBlank(t: Table)
    requires Clean(t)
    ensures var u := t.(rows := t.rows + [BlankRow(ColumnCount(t))]);
      Clean(u) && ColumnCount(u) == ColumnCount(t)
  {
    var n := ColumnCount(t);
    var u := t.(rows := t.rows + [BlankRow(n)]);
    var r := LongestRow(t);
    assert RowOf(u, r) == RowOf(t, r);
    forall k | -1 <= k < |u.rows| ensures |RowOf(u, k)| <= n {
      if k < |t.rows| {
        assert RowOf(u, k) == RowOf(t, k);
      }
    }
    ColumnCountIs(u, n);
  }

  /** Tab goes to the next cell in reading order. The table is as it was, except
      that past the last cell it has one more row, and that row is blank. */
  lemma {:induction false} NextIsNext(t: Table, row: int, column: nat)
    requires Clean(t) && InTable(t, row, column)
    ensures var to, n := NextTarget(t, row, column), ColumnCount(t);
      && Sound(to) && ColumnCount(to.table) == n
      && Index(to.row, to.column, n) == Index(row, column, n) + 1
      && to.table == (if row == |t.rows| - 1 && column == n - 1 then t.(rows := t.rows + [BlankRow(n)]) else t)
  {
    AppendBlank(t);
    if column + 1 == ColumnCount(t) {
      IndexStep(row, ColumnCount(t));
      if row < 0 && t.rows == [] {
        assert t.rows + [BlankRow(ColumnCount(t))] == [BlankRow(ColumnCount(t))];
      }
    }
  }

  /** Shift-Tab goes to the previous cell, and does nothing at the first one. */
  lemma {:induction false} PreviousIsPrevious(t: Table, row: int, column: nat)
    requires Clean(t) && InTable(t, row, column)
    ensures var to, n := PreviousTarget(t, row, column), ColumnCount(t);
      && (to.None? <==> row == -1 && column == 0)
      && (to.Some? ==> Sound(to.value) && to.value.table == t
                       && Index(to.value.row, to.value.column, n) == Index(row, column, n) - 1)
  {
    if column == 0 && row >= 0 {
      IndexStep(row - 1, ColumnCount(t));
    }
  }

  lemma {:induction false} PreviousOfNext(t: Table, row: int, column: nat)
    requires Clean(t) && InTable(t, row, column)
    ensures var to := NextTarget(t, row, column);
      PreviousTarget(to.table, to.row, to.column) == Some(Target(to.table, row, column))
  {
    AppendBlank(t);
    if row < 0 && t.rows == [] {
      assert t.rows + [BlankRow(ColumnCount(t))] == [BlankRow(ColumnCount(t))];
    }
  }

  // ------------------------------------------------------------ rows and columns

  lemma {:induction false} InsertedAt<T>(s: seq<T>, i: nat, x: T, k: nat)
    requires i <= |s| && k <= |s|
    ensures var r := s[..i] + [x] + s[i..];
      && |r| == |s| + 1 && r[k] == if k < i then s[k] else if k == i then x else s[k - 1]
  {
  }

  lemma {:induction false} InsertedRow(t: Table, u: Table, row: int, blank: seq<string>, k: int)
    requires -1 <= row < |t.rows| && -1 <= k <= |t.rows|
    requires u.header == t.header && u.rows == t.rows[..row + 1] + [blank] + t.rows[row + 1..]
    ensures |u.rows| == |t.rows| + 1
    ensures RowOf(u, k) == if k == row + 1 then blank else RowOf(t, if k <= row then k else k - 1)
  {
    if k >= 0 {
      InsertedAt(t.rows, row + 1, blank, k);
    }
  }

  lemma {:induction false} InsertedBelow(t: Table, u: Table, row: int, blank: seq<string>)
    requires -1 <= row < |t.rows|
    requires u.header == t.header && u.rows == t.rows[..row + 1] + [blank] + t.rows[row + 1..]
    ensures |u.rows| == |t.rows| + 1 && RowOf(u, row + 1) == blank
    ensures forall k :: -1 <= k < |t.rows| ==> RowOf(u, if k <= row then k else k + 1) == RowOf(t, k)
    ensures forall k :: -1 <= k < |u.rows| ==>
      RowOf(u, k) == if k == row + 1 then blank else RowOf(t, if k <= row then k else k - 1)
  {
    InsertedRow(t, u, row, blank, row + 1);
    forall k | -1 <= k < |t.rows| ensures RowOf(u, if k <= row then k else k + 1) == RowOf(t, k) {
      InsertedRow(t, u, row, blank, if k <= row then k else k + 1);
    }
    forall k | -1 <= k < |u.rows|
      ensures RowOf(u, k) == if k == row + 1 then blank else RowOf(t, if k <= row then k else k - 1)
    {
      InsertedRow(t, u, row, blank, k);
    }
  }

  /** What an insertion does to the rows. */
  lemma {:induction false} InsertedRows(t: Table, row: int, u: Table)
    requires -1 <= row < |t.rows| && u == InsertTarget(t, row).table
    ensures |u.rows| == |t.rows| + 1 && RowOf(u, row + 1) == BlankRow(ColumnCount(t))
    ensures forall k :: -1 <= k < |t.rows| ==> RowOf(u, if k <= row then k else k + 1) == RowOf(t, k)
    ensures forall k :: -1 <= k < |u.rows| ==>
      RowOf(u, k) == if k == row + 1 then BlankRow(ColumnCount(t)) else RowOf(t, if k <= row then k else k - 1)
  {
    InsertedBelow(t, u, row, BlankRow(ColumnCount(t)));
  }

  lemma {:induction false} CleanRowOf(t: Table, k: int)
    requires Clean(t) && -1 <= k < |t.rows|
    ensures CleanRow(RowOf(t, k))
  {
  }

  lemma {:induction false} InsertedColumns(t: Table, row: int, u: Table)
    requires Clean(t) && -1 <= row < |t.rows| && u == InsertTarget(t, row).table
    ensures ColumnCount(u) == ColumnCount(t) && Clean(u)
  {
    var n := ColumnCount(t);
    InsertedRows(t, row, u);
    var r := LongestRow(t);
    forall k | -1 <= k < |u.rows| ensures |RowOf(u, k)| <= n && CleanRow(RowOf(u, k)) {
      if k != row + 1 {
        CleanRowOf(t, if k <= row then k else k - 1);
      }
    }
    assert |RowOf(u, if r <= row then r else r + 1)| == n;
    ColumnCountIs(u, n);
    forall k | 0 <= k < |u.rows| ensures CleanRow(u.rows[k]) {
      assert u.rows[k] == RowOf(u, k);
    }
  }

  /** A new row is blank, stands right below the cursor, and moves the rows
      below it by one. */
  lemma {:induction false} InsertIsBelow(t: Table, row: int)
    requires Clean(t) && -1 <= row < |t.rows|
    ensures var to := InsertTarget(t, row);
      && Sound(to) && ColumnCount(to.table) == ColumnCount(t)
      && to.row == row + 1 && to.column == 0 && |to.table.rows| == |t.rows| + 1
      && to.table.alignments == t.alignments
      && RowOf(to.table, row + 1) == BlankRow(ColumnCount(t))
      && forall k :: -1 <= k < |t.rows| ==> RowOf(to.table, if k <= row then k else k + 1) == RowOf(t, k)
  {
    InsertedRows(t, row, InsertTarget(t, row).table);
    InsertedColumns(t, row, InsertTarget(t, row).table);
  }

  lemma {:induction false} InsertAtCells(row: seq<string>, n: nat, at: nat, cell: string)
    requires |row| <= n && at <= n
    ensures var r := InsertAt(FilledWith(row, n, cell), at, cell);
      && |r| == n + 1 && r[at] == cell
      && forall i :: 0 <= i < n ==> r[if i < at then i else i + 1] == if i < |row| then row[i] else cell
  {
    var f := FilledWith(row, n, cell);
    assert |f| == n && forall i :: 0 <= i < n ==> f[i] == if i < |row| then row[i] else cell;
  }

  /** A new column is empty, and the cells from it on move right by one. */
  lemma {:induction false} AddColumnCells(t: Table, at: nat)
    requires Clean(t) && at <= ColumnCount(t)
    ensures var u, n := WithColumn(t, at), ColumnCount(t);
      && Clean(u) && ColumnCount(u) == n + 1 && |u.rows| == |t.rows|
      && forall r :: -1 <= r < |t.rows| ==>
        && |RowOf(u, r)| == n + 1 && Cell(u, r, at) == ""
        && forall i :: 0 <= i < n ==> Cell(u, r, if i < at then i else i + 1) == Cell(t, r, i)
  {
    var u, n := WithColumn(t, at), ColumnCount(t);
    var longest := LongestRow(t);
    forall r | -1 <= r < |t.rows|
      ensures |RowOf(u, r)| == n + 1 && Cell(u, r, at) == "" && CleanRow(RowOf(u, r))
      ensures forall i :: 0 <= i < n ==> Cell(u, r, if i < at then i else i + 1) == Cell(t, r, i)
    {
      AddedRow(RowOf(t, r), n, at);
    }
    assert |RowOf(u, -1)| == n + 1;
    ColumnCountIs(u, n + 1);
    forall k | 0 <= k < |u.rows| ensures CleanRow(u.rows[k]) {
      assert u.rows[k] == RowOf(u, k);
    }
  }

  lemma {:induction false} AddIsSound(t: Table, row: int, column: nat)
    requires Clean(t) && InTable(t, row, column)
    ensures Sound(Target(WithColumn(t, column + 1), row, column + 1))
  {
    var u := WithColumn(t, column + 1);
    AddedClean(t, column + 1);
    assert InTable(u, row, column + 1);
  }

  lemma {:induction false} AddedClean(t: Table, at: nat)
    requires Clean(t) && at <= ColumnCount(t)
    ensures var u := WithColumn(t, at); Clean(u) && ColumnCount(u) == ColumnCount(t) + 1 && |u.rows| == |t.rows|
  {
    AddColumnCells(t, at);
  }

  lemma {:induction false} AddedRow(row: seq<string>, n: nat, at: nat)
    requires CleanRow(row) && |row| <= n && at <= n
    ensures var r := InsertAt(FilledWith(row, n, ""), at, "");
      && |r| == n + 1 && CellAt(r, at) == "" && CleanRow(r)
      && forall i :: 0 <= i < n ==> CellAt(r, if i < at then i else i + 1) == CellAt(row, i)
  {
    InsertAtCells(row, n, at, "");
    var r := InsertAt(FilledWith(row, n, ""), at, "");
    forall i | 0 <= i < |r| ensures CleanCell(r[i]) {
      if i < at {
        assert r[i] == CellAt(row, i);
      } else if i > at {
        assert r[i] == CellAt(row, i - 1);
      }
    }
  }

  /** Removing a column takes its cell out of every row that has one; the other
      cells keep their order. */
  lemma {:induction false} RemoveColumnCells(t: Table, at: nat)
    requires Clean(t) && at < ColumnCount(t)
    ensures var u, n := WithoutColumn(t, at), ColumnCount(t);
      && ColumnCount(u) == n - 1 && |u.rows| == |t.rows| && (n > 1 ==> Clean(u))
      && forall r, i :: -1 <= r < |t.rows| && 0 <= i < n - 1 ==>
        Cell(u, r, i) == Cell(t, r, if i < at then i else i + 1)
  {
    var u, n := WithoutColumn(t, at), ColumnCount(t);
    forall r | -1 <= r < |t.rows|
      ensures RowOf(u, r) == DropAt(RowOf(t, r), at) && |RowOf(u, r)| <= n - 1 && CleanRow(RowOf(u, r))
      ensures forall i :: 0 <= i < n - 1 ==> Cell(u, r, i) == Cell(t, r, if i < at then i else i + 1)
    {
      var k := LongestRow(t);
      assert |RowOf(t, r)| <= n;
    }
    var longest := LongestRow(t);
    assert |RowOf(u, longest)| == n - 1;
    ColumnCountIs(u, n - 1);
    forall k | 0 <= k < |u.rows| ensures CleanRow(u.rows[k]) {
      assert u.rows[k] == RowOf(u, k);
    }
  }

  /** A column is removed unless it is the only one, and the cursor stays in its
      place or moves to the new last column. */
  lemma {:induction false} RemoveIsRemoval(t: Table, row: int, column: nat)
    requires Clean(t) && InTable(t, row, column)
    ensures var to, n := RemoveTarget(t, row, column), ColumnCount(t);
      && (to.Some? <==> n > 1)
      && (to.Some? ==> Sound(to.value) && to.value.table == WithoutColumn(t, column)
                       && to.value.row == row && to.value.column == if column < n - 1 then column else n - 2)
  {
    RemoveColumnCells(t, column);
  }

  // ------------------------------------------------------------ edits of a document

  /** The text in which the located table has been exchanged for `t`. */
  function Rewritten(text: string, loc: Locator, t: Table): string
    requires loc.startOffset <= loc.endOffset <= |text|
  {
    text[..loc.startOffset] + Serialize(t) + text[loc.endOffset..]
  }

  /** The outcome of an edit: the table exchanged, the rest of the text kept, and
      the cursor in the target cell, as far as looking again can tell. */
  ghost predicate Lands(text: string, loc: Locator, e: Edit, to: Target)
    requires loc.startOffset <= loc.endOffset <= |text|
  {
    && e.text == Rewritten(text, loc, to.table)
    && Found(Locate(e.text, e.cursor), Padded(to.table), to.row, to.column,
             loc.startOffset, |Serialize(to.table)|, Readable(to.table, to.row))
  }

  /** Every edit with a sound target lands on it; an edit without a target, or
      outside a table, does nothing. */
  lemma {:induction false} PerformLands(text: string, cursor: int, target: Locator -> Option<Target>)
    requires Locate(text, cursor).Some? && target(Locate(text, cursor).value).Some? ==>
               Sound(target(Locate(text, cursor).value).value)
    ensures var loc, e := Locate(text, cursor), Perform(text, cursor, target);
      && (e.Some? <==> loc.Some? && target(loc.value).Some?)
      && (e.Some? ==> loc.value.startOffset <= loc.value.endOffset <= |text|
                      && Lands(text, loc.value, e.value, target(loc.value).value))
  {
    var loc := Locate(text, cursor);
    if loc.Some? && target(loc.value).Some? {
      var to := target(loc.value).value;
      EditRelocates(text, cursor, loc.value, to.table, to.row, to.column);
    }
  }

  lemma {:induction false} LandsOn(text: string, cursor: int, target: Locator -> Option<Target>, loc: Locator,
                                   to: Target, e: Edit)
    requires Located(text, cursor, loc) && target(loc) == Some(to) && Sound(to)
    requires Perform(text, cursor, target) == Some(e)
    ensures loc.startOffset <= loc.endOffset <= |text| && Lands(text, loc, e, to)
  {
    PerformLands(text, cursor, target);
  }

  lemma {:induction false} NextCellLands(text: string, cursor: int)
    ensures var loc, e := Locate(text, cursor), Perform(text, cursor, NextOf);
      && (e.Some? <==> loc.Some?)
      && (e.Some? ==> loc.value.startOffset <= loc.value.endOffset <= |text|
                      && Lands(text, loc.value, e.value, NextOf(loc.value).value))
  {
    var loc := Locate(text, cursor);
    if loc.Some? {
      LocatedTable(text, cursor, loc.value);
      NextIsNext(loc.value.table, loc.value.row, loc.value.column);
    }
    PerformLands(text, cursor, NextOf);
  }

  lemma {:induction false} PreviousCellLands(text: string, cursor: int)
    ensures var loc, e := Locate(text, cursor), Perform(text, cursor, PreviousOf);
      && (e.Some? <==> loc.Some? && !(loc.value.row == -1 && loc.value.column == 0))
      && (e.Some? ==> loc.value.startOffset <= loc.value.endOffset <= |text| && PreviousOf(loc.value).Some?
                      && Lands(text, loc.value, e.value, PreviousOf(loc.value).value))
  {
    var loc := Locate(text, cursor);
    if loc.Some? {
      LocatedTable(text, cursor, loc.value);
      PreviousIsPrevious(loc.value.table, loc.value.row, loc.value.column);
    }
    PerformLands(text, cursor, PreviousOf);
  }

  lemma {:induction false} InsertRowLands(text: string, cursor: int)
    ensures var loc, e := Locate(text, cursor), Perform(text, cursor, InsertOf);
      && (e.Some? <==> loc.Some?)
      && (e.Some? ==> loc.value.startOffset <= loc.value.endOffset <= |text|
                      && Lands(text, loc.value, e.value, InsertOf(loc.value).value))
  {
    var loc := Locate(text, cursor);
    if loc.Some? {
      LocatedTable(text, cursor, loc.value);
      InsertIsBelow(loc.value.table, loc.value.row);
    }
    PerformLands(text, cursor, InsertOf);
  }

  lemma {:induction false} AddColumnLands(text: string, cursor: int)
    ensures var loc, e := Locate(text, cursor), Perform(text, cursor, AddOf);
      && (e.Some? <==> loc.Some?)
      && (e.Some? ==> loc.value.startOffset <= loc.value.endOffset <= |text|
                      && Lands(text, loc.value, e.value, AddOf(loc.value).value))
  {
    var loc := Locate(text, cursor);
    if loc.Some? {
      LocatedTable(text, cursor, loc.value);
      AddIsSound(loc.value.table, loc.value.row, loc.value.column);
    }
    PerformLands(text, cursor, AddOf);
  }

  lemma {:induction false} RemoveColumnLands(text: string, cursor: int)
    ensures var loc, e := Locate(text, cursor), Perform(text, cursor, RemoveOf);
      && (e.Some? <==> loc.Some? && ColumnCount(loc.value.table) > 1)
      && (e.Some? ==> loc.value.startOffset <= loc.value.endOffset <= |text| && RemoveOf(loc.value).Some?
                      && Lands(text, loc.value, e.value, RemoveOf(loc.value).value))
  {
    var loc := Locate(text, cursor);
    if loc.Some? {
      LocatedTable(text, cursor, loc.value);
      RemoveIsRemoval(loc.value.table, loc.value.row, loc.value.column);
    }
    PerformLands(text, cursor, RemoveOf);
  }

  // ------------------------------------------------------------ edits that undo edits

  lemma {:induction false} SeparatorLikeFilled(row: seq<string>, n: nat)
    requires |row| <= n
    ensures SeparatorLike(FilledRow(row, n)) <==> SeparatorLike(row)
  {
    var f := FilledRow(row, n);
    forall i | 0 <= i < n ensures i < |row| ==> f[i] == row[i] {
    }
    if SeparatorLike(row) {
      var i :| 0 <= i < |row| && '-' in row[i];
      assert '-' in f[i];
    }
    if SeparatorLike(f) {
      forall i, c | 0 <= i < |row| && c in row[i] ensures IsSeparatorChar(c) {
        assert c in f[i];
      }
    }
  }

  lemma {:induction false} ReadablePadded(t: Table, row: int)
    requires Clean(t) && -1 <= row < |t.rows|
    ensures Readable(Padded(t), row) <==> Readable(t, row)
  {
    SeparatorLikeFilled(t.header, ColumnCount(t));
    forall k | 0 <= k < |t.rows| ensures SeparatorLike(Padded(t).rows[k]) <==> SeparatorLike(t.rows[k]) {
      SeparatorLikeFilled(t.rows[k], ColumnCount(t));
    }
  }

  /** A second edit right after a first one sees the text around the table as it
      was before both. */
  lemma {:induction false} RewriteTwice(text: string, loc: Locator, t: Table, mid: string, loc2: Locator, u: Table)
    requires loc.startOffset <= loc.endOffset <= |text| && mid == Rewritten(text, loc, t)
    requires loc2.startOffset == loc.startOffset && loc2.endOffset == loc.startOffset + |Serialize(t)|
    ensures loc2.endOffset <= |mid| && Rewritten(mid, loc2, u) == Rewritten(text, loc, u)
  {
    var s := Serialize(t);
    assert mid[..loc2.startOffset] == text[..loc.startOffset];
    assert mid[loc2.endOffset..] == text[loc.endOffset..];
  }

  lemma {:induction false} PreviousOfPadded(t: Table, row: int, column: nat)
    requires Clean(t)
    ensures PreviousTarget(t, row, column).Some? ==>
              PreviousTarget(Padded(t), row, column) == Some(PreviousTarget(t, row, column).value.(table := Padded(t)))
  {
    PaddedShape(t);
  }

  /** The cell found after an edit: the target, or one in a row above it. */
  lemma {:induction false} LandedCell(text: string, loc: Locator, e: Edit, to: Target) returns (loc2: Locator)
    requires loc.startOffset <= loc.endOffset <= |text| && Lands(text, loc, e, to)
    ensures Located(e.text, e.cursor, loc2)
    ensures loc2.table == Padded(to.table) && loc2.column == to.column
    ensures ReadsRow(loc2.row, to.row, Readable(to.table, to.row))
    ensures loc2.startOffset == loc.startOffset && loc2.endOffset == loc.startOffset + |Serialize(to.table)|
  {
    loc2 := Locate(e.text, e.cursor).value;
  }

  /** Going back from a row further up does not reach the row that going back from
      here reaches. */
  lemma {:induction false} PreviousHigher(t: Table, row: int, column: nat, higher: int)
    requires higher < row && PreviousTarget(t, row, column).Some? && PreviousTarget(t, higher, column).Some?
    ensures PreviousTarget(t, higher, column).value.row < PreviousTarget(t, row, column).value.row
  {
  }

  /** Going back from where an edit landed keeps the text, and reaches the cell
      before the target exactly when the target could be read back. */
  lemma {:induction false} BackFrom(text: string, loc: Locator, e: Edit, to: Target, row: int, column: nat)
    requires loc.startOffset <= loc.endOffset <= |text| && Lands(text, loc, e, to) && Sound(to)
    requires -1 <= row <= to.row
    requires PreviousTarget(to.table, to.row, to.column) == Some(Target(to.table, row, column))
    ensures var back := Perform(e.text, e.cursor, PreviousOf);
      && (back.Some? ==> back.value.text == e.text)
      && (back.Some? && FoundAt(back.value, row, column) <==> Readable(to.table, to.row))
  {
    var loc2 := LandedCell(text, loc, e, to);
    PreviousOfPadded(to.table, to.row, to.column);
    assert PreviousTarget(loc2.table, to.row, to.column) == Some(Target(loc2.table, row, column));
    PreviousCellLands(e.text, e.cursor);
    var next, back := PreviousOf(loc2), Perform(e.text, e.cursor, PreviousOf);
    if back.Some? {
      assert Lands(e.text, loc2, back.value, next.value);
      SerializePadded(to.table);
      RewriteTwice(text, loc, to.table, e.text, loc2, loc2.table);
      BackLanded(e.text, loc2, back.value, next.value, to, row, column);
    } else {
      assert loc2.row < to.row;
    }
  }

  /** Where looking again after an edit finds the cursor. */
  ghost predicate FoundAt(e: Edit, row: int, column: nat) {
    var again := Locate(e.text, e.cursor);
    again.Some? && again.value.row == row && again.value.column == column
  }

  lemma {:induction false} BackLanded(text: string, loc2: Locator, back: Edit, next: Target, to: Target, row: int,
                                      column: nat)
    requires loc2.startOffset <= loc2.endOffset <= |text| && Lands(text, loc2, back, next)
    requires PreviousOf(loc2) == Some(next) && Clean(to.table) && -1 <= row <= to.row < |to.table.rows|
    requires loc2.table == Padded(to.table) && loc2.column == to.column
    requires ReadsRow(loc2.row, to.row, Readable(to.table, to.row))
    requires PreviousTarget(loc2.table, to.row, to.column) == Some(Target(loc2.table, row, column))
    ensures FoundAt(back, row, column) <==> Readable(to.table, to.row)
  {
    var loc3 := LandedCell(text, loc2, back, next);
    if Readable(to.table, to.row) {
      ReadablePadded(to.table, row);
    } else {
      PreviousHigher(loc2.table, to.row, to.column, loc2.row);
    }
  }

  /** Shift-Tab right after Tab never touches the text again. The cursor is back in
      the cell where Tab was pressed exactly when the row that Tab went to could be
      read back. */
  lemma {:induction false} PreviousUndoesNext(text: string, cursor: int, loc: Locator, e: Edit)
    requires Located(text, cursor, loc) && Perform(text, cursor, NextOf) == Some(e)
    ensures var to, back := NextTarget(loc.table, loc.row, loc.column), Perform(e.text, e.cursor, PreviousOf);
      && (back.Some? ==> back.value.text == e.text)
      && (back.Some? && FoundAt(back.value, loc.row, loc.column) <==> Readable(to.table, to.row))
  {
    NextCellLands(text, cursor);
    LocatedTable(text, cursor, loc);
    NextIsNext(loc.table, loc.row, loc.column);
    PreviousOfNext(loc.table, loc.row, loc.column);
    BackFrom(text, loc, e, NextOf(loc).value, loc.row, loc.column);
  }

  lemma {:induction false} DropInserted(row: seq<string>, n: nat, at: nat)
    requires |row| <= n && at <= n
    ensures DropAt(FilledRow(InsertAt(FilledWith(row, n, ""), at, ""), n + 1), at) == FilledRow(row, n)
  {
    InsertAtCells(row, n, at, "");
    var r := InsertAt(FilledWith(row, n, ""), at, "");
    assert FilledRow(r, n + 1) == r;
    forall i | 0 <= i < n ensures (r[..at] + r[at + 1..])[i] == CellAt(row, i) {
    }
  }

  lemma {:induction false} WidthInAdded(rows: seq<seq<string>>, n: nat, at: nat, i: nat)
    requires at <= n && i < n && forall k :: 0 <= k < |rows| ==> |rows[k]| <= n
    ensures WidthIn(InsertAll(rows, n, at), if i < at then i else i + 1) == WidthIn(rows, i)
  {
    if |rows| > 0 {
      WidthInAdded(rows[1..], n, at, i);
      assert InsertAll(rows, n, at)[1..] == InsertAll(rows[1..], n, at);
      InsertAtCells(rows[0], n, at, "");
    }
  }

  /** The alignment of a column, as it is or by default. */
  function RawAt(alignments: seq<string>, i: nat): string {
    if i < |alignments| then alignments[i] else "---"
  }

  lemma {:induction false} RawOfAdded(alignments: seq<string>, n: nat, at: nat, i: nat)
    requires at <= n && i < n
    ensures RawAt(InsertAt(FilledWith(alignments, n, "---"), at, "---"), if i < at then i else i + 1)
      == RawAt(alignments, i)
  {
    var f := FilledWith(alignments, n, "---");
    assert |f| >= n && f[i] == RawAt(alignments, i);
  }

  lemma {:induction false} WidthOfAdded(t: Table, at: nat, i: nat)
    requires Clean(t) && at <= ColumnCount(t) && i < ColumnCount(t)
    ensures Width(WithColumn(t, at), if i < at then i else i + 1) == Width(t, i)
  {
    var n := ColumnCount(t);
    var r := LongestRow(t);
    assert forall k :: 0 <= k < |t.rows| ==> t.rows[k] == RowOf(t, k);
    assert |RowOf(t, -1)| <= n;
    WidthInAdded(t.rows, n, at, i);
    InsertAtCells(t.header, n, at, "");
  }

  lemma {:induction false} RulerOfAdded(t: Table, at: nat, i: nat)
    requires Clean(t) && at <= ColumnCount(t) && i < ColumnCount(t)
    ensures SeparatorCell(WithColumn(t, at), if i < at then i else i + 1) == SeparatorCell(t, i)
  {
    WidthOfAdded(t, at, i);
    RawOfAdded(t.alignments, ColumnCount(t), at, i);
    var u, j := WithColumn(t, at), if i < at then i else i + 1;
    assert RawAt(u.alignments, j) == RawAt(t.alignments, i);
    assert SeparatorCell(u, j) == Ruler(RawAt(u.alignments, j), Width(u, j));
  }

  lemma {:induction false} AddedCount(t: Table, at: nat)
    requires Clean(t) && at <= ColumnCount(t)
    ensures ColumnCount(WithColumn(t, at)) == ColumnCount(t) + 1
    ensures forall k :: -1 <= k < |t.rows| ==> |RowOf(t, k)| <= ColumnCount(t)
  {
    AddedClean(t, at);
    var longest := LongestRow(t);
  }

  lemma {:induction false} DropAddedRows(rows: seq<seq<string>>, n: nat, at: nat)
    requires at <= n && forall k :: 0 <= k < |rows| ==> |rows[k]| <= n
    ensures DropAll(FilledRows(InsertAll(rows, n, at), n + 1), at) == FilledRows(rows, n)
  {
    var added := InsertAll(rows, n, at);
    forall k | 0 <= k < |rows| ensures DropAt(FilledRow(added[k], n + 1), at) == FilledRow(rows[k], n) {
      DropInserted(rows[k], n, at);
    }
  }

  lemma {:induction false} DropAddedRuler(t: Table, at: nat)
    requires Clean(t) && at <= ColumnCount(t) && ColumnCount(WithColumn(t, at)) == ColumnCount(t) + 1
    ensures DropAt(SeparatorCells(WithColumn(t, at)), at) == SeparatorCells(t)
  {
    var n, cells := ColumnCount(t), SeparatorCells(WithColumn(t, at));
    forall i | 0 <= i < n ensures cells[if i < at then i else i + 1] == SeparatorCell(t, i) {
      RulerOfAdded(t, at, i);
    }
    DropShifts(cells, SeparatorCells(t), at);
  }

  lemma {:induction false} DropShifts(cells: seq<string>, kept: seq<string>, at: nat)
    requires |cells| == |kept| + 1 && at < |cells|
    requires forall i :: 0 <= i < |kept| ==> cells[if i < at then i else i + 1] == kept[i]
    ensures DropAt(cells, at) == kept
  {
  }

  lemma {:induction false} WithoutPadded(u: Table, at: nat)
    ensures WithoutColumn(Padded(u), at)
      == Table(DropAt(FilledRow(u.header, ColumnCount(u)), at), DropAt(SeparatorCells(u), at),
               DropAll(FilledRows(u.rows, ColumnCount(u)), at))
  {
  }

  lemma {:induction false} WithoutAdded(t: Table, at: nat)
    requires Clean(t) && at <= ColumnCount(t)
    ensures WithoutColumn(Padded(WithColumn(t, at)), at) == Padded(t)
  {
    AddedCount(t, at);
    assert |RowOf(t, -1)| <= ColumnCount(t);
    forall k | 0 <= k < |t.rows| ensures |t.rows[k]| <= ColumnCount(t) {
      assert t.rows[k] == RowOf(t, k);
    }
    WithoutPadded(WithColumn(t, at), at);
    DropInserted(t.header, ColumnCount(t), at);
    DropAddedRows(t.rows, ColumnCount(t), at);
    DropAddedRuler(t, at);
  }

  /** Removing the column right after adding it leaves the table printed as it
      was, alignments included, and the rest of the text untouched. */
  lemma {:induction false} RemoveUndoesAdd(text: string, cursor: int, loc: Locator, e: Edit)
    requires Located(text, cursor, loc) && Perform(text, cursor, AddOf) == Some(e)
    ensures loc.startOffset <= loc.endOffset <= |text|
    ensures var back := Perform(e.text, e.cursor, RemoveOf);
      && back.Some? && back.value.text == Rewritten(text, loc, loc.table)
  {
    LocatedTable(text, cursor, loc);
    var to := AddTo(loc);
    RemoveUndoes(text, cursor, AddOf, loc, e, to);
  }

  lemma {:induction false} AddTo(loc: Locator) returns (to: Target)
    requires Clean(loc.table) && InTable(loc.table, loc.row, loc.column)
    ensures AddOf(loc) == Some(to) && Sound(to)
    ensures loc.column + 1 == to.column <= ColumnCount(loc.table) && to.table == WithColumn(loc.table, to.column)
  {
    to := Target(WithColumn(loc.table, loc.column + 1), loc.row, loc.column + 1);
    AddIsSound(loc.table, loc.row, loc.column);
  }

  lemma {:induction false} RemoveUndoes(text: string, cursor: int, target: Locator -> Option<Target>, loc: Locator,
                                        e: Edit, to: Target)
    requires Located(text, cursor, loc) && Perform(text, cursor, target) == Some(e)
    requires target(loc) == Some(to) && Sound(to) && Clean(loc.table)
    requires to.column <= ColumnCount(loc.table) && to.table == WithColumn(loc.table, to.column)
    ensures loc.startOffset <= loc.endOffset <= |text|
    ensures var back := Perform(e.text, e.cursor, RemoveOf);
      && back.Some? && back.value.text == Rewritten(text, loc, loc.table)
  {
    LandsOn(text, cursor, target, loc, to, e);
    RemoveFromAdded(text, loc, e, to);
  }

  lemma {:induction false} RemoveFromAdded(text: string, loc: Locator, e: Edit, to: Target)
    requires loc.startOffset <= loc.endOffset <= |text| && Lands(text, loc, e, to) && Sound(to)
    requires Clean(loc.table) && to.column <= ColumnCount(loc.table) && to.table == WithColumn(loc.table, to.column)
    ensures var back := Perform(e.text, e.cursor, RemoveOf);
      && back.Some? && back.value.text == Rewritten(text, loc, loc.table)
  {
    var t, u := loc.table, to.table;
    var loc2 := Locate(e.text, e.cursor).value;
    AddedClean(t, to.column);
    PaddedShape(u);
    RemoveColumnLands(e.text, e.cursor);
    WithoutAdded(t, to.column);
    SerializePadded(t);
    RewriteTwice(text, loc, u, e.text, loc2, Padded(t));
  }
}
