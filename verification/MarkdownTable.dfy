/** Pipe tables: parsing consecutive table lines, and printing a table in its
    normal, column-padded form. Escaped pipes are not known here. */
module MarkdownTable {
  import opened Text

  datatype Table = Table(header: seq<string>, alignments: seq<string>, rows: seq<seq<string>>)

  // ---------------------------------------------------------------- reading

  predicate IsTableLine(line: string) {
    var t := Trim(line, IsBlank);
    |t| > 1 && t[0] == '|'
  }

  predicate IsPipeOrSpace(c: char) {
    c == '|' || c == ' '
  }

  predicate IsSeparatorChar(c: char) {
    c == '-' || c == ':' || c == '|' || c == ' '
  }

  predicate IsSeparatorLine(line: string) {
    var inner := Trim(line, IsPipeOrSpace);
    '-' in inner && forall i :: 0 <= i < |inner| ==> IsSeparatorChar(inner[i])
  }

  function TrimAllCells(cells: seq<string>): (r: seq<string>)
    ensures |r| == |cells|
    ensures forall i :: 0 <= i < |r| ==> r[i] == Trim(cells[i], IsBlank)
  {
    seq(|cells|, i requires 0 <= i < |cells| => Trim(cells[i], IsBlank))
  }

  /** The line without its outer pipes. */
  function Inner(line: string): string {
    WithoutPipes(Trim(line, IsBlank))
  }

  function WithoutPipes(t: string): string {
    var u := if |t| > 0 && t[0] == '|' then t[1..] else t;
    if |u| > 0 && u[|u| - 1] == '|' then u[..|u| - 1] else u
  }

  function SplitRow(line: string): (cells: seq<string>)
    ensures |cells| >= 1
  {
    TrimAllCells(Split(Inner(line), '|'))
  }

  function SplitRows(lines: seq<string>): (rows: seq<seq<string>>)
    ensures |rows| == |lines|
    ensures forall i :: 0 <= i < |rows| ==> rows[i] == SplitRow(lines[i])
  {
    seq(|lines|, i requires 0 <= i < |lines| => SplitRow(lines[i]))
  }

  function TableLines(lines: seq<string>): seq<string> {
    if |lines| == 0 then []
    else if IsTableLine(lines[0]) then [lines[0]] + TableLines(lines[1..])
    else TableLines(lines[1..])
  }

  function Parse(lines: seq<string>): Option<Table> {
    var tableLines := TableLines(lines);
    if |tableLines| == 0 then None
    else
      var ruled := |tableLines| > 1 && IsSeparatorLine(tableLines[1]);
      var alignments := if ruled then SplitRow(tableLines[1]) else [];
      Some(Table(SplitRow(tableLines[0]), alignments, SplitRows(tableLines[if ruled then 2 else 1..])))
  }

  // --------------------------------------------------------------- printing

  function Max(a: nat, b: nat): nat {
    if a < b then b else a
  }

  function Widest(rows: seq<seq<string>>): (n: nat)
    ensures forall i :: 0 <= i < |rows| ==> |rows[i]| <= n
  {
    if |rows| == 0 then 0
    else
      var n := Max(|rows[0]|, Widest(rows[1..]));
      assert forall i :: 1 <= i < |rows| ==> rows[i] == rows[1..][i - 1];
      n
  }

  function ColumnCount(t: Table): nat {
    Max(|t.header|, Widest(t.rows))
  }

  function CellAt(row: seq<string>, i: nat): string {
    if i < |row| then row[i] else ""
  }

  function WidthIn(rows: seq<seq<string>>, i: nat): nat {
    if |rows| == 0 then 3 else Max(|CellAt(rows[0], i)|, WidthIn(rows[1..], i))
  }

  /** The width of column `i`: its longest cell, and at least three. */
  function Width(t: Table, i: nat): nat {
    Max(|CellAt(t.header, i)|, WidthIn(t.rows, i))
  }

  function Repeat(c: char, n: nat): (r: string)
    ensures |r| == n
    ensures forall i :: 0 <= i < n ==> r[i] == c
  {
    seq(n, _ => c)
  }

  function Pad(s: string, w: nat): string {
    s + Repeat(' ', if |s| < w then w - |s| else 0)
  }

  function JoinWith(cells: seq<string>, separator: string): string {
    if |cells| == 0 then ""
    else if |cells| == 1 then cells[0]
    else cells[0] + separator + JoinWith(cells[1..], separator)
  }

  function Framed(cells: seq<string>): string {
    "| " + JoinWith(cells, " | ") + " |"
  }

  function PaddedCells(t: Table, row: seq<string>): (cells: seq<string>)
    ensures |cells| == ColumnCount(t)
    ensures forall i :: 0 <= i < |cells| ==> cells[i] == Pad(CellAt(row, i), Width(t, i))
  {
    seq(ColumnCount(t), i requires 0 <= i < ColumnCount(t) => Pad(CellAt(row, i), Width(t, i)))
  }

  /** An alignment cell over the whole width that keeps the colons of `raw`. */
  function Ruler(raw: string, w: nat): string {
    var left := raw != "" && raw[0] == ':';
    var right := raw != "" && raw[|raw| - 1] == ':';
    var dashes := Max(3, w) - (if left then 1 else 0) - (if right then 1 else 0);
    (if left then ":" else "") + Repeat('-', dashes) + (if right then ":" else "")
  }

  function SeparatorCell(t: Table, i: nat): string {
    Ruler(if i < |t.alignments| then t.alignments[i] else "---", Width(t, i))
  }

  function SeparatorCells(t: Table): (cells: seq<string>)
    ensures |cells| == ColumnCount(t)
    ensures forall i :: 0 <= i < |cells| ==> cells[i] == SeparatorCell(t, i)
  {
    seq(ColumnCount(t), i requires 0 <= i < ColumnCount(t) => SeparatorCell(t, i))
  }

  function RowLine(t: Table, row: seq<string>): string {
    Framed(PaddedCells(t, row))
  }

  function RowLines(t: Table, rows: seq<seq<string>>): (lines: seq<string>)
    ensures |lines| == |rows|
    ensures forall i :: 0 <= i < |lines| ==> lines[i] == RowLine(t, rows[i])
  {
    seq(|rows|, i requires 0 <= i < |rows| => RowLine(t, rows[i]))
  }

  /** The lines of the printed table: header, separator, rows. */
  function PrintedLines(t: Table): seq<string> {
    [RowLine(t, t.header), Framed(SeparatorCells(t))] + RowLines(t, t.rows)
  }

  function Serialize(t: Table): string {
    Join(PrintedLines(t), '\n')
  }

  // ----------------------------------------------------------- clean tables

  /** What a cell of a parsed table is: trimmed and free of pipes and newlines. */
  ghost predicate CleanCell(cell: string) {
    '|' !in cell && '\n' !in cell && Trimmed(cell, IsBlank)
  }

  ghost predicate CleanRow(row: seq<string>) {
    forall i :: 0 <= i < |row| ==> CleanCell(row[i])
  }

  ghost predicate Clean(t: Table) {
    && ColumnCount(t) >= 1
    && CleanRow(t.header)
    && forall i :: 0 <= i < |t.rows| ==> CleanRow(t.rows[i])
  }

  lemma {:induction false} TrimNotIn(s: string, p: char -> bool, c: char)
    requires c !in s
    ensures c !in Trim(s, p)
  {
    var a, b := TrimParts(s, p);
  }

  lemma {:induction false} SplitNotIn(s: string, sep: char, c: char)
    requires c !in s
    ensures forall i :: 0 <= i < |Split(s, sep)| ==> c !in Split(s, sep)[i]
  {
    if |s| > 0 {
      assert forall i :: 0 <= i < |s| - 1 ==> s[1..][i] == s[i + 1];
      SplitNotIn(s[1..], sep, c);
    }
  }

  lemma {:induction false} SplitRowClean(line: string)
    requires '\n' !in line
    ensures CleanRow(SplitRow(line))
  {
    TrimNotIn(line, IsBlank, '\n');
    var pieces := Split(Inner(line), '|');
    SplitNotIn(Inner(line), '|', '\n');
    SplitPieces(Inner(line), '|');
    forall i | 0 <= i < |pieces| ensures CleanCell(Trim(pieces[i], IsBlank)) {
      TrimNotIn(pieces[i], IsBlank, '\n');
      TrimNotIn(pieces[i], IsBlank, '|');
      var a, b := TrimParts(pieces[i], IsBlank);
    }
  }

  lemma {:induction false} TableLinesMembers(lines: seq<string>)
    ensures forall x :: x in TableLines(lines) ==> x in lines && IsTableLine(x)
  {
    if |lines| > 0 {
      TableLinesMembers(lines[1..]);
    }
  }

  /** Whatever lines it is given, the parser returns a clean table. */
  lemma {:induction false} ParsedIsClean(lines: seq<string>)
    requires forall i :: 0 <= i < |lines| ==> '\n' !in lines[i]
    ensures Parse(lines).Some? ==> Clean(Parse(lines).value)
  {
    var tableLines := TableLines(lines);
    TableLinesMembers(lines);
    forall i | 0 <= i < |tableLines| ensures CleanRow(SplitRow(tableLines[i])) {
      assert tableLines[i] in tableLines;
      SplitRowClean(tableLines[i]);
    }
  }

  // ------------------------------------------------- reading what was printed

  function Spaced(cells: seq<string>): (r: seq<string>)
    ensures |r| == |cells|
    ensures forall i :: 0 <= i < |r| ==> r[i] == " " + cells[i] + " "
  {
    seq(|cells|, i requires 0 <= i < |cells| => " " + cells[i] + " ")
  }

  lemma {:induction false} JoinSpaced(cells: seq<string>)
    requires |cells| >= 1
    ensures " " + JoinWith(cells, " | ") + " " == Join(Spaced(cells), '|')
  {
    if |cells| > 1 {
      JoinSpaced(cells[1..]);
      assert Spaced(cells)[1..] == Spaced(cells[1..]);
      var rest := JoinWith(cells[1..], " | ");
      assert " " + (cells[0] + " | " + rest) + " " == (" " + cells[0] + " ") + ['|'] + (" " + rest + " ");
    }
  }

  lemma {:induction false} FramedIsJoined(cells: seq<string>)
    requires |cells| >= 1
    ensures Framed(cells) == "|" + Join(Spaced(cells), '|') + "|"
  {
    JoinSpaced(cells);
    var j := JoinWith(cells, " | ");
    assert "| " + j + " |" == "|" + (" " + j + " ") + "|";
  }

  lemma {:induction false} BetweenPipes(line: string, inner: string)
    requires line == "|" + inner + "|"
    ensures Trim(line, IsBlank) == line && IsTableLine(line) && Inner(line) == inner
  {
    assert line[0] == '|' && line[|line| - 1] == '|';
    TrimOfTrimmed(line, IsBlank);
    assert line[1..] == inner + "|";
    assert line[1..][..|line[1..]| - 1] == inner;
  }

  lemma {:induction false} FramedTrim(cells: seq<string>)
    requires |cells| >= 1
    ensures Trim(Framed(cells), IsBlank) == Framed(cells)
    ensures IsTableLine(Framed(cells))
    ensures Inner(Framed(cells)) == Join(Spaced(cells), '|')
  {
    FramedIsJoined(cells);
    BetweenPipes(Framed(cells), Join(Spaced(cells), '|'));
  }

  lemma {:induction false} FramedSplits(cells: seq<string>)
    requires |cells| >= 1 && forall i :: 0 <= i < |cells| ==> '|' !in cells[i]
    ensures SplitRow(Framed(cells)) == TrimAllCells(cells)
  {
    FramedTrim(cells);
    SplitJoin(Spaced(cells), '|');
    forall i | 0 <= i < |cells| ensures Trim(Spaced(cells)[i], IsBlank) == Trim(cells[i], IsBlank) {
      TrimSpaced(cells[i]);
    }
  }

  lemma {:induction false} OnlyConcat(a: string, b: string, p: char -> bool)
    requires Only(a, p) && Only(b, p)
    ensures Only(a + b, p)
  {
  }

  lemma {:induction false} SpacedParts(a: string, core: string, b: string)
    ensures " " + (a + core + b) + " " == (" " + a) + core + (b + " ")
  {
  }

  lemma {:induction false} TrimSpaced(s: string)
    ensures Trim(" " + s + " ", IsBlank) == Trim(s, IsBlank)
  {
    var a, b := TrimParts(s, IsBlank);
    var core := Trim(s, IsBlank);
    OnlyConcat(" ", a, IsBlank);
    OnlyConcat(b, " ", IsBlank);
    SpacedParts(a, core, b);
    if |core| == 0 {
      OnlyConcat(" " + a, b + " ", IsBlank);
      assert (" " + a) + core + (b + " ") == (" " + a) + (b + " ");
      TrimAll(" " + s + " ", IsBlank);
    } else {
      TrimCore(" " + a, core, b + " ", IsBlank);
    }
  }

  lemma {:induction false} TrimPad(s: string, w: nat)
    requires Trimmed(s, IsBlank)
    ensures Trim(Pad(s, w), IsBlank) == s
  {
    var b := Repeat(' ', if |s| < w then w - |s| else 0);
    if |s| == 0 {
      TrimAll(Pad(s, w), IsBlank);
    } else {
      assert Pad(s, w) == "" + s + b;
      TrimCore("", s, b, IsBlank);
    }
  }

  /** A row filled up with empty cells. */
  function FilledRow(row: seq<string>, n: nat): (r: seq<string>)
    ensures |r| == n
    ensures forall i :: 0 <= i < n ==> r[i] == CellAt(row, i)
  {
    seq(n, i requires 0 <= i < n => CellAt(row, i))
  }

  function FilledRows(rows: seq<seq<string>>, n: nat): (r: seq<seq<string>>)
    ensures |r| == |rows|
    ensures forall i :: 0 <= i < |r| ==> r[i] == FilledRow(rows[i], n)
  {
    seq(|rows|, i requires 0 <= i < |rows| => FilledRow(rows[i], n))
  }

  /** The normal form of a table: rectangular, with full-width alignments. */
  function Padded(t: Table): Table {
    Table(FilledRow(t.header, ColumnCount(t)), SeparatorCells(t), FilledRows(t.rows, ColumnCount(t)))
  }

  lemma {:induction false} RowLineSplits(t: Table, row: seq<string>)
    requires ColumnCount(t) >= 1 && CleanRow(row)
    ensures SplitRow(RowLine(t, row)) == FilledRow(row, ColumnCount(t))
    ensures IsTableLine(RowLine(t, row))
  {
    var cells := PaddedCells(t, row);
    FramedTrim(cells);
    forall i | 0 <= i < |cells| ensures '|' !in cells[i] && Trim(cells[i], IsBlank) == CellAt(row, i) {
      TrimPad(CellAt(row, i), Width(t, i));
    }
    FramedSplits(cells);
  }

  lemma {:induction false} SeparatorLineSplits(t: Table)
    requires ColumnCount(t) >= 1
    ensures SplitRow(Framed(SeparatorCells(t))) == SeparatorCells(t)
    ensures IsTableLine(Framed(SeparatorCells(t)))
  {
    var cells := SeparatorCells(t);
    FramedTrim(cells);
    forall i | 0 <= i < |cells| ensures '|' !in cells[i] && Trim(cells[i], IsBlank) == cells[i] {
      WidthAtLeast(t, i);
      RulerShape(if i < |t.alignments| then t.alignments[i] else "---", Width(t, i));
      TrimOfTrimmed(cells[i], IsBlank);
    }
    FramedSplits(cells);
  }

  // ---------------------------------------------------------- separator lines

  /** A line is a separator when it has a dash and nothing but separator
      characters: the trimmed pipes and spaces do not matter. */
  lemma {:induction false} SeparatorByChars(line: string)
    ensures IsSeparatorLine(line) <==> '-' in line && forall c :: c in line ==> IsSeparatorChar(c)
    ensures IsSeparatorLine(line) <==> '-' in line && forall c :: c in line ==> c in "-:| "
  {
    assert forall c :: IsSeparatorChar(c) <==> c in "-:| ";
    var a, b := TrimParts(line, IsPipeOrSpace);
    var inner := Trim(line, IsPipeOrSpace);
    SeparatorCore(a, inner, b);
    assert (forall i :: 0 <= i < |inner| ==> IsSeparatorChar(inner[i]))
      <==> forall c :: c in inner ==> IsSeparatorChar(c);
  }

  lemma {:induction false} SeparatorCore(a: string, inner: string, b: string)
    requires Only(a, IsPipeOrSpace) && Only(b, IsPipeOrSpace)
    ensures '-' in inner <==> '-' in a + inner + b
    ensures (forall c :: c in inner ==> IsSeparatorChar(c)) <==> forall c :: c in a + inner + b ==> IsSeparatorChar(c)
  {
    forall c ensures c in a + inner + b <==> c in a || c in inner || c in b {
    }
    forall c | c in a || c in b ensures IsPipeOrSpace(c) && IsSeparatorChar(c) {
    }
  }

  lemma {:induction false} CharsOfJoin(parts: seq<string>, sep: char, c: char)
    ensures c in Join(parts, sep) <==> (|parts| > 1 && c == sep) || exists i :: 0 <= i < |parts| && c in parts[i]
  {
    if |parts| > 1 {
      CharsOfJoin(parts[1..], sep, c);
      assert forall i :: 1 <= i < |parts| ==> parts[i] == parts[1..][i - 1];
      assert Join(parts, sep) == parts[0] + [sep] + Join(parts[1..], sep);
      if exists i :: 0 <= i < |parts[1..]| && c in parts[1..][i] {
        var i :| 0 <= i < |parts[1..]| && c in parts[1..][i];
        assert c in parts[i + 1];
      }
    }
  }

  lemma {:induction false} CharsOfFramed(cells: seq<string>, c: char)
    requires |cells| >= 1
    ensures c in Framed(cells) <==> c == '|' || c == ' ' || exists i :: 0 <= i < |cells| && c in cells[i]
  {
    FramedIsJoined(cells);
    CharsOfJoin(Spaced(cells), '|', c);
    assert forall i :: 0 <= i < |cells| ==> (c in Spaced(cells)[i] <==> c == ' ' || c in cells[i]);
    assert ' ' in Spaced(cells)[0];
  }

  /** Whether the cells of a row, printed, would read as a separator line. */
  ghost predicate SeparatorLike(row: seq<string>) {
    && (forall i, c :: 0 <= i < |row| && c in row[i] ==> IsSeparatorChar(c))
    && exists i :: 0 <= i < |row| && '-' in row[i]
  }

  lemma {:induction false} CharsOfRow(t: Table, row: seq<string>, c: char)
    requires ColumnCount(t) >= 1 && |row| <= ColumnCount(t)
    ensures c in RowLine(t, row) <==> c == '|' || c == ' ' || exists i :: 0 <= i < |row| && c in row[i]
  {
    var cells := PaddedCells(t, row);
    CharsOfFramed(cells, c);
    if c != ' ' {
      forall i | 0 <= i < |cells| ensures c in cells[i] <==> i < |row| && c in row[i] {
        assert forall d :: d in Pad(CellAt(row, i), Width(t, i)) ==> d == ' ' || d in CellAt(row, i);
        assert forall d :: d in CellAt(row, i) ==> d in Pad(CellAt(row, i), Width(t, i));
      }
    }
  }

  lemma {:induction false} RowSeparatorIff(t: Table, row: seq<string>)
    requires ColumnCount(t) >= 1 && |row| <= ColumnCount(t)
    ensures IsSeparatorLine(RowLine(t, row)) <==> SeparatorLike(row)
  {
    var line := RowLine(t, row);
    SeparatorByChars(line);
    forall c ensures c in line <==> c == '|' || c == ' ' || exists i :: 0 <= i < |row| && c in row[i] {
      CharsOfRow(t, row, c);
    }
  }

  lemma {:induction false} RulerShape(raw: string, w: nat)
    requires w >= 3
    ensures var r := Ruler(raw, w);
      && |r| == w && '-' in r && Trimmed(r, IsBlank)
      && (forall c :: c in r ==> c == '-' || c == ':')
      && Ruler(r, w) == r
  {
    var left := raw != "" && raw[0] == ':';
    var right := raw != "" && raw[|raw| - 1] == ':';
    var n := w - (if left then 1 else 0) - (if right then 1 else 0);
    var r := Ruler(raw, w);
    assert r[if left then 1 else 0] == '-';
    assert (r[0] == ':' <==> left) && (r[|r| - 1] == ':' <==> right);
  }

  lemma {:induction false} WidthAtLeast(t: Table, i: nat)
    ensures Width(t, i) >= 3 && Width(t, i) >= |CellAt(t.header, i)|
    ensures forall k :: 0 <= k < |t.rows| ==> Width(t, i) >= |CellAt(t.rows[k], i)|
  {
    WidthInAtLeast(t.rows, i);
  }

  lemma {:induction false} WidthInAtLeast(rows: seq<seq<string>>, i: nat)
    ensures WidthIn(rows, i) >= 3
    ensures forall k :: 0 <= k < |rows| ==> WidthIn(rows, i) >= |CellAt(rows[k], i)|
  {
    if |rows| > 0 {
      WidthInAtLeast(rows[1..], i);
      assert forall k :: 1 <= k < |rows| ==> rows[k] == rows[1..][k - 1];
    }
  }

  lemma {:induction false} SeparatorLineIsOne(t: Table)
    requires ColumnCount(t) >= 1
    ensures IsSeparatorLine(Framed(SeparatorCells(t)))
  {
    var cells := SeparatorCells(t);
    var line := Framed(cells);
    forall i | 0 <= i < |cells| ensures '-' in cells[i] && forall c :: c in cells[i] ==> c == '-' || c == ':' {
      WidthAtLeast(t, i);
      RulerShape(if i < |t.alignments| then t.alignments[i] else "---", Width(t, i));
    }
    assert '-' in cells[0];
    CharsOfFramed(cells, '-');
    forall c | c in line ensures IsSeparatorChar(c) {
      CharsOfFramed(cells, c);
    }
    SeparatorByChars(line);
  }

  // ------------------------------------------------------------ round trips

  lemma {:induction false} AllTableLines(lines: seq<string>)
    requires forall i :: 0 <= i < |lines| ==> IsTableLine(lines[i])
    ensures TableLines(lines) == lines
  {
    if |lines| > 0 {
      AllTableLines(lines[1..]);
    }
  }

  lemma {:induction false} ParseRuled(lines: seq<string>)
    requires |lines| >= 2 && IsSeparatorLine(lines[1])
    requires forall i :: 0 <= i < |lines| ==> IsTableLine(lines[i])
    ensures Parse(lines) == Some(Table(SplitRow(lines[0]), SplitRow(lines[1]), SplitRows(lines[2..])))
  {
    AllTableLines(lines);
  }

  lemma {:induction false} PrintedIsTableLine(t: Table, lines: seq<string>, i: nat)
    requires Clean(t) && lines == PrintedLines(t) && i < |lines|
    ensures IsTableLine(lines[i])
  {
    if i == 0 {
      RowLineSplits(t, t.header);
    } else if i == 1 {
      SeparatorLineSplits(t);
    } else {
      RowLineSplits(t, t.rows[i - 2]);
    }
  }

  lemma {:induction false} PrintedAreTableLines(t: Table)
    requires Clean(t)
    ensures forall i :: 0 <= i < |PrintedLines(t)| ==> IsTableLine(PrintedLines(t)[i])
  {
    var lines := PrintedLines(t);
    forall i | 0 <= i < |lines| ensures IsTableLine(lines[i]) {
      PrintedIsTableLine(t, lines, i);
    }
  }

  /** Parsing the printed lines returns the table in its normal form. */
  lemma {:induction false} ParsePrinted(t: Table)
    requires Clean(t)
    ensures Parse(PrintedLines(t)) == Some(Padded(t))
  {
    var lines := PrintedLines(t);
    PrintedAreTableLines(t);
    SeparatorLineIsOne(t);
    ParseRuled(lines);
    RowLineSplits(t, t.header);
    SeparatorLineSplits(t);
    assert lines[2..] == RowLines(t, t.rows);
    forall i | 0 <= i < |t.rows| ensures SplitRow(RowLine(t, t.rows[i])) == FilledRow(t.rows[i], ColumnCount(t)) {
      RowLineSplits(t, t.rows[i]);
    }
    assert SplitRows(lines[2..]) == FilledRows(t.rows, ColumnCount(t));
  }

  lemma {:induction false} NoNewlineInRow(t: Table, row: seq<string>)
    requires Clean(t) && CleanRow(row) && |row| <= ColumnCount(t)
    ensures '\n' !in RowLine(t, row)
  {
    CharsOfRow(t, row, '\n');
  }

  lemma {:induction false} PrintedHasNoNewline(t: Table)
    requires Clean(t)
    ensures forall i :: 0 <= i < |PrintedLines(t)| ==> '\n' !in PrintedLines(t)[i]
  {
    NoNewlineInRow(t, t.header);
    SeparatorLineIsOne(t);
    SeparatorByChars(Framed(SeparatorCells(t)));
    forall i | 0 <= i < |t.rows| ensures '\n' !in RowLine(t, t.rows[i]) {
      NoNewlineInRow(t, t.rows[i]);
    }
  }

  /** Printing and parsing undo each other, up to the normal form. */
  lemma {:induction false} ParseSerialize(t: Table)
    requires Clean(t)
    ensures Split(Serialize(t), '\n') == PrintedLines(t)
    ensures Parse(Split(Serialize(t), '\n')) == Some(Padded(t))
  {
    PrintedHasNoNewline(t);
    SplitJoin(PrintedLines(t), '\n');
    ParsePrinted(t);
  }

  lemma {:induction false} WidthInFilled(rows: seq<seq<string>>, n: nat, i: nat)
    requires i < n
    ensures WidthIn(FilledRows(rows, n), i) == WidthIn(rows, i)
  {
    if |rows| > 0 {
      WidthInFilled(rows[1..], n, i);
      assert FilledRows(rows, n)[1..] == FilledRows(rows[1..], n);
    }
  }

  lemma {:induction false} WidestFilled(rows: seq<seq<string>>, n: nat)
    ensures Widest(FilledRows(rows, n)) <= n
  {
    if |rows| > 0 {
      WidestFilled(rows[1..], n);
      assert FilledRows(rows, n)[1..] == FilledRows(rows[1..], n);
    }
  }

  lemma {:induction false} PaddedShape(t: Table)
    requires Clean(t)
    ensures Clean(Padded(t)) && ColumnCount(Padded(t)) == ColumnCount(t)
    ensures forall i :: 0 <= i < ColumnCount(t) ==> Width(Padded(t), i) == Width(t, i)
  {
    var p, n := Padded(t), ColumnCount(t);
    WidestFilled(t.rows, n);
    forall i | 0 <= i < n ensures Width(p, i) == Width(t, i) {
      WidthInFilled(t.rows, n, i);
    }
  }

  lemma {:induction false} PaddedRowLine(t: Table, row: seq<string>)
    requires Clean(t)
    ensures RowLine(Padded(t), FilledRow(row, ColumnCount(t))) == RowLine(t, row)
  {
    PaddedShape(t);
    assert PaddedCells(Padded(t), FilledRow(row, ColumnCount(t))) == PaddedCells(t, row);
  }

  /** The normal form prints as the table itself. */
  lemma {:induction false} SerializePadded(t: Table)
    requires Clean(t)
    ensures PrintedLines(Padded(t)) == PrintedLines(t)
    ensures Serialize(Padded(t)) == Serialize(t)
  {
    var p := Padded(t);
    PaddedShape(t);
    PaddedRowLine(t, t.header);
    forall i | 0 <= i < |t.rows| ensures RowLine(p, p.rows[i]) == RowLine(t, t.rows[i]) {
      PaddedRowLine(t, t.rows[i]);
    }
    assert RowLines(p, p.rows) == RowLines(t, t.rows);
    forall i | 0 <= i < ColumnCount(t) ensures SeparatorCell(p, i) == SeparatorCell(t, i) {
      WidthAtLeast(t, i);
      RulerShape(if i < |t.alignments| then t.alignments[i] else "---", Width(t, i));
    }
    assert SeparatorCells(p) == SeparatorCells(t);
  }

  /** Printing a parsed block of table lines is idempotent. */
  lemma {:induction false} SerializeIdempotent(lines: seq<string>)
    requires forall i :: 0 <= i < |lines| ==> '\n' !in lines[i]
    requires Parse(lines).Some?
    ensures var printed := Serialize(Parse(lines).value);
      && Parse(Split(printed, '\n')).Some?
      && Serialize(Parse(Split(printed, '\n')).value) == printed
  {
    ParsedIsClean(lines);
    ParseSerialize(Parse(lines).value);
    SerializePadded(Parse(lines).value);
  }

  // --------------------------------------------------------------- alignment

  function CountPipes(s: string): (n: nat) {
    if |s| == 0 then 0 else CountPipes(s[1..]) + if s[0] == '|' then 1 else 0
  }

  lemma {:induction false} CountPipesConcat(a: string, b: string)
    ensures CountPipes(a + b) == CountPipes(a) + CountPipes(b)
  {
    if |a| == 0 {
      assert a + b == b;
    } else {
      assert (a + b)[1..] == a[1..] + b;
      CountPipesConcat(a[1..], b);
    }
  }

  lemma {:induction false} NoPipes(s: string)
    requires '|' !in s
    ensures CountPipes(s) == 0
  {
    if |s| > 0 {
      assert forall i :: 0 <= i < |s| - 1 ==> s[1..][i] == s[i + 1];
      NoPipes(s[1..]);
    }
  }

  /** Total length of the cells with their frame. */
  function FrameLength(widths: seq<nat>): nat {
    if |widths| == 0 then 1 else widths[0] + 3 + FrameLength(widths[1..])
  }

  function Lengths(cells: seq<string>): (r: seq<nat>)
    ensures |r| == |cells| && forall i :: 0 <= i < |r| ==> r[i] == |cells[i]|
  {
    seq(|cells|, i requires 0 <= i < |cells| => |cells[i]|)
  }

  lemma {:induction false} JoinedLength(cells: seq<string>)
    requires |cells| >= 1 && forall i :: 0 <= i < |cells| ==> '|' !in cells[i]
    ensures |Join(Spaced(cells), '|')| == FrameLength(Lengths(cells)) - 2
    ensures CountPipes(Join(Spaced(cells), '|')) == |cells| - 1
  {
    assert Lengths(cells)[1..] == Lengths(cells[1..]);
    NoPipes(" " + cells[0] + " ");
    if |cells| > 1 {
      JoinedLength(cells[1..]);
      assert Spaced(cells)[1..] == Spaced(cells[1..]);
      var head, rest := " " + cells[0] + " ", Join(Spaced(cells[1..]), '|');
      CountPipesConcat(head, "|" + rest);
      assert head + "|" + rest == head + ("|" + rest);
      assert ("|" + rest)[1..] == rest;
    }
  }

  lemma {:induction false} FramedShape(cells: seq<string>)
    requires |cells| >= 1 && forall i :: 0 <= i < |cells| ==> '|' !in cells[i]
    ensures |Framed(cells)| == FrameLength(Lengths(cells))
    ensures CountPipes(Framed(cells)) == |cells| + 1
  {
    FramedIsJoined(cells);
    JoinedLength(cells);
    var inner := Join(Spaced(cells), '|');
    CountPipesConcat("|" + inner, "|");
    CountPipesConcat("|", inner);
    assert CountPipes("|") == 1 by {
      assert "|"[1..] == "";
    }
  }

  /** Every printed line, the separator included, has the same length and one
      pipe more than there are columns: the table is rectangular. */
  lemma {:induction false} PrintedIsRectangular(t: Table)
    requires Clean(t)
    ensures forall i :: 0 <= i < |PrintedLines(t)| ==>
      && |PrintedLines(t)[i]| == |PrintedLines(t)[0]|
      && CountPipes(PrintedLines(t)[i]) == ColumnCount(t) + 1
  {
    var widths := Lengths(PaddedCells(t, t.header));
    forall i | 0 <= i < ColumnCount(t)
      ensures widths[i] == Width(t, i) == |SeparatorCell(t, i)| && '|' !in SeparatorCell(t, i)
    {
      WidthAtLeast(t, i);
      RulerShape(if i < |t.alignments| then t.alignments[i] else "---", Width(t, i));
    }
    RowShape(t, t.header, widths);
    assert Lengths(SeparatorCells(t)) == widths;
    FramedShape(SeparatorCells(t));
    forall k | 0 <= k < |t.rows|
      ensures |RowLine(t, t.rows[k])| == FrameLength(widths) && CountPipes(RowLine(t, t.rows[k])) == ColumnCount(t) + 1
    {
      forall i | 0 <= i < ColumnCount(t) ensures |CellAt(t.rows[k], i)| <= Width(t, i) {
        WidthAtLeast(t, i);
      }
      RowShape(t, t.rows[k], widths);
    }
  }

  lemma {:induction false} RowShape(t: Table, row: seq<string>, widths: seq<nat>)
    requires Clean(t) && CleanRow(row) && |widths| == ColumnCount(t)
    requires forall i :: 0 <= i < |widths| ==> widths[i] == Width(t, i) && |CellAt(row, i)| <= widths[i]
    ensures |RowLine(t, row)| == FrameLength(widths)
    ensures CountPipes(RowLine(t, row)) == ColumnCount(t) + 1
  {
    var cells := PaddedCells(t, row);
    assert Lengths(cells) == widths;
    forall i | 0 <= i < |cells| ensures '|' !in cells[i] {
      assert CellAt(row, i) == "" || CleanCell(CellAt(row, i));
    }
    FramedShape(cells);
  }

  // --------------------------------------------------------- the printing loops

  lemma {:induction false} WidthInSnoc(rows: seq<seq<string>>, k: nat, i: nat)
    requires k < |rows|
    ensures WidthIn(rows[..k + 1], i) == Max(WidthIn(rows[..k], i), |CellAt(rows[k], i)|)
  {
    if k == 0 {
      assert rows[..1][1..] == [] && rows[..0] == [];
    } else {
      WidthInSnoc(rows[1..], k - 1, i);
      assert rows[..k + 1][1..] == rows[1..][..k] && rows[..k][1..] == rows[1..][..k - 1];
    }
  }

  /** The nested `measure`: widths grow to the cells of one row. */
  method Measure(before: seq<nat>, row: seq<string>) returns (widths: seq<nat>)
    ensures |widths| == |before|
    ensures forall i :: 0 <= i < |widths| ==> widths[i] == Max(before[i], |CellAt(row, i)|)
  {
    widths := before;
    for i := 0 to |row|
      invariant |widths| == |before|
      invariant forall j :: 0 <= j < |widths| ==> widths[j] == if j < i then Max(before[j], |row[j]|) else before[j]
    {
      if i < |widths| {
        widths := widths[i := Max(widths[i], |row[i]|)];
      }
    }
  }

  method Line(t: Table, row: seq<string>, widths: seq<nat>) returns (line: string)
    requires |widths| == ColumnCount(t) && forall i :: 0 <= i < |widths| ==> widths[i] == Width(t, i)
    ensures line == RowLine(t, row)
  {
    var cells := [];
    for i := 0 to |widths|
      invariant |cells| == i
      invariant forall j :: 0 <= j < i ==> cells[j] == Pad(CellAt(row, j), widths[j])
    {
      cells := cells + [Pad(if i < |row| then row[i] else "", widths[i])];
    }
    assert cells == PaddedCells(t, row);
    line := "| " + JoinWith(cells, " | ") + " |";
  }

  method Widths(t: Table) returns (widths: seq<nat>)
    ensures |widths| == ColumnCount(t) && forall i :: 0 <= i < |widths| ==> widths[i] == Width(t, i)
  {
    widths := seq(ColumnCount(t), _ => 3);
    widths := Measure(widths, t.header);
    for k := 0 to |t.rows|
      invariant |widths| == ColumnCount(t)
      invariant forall i :: 0 <= i < |widths| ==> widths[i] == Max(|CellAt(t.header, i)|, WidthIn(t.rows[..k], i))
    {
      widths := Measure(widths, t.rows[k]);
      forall i | 0 <= i < |widths| ensures widths[i] == Max(|CellAt(t.header, i)|, WidthIn(t.rows[..k + 1], i)) {
        WidthInSnoc(t.rows, k, i);
      }
    }
    assert t.rows[..|t.rows|] == t.rows;
  }

  method Rulers(t: Table, widths: seq<nat>) returns (cells: seq<string>)
    requires |widths| == ColumnCount(t) && forall i :: 0 <= i < |widths| ==> widths[i] == Width(t, i)
    ensures cells == SeparatorCells(t)
  {
    cells := [];
    for i := 0 to |widths|
      invariant |cells| == i
      invariant forall j :: 0 <= j < i ==> cells[j] == SeparatorCell(t, j)
    {
      cells := cells + [Ruler(if i < |t.alignments| then t.alignments[i] else "---", widths[i])];
    }
  }

  method Lines(t: Table, rows: seq<seq<string>>, widths: seq<nat>, top: seq<string>) returns (out: seq<string>)
    requires |widths| == ColumnCount(t) && forall i :: 0 <= i < |widths| ==> widths[i] == Width(t, i)
    ensures out == top + RowLines(t, rows)
  {
    out := top;
    for k := 0 to |rows|
      invariant out == top + RowLines(t, rows[..k])
    {
      var line := Line(t, rows[k], widths);
      assert RowLines(t, rows[..k + 1]) == RowLines(t, rows[..k]) + [line];
      out := out + [line];
    }
    assert rows[..|rows|] == rows;
  }

  /** `serialize` with its running widths and output lines. */
  method Print(t: Table) returns (text: string)
    ensures text == Serialize(t)
  {
    var widths := Widths(t);
    var header := Line(t, t.header, widths);
    var cells := Rulers(t, widths);
    var out := Lines(t, t.rows, widths, [header, "| " + JoinWith(cells, " | ") + " |"]);
    text := Join(out, '\n');
  }
}
