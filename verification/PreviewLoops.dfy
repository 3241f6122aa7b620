/** The block parser as it runs: one index over the lines, and a collecting loop for
    each kind of block that takes several of them. */
module PreviewLoops {
  import opened Text
  import opened PreviewBlocks
  import MarkdownTable

  /** A run read from a later line of the text. */
  lemma {:induction false} RunEndTail(lines: seq<string>, p: string -> bool, i: nat, k: nat)
    requires i + k <= |lines|
    ensures RunEnd(lines[i..], p, k) + i == RunEnd(lines, p, i + k)
    decreases |lines| - i - k
  {
    if i + k < |lines| && p(lines[i + k]) {
      RunEndTail(lines, p, i, k + 1);
    }
  }

  /** The shape of the collecting loops: lines are taken, and changed by `f`, as
      long as `p` accepts them. */
  method Collect(lines: seq<string>, start: nat, p: string -> bool, f: string -> string)
    returns (texts: seq<string>, i: nat)
    requires start <= |lines|
    ensures start <= i <= |lines| && i == RunEnd(lines, p, start)
    ensures texts == Mapped(lines[start..i], f)
  {
    texts := [];
    i := start;
    while i < |lines| && p(lines[i])
      invariant start <= i <= |lines| && texts == Mapped(lines[start..i], f)
      invariant RunEnd(lines, p, start) == RunEnd(lines, p, i)
    {
      texts := texts + [f(lines[i])];
      i := i + 1;
    }
  }

  function Same(line: string): string {
    line
  }

  lemma {:induction false} MappedSame(lines: seq<string>)
    ensures Mapped(lines, Same) == lines
  {
  }

  /** The block that a kind makes of the lines from `i` on, and the line behind it;
      that may be one past the end, after a fence that is never closed. */
  ghost predicate Reads(letters: Letters, kind: Kind, lines: seq<string>, i: nat, block: Block, next: nat)
    requires i < |lines|
  {
    var n := Used(letters, kind, lines[i..]);
    && next <= |lines| + 1 && (if next < |lines| then next else |lines|) == i + n
    && n > 0 && block == Build(letters, kind, lines[i..][..n])
  }

  lemma {:induction false} SliceOfTail<T>(s: seq<T>, i: nat, n: nat, a: nat, b: nat)
    requires i + n <= |s| && a <= b <= n
    ensures s[i..][..n][a..b] == s[i + a..i + b]
  {
  }

  /** A run of lines that ends at `j`: a quote, a table or a paragraph. */
  lemma {:induction false} RunReads(letters: Letters, kind: Kind, lines: seq<string>, i: nat, j: nat)
    requires i < j <= |lines| && Used(letters, kind, lines[i..]) == j - i
    ensures Reads(letters, kind, lines, i, Build(letters, kind, lines[i..j]), j)
  {
    assert lines[i..][..j - i] == lines[i..j];
  }

  /** A block that also takes the line `j` on which it closes. */
  lemma {:induction false} ClosedReads(letters: Letters, kind: Kind, lines: seq<string>, i: nat, j: nat, n: nat,
                                       next: nat, block: Block)
    requires i < j <= |lines| && n == WithLast(lines[i..], j - i) && Used(letters, kind, lines[i..]) == n
    requires next == j + 1 || (j == |lines| && next == j)
    requires block == Build(letters, kind, lines[i..][..n])
    ensures Reads(letters, kind, lines, i, block, next)
  {
  }

  method ReadFence(letters: Letters, lines: seq<string>, start: nat, tildes: bool, language: string)
    returns (block: Block, i: nat)
    requires start < |lines|
    ensures Reads(letters, Fence(tildes, language), lines, start, block, i)
  {
    var codeLines;
    codeLines, i := Collect(lines, start + 1, NotClosing(tildes), Same);
    MappedSame(lines[start + 1..i]);
    block := CodeOf(letters, language, Join(codeLines, '\n'));
    FenceReads(letters, lines, start, i, tildes, language, codeLines, block);
    i := i + 1;
  }

  lemma {:induction false} FenceReads(letters: Letters, lines: seq<string>, i: nat, j: nat, tildes: bool,
                                      language: string, code: seq<string>, block: Block)
    requires i < j <= |lines| && RunEnd(lines, NotClosing(tildes), i + 1) == j
    requires code == lines[i + 1..j] && block == CodeOf(letters, language, Join(code, '\n'))
    ensures Reads(letters, Fence(tildes, language), lines, i, block, j + 1)
  {
    var n := WithLast(lines[i..], j - i);
    RunEndTail(lines, NotClosing(tildes), i, 1);
    RunEndCut(lines[i..], NotClosing(tildes), 1, n);
    SliceOfTail(lines, i, n, 1, j - i);
    ClosedReads(letters, Fence(tildes, language), lines, i, j, n, j + 1, block);
  }

  method ReadMath(letters: Letters, lines: seq<string>, start: nat, inner: string) returns (block: Block, i: nat)
    requires start < |lines|
    ensures Reads(letters, OpenMath(inner), lines, start, block, i)
  {
    var mathLines := if |Trim(inner, IsBlank)| == 0 then [] else [inner];
    var between;
    between, i := Collect(lines, start + 1, NotMathEnd, Same);
    MappedSame(lines[start + 1..i]);
    mathLines := mathLines + between;
    ghost var j := i;
    if i < |lines| {
      mathLines := mathLines + MathRest(lines[i]);
      i := i + 1;
    } else {
      assert mathLines + [] == mathLines;
    }
    block := MathBlock(Trim(Join(mathLines, '\n'), IsBlank));
    MathReads(letters, lines, start, j, inner, i, mathLines, block);
  }

  lemma {:induction false} MathReads(letters: Letters, lines: seq<string>, i: nat, j: nat, inner: string, next: nat,
                                     math: seq<string>, block: Block)
    requires i < j <= |lines| && RunEnd(lines, NotMathEnd, i + 1) == j
    requires math == (if |Trim(inner, IsBlank)| == 0 then [] else [inner]) + lines[i + 1..j]
                     + (if j < |lines| then MathRest(lines[j]) else [])
    requires next == (if j < |lines| then j + 1 else j) && block == MathBlock(Trim(Join(math, '\n'), IsBlank))
    ensures Reads(letters, OpenMath(inner), lines, i, block, next)
  {
    var n := WithLast(lines[i..], j - i);
    RunEndTail(lines, NotMathEnd, i, 1);
    MathSpan(lines, i, j, inner, n, math);
    ClosedReads(letters, OpenMath(inner), lines, i, j, n, next, block);
  }

  lemma {:induction false} MathSpan(lines: seq<string>, i: nat, j: nat, inner: string, n: nat, math: seq<string>)
    requires i < j <= |lines| && n == WithLast(lines[i..], j - i) && RunEnd(lines[i..], NotMathEnd, 1) == j - i
    requires math == (if |Trim(inner, IsBlank)| == 0 then [] else [inner]) + lines[i + 1..j]
                     + (if j < |lines| then MathRest(lines[j]) else [])
    ensures MathLines(inner, lines[i..][..n]) == math
  {
    RunEndCut(lines[i..], NotMathEnd, 1, n);
    SliceOfTail(lines, i, n, 1, j - i);
    assert j < |lines| ==> lines[i..][..n][j - i] == lines[j];
  }

  method ReadQuote(letters: Letters, lines: seq<string>, start: nat) returns (block: Block, i: nat)
    requires start < |lines| && IsQuoteLine(lines[start])
    ensures Reads(letters, Quoted, lines, start, block, i)
  {
    var quoteLines;
    quoteLines, i := Collect(lines, start, IsQuoteLine, QuoteText);
    RunEndTail(lines, IsQuoteLine, start, 0);
    RunReads(letters, Quoted, lines, start, i);
    block := QuoteOrCallout(letters, quoteLines);
  }

  lemma {:induction false} RowsSnoc(lines: seq<string>, line: string, row: seq<seq<string>>)
    requires row == if MarkdownTable.IsSeparatorLine(line) then [] else [MarkdownTable.SplitRow(line)]
    ensures Rows(lines + [line]) == Rows(lines) + row
  {
    if |lines| == 0 {
      assert [] + [line] == [line] && [line][1..] == [];
    } else {
      TailOfConcat(lines, [line]);
      RowsSnoc(lines[1..], line, row);
      Assoc(if MarkdownTable.IsSeparatorLine(lines[0]) then [] else [MarkdownTable.SplitRow(lines[0])],
            Rows(lines[1..]), row);
    }
  }

  method SplitRows(tableLines: seq<string>) returns (rows: seq<seq<string>>)
    ensures rows == Rows(tableLines)
  {
    rows := [];
    for k := 0 to |tableLines|
      invariant rows == Rows(tableLines[..k])
    {
      var row := if MarkdownTable.IsSeparatorLine(tableLines[k]) then [] else [MarkdownTable.SplitRow(tableLines[k])];
      RowsSnoc(tableLines[..k], tableLines[k], row);
      assert tableLines[..k + 1] == tableLines[..k] + [tableLines[k]];
      rows := rows + row;
    }
    assert tableLines[..|tableLines|] == tableLines;
  }

  method ReadTable(letters: Letters, lines: seq<string>, start: nat) returns (block: Block, i: nat)
    requires start < |lines| && IsPipeLine(lines[start])
    ensures Reads(letters, Piped, lines, start, block, i)
  {
    var tableLines;
    tableLines, i := Collect(lines, start, IsPipeLine, Bare);
    RunEndTail(lines, IsPipeLine, start, 0);
    RunReads(letters, Piped, lines, start, i);
    var rows := SplitRows(tableLines);
    block := Table(rows);
  }

  method ReadParagraph(letters: Letters, lines: seq<string>, start: nat) returns (block: Block, i: nat)
    requires start < |lines|
    ensures Reads(letters, Plain, lines, start, block, i)
  {
    var paraLines;
    paraLines, i := Collect(lines, start, Goes(letters), Bare);
    RunEndTail(lines, Goes(letters), start, 0);
    if |paraLines| == 0 {
      paraLines := paraLines + [Bare(lines[start])];
      i := i + 1;
    }
    assert paraLines == Mapped(lines[start..i], Bare);
    RunReads(letters, Plain, lines, start, i);
    block := Paragraph(Join(paraLines, ' '));
  }

  /** One block from line `start` on. */
  method ReadAt(letters: Letters, lines: seq<string>, start: nat) returns (block: Block, i: nat)
    requires start < |lines|
    ensures Reads(letters, KindOf(letters, lines[start]), lines, start, block, i)
  {
    var kind := KindOf(letters, lines[start]);
    StartsRun(letters, lines[start], kind);
    match kind {
      case Single(b) => block, i := b, start + 1;
      case Fence(tildes, language) => block, i := ReadFence(letters, lines, start, tildes, language);
      case OpenMath(inner) => block, i := ReadMath(letters, lines, start, inner);
      case Quoted => block, i := ReadQuote(letters, lines, start);
      case Piped => block, i := ReadTable(letters, lines, start);
      case Plain => block, i := ReadParagraph(letters, lines, start);
    }
  }

  lemma {:induction false} ReadIs(letters: Letters, lines: seq<string>, kind: Kind, n: nat, r: Read)
    requires |lines| > 0 && kind == KindOf(letters, lines[0]) && n == Used(letters, kind, lines) && 0 < n
    requires r == Read(Build(letters, kind, lines[..n]), n)
    ensures ReadBlock(letters, lines) == r
  {
  }

  lemma {:induction false} BlocksAfter(letters: Letters, lines: seq<string>, kind: Kind, n: nat, block: Block)
    requires |lines| > 0 && kind == KindOf(letters, lines[0]) && n == Used(letters, kind, lines) && 0 < n
    requires block == Build(letters, kind, lines[..n])
    ensures Blocks(letters, lines) == [block] + Blocks(letters, lines[n..])
  {
    ReadIs(letters, lines, kind, n, Read(block, n));
    BlocksStep(letters, lines, Read(block, n));
  }

  lemma {:induction false} ReadsBlock(letters: Letters, lines: seq<string>, i: nat, kind: Kind, block: Block,
                                      next: nat, end: nat)
    requires i < |lines| && kind == KindOf(letters, lines[i]) && Reads(letters, kind, lines, i, block, next)
    requires end == if next < |lines| then next else |lines|
    ensures i < next
    ensures Blocks(letters, lines[i..]) == [block] + Blocks(letters, lines[end..])
  {
    var rest := lines[i..];
    var n := Used(letters, kind, rest);
    assert rest[n..] == lines[end..];
    BlocksAfter(letters, rest, kind, n, block);
  }

  /** `parse`: the main loop. */
  method ParseBlocks(letters: Letters, text: string) returns (blocks: seq<Block>)
    ensures blocks == Parse(letters, text)
  {
    var lines := Content(text);
    blocks := [];
    var i := 0;
    assert lines[0..] == lines;
    while i < |lines|
      invariant i <= |lines| + 1
      invariant Blocks(letters, lines) == blocks + Blocks(letters, lines[if i < |lines| then i else |lines|..])
      decreases |lines| + 1 - i
    {
      var block, next := ReadAt(letters, lines, i);
      ghost var end := if next < |lines| then next else |lines|;
      ReadsBlock(letters, lines, i, KindOf(letters, lines[i]), block, next, end);
      Assoc(blocks, [block], Blocks(letters, lines[end..]));
      blocks := blocks + [block];
      i := next;
    }
    assert Blocks(letters, lines[|lines|..]) == [];
  }
}
