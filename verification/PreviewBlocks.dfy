/** The block structure of the preview: which lines each block takes, and why blocks
    do not depend on the text around them. */
module PreviewBlocks {
  import opened Text
  import Frontmatter
  import MarkdownTable

  datatype Block =
    | Heading(level: nat, text: string)
    | Paragraph(text: string)
    | Quote(lines: seq<string>)
    | Callout(kind: string, title: string, lines: seq<string>)
    | Embed(target: string, heading: Option<string>)
    | BaseEmbed(code: string)
    | Mermaid(code: string)
    | MathBlock(tex: string)
    | CodeBlock(language: string, code: string)
    | ListItem(indent: nat, ordered: bool, text: string)
    | Table(rows: seq<seq<string>>)
    | Rule
    | Blank

  /** Letter case and character classes. */
  datatype Letters = Letters(lower: string -> string, capital: string -> string,
                             isLetter: char -> bool, isNumber: char -> bool)

  function Bare(line: string): string {
    Trim(line, IsBlank)
  }

  // ------------------------------------------------------------- one-line blocks

  predicate NotBar(c: char) { c != '|' }
  predicate NotClose(c: char) { c != ']' }
  predicate NotDot(c: char) { c != '.' }
  predicate IsHash(c: char) { c == '#' }
  predicate IsIndent(c: char) { c == ' ' || c == '\t' }

  function ParseEmbed(line: string): Option<Block> {
    var t := Bare(line);
    if !("![[" <= t && HasSuffix(t, "]]") && |t| > 5) then None
    else
      var inner := t[3..|t| - 2];
      if Contains(inner, "]]") then None
      else
        var parts := Split(inner[..Lead(inner, NotBar)], '#');
        var name := Trim(parts[0], IsBlank);
        var heading := Trim(Join(parts[1..], '#'), IsBlank);
        if |name| == 0 then None else Some(Embed(name, if |heading| == 0 then None else Some(heading)))
  }

  /** A heading of level one to six, when a space or nothing follows the hashes. */
  function ParseHeading(t: string): Option<Block> {
    var level := Lead(t, IsHash);
    if 0 < level <= 6 && (level == |t| || t[level] == ' ') then Some(Heading(level, Trim(t[level..], IsBlank)))
    else None
  }

  function ParseListItem(letters: Letters, line: string): Option<Block> {
    var indent, t := Lead(line, IsIndent), Bare(line);
    if "- " <= t || "* " <= t || "+ " <= t then Some(ListItem(indent, false, t[2..]))
    else
      var dot := Lead(t, NotDot);
      if 0 < dot < |t| - 1 && (forall i :: 0 <= i < dot ==> letters.isNumber(t[i])) && t[dot + 1] == ' ' then
        Some(ListItem(indent, true, Trim(t[dot + 1..], IsBlank)))
      else None
  }

  predicate IsKindChar(letters: Letters, c: char) {
    letters.isLetter(c) || letters.isNumber(c) || c == '-'
  }

  /** `[!type] Title`, as the kind and the title. */
  function ParseCallout(letters: Letters, firstLine: string): Option<(string, string)> {
    var t := Bare(firstLine);
    if !("[!" <= t) || Lead(t[2..], NotClose) == |t| - 2 then None
    else
      var close := 2 + Lead(t[2..], NotClose);
      var kind := Trim(letters.lower(t[2..close]), IsBlank);
      var after := t[close + 1..];
      var rest := if |after| > 0 && (after[0] == '-' || after[0] == '+') then after[1..] else after;
      var title := Trim(rest, IsBlank);
      if |kind| == 0 || (exists i :: 0 <= i < |kind| && !IsKindChar(letters, kind[i]))
      then None
      else Some((kind, if |title| == 0 then letters.capital(kind) else title))
  }

  // ------------------------------------------------------------------ block kinds

  /** What the first line of a block says about it. */
  datatype Kind =
    | Single(block: Block)
    | Fence(tildes: bool, language: string)
    | OpenMath(inner: string)
    | Quoted
    | Piped
    | Plain

  function KindOf(letters: Letters, line: string): Kind {
    var t := Bare(line);
    if |t| == 0 then Single(Blank)
    else if "```" <= t || "~~~" <= t then Fence("~~~" <= t, Trim(t[3..], IsBlank))
    else if "$$" <= t then
      (if HasSuffix(t[2..], "$$") then Single(MathBlock(Trim(t[2..|t| - 2], IsBlank))) else OpenMath(t[2..]))
    else if ParseEmbed(t).Some? then Single(ParseEmbed(t).value)
    else if ParseHeading(t).Some? then Single(ParseHeading(t).value)
    else if t == "---" || t == "***" || t == "___" then Single(Rule)
    else if t[0] == '>' then Quoted
    else if ParseListItem(letters, line).Some? then Single(ParseListItem(letters, line).value)
    else if t[0] == '|' && t[|t| - 1] == '|' then Piped
    else Plain
  }

  predicate NotBackticks(line: string) { !("```" <= Bare(line)) }
  predicate NotTildes(line: string) { !("~~~" <= Bare(line)) }
  predicate NotMathEnd(line: string) { !HasSuffix(Bare(line), "$$") }
  predicate IsQuoteLine(line: string) { ">" <= Bare(line) }
  predicate IsPipeLine(line: string) { "|" <= Bare(line) }

  /** A line that ends a paragraph before it. */
  predicate Breaks(letters: Letters, line: string) {
    var t := Bare(line);
    |t| == 0 || t[0] == '>' || t[0] == '#' || "```" <= t || "$$" <= t || ParseEmbed(t).Some?
    || ParseListItem(letters, line).Some? || (t[0] == '|' && t[|t| - 1] == '|')
  }

  function Goes(letters: Letters): string -> bool {
    line => !Breaks(letters, line)
  }

  function NotClosing(tildes: bool): string -> bool {
    if tildes then NotTildes else NotBackticks
  }

  /** The first line from `i` on that `p` refuses, or the end. */
  function RunEnd(lines: seq<string>, p: string -> bool, i: nat): (j: nat)
    requires i <= |lines|
    ensures i <= j <= |lines|
    decreases |lines| - i
  {
    if i < |lines| && p(lines[i]) then RunEnd(lines, p, i + 1) else i
  }

  function WithLast(lines: seq<string>, j: nat): nat {
    if j + 1 < |lines| then j + 1 else |lines|
  }

  /** How many lines a block takes. */
  function Used(letters: Letters, kind: Kind, lines: seq<string>): (n: nat)
    requires |lines| > 0
    ensures n <= |lines|
  {
    match kind
    case Single(_) => 1
    case Fence(tildes, _) => WithLast(lines, RunEnd(lines, NotClosing(tildes), 1))
    case OpenMath(_) => WithLast(lines, RunEnd(lines, NotMathEnd, 1))
    case Quoted => RunEnd(lines, IsQuoteLine, 0)
    case Piped => RunEnd(lines, IsPipeLine, 0)
    case Plain => (var j := RunEnd(lines, Goes(letters), 0); if j == 0 then 1 else j)
  }

  function QuoteText(line: string): string {
    var t := Bare(line);
    if |t| == 0 then "" else if |t| > 1 && t[1] == ' ' then t[2..] else t[1..]
  }

  function Mapped(lines: seq<string>, f: string -> string): (r: seq<string>)
    ensures |r| == |lines| && forall i :: 0 <= i < |r| ==> r[i] == f(lines[i])
  {
    seq(|lines|, i requires 0 <= i < |lines| => f(lines[i]))
  }

  /** The rows of a table, separator lines left out. */
  function Rows(lines: seq<string>): seq<seq<string>> {
    if |lines| == 0 then []
    else
      (if MarkdownTable.IsSeparatorLine(lines[0]) then [] else [MarkdownTable.SplitRow(lines[0])]) + Rows(lines[1..])
  }

  function CodeOf(letters: Letters, language: string, code: string): Block {
    var kind := letters.lower(language);
    if kind == "mermaid" then Mermaid(code)
    else if kind == "symdesk-base" || kind == "base" then BaseEmbed(code)
    else CodeBlock(language, code)
  }

  /** The lines of a math block: what stands on its first line, the lines between,
      and what stands before the closing dollars. */
  function MathLines(inner: string, span: seq<string>): seq<string>
    requires |span| > 0
  {
    var j := RunEnd(span, NotMathEnd, 1);
    (if |Trim(inner, IsBlank)| == 0 then [] else [inner]) + span[1..j] + if j < |span| then MathRest(span[j]) else []
  }

  function MathRest(line: string): seq<string> {
    var t := Bare(line);
    var rest := Trim(if |t| < 2 then "" else t[..|t| - 2], IsBlank);
    if |rest| == 0 then [] else [rest]
  }

  function QuoteOrCallout(letters: Letters, texts: seq<string>): Block
    requires |texts| > 0
  {
    var callout := ParseCallout(letters, texts[0]);
    if callout.Some? then Callout(callout.value.0, callout.value.1, texts[1..]) else Quote(texts)
  }

  /** The block made of the lines it takes. */
  function Build(letters: Letters, kind: Kind, span: seq<string>): Block
    requires |span| > 0
  {
    match kind
    case Single(block) => block
    case Fence(tildes, language) =>
      CodeOf(letters, language, Join(span[1..RunEnd(span, NotClosing(tildes), 1)], '\n'))
    case OpenMath(inner) => MathBlock(Trim(Join(MathLines(inner, span), '\n'), IsBlank))
    case Quoted =>
      QuoteOrCallout(letters, Mapped(span, QuoteText))
    case Piped => Table(Rows(Mapped(span, Bare)))
    case Plain => Paragraph(Join(Mapped(span, Bare), ' '))
  }

  datatype Read = Read(block: Block, used: nat)

  function ReadBlock(letters: Letters, lines: seq<string>): Read
    requires |lines| > 0
  {
    var kind := KindOf(letters, lines[0]);
    UsedSome(letters, lines);
    var n := Used(letters, kind, lines);
    Read(Build(letters, kind, lines[..n]), n)
  }

  /** Every block takes at least one line. */
  lemma {:induction false} UsedSome(letters: Letters, lines: seq<string>)
    requires |lines| > 0
    ensures 0 < Used(letters, KindOf(letters, lines[0]), lines) <= |lines|
  {
    var kind := KindOf(letters, lines[0]);
    StartsRun(letters, lines[0], kind);
    match kind
    case Single(_) =>
    case Fence(_, _) =>
    case OpenMath(_) =>
    case Quoted =>
    case Piped =>
    case Plain =>
  }

  lemma {:induction false} StartsRun(letters: Letters, line: string, kind: Kind)
    requires kind == KindOf(letters, line)
    ensures kind == Quoted ==> IsQuoteLine(line)
    ensures kind == Piped ==> IsPipeLine(line)
  {
  }

  /** What takes the first block off some lines. */
  type Reader = seq<string> -> Read

  /** A reader that takes at least one line, and no more than there are. */
  ghost predicate Progress(read: Reader) {
    forall lines :: |lines| > 0 ==> 0 < read(lines).used <= |lines|
  }

  /** Blocks with the lines they take. */
  datatype Span = Span(block: Block, lines: seq<string>)

  function SpansBy(read: Reader, lines: seq<string>): seq<Span>
    requires Progress(read)
  {
    if |lines| == 0 then []
    else
      var r := read(lines);
      [Span(r.block, lines[..r.used])] + SpansBy(read, lines[r.used..])
  }

  function BlocksBy(read: Reader, lines: seq<string>): seq<Block>
    requires Progress(read)
  {
    if |lines| == 0 then []
    else
      var r := read(lines);
      [r.block] + BlocksBy(read, lines[r.used..])
  }

  function ReaderOf(letters: Letters): Reader {
    lines => if |lines| == 0 then Read(Blank, 0) else ReadBlock(letters, lines)
  }

  lemma {:induction false} Progresses(letters: Letters)
    ensures Progress(ReaderOf(letters))
  {
    forall lines: seq<string> | |lines| > 0 ensures 0 < ReaderOf(letters)(lines).used <= |lines| {
      UsedSome(letters, lines);
    }
  }

  function Spans(letters: Letters, lines: seq<string>): seq<Span> {
    Progresses(letters);
    SpansBy(ReaderOf(letters), lines)
  }

  function Blocks(letters: Letters, lines: seq<string>): seq<Block> {
    Progresses(letters);
    BlocksBy(ReaderOf(letters), lines)
  }

  /** The lines after the frontmatter, if there is one. */
  function Content(text: string): seq<string> {
    var lines := Split(text, '\n');
    var closing := Frontmatter.Closing(lines, IsBlank);
    if closing.None? then lines
    else
      Frontmatter.ClosingIs(lines, IsBlank);
      lines[closing.value + 1..]
  }

  function Parse(letters: Letters, text: string): seq<Block> {
    Blocks(letters, Content(text))
  }

  // -------------------------------------------------------------- spans partition

  function LinesOf(spans: seq<Span>): seq<string> {
    if |spans| == 0 then [] else spans[0].lines + LinesOf(spans[1..])
  }

  lemma {:induction false} PartitionBy(read: Reader, lines: seq<string>)
    requires Progress(read)
    ensures LinesOf(SpansBy(read, lines)) == lines
    ensures |SpansBy(read, lines)| == |BlocksBy(read, lines)|
    ensures forall i :: 0 <= i < |SpansBy(read, lines)| ==>
      SpansBy(read, lines)[i].block == BlocksBy(read, lines)[i] && |SpansBy(read, lines)[i].lines| > 0
  {
    if |lines| > 0 {
      var r := read(lines);
      PartitionBy(read, lines[r.used..]);
      var head, rest := Span(r.block, lines[..r.used]), SpansBy(read, lines[r.used..]);
      assert ([head] + rest)[1..] == rest;
      assert lines[..r.used] + lines[r.used..] == lines;
    }
  }

  /** Spans are one per block, in order, and put together they are the lines. */
  lemma {:induction false} SpansPartition(letters: Letters, lines: seq<string>)
    ensures LinesOf(Spans(letters, lines)) == lines
    ensures |Spans(letters, lines)| == |Blocks(letters, lines)|
    ensures forall i :: 0 <= i < |Spans(letters, lines)| ==>
      Spans(letters, lines)[i].block == Blocks(letters, lines)[i] && |Spans(letters, lines)[i].lines| > 0
  {
    Progresses(letters);
    PartitionBy(ReaderOf(letters), lines);
  }

  // ----------------------------------------------------------- independence

  lemma {:induction false} RunEndCut(lines: seq<string>, p: string -> bool, i: nat, k: nat)
    requires i <= k <= |lines|
    ensures RunEnd(lines[..k], p, i) == if RunEnd(lines, p, i) < k then RunEnd(lines, p, i) else k
    decreases k - i
  {
    if i < k && p(lines[i]) {
      RunEndCut(lines, p, i + 1, k);
    }
  }

  /** Cutting the text behind a block does not shorten the block. */
  lemma {:induction false} UsedCut(letters: Letters, kind: Kind, lines: seq<string>, k: nat)
    requires |lines| > 0 && 0 < k <= |lines| && Used(letters, kind, lines) <= k
    ensures Used(letters, kind, lines[..k]) == Used(letters, kind, lines)
  {
    match kind
    case Single(_) =>
    case Fence(tildes, _) => RunEndCut(lines, NotClosing(tildes), 1, k);
    case OpenMath(_) => RunEndCut(lines, NotMathEnd, 1, k);
    case Quoted => RunEndCut(lines, IsQuoteLine, 0, k);
    case Piped => RunEndCut(lines, IsPipeLine, 0, k);
    case Plain => RunEndCut(lines, Goes(letters), 0, k);
  }

  /** A block that ends before the text does is not changed by more text. */
  lemma {:induction false} UsedGrows(letters: Letters, kind: Kind, lines: seq<string>, k: nat)
    requires 0 < k <= |lines| && (Used(letters, kind, lines[..k]) < k || kind.Single?)
    ensures Used(letters, kind, lines) == Used(letters, kind, lines[..k])
  {
    match kind
    case Single(_) =>
    case Fence(tildes, _) => RunEndCut(lines, NotClosing(tildes), 1, k);
    case OpenMath(_) => RunEndCut(lines, NotMathEnd, 1, k);
    case Quoted => RunEndCut(lines, IsQuoteLine, 0, k);
    case Piped => RunEndCut(lines, IsPipeLine, 0, k);
    case Plain => RunEndCut(lines, Goes(letters), 0, k);
  }

  lemma {:induction false} ReadCut(letters: Letters, lines: seq<string>, k: nat)
    requires 0 < k <= |lines| && ReadBlock(letters, lines).used <= k
    ensures ReadBlock(letters, lines[..k]) == ReadBlock(letters, lines)
  {
    var kind, n := KindOf(letters, lines[0]), ReadBlock(letters, lines).used;
    UsedCut(letters, kind, lines, k);
    assert lines[..k][..n] == lines[..n] && lines[..k][0] == lines[0];
  }

  /** A reader that does not see behind the block that it takes. */
  ghost predicate NearSighted(read: Reader) {
    forall lines, k :: 0 < k <= |lines| && read(lines).used <= k ==> read(lines[..k]) == read(lines)
  }

  lemma {:induction false} CutShort(letters: Letters)
    ensures NearSighted(ReaderOf(letters))
  {
    var read := ReaderOf(letters);
    forall lines, k | 0 < k <= |lines| && read(lines).used <= k ensures read(lines[..k]) == read(lines) {
      ReadCut(letters, lines, k);
    }
  }

  lemma {:induction false} StandsAloneBy(read: Reader, lines: seq<string>, i: nat)
    requires Progress(read) && NearSighted(read) && i < |SpansBy(read, lines)|
    ensures BlocksBy(read, SpansBy(read, lines)[i].lines) == [SpansBy(read, lines)[i].block]
  {
    var r := read(lines);
    if i == 0 {
      assert read(lines[..r.used]) == r;
      assert lines[..r.used][r.used..] == [];
    } else {
      StandsAloneBy(read, lines[r.used..], i - 1);
    }
  }

  /** A block depends on no lines but its own: they parse to it, and to nothing else. */
  lemma {:induction false} SpanStandsAlone(letters: Letters, lines: seq<string>, i: nat)
    requires i < |Spans(letters, lines)|
    ensures Blocks(letters, Spans(letters, lines)[i].lines) == [Spans(letters, lines)[i].block]
  {
    Progresses(letters);
    CutShort(letters);
    StandsAloneBy(ReaderOf(letters), lines, i);
  }

  /** Blocks that take one line whatever follows. */
  predicate OneLine(block: Block) {
    block.Blank? || block.Heading? || block.Rule? || block.Embed? || block.ListItem?
  }

  lemma {:induction false} OneLineKind(letters: Letters, kind: Kind, span: seq<string>)
    requires |span| > 0 && OneLine(Build(letters, kind, span))
    ensures kind.Single?
  {
  }

  lemma {:induction false} ReadGrows(letters: Letters, xs: seq<string>, ys: seq<string>)
    requires |xs| > 0 && (ReadBlock(letters, xs).used < |xs| || OneLine(ReadBlock(letters, xs).block))
    ensures ReadBlock(letters, xs + ys) == ReadBlock(letters, xs)
  {
    var kind, n := KindOf(letters, xs[0]), ReadBlock(letters, xs).used;
    if n == |xs| {
      UsedSome(letters, xs);
      OneLineKind(letters, kind, xs[..n]);
    }
    assert (xs + ys)[..|xs|] == xs && (xs + ys)[0] == xs[0];
    UsedGrows(letters, kind, xs + ys, |xs|);
    assert (xs + ys)[..n] == xs[..n];
  }

  /** A reader that finds the same block with more text behind, if the block ends
      before the text does or takes one line anyway. */
  ghost predicate Settles(read: Reader) {
    forall xs, ys :: |xs| > 0 && (read(xs).used < |xs| || OneLine(read(xs).block)) ==> read(xs + ys) == read(xs)
  }

  lemma {:induction false} Settled(letters: Letters)
    ensures Settles(ReaderOf(letters))
  {
    var read := ReaderOf(letters);
    forall xs, ys | |xs| > 0 && (read(xs).used < |xs| || OneLine(read(xs).block)) ensures read(xs + ys) == read(xs) {
      ReadGrows(letters, xs, ys);
    }
  }

  lemma {:induction false} ConcatBy(read: Reader, xs: seq<string>, ys: seq<string>)
    requires Progress(read) && Settles(read)
    requires |xs| > 0 && |BlocksBy(read, xs)| > 0 && OneLine(BlocksBy(read, xs)[|BlocksBy(read, xs)| - 1])
    ensures BlocksBy(read, xs + ys) == BlocksBy(read, xs) + BlocksBy(read, ys)
    decreases |xs|
  {
    var r := read(xs);
    var rest := xs[r.used..];
    var blocks := BlocksBy(read, rest);
    if |rest| == 0 {
      assert rest + ys == ys;
    } else {
      LastOfCons(r.block, blocks);
      ConcatBy(read, rest, ys);
    }
    assert read(xs + ys) == r;
    DropOfConcat(xs, ys, r.used);
    Assoc([r.block], blocks, BlocksBy(read, ys));
  }

  lemma {:induction false} LastOfCons<T>(head: T, tail: seq<T>)
    requires |tail| > 0
    ensures ([head] + tail)[|[head] + tail| - 1] == tail[|tail| - 1]
  {
  }

  lemma {:induction false} DropOfConcat<T>(xs: seq<T>, ys: seq<T>, n: nat)
    requires n <= |xs|
    ensures (xs + ys)[n..] == xs[n..] + ys
  {
  }

  /** Text after a blank line, a heading, a rule, an embed or a list item starts
      afresh: the blocks of the whole are those of the two parts. */
  lemma {:induction false} BlocksConcat(letters: Letters, xs: seq<string>, ys: seq<string>)
    requires |xs| > 0 && |Blocks(letters, xs)| > 0 && OneLine(Blocks(letters, xs)[|Blocks(letters, xs)| - 1])
    ensures Blocks(letters, xs + ys) == Blocks(letters, xs) + Blocks(letters, ys)
  {
    Progresses(letters);
    Settled(letters);
    ConcatBy(ReaderOf(letters), xs, ys);
  }

  lemma {:induction false} BlocksStep(letters: Letters, lines: seq<string>, r: Read)
    requires |lines| > 0 && r == ReadBlock(letters, lines)
    ensures 0 < r.used <= |lines| && Blocks(letters, lines) == [r.block] + Blocks(letters, lines[r.used..])
  {
    UsedSome(letters, lines);
  }

  /** The branch that keeps the loop going: a paragraph line that itself breaks
      paragraphs. It is reached exactly by lines that start with a hash and are no
      heading, and makes a paragraph of that one line. */
  lemma {:induction false} LoneParagraphIff(letters: Letters, lines: seq<string>)
    requires |lines| > 0 && KindOf(letters, lines[0]) == Plain
    ensures RunEnd(lines, Goes(letters), 0) == 0 <==> Bare(lines[0])[0] == '#'
    ensures Bare(lines[0])[0] == '#' ==> ReadBlock(letters, lines) == Read(Paragraph(Bare(lines[0])), 1)
  {
    if Bare(lines[0])[0] == '#' {
      assert Mapped(lines[..1], Bare) == [Bare(lines[0])];
    }
  }
}
