/** The one-line blocks, the formulas, callouts and tables as a writer types them, and
    which lines end a paragraph. */
module PreviewKinds {
  import opened Text
  import opened PreviewBlocks
  import opened PreviewShapes
  import MarkdownTable
  import FieldReads
  import Frontmatter

  /** No character that starts a block is a number. */
  ghost predicate Sane(letters: Letters) {
    && (forall c :: letters.isNumber(c) ==> c !in "`~$!#-*+_>|.")
    && forall c :: '0' <= c <= '9' ==> letters.isNumber(c)
  }

  lemma {:induction false} BareOf(a: string, core: string, b: string)
    requires Only(a, IsBlank) && Only(b, IsBlank) && core != "" && Trimmed(core, IsBlank)
    ensures Bare(a + core + b) == core
  {
    TrimCore(a, core, b, IsBlank);
  }

  /** A line that does not start like a fence, a formula, an embed or a heading. */
  lemma {:induction false} PlainStart(line: string, t: string)
    requires t == Bare(line) && |t| > 0 && t[0] !in "`~$!#"
    ensures !("```" <= t) && !("~~~" <= t) && !("$$" <= t) && ParseEmbed(t).None? && ParseHeading(t).None?
  {
    BareTwice(line);
    assert "`~$!#"[0] == '`' && "`~$!#"[1] == '~' && "`~$!#"[2] == '$' && "`~$!#"[3] == '!' && "`~$!#"[4] == '#';
  }

  lemma {:induction false} KindAfter(letters: Letters, line: string, t: string)
    requires t == Bare(line) && |t| > 0
    requires !("```" <= t) && !("~~~" <= t) && !("$$" <= t) && ParseEmbed(t).None? && ParseHeading(t).None?
    ensures KindOf(letters, line)
      == if t == "---" || t == "***" || t == "___" then Single(Rule)
         else if t[0] == '>' then Quoted
         else if ParseListItem(letters, line).Some? then Single(ParseListItem(letters, line).value)
         else if t[0] == '|' && t[|t| - 1] == '|' then Piped
         else Plain
  {
  }

  // ------------------------------------------------------------ blank lines, rules

  /** A blank line is a blank block, and no other line is. */
  lemma {:induction false} BlankIff(letters: Letters, line: string)
    ensures KindOf(letters, line) == Single(Blank) <==> Only(line, IsBlank)
  {
    var a, b := TrimParts(line, IsBlank);
    if Only(line, IsBlank) {
      TrimAll(line, IsBlank);
    }
    NoBlankKind(letters, line);
  }

  lemma {:induction false} NoBlankKind(letters: Letters, line: string)
    ensures KindOf(letters, line) == Single(Blank) ==> Bare(line) == ""
  {
  }

  /** A rule is one of three texts, whatever blanks stand around it. */
  lemma {:induction false} RuleIff(letters: Letters, line: string)
    ensures KindOf(letters, line) == Single(Rule) <==> Bare(line) in {"---", "***", "___"}
  {
    var t := Bare(line);
    if t in {"---", "***", "___"} {
      RuleKind(letters, line, t);
    } else {
      NoRuleKind(letters, line);
    }
  }

  lemma {:induction false} RuleKind(letters: Letters, line: string, t: string)
    requires t == Bare(line) && t in {"---", "***", "___"}
    ensures KindOf(letters, line) == Single(Rule)
  {
    PlainStart(line, t);
    KindAfter(letters, line, t);
  }

  lemma {:induction false} NoRuleKind(letters: Letters, line: string)
    ensures KindOf(letters, line) == Single(Rule) ==> Bare(line) in {"---", "***", "___"}
  {
  }

  // ------------------------------------------------------------------- list items

  lemma {:induction false} IndentOf(a: string, t: string)
    requires (forall c :: c in a ==> c in " \t") && t != "" && !IsIndent(t[0])
    ensures Lead(a + t, IsIndent) == |a| && Only(a, IsBlank)
  {
    forall i | 0 <= i < |a| ensures IsIndent(a[i]) && IsBlank(a[i]) {
      assert a[i] in a;
    }
    assert (a + t)[..|a|] == a;
    LeadUnique(a + t, IsIndent, |a|);
  }

  /** A dash, a star or a plus, a space and a text are a list item with that text, as
      deep as it is indented. */
  lemma {:induction false} BulletReads(letters: Letters, indent: string, marker: char, text: string)
    requires (forall c :: c in indent ==> c in " \t") && marker in "-*+" && text != "" && !IsBlank(text[|text| - 1])
    ensures KindOf(letters, indent + ([marker, ' '] + text)) == Single(ListItem(|indent|, false, text))
  {
    var t := [marker, ' '] + text;
    assert t[0] == marker && t[1] == ' ' && t[2..] == text;
    IndentOf(indent, t);
    assert indent + t + "" == indent + t;
    BareOf(indent, t, "");
    BulletKind(letters, indent + t, t, |indent|);
  }

  lemma {:induction false} BulletKind(letters: Letters, line: string, t: string, indent: nat)
    requires Bare(line) == t && |t| > 2 && t[0] in "-*+" && t[1] == ' ' && Lead(line, IsIndent) == indent
    ensures KindOf(letters, line) == Single(ListItem(indent, false, t[2..]))
  {
    PlainStart(line, t);
    KindAfter(letters, line, t);
    BulletItem(letters, line, t, indent);
  }

  lemma {:induction false} BulletItem(letters: Letters, line: string, t: string, indent: nat)
    requires Bare(line) == t && |t| > 2 && t[0] in "-*+" && t[1] == ' ' && Lead(line, IsIndent) == indent
    ensures ParseListItem(letters, line) == Some(ListItem(indent, false, t[2..]))
  {
    assert t[..2] == [t[0], ' '];
    assert t[0] == '-' || t[0] == '*' || t[0] == '+';
  }

  /** A number, a dot, a space and a text are a numbered item. */
  lemma {:induction false} NumberedReads(letters: Letters, indent: string, digits: string, text: string)
    requires Sane(letters) && (forall c :: c in indent ==> c in " \t")
    requires digits != "" && forall c :: c in digits ==> '0' <= c <= '9'
    requires text != "" && Trimmed(text, IsBlank)
    ensures KindOf(letters, indent + (digits + ". " + text)) == Single(ListItem(|indent|, true, text))
  {
    var t := digits + ". " + text;
    assert digits[0] in digits && t[0] == digits[0];
    IndentOf(indent, t);
    assert indent + t + "" == indent + t;
    assert t[|t| - 1] == text[|text| - 1];
    BareOf(indent, t, "");
    DotOf(digits, text, t);
    NumberedKind(letters, indent + t, t, |digits|, |indent|, text);
  }

  lemma {:induction false} DotOf(digits: string, text: string, t: string)
    requires t == digits + ". " + text && forall c :: c in digits ==> '0' <= c <= '9'
    requires text != "" && Trimmed(text, IsBlank)
    ensures Lead(t, NotDot) == |digits| && |digits| + 1 < |t| && t[|digits| + 1] == ' '
    ensures Trim(t[|digits| + 1..], IsBlank) == text
    ensures forall i :: 0 <= i < |digits| ==> '0' <= t[i] <= '9'
  {
    assert t[|digits|] == '.' && t[..|digits|] == digits;
    forall i | 0 <= i < |digits| ensures '0' <= t[i] <= '9' {
      assert digits[i] in digits;
    }
    LeadUnique(t, NotDot, |digits|);
    assert t[|digits| + 1..] == " " + text + "";
    TrimCore(" ", text, "", IsBlank);
  }

  lemma {:induction false} NumberedKind(letters: Letters, line: string, t: string, dot: nat, indent: nat, text: string)
    requires Sane(letters) && Bare(line) == t && dot > 0 && Lead(t, NotDot) == dot && dot + 1 < |t| && t[dot + 1] == ' '
    requires forall i :: 0 <= i < dot ==> '0' <= t[i] <= '9'
    requires Lead(line, IsIndent) == indent && Trim(t[dot + 1..], IsBlank) == text
    ensures KindOf(letters, line) == Single(ListItem(indent, true, text))
  {
    assert '0' <= t[0] <= '9';
    PlainStart(line, t);
    KindAfter(letters, line, t);
    NumberedItem(letters, line, t, dot, indent, text);
  }

  lemma {:induction false} NumberedItem(letters: Letters, line: string, t: string, dot: nat, indent: nat, text: string)
    requires Sane(letters) && Bare(line) == t && dot > 0 && Lead(t, NotDot) == dot && dot + 1 < |t| && t[dot + 1] == ' '
    requires forall i :: 0 <= i < dot ==> '0' <= t[i] <= '9'
    requires Lead(line, IsIndent) == indent && Trim(t[dot + 1..], IsBlank) == text
    ensures ParseListItem(letters, line) == Some(ListItem(indent, true, text))
  {
    assert '0' <= t[0] <= '9';
    assert forall i :: 0 <= i < dot ==> letters.isNumber(t[i]);
  }

  // ----------------------------------------------------------------------- embeds

  lemma {:induction false} NoClosing(s: string)
    requires ']' !in s
    ensures !Contains(s, "]]")
  {
    forall i | 0 <= i <= |s| - 2 ensures s[i..][..2] != "]]" {
      assert s[i] == s[i..][..2][0] && s[i] in s;
    }
  }

  /** What stands between the brackets of an embed: a name, a heading, an alias. */
  function EmbedText(name: string, heading: Option<string>, alias: Option<string>): string {
    name + (if heading.Some? then "#" + heading.value else "") + (if alias.Some? then "|" + alias.value else "")
  }

  /** An embed on its own line shows the named note, or one section of it; an alias is
      not used. */
  lemma {:induction false} EmbedReads(letters: Letters, name: string, heading: Option<string>, alias: Option<string>)
    requires name != "" && Trimmed(name, IsBlank) && '#' !in name
    requires heading.Some? ==> Trimmed(heading.value, IsBlank)
    requires ']' !in EmbedText(name, heading, alias) && '|' !in EmbedText(name, heading, None)
    ensures KindOf(letters, "![[" + EmbedText(name, heading, alias) + "]]")
      == Single(Embed(name, if heading == Some("") then None else heading))
  {
    EmbedFrom(letters, EmbedText(name, heading, alias), EmbedText(name, heading, None), name, heading, alias);
  }

  lemma {:induction false} EmbedFrom(letters: Letters, inner: string, target: string, name: string,
                                     heading: Option<string>, alias: Option<string>)
    requires name != "" && Trimmed(name, IsBlank) && '#' !in name
    requires heading.Some? ==> Trimmed(heading.value, IsBlank)
    requires target == EmbedText(name, heading, None)
    requires inner == target + if alias.Some? then "|" + alias.value else ""
    requires ']' !in inner && '|' !in target
    ensures KindOf(letters, "![[" + inner + "]]") == Single(Embed(name, if heading == Some("") then None else heading))
  {
    var t := "![[" + inner + "]]";
    Bracketed(t, inner);
    NoClosing(inner);
    TargetOf(inner, target, alias);
    EmbedParts(name, heading, target);
    EmbedKind(letters, t, inner, target, name, heading);
  }

  lemma {:induction false} Bracketed(t: string, inner: string)
    requires t == "![[" + inner + "]]"
    ensures Bare(t) == t && |t| == |inner| + 5
    ensures t[..3] == "![[" && t[3..|t| - 2] == inner && t[|t| - 2..] == "]]"
  {
    assert t[0] == '!' && t[|t| - 1] == ']';
    TrimOfTrimmed(t, IsBlank);
  }

  lemma {:induction false} TargetOf(inner: string, target: string, alias: Option<string>)
    requires inner == target + (if alias.Some? then "|" + alias.value else "") && '|' !in target
    ensures inner[..Lead(inner, NotBar)] == target
  {
    assert inner[..|target|] == target;
    LeadUnique(inner, NotBar, |target|);
  }

  lemma {:induction false} EmbedParts(name: string, heading: Option<string>, target: string)
    requires target == EmbedText(name, heading, None) && '#' !in name && name != "" && Trimmed(name, IsBlank)
    requires heading.Some? ==> Trimmed(heading.value, IsBlank)
    ensures var parts := Split(target, '#');
      && Trim(parts[0], IsBlank) == name
      && Trim(Join(parts[1..], '#'), IsBlank) == if heading.Some? then heading.value else ""
  {
    TrimOfTrimmed(name, IsBlank);
    SplitWhole(name, '#');
    if heading.Some? {
      var h := heading.value;
      SplitAt(name, h, '#');
      assert target == name + ['#'] + h;
      assert ([name] + Split(h, '#'))[1..] == Split(h, '#');
      JoinSplit(h, '#');
      TrimOfTrimmed(h, IsBlank);
    } else {
      assert target == name;
      TrimAll("", IsBlank);
    }
  }

  lemma {:induction false} EmbedKind(letters: Letters, t: string, inner: string, target: string, name: string,
                                     heading: Option<string>)
    requires Bare(t) == t && |t| > 5 && t[..3] == "![[" && t[|t| - 2..] == "]]" && t[3..|t| - 2] == inner
    requires !Contains(inner, "]]") && inner[..Lead(inner, NotBar)] == target && name != ""
    requires var parts := Split(target, '#');
      && Trim(parts[0], IsBlank) == name
      && Trim(Join(parts[1..], '#'), IsBlank) == if heading.Some? then heading.value else ""
    ensures KindOf(letters, t) == Single(Embed(name, if heading == Some("") then None else heading))
  {
    assert t[0] == '!' && t[1] == '[';
    assert ParseEmbed(t) == Some(Embed(name, if heading == Some("") then None else heading));
  }

  // --------------------------------------------------------------------- closing lines

  /** A line starts with `head`, or ends with `tail`, but for blanks. */
  ghost predicate Opens(line: string, head: string) {
    exists pad, rest :: line == pad + head + rest && Only(pad, IsBlank)
  }

  ghost predicate Ends(line: string, tail: string) {
    exists rest, pad :: line == rest + tail + pad && Only(pad, IsBlank)
  }

  lemma {:induction false} OpensIff(line: string, head: string)
    requires head != "" && Trimmed(head, IsBlank)
    ensures head <= Bare(line) <==> Opens(line, head)
  {
    var a, b := TrimParts(line, IsBlank);
    var t := Bare(line);
    if head <= t {
      assert line == a + head + (t[|head|..] + b);
    }
    forall pad, rest | line == pad + head + rest && Only(pad, IsBlank) ensures head <= t {
      BehindPad(line, pad, head + rest);
      BareStarts(head, rest, line);
    }
  }

  lemma {:induction false} BehindPad(line: string, pad: string, text: string)
    requires line == pad + text && Only(pad, IsBlank) && text != "" && !IsBlank(text[0])
    ensures line[Lead(line, IsBlank)..] == text
  {
    assert line[..|pad|] == pad && line[|pad|] == text[0];
    LeadUnique(line, IsBlank, |pad|);
  }

  lemma {:induction false} BareStarts(head: string, rest: string, line: string)
    requires head != "" && !IsBlank(head[|head| - 1]) && line[Lead(line, IsBlank)..] == head + rest
    ensures head <= Bare(line)
  {
    TrailInside(head, rest);
    var t := head + rest;
    assert t[..|t| - Trail(t, IsBlank)][..|head|] == head;
  }

  lemma {:induction false} TrailInside(head: string, rest: string)
    requires head != "" && !IsBlank(head[|head| - 1])
    ensures Trail(head + rest, IsBlank) <= |rest|
  {
    if |rest| == 0 {
      assert head + rest == head;
    } else {
      var init := rest[..|rest| - 1];
      TrailInside(head, init);
      assert (head + rest)[..|head + rest| - 1] == head + init;
    }
  }

  lemma {:induction false} EndsIff(line: string, tail: string)
    requires tail != "" && Trimmed(tail, IsBlank)
    ensures HasSuffix(Bare(line), tail) <==> Ends(line, tail)
  {
    var a, b := TrimParts(line, IsBlank);
    if HasSuffix(Bare(line), tail) {
      EndsFrom(line, a, Bare(line), b, tail);
    }
    forall rest, pad | line == rest + tail + pad && Only(pad, IsBlank) ensures HasSuffix(Bare(line), tail) {
      EndsBare(rest, tail, pad, line);
    }
  }

  lemma {:induction false} EndsFrom(line: string, a: string, t: string, b: string, tail: string)
    requires line == a + t + b && Only(b, IsBlank) && HasSuffix(t, tail)
    ensures Ends(line, tail)
  {
    var rest := t[..|t| - |tail|];
    assert t == rest + tail;
    assert line == (a + rest) + tail + b;
  }

  lemma {:induction false} EndsBare(rest: string, tail: string, pad: string, line: string)
    requires line == rest + tail + pad && Only(pad, IsBlank) && tail != "" && Trimmed(tail, IsBlank)
    ensures HasSuffix(Bare(line), tail)
  {
    var a, b := TrimParts(rest, IsBlank);
    var core := rest[|a|..] + tail;
    if |rest| > |a| {
      assert rest[|a|..][0] == rest[|a|];
      LeadRun(rest, IsBlank);
    }
    assert core[|core| - 1] == tail[|tail| - 1] && line == a + core + pad;
    TrimCore(a, core, pad, IsBlank);
  }

  /** The lines that end a fence or a formula, and those that go on a quote or a table. */
  lemma {:induction false} ClosingLines(line: string)
    ensures !NotBackticks(line) <==> Opens(line, "```")
    ensures !NotTildes(line) <==> Opens(line, "~~~")
    ensures !NotMathEnd(line) <==> Ends(line, "$$")
    ensures IsQuoteLine(line) <==> Opens(line, ">")
    ensures IsPipeLine(line) <==> Opens(line, "|")
  {
    OpensIff(line, "```");
    OpensIff(line, "~~~");
    OpensIff(line, ">");
    OpensIff(line, "|");
    EndsIff(line, "$$");
  }

  // --------------------------------------------------------------------- documents

  /** A document is shown from behind its frontmatter on, and from its first line on
      when it has none. */
  lemma {:induction false} ShownLines(inside: seq<string>, body: string, first: string, rest: seq<string>)
    requires forall i :: 0 <= i < |inside| ==> FieldReads.Inner(inside[i])
    requires '\n' !in first && forall i :: 0 <= i < |rest| ==> '\n' !in rest[i]
    requires FieldReads.Inner(first) || forall i :: 0 <= i < |rest| ==> FieldReads.Inner(rest[i])
    ensures Content(Join(FieldReads.Fenced(inside), '\n') + "\n" + body) == Split(body, '\n')
    ensures Content(Join([first] + rest, '\n')) == [first] + rest
  {
    var top := FieldReads.Fenced(inside);
    FieldReads.FencedLines(inside);
    SplitJoin(top, '\n');
    SplitAt(Join(top, '\n'), body, '\n');
    forall i | 0 <= i < |inside| ensures !Frontmatter.IsFence(inside[i], IsBlank) {
      FieldReads.FenceIff(inside[i]);
    }
    FieldReads.FencedCloses(top + Split(body, '\n'), inside, Split(body, '\n'), IsBlank);
    SplitJoin([first] + rest, '\n');
    forall i | 0 <= i < |rest| ensures FieldReads.Inner(rest[i]) ==> !Frontmatter.IsFence(rest[i], IsBlank) {
      FieldReads.FenceIff(rest[i]);
    }
    FieldReads.FenceIff(first);
    FieldReads.NeverCloses(first, rest, IsBlank);
  }

  // --------------------------------------------------------------------- formulas

  /** A formula on one line. */
  lemma {:induction false} FormulaReads(letters: Letters, tex: string)
    ensures KindOf(letters, "$$" + tex + "$$") == Single(MathBlock(Trim(tex, IsBlank)))
  {
    var t := "$$" + tex + "$$";
    assert t[0] == '$' && t[1] == '$' && t[|t| - 1] == '$';
    TrimOfTrimmed(t, IsBlank);
    assert t[2..] == tex + "$$" && t[2..|t| - 2] == tex;
    assert t[2..][|tex|..] == "$$";
  }

  /** A text, unless it is empty. */
  function IfAny(s: string): seq<string> {
    if s == "" then [] else [s]
  }

  /** A formula over several lines holds what stands behind the opening dollars, the
      lines in between, and what stands in front of the closing dollars, if nothing
      closes it before. */
  lemma {:induction false} FormulaHolds(letters: Letters, open: string, tex: seq<string>, close: string)
    requires (open == "" || !IsBlank(open[|open| - 1])) && !HasSuffix(open, "$$") && Trimmed(close, IsBlank)
    requires forall i :: 0 <= i < |tex| ==> NotMathEnd(tex[i])
    ensures Blocks(letters, ["$$" + open] + tex + [close + "$$"])
      == [MathBlock(Trim(Join(IfAny(open) + tex + IfAny(close), '\n'), IsBlank))]
  {
    FormulaOpens(letters, open);
    FormulaCloses(close);
    FormulaBlocks(letters, ["$$" + open] + tex + [close + "$$"], open, tex, close);
  }

  lemma {:induction false} FormulaBlocks(letters: Letters, lines: seq<string>, open: string, tex: seq<string>,
                                         close: string)
    requires |lines| == |tex| + 2 && KindOf(letters, lines[0]) == OpenMath(open)
    requires Trim(open, IsBlank) == "" <==> open == ""
    requires lines[1..|tex| + 1] == tex && forall i :: 0 <= i < |tex| ==> NotMathEnd(tex[i])
    requires lines[|tex| + 1] == close + "$$" && !NotMathEnd(close + "$$") && MathRest(close + "$$") == IfAny(close)
    ensures Blocks(letters, lines) == [MathBlock(Trim(Join(IfAny(open) + tex + IfAny(close), '\n'), IsBlank))]
  {
    forall i | 0 <= i < |tex| ensures lines[i + 1] == tex[i] {
      assert lines[1..|tex| + 1][i] == tex[i];
    }
    AllShifted(lines, tex, NotMathEnd);
    RunToClose(lines, NotMathEnd, 1, |tex| + 1);
    FormulaRead(letters, lines, open, tex, close);
    BlocksStep(letters, lines, ReadBlock(letters, lines));
    assert lines[|lines|..] == [];
  }

  lemma {:induction false} FormulaOpens(letters: Letters, open: string)
    requires (open == "" || !IsBlank(open[|open| - 1])) && !HasSuffix(open, "$$")
    ensures KindOf(letters, "$$" + open) == OpenMath(open)
    ensures Trim(open, IsBlank) == "" <==> open == ""
  {
    TrimBehind("$$", open);
    DollarsOpen(letters, "$$" + open, open);
    var a, b := TrimParts(open, IsBlank);
  }

  lemma {:induction false} DollarsOpen(letters: Letters, line: string, open: string)
    requires Bare(line) == line && |line| >= 2 && line[0] == line[1] == '$' && line[2..] == open
    requires !HasSuffix(open, "$$")
    ensures KindOf(letters, line) == OpenMath(open)
  {
  }

  lemma {:induction false} FormulaCloses(close: string)
    requires Trimmed(close, IsBlank)
    ensures !NotMathEnd(close + "$$") && MathRest(close + "$$") == IfAny(close)
  {
    var t := close + "$$";
    assert t[0] == (if close == "" then '$' else close[0]) && t[|t| - 1] == '$';
    TrimOfTrimmed(t, IsBlank);
    TrimOfTrimmed(close, IsBlank);
    assert t[..|t| - 2] == close && t[|t| - 2..] == "$$";
  }

  lemma {:induction false} FormulaRead(letters: Letters, lines: seq<string>, open: string, tex: seq<string>,
                                       close: string)
    requires |lines| == |tex| + 2 && KindOf(letters, lines[0]) == OpenMath(open)
    requires Trim(open, IsBlank) == "" <==> open == ""
    requires lines[1..|tex| + 1] == tex && lines[|tex| + 1] == close + "$$" && MathRest(close + "$$") == IfAny(close)
    requires RunEnd(lines, NotMathEnd, 1) == |tex| + 1
    ensures ReadBlock(letters, lines)
      == Read(MathBlock(Trim(Join(IfAny(open) + tex + IfAny(close), '\n'), IsBlank)), |lines|)
  {
    assert lines[..|lines|] == lines;
    assert MathLines(open, lines) == IfAny(open) + tex + IfAny(close);
  }

  // ------------------------------------------------------------- code and callouts

  /** The language of a fence stands behind its three characters, with or without
      blanks in front of it. */
  lemma {:induction false} FenceLanguage(letters: Letters, pad: string, language: string, tildes: bool)
    requires Only(pad, IsBlank) && language != "" && Trimmed(language, IsBlank)
    ensures KindOf(letters, (if tildes then "~~~" else "```") + (pad + language)) == Fence(tildes, language)
  {
    var head := if tildes then "~~~" else "```";
    assert pad + language + "" == pad + language;
    TrimBehind(head, pad + language);
    TrimCore(pad, language, "", IsBlank);
    FenceOf(letters, head + (pad + language), pad + language, language, tildes);
  }

  lemma {:induction false} FenceOf(letters: Letters, t: string, rest: string, language: string, tildes: bool)
    requires t == (if tildes then "~~~" else "```") + rest && Bare(t) == t && Trim(rest, IsBlank) == language
    ensures KindOf(letters, t) == Fence(tildes, language)
  {
    assert t[3..] == rest && t[0] == if tildes then '~' else '`';
  }

  lemma {:induction false} TildesOpen(letters: Letters, language: string)
    requires Trimmed(language, IsBlank)
    ensures KindOf(letters, "~~~" + language) == Fence(true, language) && !NotTildes("~~~")
  {
    TrimBehind("~~~", language);
    assert ("~~~" + language)[3..] == language;
    TrimOfTrimmed(language, IsBlank);
    TrimOfTrimmed("~~~", IsBlank);
  }

  /** A fence of tildes holds exactly its lines, if none of them starts with three
      tildes; a line of backticks does not close it. */
  lemma {:induction false} TildesHold(letters: Letters, language: string, code: seq<string>)
    requires Trimmed(language, IsBlank) && forall i :: 0 <= i < |code| ==> NotTildes(code[i])
    ensures Blocks(letters, ["~~~" + language] + code + ["~~~"]) == [CodeOf(letters, language, Join(code, '\n'))]
  {
    var lines, n := ["~~~" + language] + code + ["~~~"], |code|;
    TildesOpen(letters, language);
    assert lines[n + 1] == "~~~" && lines[1..n + 1] == code;
    forall i | 0 <= i < n ensures lines[i + 1] == code[i] {
    }
    AllShifted(lines, code, NotTildes);
    RunToClose(lines, NotTildes, 1, n + 1);
    TildesRead(letters, lines, language, code);
    assert lines[|lines|..] == [];
    BlocksStep(letters, lines, Read(CodeOf(letters, language, Join(code, '\n')), |lines|));
  }

  lemma {:induction false} TildesRead(letters: Letters, lines: seq<string>, language: string, code: seq<string>)
    requires |lines| == |code| + 2 && lines[1..|code| + 1] == code
    requires KindOf(letters, lines[0]) == Fence(true, language) && RunEnd(lines, NotTildes, 1) == |code| + 1
    ensures ReadBlock(letters, lines) == Read(CodeOf(letters, language, Join(code, '\n')), |lines|)
  {
    assert lines[..|lines|] == lines;
  }

  /** Diagrams and embedded bases are fences with a language of their own. */
  lemma {:induction false} CodeKinds(letters: Letters, language: string, code: string)
    ensures var lower := letters.lower(language);
      CodeOf(letters, language, code)
        == if lower == "mermaid" then Mermaid(code)
           else if lower in {"base", "symdesk-base"} then BaseEmbed(code)
           else CodeBlock(language, code)
  {
  }

  /** A quote is a callout when its first line names a kind in brackets: the kind in
      small letters, an optional fold sign, and the title or the kind itself. */
  lemma {:induction false} CalloutReads(letters: Letters, kind: string, fold: string, title: string, rest: seq<string>)
    requires ']' !in kind && kind != "" && fold in {"", "-", "+"} && Trimmed(title, IsBlank)
    requires var k := letters.lower(kind);
      k != "" && Trimmed(k, IsBlank) && forall i :: 0 <= i < |k| ==> IsKindChar(letters, k[i])
    ensures QuoteOrCallout(letters, ["[!" + kind + "]" + fold + (if title == "" then "" else " " + title)] + rest)
      == var k := letters.lower(kind); Callout(k, if title == "" then letters.capital(k) else title, rest)
  {
    var tail := if title == "" then "" else " " + title;
    CalloutTyped("[!" + kind + "]" + fold + tail, kind, fold, tail, title);
    TitleOf(title, tail);
    CalloutFrom(letters, "[!" + kind + "]" + fold + tail, kind, letters.lower(kind), tail, title, rest);
  }

  /** The parts of a callout's first line. */
  ghost predicate CalloutParts(t: string, n: nat, kind: string, tail: string) {
    && Bare(t) == t && "[!" <= t && n + 3 <= |t| && n > 0 && Lead(t[2..], NotClose) == n && t[2..2 + n] == kind
    && var after := t[n + 3..];
       (if |after| > 0 && (after[0] == '-' || after[0] == '+') then after[1..] else after) == tail
  }

  lemma {:induction false} CalloutTyped(t: string, kind: string, fold: string, tail: string, title: string)
    requires t == "[!" + kind + "]" + fold + tail && tail == if title == "" then "" else " " + title
    requires ']' !in kind && kind != "" && fold in {"", "-", "+"} && Trimmed(title, IsBlank)
    ensures CalloutParts(t, |kind|, kind, tail)
  {
    CalloutLine(t, kind, fold, tail, title);
    HeadOf(t, kind, fold, tail);
    FoldOff(t[|kind| + 3..], fold, tail);
  }

  lemma {:induction false} CalloutFrom(letters: Letters, t: string, kind: string, k: string, tail: string,
                                       title: string, rest: seq<string>)
    requires CalloutParts(t, |kind|, kind, tail) && k == letters.lower(kind) && Trim(tail, IsBlank) == title
    requires k != "" && Trimmed(k, IsBlank) && forall i :: 0 <= i < |k| ==> IsKindChar(letters, k[i])
    ensures QuoteOrCallout(letters, [t] + rest) == Callout(k, if title == "" then letters.capital(k) else title, rest)
  {
    TrimOfTrimmed(k, IsBlank);
    CalloutOf(letters, t, |kind|, k, tail, title);
    CalloutBlock(letters, t, rest, k, if title == "" then letters.capital(k) else title);
  }

  lemma {:induction false} CalloutBlock(letters: Letters, t: string, rest: seq<string>, k: string, title: string)
    requires ParseCallout(letters, t) == Some((k, title))
    ensures QuoteOrCallout(letters, [t] + rest) == Callout(k, title, rest)
  {
    assert ([t] + rest)[1..] == rest;
  }

  lemma {:induction false} CalloutLine(t: string, kind: string, fold: string, tail: string, title: string)
    requires t == "[!" + kind + "]" + fold + tail && fold in {"", "-", "+"} && Trimmed(title, IsBlank)
    requires tail == if title == "" then "" else " " + title
    ensures Bare(t) == t
  {
    assert t[0] == '[' && !IsBlank(t[|t| - 1]);
    TrimOfTrimmed(t, IsBlank);
  }

  lemma {:induction false} FoldOff(after: string, fold: string, tail: string)
    requires after == fold + tail && fold in {"", "-", "+"} && (tail == "" || tail[0] == ' ')
    ensures (if |after| > 0 && (after[0] == '-' || after[0] == '+') then after[1..] else after) == tail
  {
    if fold == "" {
      assert after == tail;
    } else {
      assert (fold + tail)[1..] == tail;
    }
  }

  lemma {:induction false} HeadOf(t: string, kind: string, fold: string, tail: string)
    requires t == "[!" + kind + "]" + fold + tail && ']' !in kind
    ensures Lead(t[2..], NotClose) == |kind| && t[2..2 + |kind|] == kind && t[|kind| + 3..] == fold + tail
    ensures "[!" <= t && |kind| + 3 <= |t|
  {
    var s := t[2..];
    assert s == kind + ("]" + fold + tail);
    assert s[..|kind|] == kind && s[|kind|] == ']';
    LeadUnique(s, NotClose, |kind|);
  }

  lemma {:induction false} TitleOf(title: string, tail: string)
    requires Trimmed(title, IsBlank) && tail == if title == "" then "" else " " + title
    ensures Trim(tail, IsBlank) == title
  {
    if title == "" {
      TrimAll("", IsBlank);
    } else {
      assert tail == " " + title + "";
      TrimCore(" ", title, "", IsBlank);
    }
  }

  lemma {:induction false} CalloutOf(letters: Letters, t: string, n: nat, kind: string, tail: string, title: string)
    requires Bare(t) == t && "[!" <= t && n + 3 <= |t| && n > 0 && Lead(t[2..], NotClose) == n
    requires Trim(letters.lower(t[2..2 + n]), IsBlank) == kind && kind != ""
    requires forall i :: 0 <= i < |kind| ==> IsKindChar(letters, kind[i])
    requires var after := t[n + 3..];
      (if |after| > 0 && (after[0] == '-' || after[0] == '+') then after[1..] else after) == tail
    requires Trim(tail, IsBlank) == title
    ensures ParseCallout(letters, t) == Some((kind, if title == "" then letters.capital(kind) else title))
  {
  }

  /** A quote whose first line does not start so stays a quote. */
  lemma {:induction false} NoCallout(letters: Letters, texts: seq<string>)
    requires |texts| > 0 && !("[!" <= Bare(texts[0]))
    ensures QuoteOrCallout(letters, texts) == Quote(texts)
  {
  }

  // -------------------------------------------------------------------- paragraphs

  lemma {:induction false} BreaksAfter(letters: Letters, line: string, t: string)
    requires t == Bare(line) && |t| > 0 && t[0] != '#'
    requires !("```" <= t) && !("~~~" <= t) && !("$$" <= t) && ParseEmbed(t).None? && ParseHeading(t).None?
    ensures Breaks(letters, line)
      <==> t[0] == '>' || ParseListItem(letters, line).Some? || (t[0] == '|' && t[|t| - 1] == '|')
  {
  }

  lemma {:induction false} RuleIsNoItem(letters: Letters, line: string, t: string)
    requires Sane(letters) && t == Bare(line) && t in {"---", "***", "___"}
    ensures ParseListItem(letters, line).None?
  {
    assert |t| == 3 && t[1] == t[0] && t[0] in "-*_";
    assert !letters.isNumber(t[0]);
  }

  /** Which lines end a paragraph before them: those that start another block, but for
      rules and fences of tildes, and every line that starts with a hash. */
  lemma {:induction false} BreaksIff(letters: Letters, line: string)
    requires Sane(letters)
    ensures Breaks(letters, line) <==>
      var kind := KindOf(letters, line);
      "#" <= Bare(line) || (kind != Plain && kind != Single(Rule) && !(kind.Fence? && kind.tildes))
  {
    var t := Bare(line);
    if |t| == 0 {
    } else if t[0] in "`~$!#" {
      SpecialBreaks(letters, line, t);
    } else {
      PlainStart(line, t);
      KindAfter(letters, line, t);
      BreaksAfter(letters, line, t);
      if t in {"---", "***", "___"} {
        RuleIsNoItem(letters, line, t);
      }
    }
  }

  lemma {:induction false} SpecialBreaks(letters: Letters, line: string, t: string)
    requires Sane(letters) && t == Bare(line) && |t| > 0 && t[0] in "`~$!#"
    ensures Breaks(letters, line) <==>
      var kind := KindOf(letters, line);
      "#" <= t || (kind != Plain && kind != Single(Rule) && !(kind.Fence? && kind.tildes))
  {
    assert !letters.isNumber(t[0]);
    assert ParseListItem(letters, line).None?;
    if t[0] == '#' {
      assert "#" <= t;
    } else {
      BareTwice(line);
      assert ParseHeading(t).None?;
    }
  }

  /** Lines of plain text are one paragraph, joined with spaces. */
  lemma {:induction false} ParagraphHolds(letters: Letters, lines: seq<string>)
    requires |lines| > 0 && forall i :: 0 <= i < |lines| ==> !Breaks(letters, lines[i])
    requires KindOf(letters, lines[0]) == Plain
    ensures Blocks(letters, lines) == [Paragraph(Join(Mapped(lines, Bare), ' '))]
  {
    RunToEnd(lines, Goes(letters), 0);
    assert lines[..|lines|] == lines && lines[|lines|..] == [];
    assert ReadBlock(letters, lines) == Read(Paragraph(Join(Mapped(lines, Bare), ' ')), |lines|);
    BlocksStep(letters, lines, Read(Paragraph(Join(Mapped(lines, Bare), ' ')), |lines|));
  }

  // ------------------------------------------------------------------------ tables

  lemma {:induction false} RowsOfPlain(lines: seq<string>)
    requires forall i :: 0 <= i < |lines| ==> !MarkdownTable.IsSeparatorLine(lines[i])
    ensures Rows(lines) == MarkdownTable.SplitRows(lines)
  {
    if |lines| > 0 {
      RowsOfPlain(lines[1..]);
      assert MarkdownTable.SplitRows(lines)
        == [MarkdownTable.SplitRow(lines[0])] + MarkdownTable.SplitRows(lines[1..]);
    }
  }

  lemma {:induction false} PipeKind(letters: Letters, line: string)
    requires Sane(letters) && |line| > 1 && line[0] == '|' && line[|line| - 1] == '|'
    ensures KindOf(letters, line) == Piped && IsPipeLine(line) && Bare(line) == line
  {
    TrimOfTrimmed(line, IsBlank);
    PlainStart(line, line);
    KindAfter(letters, line, line);
    NoItem(letters, line, line);
  }

  lemma {:induction false} NoItem(letters: Letters, line: string, t: string)
    requires Sane(letters) && t == Bare(line) && |t| > 0 && t[0] in "~_>|"
    ensures ParseListItem(letters, line).None?
  {
    assert !letters.isNumber(t[0]);
  }

  /** A printed table is shown with its header and its rows, filled up, if none of them
      reads as a separator line. */
  lemma {:induction false} PrintedTableShows(letters: Letters, t: MarkdownTable.Table)
    requires Sane(letters) && MarkdownTable.Clean(t)
    requires !MarkdownTable.SeparatorLike(t.header)
    requires forall k :: 0 <= k < |t.rows| ==> !MarkdownTable.SeparatorLike(t.rows[k])
    ensures var n := MarkdownTable.ColumnCount(t);
      Blocks(letters, MarkdownTable.PrintedLines(t))
        == [Table([MarkdownTable.FilledRow(t.header, n)] + MarkdownTable.FilledRows(t.rows, n))]
  {
    var lines := MarkdownTable.PrintedLines(t);
    PrintedPipes(t);
    forall i | 0 <= i < |lines| ensures IsPipeLine(lines[i]) && Bare(lines[i]) == lines[i] {
      PipeKind(letters, lines[i]);
    }
    PipeKind(letters, lines[0]);
    assert Mapped(lines, Bare) == lines;
    PrintedRows(t, lines);
    TableBlocks(letters, lines, Rows(lines));
  }

  lemma {:induction false} TableBlocks(letters: Letters, lines: seq<string>, rows: seq<seq<string>>)
    requires |lines| > 0 && KindOf(letters, lines[0]) == Piped && Mapped(lines, Bare) == lines && rows == Rows(lines)
    requires forall i :: 0 <= i < |lines| ==> IsPipeLine(lines[i])
    ensures Blocks(letters, lines) == [Table(rows)]
  {
    RunToEnd(lines, IsPipeLine, 0);
    assert lines[..|lines|] == lines && lines[|lines|..] == [];
    assert ReadBlock(letters, lines) == Read(Table(rows), |lines|);
    BlocksStep(letters, lines, Read(Table(rows), |lines|));
  }

  lemma {:induction false} PrintedPipes(t: MarkdownTable.Table)
    requires MarkdownTable.Clean(t)
    ensures var lines := MarkdownTable.PrintedLines(t);
      forall i :: 0 <= i < |lines| ==> |lines[i]| > 1 && lines[i][0] == '|' && lines[i][|lines[i]| - 1] == '|'
  {
    var lines := MarkdownTable.PrintedLines(t);
    forall i | 0 <= i < |lines| ensures |lines[i]| > 1 && lines[i][0] == '|' && lines[i][|lines[i]| - 1] == '|' {
      var cells := if i == 0 then MarkdownTable.PaddedCells(t, t.header)
                   else if i == 1 then MarkdownTable.SeparatorCells(t)
                   else MarkdownTable.PaddedCells(t, t.rows[i - 2]);
      assert lines[i] == MarkdownTable.Framed(cells);
    }
  }

  lemma {:induction false} PrintedRows(t: MarkdownTable.Table, lines: seq<string>)
    requires MarkdownTable.Clean(t) && lines == MarkdownTable.PrintedLines(t)
    requires !MarkdownTable.SeparatorLike(t.header)
    requires forall k :: 0 <= k < |t.rows| ==> !MarkdownTable.SeparatorLike(t.rows[k])
    ensures var n := MarkdownTable.ColumnCount(t);
      Rows(lines) == [MarkdownTable.FilledRow(t.header, n)] + MarkdownTable.FilledRows(t.rows, n)
  {
    var n, data := MarkdownTable.ColumnCount(t), MarkdownTable.RowLines(t, t.rows);
    MarkdownTable.RowSeparatorIff(t, t.header);
    MarkdownTable.RowLineSplits(t, t.header);
    MarkdownTable.SeparatorLineIsOne(t);
    DataRows(t, data);
    HeadAndRuler(lines, data, MarkdownTable.FilledRow(t.header, n), MarkdownTable.FilledRows(t.rows, n));
  }

  lemma {:induction false} DataRows(t: MarkdownTable.Table, data: seq<string>)
    requires MarkdownTable.Clean(t) && data == MarkdownTable.RowLines(t, t.rows)
    requires forall k :: 0 <= k < |t.rows| ==> !MarkdownTable.SeparatorLike(t.rows[k])
    ensures Rows(data) == MarkdownTable.FilledRows(t.rows, MarkdownTable.ColumnCount(t))
  {
    forall k | 0 <= k < |data|
      ensures !MarkdownTable.IsSeparatorLine(data[k])
      ensures MarkdownTable.SplitRow(data[k]) == MarkdownTable.FilledRow(t.rows[k], MarkdownTable.ColumnCount(t))
    {
      MarkdownTable.RowSeparatorIff(t, t.rows[k]);
      MarkdownTable.RowLineSplits(t, t.rows[k]);
    }
    RowsOfPlain(data);
  }

  lemma {:induction false} HeadAndRuler(lines: seq<string>, data: seq<string>, head: seq<string>,
                                        rows: seq<seq<string>>)
    requires |lines| == |data| + 2 && lines[2..] == data && Rows(data) == rows
    requires !MarkdownTable.IsSeparatorLine(lines[0]) && MarkdownTable.SplitRow(lines[0]) == head
    requires MarkdownTable.IsSeparatorLine(lines[1])
    ensures Rows(lines) == [head] + rows
  {
    assert lines[1..][1..] == data && lines[1..][0] == lines[1];
    assert [] + rows == rows;
  }
}
