/** Which texts make which blocks: fences, headings and quotes as a writer types
    them, and what comes out. */
module PreviewShapes {
  import opened Text
  import opened PreviewBlocks

  // ----------------------------------------------------------------- headings

  function Hashes(n: nat): string {
    seq(n, _ => '#')
  }

  lemma {:induction false} TrimBehind(head: string, text: string)
    requires |head| > 0 && !IsBlank(head[0])
    requires text != "" ==> !IsBlank(text[|text| - 1])
    requires text == "" ==> !IsBlank(head[|head| - 1])
    ensures Bare(head + text) == head + text
  {
    var s := head + text;
    assert s[0] == head[0];
    assert s[|s| - 1] == if text == "" then head[|head| - 1] else text[|text| - 1];
    TrimOfTrimmed(s, IsBlank);
  }

  lemma {:induction false} HashesLead(n: nat, rest: string)
    requires rest != "" ==> rest[0] != '#'
    ensures Lead(Hashes(n) + rest, IsHash) == n
  {
    var s := Hashes(n) + rest;
    assert s[..n] == Hashes(n);
    LeadUnique(s, IsHash, n);
  }

  /** Hashes, a space and a text are a heading of that level exactly up to six
      hashes; with more of them the line is a paragraph. */
  lemma {:induction false} HeadingIff(letters: Letters, n: nat, text: string)
    requires n > 0 && text != "" && Trimmed(text, IsBlank) && !letters.isNumber('#')
    ensures KindOf(letters, Hashes(n) + " " + text) == if n <= 6 then Single(Heading(n, text)) else Plain
  {
    var line := Hashes(n) + " " + text;
    assert Hashes(n) + " " + text == Hashes(n) + (" " + text);
    TrimBehind(Hashes(n) + " ", text);
    HashesLead(n, " " + text);
    assert line[0] == '#' && line[n] == ' ' && line[n..] == " " + text;
    assert " " + text + "" == " " + text;
    TrimCore(" ", text, "", IsBlank);
    HashKind(letters, line);
  }

  /** Hashes alone are an empty heading, up to six of them. */
  lemma {:induction false} LoneHashes(letters: Letters, n: nat)
    requires n > 0 && !letters.isNumber('#')
    ensures KindOf(letters, Hashes(n)) == if n <= 6 then Single(Heading(n, "")) else Plain
  {
    var line := Hashes(n);
    HashesLead(n, "");
    assert Hashes(n) + "" == line && line[n..] == "" && line[0] == '#';
    TrimBehind(line, "");
    assert line + "" == line;
    TrimAll("", IsBlank);
    HashKind(letters, line);
  }

  /** What a line that starts with a hash can be. */
  lemma {:induction false} HashKind(letters: Letters, line: string)
    requires |line| > 0 && line[0] == '#' && Bare(line) == line && !letters.isNumber('#')
    ensures KindOf(letters, line)
      == if ParseHeading(line).Some? then Single(ParseHeading(line).value) else Plain
  {
    NoListItem(letters, line);
    assert line != "---" && line != "***" && line != "___";
    assert ParseEmbed(line).None?;
  }

  lemma {:induction false} NoListItem(letters: Letters, line: string)
    requires |line| > 0 && line[0] == '#' && Bare(line) == line && !letters.isNumber('#')
    ensures ParseListItem(letters, line).None?
  {
    var dot := Lead(line, NotDot);
    if 0 < dot < |line| - 1 {
      assert !letters.isNumber(line[0]);
    }
  }

  // ------------------------------------------------------------------- fences

  /** A fenced text as it is typed. */
  function Fenced(language: string, code: seq<string>): seq<string> {
    ["```" + language] + code + ["```"]
  }

  lemma {:induction false} FenceKind(letters: Letters, language: string)
    requires Trimmed(language, IsBlank)
    ensures KindOf(letters, "```" + language) == Fence(false, language)
  {
    TrimBehind("```", language);
    assert ("```" + language)[3..] == language;
    TrimOfTrimmed(language, IsBlank);
  }

  lemma {:induction false} ClosingFence()
    ensures !NotBackticks("```")
  {
    TrimOfTrimmed("```", IsBlank);
  }

  lemma {:induction false} RunToClose(lines: seq<string>, p: string -> bool, i: nat, close: nat)
    requires i <= close < |lines| && !p(lines[close])
    ensures RunEnd(lines, p, i) <= close
    ensures RunEnd(lines, p, i) == close <==> forall k :: i <= k < close ==> p(lines[k])
    decreases close - i
  {
    if i < close && p(lines[i]) {
      RunToClose(lines, p, i + 1, close);
    }
  }

  /** A fenced text is one block that holds exactly its lines, when and only when
      none of them would close the fence. */
  lemma {:induction false} FenceHolds(letters: Letters, language: string, code: seq<string>)
    requires Trimmed(language, IsBlank)
    ensures Blocks(letters, Fenced(language, code)) == [CodeOf(letters, language, Join(code, '\n'))]
      <== forall i :: 0 <= i < |code| ==> NotBackticks(code[i])
    ensures |Blocks(letters, Fenced(language, code))| == 1
      <==> forall i :: 0 <= i < |code| ==> NotBackticks(code[i])
  {
    var lines, n := Fenced(language, code), |code|;
    FenceKind(letters, language);
    ClosingFence();
    assert lines[0] == "```" + language && lines[n + 1] == "```" && lines[1..n + 1] == code;
    RunToClose(lines, NotBackticks, 1, n + 1);
    forall i | 0 <= i < n ensures lines[i + 1] == code[i] {
    }
    AllShifted(lines, code, NotBackticks);
    FenceBlocks(letters, language, code, lines);
  }

  lemma {:induction false} AllShifted(lines: seq<string>, code: seq<string>, p: string -> bool)
    requires |lines| == |code| + 2 && forall i :: 0 <= i < |code| ==> lines[i + 1] == code[i]
    ensures (forall k :: 1 <= k < |code| + 1 ==> p(lines[k])) <==> forall i :: 0 <= i < |code| ==> p(code[i])
  {
    if forall k :: 1 <= k < |code| + 1 ==> p(lines[k]) {
      forall i | 0 <= i < |code| ensures p(code[i]) {
        assert p(lines[i + 1]);
      }
    }
    forall k | 1 <= k < |code| + 1 ensures lines[k] == code[k - 1] {
      assert lines[(k - 1) + 1] == code[k - 1];
    }
  }

  lemma {:induction false} FenceBlocks(letters: Letters, language: string, code: seq<string>, lines: seq<string>)
    requires |lines| == |code| + 2 && lines[1..|code| + 1] == code
    requires KindOf(letters, lines[0]) == Fence(false, language)
    requires RunEnd(lines, NotBackticks, 1) <= |code| + 1
    ensures if RunEnd(lines, NotBackticks, 1) == |code| + 1
            then Blocks(letters, lines) == [CodeOf(letters, language, Join(code, '\n'))]
            else |Blocks(letters, lines)| > 1
  {
    var j := RunEnd(lines, NotBackticks, 1);
    var r := ReadBlock(letters, lines);
    BlocksStep(letters, lines, r);
    FenceUsed(letters, language, lines, j);
    if j == |code| + 1 {
      assert lines[..|lines|] == lines && lines[|lines|..] == [];
    } else {
      var rest := lines[r.used..];
      BlocksStep(letters, rest, ReadBlock(letters, rest));
    }
  }

  lemma {:induction false} FenceUsed(letters: Letters, language: string, lines: seq<string>, j: nat)
    requires |lines| > 0 && KindOf(letters, lines[0]) == Fence(false, language)
    requires j == RunEnd(lines, NotBackticks, 1) && j < |lines|
    ensures ReadBlock(letters, lines) == Read(CodeOf(letters, language, Join(lines[1..j], '\n')), j + 1)
  {
    RunEndCut(lines, NotBackticks, 1, j + 1);
    assert lines[..j + 1][1..j] == lines[1..j];
  }

  // ------------------------------------------------------------------- quotes

  function QuoteLine(text: string): string {
    "> " + text
  }

  lemma {:induction false} QuoteReads(text: string)
    requires text != "" ==> !IsBlank(text[|text| - 1])
    ensures IsQuoteLine(QuoteLine(text)) && QuoteText(QuoteLine(text)) == text
  {
    if text == "" {
      assert "" + ">" + " " == "> " && QuoteLine(text) == "> ";
      TrimCore("", ">", " ", IsBlank);
    } else {
      TrimBehind("> ", text);
      assert QuoteLine(text)[2..] == text;
    }
  }

  lemma {:induction false} QuoteKind(letters: Letters, text: string)
    requires text != "" ==> !IsBlank(text[|text| - 1])
    ensures KindOf(letters, QuoteLine(text)) == Quoted
  {
    QuoteReads(text);
    AngleKind(letters, QuoteLine(text));
  }

  lemma {:induction false} BareTwice(line: string)
    ensures Bare(Bare(line)) == Bare(line)
  {
    var a, b := TrimParts(line, IsBlank);
    TrimOfTrimmed(Bare(line), IsBlank);
  }

  lemma {:induction false} AngleKind(letters: Letters, line: string)
    requires IsQuoteLine(line)
    ensures KindOf(letters, line) == Quoted
  {
    BareTwice(line);
    AngleIsNothingElse(Bare(line));
    OnlyQuoted(letters, line, Bare(line));
  }

  lemma {:induction false} AngleIsNothingElse(t: string)
    requires |t| > 0 && t[0] == '>' && Bare(t) == t
    ensures ParseHeading(t).None? && ParseEmbed(t).None?
  {
  }

  lemma {:induction false} OnlyQuoted(letters: Letters, line: string, t: string)
    requires t == Bare(line) && |t| > 0 && t[0] == '>' && ParseHeading(t) == None && ParseEmbed(t) == None
    ensures KindOf(letters, line) == Quoted
  {
  }

  lemma {:induction false} RunToEnd(lines: seq<string>, p: string -> bool, i: nat)
    requires i <= |lines| && forall k :: i <= k < |lines| ==> p(lines[k])
    ensures RunEnd(lines, p, i) == |lines|
    decreases |lines| - i
  {
    if i < |lines| {
      RunToEnd(lines, p, i + 1);
    }
  }

  /** Quoted lines are one quote or callout that holds exactly their texts. */
  lemma {:induction false} QuoteHolds(letters: Letters, texts: seq<string>)
    requires |texts| > 0 && forall i :: 0 <= i < |texts| && texts[i] != "" ==> !IsBlank(texts[i][|texts[i]| - 1])
    ensures Blocks(letters, Mapped(texts, QuoteLine)) == [QuoteOrCallout(letters, texts)]
  {
    var lines := Mapped(texts, QuoteLine);
    forall i | 0 <= i < |texts| ensures IsQuoteLine(lines[i]) && QuoteText(lines[i]) == texts[i] {
      QuoteReads(texts[i]);
    }
    assert Mapped(lines, QuoteText) == texts;
    QuoteKind(letters, texts[0]);
    RunToEnd(lines, IsQuoteLine, 0);
    QuoteRead(letters, lines, texts);
    BlocksStep(letters, lines, Read(QuoteOrCallout(letters, texts), |lines|));
  }

  lemma {:induction false} QuoteRead(letters: Letters, lines: seq<string>, texts: seq<string>)
    requires |lines| > 0 && KindOf(letters, lines[0]) == Quoted && RunEnd(lines, IsQuoteLine, 0) == |lines|
    requires texts == Mapped(lines, QuoteText)
    ensures ReadBlock(letters, lines) == Read(QuoteOrCallout(letters, texts), |lines|)
    ensures Blocks(letters, lines[|lines|..]) == []
  {
    assert lines[..|lines|] == lines && lines[|lines|..] == [];
  }

}
