/** The file a new note starts from, and how much of it the parser reads back. */
module NewNote {
  import opened Text
  import opened Frontmatter
  import opened FrontmatterLists
  import FieldReads
  import opened BodyLens

  function Escaped(s: string): string {
    if |s| == 0 then ""
    else (if s[0] == '\\' then "\\\\" else if s[0] == '\"' then "\\\"" else [s[0]]) + Escaped(s[1..])
  }

  function TitleLine(title: string): string {
    "title: \"" + Escaped(title) + "\""
  }

  function CreatedLine(iso: string): string {
    "created: \"" + iso + "\""
  }

  function Head(title: string, iso: string): seq<string> {
    ["---", TitleLine(title), CreatedLine(iso), "tags: []", "---", ""]
  }

  /** `noteDocument`, for a creation date in ISO form. */
  function NoteDocument(title: string, body: string, iso: string): string {
    Join(Head(title, iso), '\n') + "\n" + body
  }

  /** The title found by the parser; without one it falls back to the file name. */
  function TitleOf(raw: string): Option<string> {
    var values := SplitSource(raw).values;
    if "title" in values then Scalar(values["title"]) else None
  }

  // -------------------------------------------------------------------- escapes

  function CountOf(s: string, c: char): nat {
    if |s| == 0 then 0 else (if s[0] == c then 1 else 0) + CountOf(s[1..], c)
  }

  lemma {:induction false} CountConcat(a: string, b: string, c: char)
    ensures CountOf(a + b, c) == CountOf(a, c) + CountOf(b, c)
  {
    if |a| == 0 {
      assert a + b == b;
    } else {
      TailOfConcat(a, b);
      CountConcat(a[1..], b, c);
    }
  }

  lemma {:induction false} CountNone(s: string, c: char)
    ensures CountOf(s, c) == 0 <==> c !in s
  {
    if |s| > 0 {
      CountNone(s[1..], c);
      assert c in s <==> s[0] == c || c in s[1..];
    }
  }

  lemma {:induction false} CountPair(a: char, b: char, c: char)
    ensures CountOf([a, b], c) == (if a == c then 1 else 0) + if b == c then 1 else 0
  {
    CountConcat([a], [b], c);
    assert [a] + [b] == [a, b];
    assert CountOf([a], c) == if a == c then 1 else 0 by {
      assert [a][1..] == [];
    }
    assert CountOf([b], c) == if b == c then 1 else 0 by {
      assert [b][1..] == [];
    }
  }

  /** Escaping adds one backslash for every backslash and every quote. */
  lemma {:induction false} EscapedBackslashes(s: string)
    ensures CountOf(Escaped(s), '\\') == 2 * CountOf(s, '\\') + CountOf(s, '\"')
  {
    if |s| > 0 {
      EscapedBackslashes(s[1..]);
      var head := if s[0] == '\\' then "\\\\" else if s[0] == '\"' then "\\\"" else [s[0]];
      CountConcat(head, Escaped(s[1..]), '\\');
      CountPair('\\', '\\', '\\');
      CountPair('\\', '\"', '\\');
      assert [s[0]][1..] == [];
    }
  }

  lemma {:induction false} EscapedPlain(s: string)
    requires '\\' !in s && '\"' !in s
    ensures Escaped(s) == s
  {
    if |s| > 0 {
      assert s[0] in s;
      EscapedPlain(s[1..]);
    }
  }

  lemma {:induction false} EscapedChars(s: string, c: char)
    requires c != '\\' && c != '\"'
    ensures c in Escaped(s) <==> c in s
  {
    if |s| > 0 {
      EscapedChars(s[1..], c);
      var head := if s[0] == '\\' then "\\\\" else if s[0] == '\"' then "\\\"" else [s[0]];
      assert Escaped(s) == head + Escaped(s[1..]);
      assert c in head <==> c == s[0];
      assert c in s <==> c == s[0] || c in s[1..];
    }
  }

  /** The escaped title, trimmed, is the title when there was nothing to escape and
      nothing to trim; the parser does not undo escapes. */
  lemma {:induction false} EscapedTrimmed(title: string)
    ensures Trim(Escaped(title), IsWhite) == title
      <==> '\\' !in title && '\"' !in title && Trimmed(title, IsWhite)
  {
    var e := Escaped(title);
    if '\\' !in title && '\"' !in title {
      EscapedPlain(title);
      var a, b := TrimParts(title, IsWhite);
      if Trimmed(title, IsWhite) {
        TrimOfTrimmed(title, IsWhite);
      }
    } else {
      var a, b := TrimParts(e, IsWhite);
      if Trim(e, IsWhite) == title {
        CountConcat(a + title, b, '\\');
        CountConcat(a, title, '\\');
        NoBackslash(a);
        NoBackslash(b);
        EscapedBackslashes(title);
        CountNone(title, '\\');
        CountNone(title, '\"');
      }
    }
  }

  lemma {:induction false} NoBackslash(s: string)
    requires Only(s, IsWhite)
    ensures CountOf(s, '\\') == 0
  {
    CountNone(s, '\\');
  }

  // ------------------------------------------------------------- reading it back

  lemma {:induction false} NotIn(s: string, t: string, u: string, c: char)
    requires c !in s && c !in t && c !in u
    ensures c !in s + t + u
  {
  }

  /** The lines below the title. */
  function Below(iso: string): seq<string> {
    [CreatedLine(iso), "tags: []", "---", ""]
  }

  /** The lines of a new note, from those of its title and its body. */
  function NoteLines(titleLines: seq<string>, iso: string, bodyLines: seq<string>): seq<string> {
    ["---"] + (titleLines + Below(iso)) + bodyLines
  }

  lemma {:induction false} HeadLines(title: string, body: string, iso: string)
    requires '\n' !in iso
    ensures Split(NoteDocument(title, body, iso), '\n')
      == NoteLines(Split(TitleLine(title), '\n'), iso, Split(body, '\n'))
  {
    var head, below, t := Head(title, iso), Below(iso), TitleLine(title);
    NotIn("created: \"", iso, "\"", '\n');
    assert head == ["---", t] + below && ["---", t][1..] == [t];
    JoinAppend(["---", t], below, '\n');
    assert Join(head, '\n') == "---" + "\n" + t + "\n" + Join(below, '\n');
    SplitAt("---" + "\n" + t, Join(below, '\n'), '\n');
    SplitAt("---", t, '\n');
    SplitWhole("---", '\n');
    SplitJoin(below, '\n');
    Assoc(["---"], Split(t, '\n'), below);
    SplitAt(Join(head, '\n'), body, '\n');
  }

  lemma {:induction false} FenceOfFence(p: char -> bool)
    requires !p('-')
    ensures IsFence("---", p)
  {
    TrimOfTrimmed("---", p);
  }

  lemma {:induction false} NotFence(line: string)
    requires |line| > 0 && !IsBlank(line[0]) && !IsBlank(line[|line| - 1])
    requires line[0] != '-' || line[|line| - 1] != '-'
    ensures !IsFence(line, IsBlank)
  {
    TrimOfTrimmed(line, IsBlank);
  }

  /** The frontmatter of a new note closes at its own delimiter, unless a line of
      the title is one. */
  lemma {:induction false} HeadCloses(t: seq<string>, iso: string, rest: seq<string>)
    ensures var r := Closing(NoteLines(t, iso, rest), IsBlank);
      r.Some? && 1 <= r.value <= |t| + 3
      && (r.value == |t| + 3 <==> forall i :: 0 <= i < |t| ==> !IsFence(t[i], IsBlank))
  {
    var lines := NoteLines(t, iso, rest);
    FenceOfFence(IsBlank);
    NotFence(CreatedLine(iso));
    NotFence("tags: []");
    LinesAt(t, iso, rest);
    FirstFenceFound(lines, IsBlank, 1);
    var k := FirstFence(lines, IsBlank, 1);
    if k == Some(|t| + 3) {
      assert forall i :: 0 <= i < |t| ==> t[i] == lines[i + 1];
    }
  }

  lemma {:induction false} LinesAt(t: seq<string>, iso: string, rest: seq<string>)
    ensures var lines := NoteLines(t, iso, rest);
      && |lines| == |t| + 5 + |rest| && lines[0] == "---"
      && (forall i :: 1 <= i <= |t| ==> lines[i] == t[i - 1])
      && lines[|t| + 1] == CreatedLine(iso) && lines[|t| + 2] == "tags: []" && lines[|t| + 3] == "---"
      && lines[|t| + 4..] == [""] + rest
  {
  }

  // ------------------------------------------------------ delimiters in a title

  /** A delimiter has no other characters. */
  lemma {:induction false} FenceChars(s: string, c: char)
    requires c in s && c != '-' && !IsBlank(c)
    ensures !IsFence(s, IsBlank)
  {
    var a, b := TrimParts(s, IsBlank);
  }

  lemma {:induction false} EscapedFence(s: string)
    ensures IsFence(Escaped(s), IsBlank) <==> IsFence(s, IsBlank)
  {
    EscapedBackslashes(s);
    CountNone(s, '\\');
    CountNone(s, '\"');
    CountNone(Escaped(s), '\\');
    if '\\' !in s && '\"' !in s {
      EscapedPlain(s);
    } else {
      FenceChars(s, if '\\' in s then '\\' else '\"');
      FenceChars(Escaped(s), '\\');
    }
  }

  lemma {:induction false} SplitPair(c: char, rest: string)
    requires c != '\n'
    ensures Split(['\\'] + ([c] + rest), '\n')
      == [['\\'] + ([c] + Split(rest, '\n')[0])] + Split(rest, '\n')[1..]
  {
    SplitCons('\\', [c] + rest, '\n');
    SplitCons(c, rest, '\n');
  }

  ghost predicate LineByLine(e: seq<string>, p: seq<string>) {
    |e| == |p| && forall i :: 0 <= i < |p| ==> e[i] == Escaped(p[i])
  }

  lemma {:induction false} OtherHead(e: seq<string>, p: seq<string>, h: string, g: string)
    requires |p| > 0 && LineByLine(e, p) && h == Escaped(g)
    ensures LineByLine([h] + e[1..], [g] + p[1..]) && LineByLine([h] + e, [g] + p)
  {
  }

  /** Escaping works line by line. */
  lemma {:induction false} EscapedLines(s: string)
    ensures LineByLine(Split(Escaped(s), '\n'), Split(s, '\n'))
  {
    if |s| > 0 {
      EscapedLines(s[1..]);
      EscapedLine(s[0], s[1..], Split(Escaped(s[1..]), '\n'), Split(s[1..], '\n'));
      assert s == [s[0]] + s[1..];
    }
  }

  lemma {:induction false} EscapedLine(c: char, s: string, e: seq<string>, p: seq<string>)
    requires e == Split(Escaped(s), '\n') && p == Split(s, '\n') && LineByLine(e, p)
    ensures LineByLine(Split(Escaped([c] + s), '\n'), Split([c] + s, '\n'))
  {
    EscapedHead(c, s);
    EscapedHead(c, p[0]);
    SplitCons(c, s, '\n');
    if c == '\\' || c == '\"' {
      SplitPair(c, Escaped(s));
      OtherHead(e, p, ['\\'] + ([c] + e[0]), [c] + p[0]);
    } else {
      SplitCons(c, Escaped(s), '\n');
      OtherHead(e, p, [c] + e[0], [c] + p[0]);
      OtherHead(e, p, "", "");
    }
  }

  lemma {:induction false} EscapedHead(c: char, s: string)
    ensures Escaped([c] + s) == (if c == '\\' || c == '\"' then ['\\'] + ([c] + Escaped(s)) else [c] + Escaped(s))
  {
    assert ([c] + s)[1..] == s;
  }

  lemma {:induction false} SplitBehind(a: string, s: string)
    requires '\n' !in a
    ensures Split(a + s, '\n') == [a + Split(s, '\n')[0]] + Split(s, '\n')[1..]
  {
    var x := Split(s, '\n');
    if |a| == 0 {
      assert a + s == s && a + x[0] == x[0] && x == [x[0]] + x[1..];
    } else {
      var c, b := a[0], a[1..];
      assert c in a && a + s == [c] + (b + s) && [c] + (b + x[0]) == a + x[0];
      SplitBehind(b, s);
      SplitCons(c, b + s, '\n');
      TailOfConcat([b + x[0]], x[1..]);
      assert [b + x[0]][1..] + x[1..] == x[1..];
    }
  }

  /** A text behind the last line. */
  function Extended(lines: seq<string>, b: string): seq<string>
    requires |lines| > 0
  {
    lines[..|lines| - 1] + [lines[|lines| - 1] + b]
  }

  lemma {:induction false} ExtendedCons(line: string, lines: seq<string>, b: string)
    requires |lines| > 0
    ensures Extended([line] + lines, b) == [line] + Extended(lines, b)
  {
  }

  lemma {:induction false} ExtendedFirst(c: char, lines: seq<string>, b: string)
    requires |lines| > 0
    ensures Extended([[c] + lines[0]] + lines[1..], b)
      == [[c] + Extended(lines, b)[0]] + Extended(lines, b)[1..]
  {
    if |lines| == 1 {
      assert [c] + lines[0] + b == [c] + (lines[0] + b);
    }
  }

  lemma {:induction false} SplitBefore(s: string, b: string)
    requires '\n' !in b
    ensures Split(s + b, '\n') == Extended(Split(s, '\n'), b)
  {
    if |s| == 0 {
      assert s + b == b && Extended([""], b) == [b];
      SplitWhole(b, '\n');
    } else {
      var c, t := s[0], s[1..];
      SplitBefore(t, b);
      assert s == [c] + t && s + b == [c] + (t + b);
      SplitCons(c, t + b, '\n');
      SplitCons(c, t, '\n');
      ExtendedCons("", Split(t, '\n'), b);
      ExtendedFirst(c, Split(t, '\n'), b);
    }
  }

  /** A line of the title that stands between two others. */
  ghost predicate FenceInside(title: string) {
    exists i :: 0 < i < |Split(title, '\n')| - 1 && IsFence(Split(title, '\n')[i], IsBlank)
  }

  lemma {:induction false} TitleLines(title: string)
    ensures var t, e := Split(TitleLine(title), '\n'), Split(Escaped(title), '\n');
      && |t| == |e| && 't' in t[0] && '\"' in t[|t| - 1]
      && forall i :: 0 < i < |t| - 1 ==> t[i] == e[i]
  {
    var a, e := "title: \"", Split(Escaped(title), '\n');
    SplitBehind(a, Escaped(title));
    SplitBefore(a + Escaped(title), "\"");
  }

  lemma {:induction false} InnerOnly(t: seq<string>, p: seq<string>)
    requires |t| == |p| > 0 && !IsFence(t[0], IsBlank) && !IsFence(t[|t| - 1], IsBlank)
    requires forall i :: 0 < i < |t| - 1 ==> (IsFence(t[i], IsBlank) <==> IsFence(p[i], IsBlank))
    ensures (exists i :: 0 < i < |p| - 1 && IsFence(p[i], IsBlank))
      <==> exists i :: 0 <= i < |t| && IsFence(t[i], IsBlank)
  {
  }

  /** Some line of the written title is a delimiter exactly when one of its inner
      lines is: the outer ones carry the key and the quotes. */
  lemma {:induction false} TitleFences(title: string)
    ensures var t := Split(TitleLine(title), '\n');
      FenceInside(title) <==> exists i :: 0 <= i < |t| && IsFence(t[i], IsBlank)
  {
    var t, p := Split(TitleLine(title), '\n'), Split(title, '\n');
    TitleLines(title);
    EscapedLines(title);
    FenceChars(t[0], 't');
    FenceChars(t[|t| - 1], '\"');
    forall i | 0 < i < |t| - 1 ensures IsFence(t[i], IsBlank) <==> IsFence(p[i], IsBlank) {
      EscapedFence(p[i]);
    }
    InnerOnly(t, p);
  }

  /** One `key: value` line. */
  lemma {:induction false} StepKey(f: Fields, key: string, value: string)
    requires f.active.None? && key != "" && value != "" && Trimmed(value, IsBlank)
    requires forall i :: 0 <= i < |key| ==> 'a' <= key[i] <= 'z'
    ensures Step(f, key + ": " + value) == Fields(f.values[key := value], f.lists, None)
  {
    FieldReads.KeyLine(f, "", key, "", " ", value, "");
    assert ("" + key + "") + ":" + (" " + value + "") == key + ": " + value;
  }

  lemma {:induction false} TitleStep(title: string)
    ensures Step(NO_FIELDS, TitleLine(title)) == Fields(map["title" := "\"" + Escaped(title) + "\""], map[], None)
  {
    var t := "\"" + Escaped(title) + "\"";
    assert TitleLine(title) == "title" + ": " + t;
    StepKey(NO_FIELDS, "title", t);
  }

  lemma {:induction false} CreatedStep(f: Fields, iso: string)
    requires f.active.None?
    ensures Step(f, CreatedLine(iso)) == f.(values := f.values["created" := "\"" + iso + "\""])
  {
    var c := "\"" + iso + "\"";
    assert CreatedLine(iso) == "created" + ": " + c;
    StepKey(f, "created", c);
  }

  lemma {:induction false} TagsStep(f: Fields)
    requires f.active.None?
    ensures Step(f, "tags: []") == f.(values := f.values["tags" := "[]"])
  {
    assert "tags: []" == "tags" + ": " + "[]";
    StepKey(f, "tags", "[]");
  }

  lemma {:induction false} FieldsOfThree(a: string, b: string, c: string)
    ensures FieldsOf([a, b, c]) == Step(Step(Step(NO_FIELDS, a), b), c)
  {
    FieldsNext([], a);
    FieldsNext([a], b);
    FieldsNext([a, b], c);
    assert [] + [a] == [a] && [a] + [b] == [a, b] && [a, b] + [c] == [a, b, c];
  }

  lemma {:induction false} HeadFields(title: string, iso: string)
    ensures var f := FieldsOf([TitleLine(title), CreatedLine(iso), "tags: []"]);
      && f.values == map["title" := "\"" + Escaped(title) + "\""]["created" := "\"" + iso + "\""]["tags" := "[]"]
      && f.lists == map[]
  {
    FieldsOfThree(TitleLine(title), CreatedLine(iso), "tags: []");
    TitleStep(title);
    var f := Step(NO_FIELDS, TitleLine(title));
    CreatedStep(f, iso);
    TagsStep(Step(f, CreatedLine(iso)));
  }

  lemma {:induction false} ScalarOfQuoted(s: string)
    ensures Scalar("\"" + s + "\"") == Some(Trim(s, IsWhite))
  {
    var q := "\"" + s + "\"";
    assert q[0] == '\"' && q[|q| - 1] == '\"' && q[1..|q| - 1] == s;
    TrimOfTrimmed(q, IsWhite);
  }

  // --------------------------------------------------------- titles with line breaks

  lemma {:induction false} StepNoNewline(f: Fields, line: string)
    requires '\n' !in line && forall k :: k in f.values ==> '\n' !in f.values[k]
    ensures forall k :: k in Step(f, line).values ==> '\n' !in Step(f, line).values[k]
  {
    var colon := Lead(line, NotColon);
    if colon < |line| {
      var a, b := TrimParts(line[colon + 1..], IsBlank);
    }
  }

  lemma {:induction false} FieldsNoNewline(lines: seq<string>)
    requires forall i :: 0 <= i < |lines| ==> '\n' !in lines[i]
    ensures forall k :: k in FieldsOf(lines).values ==> '\n' !in FieldsOf(lines).values[k]
  {
    if |lines| > 0 {
      FieldsNoNewline(lines[..|lines| - 1]);
      StepNoNewline(FieldsOf(lines[..|lines| - 1]), lines[|lines| - 1]);
    }
  }

  lemma {:induction false} ScalarNoNewline(raw: string)
    requires '\n' !in raw
    ensures Scalar(raw).Some? ==> '\n' !in Scalar(raw).value
  {
    var a, b := TrimParts(raw, IsWhite);
    var value := Trim(raw, IsWhite);
    if |value| >= 2 {
      var c, d := TrimParts(value[1..|value| - 1], IsWhite);
    }
  }

  /** A parsed title never has a line break, whatever the file. */
  lemma {:induction false} TitleNoNewline(raw: string)
    ensures TitleOf(raw).Some? ==> '\n' !in TitleOf(raw).value
  {
    var lines := Split(PlainBreaks(raw), '\n');
    SplitPieces(PlainBreaks(raw), '\n');
    var end := Closing(lines, IsBlank);
    if end.Some? {
      ClosingIs(lines, IsBlank);
      FieldsNoNewline(lines[1..end.value]);
      if TitleOf(raw).Some? {
        ScalarNoNewline(SplitSource(raw).values["title"]);
      }
    }
  }

  // ----------------------------------------------------------------- the round trip

  /** The fields of a new note whose title is one line. */
  lemma {:induction false} NoteRead(title: string, body: string, iso: string)
    requires '\n' !in title && '\n' !in iso
    requires '\r' !in title && '\r' !in iso && '\r' !in body
    ensures var p := SplitSource(NoteDocument(title, body, iso));
      var f := FieldsOf([TitleLine(title), CreatedLine(iso), "tags: []"]);
      p.values == f.values && p.lists == f.lists
  {
    NoteReturns(title, body, iso);
    HeadLines(title, body, iso);
    EscapedChars(title, '\n');
    NotIn("title: \"", Escaped(title), "\"", '\n');
    SplitWhole(TitleLine(title), '\n');
    NotFence(TitleLine(title));
    LinesRead(NoteDocument(title, body, iso), TitleLine(title), iso, Split(body, '\n'));
  }

  lemma {:induction false} LinesRead(raw: string, t: string, iso: string, rest: seq<string>)
    requires '\r' !in raw && Split(raw, '\n') == NoteLines([t], iso, rest) && !IsFence(t, IsBlank)
    ensures var f := FieldsOf([t, CreatedLine(iso), "tags: []"]);
      SplitSource(raw).values == f.values && SplitSource(raw).lists == f.lists
  {
    var lines := NoteLines([t], iso, rest);
    HeadCloses([t], iso, rest);
    LinesAt([t], iso, rest);
    assert lines[1..4] == [t, CreatedLine(iso), "tags: []"];
    Reads(raw, lines, 4, lines[1..4], Region(lines, 4));
  }

  /** The body of a new note, whatever its title. */
  lemma {:induction false} BodyRead(title: string, body: string, iso: string)
    requires '\n' !in iso && '\r' !in title && '\r' !in iso && '\r' !in body
    ensures var found := Get(NoteDocument(title, body, iso));
      if FenceInside(title) then |found| > |Trim(body, IsWhite)| else found == Trim(body, IsWhite)
  {
    var raw, t, rest := NoteDocument(title, body, iso), Split(TitleLine(title), '\n'), Split(body, '\n');
    var lines := NoteLines(t, iso, rest);
    NoteReturns(title, body, iso);
    HeadLines(title, body, iso);
    TitleFences(title);
    HeadCloses(t, iso, rest);
    LinesAt(t, iso, rest);
    BelowRegion(body, lines, |t| + 3);
    var k := Closing(lines, IsBlank).value;
    GetIs(raw, lines, k);
    if k < |t| + 3 {
      FenceOfFence(IsBlank);
      BehindFence(lines, k, |t| + 3);
    }
  }

  lemma {:induction false} BelowRegion(body: string, lines: seq<string>, m: nat)
    requires m + 1 < |lines| && lines[m + 1..] == [""] + Split(body, '\n')
    ensures Trim(Region(lines, m), IsWhite) == Trim(body, IsWhite)
  {
    JoinSplit(body, '\n');
    JoinAppend([""], Split(body, '\n'), '\n');
    assert Join(lines[m + 1..], '\n') == "\n" + body;
    TrimAfterBreak(body);
  }

  lemma {:induction false} TrimAfterBreak(body: string)
    ensures Trim("\n" + body, IsWhite) == Trim(body, IsWhite)
  {
    var a, b := TrimParts(body, IsWhite);
    TrimAfterWhite("\n", body, a, Trim(body, IsWhite), b);
  }

  lemma {:induction false} TrimAfterWhite(white: string, body: string, a: string, core: string, b: string)
    requires Only(white, IsWhite) && body == a + core + b && Only(a, IsWhite) && Only(b, IsWhite)
    requires Trimmed(core, IsWhite) && (core == "" ==> Only(body, IsWhite))
    ensures Trim(white + body, IsWhite) == core
  {
    if |core| == 0 {
      TrimAll(white + body, IsWhite);
    } else {
      assert white + (a + core + b) == (white + a) + core + b;
      TrimCore(white + a, core, b, IsWhite);
    }
  }

  lemma {:induction false} NoteReturns(title: string, body: string, iso: string)
    requires '\r' !in title && '\r' !in iso && '\r' !in body
    ensures '\r' !in NoteDocument(title, body, iso)
  {
    EscapedChars(title, '\r');
    NotIn("title: \"", Escaped(title), "\"", '\r');
    NotIn("created: \"", iso, "\"", '\r');
    JoinNotIn(Head(title, iso), '\r');
  }

  lemma {:induction false} JoinNotIn(parts: seq<string>, c: char)
    requires c != '\n' && forall i :: 0 <= i < |parts| ==> c !in parts[i]
    ensures c !in Join(parts, '\n')
  {
    if |parts| > 1 {
      JoinNotIn(parts[1..], c);
      NotIn(parts[0], "\n", Join(parts[1..], '\n'), c);
    }
  }

  /** The title of a new note is read back exactly when it is trimmed and has no
      backslash, quote or line break. Its body is read back exactly when that is
      trimmed and no inner line of the title is a delimiter: such a line closes the
      frontmatter, and the rest of it becomes body. */
  lemma {:induction false} NewNoteReadsBack(title: string, body: string, iso: string)
    requires '\n' !in iso && '\r' !in title && '\r' !in iso && '\r' !in body
    ensures TitleOf(NoteDocument(title, body, iso)) == Some(title)
      <==> '\n' !in title && '\\' !in title && '\"' !in title && Trimmed(title, IsWhite)
    ensures SplitSource(NoteDocument(title, body, iso)).body == body
      <==> Trimmed(body, IsWhite) && !FenceInside(title)
  {
    if '\n' in title {
      TitleNoNewline(NoteDocument(title, body, iso));
    } else {
      NoteRead(title, body, iso);
      HeadFields(title, iso);
      ScalarOfQuoted(Escaped(title));
      EscapedTrimmed(title);
    }
    BodyRead(title, body, iso);
    TrimmedIff(body);
    GetTrimmed(title, body, iso);
  }

  lemma {:induction false} GetTrimmed(title: string, body: string, iso: string)
    requires '\n' !in iso && '\r' !in title && '\r' !in iso && '\r' !in body
    ensures Trimmed(Get(NoteDocument(title, body, iso)), IsWhite)
  {
    var raw, t := NoteDocument(title, body, iso), Split(TitleLine(title), '\n');
    var lines := NoteLines(t, iso, Split(body, '\n'));
    NoteReturns(title, body, iso);
    HeadLines(title, body, iso);
    HeadCloses(t, iso, Split(body, '\n'));
    var k := Closing(lines, IsBlank).value;
    GetIs(raw, lines, k);
    var a, b := TrimParts(Region(lines, k), IsWhite);
  }

  /** The creation date of a new note is read back, if its title is one line. */
  lemma {:induction false} CreatedReadsBack(title: string, body: string, iso: string)
    requires '\n' !in title && '\n' !in iso && Trimmed(iso, IsWhite)
    requires '\r' !in title && '\r' !in iso && '\r' !in body
    ensures var values := SplitSource(NoteDocument(title, body, iso)).values;
      "created" in values && Scalar(values["created"]) == Some(iso)
  {
    NoteRead(title, body, iso);
    HeadFields(title, iso);
    ScalarOfQuoted(iso);
    TrimOfTrimmed(iso, IsWhite);
  }

  lemma {:induction false} EmptyInline()
    ensures InlineList("[]") == []
  {
    TrimOfTrimmed("[]", IsWhite);
    assert "[]"[1..1] == "" && Split("", ',') == [""] && [""][1..] == [];
  }

  lemma {:induction false} NoTags(raw: string, p: Parsed)
    requires p == SplitSource(raw) && "tags" !in p.lists && "tags" in p.values && p.values["tags"] == "[]"
    ensures TagsOf(raw) == []
  {
    EmptyInline();
  }

  /** A new note has no tags, if its title is one line. */
  lemma {:induction false} NewNoteHasNoTags(title: string, body: string, iso: string)
    requires '\n' !in title && '\n' !in iso
    requires '\r' !in title && '\r' !in iso && '\r' !in body
    ensures TagsOf(NoteDocument(title, body, iso)) == []
  {
    NoteRead(title, body, iso);
    HeadFields(title, iso);
    NoTags(NoteDocument(title, body, iso), SplitSource(NoteDocument(title, body, iso)));
  }
}
