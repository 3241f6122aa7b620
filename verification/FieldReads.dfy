/** Reading a note file line by line: what each kind of frontmatter line does, what a
    scalar is, and what a whole file is read as, in terms of the text as typed. */
module FieldReads {
  import opened Text
  import opened Frontmatter
  import opened FrontmatterLists

  // ------------------------------------------------------------------- scalars

  /** A text between white space: nothing if it is empty, its inside if it stands in
      quotes of one kind, and else itself. */
  lemma {:induction false} ScalarReads(a: string, text: string, b: string)
    requires Only(a, IsWhite) && Only(b, IsWhite) && Trimmed(text, IsWhite)
    ensures text == "" ==> Scalar(a + text + b) == None
    ensures text != "" && !(|text| >= 2 && text[0] == text[|text| - 1] && text[0] in "\"'") ==>
      Scalar(a + text + b) == Some(text)
  {
    if text == "" {
      TrimAll(a + text + b, IsWhite);
    } else {
      TrimCore(a, text, b, IsWhite);
    }
  }

  lemma {:induction false} QuotedReads(a: string, q: char, c: string, text: string, d: string, b: string)
    requires Only(a, IsWhite) && Only(b, IsWhite) && Only(c, IsWhite) && Only(d, IsWhite)
    requires q in "\"'" && Trimmed(text, IsWhite)
    ensures Scalar(a + ([q] + (c + text + d) + [q]) + b) == Some(text)
  {
    var inside := c + text + d;
    var quoted := [q] + inside + [q];
    assert quoted[0] == q && quoted[|quoted| - 1] == q && quoted[1..|quoted| - 1] == inside;
    TrimCore(a, quoted, b, IsWhite);
    if text == "" {
      TrimAll(inside, IsWhite);
    } else {
      TrimCore(c, text, d, IsWhite);
    }
  }

  // --------------------------------------------------------------------- lines

  /** Blank lines and comments change nothing. */
  lemma {:induction false} IdleLine(f: Fields, pad: string, text: string)
    requires Only(pad, IsBlank)
    ensures Step(f, pad) == f && Step(f, pad + "#" + text) == f
  {
    TrimAll(pad, IsBlank);
    TrimFront(pad, "#" + text);
    assert pad + "#" + text == pad + ("#" + text);
  }

  lemma {:induction false} TrimFront(pad: string, s: string)
    requires Only(pad, IsBlank) && s != "" && !IsBlank(s[0])
    ensures Trim(pad + s, IsBlank) != "" && Trim(pad + s, IsBlank)[0] == s[0]
  {
    var t := pad + s;
    assert t[..|pad|] == pad && t[|pad|] == s[0];
    LeadUnique(t, IsBlank, |pad|);
    assert t[|pad|..] == s;
    TrailShort(s, IsBlank);
  }

  /** A line without a colon closes the list that is open. */
  lemma {:induction false} OtherLine(f: Fields, pad: string, text: string, b: string)
    requires Only(pad, IsBlank) && Only(b, IsBlank) && text != "" && Trimmed(text, IsBlank) && ':' !in text
    requires text[0] != '#' && (f.active == None || !("- " <= text))
    ensures Step(f, pad + text + b) == f.(active := None)
  {
    TrimCore(pad, text, b, IsBlank);
    var line := pad + text + b;
    forall i | 0 <= i < |line| ensures NotColon(line[i]) {
      assert line[i] in pad || line[i] in text || line[i] in b;
    }
    assert line[..|line|] == line;
    LeadUnique(line, NotColon, |line|);
  }

  /** An item goes to the end of the open list, unless it is empty; without an open
      list it is no item. */
  lemma {:induction false} ItemLine(f: Fields, pad: string, item: string, b: string, value: Option<string>)
    requires Only(pad, IsBlank) && Only(b, IsBlank) && item != "" && !IsBlank(item[|item| - 1])
    requires f.active.Some? && value == Scalar(item)
    ensures Step(f, pad + ("- " + item) + b)
      == if value.Some? && value.value != ""
         then f.(lists := f.lists[f.active.value :=
                (if f.active.value in f.lists then f.lists[f.active.value] else []) + [value.value]])
         else f
  {
    var text := "- " + item;
    assert text[|text| - 1] == item[|item| - 1] && text[2..] == item;
    TrimCore(pad, text, b, IsBlank);
  }

  /** A key and a value: the value is that of the last line with the key; without a
      value the key opens a list; a key with a space in it is none. */
  lemma {:induction false} KeyLine(f: Fields, pad: string, key: string, gap: string, a: string, value: string,
                                   b: string)
    requires Only(pad, IsBlank) && Only(gap, IsBlank) && Only(a, IsBlank) && Only(b, IsBlank)
    requires key != "" && Trimmed(key, IsBlank) && Trimmed(value, IsBlank) && ':' !in key
    requires key[0] != '#' && key[0] != '-'
    ensures Step(f, (pad + key + gap) + ":" + (a + value + b))
      == if ' ' in key then f.(active := None)
         else Fields(f.values[key := value], f.lists, if value == "" then Some(key) else None)
  {
    var head, tail := pad + key + gap, a + value + b;
    var line := head + ":" + tail;
    assert head + ":" + tail == pad + (key + gap + ":" + tail);
    TrimFront(pad, key + gap + ":" + tail);
    NoColonIn(pad, key, gap);
    assert line[..|head|] == head && line[|head|] == ':' && line[|head| + 1..] == tail;
    LeadUnique(line, NotColon, |head|);
    TrimCore(pad, key, gap, IsBlank);
    TrimBetween(a, value, b);
    KeyStep(f, line, head, tail, key, value);
  }

  lemma {:induction false} NoColonIn(pad: string, key: string, gap: string)
    requires Only(pad, IsBlank) && Only(gap, IsBlank) && ':' !in key
    ensures Only(pad + key + gap, NotColon)
  {
    var head := pad + key + gap;
    forall i | 0 <= i < |head| ensures NotColon(head[i]) {
      assert head[i] in pad || head[i] in key || head[i] in gap;
    }
  }

  lemma {:induction false} TrimBetween(a: string, value: string, b: string)
    requires Only(a, IsBlank) && Only(b, IsBlank) && Trimmed(value, IsBlank)
    ensures Trim(a + value + b, IsBlank) == value
  {
    if value == "" {
      TrimAll(a + value + b, IsBlank);
    } else {
      TrimCore(a, value, b, IsBlank);
    }
  }

  lemma {:induction false} KeyStep(f: Fields, line: string, head: string, tail: string, key: string, value: string)
    requires |head| < |line| && line[..|head|] == head && line[|head| + 1..] == tail && Lead(line, NotColon) == |head|
    requires Trim(head, IsBlank) == key != "" && Trim(tail, IsBlank) == value
    requires Trim(line, IsBlank) != "" && Trim(line, IsBlank)[0] != '#' && Trim(line, IsBlank)[0] != '-'
    ensures Step(f, line)
      == if ' ' in key then f.(active := None)
         else Fields(f.values[key := value], f.lists, if value == "" then Some(key) else None)
  {
  }

  // --------------------------------------------------------------------- files

  /** Line breaks of two characters become one, and nothing else changes. */
  lemma {:induction false} BreaksBecomePlain(a: string, b: string)
    ensures PlainBreaks(a + "\r\n" + b) == PlainBreaks(a) + "\n" + PlainBreaks(b)
    ensures '\r' !in a ==> PlainBreaks(a) == a
    ensures b != "" && b[0] != '\n' ==> PlainBreaks("\r" + b) == "\r" + PlainBreaks(b)
  {
    if '\r' !in a {
      NoReturns(a);
    }
    BreakBehind(a, b);
    assert ("\r" + b)[1..] == b;
  }

  lemma {:induction false} BreakBehind(a: string, b: string)
    ensures PlainBreaks(a + "\r\n" + b) == PlainBreaks(a) + "\n" + PlainBreaks(b)
  {
    var s := a + "\r\n" + b;
    BreakParts(a, b, s);
    if |a| == 0 {
      BreakFirst(s, b);
      assert PlainBreaks(a) + "\n" == "\n";
    } else if |a| >= 2 && a[0] == '\r' && a[1] == '\n' {
      BreakBehind(a[2..], b);
      BreakFirst(s, a[2..] + "\r\n" + b);
      BreakFirst(a, a[2..]);
      Regroup("\n", PlainBreaks(a[2..]), PlainBreaks(b));
    } else {
      BreakBehind(a[1..], b);
      KeptFirst(s, a, a[1..] + "\r\n" + b);
      Regroup([a[0]], PlainBreaks(a[1..]), PlainBreaks(b));
    }
  }

  lemma {:induction false} Regroup(first: string, a: string, b: string)
    ensures first + (a + "\n" + b) == (first + a) + "\n" + b
  {
  }

  lemma {:induction false} BreakParts(a: string, b: string, s: string)
    requires s == a + "\r\n" + b
    ensures |a| == 0 ==> s[0] == '\r' && s[1] == '\n' && s[2..] == b
    ensures |a| > 0 ==> s[0] == a[0] && s[1] == (if |a| >= 2 then a[1] else '\r') && s[1..] == a[1..] + "\r\n" + b
    ensures |a| >= 2 ==> s[2..] == a[2..] + "\r\n" + b
  {
  }

  lemma {:induction false} BreakFirst(s: string, rest: string)
    requires |s| >= 2 && s[0] == '\r' && s[1] == '\n' && s[2..] == rest
    ensures PlainBreaks(s) == "\n" + PlainBreaks(rest)
  {
  }

  lemma {:induction false} KeptFirst(s: string, a: string, rest: string)
    requires |a| > 0 && |s| > 1 && s[0] == a[0] && s[1..] == rest
    requires s[1] == if |a| >= 2 then a[1] else '\r'
    requires !(|a| >= 2 && a[0] == '\r' && a[1] == '\n')
    ensures PlainBreaks(s) == [a[0]] + PlainBreaks(rest) && PlainBreaks(a) == [a[0]] + PlainBreaks(a[1..])
  {
  }

  lemma {:induction false} ClosesAt(lines: seq<string>, p: char -> bool, i: nat, k: nat)
    requires i <= k < |lines| && IsFence(lines[k], p) && forall j :: i <= j < k ==> !IsFence(lines[j], p)
    ensures FirstFence(lines, p, i) == Some(k)
    decreases k - i
  {
    if i < k {
      ClosesAt(lines, p, i + 1, k);
    }
  }

  /** A line that is more than three dashes between blanks is no delimiter. */
  ghost predicate Inner(line: string) {
    '\n' !in line && '\r' !in line && !exists a, b :: line == a + "---" + b && Only(a, IsBlank) && Only(b, IsBlank)
  }

  lemma {:induction false} FenceIff(line: string)
    ensures IsFence(line, IsBlank)
      <==> exists a, b :: line == a + "---" + b && Only(a, IsBlank) && Only(b, IsBlank)
  {
    var a, b := TrimParts(line, IsBlank);
    forall c, d | line == c + "---" + d && Only(c, IsBlank) && Only(d, IsBlank) ensures IsFence(line, IsBlank) {
      TrimCore(c, "---", d, IsBlank);
    }
  }

  /** A file with frontmatter: its lines are read one after the other, and what is
      behind the closing delimiter, trimmed, is the body. */
  lemma {:induction false} FileReads(inside: seq<string>, body: string)
    requires (forall i :: 0 <= i < |inside| ==> Inner(inside[i])) && '\r' !in body
    ensures var file := Join(Fenced(inside), '\n');
      && SplitSource(file + "\n" + body)
         == Parsed(FieldsOf(inside).values, FieldsOf(inside).lists, Trim(body, IsWhite))
      && SplitSource(file) == Parsed(FieldsOf(inside).values, FieldsOf(inside).lists, "")
  {
    var top := Fenced(inside);
    var file, rest := Join(top, '\n'), Split(body, '\n');
    FencedLines(inside);
    SplitJoin(top, '\n');
    SplitAt(file, body, '\n');
    JoinPlain(top);
    NoReturns(file);
    NoReturns(file + "\n" + body);
    JoinSplit(body, '\n');
    ReadsAs(file, top, inside, []);
    ReadsAs(file + "\n" + body, top + rest, inside, rest);
  }

  /** Frontmatter lines between their delimiters. */
  function Fenced(inside: seq<string>): seq<string> {
    ["---"] + inside + ["---"]
  }

  lemma {:induction false} FencedLines(inside: seq<string>)
    requires forall i :: 0 <= i < |inside| ==> '\n' !in inside[i] && '\r' !in inside[i]
    ensures forall i :: 0 <= i < |Fenced(inside)| ==> '\n' !in Fenced(inside)[i] && '\r' !in Fenced(inside)[i]
  {
    forall i | 0 <= i < |Fenced(inside)| ensures '\n' !in Fenced(inside)[i] && '\r' !in Fenced(inside)[i] {
      assert i == 0 || i == |inside| + 1 || Fenced(inside)[i] == inside[i - 1];
    }
  }

  lemma {:induction false} JoinPlain(parts: seq<string>)
    requires forall i :: 0 <= i < |parts| ==> '\r' !in parts[i]
    ensures '\r' !in Join(parts, '\n')
  {
    if |parts| > 1 {
      JoinPlain(parts[1..]);
    }
  }

  lemma {:induction false} ReadsAs(file: string, lines: seq<string>, inside: seq<string>, rest: seq<string>)
    requires PlainBreaks(file) == file && Split(file, '\n') == lines == Fenced(inside) + rest
    requires forall i :: 0 <= i < |inside| ==> Inner(inside[i])
    ensures SplitSource(file)
      == Parsed(FieldsOf(inside).values, FieldsOf(inside).lists,
                if rest == [] then "" else Trim(Join(rest, '\n'), IsWhite))
  {
    forall i | 0 <= i < |inside| ensures !IsFence(inside[i], IsBlank) {
      FenceIff(inside[i]);
    }
    FencedCloses(lines, inside, rest, IsBlank);
  }

  lemma {:induction false} FencedCloses(lines: seq<string>, inside: seq<string>, rest: seq<string>, p: char -> bool)
    requires lines == Fenced(inside) + rest && !p('-') && forall i :: 0 <= i < |inside| ==> !IsFence(inside[i], p)
    ensures var k := |inside| + 1;
      Closing(lines, p) == Some(k) && k < |lines| && lines[1..k] == inside && lines[k + 1..] == rest
  {
    var k := |inside| + 1;
    forall j | 1 <= j < k ensures !IsFence(lines[j], p) {
      assert lines[j] == inside[j - 1];
    }
    TrimOfTrimmed("---", p);
    ClosesAt(lines, p, 1, k);
  }

  /** A file that does not start with a delimiter, or has no second one, is all body. */
  lemma {:induction false} NoFrontmatter(first: string, rest: seq<string>)
    requires '\n' !in first && '\r' !in first
    requires forall i :: 0 <= i < |rest| ==> '\n' !in rest[i] && '\r' !in rest[i]
    requires Inner(first) || forall i :: 0 <= i < |rest| ==> Inner(rest[i])
    ensures SplitSource(Join([first] + rest, '\n')) == Parsed(map[], map[], Join([first] + rest, '\n'))
  {
    var lines := [first] + rest;
    SplitJoin(lines, '\n');
    JoinPlain(lines);
    NoReturns(Join(lines, '\n'));
    forall i | 0 <= i < |rest| ensures Inner(rest[i]) ==> !IsFence(rest[i], IsBlank) {
      FenceIff(rest[i]);
    }
    FenceIff(first);
    NeverCloses(first, rest, IsBlank);
  }

  lemma {:induction false} NeverCloses(first: string, rest: seq<string>, p: char -> bool)
    requires !IsFence(first, p) || forall i :: 0 <= i < |rest| ==> !IsFence(rest[i], p)
    ensures Closing([first] + rest, p) == None
  {
    var lines := [first] + rest;
    FirstFenceFound(lines, p, 1);
    assert forall i :: 1 <= i < |lines| ==> lines[i] == rest[i - 1];
  }

  /** The tags of a file whose frontmatter starts with them, written line by line. */
  lemma {:induction false} TagsRead(items: seq<string>, body: string)
    requires |items| > 0 && '\r' !in body
    requires forall i :: 0 <= i < |items| ==> Plain(items[i]) && '\n' !in items[i] && '\r' !in items[i]
    ensures TagsOf(Join(Fenced(["tags:"] + ItemLines(items)), '\n') + "\n" + body) == items
  {
    var inside := ["tags:"] + ItemLines(items);
    assert "tags" + ":" == "tags:";
    forall i | 0 <= i < |inside| ensures Inner(inside[i]) {
      if i > 0 {
        assert inside[i] == "- " + items[i - 1];
      }
      StartsOtherwise(inside[i]);
    }
    TypedList("tags", items);
    TagsInLists(inside, body, items);
  }

  lemma {:induction false} TagsInLists(inside: seq<string>, body: string, items: seq<string>)
    requires (forall i :: 0 <= i < |inside| ==> Inner(inside[i])) && '\r' !in body
    requires FieldsOf(inside).lists == map["tags" := items]
    ensures TagsOf(Join(Fenced(inside), '\n') + "\n" + body) == items
  {
    FileReads(inside, body);
  }

  lemma {:induction false} StartsOtherwise(line: string)
    requires |line| >= 2 && !IsBlank(line[0]) && (line[0] != '-' || line[1] != '-') && '\n' !in line && '\r' !in line
    ensures Inner(line)
  {
    var a, b := TrimParts(line, IsBlank);
    FenceIff(line);
  }

  /** The same tags between brackets. */
  lemma {:induction false} InlineTagsRead(items: seq<string>, body: string)
    requires |items| > 0 && '\r' !in body
    requires forall i :: 0 <= i < |items| ==>
      Plain(items[i]) && ',' !in items[i] && '\n' !in items[i] && '\r' !in items[i]
    ensures TagsOf(Join(Fenced(["tags: [" + Join(Spaced(items), ',') + "]"]), '\n') + "\n" + body) == items
  {
    var list := Join(Spaced(items), ',');
    var text, line := "[" + list + "]", "tags: [" + list + "]";
    SpacedPlain(Spaced(items), '\n');
    SpacedPlain(Spaced(items), '\r');
    StartsOtherwise(line);
    assert line == "" + "tags" + "" + ":" + (" " + text + "");
    KeyLine(NO_FIELDS, "", "tags", "", " ", text, "");
    FieldsNext([], line);
    assert [] + [line] == [line];
    InlineListReads(items);
    TagsInValues(line, body, text);
  }

  lemma {:induction false} SpacedPlain(parts: seq<string>, c: char)
    requires c != ',' && forall i :: 0 <= i < |parts| ==> c !in parts[i]
    ensures c !in Join(parts, ',')
  {
    if |parts| > 1 {
      SpacedPlain(parts[1..], c);
    }
  }

  lemma {:induction false} TagsInValues(line: string, body: string, text: string)
    requires Inner(line) && '\r' !in body && FieldsOf([line]).values == map["tags" := text]
    requires FieldsOf([line]).lists == map[]
    ensures TagsOf(Join(Fenced([line]), '\n') + "\n" + body) == InlineList(text)
  {
    FileReads([line], body);
  }
}
