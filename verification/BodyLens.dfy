/** Putting an edited body back into its note: when the two directions undo each
    other, and what stays as it was. */
module BodyLens {
  import opened Text
  import opened Frontmatter
  import FieldReads

  // -------------------------------------------------------- fitting a region

  /** The white space in front of a region, and behind it. */
  function Leading(region: string): string {
    region[..Lead(region, IsWhite)]
  }

  function Trailing(region: string): string {
    region[|region| - Trail(region, IsWhite)..]
  }

  function Refit(region: string, body: string): string {
    Leading(region) + body + Trailing(region)
  }

  ghost predicate Blank(s: string) {
    Only(s, IsWhite)
  }

  lemma {:induction false} EndsAreWhite(s: string)
    ensures Blank(Leading(s)) && Blank(Trailing(s))
    ensures Blank(s) ==> Leading(s) == s && Trailing(s) == s
  {
    LeadRun(s, IsWhite);
    TrailRun(s, IsWhite);
    if Blank(s) {
      LeadUnique(s, IsWhite, |s|);
      TrailUnique(s, IsWhite, |s|);
    }
  }

  /** A core between white runs: its ends are those of the whole. */
  lemma {:induction false} EndsOf(a: string, core: string, b: string)
    requires Blank(a) && Blank(b) && core != "" && Trimmed(core, IsWhite)
    ensures Leading(a + core + b) == a && Trailing(a + core + b) == b && Trim(a + core + b, IsWhite) == core
  {
    var s := a + core + b;
    assert s[..|a|] == a && s[|a|] == core[0];
    LeadUnique(s, IsWhite, |a|);
    assert s[|s| - |b|..] == b && s[|s| - |b| - 1] == core[|core| - 1];
    TrailUnique(s, IsWhite, |b|);
    TrimCore(a, core, b, IsWhite);
  }

  lemma {:induction false} BlankConcat(a: string, b: string)
    ensures Blank(a + b) <==> Blank(a) && Blank(b)
  {
    if Blank(a + b) {
      assert forall i :: 0 <= i < |a| ==> a[i] == (a + b)[i];
      assert forall i :: 0 <= i < |b| ==> b[i] == (a + b)[|a| + i];
    }
  }

  /** A region that is not blank is its core between its two ends. */
  lemma {:induction false} Decompose(s: string)
    requires !Blank(s)
    ensures s == Leading(s) + Trim(s, IsWhite) + Trailing(s)
    ensures Trim(s, IsWhite) != "" && Trimmed(Trim(s, IsWhite), IsWhite)
  {
    var a, b := TrimParts(s, IsWhite);
    EndsOf(a, Trim(s, IsWhite), b);
  }

  lemma {:induction false} BlankTrim(s: string)
    ensures Trim(s, IsWhite) == "" <==> Blank(s)
  {
    if Blank(s) {
      TrimAll(s, IsWhite);
    } else {
      Decompose(s);
    }
  }

  /** White space around a text does not change what trimming leaves. */
  lemma {:induction false} RefitTrims(region: string, body: string)
    ensures Trim(Refit(region, body), IsWhite) == Trim(body, IsWhite)
  {
    var l, t := Leading(region), Trailing(region);
    EndsAreWhite(region);
    BlankConcat(l, body);
    BlankConcat(l + body, t);
    BlankTrim(body);
    BlankTrim(Refit(region, body));
    if !Blank(body) {
      RefitEnds(region, body);
    }
  }

  lemma {:induction false} Regroup(l: string, a: string, core: string, b: string, t: string)
    ensures l + (a + core + b) + t == (l + a) + core + (b + t)
  {
  }

  /** The ends of a refitted region: the old ones and those of the body. */
  lemma {:induction false} RefitEnds(region: string, body: string)
    requires !Blank(body)
    ensures var s := Refit(region, body);
      && Leading(s) == Leading(region) + Leading(body) && Trailing(s) == Trailing(body) + Trailing(region)
      && Trim(s, IsWhite) == Trim(body, IsWhite)
  {
    var l, t, core := Leading(region), Trailing(region), Trim(body, IsWhite);
    EndsAreWhite(region);
    EndsAreWhite(body);
    Decompose(body);
    BlankConcat(l, Leading(body));
    BlankConcat(Trailing(body), t);
    Regroup(l, Leading(body), core, Trailing(body), t);
    EndsOf(l + Leading(body), core, Trailing(body) + t);
  }

  /** A region takes its own core back unless it is blank and not empty: then its
      white space would be written twice. */
  lemma {:induction false} RefitOwn(region: string)
    ensures Refit(region, Trim(region, IsWhite)) == region <==> region == "" || !Blank(region)
  {
    if Blank(region) {
      EndsAreWhite(region);
      TrimAll(region, IsWhite);
      assert |Refit(region, "")| == |region| + |region|;
    } else {
      Decompose(region);
    }
  }

  lemma {:induction false} SameEnds(s: string, region: string)
    requires Leading(s) == Leading(region) && Trailing(s) == Trailing(region)
    ensures forall body :: Refit(s, body) == Refit(region, body)
  {
  }

  lemma {:induction false} LongerEnds(s: string, region: string)
    requires |Leading(s)| + |Trailing(s)| > |Leading(region)| + |Trailing(region)|
    ensures Refit(s, "") != Refit(region, "")
  {
  }

  lemma {:induction false} RefitTwiceBlank(region: string, first: string)
    requires Blank(first)
    ensures (forall body :: Refit(Refit(region, first), body) == Refit(region, body))
      <==> first == "" && Leading(region) == "" && Trailing(region) == ""
  {
    var s := Refit(region, first);
    EndsAreWhite(region);
    BlankConcat(Leading(region), first);
    BlankConcat(Leading(region) + first, Trailing(region));
    EndsAreWhite(s);
    if |s| > 0 {
      LongerEnds(s, region);
    } else {
      SameEnds(s, region);
    }
  }

  lemma {:induction false} RefitTwiceFull(region: string, first: string)
    requires !Blank(first)
    ensures (forall body :: Refit(Refit(region, first), body) == Refit(region, body)) <==> Trimmed(first, IsWhite)
  {
    var s := Refit(region, first);
    RefitEnds(region, first);
    if Leading(first) != "" || Trailing(first) != "" {
      LongerEnds(s, region);
      WhiteEnd(first);
    } else {
      Decompose(first);
      assert first == Trim(first, IsWhite);
      SameEnds(s, region);
    }
  }

  /** A second refit forgets the first one exactly when the first body was trimmed
      and, if empty, the region keeps no white space. */
  lemma {:induction false} RefitTwice(region: string, first: string)
    ensures (forall body :: Refit(Refit(region, first), body) == Refit(region, body))
      <==> Trimmed(first, IsWhite) && (first == "" ==> Leading(region) == "" && Trailing(region) == "")
  {
    if Blank(first) {
      RefitTwiceBlank(region, first);
      if first != "" {
        assert IsWhite(first[0]);
      }
    } else {
      RefitTwiceFull(region, first);
    }
  }

  lemma {:induction false} WhiteEnd(s: string)
    requires Leading(s) != "" || Trailing(s) != ""
    ensures !Trimmed(s, IsWhite)
  {
    EndsAreWhite(s);
    if Leading(s) != "" {
      assert s[0] == Leading(s)[0];
    } else {
      assert s[|s| - 1] == Trailing(s)[|Trailing(s)| - 1];
    }
  }

  // ------------------------------------------------------------- the two directions

  /** What replaces the text after the frontmatter: on its own line, or with the
      white space around the old text. */
  function NewRegion(lines: seq<string>, k: nat, body: string): string {
    if k + 1 >= |lines| then body else Refit(Join(lines[k + 1..], '\n'), body)
  }

  function ReplaceAt(lines: seq<string>, closing: Option<nat>, body: string): string
    requires closing.Some? ==> closing.value < |lines|
  {
    if closing.None? then body
    else Join(lines[..closing.value + 1], '\n') + "\n" + NewRegion(lines, closing.value, body)
  }

  /** `replacingBody`. */
  function Replace(raw: string, body: string): string {
    var lines := Split(raw, '\n');
    ClosingIs(lines, IsWhite);
    ReplaceAt(lines, Closing(lines, IsWhite), body)
  }

  /** The parsed body. */
  function Get(raw: string): string {
    SplitSource(raw).body
  }

  /** Writer and parser see the same frontmatter, closed at line `k`. They differ
      only in odd line breaks around a delimiter. */
  ghost predicate Framed(raw: string, k: nat) {
    Closing(Split(raw, '\n'), IsBlank) == Some(k) && Closing(Split(raw, '\n'), IsWhite) == Some(k)
  }

  /** With no line breaks but plain ones, writer and parser agree on the frontmatter. */
  lemma {:induction false} PlainBreaksAgree(raw: string)
    requires forall c :: c in raw && IsNewline(c) ==> c == '\n'
    ensures Closing(Split(raw, '\n'), IsBlank) == Closing(Split(raw, '\n'), IsWhite)
  {
    var lines := Split(raw, '\n');
    SplitPieces(raw, '\n');
    JoinSplit(raw, '\n');
    forall i | 0 <= i < |lines| ensures IsFence(lines[i], IsBlank) == IsFence(lines[i], IsWhite) {
      forall c | c in lines[i] ensures !IsNewline(c) {
        PieceChars(lines, i, c);
      }
      SameTrim(lines[i]);
    }
    SameFences(lines, 1);
  }

  lemma {:induction false} PieceChars(parts: seq<string>, i: nat, c: char)
    requires i < |parts| && c in parts[i]
    ensures c in Join(parts, '\n')
  {
    if |parts| > 1 {
      var rest := Join(parts[1..], '\n');
      if i > 0 {
        PieceChars(parts[1..], i - 1, c);
      }
      assert Join(parts, '\n') == parts[0] + ['\n'] + rest;
    }
  }

  lemma {:induction false} SameTrim(line: string)
    requires forall c :: c in line ==> !IsNewline(c)
    ensures Trim(line, IsBlank) == Trim(line, IsWhite)
  {
    var a, b := TrimParts(line, IsBlank);
    var core := Trim(line, IsBlank);
    if |core| == 0 {
      TrimAll(line, IsWhite);
    } else {
      assert core[0] in line && core[|core| - 1] in line;
      TrimCore(a, core, b, IsWhite);
    }
  }

  lemma {:induction false} SameFences(lines: seq<string>, i: nat)
    requires forall j :: 0 <= j < |lines| ==> IsFence(lines[j], IsBlank) == IsFence(lines[j], IsWhite)
    ensures FirstFence(lines, IsBlank, i) == FirstFence(lines, IsWhite, i)
    decreases |lines| - i
  {
    if i < |lines| && !IsFence(lines[i], IsBlank) {
      SameFences(lines, i + 1);
    }
  }

  /** A delimiter of the parser is one of the writer, so the writer closes the
      frontmatter first. */
  lemma {:induction false} FenceIsWhite(line: string)
    requires IsFence(line, IsBlank)
    ensures IsFence(line, IsWhite) && !Blank(line)
  {
    var a, b := TrimParts(line, IsBlank);
    TrimCore(a, FENCE, b, IsWhite);
    BlankTrim(line);
  }

  lemma {:induction false} WriterFirst(lines: seq<string>, i: nat)
    requires FirstFence(lines, IsBlank, i).Some?
    ensures var w := FirstFence(lines, IsWhite, i);
      w.Some? && w.value <= FirstFence(lines, IsBlank, i).value
    decreases |lines| - i
  {
    FirstFenceIs(lines, IsBlank, i);
    if IsFence(lines[i], IsBlank) {
      FenceIsWhite(lines[i]);
    } else {
      WriterFirst(lines, i + 1);
      FirstFenceIs(lines, IsBlank, i + 1);
    }
  }

  lemma {:induction false} WriterCloses(lines: seq<string>)
    requires Closing(lines, IsBlank).Some?
    ensures Closing(lines, IsWhite).Some? && Closing(lines, IsWhite).value <= Closing(lines, IsBlank).value
  {
    FenceIsWhite(lines[0]);
    WriterFirst(lines, 1);
  }

  /** The text after the frontmatter, and whether there is a line for it. */
  function Region(lines: seq<string>, k: nat): string {
    if k + 1 < |lines| then Join(lines[k + 1..], '\n') else ""
  }

  lemma {:induction false} RefitNothing(body: string)
    ensures Refit("", body) == body
  {
    assert "" + body == body && body + "" == body;
  }

  lemma {:induction false} NewRegionIs(lines: seq<string>, k: nat, body: string)
    ensures NewRegion(lines, k, body) == Refit(Region(lines, k), body)
  {
    RefitNothing(body);
  }

  lemma {:induction false} ReplaceAtIs(lines: seq<string>, k: nat, body: string)
    requires k < |lines|
    ensures ReplaceAt(lines, Some(k), body) == Join(lines[..k + 1], '\n') + "\n" + Refit(Region(lines, k), body)
    ensures |ReplaceAt(lines, Some(k), body)| > |body|
  {
    NewRegionIs(lines, k, body);
  }

  lemma {:induction false} ReplaceIs(raw: string, body: string, lines: seq<string>, k: nat)
    requires lines == Split(raw, '\n') && Closing(lines, IsWhite) == Some(k)
    ensures k < |lines|
    ensures Replace(raw, body) == Join(lines[..k + 1], '\n') + "\n" + Refit(Region(lines, k), body)
    ensures |Replace(raw, body)| > |body|
  {
    ClosingIs(lines, IsWhite);
    ReplaceAtIs(lines, k, body);
    assert Replace(raw, body) == ReplaceAt(lines, Some(k), body);
  }

  /** What the parser makes of a file whose frontmatter closes at line `k`. */
  lemma {:induction false} Reads(raw: string, lines: seq<string>, k: nat, inside: seq<string>, region: string)
    requires '\r' !in raw && lines == Split(raw, '\n') && Closing(lines, IsBlank) == Some(k)
    requires 1 <= k < |lines| && inside == lines[1..k] && region == Region(lines, k)
    ensures SplitSource(raw) == Parsed(FieldsOf(inside).values, FieldsOf(inside).lists, Trim(region, IsWhite))
  {
    NoReturns(raw);
    TrimAll("", IsWhite);
  }

  lemma {:induction false} GetIs(raw: string, lines: seq<string>, k: nat)
    requires '\r' !in raw && lines == Split(raw, '\n') && Closing(lines, IsBlank) == Some(k)
    ensures 1 <= k < |lines|
    ensures Get(raw) == Trim(Region(lines, k), IsWhite)
  {
    ClosingIs(lines, IsBlank);
    Reads(raw, lines, k, lines[1..k], Region(lines, k));
  }

  /** The lines of a file put together again. */
  lemma {:induction false} Reassembled(lines: seq<string>, k: nat, region: string)
    requires k < |lines| && forall i :: 0 <= i < |lines| ==> '\n' !in lines[i]
    ensures Split(Join(lines[..k + 1], '\n') + "\n" + region, '\n') == lines[..k + 1] + Split(region, '\n')
  {
    SplitAt(Join(lines[..k + 1], '\n'), region, '\n');
    SplitJoin(lines[..k + 1], '\n');
  }

  /** A replaced file has the same frontmatter lines, closed at the same line, and
      its region is the refitted one. */
  lemma {:induction false} ReplacedLines(raw: string, body: string, lines: seq<string>, k: nat, p: char -> bool)
    requires lines == Split(raw, '\n') && k < |lines| && Closing(lines, p) == Some(k)
    requires Closing(lines, IsWhite) == Some(k)
    ensures var after := Split(Replace(raw, body), '\n');
      && k + 1 < |after| && after[..k + 1] == lines[..k + 1] && Closing(after, p) == Some(k)
      && Region(after, k) == Refit(Region(lines, k), body)
  {
    var region := Refit(Region(lines, k), body);
    ReplaceIs(raw, body, lines, k);
    SplitPieces(raw, '\n');
    Reassembled(lines, k, region);
    var after := Split(Replace(raw, body), '\n');
    assert after[..k + 1] == lines[..k + 1] && after[k + 1..] == Split(region, '\n');
    JoinSplit(region, '\n');
    ClosingPrefix(lines, after, p, k);
  }

  lemma {:induction false} CharsOfRefit(region: string, body: string, c: char)
    requires c !in region && c !in body
    ensures c !in Refit(region, body)
  {
  }

  lemma {:induction false} ReplacedReturns(raw: string, body: string, lines: seq<string>, k: nat)
    requires lines == Split(raw, '\n') && Closing(lines, IsWhite) == Some(k) && '\r' !in raw && '\r' !in body
    ensures '\r' !in Replace(raw, body)
  {
    ReplaceIs(raw, body, lines, k);
    RawParts(raw, lines, k);
    CharsOfRefit(Region(lines, k), body, '\r');
  }

  /** A file is its frontmatter lines and, when there are more lines, a line break
      and its region. */
  lemma {:induction false} RawParts(raw: string, lines: seq<string>, k: nat)
    requires lines == Split(raw, '\n') && k < |lines|
    ensures raw == Join(lines[..k + 1], '\n') + if k + 1 < |lines| then "\n" + Region(lines, k) else ""
  {
    JoinSplit(raw, '\n');
    if k + 1 < |lines| {
      JoinAppend(lines[..k + 1], lines[k + 1..], '\n');
      assert lines[..k + 1] + lines[k + 1..] == lines;
      Assoc(Join(lines[..k + 1], '\n'), "\n", Region(lines, k));
    } else {
      assert lines[..k + 1] == lines;
    }
  }

  // ----------------------------------------------- when the two readers disagree

  lemma {:induction false} TrimDrops(x: string, y: string)
    requires !Blank(x)
    ensures |Trim(y, IsWhite)| < |Trim(x + y, IsWhite)|
  {
    BlankConcat(x, y);
    BlankTrim(x + y);
    BlankTrim(y);
    if !Blank(y) {
      Decompose(x);
      Decompose(y);
      EndsAreWhite(x);
      EndsAreWhite(y);
      TrimAcross(Leading(x), Trim(x, IsWhite), Trailing(x) + Leading(y), Trim(y, IsWhite), Trailing(y));
      Regather(Leading(x), Trim(x, IsWhite), Trailing(x), Leading(y), Trim(y, IsWhite), Trailing(y));
    }
  }

  lemma {:induction false} TrimAcross(a: string, u: string, mid: string, v: string, b: string)
    requires Blank(a) && Blank(b) && u != "" && v != "" && Trimmed(u, IsWhite) && Trimmed(v, IsWhite)
    ensures Trim(a + (u + mid + v) + b, IsWhite) == u + mid + v
  {
    var core := u + mid + v;
    assert core[0] == u[0] && core[|core| - 1] == v[|v| - 1];
    TrimCore(a, core, b, IsWhite);
  }

  lemma {:induction false} Regather(a: string, u: string, b: string, c: string, v: string, d: string)
    ensures (a + u + b) + (c + v + d) == a + (u + (b + c) + v) + d
  {
  }

  lemma {:induction false} FullJoin(parts: seq<string>)
    requires |parts| > 0 && !Blank(parts[|parts| - 1])
    ensures !Blank(Join(parts, '\n'))
  {
    var n := |parts| - 1;
    if n > 0 {
      JoinAppend(parts[..n], [parts[n]], '\n');
      assert parts[..n] + [parts[n]] == parts;
      BlankConcat(Join(parts[..n], '\n') + "\n", parts[n]);
    }
  }

  /** The text behind a later delimiter is shorter, trimmed, than that behind an
      earlier line: the delimiter itself is missing. */
  lemma {:induction false} BehindFence(lines: seq<string>, k: nat, m: nat)
    requires k < m < |lines| && IsFence(lines[m], IsBlank)
    ensures |Trim(Region(lines, m), IsWhite)| < |Trim(Region(lines, k), IsWhite)|
    ensures !Blank(Region(lines, k))
  {
    var parts, rest := lines[k + 1..m + 1], Region(lines, m);
    FenceIsWhite(lines[m]);
    assert parts[|parts| - 1] == lines[m];
    FullJoin(parts);
    var x := Join(parts, '\n');
    if m + 1 < |lines| {
      JoinAppend(parts, lines[m + 1..], '\n');
      assert parts + lines[m + 1..] == lines[k + 1..];
      BlankConcat(x, "\n");
      TrimDrops(x + "\n", rest);
      BlankConcat(x + "\n", rest);
    } else {
      assert parts == lines[k + 1..] && x + "" == x;
      TrimDrops(x, "");
    }
  }

  // --------------------------------------------------------------------- the laws

  lemma {:induction false} PutGetFramed(raw: string, body: string, k: nat)
    requires Framed(raw, k) && '\r' !in raw && '\r' !in body
    ensures Get(Replace(raw, body)) == Trim(body, IsWhite)
    ensures SplitSource(Replace(raw, body)).values == SplitSource(raw).values
    ensures SplitSource(Replace(raw, body)).lists == SplitSource(raw).lists
  {
    var lines, after := Split(raw, '\n'), Split(Replace(raw, body), '\n');
    ClosingIs(lines, IsBlank);
    ReplacedLines(raw, body, lines, k, IsBlank);
    ReplacedReturns(raw, body, lines, k);
    var region := Region(lines, k);
    Reads(raw, lines, k, lines[1..k], region);
    SameInside(after, lines, k);
    Reads(Replace(raw, body), after, k, lines[1..k], Refit(region, body));
    RefitTrims(region, body);
  }

  lemma {:induction false} SameInside<T>(a: seq<T>, b: seq<T>, k: nat)
    requires 1 <= k < |a| && k < |b| && a[..k + 1] == b[..k + 1]
    ensures a[1..k] == b[1..k]
  {
    assert a[1..k] == a[..k + 1][1..k] && b[1..k] == b[..k + 1][1..k];
  }

  lemma {:induction false} TrimmedIff(s: string)
    ensures Trim(s, IsWhite) == s <==> Trimmed(s, IsWhite)
  {
    var a, b := TrimParts(s, IsWhite);
    if Trimmed(s, IsWhite) {
      TrimOfTrimmed(s, IsWhite);
    }
  }

  /** Without frontmatter the whole file is the body: it is read back unless it
      starts with frontmatter of its own. */
  lemma {:induction false} PutGetFrameless(raw: string, body: string)
    requires Closing(Split(raw, '\n'), IsWhite).None? && '\r' !in body
    ensures Replace(raw, body) == body
    ensures Get(Replace(raw, body)) == body <==> Closing(Split(body, '\n'), IsBlank).None?
  {
    NoReturns(body);
    var lines := Split(body, '\n');
    if k :| Closing(lines, IsBlank) == Some(k) {
      GetIs(body, lines, k);
      RawParts(body, lines, k);
      TrimShorter(Region(lines, k));
      assert IsFence(lines[0], IsBlank);
      PrefixNotEmpty(lines, k);
    }
  }

  /** When the parser does not close the frontmatter where the writer does, it reads
      the frontmatter with the body, or less than the body. */
  lemma {:induction false} PutGetApart(raw: string, body: string, lines: seq<string>, k: nat)
    requires '\r' !in raw && '\r' !in body && lines == Split(raw, '\n')
    requires Closing(lines, IsWhite) == Some(k) && Closing(lines, IsBlank) != Some(k)
    ensures Get(Replace(raw, body)) != body
  {
    var file := Replace(raw, body);
    var after := Split(file, '\n');
    ReplaceIs(raw, body, lines, k);
    ReplacedLines(raw, body, lines, k, IsWhite);
    ReplacedReturns(raw, body, lines, k);
    if Closing(after, IsBlank) == Some(k) {
      ClosingPrefix(after, lines, IsBlank, k);
      assert false;
    }
    RefitTrims(Region(lines, k), body);
    ReadsLess(file, after, k, Region(after, k), body);
  }

  /** A file whose frontmatter the parser closes later than the writer, or not at
      all, is not read as the text behind the writer's. */
  lemma {:induction false} ReadsLess(file: string, lines: seq<string>, k: nat, region: string, body: string)
    requires '\r' !in file && lines == Split(file, '\n') && |file| > |body|
    requires Closing(lines, IsWhite) == Some(k) && Closing(lines, IsBlank) != Some(k)
    requires region == Region(lines, k) && Trim(region, IsWhite) == Trim(body, IsWhite)
    ensures Get(file) != body
  {
    var parser := Closing(lines, IsBlank);
    if parser.None? {
      NoReturns(file);
    } else {
      LaterClosing(file, lines, k, parser.value);
      TrimShorter(body);
    }
  }

  lemma {:induction false} LaterClosing(file: string, lines: seq<string>, k: nat, m: nat)
    requires '\r' !in file && lines == Split(file, '\n')
    requires Closing(lines, IsWhite) == Some(k) && Closing(lines, IsBlank) == Some(m) && k != m
    ensures |Get(file)| < |Trim(Region(lines, k), IsWhite)| && !Blank(Region(lines, k))
    ensures k + 1 < |lines|
  {
    WriterCloses(lines);
    ClosingFence(lines, m);
    GetIs(file, lines, m);
    BehindFence(lines, k, m);
  }

  lemma {:induction false} ClosingFence(lines: seq<string>, m: nat)
    requires Closing(lines, IsBlank) == Some(m)
    ensures m < |lines| && IsFence(lines[m], IsBlank)
  {
    FirstFenceFound(lines, IsBlank, 1);
  }

  /** Parsing after a replace. The new body is read back exactly when parser and
      writer close the frontmatter at one line and the body is trimmed, or the
      writer sees no frontmatter and the body has none of its own. In the first case
      any body comes back trimmed, and every field as it was. */
  lemma {:induction false} PutGet(raw: string, body: string)
    requires '\r' !in raw && '\r' !in body
    ensures var lines := Split(raw, '\n');
      var writer, parser := Closing(lines, IsWhite), Closing(lines, IsBlank);
      && (Get(Replace(raw, body)) == body
          <==> if writer.None? then Closing(Split(body, '\n'), IsBlank).None?
               else parser == writer && Trimmed(body, IsWhite))
      && (writer.Some? && parser == writer ==>
            && Get(Replace(raw, body)) == Trim(body, IsWhite)
            && SplitSource(Replace(raw, body)).values == SplitSource(raw).values
            && SplitSource(Replace(raw, body)).lists == SplitSource(raw).lists)
  {
    var lines := Split(raw, '\n');
    var writer, parser := Closing(lines, IsWhite), Closing(lines, IsBlank);
    TrimmedIff(body);
    if writer.None? {
      PutGetFrameless(raw, body);
    } else if parser == writer {
      PutGetFramed(raw, body, writer.value);
    } else {
      PutGetApart(raw, body, lines, writer.value);
    }
  }

  lemma {:induction false} TrimShorter(s: string)
    ensures |Trim(s, IsWhite)| <= |s|
  {
  }

  lemma {:induction false} PrefixNotEmpty(lines: seq<string>, k: nat)
    requires 1 <= k < |lines| && IsFence(lines[0], IsBlank)
    ensures |Join(lines[..k + 1], '\n')| > 0
  {
    assert lines[..k + 1][0] == lines[0];
  }

  lemma {:induction false} GetPutFramed(raw: string, k: nat)
    requires Framed(raw, k) && '\r' !in raw
    ensures var lines := Split(raw, '\n');
      Replace(raw, Get(raw)) == raw
      <==> k + 1 < |lines| && (Region(lines, k) == "" || !Blank(Region(lines, k)))
  {
    var lines := Split(raw, '\n');
    GetIs(raw, lines, k);
    var prefix, region := Join(lines[..k + 1], '\n'), Region(lines, k);
    ReplaceIs(raw, Get(raw), lines, k);
    RawParts(raw, lines, k);
    RefitOwn(region);
    SamePrefix(prefix + "\n", Refit(region, Get(raw)), region);
    if k + 1 < |lines| {
      Assoc(prefix, "\n", region);
    } else {
      assert |Replace(raw, Get(raw))| > |raw|;
    }
  }

  lemma {:induction false} SamePrefix(a: string, b: string, c: string)
    ensures a + b == a + c <==> b == c
  {
    if a + b == a + c {
      assert b == (a + b)[|a|..] && c == (a + c)[|a|..];
    }
  }

  lemma {:induction false} RefitLess(region: string, body: string)
    requires !Blank(region) && |body| < |Trim(region, IsWhite)|
    ensures Refit(region, body) != region
  {
    Decompose(region);
    assert |region| == |Leading(region)| + |Trim(region, IsWhite)| + |Trailing(region)|;
  }

  lemma {:induction false} GetPutApart(raw: string, lines: seq<string>, k: nat)
    requires '\r' !in raw && lines == Split(raw, '\n')
    requires Closing(lines, IsWhite) == Some(k) && Closing(lines, IsBlank) != Some(k)
    ensures Replace(raw, Get(raw)) != raw
  {
    var parser, body := Closing(lines, IsBlank), Get(raw);
    ReplaceIs(raw, body, lines, k);
    if parser.None? {
      NoReturns(raw);
    } else {
      LaterClosing(raw, lines, k, parser.value);
      RefitLess(Region(lines, k), body);
      RawParts(raw, lines, k);
      OtherRegion(raw, Join(lines[..k + 1], '\n'), Region(lines, k), Refit(Region(lines, k), body));
    }
  }

  lemma {:induction false} OtherRegion(raw: string, prefix: string, region: string, other: string)
    requires raw == prefix + ("\n" + region) && other != region
    ensures raw != prefix + "\n" + other
  {
    Assoc(prefix, "\n", region);
    SamePrefix(prefix + "\n", other, region);
  }

  /** Putting the parsed body back reproduces the file exactly when the writer sees
      no frontmatter, or closes it where the parser does, with a line behind it and
      a text there that is empty or not blank. */
  lemma {:induction false} GetPut(raw: string)
    requires '\r' !in raw
    ensures var lines := Split(raw, '\n');
      var writer, parser := Closing(lines, IsWhite), Closing(lines, IsBlank);
      Replace(raw, Get(raw)) == raw
      <==> writer.None?
           || (parser == writer && writer.value + 1 < |lines|
               && (Region(lines, writer.value) == "" || !Blank(Region(lines, writer.value))))
  {
    var lines := Split(raw, '\n');
    var writer, parser := Closing(lines, IsWhite), Closing(lines, IsBlank);
    if writer.None? {
      if parser.Some? {
        WriterCloses(lines);
      }
      NoReturns(raw);
    } else if parser == writer {
      GetPutFramed(raw, writer.value);
    } else {
      GetPutApart(raw, lines, writer.value);
    }
  }

  /** Two replaces are the last one, for every second body, exactly when the first
      body was trimmed and, if empty, the region keeps no white space. */
  lemma {:induction false} PutPut(raw: string, first: string, k: nat)
    requires Framed(raw, k)
    ensures var region := Region(Split(raw, '\n'), k);
      (forall body :: Replace(Replace(raw, first), body) == Replace(raw, body))
      <==> Trimmed(first, IsWhite) && (first == "" ==> Leading(region) == "" && Trailing(region) == "")
  {
    var region := Region(Split(raw, '\n'), k);
    forall body ensures Replace(Replace(raw, first), body) == Replace(raw, body)
                        <==> Refit(Refit(region, first), body) == Refit(region, body) {
      ReplaceAgain(raw, first, body, k);
    }
    RefitTwice(region, first);
    if forall body :: Replace(Replace(raw, first), body) == Replace(raw, body) {
      forall body ensures Refit(Refit(region, first), body) == Refit(region, body) {
        assert Replace(Replace(raw, first), body) == Replace(raw, body);
      }
    }
  }

  lemma {:induction false} ReplaceAgain(raw: string, first: string, body: string, k: nat)
    requires Framed(raw, k)
    ensures var region := Region(Split(raw, '\n'), k);
      Replace(Replace(raw, first), body) == Replace(raw, body)
      <==> Refit(Refit(region, first), body) == Refit(region, body)
  {
    var lines, after := Split(raw, '\n'), Split(Replace(raw, first), '\n');
    ReplaceIs(raw, body, lines, k);
    ReplacedLines(raw, first, lines, k, IsWhite);
    ReplaceIs(Replace(raw, first), body, after, k);
    var prefix, region := Join(lines[..k + 1], '\n'), Region(lines, k);
    SamePrefix(prefix + "\n", Refit(Refit(region, first), body), Refit(region, body));
  }

  /** Undo by putting the old body back: lossless after any trimmed, non-empty
      body, on files that take their own body back. */
  lemma {:induction false} UndoRestores(raw: string, body: string, k: nat)
    requires Framed(raw, k) && body != "" && Trimmed(body, IsWhite)
    requires Replace(raw, Get(raw)) == raw
    ensures Replace(Replace(raw, body), Get(raw)) == raw
  {
    PutPut(raw, body, k);
  }

  // ------------------------------------------------------------- the file as written

  /** What a file is after its body was replaced: the frontmatter as it was, and below
      it the new body between the white space that stood around the old one. */
  lemma {:induction false} ReplacedFile(inside: seq<string>, a: string, core: string, b: string, body: string)
    requires forall i :: 0 <= i < |inside| ==>
      FieldReads.Inner(inside[i]) && forall c :: c in inside[i] ==> !IsNewline(c)
    requires Blank(a) && Blank(b) && core != "" && Trimmed(core, IsWhite)
    ensures var front := Join(FieldReads.Fenced(inside), '\n');
      && Replace(front, body) == front + "\n" + body
      && Replace(front + "\n" + (a + core + b), body) == front + "\n" + (a + body + b)
      && Replace(front + "\n" + a, body) == front + "\n" + (a + body + a)
  {
    var top := FieldReads.Fenced(inside);
    FieldReads.FencedLines(inside);
    SplitJoin(top, '\n');
    forall i | 0 <= i < |inside| ensures !IsFence(inside[i], IsWhite) {
      FieldReads.FenceIff(inside[i]);
      SameTrim(inside[i]);
    }
    ReplacedBehind(inside, Join(top, '\n'), [], "", body);
    RefitNothing(body);
    ReplacedRegion(inside, Join(top, '\n'), a + core + b, body);
    EndsOf(a, core, b);
    ReplacedRegion(inside, Join(top, '\n'), a, body);
    EndsAreWhite(a);
  }

  lemma {:induction false} ReplacedRegion(inside: seq<string>, front: string, region: string, body: string)
    requires front == Join(FieldReads.Fenced(inside), '\n') && Split(front, '\n') == FieldReads.Fenced(inside)
    requires forall i :: 0 <= i < |inside| ==> !IsFence(inside[i], IsWhite)
    ensures Replace(front + "\n" + region, body) == front + "\n" + Refit(region, body)
  {
    SplitAt(front, region, '\n');
    JoinSplit(region, '\n');
    ReplacedBehind(inside, front + "\n" + region, Split(region, '\n'), region, body);
  }

  lemma {:induction false} ReplacedBehind(inside: seq<string>, file: string, rest: seq<string>, region: string,
                                          body: string)
    requires Split(file, '\n') == FieldReads.Fenced(inside) + rest && region == Join(rest, '\n')
    requires forall i :: 0 <= i < |inside| ==> !IsFence(inside[i], IsWhite)
    ensures Replace(file, body) == Join(FieldReads.Fenced(inside), '\n') + "\n" + Refit(region, body)
  {
    var top := FieldReads.Fenced(inside);
    var lines := top + rest;
    FieldReads.FencedCloses(lines, inside, rest, IsWhite);
    assert lines[..|inside| + 2] == top;
    ReplaceIs(file, body, lines, |inside| + 1);
  }

  /** A file without frontmatter is replaced as a whole. */
  lemma {:induction false} ReplacedWhole(first: string, rest: seq<string>, body: string)
    requires forall line, c :: line in [first] + rest && c in line ==> !IsNewline(c)
    requires FieldReads.Inner(first) || forall i :: 0 <= i < |rest| ==> FieldReads.Inner(rest[i])
    ensures Replace(Join([first] + rest, '\n'), body) == body
  {
    var lines := [first] + rest;
    forall i | 0 <= i < |lines|
      ensures '\n' !in lines[i] && (FieldReads.Inner(lines[i]) ==> !IsFence(lines[i], IsWhite))
    {
      assert lines[i] in lines;
      FieldReads.FenceIff(lines[i]);
      SameTrim(lines[i]);
    }
    assert lines[0] == first && forall i :: 0 <= i < |rest| ==> rest[i] == lines[i + 1];
    SplitJoin(lines, '\n');
    FieldReads.NeverCloses(first, rest, IsWhite);
  }
}
