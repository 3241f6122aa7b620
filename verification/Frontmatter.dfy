/** A note file as frontmatter and body: the parser's split, its field loop, and the
    file that a new note starts from. */
module Frontmatter {
  import opened Text

  // ------------------------------------------------------------------- fences

  const FENCE := "---"

  /** A delimiter line, once the characters `p` are trimmed. */
  predicate IsFence(line: string, p: char -> bool) {
    Trim(line, p) == FENCE
  }

  /** The first delimiter line from `i` on. */
  function FirstFence(lines: seq<string>, p: char -> bool, i: nat): Option<nat>
    decreases |lines| - i
  {
    if i >= |lines| then None
    else if IsFence(lines[i], p) then Some(i)
    else FirstFence(lines, p, i + 1)
  }

  /** The closing delimiter, when the first line is an opening one. */
  function Closing(lines: seq<string>, p: char -> bool): Option<nat> {
    if |lines| > 0 && IsFence(lines[0], p) then FirstFence(lines, p, 1) else None
  }

  lemma {:induction false} FirstFenceIs(lines: seq<string>, p: char -> bool, i: nat)
    ensures var r := FirstFence(lines, p, i); r.Some? ==> i <= r.value < |lines|
    decreases |lines| - i
  {
    if i < |lines| && !IsFence(lines[i], p) {
      FirstFenceIs(lines, p, i + 1);
    }
  }

  /** It is the first one, and there is none only when no line is one. */
  lemma {:induction false} FirstFenceFound(lines: seq<string>, p: char -> bool, i: nat)
    ensures var r := FirstFence(lines, p, i);
      && (r.Some? ==> i <= r.value < |lines| && IsFence(lines[r.value], p))
      && forall j :: i <= j < (if r.Some? then r.value else |lines|) ==> !IsFence(lines[j], p)
    decreases |lines| - i
  {
    if i < |lines| && !IsFence(lines[i], p) {
      FirstFenceFound(lines, p, i + 1);
    }
  }

  /** Only the lines down to a delimiter decide that it is the first. */
  lemma {:induction false} FirstFencePrefix(a: seq<string>, b: seq<string>, p: char -> bool, i: nat, k: nat)
    requires FirstFence(a, p, i) == Some(k) && k < |a| && k < |b| && a[..k + 1] == b[..k + 1]
    ensures FirstFence(b, p, i) == Some(k)
    decreases |a| - i
  {
    FirstFenceIs(a, p, i);
    assert a[i] == a[..k + 1][i] && b[i] == b[..k + 1][i];
    if !IsFence(a[i], p) {
      FirstFencePrefix(a, b, p, i + 1, k);
    }
  }

  lemma {:induction false} ClosingPrefix(a: seq<string>, b: seq<string>, p: char -> bool, k: nat)
    requires Closing(a, p) == Some(k)
    requires k < |a| && k < |b| && a[..k + 1] == b[..k + 1]
    ensures Closing(b, p) == Some(k)
  {
    assert a[0] == a[..k + 1][0] && b[0] == b[..k + 1][0];
    FirstFencePrefix(a, b, p, 1, k);
  }

  lemma {:induction false} ClosingIs(lines: seq<string>, p: char -> bool)
    ensures var r := Closing(lines, p); r.Some? ==> 1 <= r.value < |lines|
  {
    FirstFenceIs(lines, p, 1);
  }

  // -------------------------------------------------------------------- fields

  /** The dictionaries filled by the parser, and the key that collects list items. */
  datatype Fields = Fields(values: map<string, string>, lists: map<string, seq<string>>, active: Option<string>)

  const NO_FIELDS := Fields(map[], map[], None)

  predicate Quotes(s: string, q: char) {
    |s| >= 2 && s[0] == q && s[|s| - 1] == q
  }

  /** A scalar without its quotes; nothing for a blank text. */
  function Scalar(raw: string): Option<string> {
    var value := Trim(raw, IsWhite);
    if |value| == 0 then None
    else if Quotes(value, '\"') || Quotes(value, '\'') then Some(Trim(value[1..|value| - 1], IsWhite))
    else Some(value)
  }

  function Appended(lists: map<string, seq<string>>, key: string, item: string): map<string, seq<string>> {
    lists[key := (if key in lists then lists[key] else []) + [item]]
  }

  /** One line of the frontmatter. */
  function Step(f: Fields, line: string): Fields {
    var trimmed := Trim(line, IsBlank);
    if |trimmed| == 0 || trimmed[0] == '#' then f
    else if "- " <= trimmed && f.active.Some? then
      var item := Scalar(trimmed[2..]);
      if item.Some? && item.value != "" then f.(lists := Appended(f.lists, f.active.value, item.value)) else f
    else
      var colon := Lead(line, NotColon);
      if colon == |line| then f.(active := None)
      else
        var key, value := Trim(line[..colon], IsBlank), Trim(line[colon + 1..], IsBlank);
        if |key| == 0 || ' ' in key then f.(active := None)
        else Fields(f.values[key := value], f.lists, if |value| == 0 then Some(key) else None)
  }

  function FieldsOf(lines: seq<string>): Fields {
    if |lines| == 0 then NO_FIELDS else Step(FieldsOf(lines[..|lines| - 1]), lines[|lines| - 1])
  }

  lemma {:induction false} FieldsNext(lines: seq<string>, line: string)
    ensures FieldsOf(lines + [line]) == Step(FieldsOf(lines), line)
  {
    assert (lines + [line])[..|lines|] == lines;
  }

  /** Line breaks of other systems become plain ones. */
  function PlainBreaks(s: string): string {
    if |s| == 0 then ""
    else if |s| >= 2 && s[0] == '\r' && s[1] == '\n' then "\n" + PlainBreaks(s[2..])
    else [s[0]] + PlainBreaks(s[1..])
  }

  lemma {:induction false} NoReturns(s: string)
    requires '\r' !in s
    ensures PlainBreaks(s) == s
  {
    if |s| > 0 {
      assert s[0] in s;
      NoReturns(s[1..]);
    }
  }

  /** What the parser sees of a file. */
  datatype Parsed = Parsed(values: map<string, string>, lists: map<string, seq<string>>, body: string)

  function SplitSource(source: string): Parsed {
    var normalized := PlainBreaks(source);
    var lines := Split(normalized, '\n');
    var end := Closing(lines, IsBlank);
    if end.None? then Parsed(map[], map[], normalized)
    else
      ClosingIs(lines, IsBlank);
      var f := FieldsOf(lines[1..end.value]);
      Parsed(f.values, f.lists,
             if end.value + 1 < |lines| then Trim(Join(lines[end.value + 1..], '\n'), IsWhite) else "")
  }

  /** `splitFrontmatter`: the delimiters, the loop over the lines between them, and
      the rest. */
  method SplitFrontmatter(source: string) returns (r: Parsed)
    ensures r == SplitSource(source)
  {
    var normalized := PlainBreaks(source);
    var lines := Split(normalized, '\n');
    var closing := Closing(lines, IsBlank);
    if closing.None? {
      return Parsed(map[], map[], normalized);
    }
    ClosingIs(lines, IsBlank);
    var end := closing.value;
    var f := ReadFields(lines, end);
    var body := if end + 1 < |lines| then Trim(Join(lines[end + 1..], '\n'), IsWhite) else "";
    r := Parsed(f.values, f.lists, body);
  }

  method ReadFields(lines: seq<string>, end: nat) returns (f: Fields)
    requires 1 <= end < |lines|
    ensures f == FieldsOf(lines[1..end])
  {
    var values, lists := map[], map[];
    var activeListKey := None;
    for i := 1 to end
      invariant Fields(values, lists, activeListKey) == FieldsOf(lines[1..i])
    {
      assert lines[1..i + 1] == lines[1..i] + [lines[i]];
      FieldsNext(lines[1..i], lines[i]);
      values, lists, activeListKey := ReadLine(lines[i], values, lists, activeListKey);
    }
    f := Fields(values, lists, activeListKey);
  }

  method ReadLine(line: string, oldValues: map<string, string>, oldLists: map<string, seq<string>>,
                  oldKey: Option<string>)
    returns (values: map<string, string>, lists: map<string, seq<string>>, key: Option<string>)
    ensures Fields(values, lists, key) == Step(Fields(oldValues, oldLists, oldKey), line)
  {
    values, lists, key := oldValues, oldLists, oldKey;
    var trimmed := Trim(line, IsBlank);
    if |trimmed| == 0 || trimmed[0] == '#' {
      return;
    }
    if "- " <= trimmed && key.Some? {
      var item := Scalar(trimmed[2..]);
      if item.Some? && item.value != "" {
        lists := Appended(lists, key.value, item.value);
      }
      return;
    }
    var colon := Lead(line, NotColon);
    if colon == |line| {
      key := None;
      return;
    }
    var name, value := Trim(line[..colon], IsBlank), Trim(line[colon + 1..], IsBlank);
    if |name| == 0 || ' ' in name {
      key := None;
      return;
    }
    values := values[name := value];
    key := if |value| == 0 then Some(name) else None;
  }
}
