/** The offline LaTeX-to-Unicode renderer: rewriting of fractions, roots and
    text commands with recursively rendered groups, then symbols, scripts and
    cleanup. The character tables are a parameter. */
module MathTypesetter {
  import opened Text

  /** Symbol commands in any order of replacement, and the script characters. */
  datatype Tables = Tables(symbols: seq<(string, char)>, superscripts: map<char, char>, subscripts: map<char, char>)

  // ------------------------------------------------------------------ search

  /** Where the pattern first occurs. */
  function Find(s: string, pattern: string): (r: Option<nat>)
    ensures r.Some? ==> r.value + |pattern| <= |s|
  {
    if pattern <= s then Some(0)
    else if |s| == 0 then None
    else
      var r := Find(s[1..], pattern);
      if r.Some? then Some(r.value + 1) else None
  }

  lemma {:induction false} FindIsFirst(s: string, pattern: string)
    ensures var r := Find(s, pattern);
      var bound := if r.Some? then r.value else |s| + 1;
      && (r.Some? ==> pattern <= s[r.value..])
      && forall j :: 0 <= j < bound ==> !(pattern <= s[j..])
  {
    assert s[0..] == s;
    if !(pattern <= s) && s != "" {
      FindIsFirst(s[1..], pattern);
      assert forall j :: 1 <= j <= |s| ==> s[j..] == s[1..][j - 1..];
    }
  }

  function ReplaceAll(s: string, pattern: string, with: string): (r: string)
    requires pattern != ""
    ensures |with| <= |pattern| ==> |r| <= |s|
  {
    if |s| == 0 then ""
    else if pattern <= s then with + ReplaceAll(s[|pattern|..], pattern, with)
    else [s[0]] + ReplaceAll(s[1..], pattern, with)
  }

  lemma {:induction false} NothingToReplace(s: string, pattern: string, with: string)
    requires pattern != "" && pattern[0] !in s
    ensures ReplaceAll(s, pattern, with) == s
  {
    if |s| > 0 {
      NothingToReplace(s[1..], pattern, with);
    }
  }

  lemma {:induction false} RemovedIsGone(s: string, c: char, d: char)
    ensures c !in ReplaceAll(s, [c], "")
    ensures d !in s ==> d !in ReplaceAll(s, [c], "")
  {
    if |s| > 0 {
      RemovedIsGone(s[1..], c, d);
    }
  }

  // ------------------------------------------------------------------ groups

  /** Index of the brace that closes `depth` open groups. */
  function Closing(s: string, depth: nat): (r: Option<nat>)
    requires depth >= 1
    ensures r.Some? ==> r.value < |s|
  {
    if |s| == 0 then None
    else if s[0] == '}' && depth == 1 then Some(0)
    else
      var next := if s[0] == '{' then depth + 1 else if s[0] == '}' then depth - 1 else depth;
      var r := Closing(s[1..], next);
      if r.Some? then Some(r.value + 1) else None
  }

  predicate IsSpace(c: char) {
    c == ' '
  }

  /** A braced group or a single character, after spaces, and what follows. */
  function TakeGroup(s: string): (r: Option<(string, string)>)
    ensures r.Some? ==> |r.value.0| + |r.value.1| <= |s|
  {
    var t := s[Lead(s, IsSpace)..];
    if |t| == 0 then None
    else if t[0] != '{' then Some(([t[0]], t[1..]))
    else
      var close := Closing(t[1..], 1);
      if close.None? then None else Some((t[1..][..close.value], t[1..][close.value + 1..]))
  }

  /** The loops of `takeGroup`: skip spaces, then keep a running depth and the
      content so far. */
  method TakeGroupLoop(source: string) returns (r: Option<(string, string)>)
    ensures r == TakeGroup(source)
  {
    var s := SkipSpaces(source);
    if |s| == 0 {
      return None;
    }
    if s[0] != '{' {
      return Some(([s[0]], s[1..]));
    }
    r := ScanGroup(s);
  }

  method SkipSpaces(source: string) returns (s: string)
    ensures s == source[Lead(source, IsSpace)..]
  {
    s := source;
    while s != "" && s[0] == ' '
      invariant |s| <= |source| && s == source[|source| - |s|..] && |source| - |s| <= Lead(source, IsSpace)
      decreases |s|
    {
      LeadStep(source, IsSpace, |source| - |s|);
      s := s[1..];
    }
    LeadStop(source, IsSpace, |source| - |s|);
  }

  lemma {:induction false} ClosingStep(s: string, idx: nat, depth: nat)
    requires 1 <= idx < |s| && depth >= 1
    ensures var c, rest := s[idx], s[idx + 1..];
      Shifted(Closing(s[idx..], depth), idx - 1)
        == if c == '{' then Shifted(Closing(rest, depth + 1), idx)
           else if c != '}' then Shifted(Closing(rest, depth), idx)
           else if depth > 1 then Shifted(Closing(rest, depth - 1), idx)
           else Some(idx - 1)
  {
    assert s[idx..][0] == s[idx] && s[idx..][1..] == s[idx + 1..];
  }

  method ScanGroup(s: string) returns (r: Option<(string, string)>)
    requires s != "" && s[0] == '{'
    ensures var close := Closing(s[1..], 1);
      r == if close.None? then None else Some((s[1..][..close.value], s[1..][close.value + 1..]))
  {
    var depth: nat, content, idx := 1, "", 1;
    while idx < |s|
      invariant 1 <= idx <= |s| && depth >= 1 && content == s[1..idx]
      invariant Shifted(Closing(s[idx..], depth), idx - 1) == Closing(s[1..], 1)
    {
      var c := s[idx];
      ClosingStep(s, idx, depth);
      if c == '{' {
        depth := depth + 1;
      } else if c == '}' {
        if depth == 1 {
          assert s[1..][..idx - 1] == s[1..idx] && s[1..][idx..] == s[idx + 1..];
          return Some((content, s[idx + 1..]));
        }
        depth := depth - 1;
      }
      content := content + [c];
      idx := idx + 1;
    }
    return None;
  }

  function Shifted(r: Option<nat>, n: nat): Option<nat> {
    if r.Some? then Some(r.value + n) else None
  }

  lemma {:induction false} LeadStep(s: string, p: char -> bool, n: nat)
    requires n < |s| && n <= Lead(s, p) && p(s[n])
    ensures n + 1 <= Lead(s, p)
  {
    if n > 0 {
      LeadStep(s[1..], p, n - 1);
    }
  }

  lemma {:induction false} LeadStop(s: string, p: char -> bool, n: nat)
    requires n <= |s| && n <= Lead(s, p) && (n < |s| ==> !p(s[n]))
    ensures n == Lead(s, p)
  {
    LeadRun(s, p);
    assert forall i :: 0 <= i < n ==> s[..Lead(s, p)][i] == s[i];
    LeadUnique(s, p, n);
  }

  // --------------------------------------------------------------- rewriting

  const FRAC := "\\frac"
  const SLASH := "\U{2044}"
  const ROOT := "\U{221A}"

  /** The first command of a text: absent, without its groups (and then only
      its backslash is dropped), or split into what surrounds its groups. */
  datatype Command =
    | Absent
    | Broken(text: string)
    | Grouped(before: string, groups: seq<string>, after: string)

  function FracCommand(s: string): (r: Command)
    ensures r.Broken? ==> |r.text| < |s|
    ensures r.Grouped? ==>
      |r.groups| == 2 && |r.before| + |r.groups[0]| + |r.groups[1]| + |r.after| + |FRAC| <= |s|
  {
    var at := Find(s, FRAC);
    if at.None? then Absent
    else
      var before, rest := s[..at.value], s[at.value + |FRAC|..];
      var num := TakeGroup(rest);
      if num.None? then Broken(before + "frac" + rest)
      else
        var den := TakeGroup(num.value.1);
        if den.None? then Broken(before + num.value.0 + "/" + num.value.1)
        else Grouped(before, [num.value.0, den.value.0], den.value.1)
  }

  function NamedCommand(s: string, name: string): (r: Command)
    ensures r.Broken? ==> |r.text| < |s|
    ensures r.Grouped? ==>
      |r.groups| == 1 && |r.before| + |r.groups[0]| + |r.after| + 1 + |name| <= |s|
  {
    var at := Find(s, "\\" + name);
    if at.None? then Absent
    else
      var before, rest := s[..at.value], s[at.value + 1 + |name|..];
      var arg := TakeGroup(rest);
      if arg.None? then Broken(before + name + rest)
      else Grouped(before, [arg.value.0], arg.value.1)
  }

  /** One rewrite of the first `\frac`. */
  function FracStep(t: Tables, s: string): (r: Option<string>)
    ensures r.Some? ==> |r.value| < |s|
    ensures r.None? <==> FracCommand(s).Absent?
    decreases |s|, 0
  {
    match FracCommand(s)
    case Absent => None
    case Broken(text) => Some(text)
    case Grouped(before, groups, after) =>
      Some(before + "(" + Render(t, groups[0]) + SLASH + Render(t, groups[1]) + ")" + after)
  }

  /** The commands with one group; a root is wrapped, text is not. */
  predicate IsNamed(name: string) {
    name == "sqrt" || name == "text" || name == "mathrm"
  }

  /** One rewrite of the first `\name`. */
  function CommandStep(t: Tables, s: string, name: string): (r: Option<string>)
    requires IsNamed(name)
    ensures r.Some? ==> |r.value| < |s|
    ensures r.None? <==> NamedCommand(s, name).Absent?
    decreases |s|, 0
  {
    match NamedCommand(s, name)
    case Absent => None
    case Broken(text) => Some(text)
    case Grouped(before, groups, after) => Some(before + Wrapped(name, Render(t, groups[0])) + after)
  }

  function Wrapped(name: string, content: string): string {
    if name == "sqrt" then ROOT + "(" + content + ")" else content
  }

  function Fracs(t: Tables, s: string): (r: string)
    ensures |r| <= |s| && FracCommand(r).Absent?
    decreases |s|, 1
  {
    var r := FracStep(t, s);
    if r.None? then s else Fracs(t, r.value)
  }

  function Commands(t: Tables, s: string, name: string): (r: string)
    requires IsNamed(name)
    ensures |r| <= |s| && NamedCommand(r, name).Absent?
    decreases |s|, 1
  {
    var r := CommandStep(t, s, name);
    if r.None? then s else Commands(t, r.value, name)
  }

  function Symbols(s: string, symbols: seq<(string, char)>): (r: string)
    ensures |r| <= |s|
    decreases symbols
  {
    if |symbols| == 0 then s
    else Symbols(ReplaceAll(s, "\\" + symbols[0].0, [symbols[0].1]), symbols[1..])
  }

  lemma {:induction false} NoSymbols(s: string, symbols: seq<(string, char)>)
    requires '\\' !in s
    ensures Symbols(s, symbols) == s
  {
    if |symbols| > 0 {
      NothingToReplace(s, "\\" + symbols[0].0, [symbols[0].1]);
      NoSymbols(s, symbols[1..]);
    }
  }

  predicate AllMapped(group: string, script: map<char, char>) {
    forall i :: 0 <= i < |group| ==> group[i] in script
  }

  function Mapped(group: string, script: map<char, char>): (r: string)
    requires AllMapped(group, script)
    ensures |r| == |group|
  {
    seq(|group|, i requires 0 <= i < |group| => script[group[i]])
  }

  function Scripts(s: string, marker: char, script: map<char, char>): (r: string)
    ensures |r| <= |s|
  {
    if |s| == 0 then ""
    else if s[0] != marker then [s[0]] + Scripts(s[1..], marker, script)
    else
      var group := TakeGroup(s[1..]);
      if group.None? then [marker] + Scripts(s[1..], marker, script)
      else if AllMapped(group.value.0, script) then
        Mapped(group.value.0, script) + Scripts(group.value.1, marker, script)
      else [marker] + group.value.0 + Scripts(group.value.1, marker, script)
  }

  lemma {:induction false} NoScripts(s: string, marker: char, script: map<char, char>)
    requires marker !in s
    ensures Scripts(s, marker, script) == s
  {
    if |s| > 0 {
      assert s == [s[0]] + s[1..];
      NoScripts(s[1..], marker, script);
    }
  }

  function Cleanup(s: string): (r: string)
    ensures |r| <= |s|
  {
    var t := ReplaceAll(ReplaceAll(ReplaceAll(s, "{", ""), "}", ""), "\\", "");
    Trim(t, IsBlank)
  }

  /** The passes after the commands. */
  function Finish(t: Tables, s: string): (r: string)
    ensures |r| <= |s|
  {
    Cleanup(Scripts(Scripts(Symbols(s, t.symbols), '^', t.superscripts), '_', t.subscripts))
  }

  /** Rendering never makes a text longer, which is also why it terminates: the
      groups of a rewrite are shorter than the text, and what they render to is
      no longer than they are, so every rewrite shrinks the text. */
  function Render(t: Tables, tex: string): (r: string)
    ensures |r| <= |tex|
    decreases |tex|, 2
  {
    var a := Fracs(t, tex);
    var b := Commands(t, a, "sqrt");
    var c := Commands(t, b, "text");
    var d := Commands(t, c, "mathrm");
    Finish(t, d)
  }

  // ------------------------------------------------------- the mutable forms

  lemma {:induction false} ScriptsCons(c: char, rest: string, marker: char, script: map<char, char>)
    requires c != marker
    ensures Scripts([c] + rest, marker, script) == [c] + Scripts(rest, marker, script)
  {
    assert ([c] + rest)[1..] == rest;
  }

  lemma {:induction false} ScriptsAfter(a: string, b: string, marker: char, script: map<char, char>)
    requires marker !in a
    ensures Scripts(a + b, marker, script) == a + Scripts(b, marker, script)
  {
    if |a| == 0 {
      assert a + b == b && a + Scripts(b, marker, script) == Scripts(b, marker, script);
    } else {
      var c, rest := a[0], a[1..];
      assert c in a && a == [c] + rest;
      ScriptsAfter(rest, b, marker, script);
      ScriptsCons(c, rest + b, marker, script);
      Assoc([c], rest, b);
      Assoc([c], rest, Scripts(b, marker, script));
    }
  }

  method FirstIndex(s: string, c: char) returns (i: nat)
    ensures i <= |s| && c !in s[..i] && (i < |s| ==> s[i] == c)
  {
    i := 0;
    while i < |s| && s[i] != c
      invariant i <= |s| && c !in s[..i]
    {
      i := i + 1;
    }
  }

  method Convert(group: string, script: map<char, char>) returns (converted: string, allMapped: bool)
    ensures allMapped == AllMapped(group, script)
    ensures allMapped ==> converted == Mapped(group, script)
  {
    converted, allMapped := "", true;
    for k := 0 to |group|
      invariant allMapped && |converted| == k
      invariant forall i :: 0 <= i < k ==> group[i] in script && converted[i] == script[group[i]]
    {
      if group[k] !in script {
        allMapped := false;
        return;
      }
      converted := converted + [script[group[k]]];
    }
  }

  /** What becomes of a marker whose group has been taken. */
  function Script(group: string, marker: char, script: map<char, char>): string {
    if AllMapped(group, script) then Mapped(group, script) else [marker] + group
  }

  lemma {:induction false} ScriptsAtMarker(s: string, idx: nat, marker: char, script: map<char, char>)
    requires idx < |s| && marker !in s[..idx] && s[idx] == marker
    ensures var after := s[idx + 1..]; var group := TakeGroup(after);
      Scripts(s, marker, script) == s[..idx] +
        if group.None? then [marker] + Scripts(after, marker, script)
        else Script(group.value.0, marker, script) + Scripts(group.value.1, marker, script)
  {
    assert s == s[..idx] + s[idx..] && s[idx..][1..] == s[idx + 1..];
    ScriptsAfter(s[..idx], s[idx..], marker, script);
  }

  /** One turn of `renderScripts`: what is passed on, and what is left to do. */
  method RenderScript(rest: string, idx: nat, marker: char, script: map<char, char>)
    returns (done: string, rest': string)
    requires idx < |rest| && marker !in rest[..idx] && rest[idx] == marker
    ensures |rest'| < |rest|
    ensures Scripts(rest, marker, script) == done + Scripts(rest', marker, script)
  {
    ScriptsAtMarker(rest, idx, marker, script);
    var after := rest[idx + 1..];
    var group := TakeGroupLoop(after);
    if group.None? {
      done, rest' := rest[..idx] + [marker], after;
      Assoc(rest[..idx], [marker], Scripts(after, marker, script));
    } else {
      var converted, allMapped := Convert(group.value.0, script);
      var text := if allMapped then converted else [marker] + group.value.0;
      done, rest' := rest[..idx] + text, group.value.1;
      Assoc(rest[..idx], text, Scripts(rest', marker, script));
    }
  }

  /** `renderScripts`: the text before a marker is passed on, its group is
      converted when every character has a script form. */
  method RenderScripts(s: string, marker: char, script: map<char, char>) returns (result: string)
    ensures result == Scripts(s, marker, script)
  {
    result := "";
    var rest := s;
    var idx := FirstIndex(rest, marker);
    while idx < |rest|
      invariant 0 <= idx <= |rest| && marker !in rest[..idx] && (idx < |rest| ==> rest[idx] == marker)
      invariant result + Scripts(rest, marker, script) == Scripts(s, marker, script)
      decreases |rest|
    {
      ghost var before := result;
      var done, rest' := RenderScript(rest, idx, marker, script);
      result := result + done;
      rest := rest';
      Assoc(before, done, Scripts(rest, marker, script));
      idx := FirstIndex(rest, marker);
    }
    assert rest[..idx] == rest;
    NoScripts(rest, marker, script);
    result := result + rest;
  }

  method FindFrac(s: string) returns (r: Command)
    ensures r == FracCommand(s)
  {
    var at := Find(s, FRAC);
    if at.None? {
      return Absent;
    }
    var rest := s[at.value + |FRAC|..];
    var num := TakeGroupLoop(rest);
    if num.None? {
      return Broken(s[..at.value] + "frac" + rest);
    }
    rest := num.value.1;
    var den := TakeGroupLoop(rest);
    if den.None? {
      return Broken(s[..at.value] + num.value.0 + "/" + rest);
    }
    return Grouped(s[..at.value], [num.value.0, den.value.0], den.value.1);
  }

  method RenderFrac(t: Tables, s: string) returns (r: Option<string>)
    ensures r == FracStep(t, s)
    decreases |s|, 0
  {
    var command := FindFrac(s);
    match command {
      case Absent =>
        return None;
      case Broken(text) =>
        return Some(text);
      case Grouped(before, groups, after) =>
        var num := RenderLoop(t, groups[0]);
        var den := RenderLoop(t, groups[1]);
        return Some(before + "(" + num + SLASH + den + ")" + after);
    }
  }

  method FindNamed(s: string, name: string) returns (r: Command)
    requires IsNamed(name)
    ensures r == NamedCommand(s, name)
  {
    var at := Find(s, "\\" + name);
    if at.None? {
      return Absent;
    }
    var rest := s[at.value + 1 + |name|..];
    var arg := TakeGroupLoop(rest);
    if arg.None? {
      return Broken(s[..at.value] + name + rest);
    }
    return Grouped(s[..at.value], [arg.value.0], arg.value.1);
  }

  method RenderCommand(t: Tables, s: string, name: string) returns (r: Option<string>)
    requires IsNamed(name)
    ensures r == CommandStep(t, s, name)
    decreases |s|, 0
  {
    var command := FindNamed(s, name);
    match command {
      case Absent =>
        return None;
      case Broken(text) =>
        return Some(text);
      case Grouped(before, groups, after) =>
        var content := RenderLoop(t, groups[0]);
        return Some(before + Wrapped(name, content) + after);
    }
  }

  method RenderCommands(t: Tables, source: string, name: string) returns (s: string)
    requires IsNamed(name)
    ensures s == Commands(t, source, name)
    decreases |source|, 1
  {
    s := source;
    var r := RenderCommand(t, s, name);
    while r.Some?
      invariant |s| <= |source| && Commands(t, s, name) == Commands(t, source, name)
      invariant r == CommandStep(t, s, name)
      decreases |s|
    {
      s := r.value;
      r := RenderCommand(t, s, name);
    }
  }

  /** `render`: rewriting loops that end when no command is left. */
  method RenderLoop(t: Tables, tex: string) returns (s: string)
    ensures s == Render(t, tex)
    decreases |tex|, 2
  {
    s := tex;
    var r := RenderFrac(t, s);
    while r.Some?
      invariant |s| <= |tex| && Fracs(t, s) == Fracs(t, tex)
      invariant r == FracStep(t, s)
      decreases |s|
    {
      s := r.value;
      r := RenderFrac(t, s);
    }
    s := RenderCommands(t, s, "sqrt");
    s := RenderCommands(t, s, "text");
    s := RenderCommands(t, s, "mathrm");
    ghost var rewritten := s;
    for k := 0 to |t.symbols|
      invariant Symbols(s, t.symbols[k..]) == Symbols(rewritten, t.symbols)
    {
      s := ReplaceAll(s, "\\" + t.symbols[k].0, [t.symbols[k].1]);
      assert t.symbols[k..][1..] == t.symbols[k + 1..];
    }
    s := RenderScripts(s, '^', t.superscripts);
    s := RenderScripts(s, '_', t.subscripts);
    s := Cleanup(s);
  }

  // ----------------------------------------------------- what rendering means

  lemma {:induction false} TrimIn(s: string, p: char -> bool)
    ensures forall c :: c in Trim(s, p) ==> c in s
  {
    var a, b := TrimParts(s, p);
  }

  /** No brace and no backslash survives, and the result is trimmed. */
  lemma {:induction false} RenderIsClean(t: Tables, tex: string)
    ensures var r := Render(t, tex);
      '{' !in r && '}' !in r && '\\' !in r && Trimmed(r, IsBlank)
  {
    var d := Commands(t, Commands(t, Commands(t, Fracs(t, tex), "sqrt"), "text"), "mathrm");
    var s := Scripts(Scripts(Symbols(d, t.symbols), '^', t.superscripts), '_', t.subscripts);
    var u := ReplaceAll(s, "{", "");
    var v := ReplaceAll(u, "}", "");
    var w := ReplaceAll(v, "\\", "");
    RemovedIsGone(s, '{', '{');
    RemovedIsGone(u, '}', '{');
    RemovedIsGone(v, '\\', '{');
    RemovedIsGone(v, '\\', '}');
    TrimIn(w, IsBlank);
    var a, b := TrimParts(w, IsBlank);
  }

  lemma {:induction false} NoCommand(s: string, pattern: string)
    requires pattern != "" && pattern[0] !in s
    ensures Find(s, pattern) == None
  {
    if |s| > 0 {
      NoCommand(s[1..], pattern);
    }
  }

  lemma {:induction false} NoCommands(t: Tables, s: string)
    requires '\\' !in s
    ensures Render(t, s) == Finish(t, s)
    ensures Fracs(t, s) == s
    ensures Commands(t, s, "sqrt") == s && Commands(t, s, "text") == s && Commands(t, s, "mathrm") == s
  {
    NoCommand(s, FRAC);
    NoCommand(s, "\\sqrt");
    NoCommand(s, "\\text");
    NoCommand(s, "\\mathrm");
    assert "\\" + "sqrt" == "\\sqrt" && "\\" + "text" == "\\text" && "\\" + "mathrm" == "\\mathrm";
  }

  predicate Plain(s: string) {
    '\\' !in s && '{' !in s && '}' !in s && '^' !in s && '_' !in s
  }

  /** Text without TeX in it is only trimmed. */
  lemma {:induction false} PlainIsTrimmed(t: Tables, s: string)
    requires Plain(s)
    ensures Render(t, s) == Trim(s, IsBlank) == Finish(t, s)
  {
    NoCommands(t, s);
    NoSymbols(s, t.symbols);
    NoScripts(s, '^', t.superscripts);
    NoScripts(s, '_', t.subscripts);
    NothingToReplace(s, "{", "");
    NothingToReplace(s, "}", "");
    NothingToReplace(s, "\\", "");
  }

  /** Every brace has its partner; `depth` groups are open before. */
  predicate Nested(s: string, depth: nat) {
    if |s| == 0 then depth == 0
    else if s[0] == '{' then Nested(s[1..], depth + 1)
    else if s[0] == '}' then depth > 0 && Nested(s[1..], depth - 1)
    else Nested(s[1..], depth)
  }

  lemma {:induction false} ClosingNested(a: string, depth: nat, rest: string)
    requires Nested(a, depth)
    ensures Closing(a + "}" + rest, depth + 1) == Some(|a|)
  {
    var s := a + "}" + rest;
    if |a| > 0 {
      assert s[1..] == a[1..] + "}" + rest;
      var next := if a[0] == '{' then depth + 1 else if a[0] == '}' then depth - 1 else depth;
      ClosingNested(a[1..], next, rest);
    }
  }

  /** A braced group whose content is balanced is taken as a whole. */
  lemma {:induction false} TakeBraced(a: string, rest: string)
    requires Nested(a, 0)
    ensures TakeGroup("{" + a + "}" + rest) == Some((a, rest))
  {
    var s := "{" + a + "}" + rest;
    LeadUnique(s, IsSpace, 0);
    assert s[1..] == a + "}" + rest;
    ClosingNested(a, 0, rest);
    assert s[1..][..|a|] == a && s[1..][|a| + 1..] == rest;
  }

  /** A backslash and something without one, as every command is. */
  predicate IsCommand(pattern: string) {
    pattern != "" && pattern[0] == '\\' && '\\' !in pattern[1..]
  }

  lemma {:induction false} FindBehind(before: string, pattern: string, rest: string)
    requires IsCommand(pattern) && Find(before, pattern) == None
    ensures Find(before + pattern + rest, pattern) == Some(|before|)
  {
    var s := before + pattern + rest;
    if |before| == 0 {
      assert s[..|pattern|] == pattern;
    } else {
      assert s[|before|] == '\\';
      NotAtStart(before, pattern, s);
      assert s[1..] == before[1..] + pattern + rest;
      FindBehind(before[1..], pattern, rest);
    }
  }

  /** The command does not overlap itself: an occurrence at the start of a text
      lies within what stands before the next backslash. */
  lemma {:induction false} NotAtStart(before: string, pattern: string, s: string)
    requires IsCommand(pattern) && |before| > 0 && before <= s && Find(before, pattern) == None
    requires |before| < |s| && s[|before|] == '\\'
    ensures !(pattern <= s)
  {
    if |before| >= |pattern| {
      assert !(pattern <= before);
      assert s[..|pattern|] == before[..|pattern|];
    } else {
      assert pattern[1..][|before| - 1] == pattern[|before|];
    }
  }

  function FracText(a: string, b: string): string {
    FRAC + "{" + a + "}{" + b + "}"
  }

  /** Spaces before a group are skipped, and a character without braces is a group. */
  lemma {:induction false} TakeSpaced(blanks: string, rest: string)
    requires forall c :: c in blanks ==> c == ' '
    ensures TakeGroup(blanks + rest) == TakeGroup(rest)
    ensures rest != "" && rest[0] != ' ' && rest[0] != '{' ==> TakeGroup(rest) == Some(([rest[0]], rest[1..]))
  {
    var n := Lead(rest, IsSpace);
    LeadRun(rest, IsSpace);
    var s := blanks + rest;
    assert s[..|blanks| + n] == blanks + rest[..n];
    forall i | 0 <= i < |blanks| + n ensures IsSpace(s[i]) {
      if i >= |blanks| {
        assert s[i] == rest[..n][i - |blanks|];
      } else {
        assert blanks[i] in blanks;
      }
    }
    LeadUnique(s, IsSpace, |blanks| + n);
    assert s[|blanks| + n..] == rest[n..];
    if rest != "" && rest[0] != ' ' {
      assert n == 0 && rest[0..] == rest;
    }
  }

  lemma {:induction false} FracTextParts(before: string, a: string, b: string, after: string)
    ensures before + FracText(a, b) + after == before + FRAC + ("{" + a + "}" + ("{" + b + "}" + after))
  {
    assert FracText(a, b) + after == FRAC + ("{" + a + "}" + ("{" + b + "}" + after));
    assert before + FracText(a, b) + after == before + (FracText(a, b) + after);
  }

  lemma {:induction false} FracCommandOf(before: string, a: string, b: string, after: string)
    requires Find(before, FRAC) == None && Nested(a, 0) && Nested(b, 0)
    ensures FracCommand(before + FracText(a, b) + after) == Grouped(before, [a, b], after)
  {
    var second := "{" + b + "}" + after;
    var rest := "{" + a + "}" + second;
    FracTextParts(before, a, b, after);
    TakeBraced(a, second);
    TakeBraced(b, after);
    FracCommandAt(before, rest, (a, second), (b, after));
  }

  lemma {:induction false} FracCommandAt(before: string, rest: string, num: (string, string), den: (string, string))
    requires Find(before, FRAC) == None && TakeGroup(rest) == Some(num) && TakeGroup(num.1) == Some(den)
    ensures FracCommand(before + FRAC + rest) == Grouped(before, [num.0, den.0], den.1)
  {
    var s := before + FRAC + rest;
    assert IsCommand(FRAC);
    FindBehind(before, FRAC, rest);
    assert s[|before| + |FRAC|..] == rest && s[..|before|] == before;
  }

  lemma {:induction false} NotIn(c: char, x: string, y: string)
    requires c !in x && c !in y && c != '(' && c != ')' && [c] != SLASH
    ensures c !in Quotient(x, y)
  {
    assert forall d :: d in SLASH ==> d == SLASH[0];
    assert c !in "(" + x;
    assert c !in "(" + x + SLASH;
    assert c !in "(" + x + SLASH + y;
  }

  /** Numerator and denominator in brackets, around a fraction slash. */
  function Quotient(x: string, y: string): string {
    "(" + x + "\U{2044}" + y + ")"
  }

  lemma {:induction false} StepOf(t: Tables, s: string, before: string, a: string, b: string, after: string)
    requires FracCommand(s) == Grouped(before, [a, b], after)
    ensures Render(t, s) == Render(t, before + "(" + Render(t, a) + SLASH + Render(t, b) + ")" + after)
  {
    var r := FracStep(t, s);
    assert r.Some? && Fracs(t, s) == Fracs(t, r.value);
  }

  lemma {:induction false} QuotientBetween(before: string, x: string, y: string, after: string)
    ensures before + "(" + x + SLASH + y + ")" + after == before + Quotient(x, y) + after
  {
    var p := "(" + x;
    Assoc(before, "(", x);
    Assoc(before, p, SLASH);
    Assoc(before, p + SLASH, y);
    Assoc(before, p + SLASH + y, ")");
  }

  /** The first fraction of a text, when its groups are balanced, may be replaced
      by the quotient of its rendered groups: the text renders as before, whatever
      other commands stand around it. Nesting is free. */
  lemma {:induction false} FractionRenders(t: Tables, before: string, a: string, b: string, after: string)
    requires Find(before, FRAC) == None && Nested(a, 0) && Nested(b, 0)
    ensures Render(t, before + FracText(a, b) + after)
      == Render(t, before + Quotient(Render(t, a), Render(t, b)) + after)
  {
    FracCommandOf(before, a, b, after);
    StepOf(t, before + FracText(a, b) + after, before, a, b, after);
    QuotientBetween(before, Render(t, a), Render(t, b), after);
  }

  /** A fraction without its groups keeps its name, and one with only a numerator
      keeps that and a slash. */
  lemma {:induction false} BrokenFraction(t: Tables, before: string, rest: string)
    requires Find(before, FRAC) == None
    ensures TakeGroup(rest) == None ==> Render(t, before + "\\frac" + rest) == Render(t, before + "frac" + rest)
    ensures TakeGroup(rest).Some? && TakeGroup(TakeGroup(rest).value.1) == None ==>
      var (num, behind) := TakeGroup(rest).value;
      Render(t, before + "\\frac" + rest) == Render(t, before + num + "/" + behind)
  {
    var s := before + FRAC + rest;
    assert IsCommand(FRAC);
    FindBehind(before, FRAC, rest);
    assert s[|before| + |FRAC|..] == rest && s[..|before|] == before;
    if FracCommand(s).Broken? {
      StepBroken(t, s, FracCommand(s).text);
    }
  }

  lemma {:induction false} StepBroken(t: Tables, s: string, text: string)
    requires FracCommand(s) == Broken(text)
    ensures Render(t, s) == Render(t, text)
  {
    assert FracStep(t, s) == Some(text) && Fracs(t, s) == Fracs(t, text);
  }

  // ------------------------------------------------------------- roots and text

  lemma {:induction false} NoneInPrefix(a: string, b: string, pattern: string)
    requires Find(a + b, pattern) == None
    ensures Find(a, pattern) == None
  {
    if |a| > 0 {
      TailOfConcat(a, b);
      NoneInPrefix(a[1..], b, pattern);
      assert pattern <= a ==> pattern <= a + b;
    }
  }

  lemma {:induction false} NoneInSuffix(a: string, b: string, pattern: string)
    requires Find(a + b, pattern) == None
    ensures Find(b, pattern) == None
  {
    if |a| > 0 {
      TailOfConcat(a, b);
      NoneInSuffix(a[1..], b, pattern);
    } else {
      assert a + b == b;
    }
  }

  lemma {:induction false} NoneBehind(m: string, after: string, pattern: string)
    requires pattern != "" && pattern[0] !in m && Find(after, pattern) == None
    ensures Find(m + after, pattern) == None
  {
    if |m| > 0 {
      TailOfConcat(m, after);
      NoneBehind(m[1..], after, pattern);
    } else {
      assert m + after == after;
    }
  }

  /** A text in the middle that starts with a foreign character lets no command
      arise across it. */
  lemma {:induction false} NoneAcross(before: string, m: string, after: string, pattern: string)
    requires pattern != "" && pattern[0] !in m && |m| > 0 && m[0] !in pattern
    requires Find(before, pattern) == None && Find(after, pattern) == None
    ensures Find(before + (m + after), pattern) == None
  {
    var s := before + (m + after);
    if |before| == 0 {
      assert s == m + after;
      NoneBehind(m, after, pattern);
    } else {
      TailOfConcat(before, m + after);
      NoneAcross(before[1..], m, after, pattern);
      assert s[|before|] == m[0];
      assert pattern <= s && |pattern| <= |before| ==> pattern <= before;
    }
  }

  /** The first `\\name` of a text, with a balanced group, is exchanged for its
      rendered group, wrapped or not. */
  lemma {:induction false} CommandRewrites(t: Tables, name: string, before: string, x: string, after: string)
    requires IsNamed(name) && Find(before, "\\" + name) == None && Nested(x, 0)
    ensures Commands(t, before + ("\\" + name) + ("{" + x + "}" + after), name)
      == Commands(t, before + Wrapped(name, Render(t, x)) + after, name)
  {
    var pattern, rest := "\\" + name, "{" + x + "}" + after;
    var s := before + pattern + rest;
    assert '\\' !in name;
    FindBehind(before, pattern, rest);
    assert s[|before| + 1 + |name|..] == rest && s[..|before|] == before;
    TakeBraced(x, after);
    CommandOf(t, s, name, before, x, after);
  }

  lemma {:induction false} CommandOf(t: Tables, s: string, name: string, before: string, x: string, after: string)
    requires IsNamed(name) && NamedCommand(s, name) == Grouped(before, [x], after)
    ensures Commands(t, s, name) == Commands(t, before + Wrapped(name, Render(t, x)) + after, name)
  {
    assert CommandStep(t, s, name) == Some(before + Wrapped(name, Render(t, x)) + after);
  }

  predicate FreeOfFractions(s: string) {
    Find(s, "\\frac") == None
  }

  predicate FreeOfRoots(s: string) {
    FreeOfFractions(s) && Find(s, "\\sqrt") == None
  }

  predicate FreeOfTexts(s: string) {
    FreeOfRoots(s) && Find(s, "\\text") == None
  }

  lemma {:induction false} PassesSkip(t: Tables, s: string)
    ensures FreeOfFractions(s) ==> Fracs(t, s) == s
    ensures FreeOfRoots(s) ==> Commands(t, s, "sqrt") == s
    ensures FreeOfTexts(s) ==> Commands(t, s, "text") == s
  {
    assert "\\" + "sqrt" == "\\sqrt" && "\\" + "text" == "\\text";
  }

  lemma {:induction false} SqrtSame(t: Tables, s: string, r: string)
    requires FreeOfFractions(s) && FreeOfFractions(r) && Commands(t, s, "sqrt") == Commands(t, r, "sqrt")
    ensures Render(t, s) == Render(t, r)
  {
    PassesSkip(t, s);
    PassesSkip(t, r);
  }

  lemma {:induction false} TextSame(t: Tables, s: string, r: string)
    requires FreeOfRoots(s) && FreeOfRoots(r) && Commands(t, s, "text") == Commands(t, r, "text")
    ensures Render(t, s) == Render(t, r)
  {
    PassesSkip(t, s);
    PassesSkip(t, r);
  }

  lemma {:induction false} MathrmSame(t: Tables, s: string, r: string)
    requires FreeOfTexts(s) && FreeOfTexts(r) && Commands(t, s, "mathrm") == Commands(t, r, "mathrm")
    ensures Render(t, s) == Render(t, r)
  {
    PassesSkip(t, s);
    PassesSkip(t, r);
  }

  lemma {:induction false} BracedText(before: string, command: string, open: string, x: string, after: string)
    requires open == command + "{"
    ensures before + open + x + "}" + after == before + command + ("{" + x + "}" + after)
  {
  }

  /** The first root of a text without fractions may be replaced by a root sign and
      the rendered group in brackets: the text renders as before. */
  lemma {:induction false} RootRenders(t: Tables, before: string, x: string, after: string)
    requires Nested(x, 0) && Find(before, "\\sqrt") == None
    requires FreeOfFractions(before + "\\sqrt{" + x + "}" + after)
    ensures Render(t, before + "\\sqrt{" + x + "}" + after)
      == Render(t, before + ("\U{221A}(" + Render(t, x) + ")") + after)
  {
    var s, m := before + "\\sqrt{" + x + "}" + after, "\U{221A}(" + Render(t, x) + ")";
    assert "\\" + "sqrt" == "\\sqrt";
    BracedText(before, "\\sqrt", "\\sqrt{", x, after);
    CommandRewrites(t, "sqrt", before, x, after);
    RootSign(Render(t, x));
    RenderIsClean(t, x);
    NoneAtEnds(before, "\\sqrt{", x, "}", after, FRAC);
    RootIsForeign(before, Render(t, x), m, after);
    SqrtSame(t, s, before + m + after);
  }

  /** A command without its group keeps its name. */
  lemma {:induction false} BrokenCommand(t: Tables, name: string, before: string, rest: string)
    requires IsNamed(name) && Find(before, "\\" + name) == None && TakeGroup(rest) == None
    ensures Commands(t, before + ("\\" + name) + rest, name) == Commands(t, before + name + rest, name)
    ensures name == "sqrt" && FreeOfFractions(before + ("\\" + name) + rest)
            && FreeOfFractions(before + name + rest) ==>
      Render(t, before + ("\\" + name) + rest) == Render(t, before + name + rest)
  {
    var s := before + ("\\" + name) + rest;
    assert '\\' !in name;
    FindBehind(before, "\\" + name, rest);
    assert s[|before| + 1 + |name|..] == rest && s[..|before|] == before;
    BrokenStep(t, s, name, before + name + rest);
    if name == "sqrt" && FreeOfFractions(s) && FreeOfFractions(before + name + rest) {
      SqrtSame(t, s, before + name + rest);
    }
  }

  lemma {:induction false} BrokenStep(t: Tables, s: string, name: string, text: string)
    requires IsNamed(name) && NamedCommand(s, name) == Broken(text)
    ensures Commands(t, s, name) == Commands(t, text, name)
  {
    assert CommandStep(t, s, name) == Some(text);
  }

  lemma {:induction false} NoneAtEnds(a: string, b: string, c: string, d: string, e: string, pattern: string)
    requires Find(a + b + c + d + e, pattern) == None
    ensures Find(a, pattern) == None && Find(e, pattern) == None
  {
    NoneInSuffix(a + b + c + d, e, pattern);
    NoneInPrefix(a + b + c + d, e, pattern);
    NoneInPrefix(a + b + c, d, pattern);
    NoneInPrefix(a + b, c, pattern);
    NoneInPrefix(a, b, pattern);
  }

  lemma {:induction false} RootIsForeign(before: string, x: string, m: string, after: string)
    requires '\\' !in x && m == "\U{221A}(" + x + ")" && FreeOfFractions(before) && FreeOfFractions(after)
    ensures FreeOfFractions(before + m + after)
  {
    assert forall c :: c in m ==> c == '\U{221A}' || c == '(' || c == ')' || c in x;
    assert m[0] == '\U{221A}' && m[0] !in FRAC;
    NoneAcross(before, m, after, FRAC);
    Assoc(before, m, after);
  }

  lemma {:induction false} RootSign(x: string)
    ensures Wrapped("sqrt", x) == "\U{221A}(" + x + ")"
  {
    assert ROOT + "(" == "\U{221A}(";
  }

  /** The first text command of a text without fractions and roots may be replaced by
      its rendered group alone, unless that makes a fraction or root of what stands
      around it. */
  lemma {:induction false} TextRenders(t: Tables, before: string, x: string, after: string)
    requires Nested(x, 0) && Find(before, "\\text") == None
    requires FreeOfRoots(before + "\\text{" + x + "}" + after) && FreeOfRoots(before + Render(t, x) + after)
    ensures Render(t, before + "\\text{" + x + "}" + after) == Render(t, before + Render(t, x) + after)
  {
    assert "\\" + "text" == "\\text";
    BracedText(before, "\\text", "\\text{", x, after);
    CommandRewrites(t, "text", before, x, after);
    TextSame(t, before + "\\text{" + x + "}" + after, before + Render(t, x) + after);
  }

  /** The same for roman text, which is read after the other text commands. */
  lemma {:induction false} RomanRenders(t: Tables, before: string, x: string, after: string)
    requires Nested(x, 0) && Find(before, "\\mathrm") == None
    requires FreeOfTexts(before + "\\mathrm{" + x + "}" + after) && FreeOfTexts(before + Render(t, x) + after)
    ensures Render(t, before + "\\mathrm{" + x + "}" + after) == Render(t, before + Render(t, x) + after)
  {
    assert "\\" + "mathrm" == "\\mathrm";
    BracedText(before, "\\mathrm", "\\mathrm{", x, after);
    CommandRewrites(t, "mathrm", before, x, after);
    MathrmSame(t, before + "\\mathrm{" + x + "}" + after, before + Render(t, x) + after);
  }

  // ------------------------------------------------------------ symbols, scripts

  /** The table as the code orders it: longer names first. */
  ghost predicate LongestFirst(symbols: seq<(string, char)>) {
    forall i, j :: 0 <= i < j < |symbols| ==> |symbols[i].0| >= |symbols[j].0|
  }

  lemma {:induction false} ReplaceLone(before: string, rest: string, pattern: string, with: string)
    requires pattern != "" && pattern[0] == '\\' && '\\' !in before && '\\' !in rest
    ensures ReplaceAll(before + ("\\" + rest), pattern, with)
      == before + if pattern <= "\\" + rest then with + rest[|pattern| - 1..] else "\\" + rest
  {
    var s := before + ("\\" + rest);
    if |before| > 0 {
      TailOfConcat(before, "\\" + rest);
      ReplaceLone(before[1..], rest, pattern, with);
      assert [before[0]] + before[1..] == before;
      Assoc([before[0]], before[1..], if pattern <= "\\" + rest then with + rest[|pattern| - 1..] else "\\" + rest);
    } else {
      assert s == "\\" + rest && s[1..] == rest;
      if pattern <= s {
        assert s[|pattern|..] == rest[|pattern| - 1..];
        NothingToReplace(rest[|pattern| - 1..], pattern, with);
      } else {
        NothingToReplace(rest, pattern, with);
      }
    }
  }

  /** A symbol command becomes its symbol. Of several names that fit, the first of the
      table is taken, which in the order of the code is the longest. */
  lemma {:induction false} LongestSymbolWins(symbols: seq<(string, char)>, k: nat, before: string, rest: string)
    requires k < |symbols| && symbols[k].0 <= rest && forall i :: 0 <= i < k ==> !(symbols[i].0 <= rest)
    requires '\\' !in before && '\\' !in rest && symbols[k].1 != '\\'
    ensures Symbols(before + ("\\" + rest), symbols) == before + ([symbols[k].1] + rest[|symbols[k].0|..])
    ensures LongestFirst(symbols) ==>
      forall i :: 0 <= i < |symbols| && symbols[i].0 <= rest ==> |symbols[i].0| <= |symbols[k].0|
  {
    var pattern := "\\" + symbols[0].0;
    ReplaceLone(before, rest, pattern, [symbols[0].1]);
    PrefixBehind(symbols[0].0, rest);
    if k == 0 {
      var r := before + ([symbols[0].1] + rest[|symbols[0].0|..]);
      assert forall c :: c in r ==> c in before || c == symbols[0].1 || c in rest;
      NoSymbols(r, symbols[1..]);
    } else {
      assert symbols[1..][k - 1] == symbols[k];
      LongestSymbolWins(symbols[1..], k - 1, before, rest);
    }
  }

  lemma {:induction false} PrefixBehind(name: string, rest: string)
    ensures "\\" + name <= "\\" + rest <==> name <= rest
  {
    if name <= rest {
      assert rest == name + rest[|name|..];
      assert "\\" + rest == "\\" + name + rest[|name|..];
    }
    if "\\" + name <= "\\" + rest {
      assert ("\\" + name)[1..] == name && ("\\" + rest)[1..] == rest;
      assert ("\\" + rest)[..1 + |name|] == "\\" + name;
      assert rest[..|name|] == ("\\" + rest)[..1 + |name|][1..];
    }
  }

  /** A script group: every character by its script form, if all of them have one, and
      otherwise the marker and the group as it is. */
  lemma {:induction false} ScriptGroup(before: string, marker: char, group: string, after: string,
                                       script: map<char, char>)
    returns (g: string)
    requires marker !in before && Nested(group, 0)
    ensures Scripts(before + ([marker] + ("{" + group + "}" + after)), marker, script)
      == before + (g + Scripts(after, marker, script))
    ensures if forall c :: c in group ==> c in script
            then |g| == |group| && forall i :: 0 <= i < |g| ==> g[i] == script[group[i]]
            else g == [marker] + group
  {
    var rest := "{" + group + "}" + after;
    if |before| > 0 {
      var whole := before + ([marker] + rest);
      TailOfConcat(before, [marker] + rest);
      g := ScriptGroup(before[1..], marker, group, after, script);
      assert before[0] in before;
      assert [before[0]] + before[1..] == before;
      Assoc([before[0]], before[1..], g + Scripts(after, marker, script));
    } else {
      var s := [marker] + rest;
      assert before + s == s && s[1..] == rest;
      TakeBraced(group, after);
      assert AllMapped(group, script) <==> forall c :: c in group ==> c in script;
      g := if AllMapped(group, script) then Mapped(group, script) else [marker] + group;
    }
  }

  // ------------------------------------------------------------- texts that stay

  /** The script pass leaves every marker that it visits: behind it there is no
      group, or directly a character that is neither a space nor in the table. */
  predicate Settled(s: string, marker: char, script: map<char, char>) {
    if |s| == 0 then true
    else if s[0] != marker || TakeGroup(s[1..]).None? then Settled(s[1..], marker, script)
    else |s| > 1 && s[1] != ' ' && s[1] !in script && Settled(s[2..], marker, script)
  }

  lemma {:induction false} LoneGroup(rest: string)
    requires '{' !in rest && TakeGroup(rest).Some?
    ensures |rest| > 0
    ensures rest[0] != ' ' ==> TakeGroup(rest) == Some(([rest[0]], rest[1..]))
    ensures rest[0] == ' ' ==> |TakeGroup(rest).value.0| + |TakeGroup(rest).value.1| < |rest|
  {
    if rest[0] != ' ' {
      assert rest[0..] == rest;
    }
  }

  lemma {:induction false} LoneMapped(c: char, script: map<char, char>)
    ensures AllMapped([c], script) <==> c in script
  {
    assert [c][0] == c;
  }

  lemma {:induction false} BehindMarker(s: string, t: string)
    requires |s| > 1
    ensures s[2..] == s[1..][1..]
    ensures [s[0]] + [s[1]] + t == s <==> t == s[2..]
    ensures |[s[0]] + [s[1]] + t| == 2 + |t|
  {
    assert s == [s[0]] + [s[1]] + s[2..];
    assert ([s[0]] + [s[1]] + t)[2..] == t;
  }

  /** Without braces the script pass keeps a text exactly when it is settled, and
      otherwise shortens it. */
  lemma {:induction false} ScriptsKeep(s: string, marker: char, script: map<char, char>)
    requires '{' !in s
    ensures Settled(s, marker, script) ==> Scripts(s, marker, script) == s
    ensures !Settled(s, marker, script) ==> |Scripts(s, marker, script)| < |s|
  {
    if |s| == 0 {
    } else if s[0] != marker || TakeGroup(s[1..]).None? {
      ScriptsKeep(s[1..], marker, script);
      assert s == [s[0]] + s[1..];
    } else {
      var rest := s[1..];
      LoneGroup(rest);
      if rest[0] != ' ' {
        LoneMapped(rest[0], script);
        ScriptsKeep(rest[1..], marker, script);
        BehindMarker(s, Scripts(rest[1..], marker, script));
      }
    }
  }

  /** What rendering leaves as it is. */
  predicate Fixed(t: Tables, s: string) {
    Settled(s, '^', t.superscripts) && Settled(s, '_', t.subscripts)
  }

  /** Rendering leaves a text as it is exactly when the text has no brace and no
      backslash, is trimmed, and its scripts are settled. */
  lemma {:induction false} RenderKeepsIff(t: Tables, s: string)
    ensures Render(t, s) == s
      <==> '{' !in s && '}' !in s && '\\' !in s && Trimmed(s, IsBlank) && Fixed(t, s)
  {
    RenderIsClean(t, s);
    if '{' !in s && '}' !in s && '\\' !in s {
      NoCommands(t, s);
      NoSymbols(s, t.symbols);
      ScriptsKeep(s, '^', t.superscripts);
      ScriptsKeep(s, '_', t.subscripts);
      if Fixed(t, s) && Trimmed(s, IsBlank) {
        NothingToReplace(s, "{", "");
        NothingToReplace(s, "}", "");
        NothingToReplace(s, "\\", "");
        TrimOfTrimmed(s, IsBlank);
      }
    }
  }

  /** A second rendering changes nothing exactly when the scripts of the first
      result are settled. */
  lemma {:induction false} RenderTwiceIff(t: Tables, s: string)
    ensures Render(t, Render(t, s)) == Render(t, s) <==> Fixed(t, Render(t, s))
  {
    RenderIsClean(t, s);
    RenderKeepsIff(t, Render(t, s));
  }

  lemma {:induction false} QuotientClean(t: Tables, a: string, b: string)
    ensures var q := Quotient(Render(t, a), Render(t, b));
      '{' !in q && '}' !in q && '\\' !in q && Trimmed(q, IsBlank)
  {
    var x, y := Render(t, a), Render(t, b);
    RenderIsClean(t, a);
    RenderIsClean(t, b);
    NotIn('{', x, y);
    NotIn('}', x, y);
    NotIn('\\', x, y);
    var q := Quotient(x, y);
    assert q[0] == '(' && q[|q| - 1] == ')';
  }

  /** A fraction of balanced groups is the quotient of its rendered groups exactly
      when the scripts of that quotient are settled. */
  lemma {:induction false} FractionComposes(t: Tables, a: string, b: string)
    requires Nested(a, 0) && Nested(b, 0)
    ensures var q := Quotient(Render(t, a), Render(t, b));
      Render(t, FracText(a, b)) == q <==> Fixed(t, q)
  {
    var q := Quotient(Render(t, a), Render(t, b));
    FractionRenders(t, "", a, b, "");
    EmptyEnds(FracText(a, b));
    EmptyEnds(q);
    QuotientClean(t, a, b);
    RenderKeepsIff(t, q);
  }

  lemma {:induction false} EmptyEnds(x: string)
    ensures "" + x + "" == x
  {
  }

  /** A script group that is mapped only in part loses its braces, so that a
      second rendering takes its first character for the whole group. */
  lemma {:induction false} BracesLost(t: Tables, group: string)
    requires Plain(group) && group != "" && !AllMapped(group, t.superscripts)
    ensures Scripts("^{" + group + "}", '^', t.superscripts) == "^" + group
  {
    var s := "^{" + group + "}";
    NestedPlain(group);
    TakeBraced(group, "");
    assert s[1..] == "{" + group + "}" + "";
    assert Scripts("", '^', t.superscripts) == "";
  }

  lemma {:induction false} NestedPlain(s: string)
    requires '{' !in s && '}' !in s
    ensures Nested(s, 0)
  {
    if |s| > 0 {
      NestedPlain(s[1..]);
    }
  }

  lemma {:induction false} FirstOnly(t: Tables, group: string)
    requires group != "" && group[0] in t.superscripts && group[0] != ' ' && group[0] != '{' && '^' !in group[1..]
    ensures Scripts("^" + group, '^', t.superscripts) == [t.superscripts[group[0]]] + group[1..]
  {
    var s := "^" + group;
    assert s[1..] == group;
    LeadUnique(group, IsSpace, 0);
    assert group[0..] == group;
    assert TakeGroup(group) == Some(([group[0]], group[1..]));
    NoScripts(group[1..], '^', t.superscripts);
    assert Mapped([group[0]], t.superscripts) == [t.superscripts[group[0]]];
  }

  lemma {:induction false} FinishScripts(t: Tables, s: string, r: string)
    requires '\\' !in s && Scripts(s, '^', t.superscripts) == r
    requires '\\' !in r && '{' !in r && '}' !in r && '_' !in r && Trimmed(r, IsBlank)
    ensures Render(t, s) == r
  {
    NoCommands(t, s);
    NoSymbols(s, t.symbols);
    NoScripts(r, '_', t.subscripts);
    NothingToReplace(r, "{", "");
    NothingToReplace(r, "}", "");
    NothingToReplace(r, "\\", "");
    TrimOfTrimmed(r, IsBlank);
  }

  lemma {:induction false} FirstRender(t: Tables, group: string)
    requires Plain(group) && group != "" && !AllMapped(group, t.superscripts) && !IsBlank(group[|group| - 1])
    ensures Render(t, "^{" + group + "}") == "^" + group
  {
    BracesLost(t, group);
    assert forall d :: d in "^{" + group + "}" ==> d in "^{}" || d in group;
    assert forall d :: d in "^" + group ==> d == '^' || d in group;
    FinishScripts(t, "^{" + group + "}", "^" + group);
  }

  lemma {:induction false} SecondRender(t: Tables, group: string)
    requires Plain(group) && group != "" && group[0] in t.superscripts && group[0] != ' '
    requires Plain([t.superscripts[group[0]]])
    requires Trimmed([t.superscripts[group[0]]] + group[1..], IsBlank)
    ensures Render(t, "^" + group) == [t.superscripts[group[0]]] + group[1..]
  {
    var mapped, rest := t.superscripts[group[0]], group[1..];
    assert group[0] in group && mapped in [mapped];
    assert forall d :: d in rest ==> d in group;
    FirstOnly(t, group);
    assert forall d :: d in "^" + group ==> d == '^' || d in group;
    assert forall d :: d in [mapped] + rest ==> d == mapped || d in rest;
    FinishScripts(t, "^" + group, [mapped] + rest);
  }

  /** An input that shows it: a group with a mapped first and some unmapped
      character changes again when it is rendered a second time. */
  lemma {:induction false} RendersTwice(t: Tables, group: string)
    requires Plain(group) && |group| > 1 && !AllMapped(group, t.superscripts)
    requires !IsBlank(group[|group| - 1]) && group[0] != ' ' && group[0] in t.superscripts
    requires Plain([t.superscripts[group[0]]]) && !IsBlank(t.superscripts[group[0]])
    ensures Render(t, "^{" + group + "}") == "^" + group
    ensures Render(t, "^" + group) == [t.superscripts[group[0]]] + group[1..]
  {
    FirstRender(t, group);
    SecondRender(t, group);
  }
}
