/** Optional values and the string operations of Foundation and Go's `strings`
    package that the other modules share. One `char` stands for one character
    unit. */
module Text {

  datatype Option<+T> = None | Some(value: T)

  /** `CharacterSet.whitespaces`: TAB and the Unicode space separators. */
  predicate IsBlank(c: char) {
    c == ' ' || c == '\t' || c == '\U{00A0}' || c == '\U{1680}' || '\U{2000}' <= c <= '\U{200A}'
    || c == '\U{202F}' || c == '\U{205F}' || c == '\U{3000}'
  }

  /** `CharacterSet.newlines`: LF, VT, FF, CR, NEL, LS and PS. */
  predicate IsNewline(c: char) {
    '\n' <= c <= '\r' || c == '\U{0085}' || c == '\U{2028}' || c == '\U{2029}'
  }

  /** `CharacterSet.whitespacesAndNewlines` and `Character.isWhitespace`. */
  predicate IsWhite(c: char) {
    IsBlank(c) || IsNewline(c)
  }

  predicate NotColon(c: char) {
    c != ':'
  }

  predicate HasSuffix(s: string, suffix: string) {
    |s| >= |suffix| && s[|s| - |suffix|..] == suffix
  }

  predicate Contains(s: string, part: string) {
    exists i :: 0 <= i <= |s| - |part| && s[i..][..|part|] == part
  }

  ghost predicate Only(s: string, p: char -> bool) {
    forall i :: 0 <= i < |s| ==> p(s[i])
  }

  lemma {:induction false} Assoc<T>(a: seq<T>, b: seq<T>, c: seq<T>)
    ensures a + b + c == a + (b + c)
  {
  }

  lemma {:induction false} TailOfConcat<T>(a: seq<T>, b: seq<T>)
    requires a != []
    ensures (a + b)[0] == a[0] && (a + b)[1..] == a[1..] + b
  {
  }

  // ---------------------------------------------------------------- trimming

  function Lead(s: string, p: char -> bool): (n: nat)
    ensures n <= |s|
  {
    if |s| == 0 || !p(s[0]) then 0 else 1 + Lead(s[1..], p)
  }

  function Trail(s: string, p: char -> bool): (n: nat)
    ensures n <= |s|
  {
    if |s| == 0 || !p(s[|s| - 1]) then 0 else 1 + Trail(s[..|s| - 1], p)
  }

  lemma {:induction false} LeadRun(s: string, p: char -> bool)
    ensures Only(s[..Lead(s, p)], p) && (Lead(s, p) < |s| ==> !p(s[Lead(s, p)]))
  {
    if |s| > 0 && p(s[0]) {
      LeadRun(s[1..], p);
      var n := Lead(s, p);
      assert forall i :: 0 < i < n ==> s[i] == s[1..][..n - 1][i - 1];
    }
  }

  lemma {:induction false} TrailRun(s: string, p: char -> bool)
    ensures Only(s[|s| - Trail(s, p)..], p) && (Trail(s, p) < |s| ==> !p(s[|s| - Trail(s, p) - 1]))
  {
    if |s| > 0 && p(s[|s| - 1]) {
      TrailRun(s[..|s| - 1], p);
    }
  }

  function Trim(s: string, p: char -> bool): string {
    var t := s[Lead(s, p)..];
    t[..|t| - Trail(t, p)]
  }

  /** What trimming returns: nothing, or a text whose ends survive. */
  ghost predicate Trimmed(s: string, p: char -> bool) {
    s == "" || (!p(s[0]) && !p(s[|s| - 1]))
  }

  lemma {:induction false} LeadUnique(s: string, p: char -> bool, n: nat)
    requires n <= |s| && Only(s[..n], p) && (n < |s| ==> !p(s[n]))
    ensures Lead(s, p) == n
  {
    if n > 0 {
      assert s[..n][0] == s[0];
      assert s[1..][..n - 1] == s[..n][1..];
      LeadUnique(s[1..], p, n - 1);
    }
  }

  lemma {:induction false} TrailUnique(s: string, p: char -> bool, n: nat)
    requires n <= |s| && Only(s[|s| - n..], p) && (n < |s| ==> !p(s[|s| - n - 1]))
    ensures Trail(s, p) == n
  {
    if n > 0 {
      var t := s[..|s| - 1];
      assert s[|s| - n..][n - 1] == s[|s| - 1];
      assert t[|t| - (n - 1)..] == s[|s| - n..][..n - 1];
      TrailUnique(t, p, n - 1);
    }
  }

  /** Trimming keeps exactly the core between two runs of trimmed characters. */
  lemma {:induction false} TrimCore(a: string, core: string, b: string, p: char -> bool)
    requires Only(a, p) && Only(b, p) && core != "" && Trimmed(core, p)
    ensures Trim(a + core + b, p) == core
  {
    var s := a + core + b;
    assert s[..|a|] == a;
    LeadUnique(s, p, |a|);
    var t := s[|a|..];
    assert t == core + b;
    assert t[|t| - |b|..] == b;
    TrailUnique(t, p, |b|);
    assert t[..|t| - |b|] == core;
  }

  lemma {:induction false} TrimAll(s: string, p: char -> bool)
    requires Only(s, p)
    ensures Trim(s, p) == ""
  {
    LeadUnique(s, p, |s|);
  }

  /** Every text is its trimmed core between two trimmed runs. */
  lemma {:induction false} TrimParts(s: string, p: char -> bool) returns (a: string, b: string)
    ensures s == a + Trim(s, p) + b
    ensures Only(a, p) && Only(b, p) && a == s[..Lead(s, p)]
    ensures Trimmed(Trim(s, p), p)
    ensures Trim(s, p) == "" ==> Only(s, p) && a == s
  {
    a := s[..Lead(s, p)];
    var t := s[Lead(s, p)..];
    LeadRun(s, p);
    b := TrailParts(t, p);
    Assoc(a, Trim(s, p), b);
    assert s == a + t;
    if |t| > 0 {
      assert t[0] == s[Lead(s, p)];
    } else {
      assert a == s;
    }
  }

  lemma {:induction false} TrailShort(t: string, p: char -> bool)
    requires t != "" && !p(t[0])
    ensures Trail(t, p) < |t|
  {
    if |t| > 1 {
      TrailShort(t[..|t| - 1], p);
    }
  }

  lemma {:induction false} TrailParts(t: string, p: char -> bool) returns (b: string)
    requires t == "" || !p(t[0])
    ensures t == t[..|t| - Trail(t, p)] + b && Only(b, p) && (t != "" ==> Trail(t, p) < |t|)
    ensures Trimmed(t[..|t| - Trail(t, p)], p)
  {
    var n := |t| - Trail(t, p);
    b := t[n..];
    TrailRun(t, p);
    if |t| > 0 {
      TrailShort(t, p);
      assert t[..n][n - 1] == t[n - 1] && t[..n][0] == t[0];
    }
  }

  lemma {:induction false} TrimOfTrimmed(s: string, p: char -> bool)
    requires Trimmed(s, p)
    ensures Trim(s, p) == s
  {
    if |s| == 0 {
      TrimAll(s, p);
    } else {
      assert "" + s + "" == s;
      TrimCore("", s, "", p);
    }
  }

  // ------------------------------------------------------- splitting, joining

  /** `components(separatedBy:)` for a one-character separator. */
  function Split(s: string, sep: char): (parts: seq<string>)
    ensures |parts| >= 1
  {
    if |s| == 0 then [""]
    else
      var rest := Split(s[1..], sep);
      if s[0] == sep then [""] + rest else [[s[0]] + rest[0]] + rest[1..]
  }

  lemma {:induction false} SplitPieces(s: string, sep: char)
    ensures forall i :: 0 <= i < |Split(s, sep)| ==> sep !in Split(s, sep)[i]
  {
    if |s| > 0 {
      SplitPieces(s[1..], sep);
    }
  }

  function Join(parts: seq<string>, sep: char): string {
    if |parts| == 0 then ""
    else if |parts| == 1 then parts[0]
    else parts[0] + [sep] + Join(parts[1..], sep)
  }

  lemma {:induction false} JoinSplit(s: string, sep: char)
    ensures Join(Split(s, sep), sep) == s
  {
    if |s| > 0 {
      var rest := Split(s[1..], sep);
      JoinSplit(s[1..], sep);
      if s[0] == sep {
        assert ([""] + rest)[1..] == rest;
      } else if |rest| > 1 {
        var parts := [[s[0]] + rest[0]] + rest[1..];
        assert parts[1..] == rest[1..];
        assert Join(parts, sep) == [s[0]] + (rest[0] + [sep] + Join(rest[1..], sep));
      }
    }
  }

  lemma {:induction false} SplitCons(c: char, s: string, sep: char)
    ensures Split([c] + s, sep)
      == if c == sep then [""] + Split(s, sep) else [[c] + Split(s, sep)[0]] + Split(s, sep)[1..]
  {
    assert ([c] + s)[1..] == s;
  }

  /** Splitting before and after a separator splits the two halves. */
  lemma {:induction false} SplitAt(a: string, b: string, sep: char)
    ensures Split(a + [sep] + b, sep) == Split(a, sep) + Split(b, sep)
  {
    if |a| == 0 {
      assert a + [sep] + b == [sep] + b;
      SplitCons(sep, b, sep);
    } else {
      var c, t := a[0], a[1..];
      assert a == [c] + t && a + [sep] + b == [c] + (t + [sep] + b);
      SplitAt(t, b, sep);
      SplitCons(c, t + [sep] + b, sep);
      SplitCons(c, t, sep);
      var x, y := Split(t, sep), Split(b, sep);
      if c == sep {
        Assoc([""], x, y);
      } else {
        TailOfConcat(x, y);
        Assoc([[c] + x[0]], x[1..], y);
      }
    }
  }

  lemma {:induction false} SplitWhole(a: string, sep: char)
    requires sep !in a
    ensures Split(a, sep) == [a]
  {
    if |a| > 0 {
      assert forall i :: 0 <= i < |a| - 1 ==> a[1..][i] == a[i + 1];
      SplitWhole(a[1..], sep);
      assert [a[0]] + a[1..] == a;
    }
  }

  lemma {:induction false} SplitJoin(parts: seq<string>, sep: char)
    requires |parts| >= 1 && forall i :: 0 <= i < |parts| ==> sep !in parts[i]
    ensures Split(Join(parts, sep), sep) == parts
  {
    SplitWhole(parts[0], sep);
    if |parts| > 1 {
      SplitJoin(parts[1..], sep);
      SplitAt(parts[0], Join(parts[1..], sep), sep);
      assert [parts[0]] + parts[1..] == parts;
    } else {
      assert parts == [parts[0]];
    }
  }

  lemma {:induction false} JoinAppend(a: seq<string>, b: seq<string>, sep: char)
    requires |a| >= 1 && |b| >= 1
    ensures Join(a + b, sep) == Join(a, sep) + [sep] + Join(b, sep)
  {
    if |a| == 1 {
      assert (a + b)[1..] == b;
    } else {
      JoinAppend(a[1..], b, sep);
      assert (a + b)[1..] == a[1..] + b;
    }
  }
}
