/** Version strings of the sibling tools: what is parsed, and how parsed versions
    are ordered. */
module ToolVersion {
  import opened Text

  /** The largest `int` of a 64-bit platform. */
  const MAX_INT := 0x7FFF_FFFF_FFFF_FFFF

  type Version = seq<nat>

  // ------------------------------------------------------------------- parsing

  function Digits(s: string): Option<nat> {
    if |s| == 0 then Some(0)
    else
      var init, c := Digits(s[..|s| - 1]), s[|s| - 1];
      if init.None? || !('0' <= c <= '9') then None else Some(10 * init.value + (c as int - '0' as int))
  }

  /** A decimal number within the platform's range. Signs cannot occur here: they
      would have been cut off before. */
  function Number(s: string): Option<nat> {
    if |s| == 0 || Digits(s).None? || Digits(s).value > MAX_INT then None else Digits(s)
  }

  function Numbers(parts: seq<string>): Option<Version> {
    if |parts| == 0 then Some([])
    else
      var init, last := Numbers(parts[..|parts| - 1]), Number(parts[|parts| - 1]);
      if init.None? || last.None? then None else Some(init.value + [last.value])
  }

  function DigitOf(d: nat): (c: char)
    requires d < 10
    ensures '0' <= c <= '9' && c as int - '0' as int == d
  {
    "0123456789"[d]
  }

  /** The usual writing of a number. */
  function Decimal(n: nat): string
    decreases n
  {
    (if n < 10 then "" else Decimal(n / 10)) + [DigitOf(n % 10)]
  }

  lemma {:induction false} OneMoreDigit(s: string, init: string, n: nat, d: nat)
    requires d < 10 && s == init + [DigitOf(d)] && Digits(init) == Some(n)
    ensures Digits(s) == Some(10 * n + d)
  {
    assert s[..|s| - 1] == init && s[|s| - 1] == DigitOf(d);
  }

  lemma {:induction false} DecimalDigits(n: nat)
    ensures Digits(Decimal(n)) == Some(n)
    decreases n
  {
    var init, q := if n < 10 then "" else Decimal(n / 10), n / 10;
    if n >= 10 {
      DecimalDigits(q);
    }
    OneMoreDigit(Decimal(n), init, q, n % 10);
  }

  lemma {:induction false} DigitsOnly(s: string)
    ensures Digits(s).Some? <==> forall i :: 0 <= i < |s| ==> '0' <= s[i] <= '9'
  {
    if |s| > 0 {
      DigitsOnly(s[..|s| - 1]);
    }
  }

  predicate NotPlus(c: char) { c != '+' }
  predicate NotMinus(c: char) { c != '-' }
  predicate NotSuffix(c: char) { c != '+' && c != '-' }

  function WithoutV(s: string): string {
    if |s| > 0 && s[0] == 'v' then s[1..] else s
  }

  function Cut(s: string, p: char -> bool): string {
    s[..Lead(s, p)]
  }

  function Parse(version: string): Option<Version> {
    var v := WithoutV(Trim(version, IsWhite));
    if |v| == 0 then None else Numbers(Split(Cut(Cut(v, NotPlus), NotMinus), '.'))
  }

  lemma {:induction false} NumbersNext(parts: seq<string>, i: nat)
    requires i < |parts|
    ensures Numbers(parts[..i + 1])
      == if Numbers(parts[..i]).None? || Number(parts[i]).None? then None
         else Some(Numbers(parts[..i]).value + [Number(parts[i]).value])
  {
    assert parts[..i + 1][..i] == parts[..i];
  }

  lemma {:induction false} NumbersNone(parts: seq<string>, i: nat)
    requires i <= |parts| && Numbers(parts[..i]).None?
    ensures Numbers(parts).None?
    decreases |parts| - i
  {
    if i < |parts| {
      NumbersNext(parts, i);
      NumbersNone(parts, i + 1);
    } else {
      assert parts[..i] == parts;
    }
  }

  /** `parseToolVersion`: the parts are filled into a fresh array one by one. */
  method ParseToolVersion(version: string) returns (r: Option<Version>)
    ensures r == Parse(version)
  {
    var v := WithoutV(Trim(version, IsWhite));
    if |v| == 0 {
      return None;
    }
    var parts := Split(Cut(Cut(v, NotPlus), NotMinus), '.');
    var parsed := new nat[|parts|];
    for i := 0 to |parts|
      invariant Numbers(parts[..i]) == Some(parsed[..i])
    {
      NumbersNext(parts, i);
      var value := Number(parts[i]);
      if value.None? {
        NumbersNone(parts, i + 1);
        return None;
      }
      parsed[i] := value.value;
      assert parsed[..i + 1] == parsed[..i] + [value.value];
    }
    assert parts[..|parts|] == parts && parsed[..|parts|] == parsed[..];
    r := Some(parsed[..]);
  }

  lemma {:induction false} NumbersOf(parts: seq<string>, numbers: Version)
    requires |parts| == |numbers| && forall i :: 0 <= i < |parts| ==> Number(parts[i]) == Some(numbers[i])
    ensures Numbers(parts) == Some(numbers)
  {
    if |parts| > 0 {
      NumbersOf(parts[..|parts| - 1], numbers[..|parts| - 1]);
      assert numbers == numbers[..|parts| - 1] + [numbers[|parts| - 1]];
    }
  }

  /** The numbers of a version, as they are written between dots. */
  function Dotted(numbers: Version): string {
    Join(seq(|numbers|, i requires 0 <= i < |numbers| => Decimal(numbers[i])), '.')
  }

  lemma {:induction false} JoinedOnly(parts: seq<string>, p: char -> bool)
    requires p('.') && forall i :: 0 <= i < |parts| ==> Only(parts[i], p)
    ensures Only(Join(parts, '.'), p)
  {
    if |parts| > 1 {
      JoinedOnly(parts[1..], p);
    }
  }

  predicate DigitOrDot(c: char) {
    c == '.' || '0' <= c <= '9'
  }

  /** Numbers written between dots are read back, with or without a `v` and with
      white space around them. */
  lemma {:induction false} DottedReads(a: string, numbers: Version, b: string)
    requires |numbers| > 0 && forall i :: 0 <= i < |numbers| ==> numbers[i] <= 0x7FFF_FFFF_FFFF_FFFF
    requires Only(a, IsWhite) && Only(b, IsWhite)
    ensures Parse(a + Dotted(numbers) + b) == Some(numbers) && Parse(a + ("v" + Dotted(numbers)) + b) == Some(numbers)
  {
    var parts := seq(|numbers|, i requires 0 <= i < |numbers| => Decimal(numbers[i]));
    var s := Dotted(numbers);
    forall i | 0 <= i < |parts|
      ensures Number(parts[i]) == Some(numbers[i]) && Only(parts[i], DigitOrDot) && '.' !in parts[i]
    {
      DecimalDigits(numbers[i]);
      DigitsOnly(parts[i]);
    }
    JoinedOnly(parts, DigitOrDot);
    SplitJoin(parts, '.');
    NumbersOf(parts, numbers);
    assert s != "" by {
      assert |parts| > 1 || s == parts[0];
    }
    CleanVersion(a, s, b);
  }

  lemma {:induction false} CleanVersion(a: string, s: string, b: string)
    requires s != "" && Only(s, DigitOrDot) && Only(a, IsWhite) && Only(b, IsWhite)
    ensures Parse(a + s + b) == Numbers(Split(s, '.')) && Parse(a + ("v" + s) + b) == Numbers(Split(s, '.'))
  {
    var w := "v" + s;
    assert w[0] == 'v' && w[|w| - 1] == s[|s| - 1] && w[1..] == s;
    TrimCore(a, s, b, IsWhite);
    TrimCore(a, w, b, IsWhite);
    assert s[..|s|] == s;
    LeadUnique(s, NotPlus, |s|);
    LeadUnique(s, NotMinus, |s|);
  }

  /** Nothing is read where a part is empty, too large, or holds anything but digits. */
  lemma {:induction false} BadPart(parts: seq<string>, i: nat)
    requires i < |parts|
    requires parts[i] == "" || exists k :: 0 <= k < |parts[i]| && !('0' <= parts[i][k] <= '9')
    ensures Numbers(parts).None?
  {
    DigitsOnly(parts[i]);
    NumbersNext(parts, i);
    NumbersNone(parts, i + 1);
  }

  /** Cutting at the build part and then at the pre-release is cutting at the
      first of either. */
  lemma {:induction false} CutTwice(s: string)
    ensures Cut(Cut(s, NotPlus), NotMinus) == Cut(s, NotSuffix)
  {
    var n := Lead(s, NotPlus);
    var t := s[..n];
    var m := Lead(t, NotMinus);
    LeadRun(s, NotPlus);
    LeadRun(t, NotMinus);
    assert t[..m] == s[..m];
    forall i | 0 <= i < m ensures NotSuffix(s[i]) {
      assert s[..n][i] == s[i] && t[..m][i] == s[i];
    }
    LeadUnique(s, NotSuffix, m);
  }

  lemma {:induction false} CutSuffix(s: string, c: char, x: string)
    requires !NotSuffix(c)
    ensures Cut(s + [c] + x, NotSuffix) == Cut(s, NotSuffix)
  {
    var n, t := Lead(s, NotSuffix), s + [c] + x;
    LeadRun(s, NotSuffix);
    assert t[..n] == s[..n];
    assert n < |s| ==> t[n] == s[n];
    LeadUnique(t, NotSuffix, n);
  }

  /** Trimming a text that goes on after a kept character. */
  lemma {:induction false} TrimKeepsHead(s: string, c: char, x: string) returns (a: string, y: string)
    requires !IsWhite(c) && (s == "" || !IsWhite(s[|s| - 1]))
    ensures Only(a, IsWhite) && a <= s && Trim(s, IsWhite) == s[|a|..]
    ensures Trim(s + [c] + x, IsWhite) == s[|a|..] + [c] + y
  {
    var n := Lead(s, IsWhite);
    a := s[..n];
    LeadRun(s, IsWhite);
    var head := s[n..];
    var tail, b := TrailOfKept(c, x);
    y := tail;
    Regroup(a, head, [c], y, b);
    assert s == a + head && x == y + b;
    KeptEnds(head, c, y);
    TrimCore(a, head + [c] + y, b, IsWhite);
    TrimHead(s, a, head);
  }

  lemma {:induction false} Regroup(a: string, head: string, c: string, y: string, b: string)
    ensures (a + head) + c + (y + b) == a + (head + c + y) + b
  {
  }

  lemma {:induction false} TrimHead(s: string, a: string, head: string)
    requires s == a + head && Only(a, IsWhite) && (head != "" ==> !IsWhite(head[0]))
    requires s == "" || !IsWhite(s[|s| - 1])
    ensures Trim(s, IsWhite) == head
  {
    if |head| > 0 {
      assert s == a + head + "" && head[|head| - 1] == s[|s| - 1];
      TrimCore(a, head, "", IsWhite);
    } else {
      assert s == a;
      TrimAll(s, IsWhite);
    }
  }

  lemma {:induction false} TrailOfKept(c: char, x: string) returns (y: string, b: string)
    requires !IsWhite(c)
    ensures x == y + b && Only(b, IsWhite) && (y != "" ==> !IsWhite(y[|y| - 1]))
  {
    var n := |x| - Trail(x, IsWhite);
    y, b := x[..n], x[n..];
    TrailRun(x, IsWhite);
  }

  lemma {:induction false} KeptEnds(head: string, c: char, y: string)
    requires !IsWhite(c) && (head != "" ==> !IsWhite(head[0])) && (y != "" ==> !IsWhite(y[|y| - 1]))
    ensures Trimmed(head + [c] + y, IsWhite)
  {
    var s := head + [c] + y;
    assert s[0] == if |head| > 0 then head[0] else c;
    assert s[|s| - 1] == if |y| > 0 then y[|y| - 1] else c;
  }

  /** Build metadata and pre-release labels do not matter, whatever they hold. */
  lemma {:induction false} SuffixIgnored(s: string, c: char, x: string)
    requires !NotSuffix(c) && (s == "" || !IsWhite(s[|s| - 1]))
    ensures Parse(s + [c] + x) == Parse(s)
  {
    var a, y := TrimKeepsHead(s, c, x);
    var t := s[|a|..];
    var v, w := WithoutV(t), WithoutV(t + [c] + y);
    assert w == v + [c] + y;
    CutTwice(v);
    CutTwice(w);
    CutSuffix(v, c, y);
    if |v| == 0 {
      assert Cut(w, NotSuffix) == "";
      assert Split("", '.') == [""];
    }
  }

  // ------------------------------------------------------------------ ordering

  /** A component, zero past the end. */
  function Part(v: Version, i: nat): nat {
    if i < |v| then v[i] else 0
  }

  function NewerFrom(a: Version, b: Version, i: nat): bool
    decreases |a| + |b| - i
  {
    if i >= |a| && i >= |b| then false
    else if Part(a, i) != Part(b, i) then Part(a, i) > Part(b, i)
    else NewerFrom(a, b, i + 1)
  }

  predicate IsNewer(candidate: string, current: string) {
    var a, b := Parse(candidate), Parse(current);
    a.Some? && b.Some? && NewerFrom(a.value, b.value, 0)
  }

  /** `toolVersionIsNewer`. */
  method ToolVersionIsNewer(candidate: string, current: string) returns (newer: bool)
    ensures newer == IsNewer(candidate, current)
  {
    var a := ParseToolVersion(candidate);
    if a.None? {
      return false;
    }
    var b := ParseToolVersion(current);
    if b.None? {
      return false;
    }
    var i := 0;
    while i < |a.value| || i < |b.value|
      invariant NewerFrom(a.value, b.value, 0) == NewerFrom(a.value, b.value, i)
      decreases |a.value| + |b.value| - i
    {
      var x := if i < |a.value| then a.value[i] else 0;
      var y := if i < |b.value| then b.value[i] else 0;
      if x != y {
        return x > y;
      }
      i := i + 1;
    }
    newer := false;
  }

  /** The first difference decides. */
  ghost predicate Above(a: Version, b: Version, i: nat) {
    Part(a, i) > Part(b, i) && forall j :: 0 <= j < i ==> Part(a, j) == Part(b, j)
  }

  lemma {:induction false} NewerFromIff(a: Version, b: Version, i: nat)
    requires forall j :: 0 <= j < i ==> Part(a, j) == Part(b, j)
    ensures NewerFrom(a, b, i) <==> exists k: nat :: Above(a, b, k)
    decreases |a| + |b| - i
  {
    if i >= |a| && i >= |b| {
      forall k: nat ensures !Above(a, b, k) {
        assert k >= i ==> Part(a, k) == 0 && Part(b, k) == 0;
      }
    } else if Part(a, i) != Part(b, i) {
      if Part(a, i) > Part(b, i) {
        assert Above(a, b, i);
      } else {
        forall k: nat ensures !Above(a, b, k) {
          assert k > i && Above(a, b, k) ==> Part(a, i) == Part(b, i);
        }
      }
    } else {
      NewerFromIff(a, b, i + 1);
    }
  }

  ghost predicate Newer(a: Version, b: Version) {
    exists k: nat :: Above(a, b, k)
  }

  /** Same components, up to trailing zeros. */
  ghost predicate SameVersion(a: Version, b: Version) {
    forall i: nat :: Part(a, i) == Part(b, i)
  }

  lemma {:induction false} NewerTransitive(a: Version, b: Version, c: Version)
    requires Newer(a, b) && Newer(b, c)
    ensures Newer(a, c)
  {
    var i: nat :| Above(a, b, i);
    var j: nat :| Above(b, c, j);
    assert Above(a, c, if i < j then i else j);
  }

  /** Exactly one of newer, older and same holds. */
  lemma {:induction false} Trichotomy(a: Version, b: Version)
    ensures !(Newer(a, b) && Newer(b, a))
    ensures !Newer(a, b) && !Newer(b, a) <==> SameVersion(a, b)
  {
    if k: nat :| Above(a, b, k) {
      forall l: nat ensures !Above(b, a, l) {
        assert l > k && Above(b, a, l) ==> Part(b, k) == Part(a, k);
      }
    }
    if !SameVersion(a, b) {
      var i: nat :| Part(a, i) != Part(b, i);
      FirstDifference(a, b, i);
    }
  }

  lemma {:induction false} FirstDifference(a: Version, b: Version, i: nat)
    requires Part(a, i) != Part(b, i)
    ensures Newer(a, b) || Newer(b, a)
  {
    if j :| 0 <= j < i && Part(a, j) != Part(b, j) {
      FirstDifference(a, b, j);
    } else if Part(a, i) > Part(b, i) {
      assert Above(a, b, i);
    } else {
      assert Above(b, a, i);
    }
  }

  ghost predicate Comparable(s: string) {
    Parse(s).Some?
  }

  /** On versions that parse, being newer is a strict weak order: irreflexive,
      transitive, and not being ordered is transitive too, since it means the same
      components up to trailing zeros. */
  lemma {:induction false} StrictWeakOrder(a: string, b: string, c: string)
    ensures !IsNewer(a, a)
    ensures IsNewer(a, b) && IsNewer(b, c) ==> IsNewer(a, c)
    ensures Comparable(a) && Comparable(b) ==>
      (!IsNewer(a, b) && !IsNewer(b, a) <==> SameVersion(Parse(a).value, Parse(b).value))
    ensures Comparable(a) && Comparable(b) && Comparable(c)
            && !IsNewer(a, b) && !IsNewer(b, a) && !IsNewer(b, c) && !IsNewer(c, b) ==>
              !IsNewer(a, c) && !IsNewer(c, a)
  {
    IsNewerIff(a, a);
    IsNewerIff(a, b);
    IsNewerIff(b, a);
    IsNewerIff(b, c);
    IsNewerIff(c, b);
    IsNewerIff(a, c);
    IsNewerIff(c, a);
    if Comparable(a) {
      Trichotomy(Parse(a).value, Parse(a).value);
    }
    if Comparable(a) && Comparable(b) {
      Trichotomy(Parse(a).value, Parse(b).value);
    }
    if Comparable(a) && Comparable(b) && Comparable(c) {
      Trichotomy(Parse(b).value, Parse(c).value);
      Trichotomy(Parse(a).value, Parse(c).value);
      if Newer(Parse(a).value, Parse(b).value) && Newer(Parse(b).value, Parse(c).value) {
        NewerTransitive(Parse(a).value, Parse(b).value, Parse(c).value);
      }
    }
  }

  lemma {:induction false} IsNewerIff(a: string, b: string)
    ensures IsNewer(a, b) <==> Comparable(a) && Comparable(b) && Newer(Parse(a).value, Parse(b).value)
  {
    if Comparable(a) && Comparable(b) {
      NewerFromIff(Parse(a).value, Parse(b).value, 0);
    }
  }

  /** Against a version that does not parse nothing is ordered, and appending
      `.0` to a plain version changes no comparison. */
  lemma {:induction false} UnparsedUnordered(a: string, b: string)
    requires !Comparable(a) || !Comparable(b)
    ensures !IsNewer(a, b) && !IsNewer(b, a)
  {
  }

  lemma {:induction false} TrailingZeros(s: string, c: string)
    requires s != "" && !IsWhite(s[|s| - 1]) && '+' !in s && '-' !in s && Comparable(s)
    ensures Comparable(s + ".0")
    ensures IsNewer(s + ".0", c) <==> IsNewer(s, c)
    ensures IsNewer(c, s + ".0") <==> IsNewer(c, s)
  {
    ParseZero(s);
    IsNewerIff(s, c);
    IsNewerIff(c, s);
    IsNewerIff(s + ".0", c);
    IsNewerIff(c, s + ".0");
    if Comparable(c) {
      var a, z, b := Parse(s).value, Parse(s + ".0").value, Parse(c).value;
      assert forall i: nat :: Part(z, i) == Part(a, i);
      SameAbove(a, z, b);
    }
  }

  lemma {:induction false} SameAbove(a: Version, z: Version, b: Version)
    requires forall i: nat :: Part(z, i) == Part(a, i)
    ensures (Newer(z, b) <==> Newer(a, b)) && (Newer(b, z) <==> Newer(b, a))
  {
    forall k: nat ensures (Above(z, b, k) <==> Above(a, b, k)) && (Above(b, z, k) <==> Above(b, a, k)) {
    }
  }

  lemma {:induction false} ParseZero(s: string)
    requires s != "" && !IsWhite(s[|s| - 1]) && '+' !in s && '-' !in s && Comparable(s)
    ensures Parse(s + ".0") == Some(Parse(s).value + [0])
  {
    var a, t := HeadOf(s);
    TrimDotZero(s, a, t);
    var v := WithoutV(t);
    assert WithoutV(t + ".0") == v + ".0";
    NoSuffixes(s, a, v);
    ParseOf(s, v);
    ParseOf(s + ".0", v + ".0");
    SplitZero(v);
    NumbersZero(Split(v, '.'));
  }

  lemma {:induction false} SplitZero(v: string)
    ensures Split(v + ".0", '.') == Split(v, '.') + ["0"]
  {
    SplitAt(v, "0", '.');
    SplitWhole("0", '.');
    assert v + ['.'] + "0" == v + ".0";
  }

  lemma {:induction false} ParseOf(s: string, v: string)
    requires v == WithoutV(Trim(s, IsWhite)) && Cut(Cut(v, NotPlus), NotMinus) == v
    ensures Parse(s) == if |v| == 0 then None else Numbers(Split(v, '.'))
  {
  }

  lemma {:induction false} NumbersZero(parts: seq<string>)
    requires Numbers(parts).Some?
    ensures Numbers(parts + ["0"]) == Some(Numbers(parts).value + [0])
  {
    assert (parts + ["0"])[..|parts|] == parts;
    ZeroIsZero();
  }

  lemma {:induction false} WhiteTail(s: string, b: string)
    ensures |b| > 0 && Only(b, IsWhite) ==> IsWhite((s + b)[|s + b| - 1])
  {
    if |b| > 0 && Only(b, IsWhite) {
      assert IsWhite(b[|b| - 1]);
    }
  }

  lemma {:induction false} HeadOf(s: string) returns (a: string, t: string)
    requires s != "" && !IsWhite(s[|s| - 1])
    ensures s == a + t && Only(a, IsWhite) && t == Trim(s, IsWhite) && t != "" && Trimmed(t, IsWhite)
  {
    var b;
    a, b := TrimParts(s, IsWhite);
    t := Trim(s, IsWhite);
    WhiteTail(a + t, b);
  }

  lemma {:induction false} ZeroIsZero()
    ensures Number("0") == Some(0)
  {
    assert "0"[..0] == "";
    assert Digits("") == Some(0);
    assert '0' as int - '0' as int == 0;
  }

  lemma {:induction false} TrimDotZero(s: string, a: string, t: string)
    requires Only(a, IsWhite) && s == a + t && t != "" && Trimmed(t, IsWhite)
    ensures Trim(s + ".0", IsWhite) == t + ".0"
  {
    assert s + ".0" == a + (t + ".0") + "";
    assert (t + ".0")[|t| + 1] == '0' && (t + ".0")[0] == t[0];
    TrimCore(a, t + ".0", "", IsWhite);
  }

  lemma {:induction false} NoSuffixes(s: string, a: string, v: string)
    requires '+' !in s && '-' !in s && |a| <= |s| && (v == s[|a|..] || (|a| < |s| && v == s[|a| + 1..]))
    ensures Cut(Cut(v, NotPlus), NotMinus) == v && Cut(Cut(v + ".0", NotPlus), NotMinus) == v + ".0"
  {
    CutTwice(v);
    CutTwice(v + ".0");
    forall i | 0 <= i < |v| ensures NotSuffix(v[i]) {
      assert v[i] in s;
    }
    LeadUnique(v, NotSuffix, |v|);
    var w := v + ".0";
    forall i | 0 <= i < |w| ensures NotSuffix(w[i]) {
      assert i >= |v| ==> w[i] == ".0"[i - |v|];
    }
    LeadUnique(w, NotSuffix, |w|);
  }
}
