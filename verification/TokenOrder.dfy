/** Lexicographic order on tokens, and why the tokens with a common prefix stand
    together in a sorted list. */
module TokenOrder {

  predicate Less(a: string, b: string) {
    |b| > 0 && (|a| == 0 || a[0] < b[0] || (a[0] == b[0] && Less(a[1..], b[1..])))
  }

  lemma {:induction false} LessIrreflexive(a: string)
    ensures !Less(a, a)
  {
    if |a| > 0 {
      LessIrreflexive(a[1..]);
    }
  }

  lemma {:induction false} LessTransitive(a: string, b: string, c: string)
    requires Less(a, b) && Less(b, c)
    ensures Less(a, c)
  {
    if |a| > 0 && a[0] == b[0] && b[0] == c[0] {
      LessTransitive(a[1..], b[1..], c[1..]);
    }
  }

  lemma {:induction false} LessTotal(a: string, b: string)
    ensures Less(a, b) || Less(b, a) || a == b
  {
    if |a| > 0 && |b| > 0 && a[0] == b[0] {
      LessTotal(a[1..], b[1..]);
      assert a == [a[0]] + a[1..] && b == [b[0]] + b[1..];
    }
  }

  ghost predicate Ascending(s: seq<string>) {
    forall i, j :: 0 <= i < j < |s| ==> Less(s[i], s[j])
  }

  lemma {:induction false} PrefixNotBelow(p: string, s: string)
    requires p <= s
    ensures !Less(s, p)
  {
    if |p| > 0 {
      assert p[0] == s[0] && p[1..] <= s[1..];
      PrefixNotBelow(p[1..], s[1..]);
    }
  }

  /** Between a prefix and a token with that prefix there are only tokens with it. */
  lemma {:induction false} PrefixBetween(p: string, t: string, s: string)
    requires p <= s && !Less(t, p) && !Less(s, t)
    ensures p <= t
  {
    if |p| > 0 {
      assert p[0] == s[0] && p[1..] <= s[1..];
      assert |t| > 0 && t[0] == p[0];
      PrefixBetween(p[1..], t[1..], s[1..]);
      assert t == [t[0]] + t[1..] && p == [p[0]] + p[1..];
    }
  }

  /** A sorted list of distinct tokens is determined by its elements. */
  lemma {:induction false} AscendingUnique(a: seq<string>, b: seq<string>)
    requires Ascending(a) && Ascending(b) && forall t :: t in a <==> t in b
    ensures a == b
  {
    assert forall i :: 0 <= i < |b| ==> b[i] in a;
    assert forall i :: 0 <= i < |a| ==> a[i] in b;
    if |a| == 0 {
      assert |b| == 0;
    } else {
      assert a[0] in b;
      SameFirst(a, b);
      forall t ensures t in a[1..] <==> t in b[1..] {
        InTail(a, t);
        InTail(b, t);
      }
      AscendingUnique(a[1..], b[1..]);
      assert a == [a[0]] + a[1..] && b == [b[0]] + b[1..];
    }
  }

  lemma {:induction false} SameFirst(a: seq<string>, b: seq<string>)
    requires Ascending(a) && Ascending(b) && |a| > 0 && |b| > 0 && a[0] in b && b[0] in a
    ensures a[0] == b[0]
  {
    if a[0] != b[0] {
      var i :| 0 <= i < |b| && b[i] == a[0];
      var j :| 0 <= j < |a| && a[j] == b[0];
      assert Less(b[0], b[i]) && Less(a[0], a[j]);
      LessTransitive(a[0], b[0], a[0]);
      LessIrreflexive(a[0]);
    }
  }

  lemma {:induction false} InTail(a: seq<string>, t: string)
    requires Ascending(a) && |a| > 0
    ensures t in a[1..] <==> t in a && t != a[0]
  {
    LessIrreflexive(a[0]);
    if t in a[1..] {
      var i :| 0 <= i < |a| - 1 && a[1..][i] == t;
      assert Less(a[0], a[i + 1]);
    }
    if t in a && t != a[0] {
      var i :| 0 <= i < |a| && a[i] == t;
      assert a[1..][i - 1] == t;
    }
  }

  /** Sorting: the tokens of a set in ascending order. */
  method Sorted(keys: set<string>) returns (sorted: seq<string>)
    ensures Ascending(sorted) && forall t :: t in sorted <==> t in keys
  {
    sorted := [];
    var rest := keys;
    while rest != {}
      invariant rest <= keys && Ascending(sorted)
      invariant forall t :: t in sorted <==> t in keys && t !in rest
      decreases |rest|
    {
      var t :| t in rest;
      sorted := Inserted(sorted, t);
      rest := rest - {t};
    }
  }

  method Inserted(s: seq<string>, t: string) returns (r: seq<string>)
    requires Ascending(s) && t !in s
    ensures Ascending(r) && forall x :: x in r <==> x in s || x == t
  {
    var i := 0;
    while i < |s| && Less(s[i], t)
      invariant i <= |s| && forall j :: 0 <= j < i ==> Less(s[j], t)
    {
      i := i + 1;
    }
    r := s[..i] + [t] + s[i..];
    if i < |s| {
      LessTotal(s[i], t);
      assert s[i] in s;
    }
    forall j | i <= j < |s| ensures Less(t, s[j]) {
      if i < j {
        LessTransitive(t, s[i], s[j]);
      }
    }
    InsertedAscends(s, t, i);
  }

  lemma {:induction false} InsertedAscends(s: seq<string>, t: string, i: nat)
    requires Ascending(s) && i <= |s|
    requires forall j :: 0 <= j < i ==> Less(s[j], t)
    requires forall j :: i <= j < |s| ==> Less(t, s[j])
    ensures var r := s[..i] + [t] + s[i..]; Ascending(r) && forall x :: x in r <==> x in s || x == t
  {
    var r := s[..i] + [t] + s[i..];
    forall k, l | 0 <= k < l < |r| ensures Less(r[k], r[l]) {
      assert r[k] == if k < i then s[k] else if k == i then t else s[k - 1];
      assert r[l] == if l < i then s[l] else if l == i then t else s[l - 1];
    }
    assert s == s[..i] + s[i..];
  }

  /** The binary search: the first token that is not below the prefix. */
  method LowerBound(sorted: seq<string>, prefix: string) returns (lower: nat)
    requires Ascending(sorted)
    ensures lower <= |sorted|
    ensures forall i :: 0 <= i < lower ==> Less(sorted[i], prefix)
    ensures forall i :: lower <= i < |sorted| ==> !Less(sorted[i], prefix)
  {
    lower := 0;
    var upper := |sorted|;
    while lower < upper
      invariant lower <= upper <= |sorted|
      invariant forall i :: 0 <= i < lower ==> Less(sorted[i], prefix)
      invariant forall i :: upper <= i < |sorted| ==> !Less(sorted[i], prefix)
    {
      var mid := (lower + upper) / 2;
      if Less(sorted[mid], prefix) {
        forall i | lower <= i < mid ensures Less(sorted[i], prefix) {
          LessTransitive(sorted[i], sorted[mid], prefix);
        }
        lower := mid + 1;
      } else {
        forall i | mid < i < upper ensures !Less(sorted[i], prefix) {
          if Less(sorted[i], prefix) {
            LessTransitive(sorted[mid], sorted[i], prefix);
          }
        }
        upper := mid;
      }
    }
  }

  /** The tokens with a prefix, found from the lower bound on: all of them. */
  method WithPrefix(sorted: seq<string>, prefix: string) returns (result: seq<string>)
    requires Ascending(sorted)
    ensures forall t :: t in result <==> t in sorted && prefix <= t
  {
    var lower := LowerBound(sorted, prefix);
    result := [];
    var index := lower;
    while index < |sorted| && prefix <= sorted[index]
      invariant lower <= index <= |sorted| && result == sorted[lower..index]
      invariant forall i :: lower <= i < index ==> prefix <= sorted[i]
    {
      result := result + [sorted[index]];
      index := index + 1;
    }
    forall i | 0 <= i < |sorted| && prefix <= sorted[i] ensures lower <= i < index {
      PrefixNotBelow(prefix, sorted[i]);
      if index <= i {
        NotBelowFrom(sorted, index, i);
        PrefixBetween(prefix, sorted[index], sorted[i]);
      }
    }
    RangeMembers(sorted, lower, index, prefix);
  }

  lemma {:induction false} NotBelowFrom(sorted: seq<string>, i: nat, j: nat)
    requires Ascending(sorted) && i <= j < |sorted|
    ensures !Less(sorted[j], sorted[i])
  {
    LessIrreflexive(sorted[i]);
    if i < j && Less(sorted[j], sorted[i]) {
      LessTransitive(sorted[i], sorted[j], sorted[i]);
    }
  }

  lemma {:induction false} RangeMembers(sorted: seq<string>, lower: nat, index: nat, prefix: string)
    requires lower <= index <= |sorted|
    requires forall i :: lower <= i < index ==> prefix <= sorted[i]
    requires forall i :: 0 <= i < |sorted| && prefix <= sorted[i] ==> lower <= i < index
    ensures forall t :: t in sorted[lower..index] <==> t in sorted && prefix <= t
  {
    forall t ensures t in sorted[lower..index] <==> t in sorted && prefix <= t {
      if t in sorted && prefix <= t {
        var i :| 0 <= i < |sorted| && sorted[i] == t;
        assert sorted[lower..index][i - lower] == t;
      }
    }
  }
}
