/** Lines of a text: their offsets, the line under a cursor, maximal runs of
    lines that a predicate accepts, and what exchanging such a run does. */
module LineBlocks {
  import opened Text

  // ----------------------------------------------------------------- offsets

  /** Offset of line `i`, or just past the text and one newline. */
  function Start(lines: seq<string>, i: nat): nat
    requires i <= |lines|
  {
    if i == 0 then 0 else Start(lines, i - 1) + |lines[i - 1]| + 1
  }

  lemma {:induction false} StartMonotone(lines: seq<string>, i: nat, j: nat)
    requires i < j <= |lines|
    ensures Start(lines, i) + |lines[i]| < Start(lines, j)
  {
    if i + 1 < j {
      StartMonotone(lines, i, j - 1);
    }
  }

  /** The cursor is on this line, at one of its ends or between them. */
  predicate OnLine(lines: seq<string>, cursor: int, i: nat)
    requires i < |lines|
  {
    Start(lines, i) <= cursor <= Start(lines, i) + |lines[i]|
  }

  lemma {:induction false} OnLineUnique(lines: seq<string>, cursor: int, i: nat, j: nat)
    requires i < |lines| && j < |lines| && OnLine(lines, cursor, i) && OnLine(lines, cursor, j)
    ensures i == j
  {
    if i < j {
      StartMonotone(lines, i, j);
    } else if j < i {
      StartMonotone(lines, j, i);
    }
  }

  /** The first line from `i` on that holds the cursor, or the last line. */
  function LineFrom(lines: seq<string>, cursor: int, i: nat): (r: nat)
    requires i < |lines|
    ensures r < |lines|
    decreases |lines| - i
  {
    if OnLine(lines, cursor, i) || i + 1 == |lines| then i else LineFrom(lines, cursor, i + 1)
  }

  lemma {:induction false} LineFromIs(lines: seq<string>, cursor: int, i: nat, k: nat)
    requires i <= k < |lines| && OnLine(lines, cursor, k)
    ensures LineFrom(lines, cursor, i) == k
    decreases k - i
  {
    if i == k {
    } else if OnLine(lines, cursor, i) {
      OnLineUnique(lines, cursor, i, k);
    } else {
      LineFromIs(lines, cursor, i + 1, k);
    }
  }

  function First(lines: seq<string>, p: string -> bool, i: nat): (r: nat)
    requires i < |lines|
    ensures r <= i
  {
    if i > 0 && p(lines[i - 1]) then First(lines, p, i - 1) else i
  }

  function Last(lines: seq<string>, p: string -> bool, i: nat): (r: nat)
    requires i < |lines|
    ensures i <= r < |lines|
    decreases |lines| - i
  {
    if i + 1 < |lines| && p(lines[i + 1]) then Last(lines, p, i + 1) else i
  }

  /** A maximal run of table lines. */
  ghost predicate Block(lines: seq<string>, p: string -> bool, first: nat, last: nat)
    requires first <= last < |lines|
  {
    && (forall i :: first <= i <= last ==> p(lines[i]))
    && (first > 0 ==> !p(lines[first - 1]))
    && (last + 1 < |lines| ==> !p(lines[last + 1]))
  }

  lemma {:induction false} FirstIs(lines: seq<string>, p: string -> bool, i: nat, first: nat)
    requires first <= i < |lines|
    requires forall j :: first <= j < i ==> p(lines[j])
    requires first > 0 ==> !p(lines[first - 1])
    ensures First(lines, p, i) == first
  {
    if first < i {
      FirstIs(lines, p, i - 1, first);
    }
  }

  lemma {:induction false} LastIs(lines: seq<string>, p: string -> bool, i: nat, last: nat)
    requires i <= last < |lines|
    requires forall j :: i < j <= last ==> p(lines[j])
    requires last + 1 < |lines| ==> !p(lines[last + 1])
    ensures Last(lines, p, i) == last
    decreases last - i
  {
    if i < last {
      LastIs(lines, p, i + 1, last);
    }
  }

  lemma {:induction false} FirstBlock(lines: seq<string>, p: string -> bool, i: nat)
    requires i < |lines|
    ensures forall j :: First(lines, p, i) <= j < i ==> p(lines[j])
    ensures First(lines, p, i) > 0 ==> !p(lines[First(lines, p, i) - 1])
  {
    if i > 0 && p(lines[i - 1]) {
      FirstBlock(lines, p, i - 1);
    }
  }

  lemma {:induction false} LastBlock(lines: seq<string>, p: string -> bool, i: nat)
    requires i < |lines|
    ensures forall j :: i < j <= Last(lines, p, i) ==> p(lines[j])
    ensures Last(lines, p, i) + 1 < |lines| ==> !p(lines[Last(lines, p, i) + 1])
    decreases |lines| - i
  {
    if i + 1 < |lines| && p(lines[i + 1]) {
      LastBlock(lines, p, i + 1);
    }
  }

  /** The length of joined lines, and the text on both sides of a line break. */
  lemma {:induction false} JoinLength(lines: seq<string>)
    requires |lines| >= 1
    ensures |Join(lines, '\n')| + 1 == Start(lines, |lines|)
  {
    var n := |lines| - 1;
    if n > 0 {
      JoinLength(lines[..n]);
      JoinAppend(lines[..n], [lines[n]], '\n');
      assert lines[..n] + [lines[n]] == lines;
      StartPrefix(lines, n, n);
    }
  }

  lemma {:induction false} StartPrefix(lines: seq<string>, n: nat, i: nat)
    requires i <= n <= |lines|
    ensures Start(lines[..n], i) == Start(lines, i)
  {
    if i > 0 {
      StartPrefix(lines, n, i - 1);
    }
  }

  lemma {:induction false} OffsetsInText(text: string, i: nat, j: nat)
    requires i <= j < |Split(text, '\n')|
    ensures var lines := Split(text, '\n');
      Start(lines, i) <= Start(lines, j) + |lines[j]| <= |text|
  {
    var lines := Split(text, '\n');
    JoinSplit(text, '\n');
    JoinLength(lines);
    if i < j {
      StartMonotone(lines, i, j);
    }
    StartMonotone(lines, j, |lines|);
  }

  /** The lines with those of the table exchanged. */
  function Splice(lines: seq<string>, first: nat, last: nat, block: seq<string>): seq<string>
    requires first <= last < |lines|
  {
    lines[..first] + block + lines[last + 1..]
  }

  lemma {:induction false} JoinBefore(lines: seq<string>, i: nat)
    requires i < |lines|
    ensures Start(lines, i) <= |Join(lines, '\n')|
    ensures Join(lines, '\n')[..Start(lines, i)] == if i == 0 then "" else Join(lines[..i], '\n') + "\n"
    ensures Join(lines, '\n')[Start(lines, i)..] == Join(lines[i..], '\n')
  {
    if i == 0 {
      assert lines[0..] == lines;
    } else {
      JoinAppend(lines[..i], lines[i..], '\n');
      assert lines[..i] + lines[i..] == lines;
      JoinLength(lines[..i]);
      StartPrefix(lines, i, i);
    }
  }

  lemma {:induction false} JoinEnd(lines: seq<string>, i: nat)
    requires i < |lines|
    ensures |Join(lines[..i + 1], '\n')| == Start(lines, i) + |lines[i]|
  {
    var head := lines[..i + 1];
    assert |head| == i + 1;
    JoinLength(head);
    StartPrefix(lines, i + 1, i + 1);
    assert Start(head, i + 1) == Start(lines, i + 1);
    assert Start(lines, i + 1) == Start(lines, i) + |lines[i]| + 1;
  }

  lemma {:induction false} JoinAfter(lines: seq<string>, i: nat)
    requires i < |lines|
    ensures Start(lines, i) + |lines[i]| <= |Join(lines, '\n')|
    ensures Join(lines, '\n')[Start(lines, i) + |lines[i]|..]
      == if i + 1 == |lines| then "" else "\n" + Join(lines[i + 1..], '\n')
  {
    JoinEnd(lines, i);
    if i + 1 < |lines| {
      var head, tail := lines[..i + 1], lines[i + 1..];
      JoinAppend(head, tail, '\n');
      assert head + tail == lines;
      Assoc(Join(head, '\n'), "\n", Join(tail, '\n'));
    } else {
      assert lines[..i + 1] == lines;
    }
  }

  lemma {:induction false} JoinThree(a: seq<string>, b: seq<string>, c: seq<string>)
    requires |b| >= 1
    ensures Join(a + b + c, '\n')
      == (if |a| == 0 then "" else Join(a, '\n') + "\n") + Join(b, '\n')
         + (if |c| == 0 then "" else "\n" + Join(c, '\n'))
  {
    if |a| == 0 {
      assert a + b == b;
    } else {
      JoinAppend(a, b, '\n');
    }
    if |c| == 0 {
      assert a + b + c == a + b;
    } else {
      JoinAppend(a + b, c, '\n');
      Assoc(Join(a + b, '\n'), "\n", Join(c, '\n'));
    }
  }

  /** Exchanging the text of the table exchanges its lines. */
  lemma {:induction false} SpliceText(lines: seq<string>, first: nat, last: nat, block: seq<string>)
    requires first <= last < |lines| && |block| >= 1
    ensures Start(lines, first) <= |Join(lines, '\n')| && Start(lines, last) + |lines[last]| <= |Join(lines, '\n')|
    ensures Join(lines, '\n')[..Start(lines, first)] + Join(block, '\n')
      + Join(lines, '\n')[Start(lines, last) + |lines[last]|..] == Join(Splice(lines, first, last, block), '\n')
  {
    JoinBefore(lines, first);
    JoinAfter(lines, last);
    JoinThree(lines[..first], block, lines[last + 1..]);
  }

  lemma {:induction false} StartConcat(a: seq<string>, b: seq<string>, c: seq<string>, k: nat)
    requires k <= |b|
    ensures Start(a + b + c, |a| + k) == Start(a, |a|) + Start(b, k)
  {
    if k == 0 {
      StartPrefix(a + b + c, |a|, |a|);
      assert (a + b + c)[..|a|] == a;
    } else {
      StartConcat(a, b, c, k - 1);
      assert (a + b + c)[|a| + k - 1] == b[k - 1];
    }
  }

  lemma {:induction false} SpliceStart(lines: seq<string>, first: nat, last: nat, block: seq<string>, k: nat)
    requires first <= last < |lines| && k <= |block|
    ensures first + k <= |Splice(lines, first, last, block)|
    ensures Start(Splice(lines, first, last, block), first + k) == Start(lines, first) + Start(block, k)
  {
    StartConcat(lines[..first], block, lines[last + 1..], k);
    StartPrefix(lines, first, first);
  }

  lemma {:induction false} SpliceBlock(lines: seq<string>, p: string -> bool, first: nat, last: nat, block: seq<string>)
    requires first <= last < |lines| && Block(lines, p, first, last)
    requires |block| >= 1 && forall i :: 0 <= i < |block| ==> p(block[i])
    ensures var spliced, n := Splice(lines, first, last, block), |block|;
      && first + n <= |spliced| && spliced[first..first + n] == block
      && Block(spliced, p, first, first + n - 1)
  {
    var spliced, n := Splice(lines, first, last, block), |block|;
    forall i | first <= i < first + n ensures spliced[i] == block[i - first] && p(spliced[i]) {
    }
    if first + n < |spliced| {
      assert spliced[first + n] == lines[last + 1];
    }
    if first > 0 {
      assert spliced[first - 1] == lines[first - 1];
    }
  }

  lemma {:induction false} SpliceNoNewline(lines: seq<string>, first: nat, last: nat, block: seq<string>)
    requires first <= last < |lines|
    requires forall i :: 0 <= i < |lines| ==> '\n' !in lines[i]
    requires forall i :: 0 <= i < |block| ==> '\n' !in block[i]
    ensures forall i :: 0 <= i < |Splice(lines, first, last, block)| ==> '\n' !in Splice(lines, first, last, block)[i]
  {
  }

  // ------------------------------------------------------ the run under a cursor

  /** A maximal run of accepted lines, and the line of the cursor in it. */
  datatype Spot = Spot(first: nat, last: nat, line: nat)

  function SpotAt(text: string, cursor: int, p: string -> bool): Option<Spot> {
    if cursor < 0 || cursor > |text| then None
    else
      var lines := Split(text, '\n');
      var i := LineFrom(lines, cursor, 0);
      if p(lines[i]) then Some(Spot(First(lines, p, i), Last(lines, p, i), i)) else None
  }

  /** The run that is found is a maximal run of accepted lines. */
  lemma {:induction false} SpotIsBlock(text: string, cursor: int, p: string -> bool, spot: Spot)
    requires SpotAt(text, cursor, p) == Some(spot)
    ensures var lines := Split(text, '\n');
      && spot.first <= spot.line <= spot.last < |lines|
      && Block(lines, p, spot.first, spot.last)
      && Start(lines, spot.first) <= Start(lines, spot.last) + |lines[spot.last]| <= |text|
  {
    var lines := Split(text, '\n');
    FirstBlock(lines, p, spot.line);
    LastBlock(lines, p, spot.line);
    OffsetsInText(text, spot.first, spot.last);
  }

  /** A maximal run with the cursor on one of its lines is the one found. */
  lemma {:induction false} BlockIsSpot(text: string, cursor: int, p: string -> bool, spot: Spot)
    requires var lines := Split(text, '\n');
      && spot.first <= spot.line <= spot.last < |lines|
      && Block(lines, p, spot.first, spot.last) && OnLine(lines, cursor, spot.line)
    ensures SpotAt(text, cursor, p) == Some(spot)
  {
    var lines := Split(text, '\n');
    OffsetsInText(text, spot.line, spot.line);
    LineFromIs(lines, cursor, 0, spot.line);
    FirstIs(lines, p, spot.line, spot.first);
    LastIs(lines, p, spot.line, spot.last);
  }

  // ------------------------------------------------- rows among separator lines

  function NonSeparators(lines: seq<string>, q: string -> bool): nat {
    if |lines| == 0 then 0
    else
      NonSeparators(lines[..|lines| - 1], q) + if q(lines[|lines| - 1]) then 0 else 1
  }

  /** The parsed row of line `k` of the block; separator lines count as header. */
  function RowAt(block: seq<string>, q: string -> bool, k: nat, rows: nat): int
    requires k < |block|
  {
    var seen := NonSeparators(block[..k + 1], q) - 1;
    var row := if q(block[k]) || seen <= 0 then -1 else seen - 1;
    if row >= rows then rows - 1 else row
  }

  lemma {:induction false} NonSeparatorsNext(block: seq<string>, q: string -> bool, k: nat)
    requires k < |block|
    ensures NonSeparators(block[..k + 1], q) == NonSeparators(block[..k], q) + if q(block[k]) then 0 else 1
  {
    assert block[..k + 1][..k] == block[..k];
  }

  lemma {:induction false} NonSeparatorsAre(lines: seq<string>, q: string -> bool)
    ensures NonSeparators(lines, q) == |set j | 0 <= j < |lines| && !q(lines[j])|
  {
    if |lines| > 0 {
      var init, n := lines[..|lines| - 1], |lines| - 1;
      NonSeparatorsAre(init, q);
      var before, all := set j | 0 <= j < n && !q(init[j]), set j | 0 <= j <= n && !q(lines[j]);
      assert forall j :: 0 <= j < n ==> init[j] == lines[j];
      forall j: int ensures j in all <==> j in before || (j == n && !q(lines[n])) {
        assert j in before <==> 0 <= j < n && !q(lines[j]);
      }
      OneMore(before, all, n, !q(lines[n]));
      assert all == set j | 0 <= j < |lines| && !q(lines[j]);
      assert before == set j | 0 <= j < |init| && !q(init[j]);
    }
  }

  lemma {:induction false} OneMore(before: set<int>, all: set<int>, n: int, more: bool)
    requires n !in before
    requires forall j :: j in all <==> (j in before || (j == n && more))
    ensures |all| == |before| + if more then 1 else 0
  {
    if more {
      assert forall j :: j in all <==> j in before + {n};
      assert all == before + {n};
    } else {
      assert forall j :: j in all <==> j in before;
      assert all == before;
    }
  }

  /** The row of a line: the header stands for the first line that is no separator and
      for every separator line; below it, each further line that is none is a row of
      its own, as far as there are rows. */
  lemma {:induction false} RowOfLine(block: seq<string>, q: string -> bool, k: nat, rows: nat)
    requires k < |block|
    ensures var above := |set j | 0 <= j < k && !q(block[j])|;
      RowAt(block, q, k, rows)
        == if q(block[k]) || above == 0 then -1
           else if above <= rows then above - 1
           else rows - 1
  {
    NonSeparatorsNext(block, q, k);
    NonSeparatorsAre(block[..k], q);
    assert (set j | 0 <= j < |block[..k]| && !q(block[..k][j])) == set j | 0 <= j < k && !q(block[j]);
  }

  lemma {:induction false} CountRows(block: seq<string>, q: string -> bool, k: nat)
    requires 2 <= k < |block| && q(block[1])
    ensures NonSeparators(block[..k + 1], q) <= k
    ensures NonSeparators(block[..k + 1], q) == k
      <==> !q(block[0]) && forall j :: 2 <= j <= k ==> !q(block[j])
  {
    NonSeparatorsNext(block, q, k);
    if k == 2 {
      NonSeparatorsNext(block, q, 0);
      NonSeparatorsNext(block, q, 1);
      assert block[..0] == [];
    } else {
      CountRows(block, q, k - 1);
    }
  }
}
