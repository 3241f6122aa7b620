/** The durable queue of offline writes: its entries, the order in which they
    are drained, and the outbox that persists the whole queue after every
    mutation. */
module Outbox {
  import opened Text

  type Id = nat    // a UUID
  type Time = int  // milliseconds

  datatype Kind = CreateNote | UpdateNote | UploadOriginal

  datatype EntryState = Queued | Uploading | Failed

  /** SHA-256, taken to be injective: a digest names the content it is of. */
  datatype Digest = Sha256(of: string)

  datatype Precondition = Precondition(etag: Option<Digest>, modifiedAt: Option<Time>, size: Option<nat>)

  const NO_PRECONDITION := Precondition(None, None, None)

  /** What goes wrong on the wire or on the disk, apart from a conflict.
      `Foreign` is any error that is not a `MobileWriteError`. */
  datatype Fault = Unreachable | Refused(status: int) | InvalidContent | Foreign

  datatype WriteError = Faulted(fault: Fault) | Conflict(preservedAt: string)

  datatype Entry = Entry(
    id: Id, kind: Kind, path: string,
    content: Option<string>, data: Option<string>, filename: Option<string>, folder: Option<string>,
    createdAt: Time, attempts: nat, nextRetryAt: Option<Time>, lastError: Option<WriteError>,
    state: EntryState, precondition: Precondition, conflictPath: Option<string>)

  /** The state in which the initialiser leaves a new entry. */
  predicate IsNew(e: Entry) {
    e.attempts == 0 && e.nextRetryAt == None && e.lastError == None && e.state == Queued && e.conflictPath == None
  }

  // ------------------------------------------------------------ queue content

  function Ids(entries: seq<Entry>): set<Id> {
    set e | e in entries :: e.id
  }

  ghost predicate Distinct(entries: seq<Entry>) {
    forall i, j :: 0 <= i < j < |entries| ==> entries[i].id != entries[j].id
  }

  /** Position of the first entry with this id, or the length. */
  function IndexOf(entries: seq<Entry>, id: Id): (i: nat)
    ensures i <= |entries|
    ensures i < |entries| ==> entries[i].id == id
    ensures forall j :: 0 <= j < i ==> entries[j].id != id
  {
    if |entries| == 0 || entries[0].id == id then 0 else 1 + IndexOf(entries[1..], id)
  }

  /** Replaces the entry with the same id, or appends when there is none. */
  function Put(entries: seq<Entry>, e: Entry): (r: seq<Entry>)
    ensures forall x :: x in r ==> x == e || x in entries
    ensures e in r
  {
    var i := IndexOf(entries, e.id);
    if i < |entries| then
      assert entries[i := e][i] == e;
      entries[i := e]
    else
      assert (entries + [e])[|entries|] == e;
      entries + [e]
  }

  function Without(entries: seq<Entry>, id: Id): (r: seq<Entry>)
    ensures forall x :: x in r <==> x in entries && x.id != id
  {
    if |entries| == 0 then []
    else if entries[0].id == id then Without(entries[1..], id)
    else [entries[0]] + Without(entries[1..], id)
  }

  lemma {:induction false} PutIds(entries: seq<Entry>, e: Entry)
    ensures Ids(Put(entries, e)) == Ids(entries) + {e.id}
  {
    var r := Put(entries, e);
    forall id | id in Ids(entries) + {e.id} ensures id in Ids(r) {
      if id != e.id {
        var x :| x in entries && x.id == id;
        var j :| 0 <= j < |entries| && entries[j] == x;
        assert r[j] == x;
      }
    }
  }

  lemma {:induction false} WithoutIds(entries: seq<Entry>, id: Id)
    ensures Ids(Without(entries, id)) == Ids(entries) - {id}
  {
  }

  lemma {:induction false} WithoutDistinct(entries: seq<Entry>, id: Id)
    requires Distinct(entries)
    ensures Distinct(Without(entries, id))
  {
    if |entries| > 0 {
      WithoutDistinct(entries[1..], id);
      var rest := Without(entries[1..], id);
      forall x | x in rest ensures x.id != entries[0].id {
        var j :| 0 <= j < |entries[1..]| && entries[1..][j] == x;
        assert entries[j + 1] == x;
      }
    }
  }

  /** An entry is replaced in its place, or appended when its id is new. */
  lemma {:induction false} PutShape(entries: seq<Entry>, e: Entry)
    requires Distinct(entries)
    ensures var r := Put(entries, e);
      && (forall i :: 0 <= i < |entries| ==> i < |r| && r[i] == if entries[i].id == e.id then e else entries[i])
      && r == if e.id in Ids(entries) then r[..|entries|] else r[..|entries|] + [e]
  {
    var k := IndexOf(entries, e.id);
    if k == |entries| {
      assert forall x :: x in entries ==> x.id != e.id;
    } else {
      assert entries[k] in entries;
    }
  }

  lemma {:induction false} PutDistinct(entries: seq<Entry>, e: Entry)
    requires Distinct(entries)
    ensures Distinct(Put(entries, e))
  {
  }

  lemma {:induction false} SameId(entries: seq<Entry>, x: Entry, y: Entry)
    requires Distinct(entries) && x in entries && y in entries && x.id == y.id
    ensures x == y
  {
    var i :| 0 <= i < |entries| && entries[i] == x;
    var j :| 0 <= j < |entries| && entries[j] == y;
    assert i == j;
  }

  // -------------------------------------------------------------- drain order

  predicate IsPending(e: Entry) {
    e.state == Queued || e.state == Uploading
  }

  predicate IsDue(e: Entry, now: Time) {
    IsPending(e) && (e.nextRetryAt.Some? ==> e.nextRetryAt.value <= now)
  }

  /** Stable insertion by creation date. */
  function Insert(e: Entry, sorted: seq<Entry>): seq<Entry> {
    if |sorted| == 0 then [e]
    else if sorted[0].createdAt < e.createdAt then [sorted[0]] + Insert(e, sorted[1..])
    else [e] + sorted
  }

  function ByDate(entries: seq<Entry>): seq<Entry> {
    if |entries| == 0 then [] else Insert(entries[0], ByDate(entries[1..]))
  }

  lemma {:induction false} InsertPermutes(e: Entry, sorted: seq<Entry>)
    ensures multiset(Insert(e, sorted)) == multiset{e} + multiset(sorted)
  {
    if |sorted| > 0 && sorted[0].createdAt < e.createdAt {
      assert sorted == [sorted[0]] + sorted[1..];
      InsertPermutes(e, sorted[1..]);
    }
  }

  lemma {:induction false} InsertMembers(e: Entry, sorted: seq<Entry>)
    ensures forall x :: x in Insert(e, sorted) <==> x == e || x in sorted
  {
    InsertPermutes(e, sorted);
    forall x ensures x in Insert(e, sorted) <==> x == e || x in sorted {
      assert x in multiset(Insert(e, sorted)) <==> x in multiset{e} + multiset(sorted);
    }
  }

  lemma {:induction false} ByDatePermutes(entries: seq<Entry>)
    ensures multiset(ByDate(entries)) == multiset(entries)
  {
    if |entries| > 0 {
      assert entries == [entries[0]] + entries[1..];
      ByDatePermutes(entries[1..]);
      InsertPermutes(entries[0], ByDate(entries[1..]));
    }
  }

  lemma {:induction false} ByDateMembers(entries: seq<Entry>)
    ensures forall x :: x in ByDate(entries) <==> x in entries
  {
    ByDatePermutes(entries);
    forall x ensures x in ByDate(entries) <==> x in entries {
      assert x in multiset(ByDate(entries)) <==> x in multiset(entries);
    }
  }

  function PendingOnly(entries: seq<Entry>): seq<Entry> {
    if |entries| == 0 then []
    else if IsPending(entries[0]) then [entries[0]] + PendingOnly(entries[1..])
    else PendingOnly(entries[1..])
  }

  function DueOnly(entries: seq<Entry>, now: Time): seq<Entry> {
    if |entries| == 0 then []
    else if IsDue(entries[0], now) then [entries[0]] + DueOnly(entries[1..], now)
    else DueOnly(entries[1..], now)
  }

  /** `pending`: queued and uploading entries, oldest first. */
  function Pending(entries: seq<Entry>): seq<Entry> {
    ByDate(PendingOnly(entries))
  }

  function FirstDue(entries: seq<Entry>, now: Time): Option<Entry> {
    if |entries| == 0 then None
    else if IsDue(entries[0], now) then Some(entries[0])
    else FirstDue(entries[1..], now)
  }

  /** `nextDue`: the first pending entry whose retry date has come. */
  function NextDue(entries: seq<Entry>, now: Time): Option<Entry> {
    FirstDue(Pending(entries), now)
  }

  /** The due entries in the order in which a drain meets them. */
  function DueQueue(entries: seq<Entry>, now: Time): seq<Entry> {
    ByDate(DueOnly(entries, now))
  }

  ghost predicate Sorted(entries: seq<Entry>) {
    forall i, j :: 0 <= i < j < |entries| ==> entries[i].createdAt <= entries[j].createdAt
  }

  lemma {:induction false} InsertSorted(e: Entry, sorted: seq<Entry>)
    requires Sorted(sorted)
    ensures Sorted(Insert(e, sorted))
  {
    if |sorted| > 0 && sorted[0].createdAt < e.createdAt {
      var rest := Insert(e, sorted[1..]);
      InsertSorted(e, sorted[1..]);
      InsertMembers(e, sorted[1..]);
      forall x | x in rest ensures sorted[0].createdAt <= x.createdAt {
        assert x == e || x in sorted[1..];
      }
    }
  }

  lemma {:induction false} ByDateSorted(entries: seq<Entry>)
    ensures Sorted(ByDate(entries))
  {
    if |entries| > 0 {
      ByDateSorted(entries[1..]);
      InsertSorted(entries[0], ByDate(entries[1..]));
    }
  }

  lemma {:induction false} DueCons(x: Entry, rest: seq<Entry>, now: Time)
    ensures DueOnly([x] + rest, now) == if IsDue(x, now) then [x] + DueOnly(rest, now) else DueOnly(rest, now)
  {
    assert ([x] + rest)[1..] == rest;
  }

  lemma {:induction false} InsertCons(e: Entry, x: Entry, rest: seq<Entry>)
    ensures Insert(e, [x] + rest)
      == if x.createdAt < e.createdAt then [x] + Insert(e, rest) else [e] + ([x] + rest)
  {
    assert ([x] + rest)[1..] == rest;
  }

  lemma {:induction false} DueInsert(e: Entry, sorted: seq<Entry>, now: Time)
    requires Sorted(sorted)
    ensures DueOnly(Insert(e, sorted), now)
      == if IsDue(e, now) then Insert(e, DueOnly(sorted, now)) else DueOnly(sorted, now)
  {
    if |sorted| == 0 {
      DueCons(e, [], now);
    } else if sorted[0].createdAt < e.createdAt {
      var x, rest := sorted[0], sorted[1..];
      assert sorted == [x] + rest;
      DueInsert(e, rest, now);
      InsertCons(e, x, rest);
      DueCons(x, Insert(e, rest), now);
      DueCons(x, rest, now);
      InsertCons(e, x, DueOnly(rest, now));
    } else {
      DueCons(e, sorted, now);
      DueOnlyMembers(sorted, now);
      InsertBeforeAll(e, DueOnly(sorted, now));
    }
  }

  lemma {:induction false} FirstDueIsHead(entries: seq<Entry>, now: Time)
    ensures FirstDue(entries, now)
      == var due := DueOnly(entries, now); if |due| == 0 then None else Some(due[0])
  {
    if |entries| > 0 {
      FirstDueIsHead(entries[1..], now);
      assert entries == [entries[0]] + entries[1..];
      DueCons(entries[0], entries[1..], now);
    }
  }

  lemma {:induction false} ByDateCons(x: Entry, rest: seq<Entry>)
    ensures ByDate([x] + rest) == Insert(x, ByDate(rest))
  {
    assert ([x] + rest)[1..] == rest;
  }

  lemma {:induction false} DueOfPending(entries: seq<Entry>, now: Time)
    ensures DueOnly(ByDate(PendingOnly(entries)), now) == ByDate(DueOnly(entries, now))
  {
    if |entries| > 0 {
      DueOfPending(entries[1..], now);
      var x, pending, due := entries[0], PendingOnly(entries[1..]), DueOnly(entries[1..], now);
      ByDateCons(x, pending);
      ByDateCons(x, due);
      ByDateSorted(pending);
      DueInsert(x, ByDate(pending), now);
    }
  }

  /** The next entry to drain is the head of the due queue. */
  lemma {:induction false} NextDueIsOldest(entries: seq<Entry>, now: Time)
    ensures NextDue(entries, now)
      == var due := DueQueue(entries, now); if |due| == 0 then None else Some(due[0])
  {
    DueOfPending(entries, now);
    FirstDueIsHead(Pending(entries), now);
  }

  lemma {:induction false} DueOnlyMembers(entries: seq<Entry>, now: Time)
    ensures forall x :: x in DueOnly(entries, now) <==> x in entries && IsDue(x, now)
  {
    if |entries| > 0 {
      DueOnlyMembers(entries[1..], now);
    }
  }

  lemma {:induction false} DueQueueMembers(entries: seq<Entry>, now: Time)
    ensures forall x :: x in DueQueue(entries, now) <==> x in entries && IsDue(x, now)
  {
    DueOnlyMembers(entries, now);
    ByDateMembers(DueOnly(entries, now));
  }

  /** The chosen entry is queued in this outbox, is due, and no due entry is
      older. */
  lemma {:induction false} NextDueIsDue(entries: seq<Entry>, now: Time)
    ensures NextDue(entries, now) == None <==> forall x :: x in entries ==> !IsDue(x, now)
    ensures NextDue(entries, now).Some? ==>
      var e := NextDue(entries, now).value;
      e in entries && IsDue(e, now) && forall x :: x in entries && IsDue(x, now) ==> e.createdAt <= x.createdAt
  {
    NextDueIsOldest(entries, now);
    DueQueueMembers(entries, now);
    ByDateSorted(DueOnly(entries, now));
    var due := DueQueue(entries, now);
    if |due| > 0 {
      assert due[0] in due;
    }
  }

  // --------------------------------------- what handling an entry does to it

  lemma {:induction false} InsertWithout(e: Entry, sorted: seq<Entry>, id: Id)
    requires Sorted(sorted)
    ensures Without(Insert(e, sorted), id)
      == if e.id == id then Without(sorted, id) else Insert(e, Without(sorted, id))
  {
    if |sorted| == 0 {
    } else if sorted[0].createdAt < e.createdAt {
      InsertWithout(e, sorted[1..], id);
      assert Insert(e, sorted)[1..] == Insert(e, sorted[1..]);
    } else {
      assert Insert(e, sorted)[1..] == sorted;
      InsertBeforeAll(e, Without(sorted, id));
    }
  }

  lemma {:induction false} InsertBeforeAll(e: Entry, later: seq<Entry>)
    requires forall x :: x in later ==> e.createdAt <= x.createdAt
    ensures Insert(e, later) == [e] + later
  {
  }

  lemma {:induction false} ByDateWithout(entries: seq<Entry>, id: Id)
    ensures ByDate(Without(entries, id)) == Without(ByDate(entries), id)
  {
    if |entries| > 0 {
      ByDateWithout(entries[1..], id);
      ByDateSorted(entries[1..]);
      InsertWithout(entries[0], ByDate(entries[1..]), id);
    }
  }

  lemma {:induction false} WithoutCons(x: Entry, rest: seq<Entry>, id: Id)
    ensures Without([x] + rest, id) == if x.id == id then Without(rest, id) else [x] + Without(rest, id)
  {
    assert ([x] + rest)[1..] == rest;
  }

  lemma {:induction false} DueWithout(entries: seq<Entry>, id: Id, now: Time)
    ensures DueOnly(Without(entries, id), now) == Without(DueOnly(entries, now), id)
  {
    if |entries| > 0 {
      var x, rest := entries[0], entries[1..];
      assert entries == [x] + rest;
      DueWithout(rest, id, now);
      DueCons(x, Without(rest, id), now);
      WithoutCons(x, DueOnly(rest, now), id);
    }
  }

  lemma {:induction false} WithoutAbsent(entries: seq<Entry>, id: Id)
    requires forall x :: x in entries ==> x.id != id
    ensures Without(entries, id) == entries
  {
    if |entries| > 0 {
      WithoutAbsent(entries[1..], id);
    }
  }

  lemma {:induction false} PutCons(x: Entry, rest: seq<Entry>, e: Entry)
    ensures Put([x] + rest, e) == if x.id == e.id then [e] + rest else [x] + Put(rest, e)
  {
    assert ([x] + rest)[1..] == rest;
  }

  lemma {:induction false} DuePutHead(x: Entry, rest: seq<Entry>, e: Entry, now: Time)
    requires x.id == e.id && !IsDue(e, now) && forall y :: y in rest ==> y.id != e.id
    ensures DueOnly([e] + rest, now) == Without(DueOnly([x] + rest, now), e.id)
  {
    DueCons(e, rest, now);
    DueCons(x, rest, now);
    WithoutCons(x, DueOnly(rest, now), e.id);
    DueOnlyMembers(rest, now);
    WithoutAbsent(DueOnly(rest, now), e.id);
  }

  lemma {:induction false} DistinctHead(entries: seq<Entry>)
    requires Distinct(entries) && |entries| > 0
    ensures Distinct(entries[1..]) && forall y :: y in entries[1..] ==> y.id != entries[0].id
  {
    forall y | y in entries[1..] ensures y.id != entries[0].id {
      var j :| 0 <= j < |entries[1..]| && entries[1..][j] == y;
      assert entries[j + 1] == y;
    }
  }

  lemma {:induction false} DuePut(entries: seq<Entry>, e: Entry, now: Time)
    requires Distinct(entries) && !IsDue(e, now)
    ensures DueOnly(Put(entries, e), now) == Without(DueOnly(entries, now), e.id)
  {
    if |entries| == 0 {
      DueCons(e, [], now);
    } else {
      var x, rest := entries[0], entries[1..];
      assert entries == [x] + rest;
      DistinctHead(entries);
      PutCons(x, rest, e);
      if x.id == e.id {
        DuePutHead(x, rest, e, now);
      } else {
        DuePut(rest, e, now);
        DueCons(x, rest, now);
        DueCons(x, Put(rest, e), now);
        WithoutCons(x, DueOnly(rest, now), e.id);
      }
    }
  }

  lemma {:induction false} QueueTail(due: seq<Entry>, id: Id)
    requires |due| > 0 && due[0].id == id && Distinct(due)
    ensures Without(due, id) == due[1..]
  {
    WithoutAbsent(due[1..], id);
  }

  lemma {:induction false} DueDistinct(entries: seq<Entry>, now: Time)
    requires Distinct(entries)
    ensures Distinct(DueOnly(entries, now))
  {
    if |entries| > 0 {
      DueDistinct(entries[1..], now);
      DueOnlyMembers(entries[1..], now);
      forall x | x in entries[1..] ensures x.id != entries[0].id {
        var j :| 0 <= j < |entries[1..]| && entries[1..][j] == x;
        assert entries[j + 1] == x;
      }
    }
  }

  lemma {:induction false} InsertDistinct(e: Entry, sorted: seq<Entry>)
    requires Distinct(sorted) && forall x :: x in sorted ==> x.id != e.id
    ensures Distinct(Insert(e, sorted))
  {
    if |sorted| > 0 && sorted[0].createdAt < e.createdAt {
      InsertDistinct(e, sorted[1..]);
      InsertMembers(e, sorted[1..]);
      forall x | x in sorted[1..] ensures x.id != sorted[0].id {
        var j :| 0 <= j < |sorted[1..]| && sorted[1..][j] == x;
        assert sorted[j + 1] == x;
      }
    }
  }

  lemma {:induction false} ByDateDistinct(entries: seq<Entry>)
    requires Distinct(entries)
    ensures Distinct(ByDate(entries))
  {
    if |entries| > 0 {
      ByDateDistinct(entries[1..]);
      ByDateMembers(entries[1..]);
      forall x | x in entries[1..] ensures x.id != entries[0].id {
        var j :| 0 <= j < |entries[1..]| && entries[1..][j] == x;
        assert entries[j + 1] == x;
      }
      InsertDistinct(entries[0], ByDate(entries[1..]));
    }
  }

  /** Removing the head of the due queue, or rescheduling or failing it, leaves
      exactly the rest of the queue due. */
  lemma {:induction false} HandledOnce(entries: seq<Entry>, e: Entry, now: Time)
    requires Distinct(entries)
    requires var due := DueQueue(entries, now); due != [] && due[0].id == e.id
    ensures DueQueue(Without(entries, e.id), now) == DueQueue(entries, now)[1..]
    ensures !IsDue(e, now) ==> DueQueue(Put(entries, e), now) == DueQueue(entries, now)[1..]
  {
    var due := DueOnly(entries, now);
    DueDistinct(entries, now);
    ByDateDistinct(due);
    QueueTail(ByDate(due), e.id);
    ByDateWithout(due, e.id);
    DueWithout(entries, e.id, now);
    if !IsDue(e, now) {
      DuePut(entries, e, now);
    }
  }

  /** Marking the head as uploading does not change what is due next. */
  lemma {:induction false} PutTwice(entries: seq<Entry>, a: Entry, b: Entry)
    requires a.id == b.id
    ensures Put(Put(entries, a), b) == Put(entries, b)
    ensures Without(Put(entries, a), b.id) == Without(entries, b.id)
  {
    if |entries| == 0 {
      assert Put(entries, a) == [a];
      WithoutCons(a, [], b.id);
    } else {
      var x, rest := entries[0], entries[1..];
      assert entries == [x] + rest;
      PutCons(x, rest, a);
      PutCons(x, rest, b);
      if x.id == a.id {
        PutCons(a, rest, b);
        WithoutCons(a, rest, b.id);
      } else {
        PutTwice(rest, a, b);
        PutCons(x, Put(rest, a), b);
        WithoutCons(x, Put(rest, a), b.id);
      }
    }
  }

  // -------------------------------------------------------------- persistence

  /** Dates are stored as ISO 8601 with whole seconds. */
  function WholeSeconds(t: Time): (r: Time)
    ensures r <= t < r + 1000 && r % 1000 == 0
  {
    t - t % 1000
  }

  function WholeSecondsOpt(t: Option<Time>): Option<Time> {
    if t.Some? then Some(WholeSeconds(t.value)) else None
  }

  /** What an entry becomes when it is written out and read back. */
  function Stored(e: Entry): Entry {
    var p := e.precondition;
    e.(createdAt := WholeSeconds(e.createdAt),
       nextRetryAt := WholeSecondsOpt(e.nextRetryAt),
       precondition := p.(modifiedAt := WholeSecondsOpt(p.modifiedAt)))
  }

  function StoredAll(entries: seq<Entry>): (r: seq<Entry>)
    ensures |r| == |entries|
    ensures forall i :: 0 <= i < |r| ==> r[i] == Stored(entries[i])
  {
    seq(|entries|, i requires 0 <= i < |entries| => Stored(entries[i]))
  }

  lemma {:induction false} StoredIds(entries: seq<Entry>)
    ensures Ids(StoredAll(entries)) == Ids(entries)
    ensures forall x :: x in StoredAll(entries) ==> exists y :: y in entries && x == Stored(y)
  {
    var r := StoredAll(entries);
    forall x | x in entries ensures x.id in Ids(r) {
      var i :| 0 <= i < |entries| && entries[i] == x;
      assert r[i] in r;
    }
    forall x | x in r ensures exists y :: y in entries && x == Stored(y) {
      var i :| 0 <= i < |r| && r[i] == x;
      assert entries[i] in entries;
    }
  }

  /** A date as the file holds it: the whole second at or below. */
  ghost predicate CutTo(x: Time, t: Time) {
    x <= t < x + 1000 && x % 1000 == 0
  }

  ghost predicate CutToOpt(x: Option<Time>, t: Option<Time>) {
    (x.Some? <==> t.Some?) && (x.Some? ==> CutTo(x.value, t.value))
  }

  /** `x` is `e` but for the fractions of a second in its three dates: with the
      dates put back it is `e`, its state, reason and conflict path included. */
  ghost predicate SameButFractions(x: Entry, e: Entry) {
    && CutTo(x.createdAt, e.createdAt) && CutToOpt(x.nextRetryAt, e.nextRetryAt)
    && CutToOpt(x.precondition.modifiedAt, e.precondition.modifiedAt)
    && e == x.(createdAt := e.createdAt, nextRetryAt := e.nextRetryAt,
               precondition := x.precondition.(modifiedAt := e.precondition.modifiedAt))
  }

  /** `disk` brings back the whole queue, entry by entry. */
  ghost predicate Survives(disk: seq<Entry>, entries: seq<Entry>) {
    |disk| == |entries| && forall i :: 0 <= i < |entries| ==> SameButFractions(disk[i], entries[i])
  }

  lemma {:induction false} StoredSurvives(entries: seq<Entry>)
    ensures Survives(StoredAll(entries), entries)
  {
    forall i | 0 <= i < |entries| ensures SameButFractions(StoredAll(entries)[i], entries[i]) {
      StoredKeeps(entries[i]);
    }
  }

  lemma {:induction false} StoredKeeps(e: Entry)
    ensures SameButFractions(Stored(e), e)
  {
  }

  /** Storing once more changes nothing. */
  lemma {:induction false} CutOnce(z: Entry, y: Entry, x: Entry)
    requires SameButFractions(z, y) && (y == x || SameButFractions(y, x))
    ensures SameButFractions(z, x) && (SameButFractions(y, x) ==> z == y)
  {
  }

  /** The outbox actor. `disk` is what a relaunch would load: the queue at the
      last save that succeeded, with its dates cut to whole seconds. A save may
      fail (`saves` is false) after the queue in memory has changed. */
  class MobileOutbox {
    var entries: seq<Entry>
    var disk: seq<Entry>

    constructor ()
      ensures entries == [] && disk == []
    {
      entries, disk := [], [];
    }

    /** A relaunch over the same directory. */
    method Reload()
      modifies this
      ensures entries == old(disk) && disk == old(disk)
    {
      entries := disk;
    }

    method Persist(saves: bool)
      modifies this`disk
      ensures disk == if saves then StoredAll(entries) else old(disk)
      ensures saves ==> Survives(disk, entries)
    {
      if saves {
        StoredSurvives(entries);
        disk := StoredAll(entries);
      }
    }

    method Enqueue(e: Entry, saves: bool)
      modifies this
      ensures entries == old(entries) + [e]
      ensures disk == if saves then StoredAll(entries) else old(disk)
      ensures saves ==> Survives(disk, entries)
    {
      entries := entries + [e];
      Persist(saves);
    }

    method Update(e: Entry, saves: bool)
      modifies this
      ensures entries == Put(old(entries), e)
      ensures disk == if saves then StoredAll(entries) else old(disk)
      ensures saves ==> Survives(disk, entries)
    {
      var index := IndexOf(entries, e.id);
      if index < |entries| {
        entries := entries[index := e];
      } else {
        entries := entries + [e];
      }
      Persist(saves);
    }

    method Remove(id: Id, saves: bool)
      modifies this
      ensures entries == Without(old(entries), id)
      ensures disk == if saves then StoredAll(entries) else old(disk)
      ensures saves ==> Survives(disk, entries)
    {
      entries := Without(entries, id);
      Persist(saves);
    }

    method RemoveAll(saves: bool)
      modifies this
      ensures entries == [] && disk == if saves then [] else old(disk)
    {
      entries := [];
      Persist(saves);
    }
  }
}
