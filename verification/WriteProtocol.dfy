/** The write queue as a system of atomic steps: what the user, the drain, the
    remote side, the clock and a crash can do between two suspension points.
    A step that is not enabled changes nothing, so every sequence of steps is a
    run and every interleaving is among them. */
module WriteProtocol {
  import opened Text
  import opened Outbox
  import opened WriteAdapters

  /** Where the single drain is. `Picked` holds a copy of an outbox entry,
      `Marking` to `Dropping` hold the working copy. */
  datatype Drain =
    | Idle
    | Looking(now: Time)
    | Picked(entry: Entry)
    | Marking(work: Entry, adapter: Adapter)
    | Applying(work: Entry, adapter: Adapter)
    | Storing(work: Entry)
    | Dropping(work: Entry)

  /** What happened so far; no step reads it. `acked` are the ids whose enqueue
      returned without an error, `removed` those that the user removed or
      cleared, `applied` those with an apply that reported success. */
  datatype History = History(enqueued: map<Id, Entry>, acked: set<Id>, removed: set<Id>,
                             applied: set<Id>, log: seq<Write>)

  datatype State = State(
    entries: seq<Entry>, disk: seq<Entry>, files: Files, mode: Option<Adapter>,
    drain: Drain, retries: seq<Entry>, clock: Time, hist: History)

  const INITIAL := State([], [], map[], None, Idle, [], 0, History(map[], {}, {}, {}, []))

  datatype Step =
    | Enqueue(entry: Entry, saves: bool)
    | RetryRead(id: Id)
    | RetryWrite(call: nat, saves: bool)
    | Remove(id: Id, saves: bool)
    | Clear(saves: bool)
    | SetMode(mode: Option<Adapter>)
    | RemoteEdit(key: Key, file: Option<File>)
    | Tick(elapsed: nat)
    | Crash
    | DrainBegin
    | Pick
    | Adopt
    | Mark(saves: bool)
    | Transfer(net: Net)
    | Settle(saves: bool)

  // ------------------------------------------------------------------ backoff

  const BACKOFF_BASE := 2000
  const BACKOFF_CAP := 900000

  function Pow2(n: nat): (r: nat)
    ensures r >= 1
  {
    if n == 0 then 1 else 2 * Pow2(n - 1)
  }

  function Backoff(attempts: nat): Time {
    var delay := BACKOFF_BASE * Pow2(if attempts == 0 then 0 else attempts - 1);
    if delay < BACKOFF_CAP then delay else BACKOFF_CAP
  }

  lemma {:induction false} Pow2Monotone(m: nat, n: nat)
    requires m <= n
    ensures Pow2(m) <= Pow2(n)
  {
    if m < n {
      Pow2Monotone(m, n - 1);
    }
  }

  /** The delays double from two seconds on, up to a quarter of an hour, which
      the tenth attempt reaches. */
  lemma {:induction false} BackoffShape(m: nat, n: nat)
    requires 1 <= m <= n
    ensures Backoff(1) == 2000 <= Backoff(m) <= Backoff(n) <= 900000
    ensures Backoff(n) == 900000 <==> n >= 10
    ensures Backoff(n + 1) == if 2 * Backoff(n) < 900000 then 2 * Backoff(n) else 900000
  {
    Pow2Monotone(m - 1, n - 1);
    assert Pow2(9) == 2 * (2 * (2 * (2 * (2 * (2 * (2 * (2 * (2 * 1)))))))) by {
      assert Pow2(5) == 32;
    }
    if n >= 10 {
      Pow2Monotone(9, n - 1);
    } else {
      Pow2Monotone(n - 1, 8);
      assert Pow2(9) == 2 * Pow2(8);
    }
  }

  // -------------------------------------------------------------------- steps

  function Saved(s: State, saves: bool): State {
    if saves then s.(disk := StoredAll(s.entries)) else s
  }

  function Requeued(work: Entry, error: WriteError, now: Time): Entry {
    work.(state := Queued, attempts := work.attempts + 1, lastError := Some(error),
          nextRetryAt := Some(now + Backoff(work.attempts + 1)))
  }

  /** The bookkeeping of a failed apply: no connection and foreign errors are
      retried later, everything else fails visibly. */
  function Rescheduled(work: Entry, error: WriteError, now: Time): Entry {
    match error
    case Faulted(Unreachable) => Requeued(work, error, now)
    case Faulted(Foreign) => Requeued(work, error, now)
    case Conflict(preservedAt) =>
      work.(state := Failed, lastError := Some(error), conflictPath := Some(preservedAt))
    case Faulted(_) => work.(state := Failed, lastError := Some(error))
  }

  function Retried(e: Entry): Entry {
    e.(state := Queued, nextRetryAt := None, lastError := None, conflictPath := None)
  }

  function Transferred(s: State, work: Entry, r: Applied): State {
    var h := s.hist.(log := s.hist.log + r.writes,
                     applied := s.hist.applied + if r.error == None then {work.id} else {});
    s.(files := r.files, hist := h,
       drain := if r.error == None then Dropping(work) else Storing(Rescheduled(work, r.error.value, s.clock)))
  }

  function Do(s: State, step: Step): State {
    match step
    case Enqueue(e, saves) =>
      if !IsNew(e) || e.id in s.hist.enqueued then s
      else
        var h := s.hist.(enqueued := s.hist.enqueued[e.id := e],
                         acked := s.hist.acked + if saves then {e.id} else {});
        Saved(s.(entries := s.entries + [e], hist := h), saves)
    case RetryRead(id) =>
      var i := IndexOf(s.entries, id);
      if i == |s.entries| || s.entries[i].state != Failed then s
      else s.(retries := s.retries + [Retried(s.entries[i])])
    case RetryWrite(call, saves) =>
      if call >= |s.retries| then s
      else
        var rest := s.retries[..call] + s.retries[call + 1..];
        Saved(s.(entries := Put(s.entries, s.retries[call]), retries := rest), saves)
    case Remove(id, saves) =>
      Saved(s.(entries := Without(s.entries, id), hist := s.hist.(removed := s.hist.removed + {id})), saves)
    case Clear(saves) =>
      Saved(s.(entries := [], hist := s.hist.(removed := s.hist.removed + s.hist.enqueued.Keys)), saves)
    case SetMode(mode) => s.(mode := mode)
    case RemoteEdit(key, file) =>
      s.(files := if file.Some? then s.files[key := file.value] else s.files - {key})
    case Tick(elapsed) => s.(clock := s.clock + elapsed)
    case Crash => s.(entries := s.disk, mode := None, drain := Idle, retries := [])
    case DrainBegin => if s.drain.Idle? then s.(drain := Looking(s.clock)) else s
    case Pick =>
      if !s.drain.Looking? then s
      else
        var next := NextDue(s.entries, s.drain.now);
        s.(drain := if next.Some? then Picked(next.value) else Idle)
    case Adopt =>
      if !s.drain.Picked? then s
      else if s.mode.None? then s.(drain := Idle)
      else s.(drain := Marking(s.drain.entry.(state := Uploading), s.mode.value))
    case Mark(saves) =>
      if !s.drain.Marking? then s
      else Saved(s.(entries := Put(s.entries, s.drain.work), drain := Applying(s.drain.work, s.drain.adapter)), saves)
    case Transfer(net) =>
      if !s.drain.Applying? then s
      else Transferred(s, s.drain.work, Apply(s.drain.adapter, s.drain.work, s.files, net, s.clock))
    case Settle(saves) =>
      if s.drain.Storing? then
        Saved(s.(entries := Put(s.entries, s.drain.work), drain := Looking(s.clock)), saves)
      else if s.drain.Dropping? then
        Saved(s.(entries := Without(s.entries, s.drain.work.id), drain := Looking(s.clock)), saves)
      else s
  }

  function Run(s: State, steps: seq<Step>): State {
    if |steps| == 0 then s else Do(Run(s, steps[..|steps| - 1]), steps[|steps| - 1])
  }

  /** The world outside may put any file anywhere or take it away, at any time, and in
      either connection mode; it does nothing else. */
  lemma {:induction false} OutsideSteps(s: State, key: Key, file: Option<File>, mode: Option<Adapter>, elapsed: nat)
    ensures var t := Do(s, RemoteEdit(key, file));
      t == s.(files := t.files) && Lookup(t.files, key) == file
      && forall other :: other != key ==> Lookup(t.files, other) == Lookup(s.files, other)
    ensures Do(s, SetMode(mode)) == s.(mode := mode) && Do(s, Tick(elapsed)) == s.(clock := s.clock + elapsed)
  {
  }

  lemma {:induction false} RunConcat(s: State, a: seq<Step>, b: seq<Step>)
    ensures Run(s, a + b) == Run(Run(s, a), b)
  {
    if |b| == 0 {
      assert a + b == a;
    } else {
      assert (a + b)[..|a + b| - 1] == a + b[..|b| - 1];
      RunConcat(s, a, b[..|b| - 1]);
    }
  }

  // --------------------------------------------------------------- invariants

  /** `x` is the write that was enqueued as `e`, apart from its progress. Dates
      may have lost their fraction of a second in a relaunch. */
  ghost predicate SameWrite(x: Entry, e: Entry) {
    && x.id == e.id && x.kind == e.kind && x.path == e.path
    && x.content == e.content && x.data == e.data && x.filename == e.filename && x.folder == e.folder
    && x.precondition.etag == e.precondition.etag && x.precondition.size == e.precondition.size
    && (x.precondition.modifiedAt == e.precondition.modifiedAt
        || x.precondition.modifiedAt == WholeSecondsOpt(e.precondition.modifiedAt))
  }

  ghost predicate Genuine(x: Entry, h: History) {
    x.id in h.enqueued && SameWrite(x, h.enqueued[x.id])
  }

  ghost predicate AllGenuine(entries: seq<Entry>, h: History) {
    forall x :: x in entries ==> Genuine(x, h)
  }

  /** The entry whose copy the drain holds. */
  function Held(d: Drain): Option<Entry> {
    match d
    case Idle => None
    case Looking(_) => None
    case Picked(e) => Some(e)
    case Marking(w, _) => Some(w)
    case Applying(w, _) => Some(w)
    case Storing(w) => Some(w)
    case Dropping(w) => Some(w)
  }

  ghost predicate Kept(entries: seq<Entry>, h: History) {
    forall id :: id in h.acked ==> id in Ids(entries) || id in h.applied || id in h.removed
  }

  /** An applied id stands for a write that reached a backend with the content
      that was enqueued. */
  ghost predicate Delivered(h: History, id: Id) {
    exists w :: w in h.log && w.role != Sibling && w.entry.id == id && id in h.enqueued
      && Some(w.content) == (if h.enqueued[id].kind == UploadOriginal then h.enqueued[id].data
                             else h.enqueued[id].content)
  }

  ghost predicate Inv(s: State) {
    && Distinct(s.entries) && Distinct(s.disk)
    && AllGenuine(s.entries, s.hist) && AllGenuine(s.disk, s.hist) && AllGenuine(s.retries, s.hist)
    && (Held(s.drain).Some? ==>
          && Genuine(Held(s.drain).value, s.hist)
          && forall x :: x in s.entries && x.id == Held(s.drain).value.id ==> x.state != Failed)
    && (s.drain.Marking? || s.drain.Applying? ==> s.drain.work.state == Uploading)
    && (s.drain.Dropping? ==> s.drain.work.id in s.hist.applied)
    && (forall x :: x in s.retries ==> x.state == Queued)
    && s.hist.acked <= s.hist.enqueued.Keys
    && Kept(s.entries, s.hist) && Kept(s.disk, s.hist)
    && (forall w :: w in s.hist.log ==> Guarded(w) && Genuine(w.entry, s.hist))
    && (forall id :: id in s.hist.applied ==> Delivered(s.hist, id))
  }

  lemma {:induction false} StoredGenuine(x: Entry, h: History)
    requires Genuine(x, h)
    ensures Genuine(Stored(x), h)
  {
  }

  lemma {:induction false} SavedInv(s: State, saves: bool)
    requires Inv(s)
    ensures Inv(Saved(s, saves))
  {
    var r := StoredAll(s.entries);
    StoredIds(s.entries);
    forall x | x in r ensures Genuine(x, s.hist) {
      var y :| y in s.entries && x == Stored(y);
      StoredGenuine(y, s.hist);
    }
    assert forall i :: 0 <= i < |r| ==> r[i].id == s.entries[i].id;
  }

  /** Knowing one more entry keeps what was known of the others. */
  lemma {:induction false} MoreEnqueued(h: History, more: History, e: Entry)
    requires e.id !in h.enqueued && more == h.(enqueued := h.enqueued[e.id := e])
    ensures forall x :: Genuine(x, h) ==> Genuine(x, more)
    ensures forall id :: Delivered(h, id) ==> Delivered(more, id)
  {
    forall id | Delivered(h, id) ensures Delivered(more, id) {
      var w :| w in h.log && w.role != Sibling && w.entry.id == id && id in h.enqueued
        && Some(w.content) == (if h.enqueued[id].kind == UploadOriginal then h.enqueued[id].data
                               else h.enqueued[id].content);
      assert more.enqueued[id] == h.enqueued[id];
    }
  }

  lemma {:induction false} AppendDistinct(entries: seq<Entry>, e: Entry)
    requires Distinct(entries) && forall x :: x in entries ==> x.id != e.id
    ensures Distinct(entries + [e])
  {
    assert forall i :: 0 <= i < |entries| ==> entries[i] in entries;
  }

  lemma {:induction false} AppendInv(s: State, e: Entry, h: History)
    requires Inv(s) && IsNew(e) && e.id !in s.hist.enqueued
    requires h == s.hist.(enqueued := s.hist.enqueued[e.id := e])
    ensures Inv(s.(entries := s.entries + [e], hist := h))
  {
    MoreEnqueued(s.hist, h, e);
    AppendDistinct(s.entries, e);
    assert Ids(s.entries) <= Ids(s.entries + [e]);
    assert Genuine(e, h);
  }

  lemma {:induction false} EnqueueInv(s: State, e: Entry, saves: bool)
    requires Inv(s)
    ensures Inv(Do(s, Enqueue(e, saves)))
  {
    if IsNew(e) && e.id !in s.hist.enqueued {
      var h := s.hist.(enqueued := s.hist.enqueued[e.id := e]);
      var t := s.(entries := s.entries + [e], hist := h);
      AppendInv(s, e, h);
      SavedInv(t, saves);
      assert e in t.entries;
      if saves {
        AckedInv(Saved(t, true), e.id);
      }
    }
  }

  lemma {:induction false} AckedInv(s: State, id: Id)
    requires Inv(s) && id in s.hist.enqueued && id in Ids(s.entries) && s.disk == StoredAll(s.entries)
    ensures Inv(s.(hist := s.hist.(acked := s.hist.acked + {id})))
  {
    var h := s.hist.(acked := s.hist.acked + {id});
    StoredIds(s.entries);
    assert forall x :: Genuine(x, h) <==> Genuine(x, s.hist);
    assert forall i :: Delivered(h, i) <==> Delivered(s.hist, i);
  }

  lemma {:induction false} PutInv(s: State, x: Entry, d: Drain, retries: seq<Entry>, saves: bool)
    requires Inv(s) && Genuine(x, s.hist)
    requires forall y :: y in retries ==> y in s.retries
    requires Held(d).Some? ==>
      && Genuine(Held(d).value, s.hist)
      && (x.id == Held(d).value.id ==> x.state != Failed)
      && (forall y :: y in s.entries && y.id == Held(d).value.id && y.id != x.id ==> y.state != Failed)
    requires d.Dropping? ==> d == s.drain
    requires d.Marking? || d.Applying? ==> d.work.state == Uploading
    ensures Inv(Saved(s.(entries := Put(s.entries, x), drain := d, retries := retries), saves))
  {
    var t := s.(entries := Put(s.entries, x), drain := d, retries := retries);
    PutDistinct(s.entries, x);
    PutIds(s.entries, x);
    forall y | y in t.entries && Held(d).Some? && y.id == Held(d).value.id ensures y.state != Failed {
      if y != x && x.id == Held(d).value.id {
        SameId(t.entries, x, y);
      }
    }
    SavedInv(t, saves);
  }

  lemma {:induction false} RemovalInv(s: State, id: Id, d: Drain, h: History, saves: bool)
    requires Inv(s) && h == s.hist.(removed := h.removed) && h.removed >= s.hist.removed
    requires id in h.removed || id in h.applied
    requires d == s.drain || Held(d).None?
    ensures Inv(Saved(s.(entries := Without(s.entries, id), drain := d, hist := h), saves))
  {
    var t := s.(entries := Without(s.entries, id), drain := d, hist := h);
    WithoutDistinct(s.entries, id);
    WithoutIds(s.entries, id);
    assert forall x :: Genuine(x, h) <==> Genuine(x, s.hist);
    assert forall i :: Delivered(h, i) <==> Delivered(s.hist, i);
    SavedInv(t, saves);
  }

  lemma {:induction false} ClearInv(s: State, saves: bool)
    requires Inv(s)
    ensures Inv(Do(s, Clear(saves)))
  {
    var h := s.hist.(removed := s.hist.removed + s.hist.enqueued.Keys);
    assert forall x :: Genuine(x, h) <==> Genuine(x, s.hist);
    assert forall i :: Delivered(h, i) <==> Delivered(s.hist, i);
    SavedInv(s.(entries := [], hist := h), saves);
  }

  /** More writes keep what was known of the history. */
  lemma {:induction false} MoreWritten(h: History, more: History, writes: seq<Write>)
    requires more == h.(log := h.log + writes, applied := more.applied)
    ensures forall x :: Genuine(x, h) <==> Genuine(x, more)
    ensures forall id :: Delivered(h, id) ==> Delivered(more, id)
    ensures forall w :: w in more.log <==> w in h.log || w in writes
  {
    forall id | Delivered(h, id) ensures Delivered(more, id) {
      var w :| w in h.log && w.role != Sibling && w.entry.id == id && id in h.enqueued
        && Some(w.content) == (if h.enqueued[id].kind == UploadOriginal then h.enqueued[id].data
                               else h.enqueued[id].content);
      assert w in more.log;
    }
  }

  lemma {:induction false} NowDelivered(h: History, work: Entry, w: Write)
    requires w in h.log && w.role != Sibling && w.entry == work && Genuine(work, h)
    requires Some(w.content) == if work.kind == UploadOriginal then work.data else work.content
    ensures Delivered(h, work.id)
  {
  }

  lemma {:induction false} TransferredInv(s: State, r: Applied)
    requires Inv(s) && s.drain.Applying? && Accounts(r, s.drain.work, s.files, s.clock)
    requires forall w :: w in r.writes ==> Guarded(w)
    requires r.error == None ==> |r.writes| == 1 && r.writes[0].role != Sibling
    ensures Inv(Transferred(s, s.drain.work, r))
  {
    var h := Transferred(s, s.drain.work, r).hist;
    MoreWritten(s.hist, h, r.writes);
    if r.error == None {
      assert r.writes[0] in r.writes;
      NowDelivered(h, s.drain.work, r.writes[0]);
    }
  }

  lemma {:induction false} TransferIs(s: State, net: Net, r: Applied)
    requires s.drain.Applying? && r == Apply(s.drain.adapter, s.drain.work, s.files, net, s.clock)
    ensures Do(s, Transfer(net)) == Transferred(s, s.drain.work, r)
  {
  }

  lemma {:induction false} TransferInv(s: State, net: Net)
    requires Inv(s) && s.drain.Applying?
    ensures Inv(Do(s, Transfer(net)))
  {
    var a, work := s.drain.adapter, s.drain.work;
    var r := Apply(a, work, s.files, net, s.clock);
    ApplyGuarded(a, work, s.files, net, s.clock);
    ApplyAccounts(a, work, s.files, net, s.clock);
    if r.error == None {
      SuccessDelivers(a, work, s.files, net, s.clock);
    }
    TransferIs(s, net, r);
    TransferredInv(s, r);
  }

  lemma {:induction false} PickInv(s: State)
    requires Inv(s)
    ensures Inv(Do(s, Pick))
  {
    if s.drain.Looking? {
      NextDueIsDue(s.entries, s.drain.now);
      var next := NextDue(s.entries, s.drain.now);
      if next.Some? {
        forall x | x in s.entries && x.id == next.value.id ensures x.state != Failed {
          SameId(s.entries, x, next.value);
        }
      }
    }
  }

  lemma {:induction false} RetryReadInv(s: State, id: Id)
    requires Inv(s)
    ensures Inv(Do(s, RetryRead(id)))
  {
    var i := IndexOf(s.entries, id);
    if i < |s.entries| {
      assert s.entries[i] in s.entries;
    }
  }

  lemma {:induction false} DrainInv(s: State, step: Step)
    requires Inv(s) && (step.Pick? || step.Adopt? || step.Mark? || step.Transfer? || step.Settle?)
    ensures Inv(Do(s, step))
  {
    match step
    case Pick => PickInv(s);
    case Adopt =>
    case Mark(saves) =>
      if s.drain.Marking? {
        PutInv(s, s.drain.work, Applying(s.drain.work, s.drain.adapter), s.retries, saves);
      }
    case Transfer(net) =>
      if s.drain.Applying? {
        TransferInv(s, net);
      }
    case Settle(saves) =>
      if s.drain.Storing? {
        PutInv(s, s.drain.work, Looking(s.clock), s.retries, saves);
      } else if s.drain.Dropping? {
        RemovalInv(s, s.drain.work.id, Looking(s.clock), s.hist, saves);
      }
  }

  lemma {:induction false} StepInv(s: State, step: Step)
    requires Inv(s)
    ensures Inv(Do(s, step))
  {
    match step
    case Enqueue(e, saves) => EnqueueInv(s, e, saves);
    case RetryRead(id) => RetryReadInv(s, id);
    case RetryWrite(call, saves) =>
      if call < |s.retries| {
        assert s.retries[call] in s.retries;
        PutInv(s, s.retries[call], s.drain, s.retries[..call] + s.retries[call + 1..], saves);
      }
    case Remove(id, saves) =>
      RemovalInv(s, id, s.drain, s.hist.(removed := s.hist.removed + {id}), saves);
    case Clear(saves) => ClearInv(s, saves);
    case SetMode(_) =>
    case RemoteEdit(_, _) =>
    case Tick(_) =>
    case Crash =>
    case DrainBegin =>
    case _ => DrainInv(s, step);
  }

  lemma {:induction false} RunInv(s: State, steps: seq<Step>)
    requires Inv(s)
    ensures Inv(Run(s, steps))
  {
    if |steps| > 0 {
      RunInv(s, steps[..|steps| - 1]);
      StepInv(Run(s, steps[..|steps| - 1]), steps[|steps| - 1]);
    }
  }

  // ------------------------------------------------------------ safety of runs

  /** What a note write of the run may have replaced, in terms of the entry as
      the user queued it. The server holds exactly the content whose hash was
      queued; the folder holds a file of the queued size and date, up to the
      fraction of a second that a relaunch drops. */
  ghost predicate ReplacedAsSeen(w: Write, e: Entry)
    requires w.before.Some?
  {
    if e.kind == UpdateNote then
      if w.adapter.Server? then e.precondition.etag == Some(Sha256(w.before.value.content))
      else
        && e.precondition.size == Some(|w.before.value.content|)
        && e.precondition.modifiedAt.Some?
        && w.before.value.modifiedAt in {e.precondition.modifiedAt.value, WholeSeconds(e.precondition.modifiedAt.value)}
    else e.kind == CreateNote && w.adapter.Folder? && !w.seen
  }

  /** In every interleaving a note write replaces an existing file only if that
      file is the one the user's edit was made against. */
  lemma {:induction false} NoBlindOverwrite(steps: seq<Step>, w: Write)
    requires w in Run(INITIAL, steps).hist.log && w.role == Target && w.before.Some?
    ensures w.entry.id in Run(INITIAL, steps).hist.enqueued
    ensures ReplacedAsSeen(w, Run(INITIAL, steps).hist.enqueued[w.entry.id])
  {
    RunInv(INITIAL, steps);
    assert Guarded(w) && Genuine(w.entry, Run(INITIAL, steps).hist);
  }

  /** An update that was captured in one mode and drained in the other replaces
      nothing; drained in its own mode it replaces what the phone saw. */
  lemma {:induction false} NoCrossModeOverwrite(steps: seq<Step>, w: Write, origin: Origin)
    requires w in Run(INITIAL, steps).hist.log && w.role == Target && w.before.Some?
    requires w.entry.id in Run(INITIAL, steps).hist.enqueued
    requires var e := Run(INITIAL, steps).hist.enqueued[w.entry.id];
      e.kind == UpdateNote && e.precondition == Capture(origin)
    ensures w.adapter.Server? ==> origin == FromServer(w.before.value.content)
    ensures w.adapter.Folder? ==> origin.FromFolder? && origin.stat.Some?
  {
    NoBlindOverwrite(steps, w);
  }

  /** Conservation: an entry whose enqueue was acknowledged is still queued with
      what it writes, or a write with its content was delivered, or the user
      removed it. The same holds of the stored queue, hence after a crash. */
  lemma {:induction false} NothingLost(steps: seq<Step>, id: Id)
    requires id in Run(INITIAL, steps).hist.acked
    ensures var s := Run(INITIAL, steps);
      && id in s.hist.enqueued
      && (forall queue :: queue in [s.entries, s.disk, Do(s, Crash).entries] ==>
            || (exists x :: x in queue && x.id == id && SameWrite(x, s.hist.enqueued[id]))
            || Delivered(s.hist, id)
            || id in s.hist.removed)
  {
    RunInv(INITIAL, steps);
    var s := Run(INITIAL, steps);
    forall queue | queue in [s.entries, s.disk, Do(s, Crash).entries] && !Delivered(s.hist, id) && id !in s.hist.removed
      ensures exists x :: x in queue && x.id == id && SameWrite(x, s.hist.enqueued[id])
    {
      assert queue == s.entries || queue == s.disk;
      assert id in Ids(queue);
      var x :| x in queue && x.id == id;
      assert Genuine(x, s.hist);
    }
  }

  // --------------------------------------------------- failed entries stay put

  /** The steps by which the user or a crash touches the entry `id`. */
  predicate Touches(step: Step, id: Id) {
    step == RetryRead(id) || (step.Remove? && step.id == id) || step.Clear? || step.Crash?
  }

  ghost predicate FailedWith(s: State, x: Entry) {
    Inv(s) && x in s.entries && x.state == Failed && forall y :: y in s.retries ==> y.id != x.id
  }

  lemma {:induction false} FailedStays(s: State, step: Step, x: Entry)
    requires FailedWith(s, x) && !Touches(step, x.id)
    ensures x in Do(s, step).entries
  {
    if step.Mark? && s.drain.Marking? {
      PutKeeps(s.entries, s.drain.work, x);
    } else if step.Settle? && s.drain.Storing? {
      PutKeeps(s.entries, s.drain.work, x);
    } else if step.RetryWrite? && step.call < |s.retries| {
      assert s.retries[step.call] in s.retries;
      PutKeeps(s.entries, s.retries[step.call], x);
    }
  }

  lemma {:induction false} NoRetryStep(s: State, step: Step, id: Id)
    requires (forall y :: y in s.retries ==> y.id != id) && !Touches(step, id)
    ensures forall y :: y in Do(s, step).retries ==> y.id != id
  {
  }

  lemma {:induction false} FailedStep(s: State, step: Step, x: Entry)
    requires FailedWith(s, x) && !Touches(step, x.id)
    ensures FailedWith(Do(s, step), x)
  {
    StepInv(s, step);
    FailedStays(s, step, x);
    NoRetryStep(s, step, x.id);
  }

  lemma {:induction false} PutKeeps(entries: seq<Entry>, e: Entry, x: Entry)
    requires x in entries && x.id != e.id
    ensures x in Put(entries, e)
  {
    var i :| 0 <= i < |entries| && entries[i] == x;
    assert Put(entries, e)[i] == x;
  }

  /** A failed entry, with its reason and its conflict path, stays exactly as it
      is until the user retries or removes it or clears the queue. */
  lemma {:induction false} FailedUntilTouched(s: State, steps: seq<Step>, x: Entry)
    requires FailedWith(s, x)
    requires forall i :: 0 <= i < |steps| ==> !Touches(steps[i], x.id)
    ensures x in Run(s, steps).entries && FailedWith(Run(s, steps), x)
  {
    if |steps| > 0 {
      FailedUntilTouched(s, steps[..|steps| - 1], x);
      FailedStep(Run(s, steps[..|steps| - 1]), steps[|steps| - 1], x);
    }
  }

  /** A retry of a failed entry queues it again in its place, due at once, with
      reason and conflict path cleared and everything else kept, the count of its
      attempts included; any other entry is left alone. */
  lemma {:induction false} RetryQueues(s: State, x: Entry, saves: bool)
    requires Inv(s) && x in s.entries && s.retries == []
    ensures var t := Do(Do(s, RetryRead(x.id)), RetryWrite(0, saves));
      && |t.entries| == |s.entries| && t.retries == []
      && forall i :: 0 <= i < |s.entries| ==>
           var e := s.entries[i];
           if e != x || x.state != Failed then t.entries[i] == e
           else
             && SameWrite(t.entries[i], x) && t.entries[i].state == Queued && IsDue(t.entries[i], s.clock)
             && t.entries[i].nextRetryAt == None && t.entries[i].lastError == None
             && t.entries[i].conflictPath == None && t.entries[i].attempts == x.attempts
             && t.entries[i].createdAt == x.createdAt
  {
    var i := IndexOf(s.entries, x.id);
    var k :| 0 <= k < |s.entries| && s.entries[k] == x;
    assert i == k;
    RetryState(s, x, i, saves);
  }

  lemma {:induction false} RetryState(s: State, x: Entry, i: nat, saves: bool)
    requires i == IndexOf(s.entries, x.id) && i < |s.entries| && s.entries[i] == x && s.retries == []
    ensures Do(Do(s, RetryRead(x.id)), RetryWrite(0, saves))
      == if x.state == Failed then Saved(s.(entries := s.entries[i := Retried(x)]), saves) else s
  {
    if x.state == Failed {
      var t := Do(s, RetryRead(x.id));
      assert t == s.(retries := [Retried(x)]);
      assert [Retried(x)][..0] + [Retried(x)][1..] == [];
    }
  }

  lemma {:induction false} FailureStored(s: State, net: Net, saves: bool)
    requires Inv(s) && s.drain.Applying?
    requires Apply(s.drain.adapter, s.drain.work, s.files, net, s.clock).error.Some?
    ensures var r := Apply(s.drain.adapter, s.drain.work, s.files, net, s.clock);
      var t := Do(Do(s, Transfer(net)), Settle(saves));
      && t.files == r.files
      && t.entries == Put(s.entries, Rescheduled(s.drain.work, r.error.value, s.clock))
  {
  }

  /** A conflict met by the drain: the content is at the sibling, the target is
      untouched, and the entry is then failed and names the sibling. */
  lemma {:induction false} ConflictOutcome(s: State, net: Net, saves: bool)
    requires Inv(s) && s.drain.Applying?
    requires var r := Apply(s.drain.adapter, s.drain.work, s.files, net, s.clock);
      r.error.Some? && r.error.value.Conflict?
    ensures s.drain.work.content.Some?
    ensures var work, vault := s.drain.work, s.drain.adapter.vault;
      var t, sibling := Do(Do(s, Transfer(net)), Settle(saves)), ConflictFilename(work.path);
      && t.files == s.files[Key(vault, sibling) := File(work.content.value, s.clock)]
      && Lookup(t.files, Key(vault, work.path)) == Lookup(s.files, Key(vault, work.path))
      && (exists x :: x in t.entries && x.id == work.id && x.state == Failed && x.conflictPath == Some(sibling)
            && x.lastError == Some(Conflict(sibling)) && x.attempts == work.attempts && x.createdAt == work.createdAt
            && SameWrite(x, s.hist.enqueued[work.id]))
  {
    var work := s.drain.work;
    var sibling := ConflictFilename(work.path);
    ConflictPreserves(s.drain.adapter, work, s.files, net, s.clock);
    FailureStored(s, net, saves);
    var x := Rescheduled(work, Conflict(sibling), s.clock);
    assert x.conflictPath == Some(sibling) && SameWrite(x, s.hist.enqueued[work.id]);
    assert x in Do(Do(s, Transfer(net)), Settle(saves)).entries;
  }

  // --------------------------------------------------------- removed is removed

  /** Whether a copy of the entry is on its way back into the queue. */
  ghost predicate InFlight(s: State, id: Id) {
    || (Held(s.drain).Some? && !s.drain.Dropping? && Held(s.drain).value.id == id)
    || exists y :: y in s.retries && y.id == id
  }

  ghost predicate Gone(s: State, id: Id) {
    id in s.hist.enqueued && id !in Ids(s.entries) && id !in Ids(s.disk) && !InFlight(s, id)
  }

  /** Storing a queue without the entry keeps it gone. */
  lemma {:induction false} GoneSaved(s: State, saves: bool, id: Id)
    requires Gone(s, id)
    ensures Gone(Saved(s, saves), id)
  {
    StoredIds(s.entries);
  }

  lemma {:induction false} GonePut(s: State, x: Entry, d: Drain, retries: seq<Entry>, saves: bool, id: Id)
    requires Gone(s, id) && x.id != id
    requires forall y :: y in retries ==> y in s.retries
    requires Held(d).Some? ==> d.Dropping? || Held(d).value.id != id
    ensures Gone(Saved(s.(entries := Put(s.entries, x), drain := d, retries := retries), saves), id)
  {
    PutIds(s.entries, x);
    GoneSaved(s.(entries := Put(s.entries, x), drain := d, retries := retries), saves, id);
  }

  lemma {:induction false} GoneDrain(s: State, step: Step, id: Id)
    requires Gone(s, id) && (step.Pick? || step.Adopt? || step.Mark? || step.Transfer? || step.Settle?)
    ensures Gone(Do(s, step), id)
  {
    match step
    case Pick =>
      if s.drain.Looking? {
        NextDueIsDue(s.entries, s.drain.now);
      }
    case Adopt =>
    case Mark(saves) =>
      if s.drain.Marking? {
        GonePut(s, s.drain.work, Applying(s.drain.work, s.drain.adapter), s.retries, saves, id);
      }
    case Transfer(_) =>
    case Settle(saves) =>
      if s.drain.Storing? {
        GonePut(s, s.drain.work, Looking(s.clock), s.retries, saves, id);
      } else if s.drain.Dropping? {
        GoneSaved(s.(entries := Without(s.entries, s.drain.work.id), drain := Looking(s.clock)), saves, id);
      }
  }

  lemma {:induction false} GoneStep(s: State, step: Step, id: Id)
    requires Gone(s, id)
    ensures Gone(Do(s, step), id)
  {
    match step
    case Enqueue(e, saves) =>
      if IsNew(e) && e.id !in s.hist.enqueued {
        StoredIds(s.entries + [e]);
      }
    case RetryRead(other) =>
      var i := IndexOf(s.entries, other);
      if i < |s.entries| {
        assert s.entries[i] in s.entries;
      }
    case RetryWrite(call, saves) =>
      if call < |s.retries| {
        assert s.retries[call] in s.retries;
        GonePut(s, s.retries[call], s.drain, s.retries[..call] + s.retries[call + 1..], saves, id);
      }
    case Remove(other, saves) =>
      StoredIds(Without(s.entries, other));
    case Clear(_) =>
    case SetMode(_) =>
    case RemoteEdit(_, _) =>
    case Tick(_) =>
    case Crash =>
    case DrainBegin =>
    case _ => GoneDrain(s, step, id);
  }

  lemma {:induction false} GoneRun(s: State, steps: seq<Step>, id: Id)
    requires Gone(s, id)
    ensures Gone(Run(s, steps), id)
  {
    if |steps| > 0 {
      GoneRun(s, steps[..|steps| - 1], id);
      GoneStep(Run(s, steps[..|steps| - 1]), steps[|steps| - 1], id);
    }
  }

  lemma {:induction false} RunOne(s: State, step: Step)
    ensures Run(s, [step]) == Do(s, step)
  {
    assert [step][..0] == [];
    assert Run(s, []) == s;
  }

  lemma {:induction false} RunTwo(s: State, a: Step, b: Step)
    ensures Run(s, [a, b]) == Do(Do(s, a), b)
  {
    assert [a, b][..1] == [a];
    RunOne(s, a);
  }

  const LOST := Net(Readable, Lost(Unreachable))

  lemma {:induction false} LostFails(s: State)
    requires s.drain.Applying?
    ensures Do(s, Transfer(LOST)).drain.Storing?
    ensures Do(s, Transfer(LOST)).drain.work.id == s.drain.work.id
  {
    assert Apply(s.drain.adapter, s.drain.work, s.files, LOST, s.clock).error.Some?;
  }

  lemma {:induction false} SettleReturns(s: State)
    requires s.drain.Storing?
    ensures s.drain.work.id in Ids(Do(s, Settle(false)).entries)
  {
    PutIds(s.entries, s.drain.work);
  }

  lemma {:induction false} MarkReturns(s: State)
    requires s.drain.Marking?
    ensures s.drain.work.id in Ids(Do(s, Mark(false)).entries)
  {
    PutIds(s.entries, s.drain.work);
  }

  /** The steps by which the drain puts the copy that it holds back. */
  lemma {:induction false} HeldReturns(s: State) returns (steps: seq<Step>)
    requires Held(s.drain).Some? && !s.drain.Dropping?
    ensures Held(s.drain).value.id in Ids(Run(s, steps).entries)
  {
    match s.drain
    case Picked(e) =>
      var mode := SetMode(Some(Server(0)));
      MarkReturns(Do(Do(s, mode), Adopt));
      steps := [mode, Adopt] + [Mark(false)];
      RunConcat(s, [mode, Adopt], [Mark(false)]);
      RunTwo(s, mode, Adopt);
      RunOne(Do(Do(s, mode), Adopt), Mark(false));
    case Marking(_, _) =>
      MarkReturns(s);
      steps := [Mark(false)];
      RunOne(s, Mark(false));
    case Applying(_, _) =>
      LostFails(s);
      SettleReturns(Do(s, Transfer(LOST)));
      steps := [Transfer(LOST), Settle(false)];
      RunTwo(s, Transfer(LOST), Settle(false));
    case Storing(_) =>
      SettleReturns(s);
      steps := [Settle(false)];
      RunOne(s, Settle(false));
  }

  /** The steps that bring back an entry that is not gone. */
  lemma {:induction false} Resurrection(s: State, id: Id) returns (steps: seq<Step>)
    requires InFlight(s, id) || id in Ids(s.disk)
    ensures id in Ids(Run(s, steps).entries)
  {
    if id in Ids(s.disk) {
      steps := [Crash];
      RunOne(s, Crash);
    } else if exists y :: y in s.retries && y.id == id {
      var y :| y in s.retries && y.id == id;
      var call :| 0 <= call < |s.retries| && s.retries[call] == y;
      steps := [RetryWrite(call, false)];
      RunOne(s, RetryWrite(call, false));
      PutIds(s.entries, y);
    } else {
      steps := HeldReturns(s);
    }
  }

  /** A removal sticks, whatever follows, exactly when no copy of the entry is
      in flight and the removal was saved (or had nothing to save). */
  lemma {:induction false} RemovalSticksIff(s: State, id: Id, saves: bool)
    requires Inv(s) && id in s.hist.enqueued
    ensures (forall steps :: id !in Ids(Run(Do(s, Remove(id, saves)), steps).entries))
      <==> !InFlight(s, id) && (saves || id !in Ids(s.disk))
  {
    var t := Do(s, Remove(id, saves));
    WithoutIds(s.entries, id);
    StoredIds(t.entries);
    assert InFlight(t, id) <==> InFlight(s, id);
    if !InFlight(s, id) && (saves || id !in Ids(s.disk)) {
      forall steps ensures id !in Ids(Run(t, steps).entries) {
        GoneRun(t, steps, id);
      }
    } else {
      var steps := Resurrection(t, id);
      assert id in Ids(Run(t, steps).entries);
    }
  }
}
