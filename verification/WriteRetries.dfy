/** What the next attempt of a queued write meets: its own earlier landing, when
    that was not acknowledged, and a trigger that comes too early. */
module WriteRetries {
  import opened Text
  import opened Outbox
  import opened WriteAdapters
  import opened WriteProtocol

  /** The file that keeps a note write from its target. */
  predicate Blocked(a: Adapter, live: Option<File>, e: Entry) {
    if e.kind == CreateNote then live.Some? else !Matches(a, live, e.precondition)
  }

  function Live(s: State, a: Adapter, e: Entry): Option<File> {
    Lookup(s.files, Key(a.vault, e.path))
  }

  predicate IsConflict(error: Option<WriteError>) {
    error.Some? && error.value.Conflict?
  }

  const CLEAR := Net(Readable, Lands)

  /** What becomes of a note write that gets through: a server that cannot be read
      stops it with its fault and nothing written; otherwise it is kept aside exactly
      when the file that is seen blocks it, and an unreadable folder shows none. */
  lemma {:induction false} ApplyOutcome(a: Adapter, e: Entry, files: Files, net: Net, now: Time)
    requires e.kind != UploadOriginal && e.content.Some? && net.write.Lands?
    ensures var r := Apply(a, e, files, net, now);
      var seen := if net.read.Readable? then Lookup(files, Key(a.vault, e.path)) else None;
      if a.Server? && net.read.Unreadable? then r == Applied(files, Some(Faulted(net.read.fault)), [])
      else if Blocked(a, seen, e) then r.error == Some(Conflict(ConflictFilename(e.path)))
      else r.error == None && r.files == files[Key(a.vault, e.path) := File(e.content.value, now)]
  {
  }

  lemma {:induction false} ConflictsIff(a: Adapter, e: Entry, files: Files, now: Time)
    requires e.kind != UploadOriginal && e.content.Some?
    ensures IsConflict(Apply(a, e, files, CLEAR, now).error) <==> Blocked(a, Lookup(files, Key(a.vault, e.path)), e)
  {
    ApplyOutcome(a, e, files, CLEAR, now);
  }

  /** The drain is about to write a note whose target is free. */
  ghost predicate AboutToLand(s: State) {
    && Inv(s) && s.drain.Applying? && s.drain.work.kind != UploadOriginal && s.drain.work.content.Some?
    && !Blocked(s.drain.adapter, Live(s, s.drain.adapter, s.drain.work), s.drain.work)
  }

  predicate IsLoss(fault: Fault) {
    fault == Unreachable || fault == Foreign
  }

  /** The write lands, the phone sees an error, and the entry is stored again. */
  function Unseen(s: State, fault: Fault, saves: bool): State {
    Do(Do(s, Transfer(Net(Readable, LandsUnseen(fault)))), Settle(saves))
  }

  lemma {:induction false} UnseenApply(s: State, fault: Fault)
    requires AboutToLand(s) && IsLoss(fault)
    ensures var a, work := s.drain.adapter, s.drain.work;
      var r := Apply(a, work, s.files, Net(Readable, LandsUnseen(fault)), s.clock);
      && r.files == s.files[Key(a.vault, work.path) := File(work.content.value, s.clock)]
      && r.error == Some(Faulted(fault))
  {
  }

  /** Afterwards the file holds the content, and the entry is queued as before. */
  lemma {:induction false} UnseenLands(s: State, fault: Fault, saves: bool)
    requires AboutToLand(s) && IsLoss(fault)
    ensures var a, work, t := s.drain.adapter, s.drain.work, Unseen(s, fault, saves);
      && Live(t, a, work) == Some(File(work.content.value, s.clock))
      && t.entries == Put(s.entries, Requeued(work, Faulted(fault), s.clock))
      && t.drain == Looking(s.clock) && t.clock == s.clock && t.mode == s.mode && t.hist.enqueued == s.hist.enqueued
  {
    UnseenApply(s, fault);
    var net := Net(Readable, LandsUnseen(fault));
    TransferIs(s, net, Apply(s.drain.adapter, s.drain.work, s.files, net, s.clock));
  }

  // ------------------------------------------------------------- what was queued

  lemma {:induction false} EnqueuedStep(s: State, step: Step, id: Id)
    requires id in s.hist.enqueued
    ensures id in Do(s, step).hist.enqueued && Do(s, step).hist.enqueued[id] == s.hist.enqueued[id]
  {
  }

  lemma {:induction false} EnqueuedStays(s: State, steps: seq<Step>, id: Id)
    requires id in s.hist.enqueued
    ensures var h := Run(s, steps).hist; id in h.enqueued && h.enqueued[id] == s.hist.enqueued[id]
  {
    if |steps| > 0 {
      EnqueuedStays(s, steps[..|steps| - 1], id);
      EnqueuedStep(Run(s, steps[..|steps| - 1]), steps[|steps| - 1], id);
    }
  }

  lemma {:induction false} SameBlocked(a: Adapter, live: Option<File>, x: Entry, y: Entry, e: Entry)
    requires SameWrite(x, e) && SameWrite(y, e)
    ensures x.kind == y.kind && x.path == y.path && x.content == y.content
    ensures a.Server? ==> (Blocked(a, live, x) <==> Blocked(a, live, y))
  {
  }

  /** The working copy of any later attempt still writes the same. */
  lemma {:induction false} LaterAttempt(s: State, fault: Fault, saves: bool, steps: seq<Step>)
    requires AboutToLand(s) && IsLoss(fault)
    requires var u := Run(Unseen(s, fault, saves), steps); u.drain.Applying? && u.drain.work.id == s.drain.work.id
    ensures var u, id := Run(Unseen(s, fault, saves), steps), s.drain.work.id;
      && id in s.hist.enqueued && SameWrite(s.drain.work, s.hist.enqueued[id])
      && SameWrite(u.drain.work, s.hist.enqueued[id])
  {
    var t := Unseen(s, fault, saves);
    StepInv(s, Transfer(Net(Readable, LandsUnseen(fault))));
    StepInv(Do(s, Transfer(Net(Readable, LandsUnseen(fault)))), Settle(saves));
    UnseenLands(s, fault, saves);
    RunInv(t, steps);
    EnqueuedStays(t, steps, s.drain.work.id);
  }

  /** A write that landed without an acknowledgement is queued again with its old
      precondition. Whatever happens until the drain next applies it there, that
      attempt ends in a conflict exactly when the file that it finds is not the one
      the edit was made against. If it finds its own landing, that is for a create
      always, and for an update on a server exactly when its content is not what
      the queued hash names. */
  lemma {:induction false} RetryConflictsIff(s: State, fault: Fault, saves: bool, steps: seq<Step>)
    requires AboutToLand(s) && IsLoss(fault)
    requires var u := Run(Unseen(s, fault, saves), steps);
      u.drain.Applying? && u.drain.work.id == s.drain.work.id && u.drain.adapter == s.drain.adapter
    ensures var u, a, work := Run(Unseen(s, fault, saves), steps), s.drain.adapter, s.drain.work;
      var conflict := IsConflict(Apply(a, u.drain.work, u.files, CLEAR, u.clock).error);
      && (conflict <==> Blocked(a, Live(u, a, work), u.drain.work))
      && (a.Server? ==> (conflict <==> Blocked(a, Live(u, a, work), work)))
      && (Live(u, a, work) == Live(Unseen(s, fault, saves), a, work) && (a.Server? || work.kind == CreateNote) ==>
            (conflict <==> work.kind == CreateNote || work.precondition.etag != Some(Sha256(work.content.value))))
  {
    var u, a, work := Run(Unseen(s, fault, saves), steps), s.drain.adapter, s.drain.work;
    LaterAttempt(s, fault, saves, steps);
    SameBlocked(a, Live(u, a, work), work, u.drain.work, s.hist.enqueued[work.id]);
    ConflictsIff(a, u.drain.work, u.files, u.clock);
    UnseenLands(s, fault, saves);
  }

  // ------------------------------------------------------------ that it can happen

  lemma {:induction false} OnlyDue(x: Entry, now: Time)
    ensures NextDue([x], now) == if IsDue(x, now) then Some(x) else None
  {
    NextDueIsDue([x], now);
    assert [x][0] == x;
  }

  lemma {:induction false} PutOnly(e: Entry, x: Entry)
    requires e.id == x.id
    ensures Put([e], x) == [x]
  {
    assert IndexOf([e], x.id) == 0;
  }

  /** A queue with a single entry that was just stored for a later retry. */
  ghost predicate Waiting(t: State, x: Entry) {
    && t.entries == [x] && t.drain == Looking(t.clock)
    && IsPending(x) && x.nextRetryAt.Some? && t.clock < x.nextRetryAt.value
  }

  lemma {:induction false} UnseenWaits(s: State, fault: Fault, saves: bool)
    requires AboutToLand(s) && IsLoss(fault) && s.entries == [s.drain.work]
    ensures Waiting(Unseen(s, fault, saves), Requeued(s.drain.work, Faulted(fault), s.clock))
  {
    UnseenLands(s, fault, saves);
    PutOnly(s.drain.work, Requeued(s.drain.work, Faulted(fault), s.clock));
    BackoffShape(s.drain.work.attempts + 1, s.drain.work.attempts + 1);
  }

  /** A trigger that comes between a drain's last look at the clock and its end does
      nothing, whatever has become due meanwhile. */
  lemma {:induction false} TriggerLost(t: State, elapsed: nat)
    requires t.drain.Looking? && forall x :: x in t.entries ==> !IsDue(x, t.drain.now)
    ensures Run(t, [Tick(elapsed), DrainBegin] + [Pick]) == t.(clock := t.clock + elapsed, drain := Idle)
  {
    RunConcat(t, [Tick(elapsed), DrainBegin], [Pick]);
    RunTwo(t, Tick(elapsed), DrainBegin);
    RunOne(t.(clock := t.clock + elapsed), Pick);
    NextDueIsDue(t.entries, t.drain.now);
  }

  /** So an entry can be due while no drain is under way and its trigger is spent. */
  lemma {:induction false} DueButIdle(t: State, x: Entry)
    requires Waiting(t, x)
    ensures var u := Run(t, [Tick(x.nextRetryAt.value - t.clock), DrainBegin] + [Pick]);
      u.drain.Idle? && u.entries == [x] && IsDue(x, u.clock) && u.files == t.files && u.mode == t.mode
  {
    forall y | y in t.entries ensures !IsDue(y, t.clock) {
      assert y == x;
    }
    TriggerLost(t, x.nextRetryAt.value - t.clock);
  }

  lemma {:induction false} NextAttempt(t: State, x: Entry, a: Adapter) returns (steps: seq<Step>)
    requires Waiting(t, x) && t.mode == Some(a)
    ensures var u := Run(t, steps);
      u.files == t.files && u.drain == Applying(x.(state := Uploading), a)
  {
    var elapsed := x.nextRetryAt.value - t.clock;
    DueButIdle(t, x);
    var idle := [Tick(elapsed), DrainBegin] + [Pick];
    var u := Run(t, idle);
    OnlyDue(x, u.clock);
    RunTwo(u, DrainBegin, Pick);
    var v := Do(Do(u, DrainBegin), Pick);
    RunTwo(v, Adopt, Mark(false));
    RunConcat(u, [DrainBegin, Pick], [Adopt, Mark(false)]);
    steps := idle + ([DrainBegin, Pick] + [Adopt, Mark(false)]);
    RunConcat(t, idle, [DrainBegin, Pick] + [Adopt, Mark(false)]);
  }

  /** A run in which a write does conflict with itself: alone in the queue, and
      nobody touches the file. The same text is then both at the note and at its
      conflict sibling. */
  lemma {:induction false} OwnConflict(s: State, fault: Fault, saves: bool) returns (steps: seq<Step>)
    requires AboutToLand(s) && IsLoss(fault) && s.entries == [s.drain.work]
    requires s.drain.adapter.Server? && s.mode == Some(s.drain.adapter)
    requires s.drain.work.kind == CreateNote
      || s.drain.work.precondition.etag != Some(Sha256(s.drain.work.content.value))
    ensures var u, a, work := Run(Unseen(s, fault, saves), steps), s.drain.adapter, s.drain.work;
      && u.drain.Applying? && u.drain.work.id == work.id
      && var r := Apply(a, u.drain.work, u.files, CLEAR, u.clock);
         && IsConflict(r.error)
         && (forall path :: path in {work.path, ConflictFilename(work.path)} ==>
               Lookup(r.files, Key(a.vault, path)).Some?
               && Lookup(r.files, Key(a.vault, path)).value.content == work.content.value)
  {
    var a, work := s.drain.adapter, s.drain.work;
    var t, x := Unseen(s, fault, saves), Requeued(work, Faulted(fault), s.clock);
    UnseenWaits(s, fault, saves);
    UnseenLands(s, fault, saves);
    steps := NextAttempt(t, x, a);
    RetryConflictsIff(s, fault, saves, steps);
    var u := Run(t, steps);
    ConflictPreserves(a, u.drain.work, u.files, CLEAR, u.clock);
  }
}
