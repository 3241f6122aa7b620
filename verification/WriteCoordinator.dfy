/** The coordinator that owns the outbox and the adapter, with its drain loop
    run at a frozen clock and without interleaved calls. Every method is a
    sequence of steps of the protocol, so what holds of all runs holds of it. */
module WriteCoordinator {
  import opened Text
  import opened Outbox
  import opened WriteAdapters
  import opened WriteProtocol

  function IdsInOrder(entries: seq<Entry>): (r: seq<Id>)
    ensures |r| == |entries|
    ensures forall i :: 0 <= i < |r| ==> r[i] == entries[i].id
  {
    seq(|entries|, i requires 0 <= i < |entries| => entries[i].id)
  }

  /** One round of the drain: adopt the picked entry, mark it, apply it, settle. */
  function Round(marks: bool, net: Net, settles: bool): seq<Step> {
    [Adopt, Mark(marks), Transfer(net), Settle(settles)]
  }

  lemma {:induction false} RoundState(s: State, marks: bool, net: Net, settles: bool)
    requires s.drain.Picked? && s.mode.Some?
    ensures var work := s.drain.entry.(state := Uploading);
      var marked := Saved(s.(entries := Put(s.entries, work), drain := Applying(work, s.mode.value)), marks);
      var r := Apply(s.mode.value, work, s.files, net, s.clock);
      Run(s, Round(marks, net, settles)) == Do(Transferred(marked, work, r), Settle(settles))
  {
    var t := Do(Do(s, Adopt), Mark(marks));
    RunTwo(s, Adopt, Mark(marks));
    RunConcat(s, [Adopt, Mark(marks)], [Transfer(net), Settle(settles)]);
    RunTwo(t, Transfer(net), Settle(settles));
    assert [Adopt, Mark(marks)] + [Transfer(net), Settle(settles)] == Round(marks, net, settles);
  }

  /** The queue after a round. */
  function RoundEntries(entries: seq<Entry>, work: Entry, error: Option<WriteError>, now: Time): seq<Entry> {
    if error == None then Without(Put(entries, work), work.id)
    else Put(Put(entries, work), Rescheduled(work, error.value, now))
  }

  /** Everything that a round leaves. */
  lemma {:induction false} RoundLeaves(s: State, marks: bool, net: Net, settles: bool, work: Entry, r: Applied)
    requires s.drain.Picked? && s.mode.Some? && work == s.drain.entry.(state := Uploading)
    requires r == Apply(s.mode.value, work, s.files, net, s.clock)
    ensures var entries := RoundEntries(s.entries, work, r.error, s.clock);
      var marked := if marks then StoredAll(Put(s.entries, work)) else s.disk;
      var hist := s.hist.(log := s.hist.log + r.writes,
                          applied := s.hist.applied + if r.error == None then {work.id} else {});
      Run(s, Round(marks, net, settles))
        == State(entries, if settles then StoredAll(entries) else marked, r.files, s.mode,
                 Looking(s.clock), s.retries, s.clock, hist)
  {
    RoundState(s, marks, net, settles);
  }

  /** After a round the entry is gone from the due queue and no other entry has
      changed. */
  lemma {:induction false} RoundHandles(entries: seq<Entry>, work: Entry, error: WriteError, now: Time)
    requires Distinct(entries)
    requires var due := DueQueue(entries, now); due != [] && due[0].id == work.id
    ensures var done := Rescheduled(work, error, now); var tail := DueQueue(entries, now)[1..];
      && !IsDue(done, now) && done.id == work.id
      && DueQueue(Put(Put(entries, work), done), now) == tail
      && DueQueue(Without(Put(entries, work), work.id), now) == tail
      && Distinct(Put(Put(entries, work), done)) && Distinct(Without(Put(entries, work), work.id))
  {
    var done := Rescheduled(work, error, now);
    BackoffShape(work.attempts + 1, work.attempts + 1);
    PutTwice(entries, work, done);
    HandledOnce(entries, done, now);
    PutDistinct(entries, work);
    PutDistinct(Put(entries, work), done);
    WithoutDistinct(Put(entries, work), work.id);
  }

  function PickedOrIdle(entries: seq<Entry>, now: Time): Drain {
    var next := NextDue(entries, now);
    if next.Some? then Picked(next.value) else Idle
  }

  lemma {:induction false} PickState(s: State, now: Time)
    requires s.drain == Looking(now)
    ensures Do(s, Pick) == s.(drain := PickedOrIdle(s.entries, now))
  {
  }

  lemma {:induction false} BeginState(s: State)
    requires s.drain.Idle?
    ensures Run(s, [DrainBegin, Pick]) == s.(drain := PickedOrIdle(s.entries, s.clock))
  {
    RunTwo(s, DrainBegin, Pick);
  }

  lemma {:induction false} AdoptState(s: State)
    requires s.drain.Picked? && s.mode.None?
    ensures Do(s, Adopt) == s.(drain := Idle)
  {
  }

  class Coordinator {
    const outbox: MobileOutbox
    var adapter: Option<Adapter>
    var isDraining: bool
    var files: Files        // what the backends hold
    ghost var hist: History

    /** The protocol state that this object stands for. */
    ghost function Abs(drain: Drain, now: Time): State
      reads this, outbox
    {
      State(outbox.entries, outbox.disk, files, adapter, drain, [], now, hist)
    }

    ghost predicate Valid()
      reads this, outbox
    {
      Inv(Abs(Idle, 0))
    }

    constructor (backends: Files)
      ensures Valid() && fresh(outbox) && !isDraining
      ensures Abs(Idle, 0) == INITIAL.(files := backends)
    {
      outbox := new MobileOutbox();
      adapter, isDraining, files := None, false, backends;
      hist := INITIAL.hist;
    }

    method SetMode(mode: Option<Adapter>)
      requires Valid()
      modifies this
      ensures Valid() && isDraining == old(isDraining)
      ensures Abs(Idle, 0) == Do(old(Abs(Idle, 0)), WriteProtocol.SetMode(mode))
    {
      adapter := mode;
    }

    method Enqueue(e: Entry, saves: bool)
      requires Valid() && IsNew(e) && e.id !in hist.enqueued
      modifies this, outbox
      ensures Valid() && isDraining == old(isDraining)
      ensures Abs(Idle, 0) == Do(old(Abs(Idle, 0)), WriteProtocol.Enqueue(e, saves))
    {
      StepInv(Abs(Idle, 0), WriteProtocol.Enqueue(e, saves));
      hist := hist.(enqueued := hist.enqueued[e.id := e], acked := hist.acked + if saves then {e.id} else {});
      outbox.Enqueue(e, saves);
    }

    method Retry(id: Id, saves: bool)
      requires Valid()
      modifies this, outbox
      ensures Valid() && isDraining == old(isDraining)
      ensures Abs(Idle, 0) == Do(Do(old(Abs(Idle, 0)), RetryRead(id)), RetryWrite(0, saves))
    {
      StepInv(Abs(Idle, 0), RetryRead(id));
      StepInv(Do(Abs(Idle, 0), RetryRead(id)), RetryWrite(0, saves));
      var index := IndexOf(outbox.entries, id);
      if index == |outbox.entries| || outbox.entries[index].state != Failed {
        return;
      }
      var e := outbox.entries[index];
      e := e.(state := Queued);
      e := e.(nextRetryAt := None);
      e := e.(lastError := None);
      e := e.(conflictPath := None);
      outbox.Update(e, saves);
    }

    method Remove(id: Id, saves: bool)
      requires Valid()
      modifies this, outbox
      ensures Valid() && isDraining == old(isDraining)
      ensures Abs(Idle, 0) == Do(old(Abs(Idle, 0)), WriteProtocol.Remove(id, saves))
    {
      StepInv(Abs(Idle, 0), WriteProtocol.Remove(id, saves));
      hist := hist.(removed := hist.removed + {id});
      outbox.Remove(id, saves);
    }

    method Clear(saves: bool)
      requires Valid()
      modifies this, outbox
      ensures Valid() && isDraining == old(isDraining)
      ensures Abs(Idle, 0) == Do(old(Abs(Idle, 0)), WriteProtocol.Clear(saves))
    {
      StepInv(Abs(Idle, 0), WriteProtocol.Clear(saves));
      hist := hist.(removed := hist.removed + hist.enqueued.Keys);
      outbox.RemoveAll(saves);
    }

    /** The loop body of the drain: one entry that is due. */
    method Handle(next: Entry, now: Time, marks: bool, net: Net, settles: bool)
      requires Distinct(outbox.entries) && adapter.Some?
      requires NextDue(outbox.entries, now) == Some(next)
      modifies this, outbox
      ensures Distinct(outbox.entries) && isDraining == old(isDraining) && adapter == old(adapter)
      ensures Abs(Looking(now), now) == Run(old(Abs(Picked(next), now)), Round(marks, net, settles))
      ensures DueQueue(old(outbox.entries), now) != []
      ensures DueQueue(outbox.entries, now) == DueQueue(old(outbox.entries), now)[1..]
    {
      ghost var s := Abs(Picked(next), now);
      ghost var before := outbox.entries;
      NextDueIsOldest(before, now);

      var working := next.(state := Uploading);
      outbox.Update(working, marks);
      var result := Apply(adapter.value, working, files, net, now);
      RoundLeaves(s, marks, net, settles, working, result);
      files := result.files;
      hist := hist.(log := hist.log + result.writes,
                    applied := hist.applied + if result.error == None then {working.id} else {});
      if result.error == None {
        RoundHandles(before, working, Faulted(Foreign), now);
        outbox.Remove(working.id, settles);
      } else {
        RoundHandles(before, working, result.error.value, now);
        working := Classify(working, result.error.value, now);
        outbox.Update(working, settles);
      }
    }

    /** The catch clauses of the drain. */
    method Classify(work: Entry, error: WriteError, now: Time) returns (working: Entry)
      ensures working == Rescheduled(work, error, now)
    {
      working := work;
      match error {
        case Faulted(Unreachable) =>
          working := Requeue(working, error, now);
        case Conflict(preservedAt) =>
          working := working.(state := Failed);
          working := working.(lastError := Some(error));
          working := working.(conflictPath := Some(preservedAt));
        case Faulted(Foreign) =>
          working := Requeue(working, error, now);
        case Faulted(_) =>
          working := working.(state := Failed);
          working := working.(lastError := Some(error));
      }
    }

    method Requeue(work: Entry, error: WriteError, now: Time) returns (working: Entry)
      ensures working == Requeued(work, error, now)
    {
      working := work.(state := Queued);
      working := working.(attempts := working.attempts + 1);
      working := working.(lastError := Some(error));
      working := working.(nextRetryAt := Some(now + Backoff(working.attempts)));
    }

    /** Applies every due entry once, oldest first, and leaves nothing due. The
        outcome of the n-th apply and of the saves around it is `nets(n)`,
        `marks(n)` and `settles(n)`. */
    method DrainLoop(now: Time, nets: nat -> Net, marks: nat -> bool, settles: nat -> bool)
      returns (handled: seq<Id>, ghost steps: seq<Step>)
      requires Distinct(outbox.entries)
      modifies this, outbox
      ensures isDraining == old(isDraining) && adapter == old(adapter)
      ensures Abs(Idle, now) == Run(old(Abs(Idle, now)), steps)
      ensures adapter.None? ==> handled == [] && outbox.entries == old(outbox.entries)
      ensures adapter.Some? ==> handled == IdsInOrder(DueQueue(old(outbox.entries), now))
      ensures adapter.Some? ==> NextDue(outbox.entries, now) == None
    {
      handled := [];
      ghost var s0 := Abs(Idle, now);
      ghost var queue := DueQueue(outbox.entries, now);
      var next := NextDue(outbox.entries, now);
      NextDueIsOldest(outbox.entries, now);
      steps := [DrainBegin, Pick];
      BeginState(s0);
      while next.Some?
        invariant Distinct(outbox.entries) && isDraining == old(isDraining) && adapter == old(adapter)
        invariant Abs(PickedOrIdle(outbox.entries, now), now) == Run(s0, steps)
        invariant |handled| <= |queue| && handled == IdsInOrder(queue)[..|handled|]
        invariant DueQueue(outbox.entries, now) == queue[|handled|..]
        invariant next == NextDue(outbox.entries, now)
        invariant next == if |handled| < |queue| then Some(queue[|handled|]) else None
        invariant adapter.None? ==> handled == [] && outbox.entries == old(outbox.entries)
        decreases |queue| - |handled|
      {
        if adapter.None? {
          AdoptState(Abs(Picked(next.value), now));
          steps := AppendStep(s0, steps, Adopt);
          return;
        }
        var n := |handled|;
        SliceStep(queue, n);
        SliceStep(IdsInOrder(queue), n);
        Handle(next.value, now, marks(n), nets(n), settles(n));
        handled := handled + [next.value.id];
        next := NextDue(outbox.entries, now);
        NextDueIsOldest(outbox.entries, now);
        PickState(Abs(Looking(now), now), now);
        steps := AppendRound(s0, steps, Round(marks(n), nets(n), settles(n)));
      }
    }

    /** The guarded drain: a second trigger does nothing, and a drain leaves
        every entry failed or waiting for a strictly later retry. */
    method Drain(now: Time, nets: nat -> Net, marks: nat -> bool, settles: nat -> bool)
      returns (handled: seq<Id>, ghost steps: seq<Step>)
      requires Valid()
      modifies this, outbox
      ensures Valid() && isDraining == old(isDraining)
      ensures Abs(Idle, now) == Run(old(Abs(Idle, now)), steps)
      ensures old(isDraining) || adapter.None? ==> handled == [] && outbox.entries == old(outbox.entries)
      ensures !old(isDraining) && adapter.Some? ==>
        && handled == IdsInOrder(DueQueue(old(outbox.entries), now))
        && forall x :: x in outbox.entries ==>
             x.state == Failed || (x.nextRetryAt.Some? && now < x.nextRetryAt.value)
    {
      if isDraining {
        return [], [];
      }
      ghost var s0 := Abs(Idle, now);
      isDraining := true;
      handled, steps := DrainLoop(now, nets, marks, settles);
      NextDueIsDue(outbox.entries, now);
      RunInv(s0, steps);
      isDraining := false;
    }
  }

  lemma {:induction false} SliceStep<T>(q: seq<T>, n: nat)
    requires n < |q|
    ensures q[n..][1..] == q[n + 1..] && q[..n] + [q[n]] == q[..n + 1]
  {
  }

  lemma {:induction false} AppendStep(s0: State, steps: seq<Step>, step: Step) returns (longer: seq<Step>)
    ensures longer == steps + [step]
    ensures Run(s0, longer) == Do(Run(s0, steps), step)
  {
    longer := steps + [step];
    RunConcat(s0, steps, [step]);
    RunOne(Run(s0, steps), step);
  }

  lemma {:induction false} AppendRound(s0: State, steps: seq<Step>, round: seq<Step>) returns (longer: seq<Step>)
    ensures longer == steps + round + [Pick]
    ensures Run(s0, longer) == Do(Run(Run(s0, steps), round), Pick)
  {
    RunConcat(s0, steps, round);
    longer := AppendStep(s0, steps + round, Pick);
  }
}
