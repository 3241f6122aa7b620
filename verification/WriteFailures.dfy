/** Why entries of a run are failed, and what a conflict has kept for the user. */
module WriteFailures {
  import opened Text
  import opened Outbox
  import opened WriteAdapters
  import opened WriteProtocol

  /** The losing content of `x` was written at its sibling path. */
  ghost predicate KeptAside(x: Entry, log: seq<Write>) {
    exists w :: w in log && w.role == Sibling && w.entry.id == x.id
      && w.key.path == ConflictFilename(x.path) && Some(w.content) == x.content
  }

  /** A failed entry was refused, was invalid, or lost a conflict after its
      content was kept aside. */
  ghost predicate Explained(x: Entry, log: seq<Write>) {
    x.state == Failed ==>
      || x.lastError == Some(Faulted(InvalidContent))
      || (x.lastError.Some? && x.lastError.value.Faulted? && x.lastError.value.fault.Refused?)
      || (x.lastError == Some(Conflict(ConflictFilename(x.path)))
          && x.conflictPath == Some(ConflictFilename(x.path)) && KeptAside(x, log))
  }

  ghost predicate AllExplained(entries: seq<Entry>, log: seq<Write>) {
    forall x :: x in entries ==> Explained(x, log)
  }

  ghost predicate FailuresExplained(s: State) {
    && AllExplained(s.entries, s.hist.log) && AllExplained(s.disk, s.hist.log)
    && AllExplained(s.retries, s.hist.log)
    && (Held(s.drain).Some? ==> Explained(Held(s.drain).value, s.hist.log))
    && (s.drain.Marking? || s.drain.Applying? ==> s.drain.work.state == Uploading)
    && (forall x :: x in s.retries ==> x.state == Queued)
  }

  lemma {:induction false} LongerLog(entries: seq<Entry>, log: seq<Write>, more: seq<Write>)
    requires AllExplained(entries, log)
    ensures AllExplained(entries, log + more)
  {
    forall x | x in entries ensures Explained(x, log + more) {
      assert Explained(x, log);
      if KeptAside(x, log) {
        var w :| w in log && w.role == Sibling && w.entry.id == x.id
          && w.key.path == ConflictFilename(x.path) && Some(w.content) == x.content;
        assert w in log + more;
      }
    }
  }

  lemma {:induction false} SavedExplained(s: State, saves: bool)
    requires FailuresExplained(s)
    ensures FailuresExplained(Saved(s, saves))
  {
    StoredIds(s.entries);
    forall x | x in StoredAll(s.entries) ensures Explained(x, s.hist.log) {
      var y :| y in s.entries && x == Stored(y);
      assert KeptAside(y, s.hist.log) ==> KeptAside(x, s.hist.log);
    }
  }

  /** The entry that the drain stores after a failed apply is explained. */
  lemma {:induction false} ApplyExplained(a: Adapter, work: Entry, files: Files, net: Net, now: Time, log: seq<Write>,
                                          r: Applied)
    requires work.state == Uploading && r == Apply(a, work, files, net, now)
    ensures r.error.Some? ==> Explained(Rescheduled(work, r.error.value, now), log + r.writes)
  {
    if r.error.Some? && r.error.value.Conflict? {
      ConflictPreserves(a, work, files, net, now);
      ConflictIsPreserve(a, work, files, net, now);
      assert r.writes[0].role == Sibling;
      assert r.writes[0] in log + r.writes;
    }
  }

  lemma {:induction false} TransferredExplained(s: State, r: Applied)
    requires FailuresExplained(s) && s.drain.Applying?
    requires r.error.Some? ==> Explained(Rescheduled(s.drain.work, r.error.value, s.clock), s.hist.log + r.writes)
    ensures FailuresExplained(Transferred(s, s.drain.work, r))
  {
    LongerLog(s.entries, s.hist.log, r.writes);
    LongerLog(s.disk, s.hist.log, r.writes);
    LongerLog(s.retries, s.hist.log, r.writes);
    assert Explained(s.drain.work, s.hist.log + r.writes);
  }

  lemma {:induction false} TransferExplained(s: State, net: Net)
    requires FailuresExplained(s) && s.drain.Applying?
    ensures FailuresExplained(Do(s, Transfer(net)))
  {
    var r := Apply(s.drain.adapter, s.drain.work, s.files, net, s.clock);
    TransferIs(s, net, r);
    AppliedExplained(s, net, r);
  }

  lemma {:induction false} AppliedExplained(s: State, net: Net, r: Applied)
    requires FailuresExplained(s) && s.drain.Applying?
    requires r == Apply(s.drain.adapter, s.drain.work, s.files, net, s.clock)
    ensures FailuresExplained(Transferred(s, s.drain.work, r))
  {
    ApplyExplained(s.drain.adapter, s.drain.work, s.files, net, s.clock, s.hist.log, r);
    TransferredExplained(s, r);
  }

  /** Storing an entry that is explained, as a retry and the drain do. */
  lemma {:induction false} PutExplained(s: State, x: Entry, d: Drain, retries: seq<Entry>, saves: bool)
    requires FailuresExplained(s) && Explained(x, s.hist.log)
    requires forall y :: y in retries ==> y in s.retries
    requires d == s.drain || d.Looking? || (d.Applying? && d.work == x && x.state == Uploading)
    ensures FailuresExplained(Saved(s.(entries := Put(s.entries, x), drain := d, retries := retries), saves))
  {
    SavedExplained(s.(entries := Put(s.entries, x), drain := d, retries := retries), saves);
  }

  lemma {:induction false} WithoutExplained(s: State, id: Id, d: Drain, h: History, saves: bool)
    requires FailuresExplained(s) && h.log == s.hist.log && (d == s.drain || d.Looking?)
    ensures FailuresExplained(Saved(s.(entries := Without(s.entries, id), drain := d, hist := h), saves))
  {
    SavedExplained(s.(entries := Without(s.entries, id), drain := d, hist := h), saves);
  }

  lemma {:induction false} EnqueueExplained(s: State, e: Entry, saves: bool)
    requires FailuresExplained(s)
    ensures FailuresExplained(Do(s, Enqueue(e, saves)))
  {
    if IsNew(e) && e.id !in s.hist.enqueued {
      var h := Do(s, Enqueue(e, saves)).hist;
      SavedExplained(s.(entries := s.entries + [e], hist := h), saves);
    }
  }

  lemma {:induction false} PickExplained(s: State)
    requires FailuresExplained(s)
    ensures FailuresExplained(Do(s, Pick))
  {
    if s.drain.Looking? {
      NextDueIsDue(s.entries, s.drain.now);
    }
  }

  lemma {:induction false} AdoptExplained(s: State)
    requires FailuresExplained(s)
    ensures FailuresExplained(Do(s, Adopt))
  {
  }

  lemma {:induction false} MarkExplained(s: State, saves: bool)
    requires FailuresExplained(s)
    ensures FailuresExplained(Do(s, Mark(saves)))
  {
    if s.drain.Marking? {
      PutExplained(s, s.drain.work, Applying(s.drain.work, s.drain.adapter), s.retries, saves);
    }
  }

  lemma {:induction false} StoreIs(s: State, saves: bool)
    requires s.drain.Storing?
    ensures Do(s, Settle(saves))
      == Saved(s.(entries := Put(s.entries, s.drain.work), drain := Looking(s.clock), retries := s.retries), saves)
  {
  }

  lemma {:induction false} DropIs(s: State, saves: bool)
    requires s.drain.Dropping?
    ensures Do(s, Settle(saves))
      == Saved(s.(entries := Without(s.entries, s.drain.work.id), drain := Looking(s.clock), hist := s.hist), saves)
  {
  }

  lemma {:induction false} SettleExplained(s: State, saves: bool)
    requires FailuresExplained(s)
    ensures FailuresExplained(Do(s, Settle(saves)))
  {
    if s.drain.Storing? {
      StoreIs(s, saves);
      PutExplained(s, s.drain.work, Looking(s.clock), s.retries, saves);
    } else if s.drain.Dropping? {
      DropIs(s, saves);
      WithoutExplained(s, s.drain.work.id, Looking(s.clock), s.hist, saves);
    } else {
      assert Do(s, Settle(saves)) == s;
    }
  }

  lemma {:induction false} StepExplained(s: State, step: Step)
    requires FailuresExplained(s)
    ensures FailuresExplained(Do(s, step))
  {
    match step
    case Enqueue(e, saves) => EnqueueExplained(s, e, saves);
    case RetryRead(id) =>
    case RetryWrite(call, saves) =>
      if call < |s.retries| {
        assert s.retries[call] in s.retries;
        PutExplained(s, s.retries[call], s.drain, s.retries[..call] + s.retries[call + 1..], saves);
      }
    case Remove(id, saves) =>
      WithoutExplained(s, id, s.drain, s.hist.(removed := s.hist.removed + {id}), saves);
    case Clear(saves) =>
    case SetMode(_) =>
    case RemoteEdit(_, _) =>
    case Tick(_) =>
    case Crash =>
    case DrainBegin =>
    case Pick => PickExplained(s);
    case Adopt => AdoptExplained(s);
    case Mark(saves) => MarkExplained(s, saves);
    case Transfer(net) =>
      if s.drain.Applying? {
        TransferExplained(s, net);
      }
    case Settle(saves) => SettleExplained(s, saves);
  }

  /** In every run, an entry is failed only for a reason that a retry by itself
      would not cure, never for a lost connection; and when the reason is a
      conflict, its content was written to the sibling that the entry names. */
  lemma {:induction false} FailedHasReason(steps: seq<Step>)
    ensures FailuresExplained(Run(INITIAL, steps))
  {
    if |steps| > 0 {
      FailedHasReason(steps[..|steps| - 1]);
      StepExplained(Run(INITIAL, steps[..|steps| - 1]), steps[|steps| - 1]);
    }
  }

  /** Losing the connection keeps an entry queued, for later and later. Any other
      fault fails it. The reason is recorded and what it writes stays as it is. */
  lemma {:induction false} ConnectionLossRequeues(work: Entry, fault: Fault, now: Time)
    ensures var x := Rescheduled(work, Faulted(fault), now);
      && (x.state == Queued <==> fault == Unreachable || fault == Foreign)
      && (x.state == Failed <==> fault.Refused? || fault == InvalidContent)
      && (x.state == Queued ==>
            && x.attempts == work.attempts + 1 && x.nextRetryAt == Some(now + Backoff(work.attempts + 1))
            && now + 2000 <= x.nextRetryAt.value <= now + 900000)
      && (x.state == Failed ==> x.attempts == work.attempts && x.nextRetryAt == work.nextRetryAt)
      && x.lastError == Some(Faulted(fault)) && x.conflictPath == work.conflictPath && SameWrite(x, work)
      && x.createdAt == work.createdAt
  {
    BackoffShape(work.attempts + 1, work.attempts + 1);
  }
}
