/** What a relaunch brings back: the queue as it was last saved, with failed entries
    failed for the same reason. */
module WriteRestarts {
  import opened Text
  import opened Outbox
  import opened WriteAdapters
  import opened WriteProtocol

  /** A crash after a save that succeeded: the whole queue is there again, and
      nothing is under way. */
  lemma {:induction false} CrashAfterSave(s: State)
    ensures var t := Do(Saved(s, true), Crash);
      && Survives(t.entries, s.entries)
      && t.drain.Idle? && t.retries == [] && t.mode.None? && t.files == s.files && t.disk == t.entries
  {
    StoredSurvives(s.entries);
  }

  /** The steps by which the user touches the entry `id`. */
  predicate UserTouches(step: Step, id: Id) {
    step == RetryRead(id) || (step.Remove? && step.id == id) || step.Clear?
  }

  ghost predicate IsCopy(y: Entry, x: Entry) {
    y == x || SameButFractions(y, x)
  }

  /** `x` is failed in the queue and in the file, and no retry of it is pending. */
  ghost predicate FailedForGood(s: State, x: Entry) {
    && Inv(s) && x.state == Failed
    && (exists y :: y in s.entries && IsCopy(y, x))
    && (exists y :: y in s.disk && SameButFractions(y, x))
    && forall r :: r in s.retries ==> r.id != x.id
  }

  lemma {:induction false} DiskStep(s: State, step: Step)
    ensures Do(s, step).disk == s.disk || Do(s, step).disk == StoredAll(Do(s, step).entries)
  {
  }

  lemma {:induction false} StoredIn(entries: seq<Entry>, y: Entry)
    requires y in entries
    ensures Stored(y) in StoredAll(entries)
  {
    var i :| 0 <= i < |entries| && entries[i] == y;
    assert StoredAll(entries)[i] == Stored(y);
  }

  lemma {:induction false} FailedOneStep(s: State, step: Step, x: Entry)
    requires FailedForGood(s, x) && !UserTouches(step, x.id)
    ensures FailedForGood(Do(s, step), x)
  {
    StepInv(s, step);
    if !step.Crash? {
      var y :| y in s.entries && IsCopy(y, x);
      assert FailedWith(s, y);
      FailedStep(s, step, y);
      DiskStep(s, step);
      StoredIn(Do(s, step).entries, y);
      StoredKeeps(y);
      CutOnce(Stored(y), y, x);
    }
  }

  /** A failed entry that was saved as such stays failed, with its reason and its
      conflict path, through any steps and any number of crashes, until the user
      retries or removes it or clears the queue. Only its dates may lose fractions of
      a second. */
  lemma {:induction false} FailedOutlivesCrashes(s: State, steps: seq<Step>, x: Entry)
    requires FailedForGood(s, x)
    requires forall i :: 0 <= i < |steps| ==> !UserTouches(steps[i], x.id)
    ensures FailedForGood(Run(s, steps), x)
    ensures exists y :: y in Run(s, steps).entries && IsCopy(y, x)
  {
    if |steps| > 0 {
      FailedOutlivesCrashes(s, steps[..|steps| - 1], x);
      FailedOneStep(Run(s, steps[..|steps| - 1]), steps[|steps| - 1], x);
    }
  }

  /** That is so from any save that succeeds while the entry is failed. */
  lemma {:induction false} SavedFailure(s: State, x: Entry)
    requires FailedWith(s, x)
    ensures FailedForGood(Saved(s, true), x)
  {
    SavedInv(s, true);
    StoredIn(s.entries, x);
    StoredKeeps(x);
  }
}
