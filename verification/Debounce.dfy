/** Debouncing of file events: one pending event for each path, flushed once it has
    waited half a second. Times are in milliseconds. */
module Debounce {
  datatype Op = Create | Write | Remove | Rename | Chmod

  /** The operation bits collected for a path, and when the first of them came. */
  datatype Event = Event(ops: set<Op>, ts: int)

  const DELAY := 500

  predicate Matured(ev: Event, now: int) {
    now - ev.ts >= DELAY
  }

  // ------------------------------------------------------------------ the two steps

  function Accumulated(pending: map<string, Event>, path: string, ops: set<Op>, now: int): map<string, Event> {
    if path in pending then pending[path := Event(pending[path].ops + ops, pending[path].ts)]
    else pending[path := Event(ops, now)]
  }

  function Remaining(pending: map<string, Event>, now: int): map<string, Event> {
    map p | p in pending && !Matured(pending[p], now) :: pending[p]
  }

  function Flushed(pending: map<string, Event>, now: int): map<string, Event> {
    map p | p in pending && Matured(pending[p], now) :: pending[p]
  }

  class Debouncer {
    var pending: map<string, Event>

    constructor ()
      ensures pending == map[]
    {
      pending := map[];
    }

    method Accumulate(path: string, ops: set<Op>, now: int)
      modifies this
      ensures pending == Accumulated(old(pending), path, ops, now)
    {
      if path in pending {
        pending := pending[path := pending[path].(ops := pending[path].ops + ops)];
        return;
      }
      pending := pending[path := Event(ops, now)];
    }

    /** The loop over the map that deletes what it hands on. */
    method Flush(now: int) returns (delivered: map<string, Event>)
      modifies this
      ensures pending == Remaining(old(pending), now) && delivered == Flushed(old(pending), now)
    {
      var left := pending.Keys;
      ghost var all := pending;
      delivered := map[];
      while left != {}
        invariant left <= all.Keys
        invariant forall p :: p in pending <==> p in all && (p in left || !Matured(all[p], now))
        invariant forall p :: p in delivered <==> p in all && p !in left && Matured(all[p], now)
        invariant forall p :: p in pending ==> pending[p] == all[p]
        invariant forall p :: p in delivered ==> delivered[p] == all[p]
        decreases |left|
      {
        var path :| path in left;
        left := left - {path};
        var ev := pending[path];
        if Matured(ev, now) {
          pending := pending - {path};
          delivered := delivered[path := ev];
        }
      }
    }
  }

  // ------------------------------------------------------------------ whole runs

  datatype Input = Receive(path: string, ops: set<Op>, at: int) | Tick(at: int)

  /** The pending events after a run. */
  function Pending(run: seq<Input>): map<string, Event> {
    if |run| == 0 then map[]
    else
      var before, i := Pending(run[..|run| - 1]), run[|run| - 1];
      match i
      case Receive(path, ops, at) => Accumulated(before, path, ops, at)
      case Tick(at) => Remaining(before, at)
  }

  /** What the last input of a run hands on. */
  function Delivered(run: seq<Input>): map<string, Event> {
    if |run| == 0 || run[|run| - 1].Receive? then map[]
    else Flushed(Pending(run[..|run| - 1]), run[|run| - 1].at)
  }

  function Received(run: seq<Input>, path: string): set<Op> {
    if |run| == 0 then {}
    else
      var i := run[|run| - 1];
      Received(run[..|run| - 1], path) + if i.Receive? && i.path == path then i.ops else {}
  }

  function HandedOn(run: seq<Input>, path: string): set<Op> {
    if |run| == 0 then {}
    else
      var d := Delivered(run);
      HandedOn(run[..|run| - 1], path) + if path in d then d[path].ops else {}
  }

  function PendingOps(run: seq<Input>, path: string): set<Op> {
    if path in Pending(run) then Pending(run)[path].ops else {}
  }

  /** Nothing is lost and nothing is made up: the bits received for a path are
      those handed on and those pending. */
  lemma {:induction false} Conservation(run: seq<Input>, path: string)
    ensures Received(run, path) == HandedOn(run, path) + PendingOps(run, path)
  {
    if |run| > 0 {
      Conservation(run[..|run| - 1], path);
    }
  }

  /** The receipts of a path since it was last handed on, oldest first. */
  function Window(run: seq<Input>, path: string): seq<Input> {
    if |run| == 0 then []
    else
      var before, i := Window(run[..|run| - 1], path), run[|run| - 1];
      if i.Receive? then (if i.path == path then before + [i] else before)
      else if path in Delivered(run) then []
      else before
  }

  function Union(window: seq<Input>): set<Op> {
    if |window| == 0 then {}
    else Union(window[..|window| - 1]) + if window[|window| - 1].Receive? then window[|window| - 1].ops else {}
  }

  /** A pending event is exactly the receipts since its last delivery: all their
      bits, and the time of the earliest. */
  lemma {:induction false} PendingIsWindow(run: seq<Input>, path: string)
    ensures path in Pending(run) <==> |Window(run, path)| > 0
    ensures path in Pending(run) ==> Pending(run)[path] == Event(Union(Window(run, path)), Window(run, path)[0].at)
  {
    if |run| > 0 {
      var before, i := Window(run[..|run| - 1], path), run[|run| - 1];
      PendingIsWindow(run[..|run| - 1], path);
      if i.Receive? && i.path == path {
        assert (before + [i])[..|before|] == before;
      }
    }
  }

  /** What a flush hands on is the window that it closes. */
  lemma {:induction false} DeliveredIsWindow(run: seq<Input>, path: string)
    requires path in Delivered(run)
    ensures var w := Window(run[..|run| - 1], path);
      |w| > 0 && Delivered(run)[path] == Event(Union(w), w[0].at)
    ensures Window(run, path) == [] && path !in Pending(run)
  {
    PendingIsWindow(run[..|run| - 1], path);
  }

  // ---------------------------------------------------------------------- age

  /** The time of the last flush, or of the start. */
  function LastTick(run: seq<Input>, start: int): int {
    if |run| == 0 then start
    else if run[|run| - 1].Tick? then run[|run| - 1].at
    else LastTick(run[..|run| - 1], start)
  }

  /** Times do not go back, and flushes come at most half a second apart. */
  ghost predicate Paced(run: seq<Input>, start: int) {
    |run| > 0 ==>
      var before, i := run[..|run| - 1], run[|run| - 1];
      && Paced(before, start)
      && LastTick(before, start) <= i.at <= LastTick(before, start) + DELAY
  }

  /** Nothing stays pending for a second: at any moment up to the next flush, what
      is pending is younger than that. */
  lemma {:induction false} PendingIsYoung(run: seq<Input>, start: int, path: string, now: int)
    requires Paced(run, start) && path in Pending(run)
    requires LastTick(run, start) <= now <= LastTick(run, start) + DELAY
    ensures now - Pending(run)[path].ts < 1000
  {
    PendingAfterTick(run, start, path);
  }

  lemma {:induction false} PendingAfterTick(run: seq<Input>, start: int, path: string)
    requires Paced(run, start) && path in Pending(run)
    ensures Pending(run)[path].ts > LastTick(run, start) - DELAY
  {
    if |run| > 0 {
      var before, i := run[..|run| - 1], run[|run| - 1];
      if path in Pending(before) {
        PendingAfterTick(before, start, path);
      }
    }
  }

  /** What is handed on has waited for at least half a second and for less than one. */
  lemma {:induction false} DeliveredAge(run: seq<Input>, start: int, path: string)
    requires Paced(run, start) && path in Delivered(run)
    ensures 500 <= run[|run| - 1].at - Delivered(run)[path].ts < 1000
  {
    PendingIsYoung(run[..|run| - 1], start, path, run[|run| - 1].at);
  }

  // --------------------------------------------------------------- what is reported

  datatype Report = Nothing | FileAdded | FileChanged | FileRemoved | IndexUpdated

  function ReportOf(ops: set<Op>): Report {
    if Create in ops then FileAdded
    else if Write in ops then FileChanged
    else if Remove in ops || Rename in ops then FileRemoved
    else Nothing
  }

  lemma {:induction false} UnionHas(window: seq<Input>, op: Op)
    ensures op in Union(window) <==> exists i :: 0 <= i < |window| && window[i].Receive? && op in window[i].ops
  {
    if |window| > 0 {
      var init := window[..|window| - 1];
      UnionHas(init, op);
      if exists i :: 0 <= i < |init| && init[i].Receive? && op in init[i].ops {
        var i :| 0 <= i < |init| && init[i].Receive? && op in init[i].ops;
        assert op in window[i].ops;
      }
      assert forall i :: 0 <= i < |init| ==> window[i] == init[i];
    }
  }

  /** A creation is classified as one, whatever writes and changes of mode came with
      it, and nothing is classified as created that was not. */
  lemma {:induction false} CreateSurvives(run: seq<Input>, path: string)
    requires path in Delivered(run)
    ensures var w := Window(run[..|run| - 1], path);
      ReportOf(Delivered(run)[path].ops) == FileAdded
      <==> exists i :: 0 <= i < |w| && w[i].Receive? && Create in w[i].ops
  {
    DeliveredIsWindow(run, path);
    UnionHas(Window(run[..|run| - 1], path), Create);
  }

  /** The event that goes out for a flushed path: Markdown files that can be
      parsed are indexed again and say so, other files are not reported at all. */
  function Emitted(ops: set<Op>, isMarkdown: bool, parses: bool): Report {
    var report := ReportOf(ops);
    if report == Nothing || !isMarkdown then Nothing
    else if report != FileRemoved && parses then IndexUpdated
    else report
  }

  /** Whether a window holds an event of one of some kinds. */
  ghost predicate Came(window: seq<Input>, kinds: set<Op>) {
    exists i, op :: 0 <= i < |window| && window[i].Receive? && op in window[i].ops && op in kinds
  }

  lemma {:induction false} UnionCame(window: seq<Input>, kinds: set<Op>)
    ensures Came(window, kinds) <==> exists op :: op in Union(window) && op in kinds
  {
    if Came(window, kinds) {
      var i, op :| 0 <= i < |window| && window[i].Receive? && op in window[i].ops && op in kinds;
      UnionHas(window, op);
    }
    forall op | op in Union(window) && op in kinds ensures Came(window, kinds) {
      UnionHas(window, op);
    }
  }

  /** What the outside hears of a flushed path, from the events of its window: a
      Markdown file that was created or written is reported as indexed if it parses,
      and by the name of the strongest event if not; a removal is reported only if
      nothing was created or written; nothing else is heard of. */
  lemma {:induction false} EmittedIff(run: seq<Input>, path: string, isMarkdown: bool, parses: bool)
    requires path in Delivered(run)
    ensures var w, report := Window(run[..|run| - 1], path), Emitted(Delivered(run)[path].ops, isMarkdown, parses);
      && (report == IndexUpdated <==> isMarkdown && parses && Came(w, {Create, Write}))
      && (report == FileAdded <==> isMarkdown && !parses && Came(w, {Create}))
      && (report == FileChanged <==> isMarkdown && !parses && Came(w, {Write}) && !Came(w, {Create}))
      && (report == FileRemoved <==> isMarkdown && Came(w, {Remove, Rename}) && !Came(w, {Create, Write}))
      && (report == Nothing <==> !isMarkdown || !Came(w, {Create, Write, Remove, Rename}))
  {
    var w := Window(run[..|run| - 1], path);
    DeliveredIsWindow(run, path);
    UnionCame(w, {Create});
    UnionCame(w, {Write});
    UnionCame(w, {Create, Write});
    UnionCame(w, {Remove, Rename});
    UnionCame(w, {Create, Write, Remove, Rename});
  }
}
