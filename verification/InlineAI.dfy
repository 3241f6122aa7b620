/** A transform session on one note: suggestions stream in, and only accepting or
    undoing writes the file. */
module InlineAI {
  import opened Text
  import opened Frontmatter
  import opened BodyLens

  /** A selection: location and length in character units. */
  datatype Range = Range(location: nat, length: nat)

  predicate Selects(range: Option<Range>, s: string) {
    range.Some? && range.value.length > 0 && range.value.location + range.value.length <= |s|
  }

  /** The suggestion in place of the selection, or of everything. */
  function Apply(suggestion: string, original: string, range: Option<Range>): string {
    if Selects(range, original) then
      original[..range.value.location] + suggestion + original[range.value.location + range.value.length..]
    else suggestion
  }

  function Selected(s: string, range: Option<Range>): string {
    if Selects(range, s) then s[range.value.location..range.value.location + range.value.length] else s
  }

  /** A suggestion takes the place of the selected text and leaves what stands around
      it; without a selection in the text it is everything. */
  lemma {:induction false} ApplyKeepsAround(suggestion: string, before: string, inside: string, after: string)
    ensures var s, r := before + inside + after, Some(Range(|before|, |inside|));
      && Apply(suggestion, s, r) == (if inside == "" then suggestion else before + suggestion + after)
      && Selected(s, r) == (if inside == "" then s else inside)
    ensures Apply(suggestion, before, None) == suggestion && Selected(before, None) == before
    ensures forall r: Range :: r.location + r.length > |before| ==> Apply(suggestion, before, Some(r)) == suggestion
  {
    var s := before + inside + after;
    assert s[..|before|] == before && s[|before|..|before| + |inside|] == inside;
    assert s[|before| + |inside|..] == after;
  }

  /** Putting the selected text back where the suggestion stands restores the
      original, except that an empty suggestion leaves no selection to replace: then
      only a selection of the whole text comes back. */
  lemma {:induction false} ApplyBack(suggestion: string, original: string, r: Range)
    requires Selects(Some(r), original)
    ensures
      Apply(Selected(original, Some(r)), Apply(suggestion, original, Some(r)), Some(Range(r.location, |suggestion|)))
        == original
      <==> suggestion != "" || r.length == |original|
  {
    var n := r.location;
    var before, inside, after := original[..n], original[n..n + r.length], original[n + r.length..];
    assert original == before + inside + after;
    var applied := before + suggestion + after;
    assert Apply(suggestion, original, Some(r)) == applied;
    if suggestion != "" {
      assert applied[..n] == before && applied[n + |suggestion|..] == after;
    } else {
      assert Apply(inside, applied, Some(Range(n, 0))) == inside;
      assert |inside| == r.length;
    }
  }

  datatype Phase = Idle | Streaming | Done | Failed

  /** A write of the session: the original, or the original with another body. */
  ghost predicate Rebuilt(original: string, file: string) {
    exists body :: file == Replace(original, body)
  }

  /** Every rebuilt file keeps every frontmatter field of an original on whose
      frontmatter the writer and the parser agree. */
  lemma {:induction false} RebuiltKeepsFields(original: string, file: string, k: nat)
    requires Framed(original, k) && '\r' !in original && '\r' !in file && Rebuilt(original, file)
    ensures SplitSource(file).values == SplitSource(original).values
    ensures SplitSource(file).lists == SplitSource(original).lists
  {
    var body :| file == Replace(original, body);
    var lines := Split(original, '\n');
    ReplaceIs(original, body, lines, k);
    assert forall i :: 0 <= i < |body| ==> body[i] in file;
    PutGet(original, body);
  }

  class MobileInlineAIModel {
    var phase: Phase
    var suggestion: string
    var accepted: bool
    var canUndo: bool
    const original: string

    /** The files written so far, oldest first. */
    ghost var writes: seq<string>

    /** Undo is on offer exactly while an accepted rebuild is the last write, and no
        write is anything but the original or a rebuild of it. */
    ghost predicate Valid()
      reads this
    {
      && canUndo == accepted
      && (canUndo ==> |writes| > 0 && Rebuilt(original, writes[|writes| - 1]))
      && forall i :: 0 <= i < |writes| ==> writes[i] == original || Rebuilt(original, writes[i])
    }

    constructor (original: string)
      ensures Valid() && this.original == original && writes == []
      ensures phase == Idle && suggestion == "" && !accepted
    {
      this.original := original;
      phase, suggestion, accepted, canUndo, writes := Idle, "", false, false, [];
    }

    method Start()
      requires Valid()
      modifies this
      ensures Valid() && phase == Streaming && suggestion == "" && !accepted && writes == old(writes)
    {
      phase, suggestion, accepted, canUndo := Streaming, "", false, false;
    }

    /** A streamed chunk; it may also arrive late. */
    method Receive(chunk: string)
      requires Valid()
      modifies `suggestion
      ensures Valid() && suggestion == old(suggestion) + chunk
    {
      suggestion := suggestion + chunk;
    }

    method Finish(text: string)
      requires Valid()
      modifies `phase, `suggestion
      ensures Valid() && phase == Done
      ensures suggestion == if text == "" then "_No answer received._" else old(suggestion)
    {
      if text == "" {
        suggestion := "_No answer received._";
      }
      phase := Done;
    }

    method Fail(cancelled: bool)
      requires Valid()
      modifies `phase
      ensures Valid() && phase == if cancelled then Idle else Failed
    {
      phase := if cancelled then Idle else Failed;
    }

    method DiscardResult()
      requires Valid()
      modifies `phase, `suggestion
      ensures Valid() && suggestion == "" && phase == if old(phase) == Done then Done else Idle
    {
      suggestion := "";
      if phase != Done {
        phase := Idle;
      }
    }

    /** At most one write for each result: nothing is written without a suggestion,
        or again after it was accepted, or when saving fails. */
    method Accept(currentText: string, selectedRange: Option<Range>, saves: bool)
      requires Valid()
      modifies `accepted, `canUndo, `writes
      ensures Valid()
      ensures if old(suggestion) != "" && !old(accepted) && saves
              then && accepted
                   && writes == old(writes) + [Replace(original, Apply(suggestion, currentText, selectedRange))]
              else accepted == old(accepted) && writes == old(writes)
    {
      if suggestion == "" || accepted {
        return;
      }
      var merged := Apply(suggestion, currentText, selectedRange);
      var fullFile := Replace(original, merged);
      if saves {
        writes := writes + [fullFile];
        accepted, canUndo := true, true;
      }
    }

    /** Undo writes the original, whatever the accepted text was. */
    method Undo(saves: bool)
      requires Valid()
      modifies `phase, `suggestion, `accepted, `canUndo, `writes
      ensures Valid()
      ensures if old(canUndo) && saves
              then !accepted && suggestion == "" && phase == Idle && writes == old(writes) + [original]
              else && accepted == old(accepted) && writes == old(writes)
                   && suggestion == old(suggestion) && phase == old(phase)
    {
      if !canUndo || !saves {
        return;
      }
      writes := writes + [original];
      canUndo, accepted, suggestion, phase := false, false, "", Idle;
    }
  }
}
