/** Header groups: `strip_rtf` steps over them, however deeply they nest. */
module RtfGroups {
  import opened Options
  import opened Text
  import opened RtfDecoder
  import opened Braces

  /** Inside a skipped group nothing but braces matters. */
  function SkipStep(chars: string, s: State): State
    requires s.i < |chars|
  {
    if chars[s.i] == '{' then
      s.(i := s.i + 1, depth := s.depth + 1)
    else if chars[s.i] == '}' && s.depth > 0 then
      s.(i := s.i + 1, depth := s.depth - 1, skipDepth := if s.skipDepth == Some(s.depth) then None else s.skipDepth)
    else
      s.(i := s.i + 1)
  }

  /** The rounds until the skipped group is closed, or to the end. */
  function SkipLoop(chars: string, s: State): State
    requires s.i <= |chars|
    decreases |chars| - s.i
  {
    if s.i == |chars| || s.skipDepth.None? then s else SkipLoop(chars, SkipStep(chars, s))
  }

  lemma SkipStepIsStep(chars: string, s: State)
    requires s.i < |chars| && s.skipDepth.Some? && s.skipDepth.value >= 1
    ensures Step(chars, s) == SkipStep(chars, s)
  {
  }

  lemma {:induction false} LoopSkips(chars: string, s: State)
    requires s.i <= |chars| && (s.skipDepth.Some? ==> s.skipDepth.value >= 1)
    ensures SkipLoop(chars, s).i <= |chars| && Loop(chars, s) == Loop(chars, SkipLoop(chars, s))
    decreases |chars| - s.i
  {
    if s.i < |chars| && s.skipDepth.Some? {
      SkipStepIsStep(chars, s);
      LoopSkips(chars, SkipStep(chars, s));
    }
  }

  lemma {:induction false} SkipLoopClosesGroup(chars: string, s: State, open: nat)
    requires s.i <= |chars| && open >= 1
    requires s.skipDepth.Some? && s.skipDepth.value >= 1 && s.depth == s.skipDepth.value + open - 1
    ensures match GroupEnd(chars, '{', '}', s.i, open)
            case Some(end) => SkipLoop(chars, s) == s.(i := end, depth := s.skipDepth.value - 1, skipDepth := None)
            case None => SkipLoop(chars, s).i == |chars| && SkipLoop(chars, s).out == s.out
    decreases |chars| - s.i
  {
    if s.i < |chars| {
      var next := SkipStep(chars, s);
      if chars[s.i] == '{' {
        SkipLoopClosesGroup(chars, next, open + 1);
      } else if chars[s.i] != '}' {
        SkipLoopClosesGroup(chars, next, open);
      } else if open > 1 {
        SkipLoopClosesGroup(chars, next, open - 1);
      }
    }
  }

  /** The state behind the brace that opens the group. */
  function Entered(s: State): State {
    s.(i := s.i + 1, depth := s.depth + 1, skipDepth := Some(s.depth + 1))
  }

  lemma SkippingEnds(chars: string, s: State)
    requires s.i < |chars| && s.skipDepth.None?
    ensures match GroupEnd(chars, '{', '}', s.i + 1, 1)
            case Some(end) => SkipLoop(chars, Entered(s)) == s.(i := end)
            case None => SkipLoop(chars, Entered(s)).i == |chars| && SkipLoop(chars, Entered(s)).out == s.out
  {
    SkipLoopClosesGroup(chars, Entered(s), 1);
  }

  lemma StepEnters(chars: string, s: State)
    requires s.i < |chars| && s.skipDepth.None? && OpensSkippedGroup(chars, s.i)
    ensures Step(chars, s) == Entered(s)
  {
  }

  lemma LoopEnters(chars: string, s: State)
    requires s.i < |chars| && s.skipDepth.None? && OpensSkippedGroup(chars, s.i)
    ensures Loop(chars, s) == Loop(chars, Entered(s))
  {
    StepEnters(chars, s);
    LoopStep(chars, s, Entered(s));
  }

  lemma LoopStaysAtEnd(chars: string, s: State)
    requires s.i == |chars|
    ensures Loop(chars, s) == s
  {
  }

  /** The loop from the opening brace, told by where the rounds inside the group end. */
  lemma LoopAfterSkipping(chars: string, s: State, after: State)
    requires s.i < |chars| && s.skipDepth.None? && OpensSkippedGroup(chars, s.i)
    requires SkipLoop(chars, Entered(s)) == after && after.i <= |chars|
    ensures Loop(chars, s) == Loop(chars, after)
  {
    LoopEnters(chars, s);
    LoopSkips(chars, Entered(s));
  }

  /**
   From any state at the brace that opens a skippable group, the loop comes to the position after the matching
   brace with nothing else changed: output, depth, fallback count and pending surrogate. A group that is never
   closed swallows the rest of the document.
   */
  lemma SkippedGroupIsSteppedOver(chars: string, s: State)
    requires s.i < |chars| && s.skipDepth.None? && OpensSkippedGroup(chars, s.i)
    ensures match GroupEnd(chars, '{', '}', s.i + 1, 1)
            case Some(end) => Loop(chars, s) == Loop(chars, s.(i := end))
            case None => Loop(chars, s).out == s.out
  {
    SkippingEnds(chars, s);
    match GroupEnd(chars, '{', '}', s.i + 1, 1) {
      case Some(end) => LoopAfterSkipping(chars, s, s.(i := end));
      case None =>
        var after := SkipLoop(chars, Entered(s));
        LoopAfterSkipping(chars, s, after);
        LoopStaysAtEnd(chars, after);
    }
  }
}
