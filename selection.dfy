/**
 * The selection range that highlights one finding in the text area: a window of
 * ten characters either side of the position, widened to whole words, and cut
 * back to five characters either side when the widened span is too long.
 */
module Selection {
  import opened Wrappers
  import opened Text

  /** The longest selection the highlighter keeps (`maxWordLength`). */
  const MaxWordLength: nat := 20

  /** `Math.max(0, position - maxWordLength / 2)`. */
  function WindowStart(p: nat): nat {
    if p >= MaxWordLength / 2 then p - MaxWordLength / 2 else 0
  }

  /** `Math.min(text.length, position + 1 + maxWordLength / 2)`. */
  function WindowEnd(len: nat, p: nat): nat {
    if p + 1 + MaxWordLength / 2 <= len then p + 1 + MaxWordLength / 2 else len
  }

  /** The initial window, widened left and right to the nearest whitespace or text end. */
  function Expanded(text: string, p: nat): (r: Span)
    requires p < |text|
    ensures r.start <= WindowStart(p) && r.start <= p
    ensures p < WindowEnd(|text|, p) <= r.end <= |text|
    ensures r.start == 0 || IsSpace(text[r.start - 1])
    ensures r.end == |text| || IsSpace(text[r.end])
    ensures NoSpaceIn(text, r.start, WindowStart(p)) && NoSpaceIn(text, WindowEnd(|text|, p), r.end)
  {
    Span(SkipWordBack(text, WindowStart(p)), SkipWord(text, WindowEnd(|text|, p)))
  }

  /** The short window of five characters before and five after the position. */
  function Fallback(len: nat, p: nat): Span {
    Span(if p >= 5 then p - 5 else 0, if p + 6 <= len then p + 6 else len)
  }

  /**
   * The left boundary is the nearest one: any start at or before the window
   * start that follows whitespace (or is 0) with no whitespace up to the window
   * is the one the loop stops at.
   */
  lemma {:induction false} WordStartIsNearest(text: string, s: nat, r: nat)
    requires r <= s <= |text|
    requires r == 0 || IsSpace(text[r - 1])
    requires NoSpaceIn(text, r, s)
    ensures SkipWordBack(text, s) == r
    decreases s
  {
    if s > r {
      WordStartIsNearest(text, s - 1, r);
    }
  }

  /** Symmetrically, the right boundary is the first whitespace at or after the window end. */
  lemma {:induction false} WordEndIsNearest(text: string, e: nat, r: nat)
    requires e <= r <= |text|
    requires r == |text| || IsSpace(text[r])
    requires NoSpaceIn(text, e, r)
    ensures SkipWord(text, e) == r
    decreases r - e
  {
    if e < r {
      WordEndIsNearest(text, e + 1, r);
    }
  }

  /**
   * At least 10 characters from both ends of the text the starting window is
   * not clamped and is 21 wide, so the widened span always exceeds 20 and the
   * short window is selected.
   */
  lemma InteriorPositionFallsBack(text: string, p: nat)
    requires MaxWordLength / 2 <= p && p + 1 + MaxWordLength / 2 <= |text|
    ensures Expanded(text, p).end - Expanded(text, p).start > MaxWordLength
  {
    assert WindowEnd(|text|, p) - WindowStart(p) == MaxWordLength + 1;
  }

  /**
   * The range `highlightPositionInText` selects for `position`, or `None` when
   * the position is outside the text (the source then selects nothing). The
   * result always contains the position and is at most 20 characters long; it
   * is the word-aligned span unless that is longer than 20, and then the short
   * window around the position. The starting window is already 21 wide when it
   * is not clamped, so the word-aligned span is kept only for positions within
   * 10 characters of an end of the text (`InteriorPositionFallsBack`).
   */
  method SelectionRange(text: string, position: int) returns (sel: Option<Span>)
    ensures sel.Some? <==> 0 <= position < |text|
    ensures sel.Some? ==> sel.value.start <= position < sel.value.end <= |text|
    ensures sel.Some? ==> sel.value.end - sel.value.start <= MaxWordLength
    ensures sel.Some? ==>
      var x := Expanded(text, position);
      sel.value == (if x.end - x.start > MaxWordLength then Fallback(|text|, position) else x)
  {
    if !(0 <= position < |text|) {
      return None;
    }
    var p: nat := position;
    var startPos: nat := WindowStart(p);
    var endPos: nat := WindowEnd(|text|, p);
    ghost var s0: nat, e0: nat := startPos, endPos;

    while startPos > 0 && !IsSpace(text[startPos - 1])
      invariant startPos <= s0
      invariant SkipWordBack(text, startPos) == SkipWordBack(text, s0)
    {
      startPos := startPos - 1;
    }

    while endPos < |text| && !IsSpace(text[endPos])
      invariant e0 <= endPos <= |text|
      invariant SkipWord(text, endPos) == SkipWord(text, e0)
      decreases |text| - endPos
    {
      endPos := endPos + 1;
    }

    if endPos - startPos > MaxWordLength {
      startPos := if p >= 5 then p - 5 else 0;
      endPos := if p + 6 <= |text| then p + 6 else |text|;
    }
    sel := Some(Span(startPos, endPos));
  }
}
