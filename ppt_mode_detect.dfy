/**
 * `_detect_ppt_mode` of the PPT generator agent: one of five modes, chosen by
 * markers in the lower-cased prompt in a fixed priority order.
 */
module PptModeDetect {
  import opened Text
  import opened Scan

  datatype PptMode = Mode1 | Mode2 | Mode3 | Mode4 | Mode5

  /** `slide\s+\d+.*?content:` (DOTALL) at i: "content:" anywhere after the first digit. */
  predicate SlideThenContentAt(low: string, i: nat)
  {
    match SlideNumberAt(low, i)
    case None => false
    case Some(g) => FindFrom(low, "content:", g.start + 1) >= 0
  }

  /** `slide\s+titles?\s*:` at i (case-sensitive, on the lower-cased prompt). */
  predicate SlideTitlesColonAt(low: string, i: nat)
  {
    StartsAt(low, i, "slide")
    && var b := SpaceEnd(low, i + 5);
    b > i + 5 && StartsAt(low, b, "title")
    && var c := b + 5;
    if c < |low| && low[c] == 's' then
      var d := SpaceEnd(low, c + 1);
      d < |low| && low[d] == ':'
    else
      var d := SpaceEnd(low, c);
      d < |low| && low[d] == ':'
  }

  predicate HasSlideTitlesColon(low: string)
  {
    exists i :: 0 <= i <= |low| && SlideTitlesColonAt(low, i)
  }

  /** The three conditions of Mode 3, with the redundant alternatives dropped. */
  predicate Mode3Markers(low: string)
  {
    Contains(low, "exact content")
    && (Contains(low, "do not modify") || Contains(low, "don't modify"))
    && Contains(low, "content:")
  }

  predicate Mode2Markers(low: string)
  {
    HasSlideTitlesColon(low) || Contains(low, "slide structure:")
  }

  /**
   * The detector. The source's explicit Mode 1 markers ("default slide
   * structure", "generate all slide titles", ...) select Mode 1, which is also
   * the fallback, so they do not change the result.
   */
  function DetectPptMode(prompt: string): (m: PptMode)
    ensures prompt == [] ==> m == Mode1
    ensures m == Mode3 <==> Mode3Markers(Lower(prompt))
    ensures m == Mode5 <==> !Mode3Markers(Lower(prompt)) && Contains(Lower(prompt), "slide instructions:")
    ensures m == Mode4 <==>
      !Mode3Markers(Lower(prompt)) && !Contains(Lower(prompt), "slide instructions:")
      && Contains(Lower(prompt), "image placement:")
    ensures m == Mode2 <==>
      !Mode3Markers(Lower(prompt)) && !Contains(Lower(prompt), "slide instructions:")
      && !Contains(Lower(prompt), "image placement:") && Mode2Markers(Lower(prompt))
    ensures m == Mode1 <==>
      !Mode3Markers(Lower(prompt)) && !Contains(Lower(prompt), "slide instructions:")
      && !Contains(Lower(prompt), "image placement:") && !Mode2Markers(Lower(prompt))
  {
    if prompt == [] then
      EmptyHasNoMarkers();
      Mode1
    else
      var low := Lower(prompt);
      var hasExact := Contains(low, "use exact content") || Contains(low, "exact content");
      var hasNoModify := Contains(low, "do not modify") || Contains(low, "don't modify");
      var hasSections := Contains(low, "content:") || exists i :: 0 <= i <= |low| && SlideThenContentAt(low, i);
      ExactMarkerSimplifies(low);
      SectionsMarkerSimplifies(low);
      if hasExact && hasNoModify && hasSections then Mode3
      else if Contains(low, "slide instructions:") then Mode5
      else if Contains(low, "image placement:") then Mode4
      else if HasSlideTitlesColon(low) || Contains(low, "slide structure:") then Mode2
      else Mode1
  }

  lemma EmptyHasNoMarkers()
    ensures !Contains(Lower([]), "content:") && !Contains(Lower([]), "slide instructions:")
    ensures !Contains(Lower([]), "image placement:") && !Contains(Lower([]), "slide structure:")
    ensures !HasSlideTitlesColon(Lower([]))
  {
  }

  /** "use exact content" contains "exact content", so the first alternative is redundant. */
  lemma ExactMarkerSimplifies(low: string)
    ensures (Contains(low, "use exact content") || Contains(low, "exact content")) <==> Contains(low, "exact content")
  {
    if Contains(low, "use exact content") {
      var k := ContainsWitness(low, "use exact content");
      assert low[k + 4..k + 17] == low[k..k + 17][4..];
      ContainsAt(low, "exact content", k + 4);
    }
  }

  /** A match of `slide\s+\d+.*?content:` ends in "content:", so the regex alternative is redundant. */
  lemma SectionsMarkerSimplifies(low: string)
    ensures (Contains(low, "content:") || exists i :: 0 <= i <= |low| && SlideThenContentAt(low, i))
      <==> Contains(low, "content:")
  {
    if exists i :: 0 <= i <= |low| && SlideThenContentAt(low, i) {
      var i :| 0 <= i <= |low| && SlideThenContentAt(low, i);
      var g := SlideNumberAt(low, i).value;
      var k := FindFrom(low, "content:", g.start + 1);
      ContainsAt(low, "content:", k);
    }
  }
}
