/**
 * The pieces of Python's `re` engine the prompt parsers use, for patterns
 * whose matches can be described position by position: `re.search` is the
 * least start position at which the pattern matches, `re.finditer` repeats
 * the search from the end of each match, and the recurring sub-pattern
 * `\s*([^\n]+)` is resolved with the engine's backtracking order.
 */
module Scan {
  import opened Wrappers
  import opened Text

  /** The least k with i <= k <= n for which p holds. */
  function FirstFrom(n: nat, p: nat -> bool, i: nat): (r: Option<nat>)
    ensures r.Some? ==> i <= r.value <= n && p(r.value)
    ensures r.Some? ==> forall k :: i <= k < r.value ==> !p(k)
    ensures r.None? ==> forall k :: i <= k <= n ==> !p(k)
    decreases n + 1 - i
  {
    if i > n then None else if p(i) then Some(i) else FirstFrom(n, p, i + 1)
  }

  /** The least k with i <= k <= n for which p holds, when p holds at n (the pattern can match at the end). */
  function FirstTo(n: nat, p: nat -> bool, i: nat): (r: nat)
    requires i <= n && p(n)
    ensures i <= r <= n && p(r)
    ensures forall k :: i <= k < r ==> !p(k)
    decreases n - i
  {
    if p(i) then i else FirstTo(n, p, i + 1)
  }

  /** No position before the one reported satisfies p. */
  lemma FirstFromBefore(n: nat, p: nat -> bool, i: nat, k: nat)
    requires FirstFrom(n, p, i).Some? && i <= k < FirstFrom(n, p, i).value
    ensures !p(k)
  {
  }

  /** When the search fails, p holds nowhere. */
  lemma FirstFromNoneAt(n: nat, p: nat -> bool, i: nat, k: nat)
    requires FirstFrom(n, p, i).None? && i <= k <= n
    ensures !p(k)
  {
  }

  /** The search reports exactly the least matching position. */
  lemma FirstFromIsLeast(n: nat, p: nat -> bool, i: nat, k: nat)
    requires i <= k <= n && p(k)
    requires forall j :: i <= j < k ==> !p(j)
    ensures FirstFrom(n, p, i) == Some(k)
  {
  }

  /**
   * `re.finditer` for a pattern that never matches the empty string: `at(k)`
   * is the match that starts at k, if any, and `endOf` is where it ends.
   */
  function FindAll<T>(n: nat, at: nat -> Option<T>, endOf: T -> nat, from: nat): (r: seq<T>)
    requires forall k :: from <= k <= n && at(k).Some? ==> k < endOf(at(k).value) <= n
    ensures forall j :: 0 <= j < |r| ==> exists k :: from <= k <= n && at(k) == Some(r[j])
    decreases n + 1 - from
  {
    match FirstFrom(n, (k: nat) => at(k).Some?, from)
    case None => []
    case Some(k) =>
      var h := at(k).value;
      var rest := FindAll(n, at, endOf, endOf(h));
      assert forall j :: 0 <= j < |rest| ==> exists m :: from <= m <= n && at(m) == Some(rest[j]);
      [h] + rest
  }

  /** A match that runs to the end of the text is the last one `re.finditer` reports. */
  lemma FindAllLastAtEnd<T>(n: nat, at: nat -> Option<T>, endOf: T -> nat, from: nat)
    requires forall k :: from <= k <= n && at(k).Some? ==> k < endOf(at(k).value) <= n
    requires forall k :: from <= k <= n && at(k).Some? ==> endOf(at(k).value) == n
    ensures |FindAll(n, at, endOf, from)| <= 1
  {
    match FirstFrom(n, (k: nat) => at(k).Some?, from)
    case None =>
    case Some(k) =>
      var h := at(k).value;
      assert endOf(h) == n;
      assert FirstFrom(n, (k: nat) => at(k).Some?, n) == None;
  }

  datatype Span = Span(start: nat, end: nat)

  /** The digits s[b..e] as `int()` reads them. */
  function DigitsValue(s: string, b: nat, e: nat): nat
    requires b <= e <= |s|
    requires forall k :: b <= k < e ==> IsDigit(s[k])
  {
    assert AllDigits(s[b..e]);
    ParseDigits(s[b..e])
  }

  /** A digit run that stops at a non-digit is what `DigitEnd` reports. */
  lemma DigitEndIs(s: string, i: nat, e: nat)
    requires i <= e <= |s|
    requires forall k :: i <= k < e ==> IsDigit(s[k])
    requires e == |s| || !IsDigit(s[e])
    ensures DigitEnd(s, i) == e
  {
  }

  /** A whitespace run that stops at a non-space is what `SpaceEnd` reports. */
  lemma SpaceEndIs(s: string, i: nat, e: nat)
    requires i <= e <= |s|
    requires forall k :: i <= k < e ==> IsSpace(s[k])
    requires e == |s| || !IsSpace(s[e])
    ensures SpaceEnd(s, i) == e
  {
  }

  /** The text from position j to the end of its line. */
  lemma LineEndIs(s: string, i: nat, e: nat)
    requires i <= e <= |s|
    requires forall k :: i <= k < e ==> s[k] != '\n'
    requires e == |s| || s[e] == '\n'
    ensures LineEnd(s, i) == e
  {
  }

  /**
   * `\s*([^\n]+)` at position p: the group. The greedy `\s*` stops at the
   * first non-space, and the group is the rest of that line; when only
   * whitespace is left the engine gives back one whitespace character at a
   * time until the group can start on a character that is not '\n'.
   */
  function LineGroupAt(s: string, p: nat): (r: Option<Span>)
    requires p <= |s|
    ensures r.Some? ==> p <= r.value.start < r.value.end <= |s| && r.value.end == LineEnd(s, r.value.start)
    ensures r.Some? ==> forall k :: r.value.start <= k < r.value.end ==> s[k] != '\n'
    ensures r.Some? ==> forall k :: p <= k < r.value.start ==> IsSpace(s[k])
    ensures SpaceEnd(s, p) < |s| ==> r == Some(Span(SpaceEnd(s, p), LineEnd(s, SpaceEnd(s, p))))
    ensures r.None? <==> forall k :: p <= k < |s| ==> s[k] == '\n'
  {
    var j := SpaceEnd(s, p);
    if j < |s| then Some(Span(j, LineEnd(s, j))) else GiveBack(s, p, j)
  }

  /** The backtracking of `\s*` over trailing whitespace s[p..j]. */
  function GiveBack(s: string, p: nat, j: nat): (r: Option<Span>)
    requires p <= j <= |s|
    requires forall k :: p <= k < j ==> IsSpace(s[k])
    requires forall k :: j <= k < |s| ==> s[k] == '\n'
    ensures r.Some? ==> p <= r.value.start < r.value.end <= |s| && r.value.end == LineEnd(s, r.value.start)
    ensures r.Some? ==> forall k :: p <= k < r.value.start ==> IsSpace(s[k])
    ensures r.None? <==> forall k :: p <= k < |s| ==> s[k] == '\n'
    decreases j
  {
    if j == p then None
    else if s[j - 1] != '\n' then Some(Span(j - 1, LineEnd(s, j - 1)))
    else GiveBack(s, p, j - 1)
  }

  /** The group of `\s*([^\n]+)` at p, as text. */
  function LineGroupText(s: string, p: nat): (r: Option<string>)
    requires p <= |s|
    ensures r.Some? ==> r.value != [] && '\n' !in r.value
  {
    match LineGroupAt(s, p)
    case None => None
    case Some(g) =>
      var t := s[g.start..g.end];
      assert t[0] == s[g.start];
      assert forall k :: 0 <= k < |t| ==> t[k] != '\n';
      Some(t)
  }

  /**
   * `Label\s*([^\n]+)` searched with IGNORECASE (`lit` in lower case):
   * the group of the first occurrence that matches.
   */
  function LabelValue(s: string, lit: string): (r: Option<string>)
    ensures r.Some? ==> r.value != [] && '\n' !in r.value
  {
    match FirstFrom(|s|, k => StartsAtCI(s, k, lit) && LineGroupAt(s, k + |lit|).Some?, 0)
    case None => None
    case Some(k) => LineGroupText(s, k + |lit|)
  }

  /** `$` without MULTILINE: the end of the text, or just before a final '\n'. */
  predicate DollarAt(s: string, q: nat)
  {
    q == |s| || (q + 1 == |s| && s[q] == '\n')
  }

  /** `slide\s+(\d+)` at i, IGNORECASE: the digit group. */
  function SlideNumberAt(s: string, i: nat): (r: Option<Span>)
    ensures r.Some? ==> i + 5 < r.value.start < r.value.end <= |s|
    ensures r.Some? ==> forall k :: r.value.start <= k < r.value.end ==> IsDigit(s[k])
    ensures r.Some? ==> r.value.end == |s| || !IsDigit(s[r.value.end])
  {
    if StartsAtCI(s, i, "slide") then
      var b := SpaceEnd(s, i + 5);
      if b > i + 5 && b < |s| && IsDigit(s[b]) then Some(Span(b, DigitEnd(s, b))) else None
    else None
  }

  /** `Slide\s+(\d+):` at i, IGNORECASE: the slide number and the end of the match. */
  function SlideHeaderAt(s: string, i: nat): (r: Option<(nat, nat)>)
    ensures r.Some? ==> i < r.value.1 <= |s|
  {
    match SlideNumberAt(s, i)
    case None => None
    case Some(g) =>
      if g.end < |s| && s[g.end] == ':' then Some((DigitsValue(s, g.start, g.end), g.end + 1)) else None
  }

  /** `re.match(r'^\s*Slide\s+\d+:', t, re.IGNORECASE)`. */
  predicate StartsWithSlideHeader(t: string)
  {
    SlideHeaderAt(t, SpaceEnd(t, 0)).Some?
  }
}
