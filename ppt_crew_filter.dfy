/**
 * `_filter_content_for_topic` of the PPT crew: the syllabus lines relevant to
 * a topic. A line is relevant when it contains a word of the topic; once one
 * is found, the non-blank lines after it are kept as context, and the scan
 * stops when a context line takes the count above 20.
 */
module PptCrewFilter {
  import opened Text

  const ContextLimit := 20

  const FallbackChars := 2000

  /** A line matches when it contains, ignoring case, a whitespace-separated word of the topic. */
  predicate Matches(line: string, keywords: seq<string>)
  {
    ContainsAnyFrom(Lower(line), keywords, 0)
  }

  function Keywords(topic: string): seq<string>
  {
    SplitWs(Lower(topic))
  }

  /** The positions of the lines kept so far, and whether the loop has stopped. */
  datatype Filter = Filter(kept: seq<nat>, stopped: bool)

  /** The state of the loop after the first k lines; once stopped, it stays as it was. */
  function FilterUpTo(lines: seq<string>, keywords: seq<string>, k: nat): Filter
    requires k <= |lines|
  {
    if k == 0 then Filter([], false)
    else
      var f := FilterUpTo(lines, keywords, k - 1);
      if f.stopped then f
      else if Matches(lines[k - 1], keywords) then Filter(f.kept + [k - 1], false)
      else if f.kept != [] && Strip(lines[k - 1]) != [] then Filter(f.kept + [k - 1], |f.kept| + 1 > ContextLimit)
      else f
  }

  predicate Below(kept: seq<nat>, n: nat)
  {
    forall j :: 0 <= j < |kept| ==> kept[j] < n
  }

  /** The lines at the given positions. */
  function Select(lines: seq<string>, kept: seq<nat>): (r: seq<string>)
    requires Below(kept, |lines|)
    ensures |r| == |kept|
    ensures forall j :: 0 <= j < |kept| ==> r[j] == lines[kept[j]]
  {
    if kept == [] then [] else Select(lines, kept[..|kept| - 1]) + [lines[kept[|kept| - 1]]]
  }

  /** The filtered text: the kept lines joined by newlines, or the first 2000 characters. */
  function FilteredContent(content: string, topic: string): string
  {
    var lines := SplitOn(content, '\n');
    var f := FilterUpTo(lines, Keywords(topic), |lines|);
    FilterShape(lines, Keywords(topic), |lines|);
    if f.kept != [] then Join(Select(lines, f.kept), "\n") else Prefix(content, FallbackChars)
  }

  /** `_filter_content_for_topic`. */
  method FilterContentForTopic(content: string, topic: string) returns (r: string)
    ensures r == FilteredContent(content, topic)
  {
    var lines := SplitOn(content, '\n');
    var relevant := RelevantLines(lines, Keywords(topic));
    FilterShape(lines, Keywords(topic), |lines|);
    r := if relevant != [] then Join(relevant, "\n") else Prefix(content, FallbackChars);
  }

  /** The line loop of `_filter_content_for_topic`, with its early break. */
  method RelevantLines(lines: seq<string>, keywords: seq<string>) returns (relevant: seq<string>)
    ensures Below(FilterUpTo(lines, keywords, |lines|).kept, |lines|)
    ensures relevant == Select(lines, FilterUpTo(lines, keywords, |lines|).kept)
  {
    assert FilterUpTo(lines, keywords, 0) == Filter([], false);
    assert Select(lines, []) == [];
    hide FilterUpTo, Select, Matches, Strip;
    relevant := [];
    var k := 0;
    while k < |lines|
      invariant 0 <= k <= |lines|
      invariant !FilterUpTo(lines, keywords, k).stopped
      invariant Below(FilterUpTo(lines, keywords, k).kept, |lines|)
      invariant relevant == Select(lines, FilterUpTo(lines, keywords, k).kept)
    {
      var stop;
      relevant, stop := FilterLine(lines, keywords, k, relevant);
      if stop {
        StoppedStays(lines, keywords, k + 1, |lines|);
        return;
      }
      k := k + 1;
    }
  }

  /** One pass of the line loop: the line is kept when it matches, or as context after a match. */
  method FilterLine(lines: seq<string>, keywords: seq<string>, k: nat, relevant: seq<string>) returns (next: seq<string>, stop: bool)
    requires k < |lines|
    requires !FilterUpTo(lines, keywords, k).stopped && Below(FilterUpTo(lines, keywords, k).kept, |lines|)
    requires relevant == Select(lines, FilterUpTo(lines, keywords, k).kept)
    ensures Below(FilterUpTo(lines, keywords, k + 1).kept, |lines|)
    ensures next == Select(lines, FilterUpTo(lines, keywords, k + 1).kept)
    ensures stop == FilterUpTo(lines, keywords, k + 1).stopped
  {
    hide FilterUpTo, Select, Matches, Strip;
    var line := lines[k];
    var isMatch := Matches(line, keywords);
    var isContext := !isMatch && |relevant| > 0 && |Strip(line)| > 0;
    next := if isMatch || isContext then relevant + [line] else relevant;
    FilterStep(lines, keywords, k, relevant, next);
    stop := isContext && |next| > ContextLimit;
  }

  /** One pass of the line loop follows FilterUpTo. */
  lemma FilterStep(lines: seq<string>, keywords: seq<string>, k: nat, relevant: seq<string>, next: seq<string>)
    requires k < |lines|
    requires !FilterUpTo(lines, keywords, k).stopped && Below(FilterUpTo(lines, keywords, k).kept, |lines|)
    requires relevant == Select(lines, FilterUpTo(lines, keywords, k).kept)
    requires next == if Matches(lines[k], keywords) || (relevant != [] && Strip(lines[k]) != []) then relevant + [lines[k]] else relevant
    ensures Below(FilterUpTo(lines, keywords, k + 1).kept, |lines|)
    ensures next == Select(lines, FilterUpTo(lines, keywords, k + 1).kept)
    ensures FilterUpTo(lines, keywords, k + 1).stopped <==>
      !Matches(lines[k], keywords) && relevant != [] && Strip(lines[k]) != [] && |next| > ContextLimit
  {
    hide Matches, Strip;
    var f := FilterUpTo(lines, keywords, k);
    var g := FilterUpTo(lines, keywords, k + 1);
    if g.kept != f.kept {
      assert g.kept == f.kept + [k];
      assert g.kept[..|g.kept| - 1] == f.kept;
    }
  }

  // ----- what the filter promises -----

  /** The kept positions lie among the lines read, in increasing order; the loop stops only past the limit. */
  lemma {:induction false} FilterShape(lines: seq<string>, keywords: seq<string>, k: nat)
    requires k <= |lines|
    ensures var f := FilterUpTo(lines, keywords, k);
      && Below(f.kept, k)
      && (forall i, j :: 0 <= i < j < |f.kept| ==> f.kept[i] < f.kept[j])
      && (f.stopped ==> |f.kept| > ContextLimit)
  {
    hide Matches;
    if k > 0 {
      FilterShape(lines, keywords, k - 1);
    }
  }

  /** After the loop has stopped, later lines change nothing. */
  lemma {:induction false} StoppedStays(lines: seq<string>, keywords: seq<string>, k: nat, n: nat)
    requires k <= n <= |lines|
    requires FilterUpTo(lines, keywords, k).stopped
    ensures FilterUpTo(lines, keywords, n) == FilterUpTo(lines, keywords, k)
    decreases n - k
  {
    hide Matches;
    if n > k {
      StoppedStays(lines, keywords, k, n - 1);
    }
  }

  /** Some line before i matches. */
  ghost predicate MatchBefore(lines: seq<string>, keywords: seq<string>, i: nat)
    requires i <= |lines|
  {
    exists j :: 0 <= j < i && Matches(lines[j], keywords)
  }

  /**
   * Until the loop stops, a line is kept exactly when it matches, or when it
   * is non-blank and some earlier line matched; in particular no line
   * before the first matching one is kept.
   */
  lemma {:induction false} FilterKeeps(lines: seq<string>, keywords: seq<string>, k: nat)
    requires k <= |lines|
    requires !FilterUpTo(lines, keywords, k).stopped
    ensures forall i :: 0 <= i < k ==>
      (i in FilterUpTo(lines, keywords, k).kept <==>
        Matches(lines[i], keywords) || (Strip(lines[i]) != [] && MatchBefore(lines, keywords, i)))
    ensures FilterUpTo(lines, keywords, k).kept != [] <==> MatchBefore(lines, keywords, k)
  {
    hide Matches;
    if k > 0 {
      var f := FilterUpTo(lines, keywords, k - 1);
      assert !f.stopped;
      FilterKeeps(lines, keywords, k - 1);
      FilterShape(lines, keywords, k - 1);
      var g := FilterUpTo(lines, keywords, k);
      forall i | 0 <= i < k
        ensures i in g.kept <==> Matches(lines[i], keywords) || (Strip(lines[i]) != [] && MatchBefore(lines, keywords, i))
      {
        if i < k - 1 {
          assert i in g.kept <==> i in f.kept;
        } else {
          assert (k - 1 in f.kept) == false;
        }
      }
      if MatchBefore(lines, keywords, k - 1) {
        var j :| 0 <= j < k - 1 && Matches(lines[j], keywords);
        assert 0 <= j < k && Matches(lines[j], keywords);
      }
      if Matches(lines[k - 1], keywords) {
        assert 0 <= k - 1 < k && Matches(lines[k - 1], keywords);
      }
      if MatchBefore(lines, keywords, k) && !Matches(lines[k - 1], keywords) {
        var j :| 0 <= j < k && Matches(lines[j], keywords);
        assert j < k - 1;
      }
    }
  }

  /** The first kept line is the first line that matches. */
  lemma FirstKeptMatches(lines: seq<string>, keywords: seq<string>, k: nat)
    requires k <= |lines|
    requires FilterUpTo(lines, keywords, k).kept != []
    ensures var p := FilterUpTo(lines, keywords, k).kept[0];
      p < k && Matches(lines[p], keywords) && forall i :: 0 <= i < p ==> !Matches(lines[i], keywords)
  {
    FirstKeptMatchesAt(lines, keywords, k);
  }

  lemma {:induction false} FirstKeptMatchesAt(lines: seq<string>, keywords: seq<string>, k: nat)
    requires k <= |lines|
    requires FilterUpTo(lines, keywords, k).kept != []
    ensures var p := FilterUpTo(lines, keywords, k).kept[0];
      p < k && Matches(lines[p], keywords) && forall i :: 0 <= i < p ==> !Matches(lines[i], keywords)
  {
    hide Matches;
    var f := FilterUpTo(lines, keywords, k - 1);
    if f.kept != [] {
      FirstKeptMatchesAt(lines, keywords, k - 1);
      var g := FilterUpTo(lines, keywords, k);
      assert g.kept[0] == f.kept[0];
    } else {
      NothingKeptNoMatch(lines, keywords, k - 1);
    }
  }

  /** While nothing is kept, no line read so far matched. */
  lemma {:induction false} NothingKeptNoMatch(lines: seq<string>, keywords: seq<string>, k: nat)
    requires k <= |lines|
    requires FilterUpTo(lines, keywords, k).kept == []
    ensures forall i :: 0 <= i < k ==> !Matches(lines[i], keywords)
  {
    hide Matches;
    if k > 0 {
      FilterShape(lines, keywords, k - 1);
      assert FilterUpTo(lines, keywords, k - 1).kept == [];
      NothingKeptNoMatch(lines, keywords, k - 1);
    }
  }

  /** A stop happens on a non-blank line that does not match, once more than 20 lines are kept. */
  lemma {:induction false} StopIsContextLine(lines: seq<string>, keywords: seq<string>, k: nat)
    requires k <= |lines|
    requires FilterUpTo(lines, keywords, k).stopped
    ensures var kept := FilterUpTo(lines, keywords, k).kept;
      && |kept| > ContextLimit && kept[|kept| - 1] < |lines|
      && !Matches(lines[kept[|kept| - 1]], keywords) && Strip(lines[kept[|kept| - 1]]) != []
  {
    hide Matches;
    FilterShape(lines, keywords, k);
    if FilterUpTo(lines, keywords, k - 1).stopped {
      StopIsContextLine(lines, keywords, k - 1);
    }
  }

  /** With no relevant line, the result is the first 2000 characters of the syllabus. */
  lemma NoMatchGivesPrefix(content: string, topic: string)
    requires forall i :: 0 <= i < |SplitOn(content, '\n')| ==> !Matches(SplitOn(content, '\n')[i], Keywords(topic))
    ensures FilteredContent(content, topic) == Prefix(content, FallbackChars)
  {
    var lines := SplitOn(content, '\n');
    var kws := Keywords(topic);
    var f := FilterUpTo(lines, kws, |lines|);
    if f.kept != [] {
      FirstKeptMatches(lines, kws, |lines|);
      assert false;
    }
  }
}
