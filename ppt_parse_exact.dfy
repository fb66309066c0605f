/**
 * `_parse_mode_3` of the PPT generator agent: the user's exact titles and
 * bullets. It cuts the prompt into `Slide N:` blocks, reads each block on its
 * own, and sorts the results by slide number (stably, without removing
 * duplicates).
 */
module PptParseExact {
  import opened Wrappers
  import opened Text
  import opened Scan
  import opened Sorting
  import opened PptPatterns
  import opened PptModeDetect
  import opened PptSlides
  import opened PptParsed
  import opened PptBlocks

  /**
   * One content line of Mode 3: stripped; a line starting with '-' loses its
   * leading dashes and is stripped again; a line that ends up empty is dropped.
   */
  function Mode3Line(line: string): (r: Option<string>)
    ensures r.Some? ==> Tidy(r.value)
    ensures r.Some? && '\n' !in line ==> '\n' !in r.value
    ensures Strip(line) == [] ==> r.None?
    ensures Strip(line) != [] && Strip(line)[0] != '-' ==> r == Some(Strip(line))
  {
    var ls := Strip(line);
    StripKeepsOut(line, '\n');
    if ls == [] then None
    else if ls[0] == '-' then
      var d := LStripSet(ls, {'-'});
      LStripSetKeepsOut(ls, {'-'}, '\n');
      StripKeepsOut(d, '\n');
      var b := Strip(d);
      if b != [] then Some(b) else None
    else Some(ls)
  }

  /** A dash line gives back its bullet. */
  lemma Mode3DashedLine(b: string)
    requires Tidy(b)
    ensures Mode3Line("- " + b) == Some(b)
  {
    DashedLine(b);
    hide Strip, Tidy, IsStripped;
    var t := "- " + b;
    assert t[1..] == " " + b;
    assert LStripSet(" " + b, {'-'}) == " " + b;
    assert LStripSet(t, {'-'}) == " " + b;
  }

  /** The bullets the Mode 3 loop keeps of `lines`, in order. */
  function ContentLines(lines: seq<string>): (r: seq<string>)
    ensures |r| <= |lines|
    ensures forall i :: 0 <= i < |r| ==> Tidy(r[i])
    ensures (forall j :: 0 <= j < |lines| ==> '\n' !in lines[j]) ==> GoodBullets(r)
  {
    if lines == [] then []
    else
      var front := lines[..|lines| - 1];
      var rest := ContentLines(front);
      match Mode3Line(lines[|lines| - 1])
      case Some(b) =>
        ContentStep(lines, front, rest, Some(b), rest + [b]);
        rest + [b]
      case None =>
        ContentStep(lines, front, rest, None, rest);
        rest
  }

  /** One step of ContentLines keeps its contract. */
  lemma ContentStep(lines: seq<string>, front: seq<string>, rest: seq<string>, line: Option<string>, r: seq<string>)
    requires lines != [] && front == lines[..|lines| - 1] && line == Mode3Line(lines[|lines| - 1])
    requires r == if line.Some? then rest + [line.value] else rest
    requires |rest| <= |lines| - 1 && forall i :: 0 <= i < |rest| ==> Tidy(rest[i])
    requires (forall j :: 0 <= j < |front| ==> '\n' !in front[j]) ==> GoodBullets(rest)
    ensures |r| <= |lines| && forall i :: 0 <= i < |r| ==> Tidy(r[i])
    ensures (forall j :: 0 <= j < |lines| ==> '\n' !in lines[j]) ==> GoodBullets(r)
  {
    hide Tidy, Mode3Line;
    if forall j :: 0 <= j < |lines| ==> '\n' !in lines[j] {
      assert '\n' !in lines[|lines| - 1];
      forall j | 0 <= j < |front| ensures '\n' !in front[j] {
        assert front[j] == lines[j];
      }
    }
    if line.Some? {
      forall i | 0 <= i < |r| ensures Tidy(r[i]) {
        if i < |rest| { assert r[i] == rest[i]; }
      }
    }
  }

  /** Lines that each yield one bullet yield exactly those bullets. */
  lemma {:induction false} ContentLinesAllKept(lines: seq<string>, bs: seq<string>)
    requires |lines| == |bs|
    requires forall i :: 0 <= i < |lines| ==> Mode3Line(lines[i]) == Some(bs[i])
    ensures ContentLines(lines) == bs
  {
    hide Mode3Line, Tidy;
    if lines != [] {
      ContentLinesAllKept(lines[..|lines| - 1], bs[..|bs| - 1]);
      assert bs[..|bs| - 1] + [bs[|bs| - 1]] == bs;
    }
  }

  /** Bullets written one per line as "- bullet" are read back exactly. */
  lemma Mode3DashedRoundTrip(bs: seq<string>)
    requires GoodBullets(bs)
    ensures ContentLines(SplitOn(Join(Dashed(bs), "\n"), '\n')) == bs
  {
    var ls := Dashed(bs);
    if bs != [] {
      forall i | 0 <= i < |ls| ensures '\n' !in ls[i] {
        assert ls[i] == "- " + bs[i];
      }
      SplitOnJoin(ls, '\n');
      forall i | 0 <= i < |ls| ensures Mode3Line(ls[i]) == Some(bs[i]) {
        Mode3DashedLine(bs[i]);
      }
      ContentLinesAllKept(ls, bs);
    }
  }

  /** Plain lines (the second format) that do not start with '-' are read back exactly. */
  lemma Mode3PlainRoundTrip(bs: seq<string>)
    requires GoodBullets(bs)
    requires forall i :: 0 <= i < |bs| ==> bs[i][0] != '-'
    ensures ContentLines(SplitOn(Join(bs, "\n"), '\n')) == bs
  {
    if bs != [] {
      SplitOnJoin(bs, '\n');
      forall i | 0 <= i < |bs| ensures Mode3Line(bs[i]) == Some(bs[i]) {
        StripOfStripped(bs[i]);
      }
      ContentLinesAllKept(bs, bs);
    }
  }

  /** The line loop of Mode 3 over the content section. */
  method ContentBullets(content: string) returns (bullets: seq<string>)
    ensures bullets == ContentLines(SplitOn(content, '\n'))
    ensures GoodBullets(bullets)
  {
    bullets := [];
    if content != [] {
      var lines := SplitOn(content, '\n');
      var k := 0;
      while k < |lines|
        invariant 0 <= k <= |lines|
        invariant bullets == ContentLines(lines[..k])
      {
        assert lines[..k + 1][..k] == lines[..k];
        var line := Strip(lines[k]);
        if line != [] {
          if line[0] == '-' {
            var bullet := Strip(LStripSet(line, {'-'}));
            if bullet != [] {
              bullets := bullets + [bullet];
            }
          } else {
            bullets := bullets + [line];
          }
        }
        k := k + 1;
      }
      assert lines[..|lines|] == lines;
    }
  }

  /** The shape of every parsed Mode 3 entry: a stripped title and at least one good bullet. */
  predicate GoodEntry(e: ExactEntry)
  {
    IsStripped(e.title) && e.content != [] && GoodBullets(e.content)
  }

  /** One Mode 3 block: its title and its bullets, or nothing when either is missing. */
  function Mode3Block(prompt: string, h: HeaderHit, stop: nat): (r: Option<ExactEntry>)
    requires h.end <= stop <= |prompt|
    ensures r.Some? ==> r.value.slideNumber == h.number && GoodEntry(r.value)
    ensures r.Some? ==> LabelValue(prompt[h.end..stop], "title:").Some? && ContentSection(prompt[h.end..stop]).Some?
  {
    var text := prompt[h.end..stop];
    match LabelValue(text, "title:")
    case None => None
    case Some(title) =>
      match ContentSection(text)
      case None => None
      case Some(content) =>
        var bullets := ContentLines(SplitOn(content, '\n'));
        if bullets == [] then None else Some(ExactEntry(h.number, Strip(title), bullets))
  }

  /** The entries of the first k blocks, in prompt order. */
  function Mode3Entries(prompt: string, hits: seq<HeaderHit>, k: nat): (r: seq<ExactEntry>)
    requires Ordered(hits, |prompt|) && k <= |hits|
    ensures |r| <= k
    ensures forall i :: 0 <= i < |r| ==> GoodEntry(r[i])
  {
    if k == 0 then []
    else
      var rest := Mode3Entries(prompt, hits, k - 1);
      match Mode3Block(prompt, hits[k - 1], NextStart(hits, k - 1, |prompt|))
      case Some(e) =>
        assert GoodEntry(e);
        rest + [e]
      case None => rest
  }

  /** The entries Mode 3 finds in the whole prompt, before sorting. */
  function Mode3All(prompt: string): seq<ExactEntry>
  {
    var hits := HeaderHits(prompt);
    Mode3Entries(prompt, hits, |hits|)
  }

  method ParseMode3Block(prompt: string, h: HeaderHit, stop: nat) returns (r: Option<ExactEntry>)
    requires h.end <= stop <= |prompt|
    ensures r == Mode3Block(prompt, h, stop)
  {
    var text := prompt[h.end..stop];
    var title := LabelValue(text, "title:");
    if title.None? {
      return None;
    }
    var content := ContentSection(text);
    if content.None? {
      return None;
    }
    var bullets := ContentBullets(content.value);
    if bullets == [] {
      return None;
    }
    r := Some(ExactEntry(h.number, Strip(title.value), bullets));
  }

  /**
   * `_parse_mode_3`: the blocks that have a title and at least one bullet,
   * sorted by slide number, with NUMBER raised to the largest slide number.
   * It never fails; an empty result is rejected by the generator.
   */
  method ParseMode3(prompt: string) returns (r: Parsed)
    ensures r.mode == Mode3 && r.topic == TopicOf(prompt) && r.subject == SubjectOf(prompt)
    ensures r.exact == SortBy(Mode3All(prompt), ExactKey)
    ensures SortedBy(r.exact, ExactKey) && multiset(r.exact) == multiset(Mode3All(prompt))
    ensures r.number == RaisedNumber(DeclaredNumber(prompt), Mode3All(prompt), ExactKey)
    ensures r.titles == [] && r.mappings == [] && r.instructions == []
  {
    var entries := CollectMode3(prompt, HeaderHits(prompt));
    var sorted := SortBy(entries, ExactKey);
    var number := RaisedNumber(DeclaredNumber(prompt), entries, ExactKey);
    r := Parsed(Mode3, number, TopicOf(prompt), SubjectOf(prompt), [], sorted, [], []);
  }

  /** The block loop of `_parse_mode_3`. */
  method CollectMode3(prompt: string, hits: seq<HeaderHit>) returns (entries: seq<ExactEntry>)
    requires Ordered(hits, |prompt|)
    ensures entries == Mode3Entries(prompt, hits, |hits|)
  {
    hide Mode3Block, Mode3Entries;
    entries := [];
    var idx := 0;
    while idx < |hits|
      invariant 0 <= idx <= |hits|
      invariant entries == Mode3Entries(prompt, hits, idx)
    {
      entries := Mode3Step(prompt, hits, idx, entries);
      idx := idx + 1;
    }
  }

  /** One pass of the block loop. */
  method Mode3Step(prompt: string, hits: seq<HeaderHit>, idx: nat, entries: seq<ExactEntry>) returns (r: seq<ExactEntry>)
    requires Ordered(hits, |prompt|) && idx < |hits|
    requires entries == Mode3Entries(prompt, hits, idx)
    ensures r == Mode3Entries(prompt, hits, idx + 1)
  {
    hide Mode3Block, GoodEntry;
    var e := ParseMode3Block(prompt, hits[idx], NextStart(hits, idx, |prompt|));
    if e.Some? {
      return entries + [e.value];
    }
    return entries;
  }

}
