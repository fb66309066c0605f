/**
 * The title-driven parsers of the PPT generator agent: Mode 1 (everything
 * generated), Mode 2 (the user's slide titles) and Mode 4 (titles plus image
 * placements). Every parser reads NUMBER, TOPIC and SUBJECT the same way;
 * Modes 2 and 4 then collect `Slide N: title` matches, sort them by N
 * (stably), keep the first title of every N and raise NUMBER to the largest N.
 */
module PptParseTitles {
  import opened Wrappers
  import opened Text
  import opened Scan
  import opened Sorting
  import opened PptPatterns
  import opened PptModeDetect
  import opened PptParsed

  // ----- Mode 1 -----

  /** `_parse_mode_1`: NUMBER, TOPIC and SUBJECT only; nothing else is given. */
  function ParseMode1(prompt: string): (r: Parsed)
    ensures r.mode == Mode1 && r.number == DeclaredNumber(prompt) && r.number >= 0
    ensures r.topic == TopicOf(prompt) && IsStripped(r.topic) && '.' !in r.topic
    ensures r.subject == SubjectOf(prompt) && IsStripped(r.subject) && '\n' !in r.subject
    ensures r.titles == [] && r.exact == [] && r.mappings == [] && r.instructions == []
  {
    Parsed(Mode1, DeclaredNumber(prompt), TopicOf(prompt), SubjectOf(prompt), [], [], [], [])
  }

  // ----- collecting titles -----

  /**
   * What the extraction loops keep of one match: the stripped group, when it
   * is not empty; with `skipHeaders` (the whole-prompt search of Mode 2) a
   * group mentioning "titles" or "structure" is taken for a header and skipped.
   */
  function KeptTitle(h: TitleHit, skipHeaders: bool): (r: Option<TitleEntry>)
    ensures r.Some? ==> r.value.slideNumber == h.number && r.value.title == Strip(h.text)
    ensures r.Some? <==>
      Strip(h.text) != []
      && !(skipHeaders && (Contains(Lower(Strip(h.text)), "titles") || Contains(Lower(Strip(h.text)), "structure")))
  {
    var t := Strip(h.text);
    if skipHeaders && (Contains(Lower(t), "titles") || Contains(Lower(t), "structure")) then None
    else if t == [] then None
    else Some(TitleEntry(h.number, t))
  }

  /** The titles the extraction loop appends for the matches `hits`, in match order. */
  function KeptTitles(hits: seq<TitleHit>, skipHeaders: bool): (r: seq<TitleEntry>)
    ensures |r| <= |hits|
    ensures forall i :: 0 <= i < |r| ==> r[i].title != [] && IsStripped(r[i].title)
    ensures forall i :: 0 <= i < |r| ==> exists j :: 0 <= j < |hits| && KeptTitle(hits[j], skipHeaders) == Some(r[i])
  {
    if hits == [] then []
    else
      var front := hits[..|hits| - 1];
      var rest := KeptTitles(front, skipHeaders);
      assert forall i :: 0 <= i < |rest| ==> exists j :: 0 <= j < |hits| && KeptTitle(hits[j], skipHeaders) == Some(rest[i]) by {
        forall i | 0 <= i < |rest| ensures exists j :: 0 <= j < |hits| && KeptTitle(hits[j], skipHeaders) == Some(rest[i]) {
          var j :| 0 <= j < |front| && KeptTitle(front[j], skipHeaders) == Some(rest[i]);
          assert hits[j] == front[j];
        }
      }
      match KeptTitle(hits[|hits| - 1], skipHeaders)
      case Some(e) => rest + [e]
      case None => rest
  }

  /** A title group never spans lines, so neither does a kept title. */
  lemma KeptTitlesOneLine(hits: seq<TitleHit>, skipHeaders: bool)
    requires forall j :: 0 <= j < |hits| ==> '\n' !in hits[j].text
    ensures forall i :: 0 <= i < |KeptTitles(hits, skipHeaders)| ==> '\n' !in KeptTitles(hits, skipHeaders)[i].title
  {
    var r := KeptTitles(hits, skipHeaders);
    forall i | 0 <= i < |r| ensures '\n' !in r[i].title {
      var j :| 0 <= j < |hits| && KeptTitle(hits[j], skipHeaders) == Some(r[i]);
      StripKeepsOut(hits[j].text, '\n');
    }
  }

  /** The `for match in matches` loop of the title extraction. */
  method CollectTitles(hits: seq<TitleHit>, skipHeaders: bool) returns (titles: seq<TitleEntry>)
    ensures titles == KeptTitles(hits, skipHeaders)
  {
    titles := [];
    var k := 0;
    while k < |hits|
      invariant 0 <= k <= |hits|
      invariant titles == KeptTitles(hits[..k], skipHeaders)
    {
      assert hits[..k + 1][..k] == hits[..k];
      var h := hits[k];
      var title := Strip(h.text);
      if !skipHeaders || (!Contains(Lower(title), "titles") && !Contains(Lower(title), "structure")) {
        title := RStrip(title);
        if title != [] {
          titles := titles + [TitleEntry(h.number, title)];
        }
      }
      k := k + 1;
    }
    assert hits[..|hits|] == hits;
  }

  /**
   * Sorting by slide number, the `seen`-set pass and the raised NUMBER: one
   * title per number, in increasing order, each the first the prompt gives
   * for its number.
   */
  method SortedUnique(c: seq<TitleEntry>, declared: int) returns (u: seq<TitleEntry>, number: int)
    ensures StrictlyIncreasingBy(u, TitleKey)
    ensures Keys(u, TitleKey) == Keys(c, TitleKey)
    ensures |u| == |Keys(c, TitleKey)|
    ensures forall e :: e in u ==> FirstWithKey(c, TitleKey, e.slideNumber) == Some(e)
    ensures u == [] <==> c == []
    ensures number == RaisedNumber(declared, c, TitleKey)
  {
    var sorted := SortBy(c, TitleKey);
    u := DedupeByKey(sorted, TitleKey);
    SortKeepsKeys(c, TitleKey);
    DistinctKeysCount(u, TitleKey);
    forall e | e in u ensures FirstWithKey(c, TitleKey, e.slideNumber) == Some(e) {
      SortKeepsFirst(c, TitleKey, e.slideNumber);
    }
    if c != [] {
      assert TitleKey(c[0]) in Keys(c, TitleKey);
    }
    number := declared;
    if u != [] {
      MaxKeyOfSameKeys(u, c, TitleKey);
      var m := MaxKey(u, TitleKey);
      number := if number >= m then number else m;
    }
  }

  /** `[t for t in slide_titles if t['slide_number'] <= number]`. */
  function KeepUpTo(s: seq<TitleEntry>, n: int): (r: seq<TitleEntry>)
    ensures forall e :: e in r <==> e in s && e.slideNumber <= n
    ensures (forall i :: 0 <= i < |s| ==> s[i].slideNumber <= n) ==> r == s
  {
    if s == [] then []
    else if s[0].slideNumber <= n then [s[0]] + KeepUpTo(s[1..], n)
    else KeepUpTo(s[1..], n)
  }

  /** What Modes 2 and 4 promise about a successful parse, given the candidate titles c. */
  predicate TitlesParsed(p: Parsed, mode: PptMode, prompt: string, c: seq<TitleEntry>)
  {
    p.mode == mode
    && p.number == RaisedNumber(DeclaredNumber(prompt), c, TitleKey)
    && p.topic == TopicOf(prompt) && p.subject == SubjectOf(prompt)
    && StrictlyIncreasingBy(p.titles, TitleKey)
    && Keys(p.titles, TitleKey) == Keys(c, TitleKey)
    && (forall e :: e in p.titles ==> FirstWithKey(c, TitleKey, e.slideNumber) == Some(e))
    && p.exact == [] && p.instructions == []
  }

  /** Strictly increasing titles numbered 1..number, at least number of them, are exactly slides 1, ..., number. */
  lemma TitlesCoverOneToN(u: seq<TitleEntry>, c: seq<TitleEntry>, n: int)
    requires StrictlyIncreasingBy(u, TitleKey)
    requires Keys(u, TitleKey) == Keys(c, TitleKey)
    requires forall i :: 0 <= i < |c| ==> 1 <= c[i].slideNumber <= n
    requires 0 <= n <= |u|
    ensures |u| == n
    ensures forall i :: 0 <= i < |u| ==> u[i].slideNumber == i + 1
  {
    forall i | 0 <= i < |u| ensures 1 <= TitleKey(u[i]) <= n {
      assert TitleKey(u[i]) in Keys(c, TitleKey);
    }
    ExactlyOneToN(u, TitleKey, n);
  }

  // ----- Mode 2 -----

  /**
   * The titles Mode 2 collects, before sorting: those of the "Slide titles:"
   * section when it yields any, else those of the whole prompt.
   */
  function Mode2Candidates(prompt: string): seq<TitleEntry>
  {
    var first :=
      match Mode2Section(prompt)
      case Some(t) => if t != [] then KeptTitles(Mode2Hits(t), false) else []
      case None => [];
    if first != [] then first else KeptTitles(Mode2Hits(prompt), true)
  }

  /**
   * `_parse_mode_2`. User titles are law: no title at all, or fewer distinct
   * slide numbers than NUMBER (raised to the largest slide number), is an
   * error; otherwise the result holds one title per slide number.
   */
  method ParseMode2(prompt: string) returns (r: Result<Parsed, PptError>)
    ensures var c := Mode2Candidates(prompt);
      var n := RaisedNumber(DeclaredNumber(prompt), c, TitleKey);
      && (c == [] ==> r == Err(TitlesMissing))
      && (c != [] && |Keys(c, TitleKey)| < n ==> r == Err(TooFewTitles(|Keys(c, TitleKey)|, n)))
      && (r.Ok? <==> c != [] && |Keys(c, TitleKey)| >= n)
      && (r.Ok? ==> TitlesParsed(r.value, Mode2, prompt, c) && r.value.mappings == [])
      && (r.Ok? ==> |r.value.titles| == |Keys(c, TitleKey)|)
    ensures r.Ok? && (forall e :: e in Mode2Candidates(prompt) ==> e.slideNumber >= 1) ==>
      |r.value.titles| == r.value.number && forall i :: 0 <= i < |r.value.titles| ==> r.value.titles[i].slideNumber == i + 1
  {
    var titles := CollectMode2(prompt);
    r := CheckMode2(titles, DeclaredNumber(prompt), TopicOf(prompt), SubjectOf(prompt));
  }

  /** The checks of Mode 2 on the collected titles c. */
  method CheckMode2(c: seq<TitleEntry>, declared: int, topic: string, subject: string) returns (r: Result<Parsed, PptError>)
    requires declared >= 0
    ensures var n := RaisedNumber(declared, c, TitleKey);
      && (c == [] ==> r == Err(TitlesMissing))
      && (c != [] && |Keys(c, TitleKey)| < n ==> r == Err(TooFewTitles(|Keys(c, TitleKey)|, n)))
      && (r.Ok? <==> c != [] && |Keys(c, TitleKey)| >= n)
      && (r.Ok? ==> r.value == Parsed(Mode2, n, topic, subject, r.value.titles, [], [], []))
      && (r.Ok? ==> |r.value.titles| == |Keys(c, TitleKey)|)
    ensures r.Ok? ==> StrictlyIncreasingBy(r.value.titles, TitleKey) && Keys(r.value.titles, TitleKey) == Keys(c, TitleKey)
    ensures r.Ok? ==> forall e :: e in r.value.titles ==> FirstWithKey(c, TitleKey, e.slideNumber) == Some(e)
    ensures r.Ok? && (forall e :: e in c ==> e.slideNumber >= 1) ==>
      |r.value.titles| == r.value.number && forall i :: 0 <= i < |r.value.titles| ==> r.value.titles[i].slideNumber == i + 1
  {
    hide FirstWithKey, KeepUpTo, RaisedNumber, StrictlyIncreasingBy;
    var unique, number := SortedUnique(c, declared);
    if unique != [] && |unique| != number {
      if |unique| < number {
        return Err(TooFewTitles(|unique|, number));
      }
      forall i | 0 <= i < |unique| ensures unique[i].slideNumber <= number {
        assert TitleKey(unique[i]) in Keys(c, TitleKey);
      }
      unique := KeepUpTo(unique, number);
    }
    if unique == [] {
      return Err(TitlesMissing);
    }
    r := Ok(Parsed(Mode2, number, topic, subject, unique, [], [], []));
    if forall e :: e in c ==> e.slideNumber >= 1 {
      TitlesCoverOneToN(unique, c, number);
    }
  }

  /** Strategy 1, the "Slide titles:" section, then strategy 2, the whole prompt. */
  method CollectMode2(prompt: string) returns (titles: seq<TitleEntry>)
    ensures titles == Mode2Candidates(prompt)
  {
    titles := [];
    var section := Mode2Section(prompt);
    if section.Some? && section.value != [] {
      titles := CollectTitles(Mode2Hits(section.value), false);
    }
    if titles == [] {
      titles := CollectTitles(Mode2Hits(prompt), true);
    }
  }

  /**
   * A "Slide titles:" list written on one line yields a single title, since a
   * title runs to the end of its line; with two or more slides declared the
   * parse then fails.
   */
  lemma Mode2OneLineSectionFails(prompt: string, t: string)
    requires Mode2Section(prompt) == Some(t) && t != [] && '\n' !in t
    requires KeptTitles(Mode2Hits(t), false) != []
    requires DeclaredNumber(prompt) >= 2
    ensures |Mode2Candidates(prompt)| == 1
    ensures |Keys(Mode2Candidates(prompt), TitleKey)| < RaisedNumber(DeclaredNumber(prompt), Mode2Candidates(prompt), TitleKey)
  {
    var c := KeptTitles(Mode2Hits(t), false);
    assert Mode2Candidates(prompt) == c;
    Mode2OneLine(t);
    OneTitleTooFew(c, DeclaredNumber(prompt));
  }

  lemma OneTitleTooFew(c: seq<TitleEntry>, declared: int)
    requires 1 <= |c| <= 1 && declared >= 2
    ensures |c| == 1 && |Keys(c, TitleKey)| < RaisedNumber(declared, c, TitleKey)
  {
    assert Keys(c, TitleKey) == {c[0].slideNumber};
  }

  // ----- Mode 4 -----

  function Mode4TitlesOf(section: Option<string>): seq<TitleEntry>
  {
    match section
    case Some(t) => KeptTitles(Mode4Hits(t), false)
    case None => []
  }

  /**
   * The titles Mode 4 collects, before sorting: from the "Slide structure:"
   * section, else from a "Slide titles:" section, else from everything after
   * "Slide structure:" up to "Image placement:".
   */
  function Mode4Candidates(prompt: string): seq<TitleEntry>
  {
    var first := Mode4TitlesOf(StructureSection(prompt));
    if first != [] then first
    else
      var second := Mode4TitlesOf(TitlesSection4(prompt));
      if second != [] then second else Mode4TitlesOf(StructureRemainder(prompt))
  }

  /** One mapping per `Use Image I on Slide S` match, in order. */
  function MappingsOf(hits: seq<MapHit>): (r: seq<ImageMapping>)
    ensures |r| == |hits|
    ensures forall i :: 0 <= i < |hits| ==> r[i].imageNumber == hits[i].image && r[i].slideNumber == hits[i].slide
  {
    if hits == [] then [] else MappingsOf(hits[..|hits| - 1]) + [ImageMapping(hits[|hits| - 1].image, hits[|hits| - 1].slide)]
  }

  /** The image mappings of the "Image placement:" section (none without one). */
  function Mode4Mappings(prompt: string): seq<ImageMapping>
  {
    match ImageSection(prompt)
    case Some(t) => MappingsOf(MappingHits(t))
    case None => []
  }

  /** The `for match in matches` loop over the image placements. */
  method CollectMappings(hits: seq<MapHit>) returns (mappings: seq<ImageMapping>)
    ensures mappings == MappingsOf(hits)
  {
    mappings := [];
    var k := 0;
    while k < |hits|
      invariant 0 <= k <= |hits|
      invariant mappings == MappingsOf(hits[..k])
    {
      assert hits[..k + 1][..k] == hits[..k];
      mappings := mappings + [ImageMapping(hits[k].image, hits[k].slide)];
      k := k + 1;
    }
    assert hits[..|hits| - 0] == hits;
  }

  /**
   * `_parse_mode_4`. Unlike Mode 2 it never fails: missing titles are left
   * for the generator to reject.
   */
  method ParseMode4(prompt: string) returns (r: Parsed)
    ensures TitlesParsed(r, Mode4, prompt, Mode4Candidates(prompt))
    ensures |r.titles| == |Keys(Mode4Candidates(prompt), TitleKey)|
    ensures r.mappings == Mode4Mappings(prompt)
  {
    var titles := CollectMode4(prompt);
    var unique, number := SortedUnique(titles, DeclaredNumber(prompt));
    var mappings: seq<ImageMapping> := [];
    var image := ImageSection(prompt);
    if image.Some? {
      mappings := CollectMappings(MappingHits(image.value));
    }
    r := Parsed(Mode4, number, TopicOf(prompt), SubjectOf(prompt), unique, [], mappings, []);
  }

  /** The three title searches of Mode 4, each tried only when the previous found nothing. */
  method CollectMode4(prompt: string) returns (titles: seq<TitleEntry>)
    ensures titles == Mode4Candidates(prompt)
  {
    titles := [];
    var structure := StructureSection(prompt);
    if structure.Some? {
      titles := CollectTitles(Mode4Hits(structure.value), false);
    }
    if titles == [] {
      var section := TitlesSection4(prompt);
      if section.Some? {
        titles := CollectTitles(Mode4Hits(section.value), false);
      }
    }
    if titles == [] {
      var remaining := StructureRemainder(prompt);
      if remaining.Some? {
        titles := CollectTitles(Mode4Hits(remaining.value), false);
      }
    }
  }
}
