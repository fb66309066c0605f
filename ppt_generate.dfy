/**
 * The generators of the PPT generator agent for Modes 1 to 4 and the fallback
 * deck. Every generator puts the base slide first and user slide k at
 * position k+1 with slide number k+1, then runs the in-place passes of
 * PptSlides. The bullet source is the abstract `llm`; each generator also
 * returns the requests it made of it, in order.
 */
module PptGenerate {
  import opened Wrappers
  import opened Text
  import opened PptSlides
  import opened PptParsed

  // ----- what every generator shares -----

  /** `_generate_single_slide_content(n, title, topic, subject, ...)`. */
  function Bullets(llm: BulletRequest -> LlmReply, n: int, title: string, topic: string, subject: string): (r: seq<Item>)
    ensures 1 <= |r| <= MaxBullets
  {
    SlideBullets(llm(BulletRequest(n, title)), title, topic, subject)
  }

  /** The speaker notes of Modes 1, 2 and 4. */
  function Explain(title: string, topic: string): string
  {
    "Explain " + title + " in the context of " + topic + "."
  }

  /** The content the bullet constraint leaves on a slide it does not skip. */
  function Trimmed(c: seq<Item>): seq<Item>
  {
    StrItems(Take(MapShape(Strs(c)), MaxBullets))
  }

  /** How a slide comes out of the two passes: only `image_query` and `content` may change. */
  predicate Passed(before: Slide, after: Slide, guard: bool)
  {
    && after == before.(content := after.content, imageQuery := after.imageQuery)
    && after.content == (if guard && before.exact then before.content else Trimmed(before.content))
  }

  /** The bullet constraint alone changes only content. */
  lemma EnforcePassed(d: seq<Slide>, guard: bool)
    ensures |EnforceAll(d, guard)| == |d|
    ensures forall j :: 0 <= j < |d| ==>
      Passed(d[j], EnforceAll(d, guard)[j], guard) && EnforceAll(d, guard)[j].imageQuery == d[j].imageQuery
  {
    forall j | 0 <= j < |d|
      ensures Passed(d[j], EnforceAll(d, guard)[j], guard) && EnforceAll(d, guard)[j].imageQuery == d[j].imageQuery
    {
      EnforceKeepsAllButContent(d, guard, j);
    }
  }

  /** The image hints, then the bullet constraint: a slide outside the hint list keeps its query. */
  lemma PassesKept(d: seq<Slide>, idx: seq<int>, guard: bool, topic: string, subject: string)
    requires ValidIndices(idx, |d|)
    ensures var r := EnforceAll(ImageHints(d, idx, topic, subject), guard);
      && |r| == |d|
      && (forall j :: 0 <= j < |d| ==> Passed(d[j], r[j], guard))
      && (forall j :: 0 <= j < |d| && j !in idx ==> r[j].imageQuery == d[j].imageQuery)
  {
    ImageHintsFrame(d, idx, topic, subject);
    EnforcePassed(ImageHints(d, idx, topic, subject), guard);
  }

  /** The base slide keeps its one bullet, shaped. */
  lemma BaseTrimmed(topic: string, subject: string)
    ensures Trimmed(BaseSlide(topic, subject).content) == [Str(Shape(SubjectOr(subject)))]
  {
    var c := BaseSlide(topic, subject).content;
    assert c[1..] == [];
    assert Strs(c) == [SubjectOr(subject)];
  }

  /** The slides `[s for s in slides if s.get('slide_number', 0) > 1]`, as positions in the deck. */
  function UserSlides(d: seq<Slide>): (r: seq<int>)
    ensures ValidIndices(r, |d|)
    ensures forall j :: 0 <= j < |d| ==> (j in r <==> d[j].number > 1)
  {
    if d == [] then []
    else UserSlides(d[..|d| - 1]) + (if d[|d| - 1].number > 1 then [|d| - 1] else [])
  }

  /** `slides.insert(0, base_slide)`, into the deck the passes work on. */
  method WithBase(topic: string, subject: string, slides: seq<Slide>) returns (deck: array<Slide>)
    ensures fresh(deck)
    ensures deck[..] == [BaseSlide(topic, subject)] + slides
  {
    var all := [BaseSlide(topic, subject)] + slides;
    deck := new Slide[|all|](i requires 0 <= i < |all| => all[i]);
  }

  // ----- titled slides (Modes 1, 2 and 4) -----

  function TitledSlide(t: TitleEntry, topic: string, subject: string, llm: BulletRequest -> LlmReply): Slide
  {
    ContentSlide(t.slideNumber + 1, t.title, Bullets(llm, t.slideNumber, t.title, topic, subject), Explain(t.title, topic))
  }

  function TitledSlides(ts: seq<TitleEntry>, topic: string, subject: string, llm: BulletRequest -> LlmReply): (r: seq<Slide>)
    ensures |r| == |ts| && forall k :: 0 <= k < |ts| ==> r[k] == TitledSlide(ts[k], topic, subject, llm)
  {
    seq(|ts|, k requires 0 <= k < |ts| => TitledSlide(ts[k], topic, subject, llm))
  }

  /** One bullet request per title, in order. */
  function Requests(ts: seq<TitleEntry>): (r: seq<BulletRequest>)
    ensures |r| == |ts| && forall k :: 0 <= k < |ts| ==> r[k] == BulletRequest(ts[k].slideNumber, ts[k].title)
  {
    seq(|ts|, k requires 0 <= k < |ts| => BulletRequest(ts[k].slideNumber, ts[k].title))
  }

  /** The generation loop of Modes 1 and 2 (Mode 2 also locks each title). */
  method GenerateTitled(ts: seq<TitleEntry>, topic: string, subject: string, llm: BulletRequest -> LlmReply, lock: bool)
    returns (slides: seq<Slide>, calls: seq<BulletRequest>)
    ensures |slides| == |ts| && calls == Requests(ts)
    ensures forall k :: 0 <= k < |ts| ==>
      slides[k] == TitledSlide(ts[k], topic, subject, llm).(originalTitle := if lock then Some(ts[k].title) else None)
  {
    hide Bullets, Explain;
    slides := [];
    calls := [];
    var k := 0;
    while k < |ts|
      invariant 0 <= k <= |ts| && |slides| == k
      invariant calls == Requests(ts[..k])
      invariant forall j :: 0 <= j < k ==>
        slides[j] == TitledSlide(ts[j], topic, subject, llm).(originalTitle := if lock then Some(ts[j].title) else None)
    {
      var t := ts[k];
      var bullets := Bullets(llm, t.slideNumber, t.title, topic, subject);
      calls := calls + [BulletRequest(t.slideNumber, t.title)];
      var slide := ContentSlide(t.slideNumber + 1, t.title, bullets, Explain(t.title, topic));
      if lock {
        slide := slide.(originalTitle := Some(t.title));
      }
      slides := slides + [slide];
      k := k + 1;
    }
    assert ts[..k] == ts;
  }

  // ----- Mode 1 -----

  const DefaultNames: seq<string> := [
    "Introduction",
    "Core Concept / Architecture",
    "Mathematical / Logical Explanation",
    "Applications / Use Cases",
    "Summary & Key Takeaways"]

  /** The titles `_get_default_slide_titles` returns: min(num, 5) of the five fixed names, numbered from 1. */
  function DefaultTitles(num: int): (r: seq<TitleEntry>)
    ensures |r| == if num <= 0 then 0 else if num < |DefaultNames| then num else |DefaultNames|
    ensures forall k :: 0 <= k < |r| ==> r[k] == TitleEntry(k + 1, DefaultNames[k])
  {
    var n := if num <= 0 then 0 else if num < |DefaultNames| then num else |DefaultNames|;
    seq(n, k requires 0 <= k < n => TitleEntry(k + 1, DefaultNames[k]))
  }

  /**
   * `_get_default_slide_titles`. The loop runs over range(1, min(num + 1, 6)),
   * so `i <= 5` always holds and the "Key Concept i" branch is never taken.
   */
  method GetDefaultSlideTitles(num: int) returns (titles: seq<TitleEntry>)
    ensures titles == DefaultTitles(num)
  {
    titles := [];
    var stop := if num + 1 < |DefaultNames| + 1 then num + 1 else |DefaultNames| + 1;
    var i := 1;
    while i < stop
      invariant 1 <= i <= (if stop < 1 then 1 else stop)
      invariant titles == DefaultTitles(i - 1)
    {
      if i <= |DefaultNames| {
        titles := titles + [TitleEntry(i, DefaultNames[i - 1])];
      } else {
        assert false;
      }
      i := i + 1;
    }
    DefaultTitlesClamp(i - 1, num);
  }

  lemma DefaultTitlesClamp(a: int, b: int)
    requires |DefaultTitles(a)| == |DefaultTitles(b)|
    ensures DefaultTitles(a) == DefaultTitles(b)
  {
  }

  /** The Mode 1 deck: base slide, one titled slide per default title, hints on the user slides, constraint. */
  function Mode1Deck(p: Parsed, llm: BulletRequest -> LlmReply): seq<Slide>
  {
    var d := [BaseSlide(p.topic, p.subject)] + TitledSlides(DefaultTitles(p.number), p.topic, p.subject, llm);
    EnforceAll(ImageHints(d, UserSlides(d), p.topic, p.subject), false)
  }

  /** `_generate_mode_1`. */
  method GenerateMode1(p: Parsed, llm: BulletRequest -> LlmReply) returns (r: Presentation, calls: seq<BulletRequest>)
    ensures r == Presentation(p.topic, SubjectOr(p.subject), Mode1Deck(p, llm))
    ensures calls == Requests(DefaultTitles(p.number))
  {
    var titles := GetDefaultSlideTitles(p.number);
    var slides;
    slides, calls := GenerateTitled(titles, p.topic, p.subject, llm, false);
    assert slides == TitledSlides(titles, p.topic, p.subject, llm);
    var deck := WithBase(p.topic, p.subject, slides);
    AddImageHints(deck, UserSlides(deck[..]), p.topic, p.subject);
    EnforceBulletConstraints(deck, false);
    r := Presentation(p.topic, SubjectOr(p.subject), deck[..]);
  }

  /**
   * The Mode 1 deck: at most five user slides behind the base slide, slide
   * k+2 titled with the k-th default name and holding the shaped bullets of
   * its request; the base slide gets no image query.
   */
  lemma Mode1Shape(p: Parsed, llm: BulletRequest -> LlmReply)
    ensures var d := Mode1Deck(p, llm); var ts := DefaultTitles(p.number);
      && |d| == 1 + |ts| <= 1 + |DefaultNames|
      && d[0] == BaseSlide(p.topic, p.subject).(content := [Str(Shape(SubjectOr(p.subject)))])
      && forall k :: 0 <= k < |ts| ==>
        && d[k + 1].number == k + 2 && d[k + 1].kind == ContentKind
        && d[k + 1].title == DefaultNames[k]
        && d[k + 1].content == Trimmed(Bullets(llm, k + 1, DefaultNames[k], p.topic, p.subject))
  {
    hide ImageHints;
    hide EnforceSlide;
    hide Trimmed;
    hide Bullets;
    hide Explain;
    var d := [BaseSlide(p.topic, p.subject)] + TitledSlides(DefaultTitles(p.number), p.topic, p.subject, llm);
    PassesKept(d, UserSlides(d), false, p.topic, p.subject);
    BaseTrimmed(p.topic, p.subject);
  }

  // ----- Mode 2 -----

  /** `user_titles_dict`: each title under its slide number, a later entry overriding an earlier one. */
  function TitleMap(ts: seq<TitleEntry>): (m: map<int, string>)
    ensures forall n :: n in m <==> exists k :: 0 <= k < |ts| && ts[k].slideNumber == n
  {
    if ts == [] then map[]
    else
      var last := ts[|ts| - 1];
      var m := TitleMap(ts[..|ts| - 1]);
      assert forall k :: 0 <= k < |ts| - 1 ==> ts[..|ts| - 1][k] == ts[k];
      m[last.slideNumber := last.title]
  }

  /** With distinct slide numbers, the map gives every entry its own title. */
  lemma {:induction false} TitleMapDistinct(ts: seq<TitleEntry>, k: nat)
    requires k < |ts|
    requires forall a, b :: 0 <= a < b < |ts| ==> ts[a].slideNumber != ts[b].slideNumber
    ensures ts[k].slideNumber in TitleMap(ts) && TitleMap(ts)[ts[k].slideNumber] == ts[k].title
    decreases |ts|
  {
    if k < |ts| - 1 {
      var front := ts[..|ts| - 1];
      assert front[k] == ts[k];
      TitleMapDistinct(front, k);
    }
  }

  /** The dict-building loop of `_generate_mode_2`. */
  method BuildTitleMap(ts: seq<TitleEntry>) returns (m: map<int, string>)
    ensures m == TitleMap(ts)
  {
    m := map[];
    var k := 0;
    while k < |ts|
      invariant 0 <= k <= |ts|
      invariant m == TitleMap(ts[..k])
    {
      assert ts[..k + 1][..k] == ts[..k];
      m := m[ts[k].slideNumber := ts[k].title];
      k := k + 1;
    }
    assert ts[..k] == ts;
  }

  /** A slide numbered above 1 whose user number has a non-empty title in the map carries that title. */
  predicate TitleOk(s: Slide, m: map<int, string>)
  {
    s.number > 1 && s.number - 1 in m && m[s.number - 1] != [] ==> s.title == m[s.number - 1]
  }

  /** The number of the first slide from position k that fails the title verification. */
  function FirstBadTitle(d: seq<Slide>, m: map<int, string>, k: nat): (r: Option<int>)
    requires k <= |d|
    ensures r.None? <==> forall j :: k <= j < |d| ==> TitleOk(d[j], m)
    decreases |d| - k
  {
    if k == |d| then None
    else if !TitleOk(d[k], m) then Some(d[k].number)
    else FirstBadTitle(d, m, k + 1)
  }

  /** The title verification loop of Mode 2. */
  method CheckTitles(d: seq<Slide>, m: map<int, string>) returns (bad: Option<int>)
    ensures bad == FirstBadTitle(d, m, 0)
  {
    var k := 0;
    while k < |d|
      invariant 0 <= k <= |d|
      invariant FirstBadTitle(d, m, k) == FirstBadTitle(d, m, 0)
    {
      var s := d[k];
      if s.number > 1 {
        var user := s.number - 1;
        if user in m && m[user] != [] && s.title != m[user] {
          return Some(s.number);
        }
      }
      k := k + 1;
    }
    return None;
  }

  /** The verification sees only numbers and titles, which the bullet constraint keeps. */
  lemma {:induction false} FirstBadTitleKept(d: seq<Slide>, e: seq<Slide>, m: map<int, string>, k: nat)
    requires |d| == |e| && k <= |d|
    requires forall j :: 0 <= j < |d| ==> e[j].number == d[j].number && e[j].title == d[j].title
    ensures FirstBadTitle(e, m, k) == FirstBadTitle(d, m, k)
    decreases |d| - k
  {
    if k < |d| {
      FirstBadTitleKept(d, e, m, k + 1);
    }
  }

  function LockedSlides(ts: seq<TitleEntry>, topic: string, subject: string, llm: BulletRequest -> LlmReply): (r: seq<Slide>)
    ensures |r| == |ts|
    ensures forall k :: 0 <= k < |ts| ==> r[k] == TitledSlide(ts[k], topic, subject, llm).(originalTitle := Some(ts[k].title))
  {
    seq(|ts|, k requires 0 <= k < |ts| => TitledSlide(ts[k], topic, subject, llm).(originalTitle := Some(ts[k].title)))
  }

  /** The Mode 2 deck before the bullet constraint: no image hints are added. */
  function Mode2Raw(p: Parsed, llm: BulletRequest -> LlmReply): seq<Slide>
  {
    [BaseSlide(p.topic, p.subject)] + LockedSlides(p.titles, p.topic, p.subject, llm)
  }

  /** What `_generate_mode_2` returns or raises. */
  function Mode2Result(p: Parsed, llm: BulletRequest -> LlmReply): Result<Presentation, PptError>
  {
    if p.titles == [] then Err(TitlesMissing)
    else if |p.titles| != p.number then Err(TitleCountMismatch(|p.titles|, p.number))
    else
      var d := Mode2Raw(p, llm);
      match FirstBadTitle(d, TitleMap(p.titles), 0)
      case Some(n) => Err(TitleChanged(n))
      case None => Ok(Presentation(p.topic, SubjectOr(p.subject), EnforceAll(d, false)))
  }

  /** `_generate_mode_2`; the checks that follow the constraint cannot fail (FirstBadTitleKept). */
  method GenerateMode2(p: Parsed, llm: BulletRequest -> LlmReply) returns (r: Result<Presentation, PptError>, calls: seq<BulletRequest>)
    ensures r == Mode2Result(p, llm)
    ensures calls == if p.titles == [] || |p.titles| != p.number then [] else Requests(p.titles)
  {
    calls := [];
    if p.titles == [] {
      return Err(TitlesMissing), calls;
    }
    if |p.titles| != p.number {
      return Err(TitleCountMismatch(|p.titles|, p.number)), calls;
    }
    var dict := BuildTitleMap(p.titles);
    var slides;
    slides, calls := GenerateTitled(p.titles, p.topic, p.subject, llm, true);
    assert slides == LockedSlides(p.titles, p.topic, p.subject, llm);
    var deck := WithBase(p.topic, p.subject, slides);
    var bad := CheckTitles(deck[..], dict);
    if bad.Some? {
      return Err(TitleChanged(bad.value)), calls;
    }
    ghost var raw := deck[..];
    EnforceBulletConstraints(deck, false);
    EnforcePassed(raw, false);
    FirstBadTitleKept(raw, deck[..], dict, 0);
    var after := CheckTitles(deck[..], dict);
    if after.Some? {
      assert false;
    }
    r := Ok(Presentation(p.topic, SubjectOr(p.subject), deck[..]));
  }

  /**
   * User titles are law: on titles with distinct slide numbers, as the parser
   * returns them, and as many as NUMBER, Mode 2 succeeds with exactly
   * NUMBER + 1 slides, slide k+1 carrying the k-th user title unchanged and
   * locked, shaped bullets, and no image query anywhere.
   */
  lemma Mode2TitlesPure(p: Parsed, llm: BulletRequest -> LlmReply)
    requires p.titles != [] && |p.titles| == p.number
    requires forall a, b :: 0 <= a < b < |p.titles| ==> p.titles[a].slideNumber != p.titles[b].slideNumber
    ensures Mode2Result(p, llm).Ok?
    ensures var d := Mode2Result(p, llm).value.slides;
      && |d| == p.number + 1
      && d[0] == BaseSlide(p.topic, p.subject).(content := [Str(Shape(SubjectOr(p.subject)))])
      && forall k :: 0 <= k < |p.titles| ==>
        var t := p.titles[k];
        && d[k + 1].number == t.slideNumber + 1 && d[k + 1].kind == ContentKind
        && d[k + 1].title == t.title && d[k + 1].originalTitle == Some(t.title)
        && d[k + 1].content == Trimmed(Bullets(llm, t.slideNumber, t.title, p.topic, p.subject))
        && d[k + 1].imageQuery == None
  {
    hide Mode2Result;
    hide SlideBullets;
    hide Trimmed;
    hide Shape;
    hide EnforceSlide;
    Mode2TitlesPass(p, llm);
    Mode2Passes(p, llm);
    var d := Mode2Raw(p, llm);
    EnforcePassed(d, false);
    BaseTrimmed(p.topic, p.subject);
  }

  /** The title verification passes on the raw Mode 2 deck when slide numbers are distinct. */
  lemma Mode2TitlesPass(p: Parsed, llm: BulletRequest -> LlmReply)
    requires forall a, b :: 0 <= a < b < |p.titles| ==> p.titles[a].slideNumber != p.titles[b].slideNumber
    ensures FirstBadTitle(Mode2Raw(p, llm), TitleMap(p.titles), 0) == None
  {
    hide Bullets, ContentSlide, Explain, TitleMap, FirstBadTitle, BaseSlide, EnforceAll;
    var d := Mode2Raw(p, llm);
    var m := TitleMap(p.titles);
    forall j | 0 <= j < |d| ensures TitleOk(d[j], m) {
      if j > 0 {
        var t := p.titles[j - 1];
        assert d[j] == TitledSlide(t, p.topic, p.subject, llm).(originalTitle := Some(t.title));
        TitleMapDistinct(p.titles, j - 1);
      }
    }
  }

  lemma Mode2Passes(p: Parsed, llm: BulletRequest -> LlmReply)
    requires p.titles != [] && |p.titles| == p.number
    requires FirstBadTitle(Mode2Raw(p, llm), TitleMap(p.titles), 0) == None
    ensures Mode2Result(p, llm) == Ok(Presentation(p.topic, SubjectOr(p.subject), EnforceAll(Mode2Raw(p, llm), false)))
  {
    hide Mode2Raw;
    hide EnforceAll;
    hide FirstBadTitle;
    hide TitleMap;
  }

  /** With two titles on one slide number, the later one is expected and the earlier slide is rejected. */
  lemma Mode2DuplicateRejected(p: Parsed, llm: BulletRequest -> LlmReply)
    requires |p.titles| == 2 == p.number
    requires p.titles[0].slideNumber == p.titles[1].slideNumber >= 1
    requires p.titles[0].title != p.titles[1].title && p.titles[1].title != []
    ensures Mode2Result(p, llm) == Err(TitleChanged(p.titles[0].slideNumber + 1))
  {
    hide Mode2Raw, TitleMap, EnforceAll, FirstBadTitle, BaseSlide, LockedSlides;
    Mode2DuplicateMap(p.titles);
    Mode2RawHead(p, llm);
    SecondTitleBad(Mode2Raw(p, llm), p.titles[0], p.titles[1]);
  }

  /** The base slide passes and the first user slide, whose number the later entry took over, fails. */
  lemma SecondTitleBad(d: seq<Slide>, e0: TitleEntry, e1: TitleEntry)
    requires |d| >= 2 && d[0].number == 1
    requires d[1].number == e0.slideNumber + 1 && d[1].title == e0.title
    requires e0.slideNumber == e1.slideNumber >= 1 && e0.title != e1.title && e1.title != []
    ensures FirstBadTitle(d, map[e0.slideNumber := e1.title], 0) == Some(d[1].number)
  {
    var m := map[e0.slideNumber := e1.title];
    assert TitleOk(d[0], m);
    assert !TitleOk(d[1], m);
  }

  lemma Mode2DuplicateMap(ts: seq<TitleEntry>)
    requires |ts| == 2 && ts[0].slideNumber == ts[1].slideNumber
    ensures TitleMap(ts) == map[ts[0].slideNumber := ts[1].title]
  {
    assert ts[..1][..0] == [];
    assert ts[..2][..1] == ts[..1];
  }

  /** The first two slides of the raw Mode 2 deck. */
  lemma Mode2RawHead(p: Parsed, llm: BulletRequest -> LlmReply)
    requires |p.titles| >= 1
    ensures var d := Mode2Raw(p, llm);
      |d| == 1 + |p.titles| && d[0].number == 1
      && d[1].number == p.titles[0].slideNumber + 1 && d[1].title == p.titles[0].title
  {
    hide Bullets;
    hide Explain;
  }

  // ----- Mode 3 -----

  function ExactSlide(e: ExactEntry): Slide
  {
    ContentSlide(e.slideNumber + 1, e.title, StrItems(e.content), "Present the exact content provided for " + e.title + ".")
  }

  function ExactSlides(es: seq<ExactEntry>): (r: seq<Slide>)
    ensures |r| == |es| && forall k :: 0 <= k < |es| ==> r[k] == ExactSlide(es[k])
  {
    seq(|es|, k requires 0 <= k < |es| => ExactSlide(es[k]))
  }

  /** What `_generate_mode_3` returns or raises: no request is made, and the constraint runs unguarded. */
  function Mode3Result(p: Parsed): Result<Presentation, PptError>
  {
    if p.exact == [] then Err(ExactContentMissing)
    else Ok(Presentation(p.topic, SubjectOr(p.subject), EnforceAll([BaseSlide(p.topic, p.subject)] + ExactSlides(p.exact), false)))
  }

  /** `_generate_mode_3`. */
  method GenerateMode3(p: Parsed) returns (r: Result<Presentation, PptError>)
    ensures r == Mode3Result(p)
  {
    if p.exact == [] {
      return Err(ExactContentMissing);
    }
    var slides: seq<Slide> := [];
    var k := 0;
    while k < |p.exact|
      invariant 0 <= k <= |p.exact|
      invariant slides == ExactSlides(p.exact[..k])
    {
      slides := slides + [ExactSlide(p.exact[k])];
      k := k + 1;
    }
    assert p.exact[..k] == p.exact;
    var deck := WithBase(p.topic, p.subject, slides);
    EnforceBulletConstraints(deck, false);
    r := Ok(Presentation(p.topic, SubjectOr(p.subject), deck[..]));
  }

  lemma StrsOfStrItems(xs: seq<string>)
    ensures Strs(StrItems(xs)) == xs
  {
    if xs != [] {
      assert StrItems(xs)[1..] == StrItems(xs[1..]);
      StrsOfStrItems(xs[1..]);
    }
  }

  /** Stripped bullets of at most 140 characters are their own shape. */
  lemma MapShapeOfShort(xs: seq<string>)
    requires forall i :: 0 <= i < |xs| ==> IsStripped(xs[i]) && |xs[i]| <= MaxLen
    ensures MapShape(xs) == xs
  {
    forall i | 0 <= i < |xs| ensures MapShape(xs)[i] == xs[i] {
      StripOfStripped(xs[i]);
    }
  }

  /**
   * Mode 3 content is reshaped: slide k+1 keeps its title but holds only the
   * first ten of its bullets, each shaped. Parsed bullets (stripped) of at
   * most 140 characters survive verbatim when there are at most ten of them.
   */
  lemma Mode3Reshaped(p: Parsed)
    requires p.exact != []
    ensures var d := Mode3Result(p).value.slides;
      && |d| == 1 + |p.exact|
      && forall k :: 0 <= k < |p.exact| ==> ExactReshaped(p.exact[k], d[k + 1])
  {
    var d := [BaseSlide(p.topic, p.subject)] + ExactSlides(p.exact);
    EnforcePassed(d, false);
    hide EnforceAll, Passed, ExactSlide, ExactReshaped;
    forall k | 0 <= k < |p.exact| ensures ExactReshaped(p.exact[k], EnforceAll(d, false)[k + 1]) {
      assert d[k + 1] == ExactSlide(p.exact[k]);
      ExactSlideReshaped(p.exact[k], EnforceAll(d, false)[k + 1]);
    }
  }

  /**
   * A Mode 3 slide after the constraint: the entry's number (shifted) and title, and the
   * first ten of its bullets, each shaped; short stripped bullets, ten or fewer, survive verbatim.
   */
  predicate ExactReshaped(e: ExactEntry, s: Slide)
  {
    && s.number == e.slideNumber + 1 && s.title == e.title
    && s.content == StrItems(Take(MapShape(e.content), MaxBullets))
    && (|e.content| > MaxBullets ==> |s.content| == MaxBullets)
    && ((forall i :: 0 <= i < |e.content| ==> IsStripped(e.content[i]) && |e.content[i]| <= MaxLen) && |e.content| <= MaxBullets
        ==> s.content == StrItems(e.content))
  }

  lemma ExactSlideReshaped(e: ExactEntry, s: Slide)
    requires Passed(ExactSlide(e), s, false)
    ensures ExactReshaped(e, s)
  {
    StrsOfStrItems(e.content);
    if forall i :: 0 <= i < |e.content| ==> IsStripped(e.content[i]) && |e.content[i]| <= MaxLen {
      MapShapeOfShort(e.content);
    }
  }

  function ExactLockedSlides(es: seq<ExactEntry>): (r: seq<Slide>)
    ensures |r| == |es| && forall k :: 0 <= k < |es| ==> r[k] == ExactSlide(es[k]).(exact := true)
  {
    seq(|es|, k requires 0 <= k < |es| => ExactSlide(es[k]).(exact := true))
  }

  /**
   * Mode 3 as its comments promise it: each slide marked as exact content and
   * the constraint run with the exact-content guard, so the bullets stay word for word.
   */
  function Mode3Intended(p: Parsed): Result<Presentation, PptError>
  {
    if p.exact == [] then Err(ExactContentMissing)
    else Ok(Presentation(p.topic, SubjectOr(p.subject), EnforceAll([BaseSlide(p.topic, p.subject)] + ExactLockedSlides(p.exact), true)))
  }

  lemma LockedSlideFields(e: ExactEntry, s: Slide)
    requires s == ExactSlide(e).(exact := true)
    ensures s.number == e.slideNumber + 1 && s.title == e.title && s.content == StrItems(e.content)
  {
  }

  /** Under the intended Mode 3 every slide after the base is the exact entry, bullets unchanged. */
  lemma Mode3IntendedVerbatim(p: Parsed)
    requires p.exact != []
    ensures Mode3Intended(p).Ok?
    ensures var d := Mode3Intended(p).value.slides;
      && |d| == 1 + |p.exact|
      && forall k :: 0 <= k < |p.exact| ==>
           d[k + 1].number == p.exact[k].slideNumber + 1 && d[k + 1].title == p.exact[k].title
           && d[k + 1].content == StrItems(p.exact[k].content)
  {
    var d := [BaseSlide(p.topic, p.subject)] + ExactLockedSlides(p.exact);
    hide EnforceAll, ExactSlide, StrItems, BaseSlide, ExactLockedSlides;
    EnforcePassed(d, true);
    forall k | 0 <= k < |p.exact|
      ensures var s := EnforceAll(d, true)[k + 1];
        s.number == p.exact[k].slideNumber + 1 && s.title == p.exact[k].title && s.content == StrItems(p.exact[k].content)
    {
      EnforceKeepsAllButContent(d, true, k + 1);
      LockedSlideFields(p.exact[k], d[k + 1]);
    }
  }

  /**
   * The discrepancy: a Mode 3 slide with more than ten bullets loses the
   * rest as written, and keeps them all under the intended guard.
   */
  lemma Mode3AsWrittenDropsBullets(p: Parsed)
    requires p.exact != [] && |p.exact[0].content| > MaxBullets
    ensures Mode3Result(p).value.slides[1].content != StrItems(p.exact[0].content)
    ensures Mode3Intended(p).value.slides[1].content == StrItems(p.exact[0].content)
  {
    Mode3Reshaped(p);
    Mode3IntendedVerbatim(p);
    hide Mode3Result, Mode3Intended;
    assert ExactReshaped(p.exact[0], Mode3Result(p).value.slides[0 + 1]);
  }

  // ----- Mode 4 -----

  /** The image of the last mapping for user slide n: the mapping loop lets a later match override. */
  function LastImage(ms: seq<ImageMapping>, n: int): (r: Option<int>)
    ensures r.Some? <==> exists k :: 0 <= k < |ms| && ms[k].slideNumber == n
    ensures r.Some? ==>
      exists k :: 0 <= k < |ms| && ms[k].slideNumber == n && ms[k].imageNumber == r.value && (forall j :: k < j < |ms| ==> ms[j].slideNumber != n)
  {
    if ms == [] then None
    else if ms[|ms| - 1].slideNumber == n then Some(ms[|ms| - 1].imageNumber)
    else
      var r := LastImage(ms[..|ms| - 1], n);
      LastImageStep(ms, n, r);
      r
  }

  /** A mapping found before the last one, when the last one is for another slide, is still the last for n. */
  lemma LastImageStep(ms: seq<ImageMapping>, n: int, r: Option<int>)
    requires ms != [] && ms[|ms| - 1].slideNumber != n
    requires var front := ms[..|ms| - 1];
      && (r.Some? <==> exists k :: 0 <= k < |front| && front[k].slideNumber == n)
      && (r.Some? ==> exists k :: 0 <= k < |front| && front[k].slideNumber == n && front[k].imageNumber == r.value
                        && (forall j :: k < j < |front| ==> front[j].slideNumber != n))
    ensures r.Some? <==> exists k :: 0 <= k < |ms| && ms[k].slideNumber == n
    ensures r.Some? ==>
      exists k :: 0 <= k < |ms| && ms[k].slideNumber == n && ms[k].imageNumber == r.value && (forall j :: k < j < |ms| ==> ms[j].slideNumber != n)
  {
    var front := ms[..|ms| - 1];
    if r.Some? {
      var k :| 0 <= k < |front| && front[k].slideNumber == n && front[k].imageNumber == r.value
               && (forall j :: k < j < |front| ==> front[j].slideNumber != n);
      assert ms[k] == front[k];
      forall j | k < j < |ms| ensures ms[j].slideNumber != n {
        if j < |front| { assert ms[j] == front[j]; }
      }
    } else {
      forall k | 0 <= k < |ms| ensures ms[k].slideNumber != n {
        if k < |front| { assert ms[k] == front[k]; }
      }
    }
  }

  /** The inner `for img_map in parsed['image_mappings']` loop. */
  method MappedImage(ms: seq<ImageMapping>, n: int) returns (image: Option<int>)
    ensures image == LastImage(ms, n)
  {
    image := None;
    var k := 0;
    while k < |ms|
      invariant 0 <= k <= |ms|
      invariant image == LastImage(ms[..k], n)
    {
      assert ms[..k + 1][..k] == ms[..k];
      if ms[k].slideNumber == n {
        image := Some(ms[k].imageNumber);
      }
      k := k + 1;
    }
    assert ms[..k] == ms;
  }

  function MappedSlide(t: TitleEntry, ms: seq<ImageMapping>, topic: string, subject: string, llm: BulletRequest -> LlmReply): Slide
  {
    TitledSlide(t, topic, subject, llm).(imageNumber := LastImage(ms, t.slideNumber))
  }

  function MappedSlides(ts: seq<TitleEntry>, ms: seq<ImageMapping>, topic: string, subject: string, llm: BulletRequest -> LlmReply): (r: seq<Slide>)
    ensures |r| == |ts| && forall k :: 0 <= k < |ts| ==> r[k] == MappedSlide(ts[k], ms, topic, subject, llm)
  {
    seq(|ts|, k requires 0 <= k < |ts| => MappedSlide(ts[k], ms, topic, subject, llm))
  }

  /** What `_generate_mode_4` returns or raises: no image hints, only the user's mappings. */
  function Mode4Result(p: Parsed, llm: BulletRequest -> LlmReply): Result<Presentation, PptError>
  {
    if p.titles == [] then Err(TitlesMissing)
    else if |p.titles| != p.number then Err(TitleCountMismatch(|p.titles|, p.number))
    else
      var d := [BaseSlide(p.topic, p.subject)] + MappedSlides(p.titles, p.mappings, p.topic, p.subject, llm);
      Ok(Presentation(p.topic, SubjectOr(p.subject), EnforceAll(d, false)))
  }

  /** `_generate_mode_4`. */
  method GenerateMode4(p: Parsed, llm: BulletRequest -> LlmReply) returns (r: Result<Presentation, PptError>, calls: seq<BulletRequest>)
    ensures r == Mode4Result(p, llm)
    ensures calls == if p.titles == [] || |p.titles| != p.number then [] else Requests(p.titles)
  {
    hide Bullets, Explain, EnforceAll, LastImage;
    calls := [];
    if p.titles == [] {
      return Err(TitlesMissing), calls;
    }
    if |p.titles| != p.number {
      return Err(TitleCountMismatch(|p.titles|, p.number)), calls;
    }
    var slides: seq<Slide> := [];
    var k := 0;
    while k < |p.titles|
      invariant 0 <= k <= |p.titles|
      invariant slides == MappedSlides(p.titles[..k], p.mappings, p.topic, p.subject, llm)
      invariant calls == Requests(p.titles[..k])
    {
      var t := p.titles[k];
      var bullets := Bullets(llm, t.slideNumber, t.title, p.topic, p.subject);
      calls := calls + [BulletRequest(t.slideNumber, t.title)];
      var slide := ContentSlide(t.slideNumber + 1, t.title, bullets, Explain(t.title, p.topic));
      var image := MappedImage(p.mappings, t.slideNumber);
      slide := slide.(imageNumber := image);
      slides := slides + [slide];
      k := k + 1;
    }
    assert p.titles[..k] == p.titles;
    var deck := WithBase(p.topic, p.subject, slides);
    EnforceBulletConstraints(deck, false);
    r := Ok(Presentation(p.topic, SubjectOr(p.subject), deck[..]));
  }

  /**
   * Mode 4: with as many titles as NUMBER, the deck has NUMBER + 1 slides,
   * slide k+1 carries the k-th user title and the image of the last mapping
   * naming its user slide, and no slide gets an image query.
   */
  lemma Mode4Shape(p: Parsed, llm: BulletRequest -> LlmReply)
    requires p.titles != [] && |p.titles| == p.number
    ensures Mode4Result(p, llm).Ok?
    ensures var d := Mode4Result(p, llm).value.slides;
      && |d| == p.number + 1
      && d[0].imageQuery == None
      && forall k :: 0 <= k < |p.titles| ==> MappedKept(p.titles[k], p.mappings, d[k + 1])
  {
    hide EnforceAll, Passed, MappedSlide, MappedKept;
    var d := [BaseSlide(p.topic, p.subject)] + MappedSlides(p.titles, p.mappings, p.topic, p.subject, llm);
    EnforcePassed(d, false);
    assert d[0] == BaseSlide(p.topic, p.subject);
    forall k | 0 <= k < |p.titles| ensures MappedKept(p.titles[k], p.mappings, EnforceAll(d, false)[k + 1]) {
      assert d[k + 1] == MappedSlide(p.titles[k], p.mappings, p.topic, p.subject, llm);
      MappedSlidePassed(p.titles[k], p.mappings, p.topic, p.subject, llm, EnforceAll(d, false)[k + 1]);
    }
  }

  /**
   * A Mode 4 user slide after the constraint: the title's number (shifted) and text, no
   * image query, and the image of the last mapping that names it, if any.
   */
  predicate MappedKept(t: TitleEntry, ms: seq<ImageMapping>, s: Slide)
  {
    && s.number == t.slideNumber + 1 && s.title == t.title && s.imageQuery == None
    && s.imageNumber == LastImage(ms, t.slideNumber)
    && (s.imageNumber.Some? <==> exists m :: m in ms && m.slideNumber == t.slideNumber)
  }

  lemma MappedSlidePassed(t: TitleEntry, ms: seq<ImageMapping>, topic: string, subject: string, llm: BulletRequest -> LlmReply, s: Slide)
    requires Passed(MappedSlide(t, ms, topic, subject, llm), s, false)
    requires s.imageQuery == MappedSlide(t, ms, topic, subject, llm).imageQuery
    ensures MappedKept(t, ms, s)
  {
    if exists m :: m in ms && m.slideNumber == t.slideNumber {
      var m :| m in ms && m.slideNumber == t.slideNumber;
      var i :| 0 <= i < |ms| && ms[i] == m;
    }
  }

  // ----- the fallback deck -----

  function KeyConceptSlide(i: nat, topic: string): Slide
  {
    ContentSlide(i + 1, "Key Concept " + NatToString(i),
      [Str("Important aspect 1 of " + topic), Str("Key point 2 related to " + topic), Str("Essential concept 3 about " + topic)],
      "Explain key concept " + NatToString(i) + " related to " + topic + ".")
  }

  /** The base slide of the fallback deck: the subject, or "Generated by EduAssist" without one. */
  function FallbackBase(topic: string, subject: string): (s: Slide)
    ensures s.number == 1 && s.kind == TitleKind && s.title == topic
    ensures s.content == [Str(if subject != [] then subject else "Generated by EduAssist")]
  {
    BaseSlide(topic, subject).(content := [Str(if subject != [] then subject else "Generated by EduAssist")])
  }

  function FallbackDeck(topic: string, subject: string, num: int): seq<Slide>
  {
    var n := if num < 0 then 0 else num;
    [FallbackBase(topic, subject)] + seq(n, k requires 0 <= k < n => KeyConceptSlide(k + 1, topic))
  }

  /** `_create_fallback_slides`. */
  method CreateFallbackSlides(topic: string, subject: string, num: int) returns (r: Presentation)
    ensures r == Presentation(topic, SubjectOr(subject), FallbackDeck(topic, subject, num))
  {
    var slides := [FallbackBase(topic, subject)];
    var i := 1;
    while i <= num
      invariant 1 <= i <= (if num < 0 then 1 else num + 1)
      invariant |slides| == i
      invariant slides[0] == FallbackBase(topic, subject)
      invariant forall k :: 1 <= k < i ==> slides[k] == KeyConceptSlide(k, topic)
    {
      slides := slides + [KeyConceptSlide(i, topic)];
      i := i + 1;
    }
    var d := FallbackDeck(topic, subject, num);
    assert |slides| == |d|;
    assert forall k :: 0 <= k < |d| ==> slides[k] == d[k];
    r := Presentation(topic, SubjectOr(subject), slides);
  }

  lemma NatToStringInjective(a: nat, b: nat)
    requires NatToString(a) == NatToString(b)
    ensures a == b
  {
    ParseNatToString(a);
    ParseNatToString(b);
  }

  /**
   * The fallback deck: the base slide and max(num, 0) user slides, slide k+1
   * numbered k+1 and titled "Key Concept k", with pairwise distinct titles.
   */
  lemma FallbackShape(topic: string, subject: string, num: int)
    ensures var d := FallbackDeck(topic, subject, num);
      && |d| == 1 + (if num < 0 then 0 else num)
      && (forall k :: 1 <= k < |d| ==> d[k].number == k + 1 && d[k].kind == ContentKind && |d[k].content| == 3)
      && (forall a, b :: 1 <= a < b < |d| ==> d[a].title != d[b].title)
  {
    var d := FallbackDeck(topic, subject, num);
    forall a, b | 1 <= a < b < |d| ensures d[a].title != d[b].title {
      var pre := "Key Concept ";
      if d[a].title == d[b].title {
        assert NatToString(a) == d[a].title[|pre|..];
        assert NatToString(b) == d[b].title[|pre|..];
        NatToStringInjective(a, b);
      }
    }
  }
}
