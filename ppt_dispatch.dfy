/**
 * `generate_slide_content`, the entry point of the PPT generator agent: with
 * a non-empty prompt it detects the PPT mode and runs that mode's parser and
 * generator; without one it runs the legacy whole-deck generation, which
 * falls back to the static deck when the model's reply cannot be used.
 */
module PptDispatch {
  import opened Wrappers
  import opened Text
  import opened Sorting
  import opened PptPatterns
  import opened PptModeDetect
  import opened PptSlides
  import opened PptParsed
  import opened PptParseTitles
  import opened PptParseExact
  import opened PptParseInstructions
  import opened PptGenerate
  import opened PptGenerateMixed

  // ----- the JSON text of a model reply -----

  /** `s.split("```")[0]`: s up to its first fence, or all of s. */
  function UpToFence(s: string): (r: string)
    ensures |r| <= |s| && r == s[..|r|]
    ensures !Contains(s, "```") ==> r == s
    ensures Contains(s, "```") ==> StartsAt(s, |r|, "```") && forall k :: 0 <= k < |r| ==> !StartsAt(s, k, "```")
  {
    if Contains(s, "```") then s[..Find(s, "```")] else s
  }

  /**
   * The fence handling of the legacy generation: the text after the first
   * "```json" (else after the first "```") up to the next "```", stripped; a
   * reply without a fence is kept unchanged.
   */
  function JsonText(reply: string): string
  {
    if Contains(reply, "```json") then Strip(UpToFence(reply[Find(reply, "```json") + 7..]))
    else if Contains(reply, "```") then Strip(UpToFence(reply[Find(reply, "```") + 3..]))
    else reply
  }

  /** A reply `"```json" + body + "```" + tail` yields the stripped body when the body holds no backquote. */
  lemma JsonFenceBody(body: string, tail: string)
    requires '`' !in body
    ensures JsonText("```json" + body + "```" + tail) == Strip(body)
  {
    hide Strip;
    var t := "```json" + body + "```" + tail;
    assert t[0..7] == "```json";
    assert StartsAt(t, 0, "```json");
    assert Find(t, "```json") == 0;
    var rest := t[7..];
    assert rest == body + "```" + tail;
    assert rest[|body|..|body| + 3] == "```";
    assert StartsAt(rest, |body|, "```");
    forall k | 0 <= k < |body| ensures !StartsAt(rest, k, "```") {
      assert rest[k] == body[k];
    }
    assert Find(rest, "```") == |body|;
    assert rest[..|body|] == body;
  }

  /** A reply without a fence is handed to the JSON decoder unchanged. */
  lemma JsonTextNoFence(reply: string)
    requires '`' !in reply
    ensures JsonText(reply) == reply
  {
    hide Strip;
    hide UpToFence;
    NoFenceIn(reply, "```");
    NoFenceIn(reply, "```json");
  }

  lemma NoFenceIn(s: string, t: string)
    requires '`' !in s && |t| > 0 && t[0] == '`'
    ensures !Contains(s, t)
  {
    if Contains(s, t) {
      var k := ContainsWitness(s, t);
    }
  }

  // ----- legacy generation -----

  /** The legacy base slide differs from the others only in its notes. */
  function LegacyBase(topic: string, subject: string): (s: Slide)
    ensures s == BaseSlide(topic, subject).(notes := "Introduction to " + topic + ".")
  {
    BaseSlide(topic, subject).(notes := "Introduction to " + topic + ".")
  }

  function Shifted(x: Slide): Slide
  {
    x.(number := x.number + 1)
  }

  /** The renumbering loop: every slide of the reply moves up by one. */
  method ShiftNumbers(xs: seq<Slide>) returns (ys: seq<Slide>)
    ensures |ys| == |xs|
    ensures forall k :: 0 <= k < |xs| ==> ys[k] == Shifted(xs[k])
  {
    ys := [];
    for k := 0 to |xs|
      invariant |ys| == k
      invariant forall j :: 0 <= j < k ==> ys[j] == Shifted(xs[j])
    {
      ys := ys + [Shifted(xs[k])];
    }
  }

  /** The legacy deck before the passes. */
  function LegacyRaw(topic: string, subject: string, xs: seq<Slide>): (d: seq<Slide>)
    ensures |d| == 1 + |xs| && d[0] == LegacyBase(topic, subject)
    ensures forall k :: 0 <= k < |xs| ==> d[k + 1] == Shifted(xs[k])
  {
    [LegacyBase(topic, subject)] + seq(|xs|, k requires 0 <= k < |xs| => Shifted(xs[k]))
  }

  function LegacyDeck(topic: string, subject: string, xs: seq<Slide>): seq<Slide>
  {
    var d := LegacyRaw(topic, subject, xs);
    EnforceAll(ImageHints(d, UserSlides(d), topic, subject), false)
  }

  /**
   * `_generate_legacy`: `reply` is the model's text (None when the call
   * raises), `decode` the JSON decoding of it followed by `.get("slides", [])`
   * (None when decoding raises); either failure gives the fallback deck.
   */
  function LegacyResult(topic: string, subject: string, num: int, reply: Option<string>, decode: string -> Option<seq<Slide>>): Presentation
  {
    var slides := if reply.Some? then decode(JsonText(reply.value)) else None;
    match slides
    case None => Presentation(topic, SubjectOr(subject), FallbackDeck(topic, subject, num))
    case Some(xs) => Presentation(topic, SubjectOr(subject), LegacyDeck(topic, subject, xs))
  }

  method GenerateLegacy(topic: string, subject: string, num: int, reply: Option<string>, decode: string -> Option<seq<Slide>>)
    returns (r: Presentation)
    ensures r == LegacyResult(topic, subject, num, reply, decode)
  {
    hide ImageHints;
    hide EnforceAll;
    hide FallbackDeck;
    hide Strip;
    hide LegacyRaw;
    hide Shifted;
    if reply.None? {
      r := CreateFallbackSlides(topic, subject, num);
      return;
    }
    var text := reply.value;
    if Contains(text, "```json") {
      text := UpToFence(text[Find(text, "```json") + 7..]);
      text := Strip(text);
    } else if Contains(text, "```") {
      text := UpToFence(text[Find(text, "```") + 3..]);
      text := Strip(text);
    }
    var slides := decode(text);
    if slides.None? {
      r := CreateFallbackSlides(topic, subject, num);
      return;
    }
    var ys := ShiftNumbers(slides.value);
    var all := [LegacyBase(topic, subject)] + ys;
    var deck := new Slide[|all|](i requires 0 <= i < |all| => all[i]);
    assert deck[..] == LegacyRaw(topic, subject, slides.value);
    AddImageHints(deck, UserSlides(deck[..]), topic, subject);
    EnforceBulletConstraints(deck, false);
    r := Presentation(topic, SubjectOr(subject), deck[..]);
  }

  /**
   * The legacy deck: the base slide, then every slide of the reply one number
   * higher with its title and kind kept and its bullets shaped; only slides
   * numbered above 1 after the shift may gain an image query.
   */
  lemma LegacyShape(topic: string, subject: string, xs: seq<Slide>)
    ensures var d := LegacyDeck(topic, subject, xs);
      && |d| == 1 + |xs|
      && d[0] == LegacyBase(topic, subject).(content := [Str(Shape(SubjectOr(subject)))])
      && (forall k :: 0 <= k < |xs| ==> Passed(Shifted(xs[k]), d[k + 1], false))
      && (forall k :: 0 <= k < |xs| && xs[k].number < 1 ==> d[k + 1].imageQuery == xs[k].imageQuery)
      && (forall k :: 0 <= k < |xs| && xs[k].kind == OtherKind && !IsIntroLike(xs[k]) && !IsArchLike(xs[k]) ==>
            d[k + 1].imageQuery == xs[k].imageQuery)
  {
    hide ImageHints;
    hide EnforceSlide;
    hide Trimmed;
    hide LegacyRaw;
    hide Shifted;
    var d := LegacyRaw(topic, subject, xs);
    PassesKept(d, UserSlides(d), false, topic, subject);
    BaseTrimmed(topic, subject);
    forall k | 0 <= k < |xs| && xs[k].number < 1 ensures k + 1 !in UserSlides(d) && d[k + 1].imageQuery == xs[k].imageQuery {
      ShiftedNumber(xs[k]);
    }
    forall k | 0 <= k < |xs| && xs[k].kind == OtherKind && !IsIntroLike(xs[k]) && !IsArchLike(xs[k])
      ensures LegacyDeck(topic, subject, xs)[k + 1].imageQuery == xs[k].imageQuery
    {
      UntypedSlideKept(topic, subject, xs, k);
    }
  }

  /**
   * A reply slide without a `slide_type` whose title is neither intro-like
   * nor architecture-like never gains an image query: not in the main loop,
   * and not as the forced architecture slide, which must be a "content" slide.
   */
  lemma UntypedSlideKept(topic: string, subject: string, xs: seq<Slide>, k: nat)
    requires k < |xs| && xs[k].kind == OtherKind && !IsIntroLike(xs[k]) && !IsArchLike(xs[k])
    ensures LegacyDeck(topic, subject, xs)[k + 1].imageQuery == xs[k].imageQuery
  {
    hide EnforceAll;
    var d := LegacyRaw(topic, subject, xs);
    assert d[k + 1] == xs[k].(number := xs[k].number + 1);
    ImageHintsSkipsPlain(d, UserSlides(d), topic, subject, k + 1);
    EnforcePassed(ImageHints(d, UserSlides(d), topic, subject), false);
  }

  lemma ShiftedNumber(x: Slide)
    ensures Shifted(x).number == x.number + 1 && Shifted(x).imageQuery == x.imageQuery
  {
  }

  /** A reply that cannot be used gives the static deck. */
  lemma LegacyFallsBack(topic: string, subject: string, num: int, reply: Option<string>, decode: string -> Option<seq<Slide>>)
    requires reply.None? || decode(JsonText(reply.value)).None?
    ensures LegacyResult(topic, subject, num, reply, decode).slides == FallbackDeck(topic, subject, num)
  {
  }

  // ----- the mode dispatch -----

  /** The Mode 3 parse, which cannot fail. */
  function Mode3Parsed(prompt: string): Parsed
  {
    var all := Mode3All(prompt);
    Parsed(Mode3, RaisedNumber(DeclaredNumber(prompt), all, ExactKey), TopicOf(prompt), SubjectOf(prompt),
           [], SortBy(all, ExactKey), [], [])
  }

  /** A successful Mode 5 parse of instructions xs. */
  function Mode5Parsed(prompt: string, xs: seq<Instruction>): Parsed
  {
    Parsed(Mode5, RaisedNumber(DeclaredNumber(prompt), xs, InstructionKey), TopicOf(prompt), SubjectOf(prompt),
           [], [], [], SortBy(xs, InstructionKey))
  }

  /** What a Mode 2 or Mode 4 request yields: the parse errors, or the generator run on a parse of the titles c. */
  ghost predicate TitlesDispatched(prompt: string, mode: PptMode, r: Result<Presentation, PptError>, llm: BulletRequest -> LlmReply)
    requires mode == Mode2 || mode == Mode4
  {
    var c := if mode == Mode2 then Mode2Candidates(prompt) else Mode4Candidates(prompt);
    var n := RaisedNumber(DeclaredNumber(prompt), c, TitleKey);
    if mode == Mode2 then
      && (c == [] ==> r == Err(TitlesMissing))
      && (c != [] && |Keys(c, TitleKey)| < n ==> r == Err(TooFewTitles(|Keys(c, TitleKey)|, n)))
      && (c != [] && |Keys(c, TitleKey)| >= n ==>
        exists p :: TitlesParsed(p, Mode2, prompt, c) && p.mappings == [] && r == Mode2Result(p, llm))
    else
      exists p :: TitlesParsed(p, Mode4, prompt, c) && p.mappings == Mode4Mappings(prompt) && r == Mode4Result(p, llm)
  }

  /** What `generate_slide_content` returns or raises for a non-empty prompt. */
  ghost predicate PromptDispatched(prompt: string, r: Result<Presentation, PptError>, llm: BulletRequest -> LlmReply)
  {
    match DetectPptMode(prompt)
    case Mode1 =>
      var p := ParseMode1(prompt);
      r == Ok(Presentation(p.topic, SubjectOr(p.subject), Mode1Deck(p, llm)))
    case Mode2 => TitlesDispatched(prompt, Mode2, r, llm)
    case Mode3 => r == Mode3Result(Mode3Parsed(prompt))
    case Mode4 => TitlesDispatched(prompt, Mode4, r, llm)
    case Mode5 =>
      match Mode5All(prompt)
      case Err(e) => r == Err(e)
      case Ok(xs) => r == Mode5Result(Mode5Parsed(prompt, xs), llm)
  }

  /** A prompt that holds "slide titles:" in any case is not blank. */
  lemma TitlesRequestNotBlank(prompt: string)
    requires Contains(Lower(prompt), "slide titles:")
    ensures Strip(prompt) != []
  {
    var k := ContainsWitness(Lower(prompt), "slide titles:");
    assert Lower(prompt)[k..k + 13][0] == 's';
    assert !IsSpace(prompt[k]);
    NonSpaceSurvivesStrip(prompt, k);
  }

  lemma NonSpaceSurvivesStrip(s: string, k: nat)
    requires k < |s| && !IsSpace(s[k])
    ensures Strip(s) != []
  {
    var l := LStrip(s);
    LStripIsSuffix(s);
    assert k >= |s| - |l|;
    assert l[k - (|s| - |l|)] == s[k];
    var r := RStrip(l);
    assert k - (|s| - |l|) < |r|;
  }

  /** A successful Mode 2 generation passes the count and title checks the entry point repeats. */
  lemma Mode2ResultChecked(p: Parsed, llm: BulletRequest -> LlmReply)
    requires Mode2Result(p, llm).Ok?
    ensures |Mode2Result(p, llm).value.slides| == p.number + 1
    ensures FirstBadTitle(Mode2Result(p, llm).value.slides, TitleMap(p.titles), 0).None?
  {
    hide EnforceSlide;
    var raw := Mode2Raw(p, llm);
    EnforcePassed(raw, false);
    FirstBadTitleKept(raw, EnforceAll(raw, false), TitleMap(p.titles), 0);
  }

  /**
   * User titles are law, from prompt to deck: when a Mode 2 prompt gives at
   * least NUMBER distinct slide numbers, all of them 1 or more, the deck has
   * NUMBER + 1 slides and slide k+1 carries, unchanged and locked, the first
   * title the prompt gives for slide k.
   */
  lemma Mode2PromptTitlesKept(prompt: string, p: Parsed, llm: BulletRequest -> LlmReply)
    requires var c := Mode2Candidates(prompt);
      && TitlesParsed(p, Mode2, prompt, c) && c != []
      && |Keys(c, TitleKey)| >= RaisedNumber(DeclaredNumber(prompt), c, TitleKey)
      && forall e :: e in c ==> e.slideNumber >= 1
    ensures Mode2Result(p, llm).Ok?
    ensures var d := Mode2Result(p, llm).value.slides; var c := Mode2Candidates(prompt);
      && |d| == p.number + 1
      && forall k :: 1 <= k <= p.number ==>
        exists e :: FirstWithKey(c, TitleKey, k) == Some(e) && d[k].title == e.title && d[k].originalTitle == Some(e.title)
  {
    hide Mode2Result;
    hide Mode2Candidates;
    hide TitlesParsed;
    var c := Mode2Candidates(prompt);
    var u := p.titles;
    Mode2ParsedOneToN(prompt, p);
    Mode2TitlesPure(p, llm);
    var d := Mode2Result(p, llm).value.slides;
    forall k | 1 <= k <= p.number
      ensures exists e :: FirstWithKey(c, TitleKey, k) == Some(e) && d[k].title == e.title && d[k].originalTitle == Some(e.title)
    {
      assert FirstWithKey(c, TitleKey, k) == Some(u[k - 1]);
    }
  }

  /** Such a parse holds slides 1, ..., NUMBER in order, each the first title given for its number. */
  lemma Mode2ParsedOneToN(prompt: string, p: Parsed)
    requires var c := Mode2Candidates(prompt);
      && TitlesParsed(p, Mode2, prompt, c) && c != []
      && |Keys(c, TitleKey)| >= RaisedNumber(DeclaredNumber(prompt), c, TitleKey)
      && forall e :: e in c ==> e.slideNumber >= 1
    ensures p.titles != [] && |p.titles| == p.number
    ensures forall i :: 0 <= i < |p.titles| ==> p.titles[i].slideNumber == i + 1
    ensures forall i :: 0 <= i < |p.titles| ==> FirstWithKey(Mode2Candidates(prompt), TitleKey, i + 1) == Some(p.titles[i])
  {
    hide Mode2Candidates, FirstWithKey, RaisedNumber, DeclaredNumber;
    var c := Mode2Candidates(prompt);
    var u := p.titles;
    forall a, b | 0 <= a < b < |u| ensures TitleKey(u[a]) != TitleKey(u[b]) { }
    DistinctKeysCount(u, TitleKey);
    TitlesCoverOneToN(u, c, p.number);
    forall i | 0 <= i < |u| ensures FirstWithKey(c, TitleKey, i + 1) == Some(u[i]) {
      assert u[i] in u;
    }
    assert TitleKey(c[0]) in Keys(c, TitleKey);
  }

  /**
   * `generate_slide_content` on a prompt (`[]` for no prompt); `reply` and
   * `decode` feed the legacy generation. The two "Mode 2 needs a prompt"
   * failures, the Mode 2 re-checks and the invalid-mode failure cannot happen.
   */
  method GenerateSlideContent(topic: string, subject: string, num: int, prompt: string, llm: BulletRequest -> LlmReply,
                              reply: Option<string>, decode: string -> Option<seq<Slide>>)
    returns (r: Result<Presentation, PptError>)
    ensures prompt == [] ==> r == Ok(LegacyResult(topic, subject, num, reply, decode))
    ensures prompt != [] ==> PromptDispatched(prompt, r, llm)
  {
    hide Mode1Deck;
    hide Mode2Result;
    hide Mode3Result;
    hide Mode4Result;
    hide Mode5Result;
    hide LegacyResult;
    hide Mode2Candidates;
    hide Mode4Candidates;
    hide Mode4Mappings;
    hide Mode5All;
    hide DetectPptMode;
    hide TitlesParsed;
    var titlesRequest := false;
    if prompt != [] {
      titlesRequest := Contains(Lower(prompt), "slide titles:");
    }
    if titlesRequest && (prompt == [] || Strip(prompt) == []) {
      TitlesRequestNotBlank(prompt);
      assert false;
    }
    if prompt != [] {
      var mode := DetectPptMode(prompt);
      var calls;
      match mode {
      case Mode2 =>
        var parsed := ParseMode2(prompt);
        if parsed.Err? {
          return Err(parsed.error);
        }
        var p := parsed.value;
        r, calls := GenerateMode2(p, llm);
        if r.Ok? {
          Mode2ResultChecked(p, llm);
          if |r.value.slides| != p.number + 1 {
            assert false;
          }
          var userTitles := BuildTitleMap(p.titles);
          var bad := CheckTitles(r.value.slides, userTitles);
          if bad.Some? {
            assert false;
          }
        }
        assert TitlesParsed(p, Mode2, prompt, Mode2Candidates(prompt));
      case Mode1 =>
        var p := ParseMode1(prompt);
        var deck;
        deck, calls := GenerateMode1(p, llm);
        r := Ok(deck);
      case Mode3 =>
        var p := ParseMode3(prompt);
        r := GenerateMode3(p);
      case Mode4 =>
        var p := ParseMode4(prompt);
        r, calls := GenerateMode4(p, llm);
        assert TitlesParsed(p, Mode4, prompt, Mode4Candidates(prompt));
      case Mode5 =>
        var parsed := ParseMode5(prompt);
        if parsed.Err? {
          return Err(parsed.error);
        }
        r, calls := GenerateMode5(parsed.value, llm);
      }
      return;
    }
    if titlesRequest {
      assert false;
    }
    var deck := GenerateLegacy(topic, subject, num, reply, decode);
    r := Ok(deck);
  }
}
