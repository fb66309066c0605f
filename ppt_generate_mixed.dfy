/**
 * `_generate_mode_5` of the PPT generator agent: one slide per instruction,
 * EXACT bullets injected without a request, generated bullets requested,
 * the image mode applied, hints on the open slides, the guarded bullet
 * constraint, and the final check that EXACT content is unchanged.
 */
module PptGenerateMixed {
  import opened Wrappers
  import opened Text
  import opened PptSlides
  import opened PptParsed
  import opened PptGenerate

  /** `not instruction['should_generate'] and instruction.get('exact_content')`. */
  predicate IsExact(i: Instruction)
  {
    !i.generate && i.exactContent.Some? && i.exactContent.value != []
  }

  /** The slide of one instruction before the passes. */
  function InstructionSlide(i: Instruction, topic: string, subject: string, llm: BulletRequest -> LlmReply): (s: Slide)
    ensures s.number == i.slideNumber + 1 && s.kind == ContentKind && s.title == i.title
    ensures s.imageQuery == None && s.imageMode == Some(i.imageMode) && s.originalTitle == None
    ensures s.exact == IsExact(i)
    ensures IsExact(i) ==> s.content == StrItems(i.exactContent.value)
    ensures i.generate ==> s.content == Bullets(llm, i.slideNumber, i.title, topic, subject)
    ensures !IsExact(i) && !i.generate ==> s.content == []
    ensures s.noImage <==> i.imageMode == NoImage
    ensures s.imageNumber.Some? <==> i.imageMode == Upload && i.imageNumber.Some? && i.imageNumber.value != 0
  {
    var plain := Slide(i.slideNumber + 1, ContentKind, i.title, [], "Present " + i.title + " in the context of " + topic + ".",
                       None, None, None, Some(i.imageMode), false, false, None);
    var imaged :=
      if i.imageMode == Upload then
        (if i.imageNumber.Some? && i.imageNumber.value != 0 then plain.(imageNumber := i.imageNumber) else plain)
      else if i.imageMode == NoImage then plain.(noImage := true)
      else plain;
    if IsExact(i) then imaged.(content := StrItems(i.exactContent.value), exact := true)
    else if i.generate then imaged.(content := Bullets(llm, i.slideNumber, i.title, topic, subject))
    else imaged
  }

  function InstructionSlides(ins: seq<Instruction>, topic: string, subject: string, llm: BulletRequest -> LlmReply): (r: seq<Slide>)
    ensures |r| == |ins| && forall k :: 0 <= k < |ins| ==> r[k] == InstructionSlide(ins[k], topic, subject, llm)
  {
    seq(|ins|, k requires 0 <= k < |ins| => InstructionSlide(ins[k], topic, subject, llm))
  }

  /** The requests of Mode 5: one per instruction that generates, in order; none for an EXACT slide. */
  function GenerateRequests(ins: seq<Instruction>): (r: seq<BulletRequest>)
    ensures |r| <= |ins|
    ensures forall q :: q in r ==>
      exists k :: 0 <= k < |ins| && ins[k].generate && !IsExact(ins[k]) && q == BulletRequest(ins[k].slideNumber, ins[k].title)
    ensures (forall k :: 0 <= k < |ins| ==> !ins[k].generate) ==> r == []
  {
    if ins == [] then []
    else
      var front := ins[..|ins| - 1];
      var last := ins[|ins| - 1];
      assert forall k :: 0 <= k < |front| ==> front[k] == ins[k];
      GenerateRequests(front) + (if last.generate then [BulletRequest(last.slideNumber, last.title)] else [])
  }

  /** The slides the hint pass of Mode 5 receives: user slides not marked NONE and without an uploaded image. */
  predicate HintOpen(s: Slide)
  {
    s.number > 1 && s.imageMode != Some(NoImage) && s.imageNumber.None?
  }

  function HintSlides(d: seq<Slide>): (r: seq<int>)
    ensures ValidIndices(r, |d|)
    ensures forall j :: 0 <= j < |d| ==> (j in r <==> HintOpen(d[j]))
  {
    if d == [] then []
    else HintSlides(d[..|d| - 1]) + (if HintOpen(d[|d| - 1]) then [|d| - 1] else [])
  }

  /** The `user_slides` loop of `_generate_mode_5`. */
  method CollectHintSlides(d: seq<Slide>) returns (idx: seq<int>)
    ensures idx == HintSlides(d)
  {
    idx := [];
    var j := 0;
    while j < |d|
      invariant 0 <= j <= |d|
      invariant idx == HintSlides(d[..j])
    {
      assert d[..j + 1][..j] == d[..j];
      var s := d[j];
      if s.number > 1 {
        if s.imageMode == Some(NoImage) {
          j := j + 1;
          continue;
        }
        if s.imageNumber.None? {
          idx := idx + [j];
        }
      }
      j := j + 1;
    }
    assert d[..j] == d;
  }

  /** The Mode 5 deck after the passes, before the EXACT check. */
  function Mode5Deck(p: Parsed, llm: BulletRequest -> LlmReply): seq<Slide>
  {
    var raw := [BaseSlide(p.topic, p.subject)] + InstructionSlides(p.instructions, p.topic, p.subject, llm);
    var idx := HintSlides(raw);
    EnforceAll(if idx == [] then raw else ImageHints(raw, idx, p.topic, p.subject), true)
  }

  // ----- the EXACT content verification -----

  /** The position of the first slide numbered n from position k. */
  function FirstNumbered(d: seq<Slide>, n: int, k: nat): (r: Option<nat>)
    requires k <= |d|
    ensures r.Some? ==> k <= r.value < |d| && d[r.value].number == n && forall j :: k <= j < r.value ==> d[j].number != n
    ensures r.None? ==> forall j :: k <= j < |d| ==> d[j].number != n
    decreases |d| - k
  {
    if k == |d| then None
    else if d[k].number == n then Some(k)
    else FirstNumbered(d, n, k + 1)
  }

  /** Equal counts, and `str(expected).strip() == str(actual).strip()` pair by pair. */
  predicate BulletsAgree(expected: seq<string>, actual: seq<Item>)
  {
    |expected| == |actual| && forall k :: 0 <= k < |expected| ==> Strip(expected[k]) == Strip(ItemText(actual[k]))
  }

  /** An EXACT instruction passes when the first slide with its number holds its bullets. */
  predicate ExactKept(i: Instruction, d: seq<Slide>)
  {
    IsExact(i) ==>
      match FirstNumbered(d, i.slideNumber + 1, 0)
      case None => true
      case Some(j) => BulletsAgree(i.exactContent.value, d[j].content)
  }

  /** The slide number the verification rejects first, from instruction k on. */
  function FirstUnkept(ins: seq<Instruction>, d: seq<Slide>, k: nat): (r: Option<int>)
    requires k <= |ins|
    ensures r.None? <==> forall m :: k <= m < |ins| ==> ExactKept(ins[m], d)
    decreases |ins| - k
  {
    if k == |ins| then None
    else if !ExactKept(ins[k], d) then Some(ins[k].slideNumber + 1)
    else FirstUnkept(ins, d, k + 1)
  }

  /** The `for slide in final_slides` search. */
  method FindNumbered(d: seq<Slide>, n: int) returns (r: Option<nat>)
    ensures r == FirstNumbered(d, n, 0)
  {
    var k := 0;
    while k < |d|
      invariant 0 <= k <= |d|
      invariant FirstNumbered(d, n, k) == FirstNumbered(d, n, 0)
    {
      if d[k].number == n {
        return Some(k);
      }
      k := k + 1;
    }
    return None;
  }

  /** The count comparison, then the pairwise `zip` comparison. */
  method CompareBullets(expected: seq<string>, actual: seq<Item>) returns (ok: bool)
    ensures ok == BulletsAgree(expected, actual)
  {
    if |expected| != |actual| {
      return false;
    }
    var k := 0;
    while k < |expected|
      invariant 0 <= k <= |expected|
      invariant forall m :: 0 <= m < k ==> Strip(expected[m]) == Strip(ItemText(actual[m]))
    {
      if Strip(expected[k]) != Strip(ItemText(actual[k])) {
        return false;
      }
      k := k + 1;
    }
    return true;
  }

  /** The EXACT content verification loop over the instructions. */
  method VerifyExact(ins: seq<Instruction>, d: seq<Slide>) returns (bad: Option<int>)
    ensures bad == FirstUnkept(ins, d, 0)
  {
    var k := 0;
    while k < |ins|
      invariant 0 <= k <= |ins|
      invariant FirstUnkept(ins, d, k) == FirstUnkept(ins, d, 0)
    {
      var i := ins[k];
      if IsExact(i) {
        var j := FindNumbered(d, i.slideNumber + 1);
        if j.Some? {
          var ok := CompareBullets(i.exactContent.value, d[j.value].content);
          if !ok {
            return Some(i.slideNumber + 1);
          }
        }
      }
      k := k + 1;
    }
    return None;
  }

  /** What `_generate_mode_5` returns or raises. */
  function Mode5Result(p: Parsed, llm: BulletRequest -> LlmReply): Result<Presentation, PptError>
  {
    var d := Mode5Deck(p, llm);
    match FirstUnkept(p.instructions, d, 0)
    case Some(n) => Err(ExactContentChanged(n))
    case None => Ok(Presentation(p.topic, SubjectOr(p.subject), d))
  }

  /**
   * `_generate_mode_5`. The slide-count checks before and after the passes
   * cannot fail (the deck has 1 + |instructions| slides by construction), and
   * an EXACT slide always has bullets, so the empty-content error is not modelled.
   */
  method GenerateMode5(p: Parsed, llm: BulletRequest -> LlmReply) returns (r: Result<Presentation, PptError>, calls: seq<BulletRequest>)
    ensures r == Mode5Result(p, llm)
    ensures calls == GenerateRequests(p.instructions)
  {
    hide InstructionSlides;
    hide ImageHints;
    hide EnforceAll;
    hide FirstUnkept;
    hide HintSlides;
    var ins := p.instructions;
    var slides, requests := BuildInstructionSlides(ins, p.topic, p.subject, llm);
    calls := requests;
    var deck := WithBase(p.topic, p.subject, slides);
    var idx := CollectHintSlides(deck[..]);
    if idx != [] {
      AddImageHints(deck, idx, p.topic, p.subject);
    }
    EnforceBulletConstraints(deck, true);
    var bad := VerifyExact(ins, deck[..]);
    if bad.Some? {
      return Err(ExactContentChanged(bad.value)), calls;
    }
    r := Ok(Presentation(p.topic, SubjectOr(p.subject), deck[..]));
  }

  /** The instruction loop of `_generate_mode_5`. */
  method BuildInstructionSlides(ins: seq<Instruction>, topic: string, subject: string, llm: BulletRequest -> LlmReply)
    returns (slides: seq<Slide>, calls: seq<BulletRequest>)
    ensures slides == InstructionSlides(ins, topic, subject, llm)
    ensures calls == GenerateRequests(ins)
  {
    hide InstructionSlides;
    hide GenerateRequests;
    slides := [];
    calls := [];
    var k := 0;
    while k < |ins|
      invariant 0 <= k <= |ins|
      invariant slides == InstructionSlides(ins[..k], topic, subject, llm)
      invariant calls == GenerateRequests(ins[..k])
    {
      InstructionsSnoc(ins, k, topic, subject, llm);
      var slide := BuildInstructionSlide(ins[k], topic, subject, llm);
      if !IsExact(ins[k]) && ins[k].generate {
        calls := calls + [BulletRequest(ins[k].slideNumber, ins[k].title)];
      }
      slides := slides + [slide];
      k := k + 1;
    }
    assert ins[..k] == ins;
  }

  lemma InstructionsSnoc(ins: seq<Instruction>, k: nat, topic: string, subject: string, llm: BulletRequest -> LlmReply)
    requires k < |ins|
    ensures InstructionSlides(ins[..k + 1], topic, subject, llm) == InstructionSlides(ins[..k], topic, subject, llm) + [InstructionSlide(ins[k], topic, subject, llm)]
    ensures GenerateRequests(ins[..k + 1]) ==
      GenerateRequests(ins[..k]) + (if ins[k].generate then [BulletRequest(ins[k].slideNumber, ins[k].title)] else [])
  {
    hide InstructionSlide;
    assert ins[..k + 1][..k] == ins[..k];
  }

  /** The body of the instruction loop: image mode first, then the content. */
  method BuildInstructionSlide(i: Instruction, topic: string, subject: string, llm: BulletRequest -> LlmReply) returns (slide: Slide)
    ensures slide == InstructionSlide(i, topic, subject, llm)
  {
    slide := Slide(i.slideNumber + 1, ContentKind, i.title, [], "Present " + i.title + " in the context of " + topic + ".",
                   None, None, None, Some(i.imageMode), false, false, None);
    if i.imageMode == Upload {
      if i.imageNumber.Some? && i.imageNumber.value != 0 {
        slide := slide.(imageNumber := i.imageNumber);
      }
    } else if i.imageMode == NoImage {
      slide := slide.(noImage := true);
    }
    if IsExact(i) {
      slide := slide.(content := StrItems(i.exactContent.value), exact := true);
    } else if i.generate {
      slide := slide.(content := Bullets(llm, i.slideNumber, i.title, topic, subject));
    }
  }

  // ----- properties -----

  /** The hint pass, when it runs, and the guarded constraint. */
  lemma Mode5Passes(raw: seq<Slide>, topic: string, subject: string)
    ensures var idx := HintSlides(raw);
      var d := EnforceAll(if idx == [] then raw else ImageHints(raw, idx, topic, subject), true);
      && |d| == |raw|
      && (forall j :: 0 <= j < |raw| ==> Passed(raw[j], d[j], true))
      && (forall j :: 0 <= j < |raw| && !HintOpen(raw[j]) ==> d[j].imageQuery == raw[j].imageQuery)
  {
    hide ImageHints;
    hide EnforceSlide;
    hide Trimmed;
    var idx := HintSlides(raw);
    if idx == [] {
      EnforcePassed(raw, true);
    } else {
      PassesKept(raw, idx, true, topic, subject);
    }
  }

  /**
   * What instruction i's slide holds after the passes: the instruction's
   * number + 1 and its title unchanged; an EXACT slide its bullets verbatim,
   * a generated one the shaped bullets of its request, any other none; a
   * slide marked NONE or with an uploaded image has no image query.
   */
  predicate InstructionKept(i: Instruction, s: Slide, topic: string, subject: string, llm: BulletRequest -> LlmReply)
  {
    && s.number == i.slideNumber + 1 && s.title == i.title && s.kind == ContentKind
    && (IsExact(i) ==> s.content == StrItems(i.exactContent.value) && s.exact)
    && (i.generate ==> s.content == Trimmed(Bullets(llm, i.slideNumber, i.title, topic, subject)))
    && (!IsExact(i) && !i.generate ==> s.content == [])
    && (i.imageMode == NoImage ==> s.noImage && s.imageQuery == None)
    && (s.imageNumber.Some? <==> i.imageMode == Upload && i.imageNumber.Some? && i.imageNumber.value != 0)
    && (s.imageNumber.Some? ==> s.imageQuery == None)
  }

  lemma InstructionSlidePassed(i: Instruction, s: Slide, topic: string, subject: string, llm: BulletRequest -> LlmReply)
    requires Passed(InstructionSlide(i, topic, subject, llm), s, true)
    requires !HintOpen(InstructionSlide(i, topic, subject, llm)) ==> s.imageQuery == None
    ensures InstructionKept(i, s, topic, subject, llm)
  {
    hide Trimmed;
    hide Bullets;
    hide StrItems;
    TrimmedEmpty();
  }

  /** The Mode 5 deck: 1 + |instructions| slides behind the base slide, each as InstructionKept says. */
  lemma Mode5Shape(p: Parsed, llm: BulletRequest -> LlmReply)
    ensures var d := Mode5Deck(p, llm); var ins := p.instructions;
      && |d| == 1 + |ins|
      && d[0] == BaseSlide(p.topic, p.subject).(content := [Str(Shape(SubjectOr(p.subject)))])
      && forall k :: 0 <= k < |ins| ==> InstructionKept(ins[k], d[k + 1], p.topic, p.subject, llm)
  {
    hide ImageHints;
    hide EnforceSlide;
    hide Trimmed;
    hide Bullets;
    hide StrItems;
    hide InstructionSlide;
    hide InstructionKept;
    hide Passed;
    var ins := p.instructions;
    var raw := [BaseSlide(p.topic, p.subject)] + InstructionSlides(ins, p.topic, p.subject, llm);
    var d := Mode5Deck(p, llm);
    Mode5Passes(raw, p.topic, p.subject);
    forall k | 0 <= k < |ins| ensures InstructionKept(ins[k], d[k + 1], p.topic, p.subject, llm) {
      assert raw[k + 1] == InstructionSlide(ins[k], p.topic, p.subject, llm);
      InstructionSlidePassed(ins[k], d[k + 1], p.topic, p.subject, llm);
    }
    BasePassed(raw[0], d[0], p.topic, p.subject);
  }

  lemma BasePassed(b: Slide, s: Slide, topic: string, subject: string)
    requires b == BaseSlide(topic, subject) && Passed(b, s, true) && s.imageQuery == b.imageQuery
    ensures s == BaseSlide(topic, subject).(content := [Str(Shape(SubjectOr(subject)))])
  {
    BaseTrimmed(topic, subject);
  }

  lemma TrimmedEmpty()
    ensures Trimmed([]) == []
  {
  }

  /**
   * EXACT content is never changed: with distinct slide numbers of at least 1,
   * the verification finds every EXACT slide holding its bullets, and Mode 5
   * returns the deck.
   */
  lemma Mode5ExactVerified(p: Parsed, llm: BulletRequest -> LlmReply)
    requires forall a, b :: 0 <= a < b < |p.instructions| ==> p.instructions[a].slideNumber != p.instructions[b].slideNumber
    requires forall a :: 0 <= a < |p.instructions| ==> p.instructions[a].slideNumber >= 1
    ensures Mode5Result(p, llm) == Ok(Presentation(p.topic, SubjectOr(p.subject), Mode5Deck(p, llm)))
  {
    hide Mode5Deck;
    hide InstructionKept;
    var d := Mode5Deck(p, llm);
    var ins := p.instructions;
    Mode5Shape(p, llm);
    forall m | 0 <= m < |ins| ensures ExactKept(ins[m], d) {
      ExactKeptAt(ins, d, m, p.topic, p.subject, llm);
    }
  }

  /** One EXACT instruction of a deck whose slide numbers are the distinct instruction numbers + 1. */
  lemma ExactKeptAt(ins: seq<Instruction>, d: seq<Slide>, m: nat, topic: string, subject: string, llm: BulletRequest -> LlmReply)
    requires m < |ins| && |d| == 1 + |ins| && d[0].number == 1
    requires forall k :: 0 <= k < |ins| ==> InstructionKept(ins[k], d[k + 1], topic, subject, llm)
    requires forall a, b :: 0 <= a < b < |ins| ==> ins[a].slideNumber != ins[b].slideNumber
    requires forall a :: 0 <= a < |ins| ==> ins[a].slideNumber >= 1
    ensures ExactKept(ins[m], d)
  {
    hide Trimmed;
    hide Bullets;
    hide StrItems;
    var i := ins[m];
    if IsExact(i) {
      assert d[m + 1].number == i.slideNumber + 1;
      forall q | 0 <= q < m + 1 ensures d[q].number != i.slideNumber + 1 {
        if q > 0 {
          assert d[q].number == ins[q - 1].slideNumber + 1;
        }
      }
      FirstNumberedIs(d, i.slideNumber + 1, m + 1);
      StripItemsAgree(i.exactContent.value);
    }
  }

  lemma FirstNumberedIs(d: seq<Slide>, n: int, j: nat)
    requires j < |d| && d[j].number == n
    requires forall i :: 0 <= i < j ==> d[i].number != n
    ensures FirstNumbered(d, n, 0) == Some(j)
  {
    var r := FirstNumbered(d, n, 0);
  }

  lemma StripItemsAgree(xs: seq<string>)
    ensures BulletsAgree(xs, StrItems(xs))
  {
  }

  /**
   * A "Slide 0" EXACT instruction has slide number 1, the number of the base
   * slide, so the verification compares its bullets with the base slide's
   * single bullet, and rejects two or more.
   */
  lemma Mode5SlideZeroRejected(p: Parsed, llm: BulletRequest -> LlmReply)
    requires |p.instructions| == 1 && p.instructions[0].slideNumber == 0
    requires IsExact(p.instructions[0]) && |p.instructions[0].exactContent.value| >= 2
    ensures Mode5Result(p, llm) == Err(ExactContentChanged(1))
  {
    hide Mode5Deck;
    var d := Mode5Deck(p, llm);
    Mode5Shape(p, llm);
    assert FirstNumbered(d, 1, 0) == Some(0);
    assert !ExactKept(p.instructions[0], d);
  }
}
