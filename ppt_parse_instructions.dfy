/**
 * `_parse_mode_5` of the PPT generator agent: per-slide instructions (title,
 * generated or exact content, image choice), read block by block from the
 * "Slide instructions:" section and sorted by slide number.
 */
module PptParseInstructions {
  import opened Wrappers
  import opened Text
  import opened Scan
  import opened Sorting
  import opened PptPatterns
  import opened PptModeDetect
  import opened PptSlides
  import opened PptParsed
  import opened PptBlocks
  import opened PptExactBullets

  /** The outcome of the exact-content part of one block. */
  function ExactPart(block: string, slideNumber: int, generate: bool): (r: Result<Option<seq<string>>, PptError>)
    ensures r.Err? ==> r.error == ExactBulletsMissing(slideNumber)
    ensures r.Err? <==>
      !generate && Contains(Lower(block), "exact content") && Find(Lower(block), "use exact content:") >= 0
      && ExactBullets(SplitOn(block[Find(Lower(block), "use exact content:") + 18..], '\n')) == []
    ensures r.Ok? && r.value.Some? ==> !generate && r.value.value != []
    ensures r.Ok? && r.value.Some? ==> forall i :: 0 <= i < |r.value.value| ==> Tidy(r.value.value[i])
  {
    var low := Lower(block);
    if !generate && Contains(low, "exact content") then
      var idx := Find(low, "use exact content:");
      if idx >= 0 then
        var bullets := ExactBullets(SplitOn(block[idx + 18..], '\n'));
        ExactBulletsTidy(SplitOn(block[idx + 18..], '\n'));
        if bullets == [] then Err(ExactBulletsMissing(slideNumber)) else Ok(Some(bullets))
      else Ok(None)
    else Ok(None)
  }

  /** The image instruction of one block: an uploaded image, an explicit "no image", or a query. */
  function ImagePart(block: string): (r: (Option<int>, ImageMode))
    ensures r.1 == Upload <==> r.0.Some?
    ensures r.0.Some? <==> UseImageNumber(block).Some?
    ensures r.1 == NoImage <==> UseImageNumber(block).None? && Contains(Lower(block), "no image")
  {
    match UseImageNumber(block)
    case Some(n) => (Some(n as int), Upload)
    case None => (None, if Contains(Lower(block), "no image") then NoImage else QueryImage)
  }

  /** One Mode 5 block: skipped without a title, an error for exact content without bullets, else its instruction. */
  function Mode5Block(text: string, h: HeaderHit, stop: nat): (r: Result<Option<Instruction>, PptError>)
    requires h.start <= stop <= |text|
    ensures r.Err? ==> r.error == ExactBulletsMissing(h.number)
    ensures r.Ok? && r.value.Some? ==> r.value.value.slideNumber == h.number && IsStripped(r.value.value.title)
  {
    var block := text[h.start..stop];
    match LabelValue(block, "title:")
    case None => Ok(None)
    case Some(title) =>
      var generate := Contains(Lower(block), "generate content");
      match ExactPart(block, h.number, generate)
      case Err(e) => Err(e)
      case Ok(content) =>
        var image := ImagePart(block);
        Ok(Some(Instruction(h.number, Strip(title), generate, content, image.0, image.1)))
  }

  /** The shape every parsed instruction has. */
  predicate WellFormed(i: Instruction)
  {
    IsStripped(i.title)
    && (i.exactContent.Some? ==>
          && !i.generate && i.exactContent.value != []
          && forall k :: 0 <= k < |i.exactContent.value| ==> Tidy(i.exactContent.value[k]))
    && (i.imageMode == Upload <==> i.imageNumber.Some?)
  }

  lemma Mode5BlockWellFormed(text: string, h: HeaderHit, stop: nat)
    requires h.start <= stop <= |text|
    ensures var r := Mode5Block(text, h, stop); r.Ok? && r.value.Some? ==> WellFormed(r.value.value)
  {
  }

  /** The instructions of the first k blocks, or the error of the first block that fails. */
  function Mode5Instructions(text: string, hits: seq<HeaderHit>, k: nat): (r: Result<seq<Instruction>, PptError>)
    requires Ordered(hits, |text|) && k <= |hits|
    ensures r.Ok? ==> |r.value| <= k
    ensures r.Err? ==> exists j :: 0 <= j < k && r.error == ExactBulletsMissing(hits[j].number)
  {
    if k == 0 then Ok([])
    else
      match Mode5Instructions(text, hits, k - 1)
      case Err(e) => Err(e)
      case Ok(xs) =>
        match Mode5Block(text, hits[k - 1], NextStart(hits, k - 1, |text|))
        case Err(e) => Err(e)
        case Ok(None) => Ok(xs)
        case Ok(Some(i)) => Ok(xs + [i])
  }

  /** The first failing block decides the error: later blocks are not read. */
  lemma {:induction false} Mode5ErrorSticks(text: string, hits: seq<HeaderHit>, k: nat, m: nat)
    requires Ordered(hits, |text|) && k <= m <= |hits|
    requires Mode5Instructions(text, hits, k).Err?
    ensures Mode5Instructions(text, hits, m) == Mode5Instructions(text, hits, k)
    decreases m - k
  {
    hide Mode5Block;
    if m > k {
      Mode5ErrorSticks(text, hits, k, m - 1);
    }
  }

  /** Every instruction in the list is well formed. */
  lemma {:induction false} Mode5InstructionsWellFormed(text: string, hits: seq<HeaderHit>, k: nat)
    requires Ordered(hits, |text|) && k <= |hits|
    ensures var r := Mode5Instructions(text, hits, k); r.Ok? ==> forall i :: 0 <= i < |r.value| ==> WellFormed(r.value[i])
  {
    if k > 0 {
      hide Mode5Block, WellFormed;
      Mode5InstructionsWellFormed(text, hits, k - 1);
      Mode5BlockWellFormed(text, hits[k - 1], NextStart(hits, k - 1, |text|));
      var prev := Mode5Instructions(text, hits, k - 1);
      var b := Mode5Block(text, hits[k - 1], NextStart(hits, k - 1, |text|));
      if prev.Ok? && b.Ok? && b.value.Some? {
        var xs := prev.value + [b.value.value];
        assert Mode5Instructions(text, hits, k) == Ok(xs);
        forall i | 0 <= i < |xs| ensures WellFormed(xs[i]) {
          if i < |prev.value| { assert xs[i] == prev.value[i]; }
        }
      }
    }
  }

  /** The instructions of the whole prompt, before sorting (none without a "Slide instructions:" section). */
  function Mode5All(prompt: string): Result<seq<Instruction>, PptError>
  {
    match InstructionsText(prompt)
    case None => Ok([])
    case Some(t) =>
      var hits := HeaderHits(t);
      Mode5Instructions(t, hits, |hits|)
  }

  /** The exact-content part of one block, with its bullet loop. */
  method ReadExactPart(block: string, slideNumber: int, generate: bool) returns (r: Result<Option<seq<string>>, PptError>)
    ensures r == ExactPart(block, slideNumber, generate)
  {
    hide Contains, SplitOn, ExactBullets;
    r := Ok(None);
    var low := Lower(block);
    if !generate && Contains(low, "exact content") {
      var idx := Find(low, "use exact content:");
      if idx >= 0 {
        var bullets := CollectExactBullets(SplitOn(block[idx + 18..], '\n'));
        if bullets == [] {
          r := Err(ExactBulletsMissing(slideNumber));
        } else {
          r := Ok(Some(bullets));
        }
      }
    }
  }

  method ParseMode5Block(text: string, h: HeaderHit, stop: nat) returns (r: Result<Option<Instruction>, PptError>)
    requires h.start <= stop <= |text|
    ensures r == Mode5Block(text, h, stop)
  {
    hide ExactPart, ImagePart, LabelValue, Lower, Contains, Strip;
    var block := text[h.start..stop];
    var title := LabelValue(block, "title:");
    if title.None? {
      return Ok(None);
    }
    var generate := Contains(Lower(block), "generate content");
    var content := ReadExactPart(block, h.number, generate);
    if content.Err? {
      return Err(content.error);
    }
    var image := ImagePart(block);
    r := Ok(Some(Instruction(h.number, Strip(title.value), generate, content.value, image.0, image.1)));
  }

  /**
   * `_parse_mode_5`: the per-slide instructions, sorted by slide number, with
   * NUMBER raised to the largest slide number; a block that declares exact
   * content but gives no bullet fails the whole parse.
   */
  method ParseMode5(prompt: string) returns (r: Result<Parsed, PptError>)
    ensures Mode5All(prompt).Err? ==> r == Err(Mode5All(prompt).error)
    ensures Mode5All(prompt).Ok? ==> r.Ok?
    ensures r.Ok? ==> var xs := Mode5All(prompt).value;
      && r.value.mode == Mode5 && r.value.topic == TopicOf(prompt) && r.value.subject == SubjectOf(prompt)
      && r.value.instructions == SortBy(xs, InstructionKey)
      && SortedBy(r.value.instructions, InstructionKey) && multiset(r.value.instructions) == multiset(xs)
      && r.value.number == RaisedNumber(DeclaredNumber(prompt), xs, InstructionKey)
      && r.value.titles == [] && r.value.exact == [] && r.value.mappings == []
  {
    var all: Result<seq<Instruction>, PptError> := Ok([]);
    var section := InstructionsText(prompt);
    if section.Some? {
      all := CollectMode5(section.value, HeaderHits(section.value));
    }
    if all.Err? {
      return Err(all.error);
    }
    var instructions := all.value;
    var sorted := SortBy(instructions, InstructionKey);
    var number := RaisedNumber(DeclaredNumber(prompt), instructions, InstructionKey);
    r := Ok(Parsed(Mode5, number, TopicOf(prompt), SubjectOf(prompt), [], [], [], sorted));
  }

  /** The block loop of `_parse_mode_5` over the instructions section. */
  method CollectMode5(text: string, hits: seq<HeaderHit>) returns (r: Result<seq<Instruction>, PptError>)
    requires Ordered(hits, |text|)
    ensures r == Mode5Instructions(text, hits, |hits|)
  {
    hide Mode5Block;
    var instructions: seq<Instruction> := [];
    var idx := 0;
    while idx < |hits|
      invariant 0 <= idx <= |hits|
      invariant Mode5Instructions(text, hits, idx) == Ok(instructions)
    {
      var next := Mode5Step(text, hits, idx, instructions);
      if next.Err? {
        Mode5ErrorSticks(text, hits, idx + 1, |hits|);
        return next;
      }
      instructions := next.value;
      idx := idx + 1;
    }
    r := Ok(instructions);
  }

  /** One pass of the block loop: block idx read and, when it has a title, appended. */
  method Mode5Step(text: string, hits: seq<HeaderHit>, idx: nat, instructions: seq<Instruction>)
    returns (r: Result<seq<Instruction>, PptError>)
    requires Ordered(hits, |text|) && idx < |hits|
    requires Mode5Instructions(text, hits, idx) == Ok(instructions)
    ensures r == Mode5Instructions(text, hits, idx + 1)
  {
    var b := ParseMode5Block(text, hits[idx], NextStart(hits, idx, |text|));
    if b.Err? {
      return Err(b.error);
    }
    if b.value.Some? {
      return Ok(instructions + [b.value.value]);
    }
    return Ok(instructions);
  }
}
