/**
 * What the prompt parsers of the PPT generator agent hand to the generators,
 * and the errors they and the generators raise.
 */
module PptParsed {
  import opened Wrappers
  import opened Sorting
  import opened PptModeDetect
  import opened PptSlides

  /** `{'slide_number': n, 'title': t}` of Modes 2 and 4. */
  datatype TitleEntry = TitleEntry(slideNumber: int, title: string)

  /** `{'slide_number': n, 'title': t, 'content': bullets}` of Mode 3. */
  datatype ExactEntry = ExactEntry(slideNumber: int, title: string, content: seq<string>)

  /** `{'image_number': i, 'slide_number': n}` of Mode 4. */
  datatype ImageMapping = ImageMapping(imageNumber: int, slideNumber: int)

  /**
   * One per-slide instruction of Mode 5; `no_image` of the source is
   * `imageMode == NoImage`.
   */
  datatype Instruction = Instruction(
    slideNumber: int,
    title: string,
    generate: bool,
    exactContent: Option<seq<string>>,
    imageNumber: Option<int>,
    imageMode: ImageMode)

  /**
   * The parser result dict. The source's `None` for a list a mode does not
   * use is the empty sequence here; every consumer tests it for truthiness.
   */
  datatype Parsed = Parsed(
    mode: PptMode,
    number: int,
    topic: string,
    subject: string,
    titles: seq<TitleEntry>,
    exact: seq<ExactEntry>,
    mappings: seq<ImageMapping>,
    instructions: seq<Instruction>)

  /** The `ValueError`s of the parsers and the generators. */
  datatype PptError =
    | TitlesMissing
    | TooFewTitles(found: int, required: int)
    | TitleCountMismatch(found: int, required: int)
    | ExactBulletsMissing(slideNumber: int)
    | ExactContentMissing
    | ExactContentChanged(slideNumber: int)
    | TitleChanged(slideNumber: int)

  function TitleKey(e: TitleEntry): int { e.slideNumber }

  function ExactKey(e: ExactEntry): int { e.slideNumber }

  function InstructionKey(e: Instruction): int { e.slideNumber }

  /** `number = max(number, max(key(e) for e in s))`, applied only when s is non-empty. */
  function RaisedNumber<T>(declared: int, s: seq<T>, key: T -> int): (n: int)
    ensures n >= declared
    ensures forall i :: 0 <= i < |s| ==> key(s[i]) <= n
    ensures n == declared || n in Keys(s, key)
    ensures s == [] ==> n == declared
  {
    if s == [] then declared
    else
      var m := MaxKey(s, key);
      if declared >= m then declared else m
  }
}
