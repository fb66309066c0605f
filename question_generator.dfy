/**
 * The deterministic parts of the question generator agent: the difficulty
 * split of `_calculate_difficulty_distribution`, the requirements and the
 * fallback of `generate_questions`, and the set loop of
 * `generate_multiple_sets`. The language model is a parameter.
 */
module QuestionGenerator {
  import opened Wrappers
  import opened Text

  const Easy := "easy"
  const Medium := "medium"
  const Hard := "hard"

  /** A difficulty distribution: the dict `{"easy": e, "medium": m, "hard": h}`, or the caller's own dict. */
  type Distribution = map<string, int>

  function Split(e: int, m: int, h: int): Distribution
  {
    map[Easy := e, Medium := m, Hard := h]
  }

  /**
   * `_calculate_difficulty_distribution`. Python's `//` and `%` by 3 floor,
   * which for a positive divisor agrees with Dafny's Euclidean `/` and `%`.
   */
  function DifficultyDistribution(total: int, difficulty: string, supplied: Distribution): (d: Distribution)
    ensures supplied != map[] ==> d == supplied
    ensures supplied == map[] ==> Easy in d && Medium in d && Hard in d
  {
    if supplied != map[] then supplied
    else if difficulty == "mixed" then
      var perLevel := total / 3;
      var remainder := total % 3;
      Split(perLevel + (if remainder > 0 then 1 else 0), perLevel + (if remainder > 1 then 1 else 0), perLevel)
    else if difficulty == Easy then Split(total, 0, 0)
    else if difficulty == Hard then Split(0, 0, total)
    else Split(0, total, 0)
  }

  /** "mixed" spreads the questions evenly: they add up, easy >= medium >= hard, and easy - hard <= 1. */
  lemma MixedDistribution(total: int)
    ensures var d := DifficultyDistribution(total, "mixed", map[]);
      && d[Easy] + d[Medium] + d[Hard] == total
      && d[Easy] >= d[Medium] >= d[Hard] && d[Easy] - d[Hard] <= 1
      && (total >= 0 ==> d[Hard] >= 0)
  {
    var q := total / 3;
    var r := total % 3;
    assert total == 3 * q + r && 0 <= r < 3;
  }

  /** "easy" and "hard" put every question at that level; any other name means medium. */
  lemma SingleLevelDistribution(total: int, difficulty: string)
    requires difficulty != "mixed"
    ensures var d := DifficultyDistribution(total, difficulty, map[]);
      && d[Easy] + d[Medium] + d[Hard] == total
      && (difficulty == Easy ==> d[Easy] == total && d[Medium] == 0 && d[Hard] == 0)
      && (difficulty == Hard ==> d[Hard] == total && d[Easy] == 0 && d[Medium] == 0)
      && (difficulty != Easy && difficulty != Hard ==> d[Medium] == total && d[Easy] == 0 && d[Hard] == 0)
  {
  }

  // ----- generate_questions -----

  /** The keys of the requirements dict that `generate_questions` reads; `None` is an absent key. */
  datatype Requirements = Requirements(
    difficulty: Option<string>,
    numMcq: Option<int>,
    numShort: Option<int>,
    numLong: Option<int>,
    marksMcq: Option<int>,
    marksShort: Option<int>,
    marksLong: Option<int>,
    variationNote: Option<string>)

  function GetOr<T>(o: Option<T>, default: T): T
  {
    if o.Some? then o.value else default
  }

  /** What the prompt tells the model: the three counts with their splits, the marks, the difficulty and the note. */
  datatype QuestionPrompt = QuestionPrompt(
    numMcq: int, mcq: Distribution,
    numShort: int, short: Distribution,
    numLong: int, long: Distribution,
    marksMcq: int, marksShort: int, marksLong: int,
    difficulty: string, note: string)

  /** The prompt of `generate_questions`, with its defaults: medium, 5 MCQs, 3 short, 2 long, marks 1/3/5. */
  function PromptFor(req: Requirements, supplied: Distribution): (p: QuestionPrompt)
    ensures p.numMcq == GetOr(req.numMcq, 5) && p.numShort == GetOr(req.numShort, 3) && p.numLong == GetOr(req.numLong, 2)
    ensures p.mcq == DifficultyDistribution(p.numMcq, p.difficulty, supplied)
    ensures p.short == DifficultyDistribution(p.numShort, p.difficulty, supplied)
    ensures p.long == DifficultyDistribution(p.numLong, p.difficulty, supplied)
    ensures p.marksMcq == GetOr(req.marksMcq, 1) && p.marksShort == GetOr(req.marksShort, 3) && p.marksLong == GetOr(req.marksLong, 5)
    ensures p.difficulty == GetOr(req.difficulty, Medium)
    ensures p.note == GetOr(req.variationNote, "")
  {
    var difficulty := GetOr(req.difficulty, Medium);
    var numMcq := GetOr(req.numMcq, 5);
    var numShort := GetOr(req.numShort, 3);
    var numLong := GetOr(req.numLong, 2);
    QuestionPrompt(numMcq, DifficultyDistribution(numMcq, difficulty, supplied),
                   numShort, DifficultyDistribution(numShort, difficulty, supplied),
                   numLong, DifficultyDistribution(numLong, difficulty, supplied),
                   GetOr(req.marksMcq, 1), GetOr(req.marksShort, 3), GetOr(req.marksLong, 5),
                   difficulty, GetOr(req.variationNote, ""))
  }

  datatype Question = Question(text: string, answer: string, marks: int, difficulty: string, options: seq<string>)

  /** The three question lists, and the error text of a failed call. */
  datatype Paper = Paper(mcq: seq<Question>, short: seq<Question>, long: seq<Question>, error: Option<string>)

  const EmptyPaper := Paper([], [], [], None)

  /** The text between the first occurrence of `open` and the next "```" after it. */
  function AfterFence(text: string, open: string): (r: string)
    requires Contains(text, open)
  {
    var rest := text[Find(text, open) + |open|..];
    if Contains(rest, "```") then rest[..Find(rest, "```")] else rest
  }

  /** The JSON text handed to `json.loads`: the fenced block, stripped, or the whole reply. */
  function JsonOfReply(text: string): string
  {
    if Contains(text, "```json") then Strip(AfterFence(text, "```json"))
    else if Contains(text, "```") then Strip(AfterFence(text, "```"))
    else text
  }

  /** The first of "easy", "medium" and "hard" that a distribution lacks: the key whose lookup raises `KeyError`. */
  function MissingLevel(d: Distribution): (k: Option<string>)
    ensures k.None? <==> Easy in d && Medium in d && Hard in d
    ensures k.Some? ==> k.value !in d
    ensures k == Some(Medium) ==> Easy in d
    ensures k == Some(Hard) ==> Easy in d && Medium in d
  {
    if Easy !in d then Some(Easy) else if Medium !in d then Some(Medium) else if Hard !in d then Some(Hard) else None
  }

  /**
   * The key error raised while the prompt is written: its text reads the
   * three levels of the MCQ split, then of the short split, then of the
   * long split.
   */
  function PromptKeyError(p: QuestionPrompt): Option<string>
  {
    if MissingLevel(p.mcq).Some? then MissingLevel(p.mcq)
    else if MissingLevel(p.short).Some? then MissingLevel(p.short)
    else MissingLevel(p.long)
  }

  /** `str(KeyError(k))`: the key in single quotes. */
  function KeyErrorText(k: string): string
  {
    "'" + k + "'"
  }

  /**
   * Without a supplied distribution the prompt is always written; a
   * supplied one is used for all three splits, so its first missing level
   * is the key that raises.
   */
  lemma PromptKeyErrorCases(req: Requirements, supplied: Distribution)
    ensures supplied == map[] ==> PromptKeyError(PromptFor(req, supplied)).None?
    ensures supplied != map[] ==> PromptKeyError(PromptFor(req, supplied)) == MissingLevel(supplied)
  {
    var p := PromptFor(req, supplied);
    if supplied == map[] {
      assert Easy in p.mcq && Medium in p.mcq && Hard in p.mcq;
      assert Easy in p.short && Medium in p.short && Hard in p.short;
      assert Easy in p.long && Medium in p.long && Hard in p.long;
    }
  }

  /**
   * `generate_questions`. A key error while writing the prompt gives the
   * three empty lists and its message, without calling the model. Otherwise
   * the model's reply (`Err` when the call raised, with its message) is
   * decoded by `decode` (`json.loads`), and a reply that does not decode
   * gives the three empty lists.
   */
  function GenerateQuestions(req: Requirements, supplied: Distribution,
                             llm: QuestionPrompt -> Result<string, string>, decode: string -> Option<Paper>): (r: Paper)
    ensures PromptKeyError(PromptFor(req, supplied)).Some? ==>
      r == Paper([], [], [], Some(KeyErrorText(PromptKeyError(PromptFor(req, supplied)).value)))
    ensures PromptKeyError(PromptFor(req, supplied)).None? && llm(PromptFor(req, supplied)).Err? ==>
      r == Paper([], [], [], Some(llm(PromptFor(req, supplied)).error))
    ensures (PromptKeyError(PromptFor(req, supplied)).None? && llm(PromptFor(req, supplied)).Ok? &&
             decode(JsonOfReply(llm(PromptFor(req, supplied)).value)).None?) ==> r == EmptyPaper
  {
    var prompt := PromptFor(req, supplied);
    match PromptKeyError(prompt)
    case Some(k) => Paper([], [], [], Some(KeyErrorText(k)))
    case None =>
      match llm(prompt)
      case Err(msg) => Paper([], [], [], Some(msg))
      case Ok(text) =>
        match decode(JsonOfReply(text))
        case None => EmptyPaper
        case Some(p) => p
  }

  /** A supplied distribution without an "easy" key fails with the message "'easy'", whatever the model would say. */
  lemma MissingEasyFails(req: Requirements, supplied: Distribution,
                         llm: QuestionPrompt -> Result<string, string>, decode: string -> Option<Paper>)
    requires supplied != map[] && Easy !in supplied
    ensures GenerateQuestions(req, supplied, llm, decode) == Paper([], [], [], Some("'easy'"))
  {
    PromptKeyErrorCases(req, supplied);
    assert KeyErrorText(Easy) == "'easy'";
  }

  /** A fenced reply hands exactly the stripped block to the decoder. */
  lemma JsonOfFencedReply(body: string, tail: string)
    requires '`' !in body
    ensures JsonOfReply("```json" + body + "```" + tail) == Strip(body)
  {
    hide Strip;
    var t := "```json" + body + "```" + tail;
    assert StartsAt(t, 0, "```json");
    assert Find(t, "```json") == 0;
    var rest := t[7..];
    assert rest == body + "```" + tail;
    assert StartsAt(rest, |body|, "```");
    forall k | 0 <= k < |body| ensures !StartsAt(rest, k, "```") {
      assert rest[k] == body[k];
    }
    assert Find(rest, "```") == |body|;
    assert rest[..|body|] == body;
  }

  // ----- generate_multiple_sets -----

  /** The note up to the set number: a blank line, a line of sixteen spaces, the heading and "This is Set ". */
  const NoteHead := "\n                \nIMPORTANT FOR SET VARIATION:\nThis is Set "

  /** The rest of the note's second sentence (with its trailing space) and the three sentences after it, one per line. */
  const NoteTail := " question papers. \n"
    + "Ensure ALL questions in this set are completely different from the other sets.\n"
    + "Use different wording, different concepts, and different approaches.\n"
    + "Do NOT repeat any questions from previous sets.\n"

  /** The note that makes set i of n differ from the others, character for character. */
  function VariationNote(i: int, n: int): (note: string)
    requires i >= 1 && n >= 1
    ensures StartsWith(note, NoteHead) && EndsWith(note, NoteTail)
  {
    var note := NoteHead + NatToString(i) + " of " + NatToString(n) + NoteTail;
    assert note[..|NoteHead|] == NoteHead;
    assert note[|note| - |NoteTail|..] == NoteTail;
    note
  }

  /** The note names its own set: different set numbers give different notes. */
  lemma VariationNotesDistinct(i: nat, j: nat, n: int)
    requires 1 <= i && 1 <= j && n >= 1 && i != j
    ensures VariationNote(i, n) != VariationNote(j, n)
  {
    hide VariationNote, NoteHead, NoteTail;
    var si, sj := NatToString(i), NatToString(j);
    var a, b := VariationNote(i, n), VariationNote(j, n);
    NoteDigits(i, n);
    NoteDigits(j, n);
    if |si| < |sj| {
      assert a[59 + |si|] != b[59 + |si|] by {
        assert b[59 + |si|] == sj[|si|];
      }
    } else if |sj| < |si| {
      assert a[59 + |sj|] != b[59 + |sj|] by {
        assert a[59 + |sj|] == si[|sj|];
      }
    } else {
      ParseNatToString(i);
      ParseNatToString(j);
      assert a[59..59 + |si|] != b[59..59 + |sj|];
    }
  }

  /** The set number's digits sit at position 59 of the note, followed by a space. */
  lemma NoteDigits(i: int, n: int)
    requires i >= 1 && n >= 1
    ensures 59 + |NatToString(i)| < |VariationNote(i, n)|
    ensures VariationNote(i, n)[59..59 + |NatToString(i)|] == NatToString(i)
    ensures VariationNote(i, n)[59 + |NatToString(i)|] == ' '
  {
    hide NoteTail;
    assert |NoteHead| == 59;
    hide NoteHead;
    var si := NatToString(i);
    var rest := " of " + NatToString(n) + NoteTail;
    assert VariationNote(i, n) == NoteHead + si + rest;
    hide VariationNote;
    SpacedDigits(NoteHead, si, rest);
  }

  lemma SpacedDigits(head: string, digits: string, rest: string)
    requires rest != [] && rest[0] == ' '
    ensures |head| + |digits| < |head + digits + rest|
    ensures (head + digits + rest)[|head|..|head| + |digits|] == digits
    ensures (head + digits + rest)[|head| + |digits|] == ' '
  {
  }

  /** `requirements.copy()`, with the variation note set when there is more than one set. */
  function SetRequirements(req: Requirements, i: int, n: int): (r: Requirements)
    requires 1 <= i <= n
    ensures n > 1 ==> r.variationNote == Some(VariationNote(i, n))
    ensures n == 1 ==> r == req
    ensures r.(variationNote := req.variationNote) == req
  {
    if n > 1 then req.(variationNote := Some(VariationNote(i, n))) else req
  }

  /** One set: the paper with its number and its name. */
  datatype QuestionSet = QuestionSet(paper: Paper, setNumber: int, setName: string)

  function SetName(i: nat): string
  {
    "Set " + NatToString(i)
  }

  /**
   * `generate_multiple_sets`: set i (1-based) is generated from the
   * requirements with its own note and is numbered i and named "Set i"; the
   * caller's requirements are a value and stay as they were.
   */
  method GenerateMultipleSets(req: Requirements, numSets: int, supplied: Distribution,
                              llm: QuestionPrompt -> Result<string, string>, decode: string -> Option<Paper>)
    returns (sets: seq<QuestionSet>)
    ensures |sets| == if numSets > 0 then numSets else 0
    ensures forall k :: 0 <= k < |sets| ==>
      && sets[k].setNumber == k + 1 && sets[k].setName == SetName(k + 1)
      && sets[k].paper == GenerateQuestions(SetRequirements(req, k + 1, numSets), supplied, llm, decode)
  {
    hide GenerateQuestions, PromptFor, VariationNote;
    sets := [];
    var setNum := 1;
    while setNum <= numSets
      invariant 1 <= setNum <= if numSets >= 1 then numSets + 1 else 1
      invariant |sets| == setNum - 1
      invariant forall k :: 0 <= k < |sets| ==>
        && sets[k].setNumber == k + 1 && sets[k].setName == SetName(k + 1)
        && sets[k].paper == GenerateQuestions(SetRequirements(req, k + 1, numSets), supplied, llm, decode)
    {
      var setReq := req;
      if numSets > 1 {
        setReq := setReq.(variationNote := Some(VariationNote(setNum, numSets)));
      }
      assert setReq == SetRequirements(req, setNum, numSets);
      var paper := GenerateQuestions(setReq, supplied, llm, decode);
      sets := sets + [QuestionSet(paper, setNum, "Set " + NatToString(setNum))];
      setNum := setNum + 1;
    }
  }

  /** Set names are distinct, because set numbers are. */
  lemma SetNamesDistinct(i: nat, j: nat)
    requires i != j
    ensures SetName(i) != SetName(j)
  {
    var a := SetName(i);
    var b := SetName(j);
    if a == b {
      assert a[4..] == NatToString(i);
      assert b[4..] == NatToString(j);
      ParseNatToString(i);
      ParseNatToString(j);
    }
  }
}
