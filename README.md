# EduAssist PPT generator, modelled in Dafny

This project models the core of EduAssist's PowerPoint generator agent
(`backend/agents/ppt_generator_agent.py`). The agent reads a free-text teacher prompt and
classifies it into one of five PPT modes:

1. everything generated;
2. user titles;
3. exact content;
4. titles plus image placements;
5. per-slide instructions.

It then parses the prompt for its mode and assembles a slide deck. Slide 1 is a base slide.
User slide k becomes slide k+1. The assembly finishes with two in-place passes: image hints
and the bullet constraint.

Modelling choices:

- Regular expressions are explicit scanners over `seq<char>` that follow Python's leftmost,
  greedy or lazy matching for each pattern used.
- Whitespace is the full `str.isspace()` set. Case folding, letters and digits are ASCII.
- The language model is a total function `llm: BulletRequest -> LlmReply`. Each generator
  also returns the requests it made, in order.
- A deck is an `array<Slide>` while the passes work on it in place. Every in-place method is
  proved equal to a function on sequences, and the lemmas are about that function.

Modules, in dependency order:

- `Wrappers`, `Text`, `Scan`, `Sorting`: options and results, Python string primitives, regex
  building blocks, and stable sorting with first-occurrence de-duplication.
- `PptPatterns`, `PptModeDetect`: the shared field regexes (NUMBER, TOPIC, SUBJECT, section
  headers) and `_detect_ppt_mode`.
- `PptSlides`, `PptParsed`, `PptBlocks`: slides and decks, the image-hint and
  bullet-constraint passes, and the parse results.
- `PptParseTitles`, `PptParseExact`, `PptExactBullets`, `PptParseInstructions`: the
  parsers of Modes 1-5.
- `PptGenerate`, `PptGenerateMixed`, `PptDispatch`: the generators, the legacy and fallback
  decks, and the entry point `generate_slide_content`.

The model also covers smaller cores elsewhere in the backend:

- `AssistHelpers`: `_safe_int`, `_next_weekday` and the assist endpoint's own
  `_detect_ppt_mode` (`backend/api/main.py`).
- `AssistExtract`, `AssistStructure`: the prompt extractors `_extract_custom_slides_from_prompt`
  and `_extract_slide_structure_from_prompt`. Their regex matches are given as lists of match
  records. The line-level patterns (bullet lines, header lines, title cleaning, the
  "generate" cut and the section end) are scanners.
- `AssistDeck`: the Mode 4 image-lock cleanup and the slide-count repair inside `assist`. The
  cleanup is an in-place method over `array<Slide>`. The repair is a method over the slide
  list, proved equal to a function. The captured slide numbers of
  `Use\s+Image\s+\d+\s+on\s+Slide\s+(\d+)` are given as a list.
- `Attendance`: `expand_roll_spec`, `iso`, and the record and count step of `mark_attendance`
  over a roster.
- `QuestionGenerator`: the difficulty distribution, the prompt's counts, the parse-failure
  fallback of `generate_questions`, and `generate_multiple_sets`.
- `LabManual`: `_create_fallback_manual`.
- `SyllabusStore`: the file name of `save_syllabus_pdf`, and the keys, scoring, ordering and
  buffer of `retrieve_topic_context` over given page texts.
- `ModelManager`: `detect_model_preference`, the routing of `generate_content`, and
  `is_model_available`.
- `PptCrewFilter`: `_filter_content_for_topic` of the PPT crew.
- `ImageFetcher`: `_safe_name`, `_convert_google_drive_url`, the extension choice of
  `_download_image`, and the guards of `fetch_image` and `download_from_url`. Requests are
  function parameters.

Where the code and its comments or documentation disagree, the model follows the code:

- Mode 2 titles run to the end of the line, so a one-line title list gives one title and the
  parse fails.
- The Mode 2 trim to NUMBER never changes anything.
- Mode 1 never has more than five user slides.
- Mode 3 bullets are reshaped by the bullet constraint, because no exact guard is passed.
- The "For slide N" section of `_extract_custom_slides_from_prompt` ends at the first line
  break, where the `$` of its MULTILINE search matches, and not at the next slide mention as
  the comment beside the search says. The extractor is modelled as the code runs
  (`Cut.AsWritten`). The intended cut (`Cut.ToNextMention`) is modelled beside it, and lemmas
  relate the two (see "## Findings").

## Model

| member | source | states |
|---|---|---|
| PptModeDetect.DetectPptMode | backend/agents/ppt_generator_agent.py:31-88 | total and first-match-wins: Mode 3 iff the exact/no-modify/content markers, else Mode 5 iff "slide instructions:", else Mode 4 iff "image placement:", else Mode 2 iff the titles/structure markers, else Mode 1; the empty prompt is Mode 1 |
| PptModeDetect.ExactMarkerSimplifies | backend/agents/ppt_generator_agent.py:52 | the "use exact content" alternative of the exact marker adds nothing to "exact content" |
| PptModeDetect.SectionsMarkerSimplifies | backend/agents/ppt_generator_agent.py:54 | the `slide\s+\d+.*?content:` alternative adds nothing to "content:" |
| PptPatterns.DeclaredNumberOfLeadingCount | backend/agents/ppt_generator_agent.py:139-144 | a prompt opening with "N-slide" or "N slide" declares NUMBER = N |
| PptPatterns.TopicOf | backend/agents/ppt_generator_agent.py:147-150 | the topic is stripped and holds no '.' |
| PptPatterns.TopicOfLeading | backend/agents/ppt_generator_agent.py:147-150 | "ppt on T." yields the stripped T when T holds no '.' and no "Subject:" |
| PptPatterns.SubjectOf | backend/agents/ppt_generator_agent.py:153-154 | the subject is stripped and single-line |
| PptPatterns.SubjectOfLeading | backend/agents/ppt_generator_agent.py:153-154 | "Subject: V" followed by a newline yields the stripped V |
| PptPatterns.Mode2OneLine | backend/agents/ppt_generator_agent.py:161-162 | on a line without newline the greedy `Slide\s+(\d+)\s*:\s*(.+)` matches at most once |
| PptPatterns.HeaderHits | backend/agents/ppt_generator_agent.py:289-290 | the `Slide\s+(\d+):` matches are in order and do not overlap |
| PptPatterns.ContentSection | backend/agents/ppt_generator_agent.py:313 | a Content section exists iff "content:" occurs, in any case |
| PptParseTitles.ParseMode1 | backend/agents/ppt_generator_agent.py:90-127 | NUMBER, TOPIC and SUBJECT only; NUMBER is never negative |
| PptParseTitles.KeptTitle | backend/agents/ppt_generator_agent.py:181-203 | a match is kept iff its stripped title is non-empty and, in the whole-prompt pass, names no "titles"/"structure" header |
| PptParseTitles.KeptTitles | backend/agents/ppt_generator_agent.py:181-203 | every kept title is non-empty, stripped and comes from some match |
| PptParseTitles.CollectTitles | backend/agents/ppt_generator_agent.py:181-203 | the match loop collects exactly the kept titles, in order |
| PptParseTitles.SortedUnique | backend/agents/ppt_generator_agent.py:205-221 | sorted by slide number and de-duplicated: strictly increasing numbers, the same set of numbers, each entry the first one the prompt gives for its number, NUMBER raised to the largest slide number |
| PptParseTitles.KeepUpTo | backend/agents/ppt_generator_agent.py:231-233 | the trim keeps exactly the titles numbered at most NUMBER, and changes nothing when all are |
| PptParseTitles.TitlesCoverOneToN | backend/agents/ppt_generator_agent.py:205-239 | strictly increasing positive titles, at least NUMBER of them, are exactly slides 1..NUMBER |
| PptParseTitles.ParseMode2 | backend/agents/ppt_generator_agent.py:129-254 | no title gives TitlesMissing; fewer distinct numbers than NUMBER gives TooFewTitles; otherwise success with the sorted, de-duplicated titles; with positive numbers they are exactly slides 1..NUMBER |
| PptParseTitles.CheckMode2 | backend/agents/ppt_generator_agent.py:205-239 | the checks after collection, with the same error cases and the same success shape |
| PptParseTitles.CollectMode2 | backend/agents/ppt_generator_agent.py:164-203 | the section pass, then the whole-prompt pass when the section yields nothing |
| PptParseTitles.Mode2OneLineSectionFails | backend/agents/ppt_generator_agent.py:161-229 | a one-line title section yields a single title, too few for NUMBER >= 2 |
| PptParseTitles.OneTitleTooFew | backend/agents/ppt_generator_agent.py:221-229 | one title cannot satisfy a declared NUMBER >= 2 |
| PptParseTitles.MappingsOf | backend/agents/ppt_generator_agent.py:498-506 | one mapping per "Image n ... Slide m" match, with its numbers |
| PptParseTitles.CollectMappings | backend/agents/ppt_generator_agent.py:498-506 | the image-placement loop collects exactly those mappings |
| PptParseTitles.ParseMode4 | backend/agents/ppt_generator_agent.py:378-532 | titles sorted and de-duplicated as in Mode 2, NUMBER raised, mappings from the image placement section |
| PptParseTitles.CollectMode4 | backend/agents/ppt_generator_agent.py:410-483 | the three title strategies, tried in order |
| PptParseExact.Mode3Line | backend/agents/ppt_generator_agent.py:324-336 | a blank line is dropped, a line not starting with '-' is kept stripped; every kept bullet is non-empty and stripped |
| PptParseExact.Mode3DashedLine | backend/agents/ppt_generator_agent.py:324-336 | "- b" yields b |
| PptParseExact.ContentLines | backend/agents/ppt_generator_agent.py:324-336 | every kept bullet is non-empty and stripped |
| PptParseExact.ContentLinesAllKept | backend/agents/ppt_generator_agent.py:324-336 | lines that each yield a bullet yield exactly those bullets |
| PptParseExact.Mode3DashedRoundTrip | backend/agents/ppt_generator_agent.py:324-336 | bullets written as "- b" lines are read back exactly |
| PptParseExact.Mode3PlainRoundTrip | backend/agents/ppt_generator_agent.py:324-336 | undashed bullets written one per line are read back exactly |
| PptParseExact.ContentBullets | backend/agents/ppt_generator_agent.py:322-340 | the content loop computes the bullets of the content lines |
| PptParseExact.Mode3Block | backend/agents/ppt_generator_agent.py:302-347 | a block is kept only with a Title and a Content section, and then has non-empty stripped bullets |
| PptParseExact.Mode3Entries | backend/agents/ppt_generator_agent.py:292-350 | every collected entry is well formed |
| PptParseExact.ParseMode3Block | backend/agents/ppt_generator_agent.py:302-347 | the block method computes the block function |
| PptParseExact.CollectMode3 | backend/agents/ppt_generator_agent.py:292-350 | the block loop collects the entries of the blocks in order |
| PptParseExact.ParseMode3 | backend/agents/ppt_generator_agent.py:256-376 | the entries sorted (stably, a permutation) by slide number, NUMBER raised to the largest slide number |
| PptExactBullets.LineBullet | backend/agents/ppt_generator_agent.py:606-630 | a line yields a bullet iff it is '-'/'•'-marked with non-empty text after the marker; the bullet is stripped |
| PptExactBullets.Mode5Bullet | backend/agents/ppt_generator_agent.py:617-627 | the marker and the space after it are removed and the text stripped |
| PptExactBullets.TakeBulletsAll | backend/agents/ppt_generator_agent.py:604-630 | bullet lines up to a stop line are collected exactly |
| PptExactBullets.ExactBulletsTidy | backend/agents/ppt_generator_agent.py:604-630 | every exact bullet is non-empty and stripped |
| PptExactBullets.DashedNotStop | backend/agents/ppt_generator_agent.py:608-630 | a dashed bullet line never stops the collection |
| PptExactBullets.Mode5DashedRoundTrip | backend/agents/ppt_generator_agent.py:597-630 | "- b" lines followed by a stop line or nothing are read back exactly |
| PptExactBullets.CollectExactBullets | backend/agents/ppt_generator_agent.py:601-630 | the line loop computes the exact bullets |
| PptExactBullets.ReadExactLine | backend/agents/ppt_generator_agent.py:606-630 | one step of the loop: whether the line stops it and the bullet it gives |
| PptParseInstructions.ExactPart | backend/agents/ppt_generator_agent.py:590-639 | ExactBulletsMissing exactly when a non-generating block has "use exact content:" but no bullet under it; exact content is present only for non-generating blocks and is non-empty and tidy |
| PptParseInstructions.ImagePart | backend/agents/ppt_generator_agent.py:645-659 | UPLOAD iff "Use Image n" occurs, else NONE iff "no image" occurs, else QUERY |
| PptParseInstructions.Mode5Block | backend/agents/ppt_generator_agent.py:571-669 | an error names the block's own slide; an instruction carries the block's number and a stripped title |
| PptParseInstructions.Mode5BlockWellFormed | backend/agents/ppt_generator_agent.py:571-669 | every instruction is well formed: generate iff "generate content", image flags consistent |
| PptParseInstructions.Mode5Instructions | backend/agents/ppt_generator_agent.py:562-669 | an error names one of the blocks; otherwise at most one instruction per block |
| PptParseInstructions.Mode5ErrorSticks | backend/agents/ppt_generator_agent.py:633-637 | the first error raised ends the parse |
| PptParseInstructions.Mode5InstructionsWellFormed | backend/agents/ppt_generator_agent.py:562-669 | all parsed instructions are well formed |
| PptParseInstructions.CollectMode5 | backend/agents/ppt_generator_agent.py:562-669 | the block loop computes the instruction list or the first error |
| PptParseInstructions.ParseMode5 | backend/agents/ppt_generator_agent.py:534-689 | a block error is raised; otherwise the instructions sorted (stably, a permutation) and NUMBER raised |
| PptSlides.SlideBullets | backend/agents/ppt_generator_agent.py:745-764 | a non-empty reply gives its first (at most ten) items; anything else gives the eight fallback bullets |
| PptSlides.FallbackBullets | backend/agents/ppt_generator_agent.py:753-764 | exactly eight fallback bullets |
| PptSlides.BaseSlide | backend/agents/ppt_generator_agent.py:930-937 | slide 1, a title slide titled with the topic, whose one bullet is the subject or "Educational Presentation" |
| PptSlides.Shape | backend/agents/ppt_generator_agent.py:1580-1585 | a kept bullet is stripped and at most 140 characters; a longer one is cut, right-stripped and ends with "..." |
| PptSlides.TrimPointsIsFirstTenShaped | backend/agents/ppt_generator_agent.py:1575-1588 | the trim keeps the first ten shaped strings, drops non-strings, and each is stripped and at most 140 characters |
| PptSlides.TrimContent | backend/agents/ppt_generator_agent.py:1578-1588 | the bullet loop computes the first ten shaped strings |
| PptSlides.EnforceBulletConstraints | backend/agents/ppt_generator_agent.py:1549-1601 | in place: the new deck is the bullet-constraint function of the old one |
| PptSlides.EnforceKeepsAllButContent | backend/agents/ppt_generator_agent.py:1567-1588 | only content changes; exact slides under the guard are untouched; others get the first ten shaped strings |
| PptSlides.AddImageHints | backend/agents/ppt_generator_agent.py:1514-1547 | in place over the listed slides, as the hint function says |
| PptSlides.HintsMainCount | backend/agents/ppt_generator_agent.py:1521-1538 | the main loop adds at most three hints, only on listed slides that are not locked |
| PptSlides.ImageHintsFrame | backend/agents/ppt_generator_agent.py:1514-1547 | at most four hints, only on listed unlocked slides; only image queries change |
| PptSlides.ImageHintsForcesArchitecture | backend/agents/ppt_generator_agent.py:1540-1547 | with no architecture-like title, the first open content slide gets the architecture query |
| PptSlides.HintsMainTargetsLike | backend/agents/ppt_generator_agent.py:1521-1538 | the main loop gives a query only to a slide of type "title" or whose title is intro-like or architecture-like |
| PptSlides.ImageHintsSkipsPlain | backend/agents/ppt_generator_agent.py:1514-1547 | a slide whose type is not "content" (absent or anything else) and whose title asks for no hint is left unchanged, forced architecture query included |
| PptGenerate.Bullets | backend/agents/ppt_generator_agent.py:691-751 | between one and ten bullets per request |
| PptGenerate.GenerateTitled | backend/agents/ppt_generator_agent.py:912-927 | one slide per title at number + 1 with its title and its bullets, optionally locked, one request per title in order |
| PptGenerate.DefaultTitles | backend/agents/ppt_generator_agent.py:766-783 | min(max(num, 0), 5) titles numbered 1.. drawn in order from the five default names |
| PptGenerate.GetDefaultSlideTitles | backend/agents/ppt_generator_agent.py:766-783 | the title loop computes those titles |
| PptGenerate.GenerateMode1 | backend/agents/ppt_generator_agent.py:901-949 | the Mode 1 deck and the requests of the default titles |
| PptGenerate.Mode1Shape | backend/agents/ppt_generator_agent.py:901-949 | at most five user slides; slide k+2 holds the k-th default name and the shaped bullets of its request; the base slide keeps its subject bullet |
| PptGenerate.TitleMap | backend/agents/ppt_generator_agent.py:974-977 | every title under its number; its keys are exactly the title numbers |
| PptGenerate.TitleMapDistinct | backend/agents/ppt_generator_agent.py:974-977 | with distinct numbers every title is in the map unchanged |
| PptGenerate.BuildTitleMap | backend/agents/ppt_generator_agent.py:974-977 | the dictionary loop computes the map |
| PptGenerate.FirstBadTitle | backend/agents/ppt_generator_agent.py:1064-1073 | no slide is reported iff every slide carries its user title |
| PptGenerate.CheckTitles | backend/agents/ppt_generator_agent.py:1064-1073 | the verification loop reports the first slide whose title changed |
| PptGenerate.FirstBadTitleKept | backend/agents/ppt_generator_agent.py:1083-1096 | the verification after the bullet constraint gives the same answer |
| PptGenerate.GenerateMode2 | backend/agents/ppt_generator_agent.py:951-1100 | Mode 2 generation, with its error cases |
| PptGenerate.Mode2TitlesPure | backend/agents/ppt_generator_agent.py:951-1100 | on distinct numbers, as many as NUMBER, Mode 2 succeeds with NUMBER + 1 slides, slide k+1 titled and locked with the k-th user title, shaped bullets and no image query |
| PptGenerate.Mode2DuplicateRejected | backend/agents/ppt_generator_agent.py:974-1073 | two titles for one number make the title verification fail |
| PptGenerate.GenerateMode3 | backend/agents/ppt_generator_agent.py:1102-1147 | no exact content gives ExactContentMissing, otherwise the exact deck |
| PptGenerate.Mode3Reshaped | backend/agents/ppt_generator_agent.py:1110-1147 | Mode 3 bullets are shaped and at most ten survive; short stripped bullets, ten or fewer, are kept verbatim |
| PptGenerate.Mode3AsWrittenDropsBullets | backend/agents/ppt_generator_agent.py:1114-1147 | a Mode 3 slide with more than ten bullets loses some as written, and keeps them all under the intended guard |
| PptGenerate.Mode3IntendedVerbatim | backend/agents/ppt_generator_agent.py:1110-1124 | with the exact-content guard, every Mode 3 slide keeps its number (shifted), title and bullets word for word |
| PptGenerate.LastImage | backend/agents/ppt_generator_agent.py:1201-1204 | the last mapping for a slide wins; none iff no mapping names it |
| PptGenerate.MappedImage | backend/agents/ppt_generator_agent.py:1201-1204 | the mapping loop computes that image |
| PptGenerate.GenerateMode4 | backend/agents/ppt_generator_agent.py:1149-1237 | Mode 4 generation, with its error cases |
| PptGenerate.Mode4Shape | backend/agents/ppt_generator_agent.py:1149-1237 | no slide gets an image query; each user slide carries the image of its last mapping |
| PptGenerate.CreateFallbackSlides | backend/agents/ppt_generator_agent.py:1481-1512 | the base slide and max(num, 0) "Key Concept i" slides |
| PptGenerate.FallbackShape | backend/agents/ppt_generator_agent.py:1481-1512 | max(num, 0) slides after the base slide, the one at index k numbered k+1 with three bullets; titles are pairwise distinct |
| PptGenerateMixed.InstructionSlide | backend/agents/ppt_generator_agent.py:1262-1324 | instruction k at number k+1 with its title: EXACT bullets copied, generated bullets from its request, none otherwise; NO IMAGE marks the slide; an uploaded image number is kept unless it is 0 (Python falsiness) |
| PptGenerateMixed.GenerateRequests | backend/agents/ppt_generator_agent.py:1262-1324 | requests only for generating instructions, never for EXACT ones |
| PptGenerateMixed.HintSlides | backend/agents/ppt_generator_agent.py:1351-1362 | exactly the user slides not marked NONE and without an uploaded image |
| PptGenerateMixed.CollectHintSlides | backend/agents/ppt_generator_agent.py:1351-1362 | the selection loop computes them |
| PptGenerateMixed.FirstNumbered | backend/agents/ppt_generator_agent.py:1387-1388 | the first slide with the given number, or none |
| PptGenerateMixed.FindNumbered | backend/agents/ppt_generator_agent.py:1387-1388 | the search loop finds it |
| PptGenerateMixed.CompareBullets | backend/agents/ppt_generator_agent.py:1393-1409 | the comparison loop decides the stripped pairwise equality |
| PptGenerateMixed.FirstUnkept | backend/agents/ppt_generator_agent.py:1380-1414 | no violation iff every EXACT instruction's slide holds its bullets |
| PptGenerateMixed.VerifyExact | backend/agents/ppt_generator_agent.py:1380-1414 | the verification loop reports the first violation |
| PptGenerateMixed.GenerateMode5 | backend/agents/ppt_generator_agent.py:1239-1418 | Mode 5 generation and its exact-content verification |
| PptGenerateMixed.BuildInstructionSlides | backend/agents/ppt_generator_agent.py:1262-1324 | the instruction loop builds the slides and requests |
| PptGenerateMixed.Mode5Shape | backend/agents/ppt_generator_agent.py:1239-1418 | 1 + |instructions| slides; slide k+1 keeps instruction k's number and title; EXACT bullets verbatim; NONE and uploaded slides get no query |
| PptGenerateMixed.Mode5ExactVerified | backend/agents/ppt_generator_agent.py:1380-1414 | with distinct positive numbers the exact-content verification always passes |
| PptGenerateMixed.Mode5SlideZeroRejected | backend/agents/ppt_generator_agent.py:1380-1414 | an EXACT "Slide 0" collides with the base slide and is rejected |
| PptDispatch.JsonFenceBody | backend/agents/ppt_generator_agent.py:1446-1449 | a fenced json reply yields its stripped body |
| PptDispatch.JsonTextNoFence | backend/agents/ppt_generator_agent.py:1446-1449 | an unfenced reply is decoded unchanged |
| PptDispatch.ShiftNumbers | backend/agents/ppt_generator_agent.py:1455-1456 | every reply slide moves up one number |
| PptDispatch.GenerateLegacy | backend/agents/ppt_generator_agent.py:1420-1479 | the legacy deck, or the fallback deck when the call or decoding fails |
| PptDispatch.LegacyShape | backend/agents/ppt_generator_agent.py:1455-1476 | base slide first, then every reply slide one number higher with only content and image query changed; slides at most 1 get no hint, nor do slides without a `slide_type` whose title is neither intro-like nor architecture-like |
| PptDispatch.UntypedSlideKept | backend/agents/ppt_generator_agent.py:1466-1467 | a reply slide without a `slide_type` and with a plain title keeps its image query: the forced architecture query needs type "content" |
| PptDispatch.LegacyFallsBack | backend/agents/ppt_generator_agent.py:1477-1479 | a failed call or decode gives the fallback deck |
| PptDispatch.TitlesRequestNotBlank | backend/agents/ppt_generator_agent.py:803-812 | a "slide titles:" prompt is never blank, so the first Mode 2 hard fail cannot happen |
| PptDispatch.Mode2ResultChecked | backend/agents/ppt_generator_agent.py:839-862 | a successful Mode 2 deck passes the entry point's count and title re-checks |
| PptDispatch.Mode2PromptTitlesKept | backend/agents/ppt_generator_agent.py:822-865 | end to end: a Mode 2 prompt with enough positive slide numbers gives NUMBER + 1 slides, slide k carrying, locked, the first title the prompt gives for slide k |
| PptDispatch.GenerateSlideContent | backend/agents/ppt_generator_agent.py:785-899 | empty prompt: legacy generation; otherwise the detected mode's parser and generator, their errors propagated |
| AssistHelpers.SafeInt | backend/api/main.py:603-608 | the converted value when `int()` succeeds with a non-negative number; the default when it raises or the number is negative |
| AssistHelpers.Truncate | backend/api/main.py:605 | `int()` of a float keeps its integer part, truncating toward zero |
| AssistHelpers.SafeIntOfFloat | backend/api/main.py:603-608 | a non-negative float reads as its floor (7.5 as 7), a float in (-1, 0) as 0 (-0.5 as 0), and one at or below -1 gives the default |
| AssistHelpers.SafeIntNonNegative | backend/api/main.py:603-608 | with a non-negative default the result is never negative |
| AssistHelpers.SafeIntOfDigits | backend/api/main.py:603-608 | a count written in decimal digits reads back as itself |
| AssistHelpers.SafeIntOfNegative | backend/api/main.py:603-608 | a negative number, as an int or as "-digits" text, falls back to the default |
| AssistHelpers.NextWeekday | backend/api/main.py:377-382 | the result is one to seven days after the base date and falls on the target weekday |
| AssistHelpers.NextWeekdayIsFirst | backend/api/main.py:377-382 | no day strictly between the base date and the result has the target weekday |
| AssistHelpers.AssistModeCases | backend/api/main.py:610-648 | automatic generation iff the structure, custom-content and image lists are all empty and the lowered prompt holds none of the thirteen keywords |
| AssistHelpers.SlideWordIsExplicit | backend/api/main.py:633-644 | the word "Slide" anywhere in the prompt makes the request user-specified |
| AssistExtract.BulletOf | backend/api/main.py:707-730 | a content line yields a bullet only as a non-empty stripped text |
| AssistExtract.ExtractBullets | backend/api/main.py:707-730 | the line loop collects the bullets of the section's lines, in order |
| AssistExtract.NoBulletsIff | backend/api/main.py:707-730 | a section yields no bullet iff none of its lines does |
| AssistExtract.NumberedLineGivesText | backend/api/main.py:702-722 | a line "N. text" or "N) text" yields text |
| AssistExtract.DashLineGivesText | backend/api/main.py:704-730 | a line "- text" or "* text" yields text |
| AssistExtract.HeaderLinesSkipped | backend/api/main.py:712-714 | "Content:" and "Content bullets:" header lines, in either case, yield no bullet |
| AssistExtract.PlainLineSkipped | backend/api/main.py:715-730 | a line that starts with no digit, '-' or '*' yields no bullet |
| AssistExtract.Pass1Sound | backend/api/main.py:681-745 | every entry of the first pass comes from a "Slide N title:" match with a title and at least one bullet |
| AssistExtract.Pass1Complete | backend/api/main.py:681-745 | every such match has its entry |
| AssistExtract.TitlePass | backend/api/main.py:681-745 | the first-pass loop computes those entries |
| AssistExtract.TitleMapHasLast | backend/api/main.py:665-670 | the structure map holds, for slide n, the title of the last entry that titles it |
| AssistExtract.TitleMapMissing | backend/api/main.py:665-670 | a slide that no entry titles is not in the map |
| AssistExtract.BuildTitleMap | backend/api/main.py:665-670 | the loop builds that map |
| AssistExtract.CleanTitleDropsPunctuation | backend/api/main.py:772-774 | a trailing run of `.,;:` is removed and nothing else |
| AssistExtract.ResolveTitle | backend/api/main.py:761-775 | the structure's title, else the cleaned title from the prompt, else "" |
| AssistExtract.SectionEndAsWritten | backend/api/main.py:781-789 | the section of a "For slide" match ends at the first slide mention, line break or end of the text, as the MULTILINE search finds it |
| AssistExtract.SectionEnd | backend/api/main.py:782 | the intended cut of the comment: the section ends at the first later slide mention, or at the end |
| AssistExtract.AsWrittenAtMostOneBullet | backend/api/main.py:784-789 | as written, the section never passes its first line break, so a match yields at most one bullet |
| AssistExtract.CutsAgreeOnOneLine | backend/api/main.py:781-789 | when the intended section holds no line break, the code cuts it at the same place |
| AssistExtract.AsWrittenIsFirstLine | backend/api/main.py:781-789 | the section the code reads is the first line of the intended section |
| AssistExtract.AsWrittenBulletsKept | backend/api/main.py:781-830 | a match that gives a bullet as written gives bullets under the intended cut too, starting with the same one |
| AssistExtract.ToNextMentionKeepsEveryLine | backend/api/main.py:782 | with no slide mention after the match, the intended cut reads every line of the rest |
| AssistExtract.AsWrittenDropsSecondBullet | backend/api/main.py:784-789 | as written, the bullets "1. A" and "2. B" after a "For slide" header give only "A" |
| AssistExtract.SectionKeepsEveryLine | backend/api/main.py:781-830 | with the section running to the next slide mention, the same lines give "A" and "B" |
| AssistExtract.IndexOf | backend/api/main.py:833-838 | the first entry numbered n, with no earlier one so numbered, or none |
| AssistExtract.ForStepCases | backend/api/main.py:831-853 | without bullets nothing changes; otherwise the first entry numbered n gets the bullets and a known title, or a new entry is appended |
| AssistExtract.ApplyForMatch | backend/api/main.py:831-853 | the search loop and the update or append compute that step |
| AssistExtract.ForStepInvariant | backend/api/main.py:831-853 | a step keeps every entry's bullets non-empty and adds n to the numbers iff it has bullets |
| AssistExtract.ForNumbersHas | backend/api/main.py:757-853 | for either cut, a number is added by the second pass iff some "For slide" match with bullets under that cut carries it |
| AssistExtract.Pass2Invariant | backend/api/main.py:757-853 | for either cut, the second pass keeps bullets non-empty and ends with the first-pass numbers plus those of the matches with bullets |
| AssistExtract.AsWrittenNumbersKept | backend/api/main.py:757-853 | every slide number the code's second pass adds is also added under the intended cut |
| AssistExtract.CustomSlidesShape | backend/api/main.py:650-856 | for the code's cut and for the intended one: every extracted entry has bullets; the numbers are those of the qualifying title matches and the "For slide" matches with bullets |
| AssistExtract.ExtractCustomSlides | backend/api/main.py:650-856 | the extractor's loops, each "For slide" section cut as the code cuts it, compute the two passes of `CustomSlidesOf(..., AsWritten)` |
| AssistStructure.FirstGenerate | backend/api/main.py:889 | the leftmost `\s+[Gg]enerate` at or after a position, or none |
| AssistStructure.ListTitle | backend/api/main.py:885-890 | a kept list title is longer than two characters |
| AssistStructure.ListTitles | backend/api/main.py:884-894 | at most one entry per match, each with a title longer than two characters |
| AssistStructure.ListTitlesAllKept | backend/api/main.py:884-894 | when every match is kept, one entry per match, in order |
| AssistStructure.CollectListTitles | backend/api/main.py:884-894 | the loop over the list's matches computes those entries |
| AssistStructure.ListTitleKeepsPlain | backend/api/main.py:885-890 | a stripped title without "generate" is kept as written |
| AssistStructure.ListTitleCutsGenerate | backend/api/main.py:887-889 | a title followed by " Generate ..." is cut before it |
| AssistStructure.MapOf | backend/api/main.py:924-931 | every title in the map is non-empty and stripped |
| AssistStructure.OrderOf | backend/api/main.py:933-938 | the key order holds each map key exactly once |
| AssistStructure.FallbackLastWins | backend/api/main.py:921-938 | slide n's entry carries the cleaned title of the last match that titles it |
| AssistStructure.FallbackMissing | backend/api/main.py:921-938 | a slide that no match titles has no entry |
| AssistStructure.FallbackDistinct | backend/api/main.py:933-938 | no two entries share a slide number |
| AssistStructure.BuildFallback | backend/api/main.py:921-938 | the match loop and the item loop compute the fallback list |
| AssistStructure.StructureOf | backend/api/main.py:858-946 | every entry of the structure has a non-empty title |
| AssistStructure.ExtractStructure | backend/api/main.py:871-946 | the list's entries when the "Slide titles:" list gives any, otherwise the fallback's |
| AssistDeck.AllowedSlides | backend/api/main.py:1978-1983 | every mapped user slide, shifted past the base slide, is allowed; nothing below 1 is |
| AssistDeck.CleanAll | backend/api/main.py:1988-1995 | slide by slide, the cleanup of each slide |
| AssistDeck.CleanupImages | backend/api/main.py:1986-1995 | the in-place loop leaves the cleaned deck and counts the blocked slides |
| AssistDeck.CountImages | backend/api/main.py:2001-2003 | the loop counts the user slides that carry an image |
| AssistDeck.Mode4FinalCleanup | backend/api/main.py:1975-2007 | the cleanup, then success iff the image count equals the number of allowed slides, else the mismatch error with both counts |
| AssistDeck.CleanupFrame | backend/api/main.py:1988-1995 | only blocked slides change, losing only `image_path` and `image_query`; every remaining imaged user slide is allowed; a second cleanup changes nothing |
| AssistDeck.ImageCountIsNumbers | backend/api/main.py:2001-2003 | with distinct slide numbers, the image count is the number of imaged slide numbers |
| AssistDeck.FinalCheckCases | backend/api/main.py:1979-2007 | with distinct numbers the check never finds too many images, and passes iff every allowed slide is a user slide that keeps an image |
| AssistDeck.SlideZeroMappingFails | backend/api/main.py:1980-2007 | a mapping to "Slide 0" allows slide 1, which is never counted, so the check fails |
| AssistDeck.PlaceholderShape | backend/api/main.py:2065-2075 | a missing slide n becomes the content slide "Slide n" holding "Content to be added", without an image |
| AssistDeck.DefaultBaseShape | backend/api/main.py:2077-2085 | the default base slide is a title slide named by the topic, holding the subject or "Generated by EduAssist" |
| AssistDeck.SlidesWhere | backend/api/main.py:2057-2061 | exactly the slides that satisfy the filter |
| AssistDeck.Missing | backend/api/main.py:2065-2075 | a placeholder for each user number 2 .. i + 1 that was not found |
| AssistDeck.SplitSlides | backend/api/main.py:2057-2061 | the two comprehensions give the slides numbered 1 and those numbered 2 .. n + 1 |
| AssistDeck.AddMissing | backend/api/main.py:2062-2075 | the loop appends the placeholders for the missing numbers |
| AssistDeck.RepairSlideCount | backend/api/main.py:2054-2091 | the repair block computes the repaired deck |
| AssistDeck.BasePartOne | backend/api/main.py:2057-2085 | with distinct numbers the base part is one slide: the old slide 1, or the default base slide |
| AssistDeck.UserPartDense | backend/api/main.py:2060-2089 | with distinct numbers the user part is slides 2 .. n + 1, each found or filled |
| AssistDeck.RepairShape | backend/api/main.py:2054-2091 | with distinct numbers: exactly n + 1 slides, the base first, then slide k + 1 at index k, kept unchanged or a placeholder |
| AssistDeck.RepairBounds | backend/api/main.py:2054-2091 | for any deck: slide 1 first, sorted by number, every slide numbered 1 .. n + 1 and an old slide, the default base slide or a placeholder |
| Attendance.Tokens | backend/agents/attendance_tools.py:30-31 | the spec is lowered, "except" marked, commas made spaces, and split on whitespace |
| Attendance.Range | backend/agents/attendance_tools.py:39 | exactly the numbers a .. b - 1 |
| Attendance.RollResult | backend/agents/attendance_tools.py:43 | strictly increasing, and holding exactly the included numbers that are not excluded |
| Attendance.ExpandRolls | backend/agents/attendance_tools.py:25-43 | the token loop computes `expand_roll_spec` |
| Attendance.RollFoldErrSticks | backend/agents/attendance_tools.py:32-42 | the first bad token ends the loop with its error |
| Attendance.RollFoldContents | backend/agents/attendance_tools.py:32-42 | the include list covers the tokens before "except", the exclude list those after it |
| Attendance.RollFoldFails | backend/agents/attendance_tools.py:32-42 | the loop fails iff some token other than "except" is neither a number nor a range |
| Attendance.RollSpecMembers | backend/agents/attendance_tools.py:25-43 | n is in the result iff a token before "except" covers it and none after it does; the result is strictly increasing |
| Attendance.RollSpecFails | backend/agents/attendance_tools.py:25-43 | the spec fails iff one of its tokens, other than "except", does not parse |
| Attendance.RollSpecEmpty | backend/agents/attendance_tools.py:30-43 | an absent or empty spec gives no numbers |
| Attendance.RangeTokenCovers | backend/agents/attendance_tools.py:37-41 | "a-b" stands for a .. b (nothing when a > b); "n" stands for n |
| Attendance.CommasAsSpaces | backend/agents/attendance_tools.py:31 | every comma becomes a space and nothing else changes |
| Attendance.Iso | backend/agents/attendance_tools.py:46-55 | an absent, empty or "today" date gives today |
| Attendance.IsoDayFirst | backend/agents/attendance_tools.py:51-53 | "dd-mm-yy" with a two-character day becomes "yy-mm-dd" |
| Attendance.IsoPassThrough | backend/agents/attendance_tools.py:46-55 | any other date is returned unchanged |
| Attendance.IsoIdempotent | backend/agents/attendance_tools.py:46-55 | normalising a year-first result again changes nothing |
| Attendance.MarkAttendance | backend/agents/attendance_tools.py:258-266 | one record per student, present iff the roll is listed; the present count matches the records and the total is the roster size |
| Attendance.CountPresent | backend/agents/attendance_tools.py:265 | the loop counts the students whose roll is listed |
| QuestionGenerator.DifficultyDistribution | backend/agents/question_generator_agent.py:133-157 | a supplied distribution is returned as is; otherwise all three levels get a count |
| QuestionGenerator.MixedDistribution | backend/agents/question_generator_agent.py:143-151 | "mixed" counts add up to the total, easy >= medium >= hard, and easy - hard <= 1 |
| QuestionGenerator.SingleLevelDistribution | backend/agents/question_generator_agent.py:152-157 | "easy" and "hard" put every question at that level; any other name puts them at medium |
| QuestionGenerator.PromptFor | backend/agents/question_generator_agent.py:167-198 | the defaults 5 MCQs, 3 short, 2 long, marks 1, 3 and 5, and medium; the MCQ, short and long counts each split by the distribution; the set note, empty when absent |
| QuestionGenerator.MissingLevel | backend/agents/question_generator_agent.py:191-193 | the first of "easy", "medium", "hard" missing from a distribution, none iff all three are keys |
| QuestionGenerator.PromptKeyErrorCases | backend/agents/question_generator_agent.py:173-193 | without a supplied distribution the prompt is always written; with one, its first missing level raises |
| QuestionGenerator.GenerateQuestions | backend/agents/question_generator_agent.py:166-266 | a key error while writing the prompt gives empty lists with the quoted key and no model call; a failed call gives empty lists with its message; a reply that does not decode gives empty lists |
| QuestionGenerator.MissingEasyFails | backend/agents/question_generator_agent.py:191-266 | a supplied distribution without "easy" gives empty lists with the error "'easy'", whatever the model would reply |
| QuestionGenerator.JsonOfFencedReply | backend/agents/question_generator_agent.py:244-248 | a "```json" fenced reply hands exactly the stripped block to the decoder |
| QuestionGenerator.VariationNote | backend/agents/question_generator_agent.py:285-292 | the note, character for character: a blank line, sixteen spaces, the heading, "This is Set i of n question papers. " and three more sentences, one per line |
| QuestionGenerator.NoteDigits | backend/agents/question_generator_agent.py:288 | the set number's digits stand at position 59 of the note, followed by a space |
| QuestionGenerator.VariationNotesDistinct | backend/agents/question_generator_agent.py:285-292 | different sets of the same paper get different notes |
| QuestionGenerator.SetRequirements | backend/agents/question_generator_agent.py:281-293 | with several sets, only the variation note of set i of n is set; a single set keeps the requirements |
| QuestionGenerator.GenerateMultipleSets | backend/agents/question_generator_agent.py:268-307 | max(num_sets, 0) sets, set k + 1 numbered and named "Set k+1", generated from its own requirements |
| QuestionGenerator.SetNamesDistinct | backend/agents/question_generator_agent.py:302-303 | different set numbers give different names |
| Text.Prefix | backend/agents/lab_manual_generator_agent.py:342 | `s[:n]`: a prefix of at most n characters, the whole text when it is shorter |
| LabManual.ModuleExperimentAt | backend/agents/lab_manual_generator_agent.py:321-346 | experiment i of a module is numbered first + i and is about objective i |
| LabManual.BuildExperiments | backend/agents/lab_manual_generator_agent.py:321-346 | the inner loop builds the module's experiments and advances the number by their count |
| LabManual.CreateFallbackManual | backend/agents/lab_manual_generator_agent.py:295-362 | the outer loop builds the fallback manual |
| LabManual.ExperimentsBeforeClosedForm | backend/agents/lab_manual_generator_agent.py:316-318 | modules 1 and 2 hold two experiments, later ones three |
| LabManual.FallbackShape | backend/agents/lab_manual_generator_agent.py:316-362 | modules 1 .. num_modules in order with their counts, "All" or "Any Two", clamped topics; the caller's fields pass through and the course code is "N/A" |
| LabManual.ConsecutiveExperimentNumbers | backend/agents/lab_manual_generator_agent.py:305-346 | experiment numbers run 1, 2, 3, ... across all modules |
| LabManual.ObjectiveChoice | backend/agents/lab_manual_generator_agent.py:322-323 | objective i, else the last objective, else the default text |
| LabManual.ExperimentTitle | backend/agents/lab_manual_generator_agent.py:340-345 | the title names the experiment number and at most fifty characters of the objective |
| ModelManager.PreferenceCases | backend/utils/model_manager.py:48-79 | empty input keeps the default; a Groq keyword wins; a Gemini keyword counts only without a Groq one; otherwise the default |
| ModelManager.PreferenceIgnoresCase | backend/utils/model_manager.py:57 | lowering the input first changes nothing |
| ModelManager.FastModePicksGroq | backend/utils/model_manager.py:60-68 | "Fast Mode" anywhere picks Groq |
| ModelManager.RouteCases | backend/utils/model_manager.py:92-98 | Groq iff asked for, or Gemini asked for without its key while the Groq key is set |
| ModelManager.GenerateContent | backend/utils/model_manager.py:81-98 | the routed backend's reply, or that backend's missing-key error |
| ModelManager.NoKeyFails | backend/utils/model_manager.py:81-98 | with neither key set each model fails with its own missing-key error |
| ModelManager.OneKeySuffices | backend/utils/model_manager.py:92-98 | with any key set, a Gemini request gets a reply from Gemini or Groq |
| ModelManager.IsModelAvailable | backend/utils/model_manager.py:246-251 | a model is available iff its key is set |
| ModelManager.AvailableModelRuns | backend/utils/model_manager.py:81-98 | an available model runs on its own backend |
| PptCrewFilter.FilterContentForTopic | backend/crewAI/ppt_crew.py:117-136 | the method computes the filtered text |
| PptCrewFilter.RelevantLines | backend/crewAI/ppt_crew.py:126-134 | the loop collects the kept lines, in order |
| PptCrewFilter.FilterLine | backend/crewAI/ppt_crew.py:127-134 | one pass keeps a matching line or a non-blank context line and stops past the limit |
| PptCrewFilter.FilterShape | backend/crewAI/ppt_crew.py:126-134 | kept positions increase among the lines read; a stop comes only past twenty kept lines |
| PptCrewFilter.StoppedStays | backend/crewAI/ppt_crew.py:133-134 | after the break, later lines change nothing |
| PptCrewFilter.FilterKeeps | backend/crewAI/ppt_crew.py:126-132 | before the break, a line is kept iff it matches, or is non-blank after an earlier match |
| PptCrewFilter.FirstKeptMatches | backend/crewAI/ppt_crew.py:128-132 | the first kept line is the first matching line |
| PptCrewFilter.NothingKeptNoMatch | backend/crewAI/ppt_crew.py:126-130 | while nothing is kept, no line read so far matched |
| PptCrewFilter.StopIsContextLine | backend/crewAI/ppt_crew.py:130-134 | the break happens on a non-blank, non-matching line, with more than twenty lines kept |
| PptCrewFilter.NoMatchGivesPrefix | backend/crewAI/ppt_crew.py:136 | with no matching line the result is the first 2000 characters of the syllabus |
| SyllabusStore.SafeSyllabusName | backend/utils/syllabus_store.py:27-29 | only allowed characters, ending in ".pdf" in some case |
| SyllabusStore.SafeSyllabusNameIdempotent | backend/utils/syllabus_store.py:27-29 | a safe name is kept as it is |
| SyllabusStore.TopicKeyFirst | backend/utils/syllabus_store.py:53-58 | a non-blank topic gives the first key |
| SyllabusStore.KeysCoverCandidates | backend/utils/syllabus_store.py:58 | every non-blank candidate gives a key |
| SyllabusStore.NoKeysIffBlank | backend/utils/syllabus_store.py:58-60 | there are no keys iff every candidate is blank |
| SyllabusStore.KeysComeFromCandidates | backend/utils/syllabus_store.py:58 | every key is a non-blank candidate, stripped and lowered |
| SyllabusStore.Tokens | backend/utils/syllabus_store.py:72 | the fallback tokens are longer than three characters |
| SyllabusStore.ScorePages | backend/utils/syllabus_store.py:63-77 | the scoring loop computes the scored entries |
| SyllabusStore.ScoresFaithful | backend/utils/syllabus_store.py:64-68 | each entry carries its page's own positive score and its text |
| SyllabusStore.ScoresIncreasing | backend/utils/syllabus_store.py:64-68 | entries are in strictly increasing page order |
| SyllabusStore.ScoresComplete | backend/utils/syllabus_store.py:64-68 | every page with a positive score has an entry |
| SyllabusStore.FallbackOnlyWhenUnscored | backend/utils/syllabus_store.py:70-77 | when some page scores on the keys, the token fallback is not used |
| SyllabusStore.OrderIsDescending | backend/utils/syllabus_store.py:83 | sorted by the encoded key means descending by score, then page index |
| SyllabusStore.CandidatesOrdered | backend/utils/syllabus_store.py:83 | the entries are read in descending (score, page index) order |
| SyllabusStore.GatherBounded | backend/utils/syllabus_store.py:84-99 | the buffer never exceeds max_chars and only grows |
| SyllabusStore.GatherFits | backend/utils/syllabus_store.py:84-99 | when everything fits, the buffer holds every non-blank page in full, in order |
| SyllabusStore.GatherSnippets | backend/utils/syllabus_store.py:84-99 | the buffer loop, with its early break, computes the buffer |
| SyllabusStore.BuildContext | backend/utils/syllabus_store.py:62-101 | scoring, fallback, sort and buffer compute the context |
| SyllabusStore.RetrieveTopicContext | backend/utils/syllabus_store.py:42-101 | the whole retrieval computes the context |
| SyllabusStore.ContextOfBounded | backend/utils/syllabus_store.py:62-101 | a context built from scored pages is non-empty and at most max_chars long |
| SyllabusStore.ContextBounded | backend/utils/syllabus_store.py:42-101 | a returned context is non-empty and at most max_chars long |
| SyllabusStore.NoContextCases | backend/utils/syllabus_store.py:44-60 | no syllabus, no pages, or no non-blank key gives no context |
| ImageFetcher.SafeName | backend/utils/image_fetcher.py:144-145 | at most forty characters, each a lower-case letter, a digit, '_' or '-' |
| ImageFetcher.SafeNameOfPlainText | backend/utils/image_fetcher.py:144-145 | a plain name loses nothing but its spaces, which become '_' |
| ImageFetcher.DriveFileId | backend/utils/image_fetcher.py:105-107 | a found file id is non-empty and made of `[a-zA-Z0-9_-]` |
| ImageFetcher.ConvertGoogleDriveUrl | backend/utils/image_fetcher.py:100-142 | a URL that names neither a Drive nor a share host is returned unchanged |
| ImageFetcher.DriveLinkConverted | backend/utils/image_fetcher.py:103-109 | a Drive link ".../d/id..." becomes the direct view link of that id |
| ImageFetcher.ShareLinkResolved | backend/utils/image_fetcher.py:112-140 | a share link becomes its redirect target, unless that is a Photos page or the request fails |
| ImageFetcher.DriveLinkWithoutId | backend/utils/image_fetcher.py:103-142 | a Drive link without a file id, and not a share link, is unchanged |
| ImageFetcher.Extension | backend/utils/image_fetcher.py:56-63 | one of four extensions; ".jpg" iff neither the content type nor the URL names png, gif or webp |
| ImageFetcher.DownloadImage | backend/utils/image_fetcher.py:40-76 | a failed request gives nothing; a saved file is named hex_safename plus an image extension |
| ImageFetcher.DownloadFromUrl | backend/utils/image_fetcher.py:78-98 | a blank URL, or one that is not http(s) once stripped, is refused |
| ImageFetcher.DownloadGuardsBeforeNetwork | backend/utils/image_fetcher.py:80-87 | a refused URL gives nothing, whatever the network does |
| ImageFetcher.DownloadDirectLink | backend/utils/image_fetcher.py:84-93 | a plain https link is downloaded under its stripped form |
| ImageFetcher.FetchImage | backend/utils/image_fetcher.py:18-38 | a blank query or no key gives nothing; a result needs an image URL from the search |
| ImageFetcher.FetchGuardsBeforeNetwork | backend/utils/image_fetcher.py:20-24 | a blank query or a missing key gives nothing, whatever the network does |

## Left out

- The language model and its retries, JSON extraction and validation inside `_generate_single_slide_content` are one abstract reply per request (`LlmReply`).
- `json.loads` in the legacy generation is an abstract `decode` parameter; a failure anywhere in it gives the fallback deck.
- PptDispatch.GenerateLegacy: a reply slide whose `content` is not a list, which `_enforce_bullet_constraints` skips unchanged, cannot be represented, since a slide's content is always a list of items; a reply slide without `slide_type` (or with another value) is `OtherKind`, which the hint pass treats as neither "title" nor "content".
- Console tracing (`print`) is not modelled; no behaviour depends on it.
- `str.lower()` is modelled on ASCII letters only; non-ASCII case folding is not modelled.
- SafeName (`ImageFetcher.SafeName`): `str.isalnum()` is modelled on ASCII letters and digits; other Unicode letters and digits, which the source keeps ("Café" gives "café"), are dropped.
- SafeSyllabusName (`SyllabusStore.SafeSyllabusName`): `str.isalnum()` is modelled on ASCII letters and digits; other Unicode letters and digits, which the source keeps ("Física.pdf" stays as it is), are dropped.
- PyInt (`Text.PyInt`) and the `\d` scanners built on `Text.IsDigit`: only ASCII digits are digits; Python's `int()` and `\d` also accept other Unicode decimal digits (`int("٣")` is 3), which the model treats as non-digits.
- The Mode 2 `_mode_2_title_pure` check inside `_enforce_bullet_constraints` cannot fail, because the constraint never changes titles; it is not modelled as a separate branch.
- The Mode 5 slide-count checks before and after the passes cannot fail by construction; they are not modelled as branches.
- The Mode 5 "EXACT slide with empty content" error cannot happen, because parsed exact content is never empty.
- The "Invalid PPT Mode" error of `generate_slide_content` cannot happen, since detection always picks one of the five modes.
- `generate_slides_for_topics` is a language-model loop and is not part of this model.
- The Unsplash search, the image download and the file write are parameters (`unsplash`, `get`, `resolve`); the random `uuid4().hex` prefix is the parameter `hex`.
- The model calls of `ModelManager` (`_generate_with_gemini`, the retry loop of `_generate_with_groq` with its sleeps) are function parameters; the retry loop is not modelled.
- The database work of `mark_attendance` (session lookup, deleting and adding records) and the other attendance tools (`create_session`, `summary`, `export_csv`) are not modelled; the model takes the roster and produces the records.
- `_read_pdf_text` and `get_latest_syllabus_path` are file-system calls: the pages of the latest syllabus are a parameter, `None` when there is none.
- The prompt of `generate_questions` is modelled by its counts, splits, marks, difficulty and note; the content-analysis text it also holds is not modelled.
- The `slide_structure` entries read by `_extract_custom_slides_from_prompt` are assumed to carry integer slide numbers; an entry whose number is a string such as "2" (which the source keys under the string and so never matches) cannot be represented.
- The slide-count repair of `assist` assumes every slide entry is a slide with an integer number; non-dict entries and entries without `slide_number` are not modelled.
- The regex searches of the assist extractors over the whole prompt (the "Slide N title:", "For slide N", "Slide titles:" and the four fallback title patterns) are given as lists of match records rather than scanned.
- `assist`'s own Mode 2/4 count and title assertions, `_attach_images`, `_apply_image_requests` and the rest of the endpoint are not part of this model.

## Findings

| source | as written | input that shows it | evidently intended | confidence | as-written member | corrected member |
|---|---|---|---|---|---|---|
| backend/api/main.py:784-789 | the section of a "For slide N" match ends at the first `$` of a MULTILINE search, which matches before every line break | "For slide 2, use exactly these bullets:\n1. A\n2. B" gives the bullet "A" only | the section runs to the next "For slide" / "Slide N" mention, as the comment beside the search says, so both bullets are kept | high (not executed) | AssistExtract.AsWrittenDropsSecondBullet | AssistExtract.SectionKeepsEveryLine |
| backend/agents/ppt_generator_agent.py:1114-1147 | `_generate_mode_3` hands its slides to `_enforce_bullet_constraints` without the exact-content guard, so bullets are stripped, cut to 140 characters and limited to ten | a Mode 3 prompt whose slide lists eleven bullets gives a slide with ten | the bullets are used word for word, as the comments on the title and content lines say; marking the slides exact and running the guarded constraint does that | medium (not executed) | PptGenerate.Mode3AsWrittenDropsBullets | PptGenerate.Mode3IntendedVerbatim |
