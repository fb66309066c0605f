/**
 * The legacy prompt extractors of the assist endpoint:
 * `_extract_custom_slides_from_prompt` (the bullets under "Slide N title:"
 * and under "For slide N, use exactly these bullets:") and
 * `_extract_slide_structure_from_prompt` (the slide titles).
 *
 * The regular-expression searches that locate the headers in the prompt
 * are given as their matches (the captured groups and the text after each
 * header); what the extractors do with every match, line by line, is
 * modelled in full.
 */
module AssistExtract {
  import opened Wrappers
  import opened Text
  import opened Scan

  // ----- bullet lines -----

  /** What may follow "content" on a header line, after the whitespace. */
  const HeaderTails: set<string> := {"", ":", "bullet", "bullet:", "bullets", "bullets:"}

  /** `re.match(r'^content\s*(?:bullets?)?:?\s*$', line, re.IGNORECASE)` on a stripped line. */
  predicate IsContentHeader(line: string)
  {
    StartsAtCI(line, 0, "content") && Lower(LStrip(line[7..])) in HeaderTails
  }

  /** `re.match(r'^\s*\d+[.)]\s+(.+)$', line)` on a stripped line: the group, stripped. */
  function NumberedText(line: string): (r: Option<string>)
  {
    var d := DigitEnd(line, 0);
    if 0 < d && d + 1 < |line| && (line[d] == '.' || line[d] == ')') && IsSpace(line[d + 1]) then
      Some(Strip(line[d + 1..]))
    else None
  }

  /** `re.match(r'^\s*[-*]\s+(.+)$', line)` on a stripped line: the group, stripped. */
  function DashText(line: string): (r: Option<string>)
  {
    if 1 < |line| && (line[0] == '-' || line[0] == '*') && IsSpace(line[1]) then Some(Strip(line[1..]))
    else None
  }

  /** `re.match(r'^(?:For\s+)?slide\s+\d+', line, re.IGNORECASE)`. */
  predicate IsSlideLine(line: string)
  {
    SlideNumberAt(line, 0).Some?
    || (StartsAtCI(line, 0, "for") && SpaceEnd(line, 3) > 3 && SlideNumberAt(line, SpaceEnd(line, 3)).Some?)
  }

  /**
   * One line of a content section: stripped, then skipped when blank, a
   * "Content:" header or (in the "For slide" pass) a slide line; otherwise
   * the text after a number or a bullet marker, if it has one.
   */
  function BulletOf(raw: string, skipSlideLines: bool): (r: Option<string>)
    ensures r.Some? ==> r.value != [] && IsStripped(r.value)
  {
    var line := Strip(raw);
    if line == [] || IsContentHeader(line) then None
    else if skipSlideLines && IsSlideLine(line) then None
    else if NumberedText(line).Some? then
      NumberedTextShape(line);
      NumberedText(line)
    else if DashText(line).Some? then
      DashTextShape(line);
      DashText(line)
    else None
  }

  /** On a stripped line, the text after a number is non-empty and stripped. */
  lemma NumberedTextShape(line: string)
    requires IsStripped(line) && NumberedText(line).Some?
    ensures NumberedText(line).value != [] && IsStripped(NumberedText(line).value)
  {
    NonSpaceSurvives(line[DigitEnd(line, 0) + 1..], |line| - DigitEnd(line, 0) - 2);
  }

  /** On a stripped line, the text after a bullet marker is non-empty and stripped. */
  lemma DashTextShape(line: string)
    requires IsStripped(line) && DashText(line).Some?
    ensures DashText(line).value != [] && IsStripped(DashText(line).value)
  {
    NonSpaceSurvives(line[1..], |line| - 2);
  }

  /** Stripping keeps a text that has a non-space character non-empty. */
  lemma NonSpaceSurvives(s: string, k: nat)
    requires k < |s| && !IsSpace(s[k])
    ensures Strip(s) != []
  {
    var l := LStrip(s);
    LStripIsSuffix(s);
    assert |s| - |l| <= k;
    assert l[k - (|s| - |l|)] == s[k];
  }

  /** The bullets of a content section's lines, in order. */
  function Bullets(lines: seq<string>, skipSlideLines: bool): (r: seq<string>)
    ensures |r| <= |lines|
    ensures forall j :: 0 <= j < |r| ==> r[j] != []
  {
    if lines == [] then []
    else
      var front := Bullets(lines[..|lines| - 1], skipSlideLines);
      match BulletOf(lines[|lines| - 1], skipSlideLines)
      case Some(b) => front + [b]
      case None => front
  }

  /** The bullet loop over `content_section.split('\n')`. */
  method ExtractBullets(section: string, skipSlideLines: bool) returns (bullets: seq<string>)
    ensures bullets == Bullets(SplitOn(section, '\n'), skipSlideLines)
  {
    var lines := SplitOn(section, '\n');
    bullets := [];
    var k := 0;
    while k < |lines|
      invariant 0 <= k <= |lines|
      invariant bullets == Bullets(lines[..k], skipSlideLines)
    {
      assert lines[..k + 1][..k] == lines[..k];
      var b := BulletOf(lines[k], skipSlideLines);
      if b.Some? {
        bullets := bullets + [b.value];
      }
      k := k + 1;
    }
    assert lines[..k] == lines;
  }

  /** A section yields no bullet exactly when none of its lines does. */
  lemma {:induction false} NoBulletsIff(lines: seq<string>, skipSlideLines: bool)
    ensures Bullets(lines, skipSlideLines) == [] <==> forall k :: 0 <= k < |lines| ==> BulletOf(lines[k], skipSlideLines).None?
  {
    if lines != [] {
      var front := lines[..|lines| - 1];
      NoBulletsIff(front, skipSlideLines);
      assert forall k :: 0 <= k < |front| ==> front[k] == lines[k];
    }
  }

  /** No case-insensitive literal starts where the first letters differ. */
  lemma NotAtStart(line: string, lit: string)
    requires line != [] && lit != [] && LowerChar(line[0]) != lit[0]
    ensures !StartsAtCI(line, 0, lit)
  {
    if |lit| <= |line| {
      assert Lower(line[..|lit|])[0] == LowerChar(line[0]);
    }
  }

  /** " " + text strips to text. */
  lemma StripSpaceThen(text: string)
    requires text != [] && IsStripped(text)
    ensures Strip(" " + text) == text
  {
    assert LStrip(" " + text) == LStrip(text);
    StripOfStripped(text);
  }

  /** A stripped line that begins with a digit or a bullet marker is neither a header nor a slide line. */
  lemma MarkedLineIsPlain(line: string)
    requires line != [] && (IsDigit(line[0]) || line[0] == '-' || line[0] == '*')
    ensures !IsContentHeader(line) && !IsSlideLine(line)
  {
    NotAtStart(line, "content");
    NotAtStart(line, "slide");
    NotAtStart(line, "for");
  }

  /** A numbered line "N. text" or "N) text" gives its text. */
  lemma NumberedLineGivesText(n: nat, sep: char, text: string, skipSlideLines: bool)
    requires sep == '.' || sep == ')'
    requires text != [] && IsStripped(text)
    ensures BulletOf(NatToString(n) + [sep] + " " + text, skipSlideLines) == Some(text)
  {
    var digits := NatToString(n);
    var line := digits + [sep] + " " + text;
    assert line[0] == digits[0] && line[|line| - 1] == text[|text| - 1];
    StripOfStripped(line);
    MarkedLineIsPlain(line);
    NumberedTextOf(digits, sep, text);
    hide Strip, IsContentHeader, IsSlideLine, NumberedText;
  }

  lemma NumberedTextOf(digits: string, sep: char, text: string)
    requires digits != [] && AllDigits(digits)
    requires sep == '.' || sep == ')'
    requires text != [] && IsStripped(text)
    ensures NumberedText(digits + [sep] + " " + text) == Some(text)
  {
    var line := digits + [sep] + " " + text;
    DigitEndIs(line, 0, |digits|);
    assert line[|digits| + 1..] == " " + text;
    StripSpaceThen(text);
    hide Strip, DigitEnd;
  }

  /** A bullet line "- text" or "* text" gives its text. */
  lemma DashLineGivesText(marker: char, text: string, skipSlideLines: bool)
    requires marker == '-' || marker == '*'
    requires text != [] && IsStripped(text)
    ensures BulletOf([marker] + " " + text, skipSlideLines) == Some(text)
  {
    var line := [marker] + " " + text;
    assert line[|line| - 1] == text[|text| - 1];
    StripOfStripped(line);
    MarkedLineIsPlain(line);
    assert DigitEnd(line, 0) == 0;
    assert line[1..] == " " + text;
    StripSpaceThen(text);
    hide Strip, IsContentHeader, IsSlideLine, DigitEnd;
    assert NumberedText(line) == None;
    assert DashText(line) == Some(text);
  }

  /** "Content:" and "Content bullets:" header lines give no bullet, in any case. */
  lemma HeaderLinesSkipped(tail: string, skipSlideLines: bool)
    requires tail in HeaderTails
    ensures BulletOf("Content" + tail, skipSlideLines).None?
    ensures BulletOf("CONTENT" + tail, skipSlideLines).None?
  {
    ContentHeaderLine("Content", tail);
    ContentHeaderLine("CONTENT", tail);
  }

  lemma ContentHeaderLine(word: string, tail: string)
    requires word == "Content" || word == "CONTENT"
    requires tail in HeaderTails
    ensures IsContentHeader(word + tail) && Strip(word + tail) == word + tail
  {
    var line := word + tail;
    HeaderTailShape(tail);
    assert Lower(word) == "content";
    hide HeaderTails, Lower, LStrip;
    assert line[..7] == word;
    assert line[7..] == tail;
    assert line[0] == word[0] && line[|line| - 1] == (if tail == [] then word[6] else tail[|tail| - 1]);
    StripOfStripped(line);
  }

  /** The header tails are lower case and have no whitespace at either end. */
  lemma HeaderTailShape(tail: string)
    requires tail in HeaderTails
    ensures Lower(tail) == tail && LStrip(tail) == tail
    ensures tail == [] || (!IsSpace(tail[0]) && !IsSpace(tail[|tail| - 1]))
  {
    assert forall k :: 0 <= k < |tail| ==> 'a' <= tail[k] <= 'z' || tail[k] == ':';
    hide HeaderTails;
    LettersAndColons(tail);
  }

  lemma LettersAndColons(t: string)
    requires forall k :: 0 <= k < |t| ==> 'a' <= t[k] <= 'z' || t[k] == ':'
    ensures Lower(t) == t && LStrip(t) == t
    ensures t == [] || (!IsSpace(t[0]) && !IsSpace(t[|t| - 1]))
  {
  }

  /** A line that does not start with a digit, '-' or '*' gives no bullet. */
  lemma PlainLineSkipped(raw: string, skipSlideLines: bool)
    requires Strip(raw) != []
    requires var c := Strip(raw)[0]; !IsDigit(c) && c != '-' && c != '*'
    ensures BulletOf(raw, skipSlideLines).None?
  {
  }

  // ----- pass 1: "Slide N title: ..." followed by bullets -----

  /**
   * One match of `Slide\s+(\d+)\s+title:\s*([^\n]+)`: the slide number, the
   * title group, and the text from the end of the match to the start of the
   * next match (or the end of the prompt).
   */
  datatype TitleMatch = TitleMatch(number: nat, title: string, section: string)

  /** One entry of `custom_slides`. */
  datatype CustomSlide = CustomSlide(number: int, title: string, content: seq<string>)

  function MatchBullets(m: TitleMatch): seq<string>
  {
    Bullets(SplitOn(m.section, '\n'), false)
  }

  /** A match makes an entry only with a non-empty title and at least one bullet. */
  predicate Qualifies(m: TitleMatch)
  {
    Strip(m.title) != [] && MatchBullets(m) != []
  }

  function SlideOf(m: TitleMatch): CustomSlide
  {
    CustomSlide(m.number, Strip(m.title), MatchBullets(m))
  }

  /** The entries pass 1 appends for the matches, in order. */
  function Pass1(ms: seq<TitleMatch>): (r: seq<CustomSlide>)
    ensures forall j :: 0 <= j < |r| ==> r[j].title != [] && r[j].content != []
  {
    if ms == [] then []
    else
      var m := ms[|ms| - 1];
      Pass1(ms[..|ms| - 1]) + (if Qualifies(m) then [SlideOf(m)] else [])
  }

  /** Every entry of `r` is the entry of some qualifying match of `ms`. */
  ghost predicate FromQualifying(ms: seq<TitleMatch>, r: seq<CustomSlide>)
  {
    forall j :: 0 <= j < |r| ==> EntryOf(ms, r[j])
  }

  /** `e` is the entry of some qualifying match of `ms`. */
  ghost predicate EntryOf(ms: seq<TitleMatch>, e: CustomSlide)
  {
    exists k :: 0 <= k < |ms| && Qualifies(ms[k]) && e == SlideOf(ms[k])
  }

  /** Every qualifying match of `ms` has its entry in `r`. */
  predicate CoversQualifying(ms: seq<TitleMatch>, r: seq<CustomSlide>)
  {
    forall k :: 0 <= k < |ms| && Qualifies(ms[k]) ==> SlideOf(ms[k]) in r
  }

  /** Pass 1 makes no entry that does not come from a qualifying match. */
  lemma {:induction false} Pass1Sound(ms: seq<TitleMatch>)
    ensures FromQualifying(ms, Pass1(ms))
  {
    hide MatchBullets, Strip;
    if ms != [] {
      var front := ms[..|ms| - 1];
      var last := ms[|ms| - 1];
      Pass1Sound(front);
      var r := Pass1(ms);
      var pf := Pass1(front);
      assert r == pf + (if Qualifies(last) then [SlideOf(last)] else []);
      hide Pass1, Qualifies, SlideOf;
      forall j | 0 <= j < |r| ensures EntryOf(ms, r[j]) {
        if j < |pf| {
          var e := pf[j];
          assert r[j] == e && EntryOf(front, e);
          var k :| 0 <= k < |front| && Qualifies(front[k]) && e == SlideOf(front[k]);
          assert ms[k] == front[k];
        } else {
          assert r[j] == SlideOf(last);
          assert ms[|ms| - 1] == last;
        }
      }
    }
  }

  /** Pass 1 keeps every qualifying match. */
  lemma {:induction false} Pass1Complete(ms: seq<TitleMatch>)
    ensures CoversQualifying(ms, Pass1(ms))
  {
    hide MatchBullets, Strip;
    if ms != [] {
      var front := ms[..|ms| - 1];
      var last := ms[|ms| - 1];
      Pass1Complete(front);
      var r := Pass1(ms);
      var pf := Pass1(front);
      assert r == pf + (if Qualifies(last) then [SlideOf(last)] else []);
      hide Pass1, Qualifies, SlideOf;
      forall k | 0 <= k < |ms| && Qualifies(ms[k]) ensures SlideOf(ms[k]) in r {
        if k < |front| {
          assert front[k] == ms[k];
        }
      }
    }
  }

  /** The loop of pass 1. */
  method TitlePass(ms: seq<TitleMatch>) returns (slides: seq<CustomSlide>)
    ensures slides == Pass1(ms)
  {
    slides := [];
    var k := 0;
    while k < |ms|
      invariant 0 <= k <= |ms|
      invariant slides == Pass1(ms[..k])
    {
      assert ms[..k + 1][..k] == ms[..k];
      var m := ms[k];
      var title := Strip(m.title);
      var bullets := ExtractBullets(m.section, false);
      if title != [] && bullets != [] {
        slides := slides + [CustomSlide(m.number, title, bullets)];
      }
      k := k + 1;
    }
    assert ms[..k] == ms;
  }

  // ----- pass 2: "For slide N, use exactly these bullets:" -----

  /** One entry of `slide_structure`: a slide number and the title given for it. */
  datatype StructEntry = StructEntry(number: int, title: string)

  /** An entry that gives slide n a title: the number is non-zero and the title non-empty. */
  predicate Titles(e: StructEntry, n: int)
  {
    e.number == n && n != 0 && e.title != []
  }

  /** `structure_title_map`: the titles of the entries that give one, a later entry winning. */
  function TitleMap(ss: seq<StructEntry>): (tm: map<int, string>)
    ensures forall n :: n in tm ==> tm[n] != []
  {
    if ss == [] then map[]
    else
      var e := ss[|ss| - 1];
      var front := TitleMap(ss[..|ss| - 1]);
      if e.number != 0 && e.title != [] then front[e.number := e.title] else front
  }

  /** The last entry that titles slide n is the one the map holds. */
  lemma {:induction false} TitleMapHasLast(ss: seq<StructEntry>, n: int, k: nat)
    requires k < |ss| && Titles(ss[k], n)
    requires forall j :: k < j < |ss| ==> !Titles(ss[j], n)
    ensures n in TitleMap(ss) && TitleMap(ss)[n] == ss[k].title
  {
    var front := ss[..|ss| - 1];
    if k < |ss| - 1 {
      assert front[k] == ss[k];
      assert forall j :: k < j < |front| ==> front[j] == ss[j];
      TitleMapHasLast(front, n, k);
    }
  }

  /** A slide that no entry titles is not in the map. */
  lemma {:induction false} TitleMapMissing(ss: seq<StructEntry>, n: int)
    requires forall k :: 0 <= k < |ss| ==> !Titles(ss[k], n)
    ensures n !in TitleMap(ss)
  {
    if ss != [] {
      var front := ss[..|ss| - 1];
      assert forall k :: 0 <= k < |front| ==> front[k] == ss[k];
      TitleMapMissing(front, n);
    }
  }

  /** The loop that fills `structure_title_map`. */
  method BuildTitleMap(ss: seq<StructEntry>) returns (tm: map<int, string>)
    ensures tm == TitleMap(ss)
  {
    tm := map[];
    var k := 0;
    while k < |ss|
      invariant 0 <= k <= |ss|
      invariant tm == TitleMap(ss[..k])
    {
      assert ss[..k + 1][..k] == ss[..k];
      if ss[k].number != 0 && ss[k].title != [] {
        tm := tm[ss[k].number := ss[k].title];
      }
      k := k + 1;
    }
    assert ss[..k] == ss;
  }

  const TitlePunctuation: set<char> := {'.', ',', ';', ':'}

  /** `re.sub(r'[.,;:]+$', '', title.strip()).strip()`. */
  function CleanTitle(t: string): (r: string)
    ensures IsStripped(r) && |r| <= |t|
  {
    Strip(RStripSet(Strip(t), TitlePunctuation))
  }

  /** A run of trailing punctuation right after the text is removed, and nothing else. */
  lemma CleanTitleDropsPunctuation(t: string, p: string)
    requires t != [] && IsStripped(t) && t[|t| - 1] !in TitlePunctuation
    requires forall k :: 0 <= k < |p| ==> p[k] in TitlePunctuation
    ensures CleanTitle(t + p) == t
  {
    var s := t + p;
    assert s[0] == t[0];
    assert s[|s| - 1] == if p == [] then t[|t| - 1] else p[|p| - 1];
    StripOfStripped(s);
    PunctuationRun(t, p);
    StripOfStripped(t);
  }

  lemma {:induction false} PunctuationRun(t: string, p: string)
    requires t != [] && t[|t| - 1] !in TitlePunctuation
    requires forall k :: 0 <= k < |p| ==> p[k] in TitlePunctuation
    ensures RStripSet(t + p, TitlePunctuation) == t
    decreases |p|
  {
    if p == [] {
      assert t + p == t;
    } else {
      var s := t + p;
      assert s[..|s| - 1] == t + p[..|p| - 1];
      PunctuationRun(t, p[..|p| - 1]);
    }
  }

  /**
   * One match of the "For slide N ... bullets:" header: the slide number,
   * the title group of the first `Slide\s+N\s+title:\s*([^\n]+)` in the
   * prompt before the header (when there is one), and the prompt after it.
   */
  datatype ForMatch = ForMatch(number: nat, promptTitle: Option<string>, rest: string)

  /** The title of a "For slide N" match: the structure's, else the cleaned one from the prompt, else "". */
  function ResolveTitle(tm: map<int, string>, m: ForMatch): (r: string)
    ensures m.number in tm ==> r == tm[m.number]
    ensures m.number !in tm && m.promptTitle.None? ==> r == []
    ensures m.number !in tm && m.promptTitle.Some? ==> r == CleanTitle(m.promptTitle.value)
  {
    if m.number in tm then tm[m.number]
    else
      match m.promptTitle
      case Some(g) => CleanTitle(g)
      case None => ""
  }

  /** `For\s+slide` at q, IGNORECASE. */
  predicate ForSlideAt(s: string, q: nat)
  {
    StartsAtCI(s, q, "for") && SpaceEnd(s, q + 3) > q + 3 && StartsAtCI(s, SpaceEnd(s, q + 3), "slide")
  }

  /** `For\s+slide|Slide\s+\d+` at q, IGNORECASE. */
  predicate MentionAt(s: string, q: nat)
  {
    ForSlideAt(s, q) || SlideNumberAt(s, q).Some?
  }

  /**
   * Where the content section of a "For slide" match ends as written:
   * `re.search(r'(?:For\s+slide|Slide\s+\d+|$)', rest, re.IGNORECASE | re.MULTILINE)`,
   * searched from i, whose `$` also matches before every line break.
   */
  function SectionEndAsWritten(rest: string, i: nat): (e: nat)
    requires i <= |rest|
    ensures i <= e <= |rest|
    ensures e == |rest| || rest[e] == '\n' || MentionAt(rest, e)
    ensures forall q :: i <= q < e ==> rest[q] != '\n' && !MentionAt(rest, q)
    decreases |rest| - i
  {
    if i == |rest| || rest[i] == '\n' || MentionAt(rest, i) then i else SectionEndAsWritten(rest, i + 1)
  }

  /**
   * Where the section ends when `$` is the end of the prompt, as the
   * comment beside the search says: the next slide mention or the end.
   */
  function SectionEnd(rest: string, i: nat): (e: nat)
    requires i <= |rest|
    ensures i <= e <= |rest|
    ensures e == |rest| || MentionAt(rest, e)
    ensures forall q :: i <= q < e ==> !MentionAt(rest, q)
    decreases |rest| - i
  {
    if i == |rest| || MentionAt(rest, i) then i else SectionEnd(rest, i + 1)
  }

  /**
   * Where the content section of a "For slide" match is cut: `AsWritten` at
   * the search as the code runs it, `ToNextMention` at the next slide
   * mention or the end, as the comment beside the search intends.
   */
  datatype Cut = AsWritten | ToNextMention

  /** The content section of a "For slide" match: a prefix of what follows the match. */
  function SectionOf(rest: string, cut: Cut): (section: string)
    ensures section <= rest
  {
    match cut
    case AsWritten => rest[..SectionEndAsWritten(rest, 0)]
    case ToNextMention => rest[..SectionEnd(rest, 0)]
  }

  /** The bullets of a "For slide" match, with slide lines skipped. */
  function ForBullets(rest: string, cut: Cut): seq<string>
  {
    Bullets(SplitOn(SectionOf(rest, cut), '\n'), true)
  }

  /** As written, the section never reaches past its first line, so a match yields at most one bullet. */
  lemma AsWrittenAtMostOneBullet(rest: string)
    ensures '\n' !in SectionOf(rest, AsWritten)
    ensures |ForBullets(rest, AsWritten)| <= 1
  {
    var section := SectionOf(rest, AsWritten);
    assert forall k :: 0 <= k < |section| ==> section[k] != '\n';
    SplitOnNoSep(section, '\n');
  }

  /**
   * The two cuts differ only on sections that span lines: when the intended
   * section holds no line break, the code cuts it at the same place.
   */
  lemma CutsAgreeOnOneLine(rest: string)
    requires '\n' !in SectionOf(rest, ToNextMention)
    ensures SectionOf(rest, AsWritten) == SectionOf(rest, ToNextMention)
  {
    var e1, e2 := SectionEndAsWritten(rest, 0), SectionEnd(rest, 0);
    assert forall q :: 0 <= q < e2 ==> rest[q] != '\n' by {
      forall q | 0 <= q < e2 ensures rest[q] != '\n' {
        assert rest[..e2][q] == rest[q];
      }
    }
    assert e1 == e2;
  }

  /** The section the code reads is the first line of the intended section. */
  lemma AsWrittenIsFirstLine(rest: string)
    ensures SplitOn(SectionOf(rest, ToNextMention), '\n')[0] == SectionOf(rest, AsWritten)
  {
    hide MentionAt, SplitOn;
    var e1, e2 := SectionEndAsWritten(rest, 0), SectionEnd(rest, 0);
    assert e1 <= e2;
    var line := rest[..e1];
    assert '\n' !in line by {
      forall k | 0 <= k < |line| ensures line[k] != '\n' {
        assert line[k] == rest[k];
      }
    }
    if e1 == e2 {
      SplitOnNoSep(line, '\n');
    } else {
      assert rest[..e2] == line + ['\n'] + rest[e1 + 1..e2];
      SplitOnFirst(line, rest[e1 + 1..e2], '\n');
    }
  }

  /** A "For slide" match that gives bullets as written also gives bullets under the intended cut. */
  lemma AsWrittenBulletsKept(rest: string)
    ensures ForBullets(rest, AsWritten) != [] ==> ForBullets(rest, ToNextMention) != []
    ensures ForBullets(rest, AsWritten) != [] ==> ForBullets(rest, AsWritten)[0] == ForBullets(rest, ToNextMention)[0]
  {
    var line := SectionOf(rest, AsWritten);
    var lines := SplitOn(SectionOf(rest, ToNextMention), '\n');
    AsWrittenAtMostOneBullet(rest);
    SplitOnNoSep(line, '\n');
    AsWrittenIsFirstLine(rest);
    if ForBullets(rest, AsWritten) != [] {
      assert Bullets([line], true) != [];
      NoBulletsIff([line], true);
      assert BulletOf(line, true).Some?;
      FirstBullet(lines, true);
    }
  }

  /** When the first line gives a bullet, it is the first bullet of the section. */
  lemma {:induction false} FirstBullet(lines: seq<string>, skipSlideLines: bool)
    requires lines != [] && BulletOf(lines[0], skipSlideLines).Some?
    ensures Bullets(lines, skipSlideLines) != [] && Bullets(lines, skipSlideLines)[0] == BulletOf(lines[0], skipSlideLines).value
    ensures Bullets([lines[0]], skipSlideLines) == [BulletOf(lines[0], skipSlideLines).value]
  {
    assert [lines[0]][..0] == [];
    if |lines| > 1 {
      var front := lines[..|lines| - 1];
      FirstBullet(front, skipSlideLines);
    }
  }

  /**
   * The intended extractor finds every slide that the code finds through a
   * "For slide" match, and possibly more.
   */
  lemma {:induction false} AsWrittenNumbersKept(ms: seq<ForMatch>)
    ensures ForNumbers(ms, AsWritten) <= ForNumbers(ms, ToNextMention)
  {
    if ms != [] {
      AsWrittenNumbersKept(ms[..|ms| - 1]);
      AsWrittenBulletsKept(ms[|ms| - 1].rest);
    }
  }

  /**
   * The intended cut keeps every line up to the next slide mention: with
   * no mention after the match, every line of the rest is read.
   */
  lemma ToNextMentionKeepsEveryLine(rest: string)
    requires forall q :: 0 <= q < |rest| ==> !MentionAt(rest, q)
    ensures ForBullets(rest, ToNextMention) == Bullets(SplitOn(rest, '\n'), true)
  {
    hide MentionAt, Bullets, SplitOn;
    NoMentionSpans(rest, 0);
    assert SectionOf(rest, ToNextMention) == rest[..|rest|] == rest;
  }

  lemma {:induction false} NoMentionSpans(rest: string, i: nat)
    requires i <= |rest|
    requires forall q :: 0 <= q < |rest| ==> !MentionAt(rest, q)
    ensures SectionEnd(rest, i) == |rest|
    decreases |rest| - i
  {
    if i < |rest| {
      NoMentionSpans(rest, i + 1);
    }
  }

  /** No slide mention starts at a character that is neither 'f' nor 's' in any case. */
  lemma NoMentionAt(s: string, q: nat)
    requires q < |s| && LowerChar(s[q]) != 'f' && LowerChar(s[q]) != 's'
    ensures !MentionAt(s, q)
  {
    FirstLetterCI(s, q, "for");
    FirstLetterCI(s, q, "slide");
  }

  lemma FirstLetterCI(s: string, q: nat, lit: string)
    requires q < |s| && lit != []
    ensures StartsAtCI(s, q, lit) ==> LowerChar(s[q]) == lit[0]
  {
    if q + |lit| <= |s| {
      assert Lower(s[q..q + |lit|])[0] == LowerChar(s[q]);
    }
  }

  lemma OneBullet(line: string, skipSlideLines: bool, text: string)
    requires BulletOf(line, skipSlideLines) == Some(text)
    ensures Bullets([line], skipSlideLines) == [text]
  {
    assert [line][..0] == [];
  }

  lemma TwoBullets(a: string, b: string, skipSlideLines: bool, ta: string, tb: string)
    requires BulletOf(a, skipSlideLines) == Some(ta) && BulletOf(b, skipSlideLines) == Some(tb)
    ensures Bullets([a, b], skipSlideLines) == [ta, tb]
  {
    OneBullet(a, skipSlideLines, ta);
    assert [a, b][..1] == [a];
    hide BulletOf;
  }

  /**
   * After "For slide 2, use exactly these bullets:" and a line break the
   * rest of the prompt is "1. A\n2. B"; as written its section is the first
   * line only and gives the single bullet "A".
   */
  lemma AsWrittenDropsSecondBullet()
    ensures ForBullets("1. A\n2. B", AsWritten) == ["A"]
  {
    var rest := "1. A\n2. B";
    forall q | 0 <= q < 4 ensures !MentionAt(rest, q) {
      NoMentionAt(rest, q);
    }
    assert rest[4] == '\n';
    hide MentionAt;
    assert SectionEndAsWritten(rest, 0) == 4;
    assert rest[..4] == "1. A";
    SplitOnNoSep("1. A", '\n');
    FirstLineBullet();
    OneBullet("1. A", true, "A");
  }

  lemma ExampleHasNoMention(rest: string)
    requires rest == "1. A\n2. B"
    ensures forall q :: 0 <= q < |rest| ==> !MentionAt(rest, q)
  {
    forall q | 0 <= q < |rest| ensures !MentionAt(rest, q) {
      NoMentionAt(rest, q);
    }
  }

  lemma FirstLineBullet()
    ensures BulletOf("1. A", true) == Some("A")
  {
    assert NatToString(1) + ['.'] + " " + "A" == "1. A";
    NumberedLineGivesText(1, '.', "A", true);
  }

  lemma SecondLineBullet()
    ensures BulletOf("2. B", true) == Some("B")
  {
    assert NatToString(2) + ['.'] + " " + "B" == "2. B";
    NumberedLineGivesText(2, '.', "B", true);
  }

  /** With the section running to the next slide mention, the same lines give both bullets. */
  lemma SectionKeepsEveryLine()
    ensures ForBullets("1. A\n2. B", ToNextMention) == ["A", "B"]
  {
    hide MentionAt, SectionEnd, SplitOn, BulletOf, Bullets;
    var rest := "1. A\n2. B";
    ExampleHasNoMention(rest);
    ToNextMentionKeepsEveryLine(rest);
    ExampleLines(rest);
    FirstLineBullet();
    SecondLineBullet();
    TwoBullets("1. A", "2. B", true, "A", "B");
  }

  lemma ExampleLines(rest: string)
    requires rest == "1. A\n2. B"
    ensures SplitOn(rest, '\n') == ["1. A", "2. B"]
  {
    assert "1. A" + ['\n'] + "2. B" == rest;
    SplitOnFirst("1. A", "2. B", '\n');
    SplitOnNoSep("2. B", '\n');
  }

  /** The first entry numbered n at or after i. */
  function IndexOf(cs: seq<CustomSlide>, n: int, i: nat): (r: Option<nat>)
    ensures r.Some? ==> i <= r.value < |cs| && cs[r.value].number == n
    ensures r.Some? ==> forall j :: i <= j < r.value ==> cs[j].number != n
    ensures r.None? ==> forall j :: i <= j < |cs| ==> cs[j].number != n
    decreases |cs| - i
  {
    if i >= |cs| then None else if cs[i].number == n then Some(i) else IndexOf(cs, n, i + 1)
  }

  /** What one "For slide N" match does to the entries, given its title and bullets. */
  function ForStep(cs: seq<CustomSlide>, n: int, title: string, bullets: seq<string>): seq<CustomSlide>
  {
    if bullets == [] then cs
    else
      match IndexOf(cs, n, 0)
      case Some(i) => cs[i := CustomSlide(n, if title != [] then title else cs[i].title, bullets)]
      case None => cs + [CustomSlide(n, title, bullets)]
  }

  /**
   * Without bullets nothing changes; otherwise the first entry numbered n
   * gets the bullets and, if one is known, the title, and when there is no
   * such entry a new one is appended.
   */
  lemma ForStepCases(cs: seq<CustomSlide>, n: int, title: string, bullets: seq<string>)
    ensures bullets == [] ==> ForStep(cs, n, title, bullets) == cs
    ensures bullets != [] && (forall i :: 0 <= i < |cs| ==> cs[i].number != n) ==>
      ForStep(cs, n, title, bullets) == cs + [CustomSlide(n, title, bullets)]
    ensures forall i :: 0 <= i < |cs| && cs[i].number == n && bullets != [] && (forall j :: 0 <= j < i ==> cs[j].number != n) ==>
      ForStep(cs, n, title, bullets) == cs[i := CustomSlide(n, if title != [] then title else cs[i].title, bullets)]
  {
  }

  /** The loop over `custom_slides` that looks for an entry numbered n, then the update or the append. */
  method ApplyForMatch(cs: seq<CustomSlide>, n: int, title: string, bullets: seq<string>) returns (r: seq<CustomSlide>)
    ensures r == ForStep(cs, n, title, bullets)
  {
    r := cs;
    if bullets != [] {
      var existing: Option<nat> := None;
      var k := 0;
      while k < |cs|
        invariant 0 <= k <= |cs|
        invariant IndexOf(cs, n, k) == IndexOf(cs, n, 0)
      {
        if cs[k].number == n {
          existing := Some(k);
          break;
        }
        k := k + 1;
      }
      match existing
      case Some(i) =>
        var t := if title != [] then title else cs[i].title;
        r := cs[i := CustomSlide(n, t, bullets)];
      case None =>
        r := cs + [CustomSlide(n, title, bullets)];
    }
  }

  /** The slide numbers of the entries. */
  function Numbers(cs: seq<CustomSlide>): set<int>
  {
    set i | 0 <= i < |cs| :: cs[i].number
  }

  /** Every entry has at least one bullet. */
  predicate AllHaveContent(cs: seq<CustomSlide>)
  {
    forall i :: 0 <= i < |cs| ==> cs[i].content != []
  }

  /** A step keeps every entry's content non-empty and adds n to the numbers exactly when it has bullets. */
  lemma ForStepInvariant(cs: seq<CustomSlide>, n: int, title: string, bullets: seq<string>)
    ensures AllHaveContent(cs) ==> AllHaveContent(ForStep(cs, n, title, bullets))
    ensures Numbers(ForStep(cs, n, title, bullets)) == Numbers(cs) + (if bullets != [] then {n} else {})
  {
    var r := ForStep(cs, n, title, bullets);
    if bullets != [] {
      match IndexOf(cs, n, 0)
      case Some(i) =>
        assert r == cs[i := CustomSlide(n, if title != [] then title else cs[i].title, bullets)];
        assert forall j :: 0 <= j < |cs| ==> r[j].number == cs[j].number;
      case None =>
        assert r == cs + [CustomSlide(n, title, bullets)];
        assert r[|cs|].number == n;
        assert forall j :: 0 <= j < |cs| ==> r[j] == cs[j];
    }
  }

  /** Pass 2 applies the "For slide" matches in order to the entries of pass 1, each section cut by `cut`. */
  function Pass2(cs: seq<CustomSlide>, tm: map<int, string>, ms: seq<ForMatch>, cut: Cut): seq<CustomSlide>
  {
    if ms == [] then cs
    else
      var m := ms[|ms| - 1];
      ForStep(Pass2(cs, tm, ms[..|ms| - 1], cut), m.number, ResolveTitle(tm, m), ForBullets(m.rest, cut))
  }

  /** The numbers of the "For slide" matches that have bullets. */
  function ForNumbers(ms: seq<ForMatch>, cut: Cut): set<int>
  {
    if ms == [] then {}
    else
      var m := ms[|ms| - 1];
      ForNumbers(ms[..|ms| - 1], cut) + (if ForBullets(m.rest, cut) != [] then {m.number as int} else {})
  }

  /** A number is in `ForNumbers` exactly when some match with bullets carries it. */
  lemma {:induction false} ForNumbersHas(ms: seq<ForMatch>, x: int, cut: Cut)
    ensures x in ForNumbers(ms, cut) <==> exists k :: 0 <= k < |ms| && ForBullets(ms[k].rest, cut) != [] && ms[k].number == x
  {
    hide ForBullets;
    if ms != [] {
      var front := ms[..|ms| - 1];
      var m := ms[|ms| - 1];
      ForNumbersHas(front, x, cut);
      assert ForNumbers(ms, cut) == ForNumbers(front, cut) + (if ForBullets(m.rest, cut) != [] then {m.number as int} else {});
      hide ForNumbers;
      if x in ForNumbers(ms, cut) {
        if x !in ForNumbers(front, cut) {
          assert ForBullets(ms[|ms| - 1].rest, cut) != [] && ms[|ms| - 1].number == x;
        } else {
          var k :| 0 <= k < |front| && ForBullets(front[k].rest, cut) != [] && front[k].number == x;
          assert ms[k] == front[k];
        }
      } else {
        forall k | 0 <= k < |ms| ensures !(ForBullets(ms[k].rest, cut) != [] && ms[k].number == x) {
          if k < |front| {
            assert ms[k] == front[k];
          }
        }
      }
    }
  }

  /**
   * Pass 2 keeps every entry's content non-empty, and the entries it ends
   * with are numbered by the entries it started with and the matches that
   * had bullets, no more and no fewer.
   */
  lemma {:induction false} Pass2Invariant(cs: seq<CustomSlide>, tm: map<int, string>, ms: seq<ForMatch>, cut: Cut)
    ensures AllHaveContent(cs) ==> AllHaveContent(Pass2(cs, tm, ms, cut))
    ensures Numbers(Pass2(cs, tm, ms, cut)) == Numbers(cs) + ForNumbers(ms, cut)
  {
    if ms != [] {
      var front := ms[..|ms| - 1];
      var m := ms[|ms| - 1];
      Pass2Invariant(cs, tm, front, cut);
      var b := ForBullets(m.rest, cut);
      ForStepInvariant(Pass2(cs, tm, front, cut), m.number, ResolveTitle(tm, m), b);
      hide ForStep, ForBullets, ResolveTitle;
    }
  }

  /**
   * `_extract_custom_slides_from_prompt`: pass 1, then pass 2 with the
   * structure's titles. With `AsWritten` it is the function as the code
   * runs; with `ToNextMention` it is the intended extractor.
   */
  function CustomSlidesOf(ss: seq<StructEntry>, tms: seq<TitleMatch>, fms: seq<ForMatch>, cut: Cut): seq<CustomSlide>
  {
    Pass2(Pass1(tms), TitleMap(ss), fms, cut)
  }

  /**
   * Every extracted entry has bullets, and the slides that get an entry
   * are those of the qualifying "Slide N title:" matches and of the
   * "For slide N" matches that have bullets.
   */
  lemma CustomSlidesShape(ss: seq<StructEntry>, tms: seq<TitleMatch>, fms: seq<ForMatch>, cut: Cut)
    ensures AllHaveContent(CustomSlidesOf(ss, tms, fms, cut))
    ensures Numbers(CustomSlidesOf(ss, tms, fms, cut))
      == (set k | 0 <= k < |tms| && Qualifies(tms[k]) :: tms[k].number as int) + ForNumbers(fms, cut)
  {
    var p1 := Pass1(tms);
    Pass2Invariant(p1, TitleMap(ss), fms, cut);
    Pass1Sound(tms);
    Pass1Complete(tms);
    hide Qualifies, SlideOf, Pass2, ForNumbers;
    var qs := set k | 0 <= k < |tms| && Qualifies(tms[k]) :: tms[k].number as int;
    forall x | x in Numbers(p1) ensures x in qs {
      var i :| 0 <= i < |p1| && p1[i].number == x;
      assert EntryOf(tms, p1[i]);
      var k :| 0 <= k < |tms| && Qualifies(tms[k]) && p1[i] == SlideOf(tms[k]);
      SlideOfNumber(tms[k]);
    }
    forall x | x in qs ensures x in Numbers(p1) {
      var k :| 0 <= k < |tms| && Qualifies(tms[k]) && tms[k].number == x;
      var i :| 0 <= i < |p1| && p1[i] == SlideOf(tms[k]);
      SlideOfNumber(tms[k]);
    }
  }

  lemma SlideOfNumber(m: TitleMatch)
    ensures SlideOf(m).number == m.number
  {
  }

  /**
   * The whole extractor as the code runs it: the structure map, pass 1,
   * then each "For slide" match in turn, its section cut by the search.
   */
  method ExtractCustomSlides(ss: seq<StructEntry>, tms: seq<TitleMatch>, fms: seq<ForMatch>) returns (cs: seq<CustomSlide>)
    ensures cs == CustomSlidesOf(ss, tms, fms, AsWritten)
  {
    hide ForStep, ResolveTitle;
    var tm := BuildTitleMap(ss);
    cs := TitlePass(tms);
    var k := 0;
    while k < |fms|
      invariant 0 <= k <= |fms|
      invariant cs == Pass2(Pass1(tms), tm, fms[..k], AsWritten)
    {
      assert fms[..k + 1][..k] == fms[..k];
      var m := fms[k];
      var title := ResolveTitle(tm, m);
      var bullets := ExtractBullets(m.rest[..SectionEndAsWritten(m.rest, 0)], true);
      assert bullets == ForBullets(m.rest, AsWritten);
      cs := ApplyForMatch(cs, m.number, title, bullets);
      k := k + 1;
    }
    assert fms[..k] == fms;
  }
}
