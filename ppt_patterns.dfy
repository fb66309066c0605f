/**
 * The regular expressions of the PPT generator agent's prompt parsers, each
 * written out as a scanner with the leftmost, backtracking semantics of
 * Python's `re` (all of them are compiled with IGNORECASE; literals are
 * written here in lower case).
 */
module PptPatterns {
  import opened Wrappers
  import opened Text
  import opened Scan

  // ----- the common fields: NUMBER, TOPIC, SUBJECT -----

  /** `(\d+)[-\s]slide` at i. The digit run must be maximal, since a digit is neither '-' nor a space. */
  function CountDashSlideAt(s: string, i: nat): (r: Option<Span>)
    ensures r.Some? ==> r.value.start == i < r.value.end <= |s|
    ensures r.Some? ==> forall k :: r.value.start <= k < r.value.end ==> IsDigit(s[k])
  {
    if i < |s| && IsDigit(s[i]) then
      var e := DigitEnd(s, i);
      if e < |s| && (s[e] == '-' || IsSpace(s[e])) && StartsAtCI(s, e + 1, "slide") then Some(Span(i, e)) else None
    else None
  }

  /** `create\s+(\d+)\s+slides?` at i. */
  function CreateSlidesAt(s: string, i: nat): (r: Option<Span>)
    ensures r.Some? ==> r.value.start < r.value.end <= |s|
    ensures r.Some? ==> forall k :: r.value.start <= k < r.value.end ==> IsDigit(s[k])
  {
    if StartsAtCI(s, i, "create") then
      var b := SpaceEnd(s, i + 6);
      if b > i + 6 && b < |s| && IsDigit(s[b]) then
        var e := DigitEnd(s, b);
        var c := SpaceEnd(s, e);
        if c > e && StartsAtCI(s, c, "slide") then Some(Span(b, e)) else None
      else None
    else None
  }

  /** `(\d+)\s+slides?` at i. */
  function CountSlidesAt(s: string, i: nat): (r: Option<Span>)
    ensures r.Some? ==> r.value.start < r.value.end <= |s|
    ensures r.Some? ==> forall k :: r.value.start <= k < r.value.end ==> IsDigit(s[k])
  {
    if i < |s| && IsDigit(s[i]) then
      var e := DigitEnd(s, i);
      var c := SpaceEnd(s, e);
      if c > e && StartsAtCI(s, c, "slide") then Some(Span(i, e)) else None
    else None
  }

  const DefaultNumber: nat := 8

  /** NUMBER: the three patterns in turn, the first match of the first one that matches, else 8. */
  function DeclaredNumber(s: string): nat
  {
    match FirstFrom(|s|, (k: nat) => CountDashSlideAt(s, k).Some?, 0)
    case Some(k) =>
      var g := CountDashSlideAt(s, k).value;
      DigitsValue(s, g.start, g.end)
    case None =>
      match FirstFrom(|s|, (k: nat) => CreateSlidesAt(s, k).Some?, 0)
      case Some(k) =>
        var g := CreateSlidesAt(s, k).value;
        DigitsValue(s, g.start, g.end)
      case None =>
        match FirstFrom(|s|, (k: nat) => CountSlidesAt(s, k).Some?, 0)
        case Some(k) =>
          var g := CountSlidesAt(s, k).value;
          DigitsValue(s, g.start, g.end)
        case None => DefaultNumber
  }

  /** A prompt that opens with "N slides" (or "N-slide") declares N. */
  lemma DeclaredNumberOfLeadingCount(n: nat, sep: char, rest: string)
    requires sep == '-' || sep == ' '
    ensures DeclaredNumber(NatToString(n) + [sep] + "slide" + rest) == n
  {
    var d := NatToString(n);
    var s := d + [sep] + "slide" + rest;
    assert forall k :: 0 <= k < |d| ==> s[k] == d[k];
    assert s[|d|] == sep;
    DigitEndIs(s, 0, |d|);
    assert s[|d| + 1..|d| + 6] == "slide";
    assert CountDashSlideAt(s, 0) == Some(Span(0, |d|));
    assert s[0..|d|] == d;
    ParseNatToString(n);
  }

  /** TOPIC's lazy group `[^.]+?` closes at a '.' or at "Subject:". */
  predicate TopicStop(s: string, e: nat)
  {
    (e < |s| && s[e] == '.') || StartsAtCI(s, e, "subject:")
  }

  /** `([^.]+?)(?:\.|Subject:)` with the group starting at g. */
  function TopicGroupFrom(s: string, g: nat): (r: Option<Span>)
    ensures r.Some? ==> r.value.start == g < r.value.end <= |s| && TopicStop(s, r.value.end)
    ensures r.Some? ==> forall k :: g <= k < r.value.end ==> s[k] != '.'
    ensures r.Some? ==> forall k: nat :: g < k < r.value.end ==> !TopicStop(s, k)
    ensures r.None? ==> g >= |s| || s[g] == '.' || forall k: nat :: g < k <= |s| ==> !TopicStop(s, k)
  {
    if g < |s| && s[g] != '.' then
      match FirstFrom(|s|, (q: nat) => TopicStop(s, q), g + 1)
      case Some(e) =>
        TopicStopFirst(s, g + 1, e);
        Some(Span(g, e))
      case None =>
        TopicStopNone(s, g + 1);
        None
    else None
  }

  lemma TopicStopNone(s: string, i: nat)
    requires FirstFrom(|s|, (q: nat) => TopicStop(s, q), i) == None
    ensures forall k: nat :: i <= k <= |s| ==> !TopicStop(s, k)
  {
    var p := (q: nat) => TopicStop(s, q);
    forall k: nat | i <= k <= |s| ensures !TopicStop(s, k) {
      assert !p(k);
    }
  }

  lemma TopicStopFirst(s: string, i: nat, e: nat)
    requires FirstFrom(|s|, (q: nat) => TopicStop(s, q), i) == Some(e)
    ensures TopicStop(s, e)
    ensures forall k: nat :: i <= k < e ==> !TopicStop(s, k)
    ensures forall k :: i <= k < e ==> s[k] != '.'
  {
    var p := (q: nat) => TopicStop(s, q);
    assert p(e);
    assert e <= |s|;
    forall k: nat | i <= k < e ensures !TopicStop(s, k) && s[k] != '.' {
      assert !p(k);
    }
  }

  /**
   * The group after `\s+`: the greedy run of spaces ends at g, and when the
   * group cannot close from there the engine gives back spaces one at a time,
   * down to a run of a single space (the group then starts at lo).
   */
  function TopicBackOff(s: string, lo: nat, g: nat): (r: Option<Span>)
    requires lo <= g
    ensures r.Some? ==> lo <= r.value.start <= g && r.value.start < r.value.end <= |s|
    ensures r.Some? ==> forall k :: r.value.start <= k < r.value.end ==> s[k] != '.'
    decreases g
  {
    match TopicGroupFrom(s, g)
    case Some(sp) => Some(sp)
    case None => if g > lo then TopicBackOff(s, lo, g - 1) else None
  }

  /** `on\s+([^.]+?)(?:\.|Subject:)` at i. */
  function OnTopicAt(s: string, i: nat): (r: Option<Span>)
    ensures r.Some? ==> i + 2 < r.value.start < r.value.end <= |s|
    ensures r.Some? ==> forall k :: r.value.start <= k < r.value.end ==> s[k] != '.'
  {
    if StartsAtCI(s, i, "on") then
      var d := SpaceEnd(s, i + 2);
      if d > i + 2 then TopicBackOff(s, i + 3, d) else None
    else None
  }

  /** `ppt\s+on\s+([^.]+?)(?:\.|Subject:)` at i. */
  function PptOnTopicAt(s: string, i: nat): (r: Option<Span>)
    ensures r.Some? ==> r.value.start < r.value.end <= |s|
    ensures r.Some? ==> forall k :: r.value.start <= k < r.value.end ==> s[k] != '.'
  {
    if StartsAtCI(s, i, "ppt") then
      var a := SpaceEnd(s, i + 3);
      if a > i + 3 then OnTopicAt(s, a) else None
    else None
  }

  const DefaultTopic := "General Topic"

  /** TOPIC: the stripped group of the first pattern that matches, else "General Topic". */
  function TopicOf(s: string): (r: string)
    ensures IsStripped(r)
    ensures '.' !in r
  {
    match FirstFrom(|s|, (k: nat) => PptOnTopicAt(s, k).Some?, 0)
    case Some(k) => TopicText(s, PptOnTopicAt(s, k).value)
    case None =>
      match FirstFrom(|s|, (k: nat) => OnTopicAt(s, k).Some?, 0)
      case Some(k) => TopicText(s, OnTopicAt(s, k).value)
      case None => DefaultTopic
  }

  /** The stripped topic group; the group holds no '.', so neither does the topic. */
  function TopicText(s: string, g: Span): (r: string)
    requires g.start <= g.end <= |s|
    requires forall k :: g.start <= k < g.end ==> s[k] != '.'
    ensures IsStripped(r)
    ensures '.' !in r
  {
    StripKeepsOut(s[g.start..g.end], '.');
    Strip(s[g.start..g.end])
  }

  /**
   * A prompt that opens with "ppt on T." yields the topic T, when T starts
   * with a non-space and has neither a '.' nor "subject:" in it.
   */
  lemma TopicOfLeading(t: string, rest: string)
    requires t != [] && !IsSpace(t[0])
    requires '.' !in t
    requires forall k :: 0 <= k <= |t| ==> !StartsAtCI(t, k, "subject:")
    ensures TopicOf("ppt on " + t + "." + rest) == Strip(t)
  {
    var s := "ppt on " + t + "." + rest;
    var e := 7 + |t|;
    assert s[..7] == "ppt on ";
    assert s[0..3] == "ppt" && s[4..6] == "on";
    assert Lower("ppt") == "ppt" && Lower("on") == "on";
    assert s[3] == ' ' && s[6] == ' ' && s[4] == 'o' && s[7] == t[0];
    SpaceEndIs(s, 3, 4);
    SpaceEndIs(s, 6, 7);
    assert s[7..e] == t;
    assert s[e] == '.';
    assert TopicStop(s, e);
    forall k: nat | 7 < k < e ensures !TopicStop(s, k) {
      NoStopInside(s, t, k);
    }
    var r := TopicGroupFrom(s, 7);
    assert r.Some?;
    assert r.value.end == e;
    assert PptOnTopicAt(s, 0) == Some(Span(7, e));
  }

  /** Inside "ppt on " + t + ".", neither a '.' nor "subject:" starts within t. */
  lemma NoStopInside(s: string, t: string, k: nat)
    requires |s| > 7 + |t| && s[7..7 + |t|] == t && s[7 + |t|] == '.'
    requires '.' !in t
    requires forall k :: 0 <= k <= |t| ==> !StartsAtCI(t, k, "subject:")
    requires 7 < k < 7 + |t|
    ensures !TopicStop(s, k)
  {
    var e := 7 + |t|;
    assert s[k] == t[k - 7];
    if k + 8 <= e {
      var w := s[k..k + 8];
      forall m | 0 <= m < 8 ensures t[k - 7 + m] == w[m] {
        assert t[k - 7 + m] == s[k + m];
      }
      assert t[k - 7..k + 1] == w;
      assert StartsAtCI(s, k, "subject:") == StartsAtCI(t, k - 7, "subject:");
    } else {
      DotBlocksSubject(s, k, e);
    }
  }

  /** A '.' inside the eight characters from k rules out "subject:" at k. */
  lemma DotBlocksSubject(s: string, k: nat, e: nat)
    requires k <= e < |s| && e < k + 8 && s[e] == '.'
    ensures !StartsAtCI(s, k, "subject:")
  {
    if k + 8 <= |s| {
      var w := Lower(s[k..k + 8]);
      assert s[k..k + 8][e - k] == '.';
      assert w[e - k] == '.';
      assert "subject:"[e - k] != '.';
      assert w != "subject:";
    }
  }

  const DefaultSubject := "General"

  /** SUBJECT: `Subject:\s*([^\n]+)`, stripped, else "General". */
  function SubjectOf(s: string): (r: string)
    ensures IsStripped(r)
    ensures '\n' !in r
  {
    match LabelValue(s, "subject:")
    case Some(v) =>
      StripKeepsOut(v, '\n');
      Strip(v)
    case None => DefaultSubject
  }


  /** A prompt that opens with "Subject: V" on its own line yields the subject V, stripped. */
  lemma SubjectOfLeading(v: string, rest: string)
    requires v != [] && !IsSpace(v[0]) && '\n' !in v
    ensures SubjectOf("Subject: " + v + "\n" + rest) == Strip(v)
  {
    var s := "Subject: " + v + "\n" + rest;
    var e := 9 + |v|;
    assert s[..9] == "Subject: ";
    assert s[0..8] == "Subject:";
    assert Lower("Subject:") == "subject:";
    assert StartsAtCI(s, 0, "subject:");
    assert s[8] == ' ' && s[9] == v[0];
    SpaceEndIs(s, 8, 9);
    assert s[9..e] == v;
    forall k | 9 <= k < e ensures s[k] != '\n' {
      assert s[k] == v[k - 9];
    }
    assert s[e] == '\n';
    LineEndIs(s, 9, e);
    assert LineGroupAt(s, 8) == Some(Span(9, e));
    assert LineGroupText(s, 8) == Some(v);
    assert LabelValue(s, "subject:") == Some(v);
  }

  // ----- Mode 2: "Slide titles:" -----

  /** `Slide\s+titles?:\s*` at i: the end of the match. */
  function TitlesHeaderAt(s: string, i: nat): (r: Option<nat>)
    ensures r.Some? ==> i < r.value <= |s|
  {
    if StartsAtCI(s, i, "slide") then
      var b := SpaceEnd(s, i + 5);
      if b > i + 5 && StartsAtCI(s, b, "title") then
        var c := b + 5;
        if c + 1 < |s| && LowerChar(s[c]) == 's' && s[c + 1] == ':' then Some(SpaceEnd(s, c + 2))
        else if c < |s| && s[c] == ':' then Some(SpaceEnd(s, c + 1))
        else None
      else None
    else None
  }

  /** `(?:Generate\s+content|Generate\s+|$)` at q: the first alternative implies the second. */
  predicate GenerateStopAt(s: string, q: nat)
  {
    (StartsAtCI(s, q, "generate") && q + 8 < |s| && IsSpace(s[q + 8])) || DollarAt(s, q)
  }

  /** The titles section of Mode 2: after the header, up to "Generate" or the end, stripped. */
  function Mode2Section(s: string): Option<string>
  {
    match FirstFrom(|s|, (k: nat) => TitlesHeaderAt(s, k).Some?, 0)
    case None => None
    case Some(k) =>
      var rem := s[TitlesHeaderAt(s, k).value..];
      var q := FirstTo(|rem|, (q: nat) => GenerateStopAt(rem, q), 0);
      Some(Strip(rem[..q]))
  }

  /** One `Slide N: ...` match: N, the group that holds the title, and where the match ends. */
  datatype TitleHit = TitleHit(number: nat, text: string, end: nat)

  /** `Slide\s+(\d+)\s*:\s*(.+)` at i. */
  function Mode2TitleAt(s: string, i: nat): (r: Option<TitleHit>)
    ensures r.Some? ==> i < r.value.end <= |s|
    ensures r.Some? ==> '\n' !in r.value.text
    ensures r.Some? ==> r.value.end == |s| || s[r.value.end] == '\n'
  {
    match SlideNumberAt(s, i)
    case None => None
    case Some(g) =>
      var c := SpaceEnd(s, g.end);
      if c < |s| && s[c] == ':' then
        match LineGroupAt(s, c + 1)
        case None => None
        case Some(t) =>
          SliceAvoids(s, t.start, t.end, '\n');
          Some(TitleHit(DigitsValue(s, g.start, g.end), s[t.start..t.end], t.end))
      else None
  }

  /** A slice of s over positions that all differ from c does not contain c. */
  lemma SliceAvoids(s: string, a: nat, b: nat, c: char)
    requires a <= b <= |s|
    requires forall k :: a <= k < b ==> s[k] != c
    ensures c !in s[a..b]
  {
    forall k | 0 <= k < b - a ensures s[a..b][k] != c {
      assert s[a..b][k] == s[a + k];
    }
  }

  function HitEnd(h: TitleHit): nat { h.end }

  /** `re.finditer` of the Mode 2 title pattern. */
  function Mode2Hits(s: string): seq<TitleHit>
  {
    FindAll(|s|, (k: nat) => Mode2TitleAt(s, k), HitEnd, 0)
  }

  /** A title group runs to the end of its line, so a section on one line yields at most one title. */
  lemma Mode2OneLine(s: string)
    requires '\n' !in s
    ensures |Mode2Hits(s)| <= 1
  {
    FindAllLastAtEnd(|s|, (k: nat) => Mode2TitleAt(s, k), HitEnd, 0);
  }

  // ----- Mode 4: "Slide structure:" and "Image placement:" -----

  /** `Slide\s+structure:` at i: the end of the match. */
  function StructureHeaderAt(s: string, i: nat): (r: Option<nat>)
    ensures r.Some? ==> i < r.value <= |s|
  {
    if StartsAtCI(s, i, "slide") then
      var b := SpaceEnd(s, i + 5);
      if b > i + 5 && StartsAtCI(s, b, "structure:") then Some(b + 10) else None
    else None
  }

  /** `Image\s+placement:` at i: the end of the match. */
  function ImagePlacementAt(s: string, i: nat): (r: Option<nat>)
    ensures r.Some? ==> i < r.value <= |s|
  {
    if StartsAtCI(s, i, "image") then
      var b := SpaceEnd(s, i + 5);
      if b > i + 5 && StartsAtCI(s, b, "placement:") then Some(b + 10) else None
    else None
  }

  /** `(?:\n\nImage\s+placement:|Image\s+placement:|$)` at q. */
  predicate ImageStopAt(s: string, q: nat)
  {
    (StartsAt(s, q, "\n\n") && ImagePlacementAt(s, q + 2).Some?) || ImagePlacementAt(s, q).Some? || DollarAt(s, q)
  }

  /** The lazy `(.*?)` (DOTALL) from j up to the first image stop. */
  function UpToImageStop(s: string, j: nat): (r: string)
    requires j <= |s|
  {
    s[j..FirstTo(|s|, (q: nat) => ImageStopAt(s, q), j)]
  }

  /** `Slide\s+structure:\s*(.*?)(?:\n\nImage\s+placement:|Image\s+placement:|$)`: the group. */
  function StructureSection(s: string): Option<string>
  {
    match FirstFrom(|s|, (k: nat) => StructureHeaderAt(s, k).Some?, 0)
    case None => None
    case Some(k) => Some(UpToImageStop(s, SpaceEnd(s, StructureHeaderAt(s, k).value)))
  }

  /** `Slide\s+titles?:\s*(.*?)(?:\n\nImage\s+placement:|Image\s+placement:|$)`: the group. */
  function TitlesSection4(s: string): Option<string>
  {
    match FirstFrom(|s|, (k: nat) => TitlesHeaderAt(s, k).Some?, 0)
    case None => None
    case Some(k) => Some(UpToImageStop(s, TitlesHeaderAt(s, k).value))
  }

  /** The text after the first `Slide\s+structure:`, cut at the first `Image\s+placement:`. */
  function StructureRemainder(s: string): Option<string>
  {
    match FirstFrom(|s|, (k: nat) => StructureHeaderAt(s, k).Some?, 0)
    case None => None
    case Some(k) =>
      var rem := s[StructureHeaderAt(s, k).value..];
      match FirstFrom(|rem|, (q: nat) => ImagePlacementAt(rem, q).Some?, 0)
      case Some(q) => Some(rem[..q])
      case None => Some(rem)
  }

  /** `Slide\s+(\d+):\s*([^\n]+)` at i. */
  function Mode4TitleAt(s: string, i: nat): (r: Option<TitleHit>)
    ensures r.Some? ==> i < r.value.end <= |s|
    ensures r.Some? ==> '\n' !in r.value.text
  {
    match SlideNumberAt(s, i)
    case None => None
    case Some(g) =>
      if g.end < |s| && s[g.end] == ':' then
        match LineGroupAt(s, g.end + 1)
        case None => None
        case Some(t) =>
          SliceAvoids(s, t.start, t.end, '\n');
          Some(TitleHit(DigitsValue(s, g.start, g.end), s[t.start..t.end], t.end))
      else None
  }

  /** `re.finditer` of the Mode 4 title pattern. */
  function Mode4Hits(s: string): seq<TitleHit>
  {
    FindAll(|s|, (k: nat) => Mode4TitleAt(s, k), HitEnd, 0)
  }

  /** `Image\s+placement:\s*(.*?)(?:\n\n|$)`: the group. */
  function ImageSection(s: string): Option<string>
  {
    match FirstFrom(|s|, (k: nat) => ImagePlacementAt(s, k).Some?, 0)
    case None => None
    case Some(k) =>
      var j := SpaceEnd(s, ImagePlacementAt(s, k).value);
      Some(s[j..FirstTo(|s|, (q: nat) => StartsAt(s, q, "\n\n") || DollarAt(s, q), j)])
  }

  /** One `Use Image I on Slide S` match. */
  datatype MapHit = MapHit(image: nat, slide: nat, end: nat)

  function MapHitEnd(h: MapHit): nat { h.end }

  /** `Use\s+Image\s+(\d+)` at i: the digit group. */
  function UseImageAt(s: string, i: nat): (r: Option<Span>)
    ensures r.Some? ==> i < r.value.start < r.value.end <= |s|
    ensures r.Some? ==> forall k :: r.value.start <= k < r.value.end ==> IsDigit(s[k])
    ensures r.Some? ==> r.value.end == |s| || !IsDigit(s[r.value.end])
  {
    if StartsAtCI(s, i, "use") then
      var a := SpaceEnd(s, i + 3);
      if a > i + 3 && StartsAtCI(s, a, "image") then
        var b := SpaceEnd(s, a + 5);
        if b > a + 5 && b < |s| && IsDigit(s[b]) then Some(Span(b, DigitEnd(s, b))) else None
      else None
    else None
  }

  /** `Use\s+Image\s+(\d+)\s+on\s+Slide\s+(\d+)` at i. */
  function MappingAt(s: string, i: nat): (r: Option<MapHit>)
    ensures r.Some? ==> i < r.value.end <= |s|
  {
    match UseImageAt(s, i)
    case None => None
    case Some(g) =>
      var c := SpaceEnd(s, g.end);
      if c > g.end && StartsAtCI(s, c, "on") then
        match SlideNumberAt(s, SpaceEnd(s, c + 2))
        case None => None
        case Some(h) =>
          if SpaceEnd(s, c + 2) > c + 2 then
            Some(MapHit(DigitsValue(s, g.start, g.end), DigitsValue(s, h.start, h.end), h.end))
          else None
      else None
  }

  /** `re.finditer` of the mapping pattern. */
  function MappingHits(s: string): seq<MapHit>
  {
    FindAll(|s|, (k: nat) => MappingAt(s, k), MapHitEnd, 0)
  }

  // ----- Modes 3 and 5: "Slide N:" blocks -----

  /** One `Slide N:` match: N and the span of the match. */
  datatype HeaderHit = HeaderHit(number: nat, start: nat, end: nat)

  function HeaderHitEnd(h: HeaderHit): nat { h.end }

  function HeaderHitAt(s: string, i: nat): (r: Option<HeaderHit>)
    ensures r.Some? ==> r.value.start == i < r.value.end <= |s|
  {
    match SlideHeaderAt(s, i)
    case None => None
    case Some(p) => Some(HeaderHit(p.0, i, p.1))
  }

  /** The properties `re.finditer(r'Slide\s+(\d+):', ...)` gives its matches in a text of length n. */
  predicate Ordered(hits: seq<HeaderHit>, n: nat)
  {
    (forall j :: 0 <= j < |hits| ==> hits[j].start < hits[j].end <= n)
    && (forall j :: 0 <= j < |hits| - 1 ==> hits[j].end <= hits[j + 1].start)
  }

  /** Where block idx ends: at the start of the next header, or at the end of the text. */
  function NextStart(hits: seq<HeaderHit>, idx: nat, n: nat): (r: nat)
    requires Ordered(hits, n) && idx < |hits|
    ensures hits[idx].end <= r <= n
  {
    if idx + 1 < |hits| then hits[idx + 1].start else n
  }

  /** `re.finditer(r'Slide\s+(\d+):', s, re.IGNORECASE)`. */
  function HeaderHits(s: string): (r: seq<HeaderHit>)
    ensures Ordered(r, |s|)
  {
    HeadersFrom(s, 0)
  }

  function HeadersFrom(s: string, from: nat): (r: seq<HeaderHit>)
    requires from <= |s|
    ensures forall j :: 0 <= j < |r| ==> from <= r[j].start < r[j].end <= |s|
    ensures forall j :: 0 <= j < |r| - 1 ==> r[j].end <= r[j + 1].start
    decreases |s| - from
  {
    match FirstFrom(|s|, (k: nat) => HeaderHitAt(s, k).Some?, from)
    case None => []
    case Some(k) =>
      var h := HeaderHitAt(s, k).value;
      var rest := HeadersFrom(s, h.end);
      HeadersStep(s, from, h, rest);
      [h] + rest
  }

  /** Putting one header in front of the later ones keeps them in order and in bounds. */
  lemma HeadersStep(s: string, from: nat, h: HeaderHit, rest: seq<HeaderHit>)
    requires from <= h.start < h.end <= |s|
    requires forall j :: 0 <= j < |rest| ==> h.end <= rest[j].start < rest[j].end <= |s|
    requires forall j :: 0 <= j < |rest| - 1 ==> rest[j].end <= rest[j + 1].start
    ensures var r := [h] + rest;
      (forall j :: 0 <= j < |r| ==> from <= r[j].start < r[j].end <= |s|)
      && (forall j :: 0 <= j < |r| - 1 ==> r[j].end <= r[j + 1].start)
  {
    var r := [h] + rest;
    forall j | 0 <= j < |r| ensures from <= r[j].start < r[j].end <= |s| {
      if j > 0 { assert r[j] == rest[j - 1]; }
    }
    forall j | 0 <= j < |r| - 1 ensures r[j].end <= r[j + 1].start {
      if j > 0 { assert r[j] == rest[j - 1] && r[j + 1] == rest[j]; }
    }
  }

  /**
   * `Content:\s*(.*?)(?=\n\s*Slide\s+\d+:|$)` (DOTALL): the group. Once
   * "content:" occurs the lazy group always closes, at the latest at `$`.
   */
  function ContentSection(t: string): (r: Option<string>)
    ensures r.Some? <==> Contains(Lower(t), "content:")
  {
    match FirstFrom(|t|, (k: nat) => StartsAtCI(t, k, "content:"), 0)
    case None =>
      assert !Contains(Lower(t), "content:") by {
        if Contains(Lower(t), "content:") {
          var k := ContainsWitness(Lower(t), "content:");
          LowerSlice(t, k, k + 8);
          FirstFromNoneAt(|t|, (k: nat) => StartsAtCI(t, k, "content:"), 0, k);
        }
      }
      None
    case Some(k) =>
      LowerSlice(t, k, k + 8);
      ContainsAt(Lower(t), "content:", k);
      var j := SpaceEnd(t, k + 8);
      Some(t[j..FirstTo(|t|, (q: nat) => (q < |t| && t[q] == '\n' && StartsWithSlideHeader(t[q + 1..])) || DollarAt(t, q), j)])
  }

  /** `Slide\s+instructions:\s*(.*?)$` (DOTALL): the group. */
  function InstructionsText(s: string): Option<string>
  {
    match FirstFrom(|s|, (k: nat) => InstructionsHeaderAt(s, k).Some?, 0)
    case None => None
    case Some(k) =>
      var j := SpaceEnd(s, InstructionsHeaderAt(s, k).value);
      Some(s[j..FirstTo(|s|, (q: nat) => DollarAt(s, q), j)])
  }

  /** `Slide\s+instructions:` at i: the end of the match. */
  function InstructionsHeaderAt(s: string, i: nat): (r: Option<nat>)
    ensures r.Some? ==> i < r.value <= |s|
  {
    if StartsAtCI(s, i, "slide") then
      var b := SpaceEnd(s, i + 5);
      if b > i + 5 && StartsAtCI(s, b, "instructions:") then Some(b + 13) else None
    else None
  }

  /** The number of the first `Use\s+Image\s+(\d+)` in a block. */
  function UseImageNumber(s: string): Option<nat>
  {
    match FirstFrom(|s|, (k: nat) => UseImageAt(s, k).Some?, 0)
    case None => None
    case Some(k) =>
      var g := UseImageAt(s, k).value;
      Some(DigitsValue(s, g.start, g.end))
  }
}
