/**
 * The slide deck of the PPT generator agent and the two passes that rewrite
 * it in place: image hints and the bullet constraints.
 */
module PptSlides {
  import opened Wrappers
  import opened Text

  /** One entry of a slide's `content` list: a str, or another JSON value kept as its `str()`. */
  datatype Item = Str(text: string) | NonStr(repr: string)

  function ItemText(i: Item): string
  {
    match i
    case Str(t) => t
    case NonStr(r) => r
  }

  /**
   * A slide's `slide_type`: "title", "content", or anything else, including a
   * slide dict without the key (the legacy reply's slides carry none).
   */
  datatype SlideKind = TitleKind | ContentKind | OtherKind

  /** `_mode_5_image_mode`: UPLOAD, NONE or QUERY. */
  datatype ImageMode = Upload | NoImage | QueryImage

  /**
   * A slide dict. Absent optional keys are `None`; `exact` is
   * `_is_exact_content`, `noImage` is `_no_image`, and `originalTitle` holds
   * Mode 2's `original_title` (set together with `title_locked`).
   */
  datatype Slide = Slide(
    number: int,
    kind: SlideKind,
    title: string,
    content: seq<Item>,
    notes: string,
    imageQuery: Option<string>,
    imageNumber: Option<int>,
    imagePath: Option<string>,
    imageMode: Option<ImageMode>,
    noImage: bool,
    exact: bool,
    originalTitle: Option<string>)

  datatype Presentation = Presentation(title: string, subtitle: string, slides: seq<Slide>)

  /** A content slide with only the keys every generator sets. */
  function ContentSlide(number: int, title: string, content: seq<Item>, notes: string): (s: Slide)
    ensures s.number == number && s.kind == ContentKind && s.title == title && s.content == content
  {
    Slide(number, ContentKind, title, content, notes, None, None, None, None, false, false, None)
  }

  function StrItems(xs: seq<string>): (r: seq<Item>)
    ensures |r| == |xs| && forall i :: 0 <= i < |xs| ==> r[i] == Str(xs[i])
  {
    seq(|xs|, i requires 0 <= i < |xs| => Str(xs[i]))
  }

  /** `subject or "Educational Presentation"`. */
  function SubjectOr(subject: string): (r: string)
    ensures r != []
    ensures subject != [] ==> r == subject
  {
    if subject == [] then "Educational Presentation" else subject
  }

  /** Slide 1 of every generated deck. */
  function BaseSlide(topic: string, subject: string): (s: Slide)
    ensures s.number == 1 && s.kind == TitleKind && s.title == topic
    ensures s.content == [Str(SubjectOr(subject))]
  {
    Slide(1, TitleKind, topic, [Str(SubjectOr(subject))], "Introduction to the presentation on " + topic + ".",
          None, None, None, None, false, false, None)
  }

  // ----- the bullet source -----

  /** What the model manager answered for one slide: a JSON `content` list, or a failure of any kind. */
  datatype LlmReply = Items(items: seq<Item>) | Failed

  /** One call of `_generate_single_slide_content`: the user's slide number and the title. */
  datatype BulletRequest = BulletRequest(slideNumber: int, title: string)

  /** `_generate_fallback_bullets`. */
  function FallbackBullets(title: string, topic: string, subject: string): (r: seq<string>)
    ensures |r| == 8
  {
    [ "Key concept about " + title + " in the context of " + topic,
      "Important aspect of " + title + " relevant to " + subject,
      "Fundamental principle related to " + title,
      "Practical application of " + title + " in " + topic,
      "Core understanding of " + title,
      "Essential knowledge about " + title,
      "Significant detail regarding " + title,
      "Critical point about " + title + " in " + subject ]
  }

  /** The bullets `_generate_single_slide_content` returns for a reply. */
  function SlideBullets(reply: LlmReply, title: string, topic: string, subject: string): (r: seq<Item>)
    ensures 1 <= |r| <= 10
    ensures reply.Items? && |reply.items| > 0 ==> |r| <= |reply.items| && r == reply.items[..|r|]
    ensures reply.Items? && |reply.items| > 0 ==> |r| == if |reply.items| < 10 then |reply.items| else 10
    ensures !(reply.Items? && |reply.items| > 0) ==> r == StrItems(FallbackBullets(title, topic, subject))
  {
    if reply.Items? && |reply.items| > 0 then
      reply.items[..if |reply.items| < 10 then |reply.items| else 10]
    else
      StrItems(FallbackBullets(title, topic, subject))
  }

  // ----- _enforce_bullet_constraints -----

  const MaxBullets: nat := 10
  const MaxLen: nat := 140

  /** One bullet after the constraint: stripped, and cut to 137 characters plus "..." when longer than 140. */
  function Shape(p: string): (r: string)
    ensures |r| <= MaxLen
    ensures IsStripped(r)
    ensures |Strip(p)| <= MaxLen ==> r == Strip(p)
    ensures |Strip(p)| > MaxLen ==> EndsWith(r, "...") && StartsWith(Strip(p), r[..|r| - 3])
  {
    var q := Strip(p);
    if |q| > MaxLen then
      var head := RStrip(q[..MaxLen - 3]);
      TruncatedHead(q, MaxLen - 3);
      var r := head + "...";
      assert r[..|r| - 3] == head;
      assert r[|r| - 3..] == "...";
      r
    else q
  }

  lemma TruncatedHead(q: string, n: nat)
    requires IsStripped(q) && 0 < n <= |q|
    ensures 1 <= |RStrip(q[..n])| <= n
    ensures StartsWith(q, RStrip(q[..n]))
  {
    var h := RStrip(q[..n]);
    RStripIsPrefix(q[..n]);
    assert q[..|h|] == q[..n][..|h|];
  }

  /** The str entries of a content list, in order. */
  function Strs(c: seq<Item>): (r: seq<string>)
    ensures |r| <= |c|
  {
    if c == [] then [] else (if c[0].Str? then [c[0].text] else []) + Strs(c[1..])
  }

  function MapShape(xs: seq<string>): (r: seq<string>)
    ensures |r| == |xs| && forall i :: 0 <= i < |xs| ==> r[i] == Shape(xs[i])
  {
    seq(|xs|, i requires 0 <= i < |xs| => Shape(xs[i]))
  }

  function Take<T>(xs: seq<T>, n: nat): (r: seq<T>)
    ensures |r| == if |xs| < n then |xs| else n
    ensures r == xs[..|r|]
  {
    if |xs| < n then xs else xs[..n]
  }

  /** The inner loop of `_enforce_bullet_constraints` from position k, with `trimmed` so far in acc. */
  function TrimFrom(c: seq<Item>, k: nat, acc: seq<string>): seq<string>
    requires k <= |c|
    decreases |c| - k
  {
    if k == |c| then acc
    else if !c[k].Str? then TrimFrom(c, k + 1, acc)
    else
      var acc' := acc + [Shape(c[k].text)];
      if |acc'| >= MaxBullets then acc' else TrimFrom(c, k + 1, acc')
  }

  lemma StrsAt(c: seq<Item>, k: nat)
    requires k < |c|
    ensures Strs(c[k..]) == (if c[k].Str? then [c[k].text] else []) + Strs(c[k + 1..])
  {
    assert c[k..][1..] == c[k + 1..];
  }

  lemma MapShapeCons(x: string, xs: seq<string>)
    ensures MapShape([x] + xs) == [Shape(x)] + MapShape(xs)
  {
  }

  lemma TakeFull<T>(a: seq<T>, b: seq<T>, n: nat)
    requires |a| == n
    ensures Take(a + b, n) == a
  {
    assert (a + b)[..n] == a;
  }

  lemma {:induction false} TrimFromIsTake(c: seq<Item>, k: nat, acc: seq<string>)
    requires k <= |c| && |acc| < MaxBullets
    ensures TrimFrom(c, k, acc) == Take(acc + MapShape(Strs(c[k..])), MaxBullets)
    decreases |c| - k
  {
    if k == |c| {
      assert c[k..] == [];
      assert acc + MapShape([]) == acc;
    } else {
      StrsAt(c, k);
      var rest := Strs(c[k + 1..]);
      if !c[k].Str? {
        assert Strs(c[k..]) == rest;
        TrimFromIsTake(c, k + 1, acc);
      } else {
        var sh := Shape(c[k].text);
        var acc' := acc + [sh];
        assert Strs(c[k..]) == [c[k].text] + rest;
        MapShapeCons(c[k].text, rest);
        assert acc + MapShape(Strs(c[k..])) == acc' + MapShape(rest);
        if |acc'| < MaxBullets {
          assert TrimFrom(c, k, acc) == TrimFrom(c, k + 1, acc');
          TrimFromIsTake(c, k + 1, acc');
        } else {
          assert TrimFrom(c, k, acc) == acc';
          TakeFull(acc', MapShape(rest), MaxBullets);
        }
      }
    }
  }

  /** The bullets one slide keeps. */
  function TrimPoints(c: seq<Item>): seq<string>
  {
    TrimFrom(c, 0, [])
  }

  /**
   * What the bullet constraint keeps: the first ten str entries, each
   * shaped; non-str entries are dropped and later ones are discarded.
   */
  lemma TrimPointsIsFirstTenShaped(c: seq<Item>)
    ensures TrimPoints(c) == Take(MapShape(Strs(c)), MaxBullets)
    ensures |TrimPoints(c)| <= MaxBullets
    ensures forall j :: 0 <= j < |TrimPoints(c)| ==> |TrimPoints(c)[j]| <= MaxLen && IsStripped(TrimPoints(c)[j])
  {
    TrimFromIsTake(c, 0, []);
    assert c[0..] == c;
    assert [] + MapShape(Strs(c)) == MapShape(Strs(c));
  }

  /** The constraint applied to one slide; the guard leaves exact slides alone. */
  function EnforceSlide(s: Slide, guard: bool): Slide
  {
    if guard && s.exact then s else s.(content := StrItems(TrimPoints(s.content)))
  }

  function EnforceAll(d: seq<Slide>, guard: bool): (r: seq<Slide>)
    ensures |r| == |d| && forall i :: 0 <= i < |d| ==> r[i] == EnforceSlide(d[i], guard)
  {
    seq(|d|, i requires 0 <= i < |d| => EnforceSlide(d[i], guard))
  }

  /** `_enforce_bullet_constraints`, in place over the deck. */
  method EnforceBulletConstraints(deck: array<Slide>, guard: bool)
    modifies deck
    ensures deck[..] == EnforceAll(old(deck[..]), guard)
  {
    ghost var before := deck[..];
    var i := 0;
    while i < deck.Length
      invariant 0 <= i <= deck.Length
      invariant forall j :: 0 <= j < i ==> deck[j] == EnforceSlide(before[j], guard)
      invariant forall j :: i <= j < deck.Length ==> deck[j] == before[j]
    {
      var slide := deck[i];
      if guard && slide.exact {
        i := i + 1;
        continue;
      }
      var trimmed := TrimContent(slide.content);
      assert slide.(content := StrItems(trimmed)) == EnforceSlide(before[i], guard);
      deck[i] := slide.(content := StrItems(trimmed));
      i := i + 1;
    }
  }

  /** The inner loop of `_enforce_bullet_constraints` over one content list. */
  method TrimContent(content: seq<Item>) returns (trimmed: seq<string>)
    ensures trimmed == TrimPoints(content)
    ensures trimmed == Take(MapShape(Strs(content)), MaxBullets)
  {
    trimmed := [];
    var k := 0;
    while k < |content|
      invariant 0 <= k <= |content|
      invariant |trimmed| < MaxBullets
      invariant TrimFrom(content, k, trimmed) == TrimPoints(content)
    {
      var point := content[k];
      if point.Str? {
        var p := Shape(point.text);
        trimmed := trimmed + [p];
        if |trimmed| >= MaxBullets {
          break;
        }
      }
      k := k + 1;
    }
    TrimPointsIsFirstTenShaped(content);
  }

  /** Everything but the content list survives the constraint; exact slides survive whole under the guard. */
  lemma EnforceKeepsAllButContent(d: seq<Slide>, guard: bool, i: nat)
    requires i < |d|
    ensures EnforceAll(d, guard)[i] == d[i].(content := EnforceAll(d, guard)[i].content)
    ensures guard && d[i].exact ==> EnforceAll(d, guard)[i] == d[i]
    ensures !(guard && d[i].exact) ==> EnforceAll(d, guard)[i].content == StrItems(Take(MapShape(Strs(d[i].content)), MaxBullets))
  {
    TrimPointsIsFirstTenShaped(d[i].content);
  }

  // ----- _add_image_hints -----

  const MaxHints: int := 3

  /** A slide the hint pass must skip: image mode NONE, or `_no_image`. */
  predicate HintBlocked(s: Slide)
  {
    s.imageMode == Some(NoImage) || s.noImage
  }

  predicate IsIntroLike(s: Slide)
  {
    s.kind == TitleKind || Contains(Lower(s.title), "intro") || Contains(Lower(s.title), "introduction")
  }

  predicate IsArchLike(s: Slide)
  {
    var t := Lower(s.title);
    Contains(t, "architecture") || Contains(t, "diagram") || Contains(t, "model") || Contains(t, "workflow")
    || Contains(t, "pipeline") || Contains(t, "structure") || Contains(t, "design")
  }

  /** `f"{topic} {subject or ''} overview"`. */
  function OverviewQuery(topic: string, subject: string): string
  {
    topic + " " + subject + " overview"
  }

  /** `f"{topic} {subject or ''} architecture diagram"`. */
  function ArchQuery(topic: string, subject: string): string
  {
    topic + " " + subject + " architecture diagram"
  }

  predicate ValidIndices(idx: seq<int>, n: int)
  {
    forall k :: 0 <= k < |idx| ==> 0 <= idx[k] < n
  }

  /** The state of the main loop: the deck, `hints_added`, `found_arch`, and the indices it gave a query. */
  datatype HintPass = HintPass(deck: seq<Slide>, hints: int, found: bool, targets: seq<int>)

  /** One hint of the main loop: slide i gets the overview query, or the architecture query. */
  function Hinted(p: HintPass, i: nat, topic: string, subject: string): (r: HintPass)
    requires i < |p.deck|
    ensures |r.deck| == |p.deck| && r.hints == p.hints + 1 && r.targets == p.targets + [i]
    ensures r.deck == p.deck[i := p.deck[i].(imageQuery := r.deck[i].imageQuery)]
  {
    var s := p.deck[i];
    if IsIntroLike(s) then
      HintPass(p.deck[i := s.(imageQuery := Some(OverviewQuery(topic, subject)))], p.hints + 1, p.found, p.targets + [i])
    else
      HintPass(p.deck[i := s.(imageQuery := Some(ArchQuery(topic, subject)))], p.hints + 1, true, p.targets + [i])
  }

  /** The main loop of `_add_image_hints` from position k of the slide list `idx`. */
  function HintsMain(p: HintPass, idx: seq<int>, k: nat, topic: string, subject: string): (r: HintPass)
    requires k <= |idx| && ValidIndices(idx, |p.deck|)
    ensures |r.deck| == |p.deck|
    decreases |idx| - k
  {
    if k == |idx| then p
    else
      var s := p.deck[idx[k]];
      if HintBlocked(s) then HintsMain(p, idx, k + 1, topic, subject)
      else if p.hints >= MaxHints then p
      else if IsIntroLike(s) || IsArchLike(s) then HintsMain(Hinted(p, idx[k], topic, subject), idx, k + 1, topic, subject)
      else HintsMain(p, idx, k + 1, topic, subject)
  }

  /** The first position from k whose slide is not blocked and is a content slide, or |idx|. */
  function FirstOpenContent(d: seq<Slide>, idx: seq<int>, k: nat): (j: nat)
    requires k <= |idx| && ValidIndices(idx, |d|)
    ensures k <= j <= |idx|
    ensures j < |idx| ==> !HintBlocked(d[idx[j]]) && d[idx[j]].kind == ContentKind
    ensures forall m :: k <= m < j ==> HintBlocked(d[idx[m]]) || d[idx[m]].kind != ContentKind
    decreases |idx| - k
  {
    if k == |idx| then k
    else if !HintBlocked(d[idx[k]]) && d[idx[k]].kind == ContentKind then k
    else FirstOpenContent(d, idx, k + 1)
  }

  /** The whole pass: the main loop, then the forced architecture query when none was found. */
  function ImageHints(d: seq<Slide>, idx: seq<int>, topic: string, subject: string): (r: seq<Slide>)
    requires ValidIndices(idx, |d|)
    ensures |r| == |d|
  {
    var p := HintsMain(HintPass(d, 0, false, []), idx, 0, topic, subject);
    if p.found then p.deck else ForcedArch(p.deck, idx, topic, subject)
  }

  /** The fallback: the first open content slide gets the architecture query. */
  function ForcedArch(d: seq<Slide>, idx: seq<int>, topic: string, subject: string): (r: seq<Slide>)
    requires ValidIndices(idx, |d|)
    ensures |r| == |d|
  {
    var j := FirstOpenContent(d, idx, 0);
    if j < |idx| then d[idx[j] := d[idx[j]].(imageQuery := Some(ArchQuery(topic, subject)))] else d
  }

  /** `_add_image_hints(slides, topic, subject)`, where `slides` is the sub-list of the deck at the indices idx. */
  method AddImageHints(deck: array<Slide>, idx: seq<int>, topic: string, subject: string)
    requires ValidIndices(idx, deck.Length)
    modifies deck
    ensures deck[..] == ImageHints(old(deck[..]), idx, topic, subject)
  {
    hide IsIntroLike, IsArchLike, OverviewQuery, ArchQuery;
    ghost var start := HintPass(deck[..], 0, false, []);
    ghost var targets: seq<int> := [];
    var hintsAdded := 0;
    var foundArch := false;
    var k := 0;
    while k < |idx|
      invariant 0 <= k <= |idx|
      invariant HintsMain(HintPass(deck[..], hintsAdded, foundArch, targets), idx, k, topic, subject)
                == HintsMain(start, idx, 0, topic, subject)
    {
      var s := deck[idx[k]];
      if HintBlocked(s) {
        k := k + 1;
        continue;
      }
      if hintsAdded >= MaxHints {
        break;
      }
      if IsIntroLike(s) {
        deck[idx[k]] := s.(imageQuery := Some(OverviewQuery(topic, subject)));
        hintsAdded := hintsAdded + 1;
        targets := targets + [idx[k]];
      } else if IsArchLike(s) {
        deck[idx[k]] := s.(imageQuery := Some(ArchQuery(topic, subject)));
        hintsAdded := hintsAdded + 1;
        foundArch := true;
        targets := targets + [idx[k]];
      }
      k := k + 1;
    }
    assert HintPass(deck[..], hintsAdded, foundArch, targets) == HintsMain(start, idx, 0, topic, subject);
    if !foundArch {
      ForceArchQuery(deck, idx, topic, subject);
    }
  }

  /** The fallback loop of `_add_image_hints`, run when no architecture slide was found. */
  method ForceArchQuery(deck: array<Slide>, idx: seq<int>, topic: string, subject: string)
    requires ValidIndices(idx, deck.Length)
    modifies deck
    ensures deck[..] == ForcedArch(old(deck[..]), idx, topic, subject)
  {
    ghost var mid := deck[..];
    var m := 0;
    while m < |idx|
      invariant 0 <= m <= |idx|
      invariant deck[..] == mid
      invariant FirstOpenContent(mid, idx, m) == FirstOpenContent(mid, idx, 0)
    {
      var s := deck[idx[m]];
      if HintBlocked(s) {
        m := m + 1;
        continue;
      }
      if s.kind == ContentKind {
        deck[idx[m]] := s.(imageQuery := Some(ArchQuery(topic, subject)));
        break;
      }
      m := m + 1;
    }
  }

  /** The bookkeeping of the main loop: `hints_added` counts the targets and never passes `max_hints`. */
  lemma {:induction false} HintsMainCount(p: HintPass, idx: seq<int>, k: nat, topic: string, subject: string)
    requires k <= |idx| && ValidIndices(idx, |p.deck|)
    requires p.hints <= MaxHints
    ensures var r := HintsMain(p, idx, k, topic, subject);
      && |r.targets| >= |p.targets| && r.targets[..|p.targets|] == p.targets
      && |r.targets| - |p.targets| == r.hints - p.hints
      && p.hints <= r.hints <= MaxHints
      && (forall t :: t in r.targets[|p.targets|..] ==> t in idx[k..] && !HintBlocked(p.deck[t]))
    decreases |idx| - k
  {
    hide IsIntroLike, IsArchLike, Hinted, OverviewQuery, ArchQuery;
    if k < |idx| {
      var s := p.deck[idx[k]];
      assert idx[k + 1..] == idx[k..][1..];
      if HintBlocked(s) || (p.hints < MaxHints && !IsIntroLike(s) && !IsArchLike(s)) {
        HintsMainCount(p, idx, k + 1, topic, subject);
      } else if p.hints < MaxHints {
        var p' := Hinted(p, idx[k], topic, subject);
        HintsMainCount(p', idx, k + 1, topic, subject);
        var r := HintsMain(p', idx, k + 1, topic, subject);
        assert r.targets[..|p.targets|] == r.targets[..|p'.targets|][..|p.targets|];
        assert r.targets[|p.targets|..] == [idx[k]] + r.targets[|p'.targets|..];
      }
    }
  }

  /** Only `image_query` changes in the main loop. */
  lemma {:induction false} HintsMainOnlyQuery(p: HintPass, idx: seq<int>, k: nat, topic: string, subject: string)
    requires k <= |idx| && ValidIndices(idx, |p.deck|)
    ensures var r := HintsMain(p, idx, k, topic, subject);
      forall j :: 0 <= j < |p.deck| ==> r.deck[j] == p.deck[j].(imageQuery := r.deck[j].imageQuery)
    decreases |idx| - k
  {
    hide IsIntroLike;
    hide IsArchLike;
    if k < |idx| {
      var s := p.deck[idx[k]];
      if HintBlocked(s) || (p.hints < MaxHints && !IsIntroLike(s) && !IsArchLike(s)) {
        HintsMainOnlyQuery(p, idx, k + 1, topic, subject);
      } else if p.hints < MaxHints {
        HintsMainOnlyQuery(Hinted(p, idx[k], topic, subject), idx, k + 1, topic, subject);
      }
    }
  }

  /** The main loop leaves every slide that is not one of its new targets as it was. */
  lemma {:induction false} HintsMainFrame(p: HintPass, idx: seq<int>, k: nat, topic: string, subject: string)
    requires k <= |idx| && ValidIndices(idx, |p.deck|)
    ensures var r := HintsMain(p, idx, k, topic, subject);
      |r.targets| >= |p.targets| && forall j :: 0 <= j < |p.deck| && j !in r.targets[|p.targets|..] ==> r.deck[j] == p.deck[j]
    decreases |idx| - k
  {
    hide IsIntroLike;
    hide IsArchLike;
    HintsMainTargetsGrow(p, idx, k, topic, subject);
    if k < |idx| {
      var s := p.deck[idx[k]];
      if HintBlocked(s) || (p.hints < MaxHints && !IsIntroLike(s) && !IsArchLike(s)) {
        HintsMainFrame(p, idx, k + 1, topic, subject);
      } else if p.hints < MaxHints {
        var p' := Hinted(p, idx[k], topic, subject);
        HintsMainFrame(p', idx, k + 1, topic, subject);
        HintsMainTargetsGrow(p', idx, k + 1, topic, subject);
        var r := HintsMain(p', idx, k + 1, topic, subject);
        assert r.targets[|p.targets|..] == [idx[k]] + r.targets[|p'.targets|..];
      }
    }
  }

  lemma {:induction false} HintsMainTargetsGrow(p: HintPass, idx: seq<int>, k: nat, topic: string, subject: string)
    requires k <= |idx| && ValidIndices(idx, |p.deck|)
    ensures var r := HintsMain(p, idx, k, topic, subject);
      |r.targets| >= |p.targets| && r.targets[..|p.targets|] == p.targets
    decreases |idx| - k
  {
    hide IsIntroLike;
    hide IsArchLike;
    if k < |idx| {
      var s := p.deck[idx[k]];
      if HintBlocked(s) || (p.hints < MaxHints && !IsIntroLike(s) && !IsArchLike(s)) {
        HintsMainTargetsGrow(p, idx, k + 1, topic, subject);
      } else if p.hints < MaxHints {
        var p' := Hinted(p, idx[k], topic, subject);
        HintsMainTargetsGrow(p', idx, k + 1, topic, subject);
        var r := HintsMain(p', idx, k + 1, topic, subject);
        assert r.targets[..|p.targets|] == r.targets[..|p'.targets|][..|p.targets|];
      }
    }
  }

  /** Whether a slide asks for a hint does not depend on its query. */
  lemma LikeIgnoresQuery(s: Slide, q: Option<string>)
    ensures IsIntroLike(s.(imageQuery := q)) == IsIntroLike(s)
    ensures IsArchLike(s.(imageQuery := q)) == IsArchLike(s)
  {
  }

  /** The main loop gives a query only to a slide whose title or kind asks for one. */
  lemma {:induction false} HintsMainTargetsLike(p: HintPass, idx: seq<int>, k: nat, topic: string, subject: string)
    requires k <= |idx| && ValidIndices(idx, |p.deck|)
    ensures var r := HintsMain(p, idx, k, topic, subject);
      |r.targets| >= |p.targets|
      && forall i :: |p.targets| <= i < |r.targets| ==>
           0 <= r.targets[i] < |p.deck| && (IsIntroLike(p.deck[r.targets[i]]) || IsArchLike(p.deck[r.targets[i]]))
    decreases |idx| - k
  {
    hide IsIntroLike, IsArchLike, OverviewQuery, ArchQuery;
    HintsMainTargetsGrow(p, idx, k, topic, subject);
    if k < |idx| {
      var s := p.deck[idx[k]];
      if HintBlocked(s) || (p.hints < MaxHints && !IsIntroLike(s) && !IsArchLike(s)) {
        HintsMainTargetsLike(p, idx, k + 1, topic, subject);
      } else if p.hints < MaxHints {
        var p' := Hinted(p, idx[k], topic, subject);
        HintsMainTargetsLike(p', idx, k + 1, topic, subject);
        HintsMainTargetsGrow(p', idx, k + 1, topic, subject);
        var r := HintsMain(p', idx, k + 1, topic, subject);
        assert r.targets[|p.targets|] == p'.targets[|p.targets|] == idx[k];
        forall i | |p.targets| <= i < |r.targets|
          ensures 0 <= r.targets[i] < |p.deck| && (IsIntroLike(p.deck[r.targets[i]]) || IsArchLike(p.deck[r.targets[i]]))
        {
          var t := r.targets[i];
          if t == idx[k] {
            LikeIgnoresQuery(p.deck[t], p'.deck[t].imageQuery);
          }
        }
      }
    }
  }

  /** The slides the pass may give a query: the main loop's targets and the forced architecture slide. */
  function HintTargets(d: seq<Slide>, idx: seq<int>, topic: string, subject: string): seq<int>
    requires ValidIndices(idx, |d|)
  {
    var p := HintsMain(HintPass(d, 0, false, []), idx, 0, topic, subject);
    var j := FirstOpenContent(p.deck, idx, 0);
    p.targets + (if !p.found && j < |idx| then [idx[j]] else [])
  }

  lemma FirstOpenContentSame(d: seq<Slide>, e: seq<Slide>, idx: seq<int>, k: nat)
    requires |d| == |e| && k <= |idx| && ValidIndices(idx, |d|)
    requires forall j :: 0 <= j < |d| ==> e[j] == d[j].(imageQuery := e[j].imageQuery)
    ensures FirstOpenContent(e, idx, k) == FirstOpenContent(d, idx, k)
    decreases |idx| - k
  {
    if k < |idx| {
      FirstOpenContentSame(d, e, idx, k + 1);
    }
  }

  /**
   * `_add_image_hints` changes only `image_query`, never a blocked slide nor
   * a slide outside the list, and at most `max_hints` slides in its main
   * loop plus the one forced architecture slide.
   */
  lemma ImageHintsFrame(d: seq<Slide>, idx: seq<int>, topic: string, subject: string)
    requires ValidIndices(idx, |d|)
    ensures var r := ImageHints(d, idx, topic, subject);
      var ts := HintTargets(d, idx, topic, subject);
      && |ts| <= MaxHints + 1
      && (forall t :: t in ts ==> t in idx && !HintBlocked(d[t]))
      && (forall j :: 0 <= j < |d| && j !in ts ==> r[j] == d[j])
      && (forall j :: 0 <= j < |d| ==> r[j] == d[j].(imageQuery := r[j].imageQuery))
  {
    var p0 := HintPass(d, 0, false, []);
    HintsMainCount(p0, idx, 0, topic, subject);
    HintsMainFrame(p0, idx, 0, topic, subject);
    HintsMainOnlyQuery(p0, idx, 0, topic, subject);
    var p := HintsMain(p0, idx, 0, topic, subject);
    assert p.targets[|p0.targets|..] == p.targets;
    assert idx[0..] == idx;
    var j := FirstOpenContent(p.deck, idx, 0);
    FirstOpenContentSame(d, p.deck, idx, 0);
  }

  /** When the main loop set no architecture query, the first open content slide of the list gets one. */
  lemma ImageHintsForcesArchitecture(d: seq<Slide>, idx: seq<int>, topic: string, subject: string)
    requires ValidIndices(idx, |d|)
    requires !HintsMain(HintPass(d, 0, false, []), idx, 0, topic, subject).found
    requires FirstOpenContent(d, idx, 0) < |idx|
    ensures ImageHints(d, idx, topic, subject)[idx[FirstOpenContent(d, idx, 0)]].imageQuery == Some(ArchQuery(topic, subject))
  {
    var p0 := HintPass(d, 0, false, []);
    HintsMainOnlyQuery(p0, idx, 0, topic, subject);
    var p := HintsMain(p0, idx, 0, topic, subject);
    FirstOpenContentSame(d, p.deck, idx, 0);
  }

  /**
   * A slide whose `slide_type` is not "content" and whose title is neither
   * intro-like nor architecture-like keeps its query: the main loop passes it
   * by and the forced architecture query goes only to a "content" slide.
   */
  lemma ImageHintsSkipsPlain(d: seq<Slide>, idx: seq<int>, topic: string, subject: string, j: nat)
    requires ValidIndices(idx, |d|) && j < |d|
    requires d[j].kind != ContentKind && !IsIntroLike(d[j]) && !IsArchLike(d[j])
    ensures ImageHints(d, idx, topic, subject)[j] == d[j]
  {
    var p0 := HintPass(d, 0, false, []);
    ImageHintsFrame(d, idx, topic, subject);
    HintsMainTargetsLike(p0, idx, 0, topic, subject);
    HintsMainOnlyQuery(p0, idx, 0, topic, subject);
    var p := HintsMain(p0, idx, 0, topic, subject);
    forall i | 0 <= i < |p.targets| ensures p.targets[i] != j {
    }
  }
}
