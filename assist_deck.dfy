/**
 * The two deck repairs the assist endpoint runs on the generated slides just
 * before the presentation file is written: the final Mode 4 image-lock
 * cleanup, which takes images off every slide the prompt did not map an
 * image to, and the slide-count repair, which rebuilds the slide list as one
 * base slide and exactly `num_slides` user slides.
 *
 * The `Use\s+Image\s+\d+\s+on\s+Slide\s+(\d+)` search of the prompt is given
 * as its captured slide numbers, in order.
 */
module AssistDeck {
  import opened Wrappers
  import opened Text
  import opened Sorting
  import opened PptSlides

  function Number(s: Slide): int { s.number }

  /** No two slides carry the same slide number. */
  predicate DistinctNumbers(d: seq<Slide>)
  {
    forall a, b :: 0 <= a < b < |d| ==> d[a].number != d[b].number
  }

  // ----- the Mode 4 image lock: final cleanup -----

  /** `allowed_slides_final`: every mapped user slide, shifted past the base slide. */
  function AllowedSlides(mapped: seq<nat>): (r: set<int>)
    ensures forall k :: 0 <= k < |mapped| ==> mapped[k] + 1 in r
    ensures forall n :: n in r ==> n >= 1
  {
    set k | 0 <= k < |mapped| :: mapped[k] + 1
  }

  /** `slide.get("image_path")` is truthy. */
  predicate HasImage(s: Slide)
  {
    s.imagePath.Some? && s.imagePath.value != []
  }

  /** A user slide with an image the prompt did not map there. */
  predicate Blocked(s: Slide, allowed: set<int>)
  {
    s.number > 1 && HasImage(s) && s.number !in allowed
  }

  /** A slide after the cleanup: a blocked slide loses `image_path` and `image_query`. */
  function Unlocked(s: Slide, allowed: set<int>): Slide
  {
    if Blocked(s, allowed) then s.(imagePath := None, imageQuery := None) else s
  }

  function CleanAll(d: seq<Slide>, allowed: set<int>): (r: seq<Slide>)
    ensures |r| == |d| && forall i :: 0 <= i < |d| ==> r[i] == Unlocked(d[i], allowed)
  {
    seq(|d|, i requires 0 <= i < |d| => Unlocked(d[i], allowed))
  }

  /** How many slides of d satisfy p. */
  function CountWhere(d: seq<Slide>, p: Slide -> bool): (c: nat)
    ensures c <= |d|
  {
    if d == [] then 0 else CountWhere(d[..|d| - 1], p) + (if p(d[|d| - 1]) then 1 else 0)
  }

  /** `slides_with_images_final`: the user slides that carry an image. */
  predicate Imaged(s: Slide)
  {
    s.number > 1 && HasImage(s)
  }

  function ImageCount(d: seq<Slide>): nat
  {
    CountWhere(d, Imaged)
  }

  /** The slide numbers of the user slides that carry an image. */
  function ImagedNumbers(d: seq<Slide>): set<int>
  {
    set i | 0 <= i < |d| && Imaged(d[i]) :: d[i].number
  }

  datatype LockError = ImageCountMismatch(expected: nat, actual: nat)

  /** The cleanup loop: blocked slides lose their image, in place; `removed_count` counts them. */
  method CleanupImages(deck: array<Slide>, allowed: set<int>) returns (removed: nat)
    modifies deck
    ensures deck[..] == CleanAll(old(deck[..]), allowed)
    ensures removed == CountWhere(old(deck[..]), (s: Slide) => Blocked(s, allowed))
  {
    ghost var before := deck[..];
    removed := 0;
    var i := 0;
    while i < deck.Length
      invariant 0 <= i <= deck.Length
      invariant forall j :: 0 <= j < i ==> deck[j] == Unlocked(before[j], allowed)
      invariant forall j :: i <= j < deck.Length ==> deck[j] == before[j]
      invariant removed == CountWhere(before[..i], (s: Slide) => Blocked(s, allowed))
    {
      assert before[..i + 1][..i] == before[..i];
      var slide := deck[i];
      if slide.number > 1 && slide.imagePath.Some? && slide.imagePath.value != [] && slide.number !in allowed {
        deck[i] := slide.(imagePath := None, imageQuery := None);
        removed := removed + 1;
      }
      i := i + 1;
    }
    assert before[..deck.Length] == before;
  }

  /** The whole final pass: the cleanup, then the image count must equal the number of allowed slides. */
  method Mode4FinalCleanup(deck: array<Slide>, mapped: seq<nat>) returns (r: Result<nat, LockError>)
    modifies deck
    ensures deck[..] == CleanAll(old(deck[..]), AllowedSlides(mapped))
    ensures r.Ok? <==> ImageCount(deck[..]) == |AllowedSlides(mapped)|
    ensures r.Err? ==> r.error == ImageCountMismatch(|AllowedSlides(mapped)|, ImageCount(deck[..]))
  {
    var allowed := AllowedSlides(mapped);
    var removed := CleanupImages(deck, allowed);
    var actual := CountImages(deck);
    if actual != |allowed| {
      return Err(ImageCountMismatch(|allowed|, actual));
    }
    return Ok(removed);
  }

  /** The count of `slides_with_images_final`. */
  method CountImages(deck: array<Slide>) returns (c: nat)
    ensures c == ImageCount(deck[..])
  {
    c := 0;
    var i := 0;
    while i < deck.Length
      invariant 0 <= i <= deck.Length
      invariant c == CountWhere(deck[..i], Imaged)
    {
      assert deck[..i + 1][..i] == deck[..i];
      if deck[i].number > 1 && deck[i].imagePath.Some? && deck[i].imagePath.value != [] {
        c := c + 1;
      }
      i := i + 1;
    }
    assert deck[..deck.Length] == deck[..];
  }

  /**
   * The cleanup takes `image_path` and `image_query` off exactly the
   * blocked slides and changes nothing else; afterwards every user slide
   * that still has an image is an allowed one. Slide 1 is never touched.
   */
  lemma CleanupFrame(d: seq<Slide>, allowed: set<int>)
    ensures forall i :: 0 <= i < |d| && Imaged(CleanAll(d, allowed)[i]) ==> d[i].number in allowed
    ensures forall i :: 0 <= i < |d| && Blocked(d[i], allowed) ==>
      CleanAll(d, allowed)[i].imagePath.None? && CleanAll(d, allowed)[i].imageQuery.None?
    ensures forall i :: 0 <= i < |d| && !Blocked(d[i], allowed) ==> CleanAll(d, allowed)[i] == d[i]
    ensures forall i :: 0 <= i < |d| ==>
      CleanAll(d, allowed)[i].(imagePath := d[i].imagePath, imageQuery := d[i].imageQuery) == d[i]
    ensures ImagedNumbers(CleanAll(d, allowed)) <= allowed
    ensures CleanAll(CleanAll(d, allowed), allowed) == CleanAll(d, allowed)
  {
  }

  /** With distinct slide numbers, the image count is the number of imaged slide numbers. */
  lemma {:induction false} ImageCountIsNumbers(d: seq<Slide>)
    requires DistinctNumbers(d)
    ensures ImageCount(d) == |ImagedNumbers(d)|
  {
    if d != [] {
      var v := d[..|d| - 1];
      var x := d[|d| - 1];
      ImageCountIsNumbers(v);
      assert ImageCount(d) == ImageCount(v) + (if Imaged(x) then 1 else 0);
      if Imaged(x) {
        assert ImagedNumbers(d) == ImagedNumbers(v) + {x.number};
        assert x.number !in ImagedNumbers(v);
      } else {
        assert ImagedNumbers(d) == ImagedNumbers(v);
      }
    }
  }

  lemma SubsetSize(a: set<int>, b: set<int>)
    requires a <= b
    ensures |a| <= |b|
    ensures |a| == |b| ==> a == b
  {
    assert b == a + (b - a);
    assert |b| == |a| + |b - a|;
  }

  /**
   * With distinct slide numbers the final check can never find too many
   * images, and it passes exactly when every allowed slide number is a user
   * slide that still carries an image.
   */
  lemma FinalCheckCases(d: seq<Slide>, mapped: seq<nat>)
    requires DistinctNumbers(d)
    ensures ImageCount(CleanAll(d, AllowedSlides(mapped))) <= |AllowedSlides(mapped)|
    ensures ImageCount(CleanAll(d, AllowedSlides(mapped))) == |AllowedSlides(mapped)|
      <==> ImagedNumbers(CleanAll(d, AllowedSlides(mapped))) == AllowedSlides(mapped)
  {
    var allowed := AllowedSlides(mapped);
    var c := CleanAll(d, allowed);
    CleanupFrame(d, allowed);
    assert DistinctNumbers(c);
    ImageCountIsNumbers(c);
    SubsetSize(ImagedNumbers(c), allowed);
  }

  /** "Use Image i on Slide 0" allows slide 1, which is never counted: with distinct numbers the check fails. */
  lemma SlideZeroMappingFails(d: seq<Slide>, mapped: seq<nat>)
    requires DistinctNumbers(d) && 0 in mapped
    ensures ImageCount(CleanAll(d, AllowedSlides(mapped))) != |AllowedSlides(mapped)|
  {
    var allowed := AllowedSlides(mapped);
    var k :| 0 <= k < |mapped| && mapped[k] == 0;
    assert 1 in allowed;
    FinalCheckCases(d, mapped);
    assert 1 !in ImagedNumbers(CleanAll(d, allowed));
  }

  // ----- the slide-count repair -----

  /** The slide the repair creates for a missing slide numbered n. */
  function Placeholder(n: nat): (s: Slide)
    ensures s.number == n
  {
    ContentSlide(n, "Slide " + NatToString(n), [Str("Content to be added")], "")
  }

  /** The base slide the repair creates when the deck has no slide 1. */
  function DefaultBase(topic: string, subject: string): (s: Slide)
    ensures s.number == 1
  {
    Slide(1, TitleKind, topic, [Str(if subject != [] then subject else "Generated by EduAssist")],
          "Introduction to the presentation on " + topic + ".", None, None, None, None, false, false, None)
  }

  /** The slides of d that satisfy p, in order. */
  function SlidesWhere(d: seq<Slide>, p: Slide -> bool): (r: seq<Slide>)
    ensures |r| <= |d|
    ensures forall s :: s in r <==> s in d && p(s)
  {
    if d == [] then []
    else SlidesWhere(d[..|d| - 1], p) + (if p(d[|d| - 1]) then [d[|d| - 1]] else [])
  }

  predicate IsBase(s: Slide) { s.number == 1 }

  /** `user_slides` after both of its filters: the slides numbered 2 .. n + 1. */
  function InUserRange(n: nat): Slide -> bool
  {
    (s: Slide) => 1 < s.number <= n + 1
  }

  /** The slides appended for the user slides 1 .. i whose actual number is not in `existing`. */
  function Missing(existing: set<int>, i: nat): (r: seq<Slide>)
    ensures forall k :: 0 <= k < |r| ==>
      2 <= r[k].number <= i + 1 && r[k].number !in existing && r[k] == Placeholder(r[k].number as nat)
  {
    if i == 0 then []
    else Missing(existing, i - 1) + (if i + 1 !in existing then [Placeholder(i + 1)] else [])
  }

  /** `base_slides` after the repair: the slides numbered 1, or the default base slide when there is none. */
  function BasePart(d: seq<Slide>, topic: string, subject: string): seq<Slide>
  {
    var bases := SlidesWhere(d, IsBase);
    if bases == [] then [DefaultBase(topic, subject)] else bases
  }

  /** The slides the repair sorts: the slides numbered 2 .. n + 1 and the placeholders for the missing numbers. */
  function UserCandidates(d: seq<Slide>, n: nat): seq<Slide>
  {
    var users := SlidesWhere(d, InUserRange(n));
    users + Missing(Keys(users, Number), n)
  }

  /** `user_slides` after the repair: sorted by number and cut to n. */
  function UserPart(d: seq<Slide>, n: nat): seq<Slide>
  {
    Take(SortBy(UserCandidates(d, n), Number), n)
  }

  /** The deck after the repair of `assist`, which runs only when the count is not 1 + n. */
  function Repaired(d: seq<Slide>, n: nat, topic: string, subject: string): seq<Slide>
  {
    if |d| == n + 1 then d else BasePart(d, topic, subject) + UserPart(d, n)
  }

  /** The repair block: filter, fill the missing slides, sort, cut, and rebuild the slide list. */
  method RepairSlideCount(slides: seq<Slide>, n: nat, topic: string, subject: string) returns (r: seq<Slide>)
    ensures r == Repaired(slides, n, topic, subject)
  {
    if |slides| == n + 1 {
      return slides;
    }
    var bases, users := SplitSlides(slides, n);
    users := AddMissing(users, n);
    if bases == [] {
      bases := [DefaultBase(topic, subject)];
    }
    users := SortBy(users, Number);
    users := Take(users, n);
    r := bases + users;
  }

  /** `base_slides` and `user_slides`, the two comprehensions over the old slide list. */
  method SplitSlides(slides: seq<Slide>, n: nat) returns (bases: seq<Slide>, users: seq<Slide>)
    ensures bases == SlidesWhere(slides, IsBase)
    ensures users == SlidesWhere(slides, InUserRange(n))
  {
    bases := [];
    users := [];
    for i := 0 to |slides|
      invariant bases == SlidesWhere(slides[..i], IsBase)
      invariant users == SlidesWhere(slides[..i], InUserRange(n))
    {
      assert slides[..i + 1][..i] == slides[..i];
      if slides[i].number == 1 {
        bases := bases + [slides[i]];
      }
      if 1 < slides[i].number <= n + 1 {
        users := users + [slides[i]];
      }
    }
    assert slides[..|slides|] == slides;
  }

  /** The loop over user slides 1 .. n that appends a placeholder for each missing one. */
  method AddMissing(found: seq<Slide>, n: nat) returns (users: seq<Slide>)
    ensures users == found + Missing(Keys(found, Number), n)
  {
    hide Placeholder;
    var existing := Keys(found, Number);
    users := found;
    for i := 1 to n + 1
      invariant users == found + Missing(existing, i - 1)
    {
      if i + 1 !in existing {
        users := users + [Placeholder(i + 1)];
      }
    }
  }

  /** A placeholder is the content slide "Slide n" holding "Content to be added". */
  lemma PlaceholderShape(n: nat)
    ensures Placeholder(n).kind == ContentKind && Placeholder(n).title == "Slide " + NatToString(n)
    ensures Placeholder(n).content == [Str("Content to be added")]
    ensures Placeholder(n).imagePath.None? && Placeholder(n).imageQuery.None?
  {
  }

  /** The default base slide: slide 1, titled with the topic, holding the subject or "Generated by EduAssist". */
  lemma DefaultBaseShape(topic: string, subject: string)
    ensures DefaultBase(topic, subject).kind == TitleKind && DefaultBase(topic, subject).title == topic
    ensures subject != [] ==> DefaultBase(topic, subject).content == [Str(subject)]
    ensures subject == [] ==> DefaultBase(topic, subject).content == [Str("Generated by EduAssist")]
  {
  }

  /** The slide d gives for number j, or the placeholder when it has none. */
  function SlideNumbered(d: seq<Slide>, j: nat): Slide
  {
    match FirstWithKey(d, Number, j)
    case Some(s) => s
    case None => Placeholder(j)
  }

  /** The base slide d gives, or the default one when it has none. */
  function BaseOf(d: seq<Slide>, topic: string, subject: string): Slide
  {
    match FirstWithKey(d, Number, 1)
    case Some(s) => s
    case None => DefaultBase(topic, subject)
  }

  /**
   * When no two slides share a number, the repaired deck is the base slide
   * followed by the user slides numbered 2 .. n + 1 in ascending order:
   * each existing slide is kept unchanged, every missing one is a
   * placeholder, and any slide numbered outside 1 .. n + 1 is gone.
   */
  lemma RepairShape(d: seq<Slide>, n: nat, topic: string, subject: string)
    requires |d| != n + 1 && DistinctNumbers(d)
    ensures |Repaired(d, n, topic, subject)| == n + 1
    ensures Repaired(d, n, topic, subject)[0] == BaseOf(d, topic, subject)
    ensures forall k :: 1 <= k <= n ==> Repaired(d, n, topic, subject)[k].number == k + 1
    ensures forall k :: 1 <= k <= n ==> Repaired(d, n, topic, subject)[k] == SlideNumbered(d, k + 1)
  {
    BasePartOne(d, topic, subject);
    UserPartDense(d, n);
    var r := Repaired(d, n, topic, subject);
    var u := UserPart(d, n);
    assert r == [BaseOf(d, topic, subject)] + u;
    forall k | 1 <= k <= n ensures r[k] == u[k - 1] {
    }
  }

  /** With distinct numbers, the base part is the one slide numbered 1, or the default base slide. */
  lemma BasePartOne(d: seq<Slide>, topic: string, subject: string)
    requires DistinctNumbers(d)
    ensures BasePart(d, topic, subject) == [BaseOf(d, topic, subject)]
  {
    var bases := SlidesWhere(d, IsBase);
    WhereDistinct(d, IsBase);
    BasesAtMostOne(bases);
    if bases == [] {
      NoneWithNumber(d, 1);
    } else {
      assert bases[0] in d;
      FirstIsOnly(d, bases[0]);
    }
  }

  /** With distinct numbers, the user part is slide 2, ..., slide n + 1, each found or filled. */
  lemma UserPartDense(d: seq<Slide>, n: nat)
    requires DistinctNumbers(d)
    ensures |UserPart(d, n)| == n
    ensures forall i :: 0 <= i < n ==> UserPart(d, n)[i].number == i + 2
    ensures forall i :: 0 <= i < n ==> UserPart(d, n)[i] == SlideNumbered(d, i + 2)
  {
    hide Placeholder, Missing, SlidesWhere, SortBy, DefaultBase;
    var users := SlidesWhere(d, InUserRange(n));
    var m := Missing(Keys(users, Number), n);
    var all := UserCandidates(d, n);
    assert all == users + m;
    var sorted := SortBy(all, Number);
    SortedDense(d, n);
    assert UserPart(d, n) == sorted;
    forall i | 0 <= i < n ensures sorted[i] == SlideNumbered(d, i + 2) {
      var x := sorted[i];
      assert x in multiset(all);
      if x in users {
        FirstIsOnly(d, x);
      } else {
        assert x in m;
        NumberNotFound(d, n, i + 2);
      }
    }
  }

  /** The sorted candidates are numbered 2, ..., n + 1. */
  lemma SortedDense(d: seq<Slide>, n: nat)
    requires DistinctNumbers(d)
    ensures |SortBy(UserCandidates(d, n), Number)| == n
    ensures forall i :: 0 <= i < n ==> SortBy(UserCandidates(d, n), Number)[i].number == i + 2
  {
    hide Placeholder, Missing, SlidesWhere, SortBy, DefaultBase;
    var users := SlidesWhere(d, InUserRange(n));
    var m := Missing(Keys(users, Number), n);
    var all := UserCandidates(d, n);
    assert all == users + m;
    var sorted := SortBy(all, Number);
    WhereDistinct(d, InUserRange(n));
    MissingIncreasing(Keys(users, Number), n);
    AllDistinct(users, m);
    DistinctKeysCount(all, Number);
    SortKeepsKeys(all, Number);
    assert |sorted| == |all| by {
      assert |multiset(sorted)| == |multiset(all)|;
    }
    SortedDistinctKeys(sorted, Number);
    forall i | 0 <= i < |sorted| ensures 2 <= Number(sorted[i]) < n + 2 {
      CandidateBounds(users, m, n, sorted[i]);
    }
    forall j | 2 <= j < n + 2 ensures j in Keys(sorted, Number) {
      AllCovers(users, n, j);
    }
    DenseKeys(sorted, Number, 2, n + 2);
  }

  /** A sorted candidate is a found user slide or a placeholder, numbered 2 .. n + 1. */
  lemma CandidateBounds(users: seq<Slide>, m: seq<Slide>, n: nat, x: Slide)
    requires forall s :: s in users ==> 1 < s.number <= n + 1
    requires m == Missing(Keys(users, Number), n)
    requires x in multiset(SortBy(users + m, Number))
    ensures 2 <= x.number <= n + 1
    ensures x in users || x == Placeholder(x.number as nat)
  {
    hide Placeholder, SortBy;
    assert x in users + m;
    if x !in users {
      var k :| 0 <= k < |m| && m[k] == x;
    }
  }

  /** A number no found user slide has belongs to no slide of the deck. */
  lemma NumberNotFound(d: seq<Slide>, n: nat, j: int)
    requires 2 <= j <= n + 1 && j !in Keys(SlidesWhere(d, InUserRange(n)), Number)
    ensures FirstWithKey(d, Number, j).None?
  {
    NoneWithNumber(d, j);
  }

  /**
   * Whatever the deck, the repaired one starts with a slide 1, is sorted by
   * slide number, and holds only slides numbered 1 .. n + 1, each of them a
   * slide of the old deck, the default base slide or a placeholder.
   */
  lemma RepairBounds(d: seq<Slide>, n: nat, topic: string, subject: string)
    requires |d| != n + 1
    ensures |Repaired(d, n, topic, subject)| >= 1 && Repaired(d, n, topic, subject)[0].number == 1
    ensures SortedBy(Repaired(d, n, topic, subject), Number)
    ensures forall k :: 0 <= k < |Repaired(d, n, topic, subject)| ==> Origin(d, n, topic, subject, Repaired(d, n, topic, subject)[k])
  {
    hide BasePart, UserPart, Placeholder, DefaultBase, SlidesWhere, SortBy, Missing;
    var base := BasePart(d, topic, subject);
    var cut := UserPart(d, n);
    UserPartBounds(d, n);
    BasePartBounds(d, topic, subject);
    var r := base + cut;
    assert Repaired(d, n, topic, subject) == r;
    forall k | 0 <= k < |r| ensures Origin(d, n, topic, subject, r[k]) {
      if k < |base| {
        assert r[k] == base[k];
      } else {
        assert r[k] == cut[k - |base|];
      }
    }
    forall i, j | 0 <= i < j < |r| ensures Number(r[i]) <= Number(r[j]) {
      if j < |base| {
      } else if i < |base| {
        assert r[j] == cut[j - |base|];
      } else {
        assert r[i] == cut[i - |base|] && r[j] == cut[j - |base|];
      }
    }
  }

  /** A slide of the repaired deck: numbered 1 .. n + 1, and an old slide, the default base slide or a placeholder. */
  predicate Origin(d: seq<Slide>, n: nat, topic: string, subject: string, s: Slide)
  {
    1 <= s.number <= n + 1 && (s in d || s == DefaultBase(topic, subject) || s == Placeholder(s.number as nat))
  }

  lemma BasePartBounds(d: seq<Slide>, topic: string, subject: string)
    ensures |BasePart(d, topic, subject)| >= 1
    ensures forall i :: 0 <= i < |BasePart(d, topic, subject)| ==>
      BasePart(d, topic, subject)[i].number == 1
      && (BasePart(d, topic, subject)[i] in d || BasePart(d, topic, subject)[i] == DefaultBase(topic, subject))
  {
    var bases := SlidesWhere(d, IsBase);
    forall i | 0 <= i < |bases| ensures bases[i] in d && IsBase(bases[i]) {
      assert bases[i] in bases;
    }
  }

  lemma UserPartBounds(d: seq<Slide>, n: nat)
    ensures |UserPart(d, n)| <= n
    ensures SortedBy(UserPart(d, n), Number)
    ensures forall i :: 0 <= i < |UserPart(d, n)| ==>
      2 <= UserPart(d, n)[i].number <= n + 1
      && (UserPart(d, n)[i] in d || UserPart(d, n)[i] == Placeholder(UserPart(d, n)[i].number as nat))
  {
    hide Placeholder, Missing, SlidesWhere, SortBy, DefaultBase;
    var users := SlidesWhere(d, InUserRange(n));
    var all := UserCandidates(d, n);
    assert all == users + Missing(Keys(users, Number), n);
    var sorted := SortBy(all, Number);
    var cut := UserPart(d, n);
    assert cut == sorted[..|cut|];
    forall i | 0 <= i < |cut| ensures 2 <= cut[i].number <= n + 1 && (cut[i] in d || cut[i] == Placeholder(cut[i].number as nat)) {
      assert cut[i] == sorted[i];
      CandidateBounds(users, Missing(Keys(users, Number), n), n, sorted[i]);
    }
  }

  // ----- helpers of the repair lemmas -----

  lemma {:induction false} WhereDistinct(d: seq<Slide>, p: Slide -> bool)
    requires DistinctNumbers(d)
    ensures DistinctNumbers(SlidesWhere(d, p))
  {
    if d != [] {
      var v := d[..|d| - 1];
      var x := d[|d| - 1];
      WhereDistinct(v, p);
      var w := SlidesWhere(v, p);
      forall s | s in w ensures s.number != x.number {
        assert s in v;
        var a :| 0 <= a < |v| && v[a] == s;
        assert d[a] == s;
      }
    }
  }

  lemma BasesAtMostOne(bases: seq<Slide>)
    requires DistinctNumbers(bases)
    requires forall s :: s in bases ==> IsBase(s)
    ensures |bases| <= 1
  {
    DistinctKeysCount(bases, Number);
    forall i | 0 <= i < |bases| ensures Number(bases[i]) == 1 {
      assert bases[i] in bases;
    }
    assert Keys(bases, Number) <= {1};
    SubsetSize(Keys(bases, Number), {1});
  }

  /** In a deck with distinct numbers, the first slide with a slide's number is that slide. */
  lemma FirstIsOnly(d: seq<Slide>, x: Slide)
    requires DistinctNumbers(d) && x in d
    ensures FirstWithKey(d, Number, x.number) == Some(x)
  {
    var i :| 0 <= i < |d| && d[i] == x;
    FirstWithKeyAt(d, Number, i);
  }

  lemma NoneWithNumber(d: seq<Slide>, j: int)
    requires forall s :: s in d ==> s.number != j
    ensures FirstWithKey(d, Number, j).None?
  {
    FirstWithKeyIsElement(d, Number, j);
  }

  /** The found user slides and the placeholders never share a number. */
  lemma AllDistinct(users: seq<Slide>, m: seq<Slide>)
    requires DistinctNumbers(users)
    requires forall k :: 0 <= k < |m| ==> m[k].number !in Keys(users, Number)
    requires forall a, b :: 0 <= a < b < |m| ==> m[a].number < m[b].number
    ensures forall a, b :: 0 <= a < b < |users + m| ==> Number((users + m)[a]) != Number((users + m)[b])
  {
    var all := users + m;
    forall a, b | 0 <= a < b < |all| ensures Number(all[a]) != Number(all[b]) {
      if b >= |users| && a < |users| {
        assert Number(all[a]) in Keys(users, Number);
        assert all[b] == m[b - |users|];
      } else if a >= |users| {
        assert all[a] == m[a - |users|] && all[b] == m[b - |users|];
      }
    }
  }

  lemma {:induction false} MissingIncreasing(existing: set<int>, i: nat)
    ensures forall a, b :: 0 <= a < b < |Missing(existing, i)| ==> Missing(existing, i)[a].number < Missing(existing, i)[b].number
  {
    if i > 0 {
      MissingIncreasing(existing, i - 1);
    }
  }

  /** Every number 2 .. i + 1 is found or filled. */
  lemma {:induction false} MissingCovers(existing: set<int>, i: nat, j: int)
    requires 2 <= j <= i + 1 && j !in existing
    ensures exists k :: 0 <= k < |Missing(existing, i)| && Missing(existing, i)[k].number == j
  {
    hide Placeholder;
    var r := Missing(existing, i);
    if j == i + 1 {
      assert r == Missing(existing, i - 1) + [Placeholder(i + 1)];
      assert r[|r| - 1] == Placeholder(i + 1);
    } else {
      MissingCovers(existing, i - 1, j);
      var k :| 0 <= k < |Missing(existing, i - 1)| && Missing(existing, i - 1)[k].number == j;
      assert r[k] == Missing(existing, i - 1)[k];
    }
  }

  lemma AllCovers(users: seq<Slide>, n: nat, j: int)
    requires 2 <= j < n + 2
    ensures j in Keys(users + Missing(Keys(users, Number), n), Number)
  {
    var all := users + Missing(Keys(users, Number), n);
    MissingIncreasing(Keys(users, Number), n);
    if j in Keys(users, Number) {
      var a :| 0 <= a < |users| && Number(users[a]) == j;
      assert all[a] == users[a];
    } else {
      MissingCovers(Keys(users, Number), n, j);
      var k :| 0 <= k < |Missing(Keys(users, Number), n)| && Missing(Keys(users, Number), n)[k].number == j;
      assert all[|users| + k] == Missing(Keys(users, Number), n)[k];
    }
  }

  /** A strictly increasing sequence whose keys are exactly lo .. hi - 1 holds key lo + i at index i. */
  lemma {:induction false} DenseKeys<T>(u: seq<T>, key: T -> int, lo: int, hi: int)
    requires lo <= hi && StrictlyIncreasingBy(u, key)
    requires forall i :: 0 <= i < |u| ==> lo <= key(u[i]) < hi
    requires forall j :: lo <= j < hi ==> j in Keys(u, key)
    ensures |u| == hi - lo
    ensures forall i :: 0 <= i < |u| ==> key(u[i]) == lo + i
    decreases hi - lo
  {
    if lo == hi {
      if |u| > 0 {
        assert false;
      }
    } else {
      assert hi - 1 in Keys(u, key);
      var p :| 0 <= p < |u| && key(u[p]) == hi - 1;
      var last := |u| - 1;
      var v := u[..last];
      forall j | lo <= j < hi - 1 ensures j in Keys(v, key) {
        assert j in Keys(u, key);
        var a :| 0 <= a < |u| && key(u[a]) == j;
        assert a != last;
        assert v[a] == u[a];
      }
      forall i | 0 <= i < |v| ensures lo <= key(v[i]) < hi - 1 {
        assert key(u[i]) < key(u[last]);
      }
      DenseKeys(v, key, lo, hi - 1);
    }
  }
}
