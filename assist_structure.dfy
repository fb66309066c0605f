/**
 * `_extract_slide_structure_from_prompt`: the slide titles of a prompt,
 * from the "Slide titles:" list when it gives any, otherwise from every
 * "slide N title ..." phrase, one title per slide number with the later
 * phrase winning. As in the custom-slide extractor, the regular-expression
 * searches are given as their matches.
 */
module AssistStructure {
  import opened Wrappers
  import opened Text
  import opened Scan
  import opened AssistExtract

  /** One match of a title pattern: the slide number group and the title group. */
  datatype TitleGroup = TitleGroup(number: nat, raw: string)

  // ----- the "Slide titles:" list -----

  const ListPunctuation: set<char> := {'.', ',', ';'}

  /** `\s+[Gg]enerate` at p. */
  predicate GenerateAt(t: string, p: nat)
  {
    p < |t| && IsSpace(t[p])
    && (StartsAt(t, SpaceEnd(t, p), "Generate") || StartsAt(t, SpaceEnd(t, p), "generate"))
  }

  /** The leftmost match of `\s+[Gg]enerate` at or after i. */
  function FirstGenerate(t: string, i: nat): (r: Option<nat>)
    ensures r.Some? ==> i <= r.value < |t| && GenerateAt(t, r.value)
    ensures forall q :: i <= q && (r.None? || q < r.value) ==> !GenerateAt(t, q)
    decreases |t| - i
  {
    if i >= |t| then None else if GenerateAt(t, i) then Some(i) else FirstGenerate(t, i + 1)
  }

  /** The title of one "Slide N: title" match of the list, when it is kept. */
  function ListTitle(raw: string): (r: Option<string>)
    ensures r.Some? ==> |r.value| > 2
  {
    var t := RStripSet(Strip(raw), ListPunctuation);
    var cut :=
      if Contains(Lower(t), "generate") then
        match FirstGenerate(t, 0)
        case Some(p) => Strip(t[..p])
        case None => Strip(t)
      else t;
    if cut != [] && |cut| > 2 then Some(cut) else None
  }

  /** The entries the list gives, in order and with repeats. */
  function ListTitles(ms: seq<TitleGroup>): (r: seq<StructEntry>)
    ensures |r| <= |ms|
    ensures forall j :: 0 <= j < |r| ==> |r[j].title| > 2
  {
    if ms == [] then []
    else
      var m := ms[|ms| - 1];
      var front := ListTitles(ms[..|ms| - 1]);
      match ListTitle(m.raw)
      case Some(t) => front + [StructEntry(m.number, t)]
      case None => front
  }

  /** When every match is kept, the list gives one entry per match, in order. */
  lemma {:induction false} ListTitlesAllKept(ms: seq<TitleGroup>)
    requires forall k :: 0 <= k < |ms| ==> ListTitle(ms[k].raw).Some?
    ensures |ListTitles(ms)| == |ms|
    ensures forall k :: 0 <= k < |ms| ==> ListTitles(ms)[k] == StructEntry(ms[k].number, ListTitle(ms[k].raw).value)
  {
    hide ListTitle;
    if ms != [] {
      var front := ms[..|ms| - 1];
      assert forall k :: 0 <= k < |front| ==> front[k] == ms[k];
      ListTitlesAllKept(front);
    }
  }

  /** The loop over the list's matches. */
  method CollectListTitles(ms: seq<TitleGroup>) returns (entries: seq<StructEntry>)
    ensures entries == ListTitles(ms)
  {
    hide ListTitle;
    entries := [];
    var k := 0;
    while k < |ms|
      invariant 0 <= k <= |ms|
      invariant entries == ListTitles(ms[..k])
    {
      assert ms[..k + 1][..k] == ms[..k];
      var t := ListTitle(ms[k].raw);
      if t.Some? {
        entries := entries + [StructEntry(ms[k].number, t.value)];
      }
      k := k + 1;
    }
    assert ms[..k] == ms;
  }

  /** A title without "generate" in it is kept as written. */
  lemma ListTitleKeepsPlain(title: string)
    requires IsStripped(title) && |title| > 2 && title[|title| - 1] !in ListPunctuation
    requires !Contains(Lower(title), "generate")
    ensures ListTitle(title) == Some(title)
  {
    StripOfStripped(title);
  }

  /** A title followed by " Generate ..." is cut before it. */
  lemma ListTitleCutsGenerate(title: string, tail: string)
    requires IsStripped(title) && |title| > 2
    requires !Contains(Lower(title), "generate")
    requires tail == [] || (!IsSpace(tail[|tail| - 1]) && tail[|tail| - 1] !in ListPunctuation)
    ensures ListTitle(title + " Generate" + tail) == Some(title)
  {
    var raw := title + " Generate" + tail;
    assert raw[0] == title[0];
    assert raw[|raw| - 1] == if tail == [] then 'e' else tail[|tail| - 1];
    assert RStripSet(raw, ListPunctuation) == raw;
    hide RStripSet, FirstGenerate, Strip, SpaceEnd, GenerateAt, Contains, Lower;
    StripOfStripped(raw);
    GenerateCut(title, tail);
    assert raw[..|title|] == title;
    StripOfStripped(title);
  }

  /** The first `\s+[Gg]enerate` of title + " Generate" + tail is the one after the title. */
  lemma GenerateCut(title: string, tail: string)
    requires IsStripped(title) && title != []
    requires !Contains(Lower(title), "generate")
    ensures Contains(Lower(title + " Generate" + tail), "generate")
    ensures FirstGenerate(title + " Generate" + tail, 0) == Some(|title|)
  {
    var raw := title + " Generate" + tail;
    var n := |title|;
    SpaceEndIs(raw, n, n + 1);
    assert raw[n + 1..n + 9] == "Generate";
    assert GenerateAt(raw, n);
    LowerSlice(raw, n + 1, n + 9);
    ContainsAt(Lower(raw), "generate", n + 1);
    hide Contains, Lower, SpaceEnd;
    forall q | 0 <= q < n ensures !GenerateAt(raw, q) {
      NoGenerateInside(title, tail, q);
    }
    FirstGenerateIs(raw, 0, n);
  }

  /** No `\s+[Gg]enerate` starts inside a stripped title that does not contain the word. */
  lemma NoGenerateInside(title: string, tail: string, q: nat)
    requires IsStripped(title) && q < |title|
    requires !Contains(Lower(title), "generate")
    ensures !GenerateAt(title + " Generate" + tail, q)
  {
    var raw := title + " Generate" + tail;
    if GenerateAt(raw, q) {
      var e := SpaceEnd(raw, q);
      SpaceEndInside(title, raw, q);
      assert e < |title|;
      WordInside(title, raw, e);
    }
  }

  /** The spaces from inside a stripped title end inside it. */
  lemma SpaceEndInside(title: string, raw: string, q: nat)
    requires IsStripped(title) && q < |title| && |title| <= |raw| && raw[..|title|] == title
    ensures SpaceEnd(raw, q) < |title|
  {
    assert raw[|title| - 1] == title[|title| - 1];
  }

  /** "Generate" or "generate" starting inside the title would be inside it, since a space follows the title. */
  lemma WordInside(title: string, raw: string, e: nat)
    requires e < |title| && |title| < |raw| && raw[..|title|] == title && raw[|title|] == ' '
    requires !Contains(Lower(title), "generate")
    ensures !StartsAt(raw, e, "Generate") && !StartsAt(raw, e, "generate")
  {
    if e + 8 <= |title| {
      assert title[e..e + 8] == raw[e..e + 8] by {
        assert title[e..e + 8] == raw[..|title|][e..e + 8];
      }
      LowerSlice(title, e, e + 8);
      AbsentNowhere(Lower(title), "generate", e);
      assert Lower("Generate") == "generate";
    } else if e + 8 <= |raw| {
      var d := |title| - e;
      assert raw[e..e + 8][d] == ' ';
    }
  }

  lemma FirstGenerateIs(t: string, i: nat, p: nat)
    requires i <= p < |t| && GenerateAt(t, p)
    requires forall q :: i <= q < p ==> !GenerateAt(t, q)
    ensures FirstGenerate(t, i) == Some(p)
  {
    hide GenerateAt;
  }

  // ----- the fallback: every "slide N title ..." phrase -----

  /** `structure_map` after the matches: the cleaned title of each slide number, a later match winning. */
  function MapOf(ms: seq<TitleGroup>): (m: map<int, string>)
    ensures forall n :: n in m ==> m[n] != [] && IsStripped(m[n])
  {
    if ms == [] then map[]
    else
      var g := ms[|ms| - 1];
      var t := CleanTitle(g.raw);
      if t != [] then MapOf(ms[..|ms| - 1])[g.number := t] else MapOf(ms[..|ms| - 1])
  }

  /** The order of the dictionary's keys: each slide number where it was first inserted. */
  function OrderOf(ms: seq<TitleGroup>): (o: seq<int>)
    ensures forall n :: n in o <==> n in MapOf(ms)
    ensures forall i, j :: 0 <= i < j < |o| ==> o[i] != o[j]
  {
    if ms == [] then []
    else
      var g := ms[|ms| - 1];
      var front := OrderOf(ms[..|ms| - 1]);
      if CleanTitle(g.raw) != [] && g.number !in MapOf(ms[..|ms| - 1]) then front + [g.number] else front
  }

  /** The list built from `structure_map.items()`. */
  function FallbackOf(ms: seq<TitleGroup>): (r: seq<StructEntry>)
    ensures forall j :: 0 <= j < |r| ==> r[j].title != [] && IsStripped(r[j].title)
  {
    var o := OrderOf(ms);
    var m := MapOf(ms);
    seq(|o|, i requires 0 <= i < |o| => StructEntry(o[i], m[o[i]]))
  }

  /** A match that gives slide n a title: its cleaned title is not empty. */
  predicate Gives(g: TitleGroup, n: int)
  {
    g.number == n && CleanTitle(g.raw) != []
  }

  /** The last match that gives slide n a title decides the map's title for n. */
  lemma {:induction false} MapOfLast(ms: seq<TitleGroup>, n: int, k: nat)
    requires k < |ms| && Gives(ms[k], n)
    requires forall j :: k < j < |ms| ==> !Gives(ms[j], n)
    ensures n in MapOf(ms) && MapOf(ms)[n] == CleanTitle(ms[k].raw)
  {
    hide CleanTitle;
    var front := ms[..|ms| - 1];
    if k < |ms| - 1 {
      assert front[k] == ms[k];
      assert forall j :: k < j < |front| ==> front[j] == ms[j];
      MapOfLast(front, n, k);
    }
  }

  /** A slide number that no match titles is not in the map. */
  lemma {:induction false} MapOfMissing(ms: seq<TitleGroup>, n: int)
    requires forall k :: 0 <= k < |ms| ==> !Gives(ms[k], n)
    ensures n !in MapOf(ms)
  {
    hide CleanTitle;
    if ms != [] {
      var front := ms[..|ms| - 1];
      assert forall k :: 0 <= k < |front| ==> front[k] == ms[k];
      MapOfMissing(front, n);
    }
  }

  /**
   * The fallback gives each slide number once, and a slide's title is the
   * cleaned title of the last match that titles it.
   */
  lemma FallbackLastWins(ms: seq<TitleGroup>, n: int, k: nat)
    requires k < |ms| && Gives(ms[k], n)
    requires forall j :: k < j < |ms| ==> !Gives(ms[j], n)
    ensures exists i :: 0 <= i < |FallbackOf(ms)| && FallbackOf(ms)[i] == StructEntry(n, CleanTitle(ms[k].raw))
  {
    MapOfLast(ms, n, k);
    var o := OrderOf(ms);
    var i :| 0 <= i < |o| && o[i] == n;
    hide CleanTitle, MapOf, OrderOf;
    assert FallbackOf(ms)[i] == StructEntry(n, CleanTitle(ms[k].raw));
  }

  /** The fallback has no entry for a slide that no match titles. */
  lemma FallbackMissing(ms: seq<TitleGroup>, n: int)
    requires forall k :: 0 <= k < |ms| ==> !Gives(ms[k], n)
    ensures forall i :: 0 <= i < |FallbackOf(ms)| ==> FallbackOf(ms)[i].number != n
  {
    MapOfMissing(ms, n);
  }

  /** No two entries of the fallback share a slide number. */
  lemma FallbackDistinct(ms: seq<TitleGroup>)
    ensures forall i, j :: 0 <= i < j < |FallbackOf(ms)| ==> FallbackOf(ms)[i].number != FallbackOf(ms)[j].number
  {
    var o := OrderOf(ms);
    hide CleanTitle, MapOf, OrderOf;
    assert forall i :: 0 <= i < |o| ==> FallbackOf(ms)[i].number == o[i];
  }

  /** The loop over all matches that fills `structure_map`, then the list of its items. */
  method BuildFallback(ms: seq<TitleGroup>) returns (entries: seq<StructEntry>)
    ensures entries == FallbackOf(ms)
  {
    hide CleanTitle;
    var structureMap: map<int, string> := map[];
    var order: seq<int> := [];
    var k := 0;
    while k < |ms|
      invariant 0 <= k <= |ms|
      invariant structureMap == MapOf(ms[..k]) && order == OrderOf(ms[..k])
    {
      assert ms[..k + 1][..k] == ms[..k];
      var t := CleanTitle(ms[k].raw);
      if t != [] {
        if ms[k].number !in structureMap {
          order := order + [ms[k].number];
        }
        structureMap := structureMap[ms[k].number := t];
      }
      k := k + 1;
    }
    assert ms[..k] == ms;
    entries := [];
    var i := 0;
    while i < |order|
      invariant 0 <= i <= |order|
      invariant |entries| == i
      invariant forall j :: 0 <= j < i ==> entries[j] == StructEntry(order[j], structureMap[order[j]])
    {
      entries := entries + [StructEntry(order[i], structureMap[order[i]])];
      i := i + 1;
    }
  }

  /**
   * `_extract_slide_structure_from_prompt`: the list's entries when a
   * "Slide titles:" header was found and the list gives at least one,
   * otherwise the fallback's.
   */
  function StructureOf(listMatches: Option<seq<TitleGroup>>, phrases: seq<TitleGroup>): (r: seq<StructEntry>)
    ensures forall j :: 0 <= j < |r| ==> r[j].title != []
  {
    match listMatches
    case Some(lm) => if ListTitles(lm) != [] then ListTitles(lm) else FallbackOf(phrases)
    case None => FallbackOf(phrases)
  }

  /** The extractor: the list's loop first, and the fallback's only when the list gives nothing. */
  method ExtractStructure(listMatches: Option<seq<TitleGroup>>, phrases: seq<TitleGroup>) returns (r: seq<StructEntry>)
    ensures r == StructureOf(listMatches, phrases)
  {
    if listMatches.Some? {
      r := CollectListTitles(listMatches.value);
      if r != [] {
        return;
      }
    }
    r := BuildFallback(phrases);
  }
}
