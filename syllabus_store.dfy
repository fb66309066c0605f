/**
 * The syllabus store: the file name `save_syllabus_pdf` writes to, and the
 * retrieval of `retrieve_topic_context` over the pages of the latest
 * syllabus: keys, page scores, the token fallback, the ordering of the
 * scored pages and the snippet buffer bounded by `max_chars`. Finding and
 * reading the PDF is a parameter: the page texts, or `None` without a file.
 */
module SyllabusStore {
  import opened Wrappers
  import opened Text
  import opened Sorting

  // ----- save_syllabus_pdf -----

  /** The characters a saved file name keeps: `isalnum()`, ' ', '_', '-' and '.'. */
  predicate NameChar(c: char)
  {
    IsAlnum(c) || c == ' ' || c == '_' || c == '-' || c == '.'
  }

  function KeepNameChars(s: string): (r: string)
    ensures forall k :: 0 <= k < |r| ==> NameChar(r[k])
    ensures (forall k :: 0 <= k < |s| ==> NameChar(s[k])) ==> r == s
  {
    if s == [] then []
    else
      var rest := KeepNameChars(s[1..]);
      if NameChar(s[0]) then [s[0]] + rest else rest
  }

  /** The name `save_syllabus_pdf` saves under: the kept characters, with ".pdf" added unless present in any case. */
  function SafeSyllabusName(filename: string): (r: string)
    ensures forall k :: 0 <= k < |r| ==> NameChar(r[k])
    ensures EndsWith(Lower(r), ".pdf")
  {
    var safe := KeepNameChars(filename);
    if EndsWith(Lower(safe), ".pdf") then safe
    else
      var r := safe + ".pdf";
      LowerConcat(safe, ".pdf");
      assert Lower(".pdf") == ".pdf";
      assert Lower(r)[|Lower(r)| - 4..] == ".pdf";
      r
  }

  /** Saving under a name that was already made safe keeps that name. */
  lemma SafeSyllabusNameIdempotent(filename: string)
    ensures SafeSyllabusName(SafeSyllabusName(filename)) == SafeSyllabusName(filename)
  {
    var r := SafeSyllabusName(filename);
    assert KeepNameChars(r) == r;
  }

  // ----- keys -----

  /** `[topic or ""]`, then the module and the subject when they are set and non-empty. */
  function KeyCandidates(topic: Option<string>, moduleName: Option<string>, subject: Option<string>): seq<string>
  {
    [if topic.Some? then topic.value else ""]
      + (if IsSet(moduleName) then [moduleName.value] else [])
      + (if IsSet(subject) then [subject.value] else [])
  }

  /** A candidate that is empty or only whitespace. */
  predicate Blank(k: string)
  {
    Strip(k) == []
  }

  /** A candidate as a key: stripped and lowered. */
  function KeyOf(k: string): (r: string)
    ensures !Blank(k) ==> r != []
  {
    Lower(Strip(k))
  }

  /** `[k.strip().lower() for k in keys if k and k.strip()]`. */
  function PrepareKeys(cands: seq<string>): (r: seq<string>)
    ensures forall i :: 0 <= i < |r| ==> r[i] != []
  {
    if cands == [] then []
    else
      var rest := PrepareKeys(cands[1..]);
      if cands[0] != [] && !Blank(cands[0]) then [KeyOf(cands[0])] + rest else rest
  }

  /** A non-blank topic gives the first key. */
  lemma TopicKeyFirst(topic: string, moduleName: Option<string>, subject: Option<string>)
    requires !Blank(topic)
    ensures var keys := Keys(Some(topic), moduleName, subject);
      keys != [] && keys[0] == KeyOf(topic)
  {
    assert Blank([]);
    var c := KeyCandidates(Some(topic), moduleName, subject);
    assert c[0] == topic;
  }

  /** Every non-blank candidate gives a key. */
  lemma {:induction false} KeysCoverCandidates(cands: seq<string>)
    ensures forall j :: 0 <= j < |cands| && !Blank(cands[j]) ==> KeyOf(cands[j]) in PrepareKeys(cands)
  {
    if cands != [] {
      hide Blank, KeyOf;
      KeysCoverCandidates(cands[1..]);
      assert forall j :: 1 <= j < |cands| ==> cands[j] == cands[1..][j - 1];
    }
  }

  /** There are no keys exactly when every candidate is blank. */
  lemma {:induction false} NoKeysIffBlank(cands: seq<string>)
    ensures PrepareKeys(cands) == [] <==> forall j :: 0 <= j < |cands| ==> Blank(cands[j])
  {
    if cands != [] {
      assert Blank([]);
      hide Blank, KeyOf;
      NoKeysIffBlank(cands[1..]);
      assert forall j :: 1 <= j < |cands| ==> cands[j] == cands[1..][j - 1];
    }
  }

  /** Every key is a non-blank candidate, stripped and lowered. */
  lemma {:induction false} KeysComeFromCandidates(cands: seq<string>, i: nat)
    requires i < |PrepareKeys(cands)|
    ensures exists j :: 0 <= j < |cands| && !Blank(cands[j]) && PrepareKeys(cands)[i] == KeyOf(cands[j])
  {
    hide Blank, KeyOf;
    var rest := PrepareKeys(cands[1..]);
    if cands[0] != [] && !Blank(cands[0]) {
      assert PrepareKeys(cands) == [KeyOf(cands[0])] + rest;
      if i > 0 {
        KeysComeFromCandidates(cands[1..], i - 1);
        var j :| 0 <= j < |cands[1..]| && !Blank(cands[1..][j]) && rest[i - 1] == KeyOf(cands[1..][j]);
        assert cands[1..][j] == cands[j + 1];
      }
    } else {
      assert PrepareKeys(cands) == rest;
      KeysComeFromCandidates(cands[1..], i);
      var j :| 0 <= j < |cands[1..]| && !Blank(cands[1..][j]) && rest[i] == KeyOf(cands[1..][j]);
      assert cands[1..][j] == cands[j + 1];
    }
  }

  /** The keys of a request: every candidate that is not blank, stripped and lowered; the topic comes first. */
  function Keys(topic: Option<string>, moduleName: Option<string>, subject: Option<string>): seq<string>
  {
    PrepareKeys(KeyCandidates(topic, moduleName, subject))
  }

  // ----- scores -----

  predicate NonEmptyKeys(keys: seq<string>)
  {
    forall i :: 0 <= i < |keys| ==> keys[i] != []
  }

  /** `sum(low.count(k) for k in keys)`. */
  function KeyScore(low: string, keys: seq<string>): nat
    requires NonEmptyKeys(keys)
  {
    if keys == [] then 0 else Count(low, keys[0]) + KeyScore(low, keys[1..])
  }

  /** The tokens of the fallback: the words of the lowered topic longer than three characters. */
  function Tokens(topic: Option<string>): (r: seq<string>)
    ensures forall i :: 0 <= i < |r| ==> |r[i]| > 3
  {
    LongWords(SplitWs(Lower(if topic.Some? then topic.value else "")))
  }

  function LongWords(ws: seq<string>): (r: seq<string>)
    ensures forall i :: 0 <= i < |r| ==> |r[i]| > 3
  {
    if ws == [] then [] else (if |ws[0]| > 3 then [ws[0]] else []) + LongWords(ws[1..])
  }

  /** `sum(1 for t in tokens if t in low)`. */
  function TokenScore(low: string, tokens: seq<string>): nat
  {
    if tokens == [] then 0 else (if Contains(low, tokens[0]) then 1 else 0) + TokenScore(low, tokens[1..])
  }

  /** One entry of `scored`: the score, the page index and the page text. */
  datatype Scored = Scored(score: nat, index: nat, text: string)

  /** The score of one page: the scoring function on the lowered text. */
  function PageScore(score: string -> nat, page: string): nat
  {
    score(Lower(page))
  }

  /** The entries the scoring loop appends for the first k pages: the pages whose score is positive, in page order. */
  function Scores(pages: seq<string>, score: string -> nat, k: nat): (r: seq<Scored>)
    requires k <= |pages|
    ensures |r| <= k
    ensures forall j :: 0 <= j < |r| ==> r[j].index < k
  {
    if k == 0 then []
    else
      var s := PageScore(score, pages[k - 1]);
      Scores(pages, score, k - 1) + (if s > 0 then [Scored(s, k - 1, pages[k - 1])] else [])
  }

  /** The scoring loop, for either scoring function. */
  method ScorePages(pages: seq<string>, score: string -> nat) returns (scored: seq<Scored>)
    ensures scored == Scores(pages, score, |pages|)
  {
    scored := [];
    var pageIndex := 0;
    while pageIndex < |pages|
      invariant 0 <= pageIndex <= |pages|
      invariant scored == Scores(pages, score, pageIndex)
    {
      var text := pages[pageIndex];
      var low := Lower(text);
      var s := score(low);
      if s > 0 {
        scored := scored + [Scored(s, pageIndex, text)];
      }
      pageIndex := pageIndex + 1;
    }
  }

  /** Each entry carries its page's own positive score and its text. */
  predicate Faithful(pages: seq<string>, score: string -> nat, r: seq<Scored>)
  {
    forall j :: 0 <= j < |r| ==>
      r[j].index < |pages| && r[j].score > 0
      && r[j].score == PageScore(score, pages[r[j].index]) && r[j].text == pages[r[j].index]
  }

  /** The entries are in strictly increasing page order. */
  predicate Increasing(r: seq<Scored>)
  {
    forall i, j :: 0 <= i < j < |r| ==> r[i].index < r[j].index
  }

  /** Every one of the first k pages with a positive score has an entry. */
  predicate Complete(pages: seq<string>, score: string -> nat, k: nat, r: seq<Scored>)
    requires k <= |pages|
  {
    forall i :: 0 <= i < k && PageScore(score, pages[i]) > 0 ==> exists j :: 0 <= j < |r| && r[j].index == i
  }

  /** The entries of the first k pages: each carries its page's own positive score and its text. */
  lemma {:induction false} ScoresFaithful(pages: seq<string>, score: string -> nat, k: nat)
    requires k <= |pages|
    ensures Faithful(pages, score, Scores(pages, score, k))
  {
    if k > 0 {
      hide PageScore;
      ScoresFaithful(pages, score, k - 1);
      var front := Scores(pages, score, k - 1);
      var s := PageScore(score, pages[k - 1]);
      var r := Scores(pages, score, k);
      assert r == front + (if s > 0 then [Scored(s, k - 1, pages[k - 1])] else []);
      assert forall j :: 0 <= j < |front| ==> r[j] == front[j];
    }
  }

  /** The entries of the first k pages are in increasing page order. */
  lemma {:induction false} ScoresIncreasing(pages: seq<string>, score: string -> nat, k: nat)
    requires k <= |pages|
    ensures Increasing(Scores(pages, score, k))
  {
    if k > 0 {
      hide PageScore;
      ScoresIncreasing(pages, score, k - 1);
      var front := Scores(pages, score, k - 1);
      var s := PageScore(score, pages[k - 1]);
      var r := Scores(pages, score, k);
      assert r == front + (if s > 0 then [Scored(s, k - 1, pages[k - 1])] else []);
      assert forall j :: 0 <= j < |front| ==> r[j] == front[j];
    }
  }

  /** Every one of the first k pages with a positive score has an entry. */
  lemma {:induction false} ScoresComplete(pages: seq<string>, score: string -> nat, k: nat)
    requires k <= |pages|
    ensures Complete(pages, score, k, Scores(pages, score, k))
  {
    if k > 0 {
      ScoresComplete(pages, score, k - 1);
      forall i | 0 <= i < k && PageScore(score, pages[i]) > 0
        ensures exists j :: 0 <= j < |Scores(pages, score, k)| && Scores(pages, score, k)[j].index == i
      {
        ScoresHas(pages, score, k, i);
      }
    }
  }

  /** One step of ScoresComplete: page i, positive, has an entry among the first k pages. */
  lemma ScoresHas(pages: seq<string>, score: string -> nat, k: nat, i: nat)
    requires 0 < k <= |pages| && i < k && PageScore(score, pages[i]) > 0
    requires Complete(pages, score, k - 1, Scores(pages, score, k - 1))
    ensures exists j :: 0 <= j < |Scores(pages, score, k)| && Scores(pages, score, k)[j].index == i
  {
    hide PageScore;
    var front := Scores(pages, score, k - 1);
    var s := PageScore(score, pages[k - 1]);
    var r := Scores(pages, score, k);
    assert r == front + (if s > 0 then [Scored(s, k - 1, pages[k - 1])] else []);
    if i == k - 1 {
      assert r[|r| - 1].index == i;
    } else {
      var j :| 0 <= j < |front| && front[j].index == i;
      assert r[j] == front[j];
    }
  }

  /** The key score of a lowered page. */
  function KeyScorer(keys: seq<string>): string -> nat
    requires NonEmptyKeys(keys)
  {
    (low: string) => KeyScore(low, keys)
  }

  /** The token score of a lowered page. */
  function TokenScorer(tokens: seq<string>): string -> nat
  {
    (low: string) => TokenScore(low, tokens)
  }

  /** The entries considered: the key scores, or the token scores when no page has a key. */
  function Candidates(pages: seq<string>, keys: seq<string>, tokens: seq<string>): seq<Scored>
    requires NonEmptyKeys(keys)
  {
    var primary := Scores(pages, KeyScorer(keys), |pages|);
    if primary != [] then primary else Scores(pages, TokenScorer(tokens), |pages|)
  }

  /** The token fallback runs only when no page scores on the keys. */
  lemma FallbackOnlyWhenUnscored(pages: seq<string>, keys: seq<string>, tokens: seq<string>, i: nat)
    requires NonEmptyKeys(keys)
    requires i < |pages| && KeyScore(Lower(pages[i]), keys) > 0
    ensures Candidates(pages, keys, tokens) == Scores(pages, KeyScorer(keys), |pages|)
  {
    ScoresComplete(pages, KeyScorer(keys), |pages|);
    assert PageScore(KeyScorer(keys), pages[i]) > 0;
  }

  // ----- ordering -----

  /**
   * `scored.sort(reverse=True)` on (score, page_index, text): page indices
   * are distinct, so the order is by score, then index, both descending.
   * Indices are below n, so the pair is encoded in one integer key.
   */
  function OrderKey(n: nat): Scored -> int
  {
    (e: Scored) => -(e.score * (n + 1) + e.index)
  }

  /** Sorted by the key means descending by (score, index). */
  lemma OrderIsDescending(s: seq<Scored>, n: nat)
    requires SortedBy(s, OrderKey(n))
    requires forall j :: 0 <= j < |s| ==> s[j].index < n
    ensures forall i, j :: 0 <= i < j < |s| ==>
      s[i].score > s[j].score || (s[i].score == s[j].score && s[i].index >= s[j].index)
  {
    forall i, j | 0 <= i < j < |s|
      ensures s[i].score > s[j].score || (s[i].score == s[j].score && s[i].index >= s[j].index)
    {
      assert OrderKey(n)(s[i]) <= OrderKey(n)(s[j]);
      PairOrder(s[i].score, s[i].index, s[j].score, s[j].index, n);
    }
  }

  lemma PairOrder(a: nat, x: nat, b: nat, y: nat, n: nat)
    requires x < n && y < n
    requires a * (n + 1) + x >= b * (n + 1) + y
    ensures a > b || (a == b && x >= y)
  {
    BlockBelow(a, b, n);
  }

  /** A smaller score puts the whole block of its indices below the larger one. */
  lemma BlockBelow(a: nat, b: nat, n: nat)
    ensures a < b ==> a * (n + 1) + n < b * (n + 1)
  {
    if a < b {
      MulMono(a + 1, b, n + 1);
      assert (a + 1) * (n + 1) == a * (n + 1) + n + 1;
    }
  }

  lemma MulMono(a: nat, b: nat, c: nat)
    requires a <= b
    ensures a * c <= b * c
  {
    assert b * c == a * c + (b - a) * c;
  }

  // ----- buffer -----

  /** The text added for one page: a blank line, the page header and the stripped page text. */
  function Addition(e: Scored): string
  {
    "\n\n[Page " + NatToString(e.index + 1) + "]\n" + Strip(e.text)
  }

  /**
   * The buffer loop from `buffer` over `entries`: blank pages are skipped
   * (`not text` implies `not text.strip()`); an addition that would pass
   * max_chars is cut to the room left, and the loop ends.
   */
  function Gather(entries: seq<Scored>, buffer: string, maxChars: int): string
    decreases |entries|
  {
    if entries == [] then buffer
    else if Strip(entries[0].text) == [] then Gather(entries[1..], buffer, maxChars)
    else
      var addition := Addition(entries[0]);
      if |buffer| + |addition| > maxChars then
        var remaining := maxChars - |buffer|;
        if remaining <= 0 then buffer else buffer + addition[..remaining]
      else Gather(entries[1..], buffer + addition, maxChars)
  }

  /** The buffer never exceeds max_chars, and only ever grows. */
  lemma {:induction false} GatherBounded(entries: seq<Scored>, buffer: string, maxChars: int)
    requires |buffer| <= maxChars || buffer == []
    ensures |Gather(entries, buffer, maxChars)| <= (if maxChars > 0 then maxChars else 0)
    ensures buffer <= Gather(entries, buffer, maxChars)
    decreases |entries|
  {
    hide Addition;
    if entries != [] {
      if Strip(entries[0].text) == [] {
        GatherBounded(entries[1..], buffer, maxChars);
      } else {
        var addition := Addition(entries[0]);
        if |buffer| + |addition| <= maxChars {
          GatherBounded(entries[1..], buffer + addition, maxChars);
        }
      }
    }
  }

  /** The text of every non-blank entry, in order, when nothing is cut. */
  function AllAdditions(entries: seq<Scored>): string
    decreases |entries|
  {
    if entries == [] then []
    else if Strip(entries[0].text) == [] then AllAdditions(entries[1..])
    else Addition(entries[0]) + AllAdditions(entries[1..])
  }

  /** When everything fits in max_chars, the buffer holds every non-blank page in full, in order. */
  lemma {:induction false} GatherFits(entries: seq<Scored>, buffer: string, maxChars: int)
    requires |buffer| + |AllAdditions(entries)| <= maxChars
    ensures Gather(entries, buffer, maxChars) == buffer + AllAdditions(entries)
    decreases |entries|
  {
    hide Addition;
    if entries != [] {
      if Strip(entries[0].text) == [] {
        GatherFits(entries[1..], buffer, maxChars);
      } else {
        var addition := Addition(entries[0]);
        GatherFits(entries[1..], buffer + addition, maxChars);
        assert buffer + addition + AllAdditions(entries[1..]) == buffer + (addition + AllAdditions(entries[1..]));
      }
    }
  }

  /** The buffer loop of `retrieve_topic_context`, with its early break. */
  method GatherSnippets(entries: seq<Scored>, maxChars: int) returns (buffer: string)
    ensures buffer == Gather(entries, "", maxChars)
  {
    hide Addition;
    buffer := "";
    var k := 0;
    while k < |entries|
      invariant 0 <= k <= |entries|
      invariant Gather(entries[k..], buffer, maxChars) == Gather(entries, "", maxChars)
    {
      assert entries[k..][1..] == entries[k + 1..];
      var e := entries[k];
      var chunk := Strip(e.text);
      if chunk == [] {
        k := k + 1;
        continue;
      }
      var addition := Addition(e);
      if |buffer| + |addition| > maxChars {
        var remaining := maxChars - |buffer|;
        if remaining <= 0 {
          return;
        }
        buffer := buffer + addition[..remaining];
        return;
      }
      buffer := buffer + addition;
      k := k + 1;
    }
  }

  // ----- retrieve_topic_context -----

  /** The context built from the scored pages: `None` when nothing scores or the buffer strips to nothing. */
  function ContextOf(pages: seq<string>, keys: seq<string>, tokens: seq<string>, maxChars: int): Option<string>
    requires NonEmptyKeys(keys)
  {
    var cands := Candidates(pages, keys, tokens);
    if cands == [] then None
    else
      var out := Strip(Gather(SortBy(cands, OrderKey(|pages|)), "", maxChars));
      if out == [] then None else Some(out)
  }

  /**
   * The result of `retrieve_topic_context` for the pages of the latest
   * syllabus (`None` when there is none).
   */
  function TopicContext(topic: Option<string>, moduleName: Option<string>, subject: Option<string>,
                        pages: Option<seq<string>>, maxChars: int): Option<string>
  {
    if pages.None? || pages.value == [] then None
    else
      var keys := Keys(topic, moduleName, subject);
      if keys == [] then None else ContextOf(pages.value, keys, Tokens(topic), maxChars)
  }

  method RetrieveTopicContext(topic: Option<string>, moduleName: Option<string>, subject: Option<string>,
                              pages: Option<seq<string>>, maxChars: int) returns (r: Option<string>)
    ensures r == TopicContext(topic, moduleName, subject, pages, maxChars)
  {
    if pages.None? || pages.value == [] {
      return None;
    }
    var keys := Keys(topic, moduleName, subject);
    if keys == [] {
      return None;
    }
    r := BuildContext(pages.value, keys, Tokens(topic), maxChars);
  }

  /** Scoring, the fallback, the sort and the buffer of `retrieve_topic_context`. */
  method BuildContext(pages: seq<string>, keys: seq<string>, tokens: seq<string>, maxChars: int) returns (r: Option<string>)
    requires NonEmptyKeys(keys)
    ensures r == ContextOf(pages, keys, tokens, maxChars)
  {
    hide Scores, Gather, SortBy, Strip;
    var scored := ScorePages(pages, KeyScorer(keys));
    if scored == [] {
      scored := ScorePages(pages, TokenScorer(tokens));
    }
    assert scored == Candidates(pages, keys, tokens);
    if scored == [] {
      return None;
    }
    var ordered := SortBy(scored, OrderKey(|pages|));
    var buffer := GatherSnippets(ordered, maxChars);
    var out := Strip(buffer);
    r := if out == [] then None else Some(out);
  }

  /** A context built from scored pages is non-empty and never exceeds max_chars. */
  lemma ContextOfBounded(pages: seq<string>, keys: seq<string>, tokens: seq<string>, maxChars: int)
    requires NonEmptyKeys(keys)
    ensures var r := ContextOf(pages, keys, tokens, maxChars);
      r.Some? ==> 0 < |r.value| <= maxChars
  {
    var cands := Candidates(pages, keys, tokens);
    if cands != [] {
      var ordered := SortBy(cands, OrderKey(|pages|));
      GatherBounded(ordered, "", maxChars);
      StripIsSlice(Gather(ordered, "", maxChars));
    }
  }

  /** The context returned is never empty and never exceeds max_chars. */
  lemma ContextBounded(topic: Option<string>, moduleName: Option<string>, subject: Option<string>,
                       pages: Option<seq<string>>, maxChars: int)
    ensures var r := TopicContext(topic, moduleName, subject, pages, maxChars);
      r.Some? ==> 0 < |r.value| <= maxChars
  {
    hide ContextOf, Strip, Lower, Tokens;
    if pages.Some? && pages.value != [] {
      var keys := Keys(topic, moduleName, subject);
      if keys != [] {
        ContextOfBounded(pages.value, keys, Tokens(topic), maxChars);
      }
    }
  }

  /** Without a syllabus, without pages, or without any non-blank key, there is no context. */
  lemma NoContextCases(topic: Option<string>, moduleName: Option<string>, subject: Option<string>,
                       pages: Option<seq<string>>, maxChars: int)
    ensures pages.None? ==> TopicContext(topic, moduleName, subject, pages, maxChars).None?
    ensures pages == Some([]) ==> TopicContext(topic, moduleName, subject, pages, maxChars).None?
    ensures (forall j :: 0 <= j < |KeyCandidates(topic, moduleName, subject)| ==> Blank(KeyCandidates(topic, moduleName, subject)[j]))
      ==> TopicContext(topic, moduleName, subject, pages, maxChars).None?
  {
    NoKeysIffBlank(KeyCandidates(topic, moduleName, subject));
  }

  /** The entries are read in descending (score, page index) order, each page at most once. */
  lemma CandidatesOrdered(pages: seq<string>, keys: seq<string>, tokens: seq<string>)
    requires NonEmptyKeys(keys)
    ensures var s := SortBy(Candidates(pages, keys, tokens), OrderKey(|pages|));
      forall i, j :: 0 <= i < j < |s| ==>
        s[i].score > s[j].score || (s[i].score == s[j].score && s[i].index >= s[j].index)
  {
    var c := Candidates(pages, keys, tokens);
    var s := SortBy(c, OrderKey(|pages|));
    forall j | 0 <= j < |s| ensures s[j].index < |pages| {
      assert s[j] in multiset(c);
    }
    OrderIsDescending(s, |pages|);
  }
}
