/**
 * What the content-driven parsers of the PPT generator agent (Modes 3 and 5)
 * share: the shape of the bullets they read.
 */
module PptBlocks {
  import opened Text

  /** A non-empty text with no surrounding whitespace. */
  predicate Tidy(b: string)
  {
    b != [] && IsStripped(b)
  }

  /** Every bullet of a parsed slide is a non-empty, stripped, single line. */
  predicate GoodBullets(bs: seq<string>)
  {
    forall i :: 0 <= i < |bs| ==> Tidy(bs[i]) && '\n' !in bs[i]
  }

  /** `["- " + b for b in bs]`: bullets written in the dash format. */
  function Dashed(bs: seq<string>): (r: seq<string>)
    ensures |r| == |bs|
    ensures forall i :: 0 <= i < |bs| ==> r[i] == "- " + bs[i]
  {
    seq(|bs|, i requires 0 <= i < |bs| => "- " + bs[i])
  }

  /** A stripped, non-empty b: "- " + b is stripped too, and dropping the dash and the strip give b back. */
  lemma DashedLine(b: string)
    requires Tidy(b)
    ensures Strip("- " + b) == "- " + b
    ensures Strip(("- " + b)[1..]) == b
  {
    var t := "- " + b;
    assert t[|t| - 1] == b[|b| - 1];
    StripOfStripped(t);
    assert t[1..] == " " + b;
    assert (" " + b)[1..] == b;
    StripOfStripped(b);
  }
}
