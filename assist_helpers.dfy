/**
 * The pure helpers of the assist endpoint: `_safe_int`, `_next_weekday`
 * and its own `_detect_ppt_mode`, which only tells user-specified requests
 * from automatic ones.
 */
module AssistHelpers {
  import opened Wrappers
  import opened Text

  // ----- _safe_int -----

  /**
   * A value read from a JSON request body: the kinds `int()` treats
   * differently. `JFloat` is a finite float, held as the exact value of the
   * double; NaN and the infinities, which `json.loads` also accepts, are
   * `JOther`.
   */
  datatype JsonValue = JInt(i: int) | JFloat(r: real) | JStr(s: string) | JBool(b: bool) | JNull | JOther

  /** `int()` of a finite float: the integer part, truncating toward zero. */
  function Truncate(r: real): (t: int)
    ensures 0.0 <= r ==> t as real <= r < t as real + 1.0
    ensures r < 0.0 ==> t as real - 1.0 < r <= t as real
  {
    if r >= 0.0 then r.Floor else -((-r).Floor)
  }

  /** `int(val)`: `None` where it raises (None, NaN, an infinity, a malformed string, a list or a dict). */
  function ToInt(v: JsonValue): Option<int>
  {
    match v
    case JInt(i) => Some(i)
    case JFloat(r) => Some(Truncate(r))
    case JStr(s) => PyInt(s)
    case JBool(b) => Some(if b then 1 else 0)
    case JNull => None
    case JOther => None
  }

  /** `_safe_int`: the converted value when it is non-negative, the default otherwise. */
  function SafeInt(v: JsonValue, default: int): (r: int)
    ensures ToInt(v).Some? && ToInt(v).value >= 0 ==> r == ToInt(v).value
    ensures ToInt(v).None? || ToInt(v).value < 0 ==> r == default
  {
    match ToInt(v)
    case Some(iv) => if iv >= 0 then iv else default
    case None => default
  }

  /** With a non-negative default the result is never negative, so counts read this way are naturals. */
  lemma SafeIntNonNegative(v: JsonValue, default: int)
    requires default >= 0
    ensures SafeInt(v, default) >= 0
  {
  }

  /** A count written as decimal digits is read back as itself. */
  lemma SafeIntOfDigits(n: nat, default: int)
    ensures SafeInt(JStr(NatToString(n)), default) == n
  {
    PyIntNatToString(n);
  }

  /**
   * A float count is cut to its integer part: 7.5 reads as 7, and -0.5 as
   * 0 (truncation toward zero), while anything at or below -1 falls back to
   * the default.
   */
  lemma SafeIntOfFloat(r: real, default: int)
    ensures 0.0 <= r ==> SafeInt(JFloat(r), default) == r.Floor
    ensures -1.0 < r < 0.0 ==> SafeInt(JFloat(r), default) == 0
    ensures r <= -1.0 ==> SafeInt(JFloat(r), default) == default
    ensures SafeInt(JFloat(7.5), default) == 7 && SafeInt(JFloat(-0.5), default) == 0
  {
    assert Truncate(7.5) == 7;
    assert Truncate(-0.5) == 0;
    if -1.0 < r < 0.0 {
      assert (-r).Floor == 0;
    }
  }

  /** A negative count, as a number or as text, falls back to the default. */
  lemma SafeIntOfNegative(n: nat, default: int)
    requires n > 0
    ensures SafeInt(JInt(-(n as int)), default) == default
    ensures SafeInt(JStr("-" + NatToString(n)), default) == default
  {
    var s := "-" + NatToString(n);
    var t := NatToString(n);
    assert s[1..] == t;
    assert IsStripped(s) by {
      assert s[0] == '-' && s[|s| - 1] == t[|t| - 1];
    }
    StripOfStripped(s);
    PyIntNatToString(n);
    StripOfStripped(t);
    assert UnsignedInt(t) == Some(n);
  }

  // ----- _next_weekday -----

  /**
   * A date as its proleptic Gregorian ordinal (`date.toordinal()`): day 1
   * is 0001-01-01, a Monday.
   */
  type Date = int

  /** `date.weekday()`: Monday is 0 and Sunday is 6. */
  function Weekday(d: Date): (w: int)
    ensures 0 <= w < 7
  {
    (d - 1) % 7
  }

  /** `_next_weekday(base, target)`. */
  function NextWeekday(base: Date, target: int): (r: Date)
    ensures base < r <= base + 7
    ensures Weekday(r) == target % 7
  {
    var daysAhead := (target - Weekday(base)) % 7;
    var daysAhead' := if daysAhead == 0 then 7 else daysAhead;
    assert (base - 1 + daysAhead) % 7 == target % 7 by {
      OrdinalShift(base - 1, target, daysAhead);
    }
    base + daysAhead'
  }

  lemma OrdinalShift(b: int, target: int, ahead: int)
    requires ahead == (target - b % 7) % 7
    ensures (b + ahead) % 7 == target % 7
  {
    var q := (target - b % 7) / 7;
    assert target - b % 7 == 7 * q + ahead;
    assert b + ahead == b / 7 * 7 + target - 7 * q;
    ModShift(target, b / 7 - q);
  }

  lemma ModShift(x: int, k: int)
    ensures (x + 7 * k) % 7 == x % 7
  {
  }

  /** The result is the first day strictly after `base` with the target weekday. */
  lemma NextWeekdayIsFirst(base: Date, target: int, d: Date)
    requires base < d < NextWeekday(base, target)
    ensures Weekday(d) != target % 7
  {
    var r := NextWeekday(base, target);
    if Weekday(d) == target % 7 {
      DaysApart(d - 1, r - 1);
      assert false;
    }
  }

  /** Two ordinals with the same weekday are a multiple of seven apart. */
  lemma DaysApart(a: int, b: int)
    requires a < b && a % 7 == b % 7
    ensures b - a >= 7
  {
    assert b - a == (b / 7 - a / 7) * 7;
  }

  // ----- _detect_ppt_mode of the assist endpoint -----

  datatype AssistMode = UserSpecified | AutoGenerate

  const ExplicitKeywords: seq<string> := [
    "slide", "title:", "use exactly", "use these bullets", "for slide",
    "structure:", "with this structure", "custom content", "exactly these",
    "do not change", "as specified", "use the", "uploaded image"
  ]

  /**
   * `_detect_ppt_mode(prompt, slide_structure, custom_slides, image_requests)`;
   * the three lists are given by their lengths, a missing list as 0.
   */
  function DetectAssistMode(prompt: string, structureCount: nat, customCount: nat, imageCount: nat): (r: AssistMode)
  {
    if structureCount > 0 || customCount > 0 || imageCount > 0 || ContainsAnyFrom(Lower(prompt), ExplicitKeywords, 0) then
      UserSpecified
    else AutoGenerate
  }

  /** Automatic generation exactly when all three lists are empty and the prompt has none of the keywords. */
  lemma AssistModeCases(prompt: string, structureCount: nat, customCount: nat, imageCount: nat)
    ensures DetectAssistMode(prompt, structureCount, customCount, imageCount) == AutoGenerate <==>
      structureCount == 0 && customCount == 0 && imageCount == 0
      && forall k :: 0 <= k < |ExplicitKeywords| ==> !Contains(Lower(prompt), ExplicitKeywords[k])
  {
  }

  /** The word "slide", in any case, already makes a request user-specified. */
  lemma SlideWordIsExplicit(before: string, after: string, structureCount: nat, customCount: nat, imageCount: nat)
    ensures DetectAssistMode(before + "Slide" + after, structureCount, customCount, imageCount) == UserSpecified
  {
    var s := before + "Slide" + after;
    var k := |before|;
    assert s[k..k + 5] == "Slide";
    LowerSlice(s, k, k + 5);
    assert Lower(s[k..k + 5]) == "slide";
    assert StartsAt(Lower(s), k, ExplicitKeywords[0]);
    ContainsAt(Lower(s), ExplicitKeywords[0], k);
  }
}
