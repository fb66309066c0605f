/**
 * The parts of Python's str semantics the backend relies on, on seq<char>:
 * whitespace, ASCII case folding, strip, find/in, split, replace, count and
 * the decimal conversions of int() and str().
 */
module Text {
  import opened Wrappers

  /** The characters `str.isspace()` accepts; `\s`, `strip()` and `split()` use this class. */
  predicate IsSpace(c: char)
  {
    c == ' ' || ('\t' <= c <= '\r') || ('\U{1c}' <= c <= '\U{1f}') || c == '\U{85}' || c == '\U{a0}'
    || c == '\U{1680}' || ('\U{2000}' <= c <= '\U{200a}') || c == '\U{2028}' || c == '\U{2029}'
    || c == '\U{202f}' || c == '\U{205f}' || c == '\U{3000}'
  }

  predicate IsDigit(c: char) { '0' <= c <= '9' }

  predicate IsAsciiLetter(c: char) { ('a' <= c <= 'z') || ('A' <= c <= 'Z') }

  predicate IsAlnum(c: char) { IsDigit(c) || IsAsciiLetter(c) }

  predicate AllDigits(s: string) { forall k :: 0 <= k < |s| ==> IsDigit(s[k]) }

  function LowerChar(c: char): char
  {
    if 'A' <= c <= 'Z' then (c as int + 32) as char else c
  }

  /** `str.lower()` restricted to ASCII letters. */
  function Lower(s: string): (r: string)
    ensures |r| == |s|
    ensures forall i :: 0 <= i < |s| ==> r[i] == LowerChar(s[i])
  {
    seq(|s|, i requires 0 <= i < |s| => LowerChar(s[i]))
  }

  lemma LowerSlice(s: string, i: nat, j: nat)
    requires i <= j <= |s|
    ensures Lower(s)[i..j] == Lower(s[i..j])
  {
  }

  lemma LowerConcat(a: string, b: string)
    ensures Lower(a + b) == Lower(a) + Lower(b)
  {
    assert forall k :: 0 <= k < |a + b| ==> Lower(a + b)[k] == (Lower(a) + Lower(b))[k];
  }

  // ----- strip -----

  /** A string with no whitespace at either end, as `str.strip()` leaves it. */
  predicate IsStripped(s: string)
  {
    s == [] || (!IsSpace(s[0]) && !IsSpace(s[|s| - 1]))
  }

  function LStrip(s: string): (r: string)
    ensures |r| <= |s|
    ensures r == [] || !IsSpace(r[0])
    ensures forall i :: 0 <= i < |s| - |r| ==> IsSpace(s[i])
    decreases |s|
  {
    if |s| > 0 && IsSpace(s[0]) then LStrip(s[1..]) else s
  }

  function RStrip(s: string): (r: string)
    ensures |r| <= |s|
    ensures r == [] || !IsSpace(r[|r| - 1])
    ensures forall i :: |r| <= i < |s| ==> IsSpace(s[i])
    decreases |s|
  {
    if |s| > 0 && IsSpace(s[|s| - 1]) then RStrip(s[..|s| - 1]) else s
  }

  function Strip(s: string): (r: string)
    ensures IsStripped(r)
    ensures |r| <= |s|
  {
    RStripIsPrefix(LStrip(s));
    RStrip(LStrip(s))
  }

  /** `lstrip()` removes a prefix: what is left is a suffix of s. */
  lemma {:induction false} LStripIsSuffix(s: string)
    ensures LStrip(s) == s[|s| - |LStrip(s)|..]
    decreases |s|
  {
    if |s| > 0 && IsSpace(s[0]) {
      LStripIsSuffix(s[1..]);
    }
  }

  /** `rstrip()` removes a suffix: what is left is a prefix of s. */
  lemma {:induction false} RStripIsPrefix(s: string)
    ensures RStrip(s) == s[..|RStrip(s)|]
    decreases |s|
  {
    if |s| > 0 && IsSpace(s[|s| - 1]) {
      RStripIsPrefix(s[..|s| - 1]);
    }
  }

  /** `strip()` keeps a slice of s. */
  lemma StripIsSlice(s: string)
    ensures Strip(s) == s[|s| - |LStrip(s)|..|s| - |LStrip(s)| + |Strip(s)|]
  {
    LStripIsSuffix(s);
    RStripIsPrefix(LStrip(s));
  }

  /** Stripping adds no character. */
  lemma StripKeepsOut(s: string, c: char)
    ensures c !in s ==> c !in Strip(s)
  {
    var l := LStrip(s);
    var r := RStrip(l);
    StripIsSlice(s);
    assert forall k :: 0 <= k < |r| ==> r[k] == s[|s| - |l| + k];
  }

  /** Stripping leading characters adds no character. */
  lemma LStripSetKeepsOut(s: string, cs: set<char>, c: char)
    ensures c !in s ==> c !in LStripSet(s, cs)
  {
    hide LStripSet;
    var d := LStripSet(s, cs);
    if c in d {
      var k :| 0 <= k < |d| && d[k] == c;
      assert s[|s| - |d|..][k] == c;
      assert s[|s| - |d| + k] == c;
    }
  }

  lemma StripOfStripped(s: string)
    requires IsStripped(s)
    ensures Strip(s) == s
  {
  }

  /** `str.lstrip(chars)`. */
  function LStripSet(s: string, cs: set<char>): (r: string)
    ensures |r| <= |s| && r == s[|s| - |r|..]
    ensures r == [] || r[0] !in cs
    decreases |s|
  {
    if |s| > 0 && s[0] in cs then LStripSet(s[1..], cs) else s
  }

  /** `str.rstrip(chars)`. */
  function RStripSet(s: string, cs: set<char>): (r: string)
    ensures |r| <= |s| && r == s[..|r|]
    ensures r == [] || r[|r| - 1] !in cs
    decreases |s|
  {
    if |s| > 0 && s[|s| - 1] in cs then RStripSet(s[..|s| - 1], cs) else s
  }

  // ----- spans used by the scanners -----

  function SpaceEnd(s: string, i: nat): (j: nat)
    requires i <= |s|
    ensures i <= j <= |s|
    ensures forall k :: i <= k < j ==> IsSpace(s[k])
    ensures j == |s| || !IsSpace(s[j])
    decreases |s| - i
  {
    if i < |s| && IsSpace(s[i]) then SpaceEnd(s, i + 1) else i
  }

  function DigitEnd(s: string, i: nat): (j: nat)
    requires i <= |s|
    ensures i <= j <= |s|
    ensures forall k :: i <= k < j ==> IsDigit(s[k])
    ensures j == |s| || !IsDigit(s[j])
    decreases |s| - i
  {
    if i < |s| && IsDigit(s[i]) then DigitEnd(s, i + 1) else i
  }

  function NonSpaceEnd(s: string, i: nat): (j: nat)
    requires i <= |s|
    ensures i <= j <= |s|
    ensures forall k :: i <= k < j ==> !IsSpace(s[k])
    ensures j == |s| || IsSpace(s[j])
    decreases |s| - i
  {
    if i < |s| && !IsSpace(s[i]) then NonSpaceEnd(s, i + 1) else i
  }

  /** The end of the line that contains position i: the next '\n' or the end of s. */
  function LineEnd(s: string, i: nat): (j: nat)
    requires i <= |s|
    ensures i <= j <= |s|
    ensures forall k :: i <= k < j ==> s[k] != '\n'
    ensures j == |s| || s[j] == '\n'
    decreases |s| - i
  {
    if i < |s| && s[i] != '\n' then LineEnd(s, i + 1) else i
  }

  // ----- find / in -----

  predicate StartsAt(s: string, i: int, t: string)
  {
    0 <= i && i + |t| <= |s| && s[i..i + |t|] == t
  }

  /** A case-insensitive literal at position i (`lit` is written in lower case). */
  predicate StartsAtCI(s: string, i: int, lit: string)
  {
    0 <= i && i + |lit| <= |s| && Lower(s[i..i + |lit|]) == lit
  }

  predicate StartsWith(s: string, t: string) { StartsAt(s, 0, t) }

  predicate EndsWith(s: string, t: string) { |t| <= |s| && s[|s| - |t|..] == t }

  /** The first position at or after i where t occurs, or -1. */
  function FindFrom(s: string, t: string, i: nat): (r: int)
    requires i <= |s|
    ensures r == -1 || (i <= r <= |s| && StartsAt(s, r, t))
    ensures forall k :: i <= k && (r == -1 || k < r) ==> !StartsAt(s, k, t)
    decreases |s| - i
  {
    if StartsAt(s, i, t) then i else if i == |s| then -1 else FindFrom(s, t, i + 1)
  }

  /** `str.find`. */
  function Find(s: string, t: string): int
  {
    FindFrom(s, t, 0)
  }

  /** Python's `t in s`. */
  predicate Contains(s: string, t: string)
  {
    Find(s, t) >= 0
  }

  lemma ContainsAt(s: string, t: string, k: int)
    requires StartsAt(s, k, t)
    ensures Contains(s, t)
  {
  }

  /** Where t does not occur, it starts nowhere. */
  lemma AbsentNowhere(s: string, t: string, k: int)
    requires !Contains(s, t)
    ensures !StartsAt(s, k, t)
  {
  }

  lemma ContainsWitness(s: string, t: string) returns (k: nat)
    requires Contains(s, t)
    ensures StartsAt(s, k, t)
  {
    k := Find(s, t);
  }

  lemma ContainsInSlice(s: string, t: string, i: nat, j: nat)
    requires i <= j <= |s|
    requires Contains(s[i..j], t)
    ensures Contains(s, t)
  {
    var k := ContainsWitness(s[i..j], t);
    assert k + |t| <= j - i;
    var inner, outer := s[i..j][k..k + |t|], s[i + k..i + k + |t|];
    forall m | 0 <= m < |t| ensures inner[m] == outer[m] { }
    assert inner == outer;
    ContainsAt(s, t, i + k);
  }

  /** A loop over keywords from index i: does any of ks[i..] occur in s? */
  function ContainsAnyFrom(s: string, ks: seq<string>, i: nat): (r: bool)
    requires i <= |ks|
    ensures r <==> exists k :: i <= k < |ks| && Contains(s, ks[k])
    decreases |ks| - i
  {
    if i == |ks| then false else Contains(s, ks[i]) || ContainsAnyFrom(s, ks, i + 1)
  }

  /** Python's `any(k in s for k in ks)`. */
  predicate ContainsAny(s: string, ks: seq<string>)
  {
    exists k :: 0 <= k < |ks| && Contains(s, ks[k])
  }

  /** Python's truth value of an optional string (an environment variable): set and non-empty. */
  predicate IsSet(key: Option<string>)
  {
    key.Some? && key.value != []
  }

  // ----- split / join -----

  /** `s.split(sep)` for a one-character separator. */
  function SplitOn(s: string, sep: char): (r: seq<string>)
    ensures |r| >= 1
    ensures forall k :: 0 <= k < |r| ==> sep !in r[k]
    decreases |s|
  {
    if |s| == 0 then [""]
    else
      var rest := SplitOn(s[1..], sep);
      if s[0] == sep then [""] + rest else [[s[0]] + rest[0]] + rest[1..]
  }

  /** `sep.join(parts)`. */
  function Join(parts: seq<string>, sep: string): string
    decreases |parts|
  {
    if |parts| == 0 then "" else if |parts| == 1 then parts[0] else parts[0] + sep + Join(parts[1..], sep)
  }

  /** `s[:n]`. */
  function Prefix(s: string, n: nat): (r: string)
    ensures |r| <= n && r <= s
    ensures |s| <= n ==> r == s
  {
    if |s| <= n then s else s[..n]
  }

  /** A text without the separator splits into itself. */
  lemma {:induction false} SplitOnNoSep(a: string, sep: char)
    requires sep !in a
    ensures SplitOn(a, sep) == [a]
    decreases |a|
  {
    if |a| > 0 {
      assert a[0] in a;
      assert forall c :: c in a[1..] ==> c in a;
      SplitOnNoSep(a[1..], sep);
      assert [a[0]] + a[1..] == a;
    }
  }

  /** Splitting stops at the first separator. */
  lemma {:induction false} SplitOnFirst(a: string, b: string, sep: char)
    requires sep !in a
    ensures SplitOn(a + [sep] + b, sep) == [a] + SplitOn(b, sep)
    decreases |a|
  {
    var s := a + [sep] + b;
    if |a| == 0 {
      assert s[1..] == b;
    } else {
      assert a[0] in a;
      assert forall c :: c in a[1..] ==> c in a;
      assert s[1..] == a[1..] + [sep] + b;
      SplitOnFirst(a[1..], b, sep);
      assert [a[0]] + a[1..] == a;
    }
  }

  /** Splitting a join on a separator that no part contains gives the parts back. */
  lemma {:induction false} SplitOnJoin(parts: seq<string>, sep: char)
    requires |parts| >= 1
    requires forall k :: 0 <= k < |parts| ==> sep !in parts[k]
    ensures SplitOn(Join(parts, [sep]), sep) == parts
    decreases |parts|
  {
    if |parts| == 1 {
      SplitOnNoSep(parts[0], sep);
    } else {
      SplitOnFirst(parts[0], Join(parts[1..], [sep]), sep);
      SplitOnJoin(parts[1..], sep);
      assert [parts[0]] + parts[1..] == parts;
    }
  }

  lemma {:induction false} JoinSplitOn(s: string, sep: char)
    ensures Join(SplitOn(s, sep), [sep]) == s
    decreases |s|
  {
    if |s| > 0 {
      var rest := SplitOn(s[1..], sep);
      JoinSplitOn(s[1..], sep);
      if s[0] == sep {
        assert SplitOn(s, sep) == [""] + rest;
        assert ([""] + rest)[1..] == rest;
      } else {
        var r := [[s[0]] + rest[0]] + rest[1..];
        assert SplitOn(s, sep) == r;
        if |rest| == 1 {
          assert Join(r, [sep]) == [s[0]] + rest[0];
        } else {
          assert r[1..] == rest[1..];
          assert Join(rest, [sep]) == rest[0] + [sep] + Join(rest[1..], [sep]);
        }
      }
    }
  }

  /** A non-empty run of non-whitespace characters, one token of `split()`. */
  predicate IsToken(w: string)
  {
    w != [] && forall j :: 0 <= j < |w| ==> !IsSpace(w[j])
  }

  /** `s.split()`: the maximal runs of non-whitespace characters. */
  function SplitWs(s: string): (r: seq<string>)
    ensures forall w :: w in r ==> IsToken(w)
    decreases |s|
  {
    var t := LStrip(s);
    if t == [] then []
    else
      var n := NonSpaceEnd(t, 0);
      var w := t[..n];
      assert IsToken(w);
      [w] + SplitWs(t[n..])
  }

  // ----- replace / count -----

  /** `s.replace(pat, rep)`: leftmost, non-overlapping occurrences. */
  function Replace(s: string, pat: string, rep: string): string
    requires |pat| > 0
    decreases |s|
  {
    if |s| == 0 then ""
    else if StartsAt(s, 0, pat) then rep + Replace(s[|pat|..], pat, rep)
    else [s[0]] + Replace(s[1..], pat, rep)
  }

  /** `s.count(t)`: leftmost, non-overlapping occurrences. */
  function Count(s: string, t: string): nat
    requires |t| > 0
    decreases |s|
  {
    if |s| < |t| then 0
    else if StartsAt(s, 0, t) then 1 + Count(s[|t|..], t)
    else Count(s[1..], t)
  }

  lemma ContainsTail(s: string, t: string)
    requires |s| > 0 && !StartsAt(s, 0, t)
    ensures Contains(s, t) <==> Contains(s[1..], t)
  {
    if Contains(s[1..], t) {
      assert s[1..|s|] == s[1..];
      ContainsInSlice(s, t, 1, |s|);
    }
    if Contains(s, t) {
      var k := ContainsWitness(s, t);
      assert k >= 1;
      assert s[1..][k - 1..k - 1 + |t|] == s[k..k + |t|];
      ContainsAt(s[1..], t, k - 1);
    }
  }

  lemma {:induction false} CountPositiveIffContains(s: string, t: string)
    requires |t| > 0
    ensures Count(s, t) > 0 <==> Contains(s, t)
    decreases |s|
  {
    if |s| < |t| {
      assert Count(s, t) == 0;
      if Contains(s, t) {
        var k := ContainsWitness(s, t);
        assert false;
      }
    } else if StartsAt(s, 0, t) {
      ContainsAt(s, t, 0);
    } else {
      assert Count(s, t) == Count(s[1..], t);
      CountPositiveIffContains(s[1..], t);
      ContainsTail(s, t);
    }
  }

  // ----- decimal numbers -----

  function DigitChar(d: nat): (c: char)
    requires d < 10
    ensures IsDigit(c)
  {
    ('0' as int + d) as char
  }

  function DigitValue(c: char): (d: nat)
    requires IsDigit(c)
    ensures d < 10
  {
    c as int - '0' as int
  }

  /** The value of a string of decimal digits. */
  function ParseDigits(d: string): nat
    requires AllDigits(d)
    decreases |d|
  {
    if |d| == 0 then 0 else ParseDigits(d[..|d| - 1]) * 10 + DigitValue(d[|d| - 1])
  }

  /** `str(n)` for a non-negative n. */
  function NatToString(n: nat): (r: string)
    ensures |r| >= 1 && AllDigits(r)
    ensures IsStripped(r)
  {
    if n < 10 then [DigitChar(n)] else NatToString(n / 10) + [DigitChar(n % 10)]
  }

  lemma {:induction false} ParseNatToString(n: nat)
    ensures ParseDigits(NatToString(n)) == n
  {
    if n >= 10 {
      ParseNatToString(n / 10);
      var r := NatToString(n);
      assert r[..|r| - 1] == NatToString(n / 10);
    }
  }

  /** A digit string with single underscores between digits, as `int()` accepts. */
  predicate WellGrouped(b: string)
  {
    |b| > 0 && IsDigit(b[0]) && IsDigit(b[|b| - 1]) && DigitsOrUnderscores(b)
    && forall k :: 0 < k < |b| - 1 && b[k] == '_' ==> IsDigit(b[k - 1]) && IsDigit(b[k + 1])
  }

  predicate DigitsOrUnderscores(b: string)
  {
    forall k :: 0 <= k < |b| ==> IsDigit(b[k]) || b[k] == '_'
  }

  function DropUnderscores(b: string): (r: string)
    requires DigitsOrUnderscores(b)
    ensures AllDigits(r)
    decreases |b|
  {
    if |b| == 0 then "" else if b[0] == '_' then DropUnderscores(b[1..]) else [b[0]] + DropUnderscores(b[1..])
  }

  function UnsignedInt(b: string): Option<nat>
  {
    if WellGrouped(b) then Some(ParseDigits(DropUnderscores(b))) else None
  }

  /** Python's `int(s)` for a str argument in base 10 (ASCII digits only). */
  function PyInt(s: string): Option<int>
  {
    var t := Strip(s);
    if |t| > 0 && (t[0] == '+' || t[0] == '-') then
      match UnsignedInt(t[1..])
      case Some(v) => Some((if t[0] == '-' then -1 else 1) * v)
      case None => None
    else
      match UnsignedInt(t)
      case Some(v) => Some(v)
      case None => None
  }

  lemma DropUnderscoresOfDigits(b: string)
    requires AllDigits(b)
    ensures DropUnderscores(b) == b
    decreases |b|
  {
    if |b| > 0 {
      DropUnderscoresOfDigits(b[1..]);
    }
  }

  /** `int(str(n)) == n`. */
  lemma PyIntNatToString(n: nat)
    ensures PyInt(NatToString(n)) == Some(n)
  {
    var r := NatToString(n);
    StripOfStripped(r);
    assert Strip(r) == r;
    assert IsDigit(r[0]);
    DropUnderscoresOfDigits(r);
    ParseNatToString(n);
    assert DigitsOrUnderscores(r);
    assert WellGrouped(r);
    assert UnsignedInt(r) == Some(n);
  }
}
