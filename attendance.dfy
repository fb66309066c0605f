/**
 * The pure helpers of the attendance tools: the roll-number expander
 * `expand_roll_spec`, the date normaliser `iso`, and the record-building step
 * of `mark_attendance` over a given roster.
 */
module Attendance {
  import opened Wrappers
  import opened Text

  // ----- expand_roll_spec -----

  /** Why `expand_roll_spec` raises ValueError. */
  datatype RollError =
    | TooManyDashes(token: string)   // `a, b = t.split("-")` with more than one '-'
    | NotAnInteger(token: string)    // `int(...)` refused a part

  const ExceptToken := "|except|"

  /** The tokens: lower-cased, "except" marked, commas as spaces, split on whitespace. */
  function Tokens(spec: string): (r: seq<string>)
    ensures forall i :: 0 <= i < |r| ==> IsToken(r[i])
  {
    var marked := Replace(Lower(spec), "except", ExceptToken);
    var r := SplitWs(Replace(marked, ",", " "));
    assert forall i :: 0 <= i < |r| ==> r[i] in r;
    r
  }

  /** `list(range(a, b))`. */
  function Range(a: int, b: int): (r: seq<int>)
    ensures forall n :: n in r <==> a <= n < b
    decreases b - a
  {
    if b <= a then [] else [a] + Range(a + 1, b)
  }

  /** The numbers one token stands for: a range "a-b" or a single number. */
  function TokenNums(t: string): (r: Result<seq<int>, RollError>)
  {
    if '-' in t then
      var parts := SplitOn(t, '-');
      if |parts| != 2 then Err(TooManyDashes(t))
      else
        match PyInt(parts[0])
        case None => Err(NotAnInteger(t))
        case Some(a) =>
          match PyInt(parts[1])
          case None => Err(NotAnInteger(t))
          case Some(b) => Ok(Range(a, b + 1))
    else
      match PyInt(t)
      case None => Err(NotAnInteger(t))
      case Some(v) => Ok([v])
  }

  /** Token t parses and its numbers include n. */
  predicate Covers(t: string, n: int)
  {
    TokenNums(t).Ok? && n in TokenNums(t).value
  }

  /** The loop state: the include list, the exclude list, and whether "except" was seen. */
  datatype Spec = Spec(includes: seq<int>, excludes: seq<int>, excluding: bool)

  /** One pass of the token loop. */
  function RollStep(acc: Spec, t: string): Result<Spec, RollError>
  {
    if t == ExceptToken then Ok(acc.(excluding := true))
    else
      match TokenNums(t)
      case Err(e) => Err(e)
      case Ok(ns) =>
        if acc.excluding then Ok(acc.(excludes := acc.excludes + ns)) else Ok(acc.(includes := acc.includes + ns))
  }

  /** The token loop over ts; the first bad token stops it. */
  function RollFold(ts: seq<string>): Result<Spec, RollError>
    decreases |ts|
  {
    if ts == [] then Ok(Spec([], [], false))
    else
      match RollFold(ts[..|ts| - 1])
      case Err(e) => Err(e)
      case Ok(acc) => RollStep(acc, ts[|ts| - 1])
  }

  predicate StrictlyIncreasing(s: seq<int>)
  {
    forall i, j :: 0 <= i < j < |s| ==> s[i] < s[j]
  }

  /** Inserts x into a strictly increasing sequence unless it is already there. */
  function InsertUnique(x: int, s: seq<int>): (r: seq<int>)
    requires StrictlyIncreasing(s)
    ensures StrictlyIncreasing(r)
    ensures forall y :: y in r <==> y == x || y in s
    decreases |s|
  {
    if s == [] then [x]
    else if x < s[0] then
      var r := [x] + s;
      assert forall i :: 0 < i < |r| ==> r[i] == s[i - 1];
      r
    else if x == s[0] then s
    else
      var rest := InsertUnique(x, s[1..]);
      InsertAbove(x, s, rest);
      [s[0]] + rest
  }

  /** Putting the head back in front of the insertion into the tail keeps the order. */
  lemma InsertAbove(x: int, s: seq<int>, rest: seq<int>)
    requires s != [] && StrictlyIncreasing(s) && x > s[0]
    requires StrictlyIncreasing(rest) && forall y :: y in rest <==> y == x || y in s[1..]
    ensures StrictlyIncreasing([s[0]] + rest)
    ensures forall y :: y in [s[0]] + rest <==> y == x || y in s
  {
    forall y | y in s[1..] ensures y > s[0] {
      var k :| 0 <= k < |s[1..]| && s[1..][k] == y;
      assert s[k + 1] == y;
    }
    var r := [s[0]] + rest;
    forall i, j | 0 <= i < j < |r| ensures r[i] < r[j] {
      assert r[j] == rest[j - 1] && rest[j - 1] in rest;
      if i > 0 { assert r[i] == rest[i - 1]; }
    }
    assert s == [s[0]] + s[1..];
  }

  /** `sorted(set(xs))`: the distinct elements of xs in increasing order. */
  function SortedUnique(xs: seq<int>): (r: seq<int>)
    ensures StrictlyIncreasing(r)
    ensures forall y :: y in r <==> y in xs
    decreases |xs|
  {
    if xs == [] then []
    else
      var front := xs[..|xs| - 1];
      var r := InsertUnique(xs[|xs| - 1], SortedUnique(front));
      assert xs == front + [xs[|xs| - 1]];
      r
  }

  /** The elements of xs that are not in ys, in order. */
  function Without(xs: seq<int>, ys: seq<int>): (r: seq<int>)
    ensures forall y :: y in r <==> y in xs && y !in ys
    decreases |xs|
  {
    if xs == [] then []
    else
      var rest := Without(xs[1..], ys);
      assert xs == [xs[0]] + xs[1..];
      if xs[0] in ys then rest else [xs[0]] + rest
  }

  /** `sorted(set(include) - set(exclude))`. */
  function RollResult(acc: Spec): (r: seq<int>)
    ensures StrictlyIncreasing(r)
    ensures forall n :: n in r <==> n in acc.includes && n !in acc.excludes
  {
    SortedUnique(Without(acc.includes, acc.excludes))
  }

  /** `expand_roll_spec(spec)`, where `None` is an absent spec. */
  function ExpandRollSpec(spec: Option<string>): Result<seq<int>, RollError>
  {
    var s := if spec.Some? then spec.value else "";
    match RollFold(Tokens(s))
    case Err(e) => Err(e)
    case Ok(acc) => Ok(RollResult(acc))
  }

  /** The token loop of `expand_roll_spec`. */
  method ExpandRolls(spec: Option<string>) returns (r: Result<seq<int>, RollError>)
    ensures r == ExpandRollSpec(spec)
  {
    hide Tokens, TokenNums, RollResult;
    var s := if spec.Some? then spec.value else "";
    var tokens := Tokens(s);
    var includes: seq<int> := [];
    var excludes: seq<int> := [];
    var excluding := false;
    var k := 0;
    while k < |tokens|
      invariant 0 <= k <= |tokens|
      invariant RollFold(tokens[..k]) == Ok(Spec(includes, excludes, excluding))
    {
      var t := tokens[k];
      assert tokens[..k + 1][..k] == tokens[..k];
      if t == ExceptToken {
        excluding := true;
        k := k + 1;
        continue;
      }
      var nums := TokenNums(t);
      if nums.Err? {
        RollFoldErrSticks(tokens, k + 1);
        return Err(nums.error);
      }
      if excluding {
        excludes := excludes + nums.value;
      } else {
        includes := includes + nums.value;
      }
      k := k + 1;
    }
    assert tokens[..k] == tokens;
    r := Ok(RollResult(Spec(includes, excludes, excluding)));
  }

  /** Once the loop has failed it stays failed. */
  lemma {:induction false} RollFoldErrSticks(ts: seq<string>, k: nat)
    requires 0 < k <= |ts| && RollFold(ts[..k]).Err?
    ensures RollFold(ts) == RollFold(ts[..k])
    decreases |ts| - k
  {
    if k < |ts| {
      assert ts[..k + 1][..k] == ts[..k];
      RollFoldErrSticks(ts, k + 1);
    } else {
      assert ts[..k] == ts;
    }
  }

  /** Token i is a number or range on the exclude side (ex) or the include side (!ex) of "except". */
  predicate OnSide(ts: seq<string>, i: nat, ex: bool)
    requires i < |ts|
  {
    ts[i] != ExceptToken && (ExceptToken in ts[..i]) == ex
  }

  /** The numbers the tokens on one side of "except" cover. */
  ghost predicate SideCovers(ts: seq<string>, ex: bool, xs: seq<int>)
  {
    forall n :: n in xs <==> exists i :: 0 <= i < |ts| && OnSide(ts, i, ex) && Covers(ts[i], n)
  }

  /** One token more: the list for its side grows by its numbers, the other list stays. */
  lemma SideStep(ts: seq<string>, ex: bool, xs: seq<int>, ys: seq<int>)
    requires ts != [] && SideCovers(ts[..|ts| - 1], ex, xs)
    requires if OnSide(ts, |ts| - 1, ex) then TokenNums(ts[|ts| - 1]).Ok? && ys == xs + TokenNums(ts[|ts| - 1]).value
             else ys == xs
    ensures SideCovers(ts, ex, ys)
  {
    hide TokenNums;
    var front := ts[..|ts| - 1];
    var last := |ts| - 1;
    forall i | 0 <= i < |front| ensures OnSide(ts, i, ex) == OnSide(front, i, ex) && ts[i] == front[i] {
      assert ts[..i] == front[..i];
    }
    forall n ensures n in ys <==> exists i :: 0 <= i < |ts| && OnSide(ts, i, ex) && Covers(ts[i], n) {
      if n in ys {
        if n in xs {
          var i :| 0 <= i < |front| && OnSide(front, i, ex) && Covers(front[i], n);
          assert OnSide(ts, i, ex) && Covers(ts[i], n);
        } else {
          assert OnSide(ts, last, ex) && Covers(ts[last], n);
        }
      }
      if exists i :: 0 <= i < |ts| && OnSide(ts, i, ex) && Covers(ts[i], n) {
        var i :| 0 <= i < |ts| && OnSide(ts, i, ex) && Covers(ts[i], n);
        if i < |front| {
          assert OnSide(front, i, ex) && Covers(front[i], n);
        }
      }
    }
  }

  /** What one pass does to the two lists and the flag. */
  lemma RollStepSides(prev: Spec, t: string, acc: Spec)
    requires RollStep(prev, t) == Ok(acc)
    ensures acc.excluding == (prev.excluding || t == ExceptToken)
    ensures t != ExceptToken ==> TokenNums(t).Ok?
    ensures acc.includes == if t != ExceptToken && !prev.excluding then prev.includes + TokenNums(t).value else prev.includes
    ensures acc.excludes == if t != ExceptToken && prev.excluding then prev.excludes + TokenNums(t).value else prev.excludes
  {
  }

  /** What the loop collects: the numbers of the tokens before "except", and of those after it. */
  lemma {:induction false} RollFoldContents(ts: seq<string>)
    requires RollFold(ts).Ok?
    ensures var acc := RollFold(ts).value;
      && (acc.excluding <==> ExceptToken in ts)
      && SideCovers(ts, false, acc.includes)
      && SideCovers(ts, true, acc.excludes)
    decreases |ts|
  {
    if ts != [] {
      var front := ts[..|ts| - 1];
      assert RollFold(front).Ok?;
      RollFoldContents(front);
      RollContentsStep(ts, RollFold(front).value, RollFold(ts).value);
    }
  }

  /** One token more keeps the description of the loop state. */
  lemma RollContentsStep(ts: seq<string>, prev: Spec, acc: Spec)
    requires ts != [] && RollStep(prev, ts[|ts| - 1]) == Ok(acc)
    requires prev.excluding <==> ExceptToken in ts[..|ts| - 1]
    requires SideCovers(ts[..|ts| - 1], false, prev.includes) && SideCovers(ts[..|ts| - 1], true, prev.excludes)
    ensures acc.excluding <==> ExceptToken in ts
    ensures SideCovers(ts, false, acc.includes) && SideCovers(ts, true, acc.excludes)
  {
    hide TokenNums, SideCovers, RollStep;
    var front := ts[..|ts| - 1];
    var t := ts[|ts| - 1];
    RollStepSides(prev, t, acc);
    assert ts == front + [t];
    assert ExceptToken in ts <==> ExceptToken in front || t == ExceptToken;
    SideStep(ts, false, prev.includes, acc.includes);
    SideStep(ts, true, prev.excludes, acc.excludes);
  }

  /** The loop fails exactly when some token other than "except" does not parse. */
  lemma {:induction false} RollFoldFails(ts: seq<string>)
    ensures RollFold(ts).Err? <==> exists i :: 0 <= i < |ts| && ts[i] != ExceptToken && TokenNums(ts[i]).Err?
    decreases |ts|
  {
    hide TokenNums;
    if ts != [] {
      var front := ts[..|ts| - 1];
      var t := ts[|ts| - 1];
      RollFoldFails(front);
      assert forall i :: 0 <= i < |front| ==> front[i] == ts[i];
      if RollFold(front).Ok? {
        assert RollFold(ts) == RollStep(RollFold(front).value, t);
        assert RollStep(RollFold(front).value, t).Err? <==> t != ExceptToken && TokenNums(t).Err?;
      }
      if exists i :: 0 <= i < |ts| && ts[i] != ExceptToken && TokenNums(ts[i]).Err? {
        var i :| 0 <= i < |ts| && ts[i] != ExceptToken && TokenNums(ts[i]).Err?;
        if i < |front| {
          assert front[i] != ExceptToken && TokenNums(front[i]).Err?;
        }
      }
    }
  }

  /**
   * A number is in the result iff some token before "except" covers it and no
   * token after "except" does; the result is strictly increasing.
   */
  lemma RollSpecMembers(spec: Option<string>, n: int)
    requires ExpandRollSpec(spec).Ok?
    ensures var ts := Tokens(if spec.Some? then spec.value else "");
      n in ExpandRollSpec(spec).value <==>
        (exists i :: 0 <= i < |ts| && OnSide(ts, i, false) && Covers(ts[i], n))
        && !(exists i :: 0 <= i < |ts| && OnSide(ts, i, true) && Covers(ts[i], n))
    ensures StrictlyIncreasing(ExpandRollSpec(spec).value)
  {
    var ts := Tokens(if spec.Some? then spec.value else "");
    RollFoldContents(ts);
  }

  /** The spec fails iff one of its tokens, other than "except", is not a number or a range. */
  lemma RollSpecFails(spec: Option<string>)
    ensures var ts := Tokens(if spec.Some? then spec.value else "");
      ExpandRollSpec(spec).Err? <==> exists i :: 0 <= i < |ts| && ts[i] != ExceptToken && TokenNums(ts[i]).Err?
  {
    RollFoldFails(Tokens(if spec.Some? then spec.value else ""));
  }

  /** An absent or empty spec gives no numbers. */
  lemma RollSpecEmpty(spec: Option<string>)
    requires spec == None || spec == Some("")
    ensures ExpandRollSpec(spec) == Ok([])
  {
    assert Lower("") == "";
    assert Tokens("") == [];
  }

  /** A token "a-b" covers exactly a..b, and nothing when a > b; a token "n" covers n alone. */
  lemma RangeTokenCovers(a: nat, b: nat, n: int)
    ensures TokenNums(NatToString(a) + "-" + NatToString(b)) == Ok(Range(a, b + 1))
    ensures Covers(NatToString(a) + "-" + NatToString(b), n) <==> a <= n <= b
    ensures TokenNums(NatToString(a)) == Ok([a])
  {
    hide PyInt, Range;
    var x := NatToString(a);
    var y := NatToString(b);
    var t := x + "-" + y;
    forall k | 0 <= k < |x| ensures x[k] != '-' { assert IsDigit(x[k]); }
    forall k | 0 <= k < |y| ensures y[k] != '-' { assert IsDigit(y[k]); }
    assert t[|x|] == '-';
    SplitOnFirst(x, y, '-');
    SplitOnNoSep(x, '-');
    SplitOnNoSep(y, '-');
    assert x + ['-'] + y == t;
    PyIntNatToString(a);
    PyIntNatToString(b);
  }

  /** `replace(",", " ")` turns every comma into a space and nothing else. */
  lemma CommasAsSpaces(s: string)
    ensures |Replace(s, ",", " ")| == |s|
    ensures forall i :: 0 <= i < |s| ==> Replace(s, ",", " ")[i] == if s[i] == ',' then ' ' else s[i]
    decreases |s|
  {
    if |s| > 0 {
      CommasAsSpaces(s[1..]);
      var rest := Replace(s[1..], ",", " ");
      assert s[0..1] == [s[0]];
      assert StartsAt(s, 0, ",") <==> s[0] == ',';
      assert forall i :: 1 <= i < |s| ==> s[1..][i - 1] == s[i];
    }
  }

  // ----- iso -----

  /** `iso` raises ValueError when the day-first form does not have exactly three parts. */
  datatype IsoError = NotThreeParts(s: string)

  /** `iso(s)`: today, the day-first date turned around, or s unchanged. */
  function Iso(s: Option<string>, today: string): (r: Result<string, IsoError>)
    ensures s == None || s == Some("") || (s.Some? && Lower(s.value) == "today") ==> r == Ok(today)
  {
    if s == None || s.value == [] || Lower(s.value) == "today" then Ok(today)
    else
      var parts := SplitOn(s.value, '-');
      if '-' in s.value && |parts[0]| == 2 then
        if |parts| == 3 then Ok(parts[2] + "-" + parts[1] + "-" + parts[0]) else Err(NotThreeParts(s.value))
      else Ok(s.value)
  }

  /** A three-part string whose first part has two characters is turned into year-month-day. */
  lemma IsoDayFirst(dd: string, mm: string, yy: string, today: string)
    requires |dd| == 2 && '-' !in dd && '-' !in mm && '-' !in yy
    ensures Iso(Some(dd + "-" + mm + "-" + yy), today) == Ok(yy + "-" + mm + "-" + dd)
  {
    var s := dd + "-" + mm + "-" + yy;
    SplitOnFirst(mm, yy, '-');
    SplitOnNoSep(yy, '-');
    assert mm + "-" + yy == mm + ['-'] + yy;
    SplitOnFirst(dd, mm + "-" + yy, '-');
    assert s == dd + ['-'] + (mm + "-" + yy);
    assert s[2] == '-';
    assert Lower(s)[2] == '-';
    assert "today"[2] == 'd';
  }

  /** A string without '-' that is not "today" is returned unchanged. */
  lemma IsoPassThrough(s: string, today: string)
    requires s != [] && Lower(s) != "today" && !('-' in s && |SplitOn(s, '-')[0]| == 2)
    ensures Iso(Some(s), today) == Ok(s)
  {
  }

  /** A year-first result is a fixed point: normalising twice is normalising once. */
  lemma IsoIdempotent(dd: string, mm: string, yy: string, today: string)
    requires |dd| == 2 && |yy| != 2 && '-' !in dd && '-' !in mm && '-' !in yy
    ensures Iso(Some(yy + "-" + mm + "-" + dd), today) == Ok(yy + "-" + mm + "-" + dd)
  {
    var s := yy + "-" + mm + "-" + dd;
    assert s == yy + ['-'] + (mm + "-" + dd);
    SplitOnFirst(yy, mm + "-" + dd, '-');
    assert s[|yy|] == '-';
    assert Lower(s)[|yy|] == '-';
    if |yy| < 5 {
      assert "today"[|yy|] != '-';
    } else {
      assert |Lower(s)| > 5;
    }
  }

  // ----- mark_attendance -----

  datatype Student = Student(id: int, roll: int)
  datatype Status = Present | Absent
  datatype Record = Record(session: int, student: int, status: Status)

  /** The number of records with the given status. */
  function CountStatus(rs: seq<Record>, st: Status): (n: nat)
    ensures n <= |rs|
    decreases |rs|
  {
    if rs == [] then 0 else CountStatus(rs[..|rs| - 1], st) + (if rs[|rs| - 1].status == st then 1 else 0)
  }

  /** The number of roster students whose roll is in the set. */
  function PresentCount(students: seq<Student>, rolls: set<int>): nat
    decreases |students|
  {
    if students == [] then 0
    else PresentCount(students[..|students| - 1], rolls) + (if students[|students| - 1].roll in rolls then 1 else 0)
  }

  /** The record of one student. */
  function RecordFor(session: int, s: Student, rolls: set<int>): Record
  {
    Record(session, s.id, if s.roll in rolls then Present else Absent)
  }

  /**
   * The record loop and the count of `mark_attendance` for session `session`,
   * the roster `students` and the present rolls: one record per student, and
   * the present and total counts.
   */
  method MarkAttendance(session: int, students: seq<Student>, rolls: set<int>)
    returns (records: seq<Record>, present: nat, total: nat)
    ensures |records| == |students|
    ensures forall i :: 0 <= i < |students| ==> records[i] == RecordFor(session, students[i], rolls)
    ensures present == PresentCount(students, rolls) == CountStatus(records, Present)
    ensures present <= total == |students|
    ensures CountStatus(records, Present) + CountStatus(records, Absent) == total
  {
    records := [];
    var k := 0;
    while k < |students|
      invariant 0 <= k <= |students| && |records| == k
      invariant forall i :: 0 <= i < k ==> records[i] == RecordFor(session, students[i], rolls)
      invariant CountStatus(records, Present) == PresentCount(students[..k], rolls)
      invariant CountStatus(records, Present) + CountStatus(records, Absent) == k
    {
      var s := students[k];
      var status := if s.roll in rolls then Present else Absent;
      assert students[..k + 1][..k] == students[..k];
      assert (records + [Record(session, s.id, status)])[..k] == records;
      records := records + [Record(session, s.id, status)];
      k := k + 1;
    }
    assert students[..k] == students;
    present := CountPresent(students, rolls);
    total := |students|;
  }

  /** `sum(1 for s in students if s.roll_no in rolls)`. */
  method CountPresent(students: seq<Student>, rolls: set<int>) returns (present: nat)
    ensures present == PresentCount(students, rolls)
  {
    present := 0;
    var j := 0;
    while j < |students|
      invariant 0 <= j <= |students|
      invariant present == PresentCount(students[..j], rolls)
    {
      assert students[..j + 1][..j] == students[..j];
      if students[j].roll in rolls {
        present := present + 1;
      }
      j := j + 1;
    }
    assert students[..j] == students;
  }
}
