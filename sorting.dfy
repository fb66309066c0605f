/**
 * Python's stable `list.sort(key=...)` with an integer key, and the
 * `seen`-set loop that keeps the first element of every key.
 */
module Sorting {
  import opened Wrappers

  predicate SortedBy<T>(s: seq<T>, key: T -> int)
  {
    forall i, j :: 0 <= i < j < |s| ==> key(s[i]) <= key(s[j])
  }

  predicate StrictlyIncreasingBy<T>(s: seq<T>, key: T -> int)
  {
    forall i, j :: 0 <= i < j < |s| ==> key(s[i]) < key(s[j])
  }

  /** The keys that occur in s. */
  function Keys<T>(s: seq<T>, key: T -> int): set<int>
  {
    set i | 0 <= i < |s| :: key(s[i])
  }

  /** Inserts x before the first element whose key is not smaller, so x precedes its equals. */
  function InsertBy<T>(x: T, s: seq<T>, key: T -> int): (r: seq<T>)
    ensures multiset(r) == multiset(s) + multiset{x}
    ensures forall y :: y in r ==> y == x || y in s
    ensures r[0] == x || (s != [] && r[0] == s[0])
    ensures SortedBy(s, key) ==> SortedBy(r, key)
  {
    if s == [] || key(x) <= key(s[0]) then
      assert SortedBy(s, key) ==> SortedBy([x] + s, key) by {
        if SortedBy(s, key) { ConsSorted(x, s, key); }
      }
      [x] + s
    else
      assert s == [s[0]] + s[1..];
      var rest := InsertBy(x, s[1..], key);
      assert SortedBy(s, key) ==> SortedBy([s[0]] + rest, key) by {
        if SortedBy(s, key) {
          assert SortedBy(s[1..], key);
          ConsSorted(s[0], rest, key);
        }
      }
      assert multiset([s[0]] + rest) == multiset{s[0]} + multiset(rest);
      [s[0]] + rest
  }

  /** Putting an element in front of a sorted sequence keeps it sorted when its key is not larger than the head's. */
  lemma ConsSorted<T>(a: T, t: seq<T>, key: T -> int)
    requires SortedBy(t, key)
    requires t != [] ==> key(a) <= key(t[0])
    ensures SortedBy([a] + t, key)
  {
    forall i, j | 0 <= i < j < |[a] + t| ensures key(([a] + t)[i]) <= key(([a] + t)[j]) {
      if i == 0 && j > 1 {
        assert key(t[0]) <= key(t[j - 1]);
      }
    }
  }

  /** `sorted(s, key=key)`: insertion sort from the back, which is stable. */
  function SortBy<T>(s: seq<T>, key: T -> int): (r: seq<T>)
    ensures SortedBy(r, key)
    ensures multiset(r) == multiset(s)
  {
    if s == [] then []
    else
      var rest := SortBy(s[1..], key);
      assert s == [s[0]] + s[1..];
      InsertBy(s[0], rest, key)
  }

  /** The first element of s with key k. */
  function FirstWithKey<T>(s: seq<T>, key: T -> int, k: int): Option<T>
  {
    if s == [] then None else if key(s[0]) == k then Some(s[0]) else FirstWithKey(s[1..], key, k)
  }

  lemma {:induction false} InsertKeepsFirst<T>(x: T, s: seq<T>, key: T -> int, k: int)
    ensures FirstWithKey(InsertBy(x, s, key), key, k) == if key(x) == k then Some(x) else FirstWithKey(s, key, k)
  {
    if s == [] || key(x) <= key(s[0]) {
      assert ([x] + s)[1..] == s;
      if key(x) != k && s != [] && key(s[0]) != k {
        assert InsertBy(x, s, key)[1..] == s;
      }
    } else {
      var r := [s[0]] + InsertBy(x, s[1..], key);
      assert r[1..] == InsertBy(x, s[1..], key);
      InsertKeepsFirst(x, s[1..], key, k);
    }
  }

  /** Stability as the parsers rely on it: sorting does not change which element is first for a key. */
  lemma {:induction false} SortKeepsFirst<T>(s: seq<T>, key: T -> int, k: int)
    ensures FirstWithKey(SortBy(s, key), key, k) == FirstWithKey(s, key, k)
  {
    if s != [] {
      SortKeepsFirst(s[1..], key, k);
      InsertKeepsFirst(s[0], SortBy(s[1..], key), key, k);
    }
  }

  lemma {:induction false} FirstWithKeyAt<T>(s: seq<T>, key: T -> int, i: nat)
    requires i < |s|
    requires forall m :: 0 <= m < i ==> key(s[m]) != key(s[i])
    ensures FirstWithKey(s, key, key(s[i])) == Some(s[i])
  {
    if i > 0 {
      FirstWithKeyAt(s[1..], key, i - 1);
    }
  }

  lemma {:induction false} FirstWithKeyIsElement<T>(s: seq<T>, key: T -> int, k: int)
    ensures FirstWithKey(s, key, k).Some? ==> FirstWithKey(s, key, k).value in s && key(FirstWithKey(s, key, k).value) == k
    ensures FirstWithKey(s, key, k).None? <==> k !in Keys(s, key)
  {
    if s != [] {
      FirstWithKeyIsElement(s[1..], key, k);
      assert Keys(s, key) == {key(s[0])} + Keys(s[1..], key) by {
        forall y | y in Keys(s, key) ensures y in {key(s[0])} + Keys(s[1..], key) {
          var i :| 0 <= i < |s| && key(s[i]) == y;
          if i > 0 { assert key(s[1..][i - 1]) == y; }
        }
        forall y | y in Keys(s[1..], key) ensures y in Keys(s, key) {
          var i :| 0 <= i < |s[1..]| && key(s[1..][i]) == y;
          assert key(s[i + 1]) == y;
        }
      }
    }
  }

  lemma KeysSnoc<T>(s: seq<T>, x: T, key: T -> int)
    ensures Keys(s + [x], key) == Keys(s, key) + {key(x)}
  {
    var t := s + [x];
    forall y | y in Keys(t, key) ensures y in Keys(s, key) + {key(x)} {
      var i :| 0 <= i < |t| && key(t[i]) == y;
      if i < |s| { assert key(s[i]) == y; }
    }
    forall y | y in Keys(s, key) ensures y in Keys(t, key) {
      var i :| 0 <= i < |s| && key(s[i]) == y;
      assert key(t[i]) == y;
    }
    assert key(t[|s|]) == key(x);
  }

  /**
   * The dedupe loop of the parsers: walks s once, remembering the keys seen so
   * far, and keeps an element only when its key is new.
   */
  method DedupeByKey<T(==)>(s: seq<T>, key: T -> int) returns (u: seq<T>)
    ensures forall e :: e in u ==> FirstWithKey(s, key, key(e)) == Some(e)
    ensures Keys(u, key) == Keys(s, key)
    ensures forall a, b :: 0 <= a < b < |u| ==> key(u[a]) != key(u[b])
    ensures SortedBy(s, key) ==> StrictlyIncreasingBy(u, key)
  {
    hide FirstWithKey;
    var seen: set<int> := {};
    u := [];
    var i := 0;
    while i < |s|
      invariant 0 <= i <= |s|
      invariant seen == Keys(u, key) == Keys(s[..i], key)
      invariant forall e :: e in u ==> FirstWithKey(s, key, key(e)) == Some(e)
      invariant forall a, b :: 0 <= a < b < |u| ==> key(u[a]) != key(u[b])
      invariant forall e :: e in u ==> e in s[..i]
      invariant SortedBy(s, key) ==> StrictlyIncreasingBy(u, key)
    {
      KeysSnoc(s[..i], s[i], key);
      assert s[..i + 1] == s[..i] + [s[i]];
      if key(s[i]) !in seen {
        forall m | 0 <= m < i ensures key(s[m]) != key(s[i]) {
          assert key(s[..i][m]) in Keys(s[..i], key);
        }
        FirstWithKeyAt(s, key, i);
        KeysSnoc(u, s[i], key);
        if SortedBy(s, key) {
          forall a | 0 <= a < |u| ensures key(u[a]) < key(s[i]) {
            assert u[a] in s[..i];
            var m :| 0 <= m < i && s[m] == u[a];
            assert key(u[a]) in seen;
          }
        }
        u := u + [s[i]];
        seen := seen + {key(s[i])};
      }
      i := i + 1;
    }
    assert s[..|s|] == s;
  }

  lemma {:induction false} StrictlyIncreasingLowerBound<T>(u: seq<T>, key: T -> int, i: nat)
    requires StrictlyIncreasingBy(u, key)
    requires i < |u|
    ensures key(u[i]) >= key(u[0]) + i
  {
    if i > 0 {
      StrictlyIncreasingLowerBound(u, key, i - 1);
    }
  }

  lemma {:induction false} StrictlyIncreasingUpperBound<T>(u: seq<T>, key: T -> int, i: nat)
    requires StrictlyIncreasingBy(u, key)
    requires i < |u|
    ensures key(u[i]) + (|u| - 1 - i) <= key(u[|u| - 1])
    decreases |u| - i
  {
    if i < |u| - 1 {
      StrictlyIncreasingUpperBound(u, key, i + 1);
    }
  }

  /**
   * Pigeonhole: strictly increasing keys drawn from 1..n, at least n of them,
   * are exactly 1, 2, ..., n.
   */
  lemma ExactlyOneToN<T>(u: seq<T>, key: T -> int, n: int)
    requires StrictlyIncreasingBy(u, key)
    requires forall i :: 0 <= i < |u| ==> 1 <= key(u[i]) <= n
    requires 0 <= n <= |u|
    ensures |u| == n
    ensures forall i :: 0 <= i < |u| ==> key(u[i]) == i + 1
  {
    if |u| > 0 {
      StrictlyIncreasingLowerBound(u, key, |u| - 1);
      forall i | 0 <= i < |u| ensures key(u[i]) == i + 1 {
        StrictlyIncreasingLowerBound(u, key, i);
        StrictlyIncreasingUpperBound(u, key, i);
      }
    }
  }

  /** Sorting keeps the set of keys. */
  lemma SortKeepsKeys<T>(s: seq<T>, key: T -> int)
    ensures Keys(SortBy(s, key), key) == Keys(s, key)
  {
    var r := SortBy(s, key);
    forall y | y in Keys(s, key) ensures y in Keys(r, key) {
      var i :| 0 <= i < |s| && key(s[i]) == y;
      assert s[i] in multiset(r);
      var j :| 0 <= j < |r| && r[j] == s[i];
    }
    forall y | y in Keys(r, key) ensures y in Keys(s, key) {
      var j :| 0 <= j < |r| && key(r[j]) == y;
      assert r[j] in multiset(s);
      var i :| 0 <= i < |s| && s[i] == r[j];
    }
  }

  /** `max(key(e) for e in s)`. */
  function MaxKey<T>(s: seq<T>, key: T -> int): (m: int)
    requires |s| > 0
    ensures m in Keys(s, key)
    ensures forall i :: 0 <= i < |s| ==> key(s[i]) <= m
  {
    if |s| == 1 then key(s[0])
    else
      var r := MaxKey(s[1..], key);
      assert forall i :: 1 <= i < |s| ==> key(s[i]) == key(s[1..][i - 1]);
      var j :| 0 <= j < |s[1..]| && key(s[1..][j]) == r;
      assert key(s[j + 1]) == r;
      if key(s[0]) >= r then key(s[0]) else r
  }

  /** The maximum depends only on the set of keys. */
  lemma MaxKeyOfSameKeys<T>(a: seq<T>, b: seq<T>, key: T -> int)
    requires |a| > 0 && |b| > 0 && Keys(a, key) == Keys(b, key)
    ensures MaxKey(a, key) == MaxKey(b, key)
  {
    var ma, mb := MaxKey(a, key), MaxKey(b, key);
    var i :| 0 <= i < |b| && key(b[i]) == ma;
    var j :| 0 <= j < |a| && key(a[j]) == mb;
  }

  /** With pairwise distinct keys there are as many keys as elements. */
  lemma {:induction false} DistinctKeysCount<T>(u: seq<T>, key: T -> int)
    requires forall a, b :: 0 <= a < b < |u| ==> key(u[a]) != key(u[b])
    ensures |Keys(u, key)| == |u|
  {
    if |u| > 0 {
      var v := u[..|u| - 1];
      assert u == v + [u[|u| - 1]];
      DistinctKeysCount(v, key);
      KeysSnoc(v, u[|u| - 1], key);
      assert key(u[|u| - 1]) !in Keys(v, key);
    }
  }

  /** There are never more keys than elements. */
  lemma {:induction false} KeysAtMost<T>(s: seq<T>, key: T -> int)
    ensures |Keys(s, key)| <= |s|
  {
    if |s| > 0 {
      var v := s[..|s| - 1];
      assert s == v + [s[|s| - 1]];
      KeysAtMost(v, key);
      KeysSnoc(v, s[|s| - 1], key);
    }
  }

  /** A sorted sequence with as many keys as elements is strictly increasing. */
  lemma {:induction false} SortedDistinctKeys<T>(s: seq<T>, key: T -> int)
    requires SortedBy(s, key) && |Keys(s, key)| == |s|
    ensures StrictlyIncreasingBy(s, key)
  {
    if |s| > 1 {
      var v := s[..|s| - 1];
      var x := s[|s| - 1];
      assert s == v + [x];
      KeysSnoc(v, x, key);
      KeysAtMost(v, key);
      assert key(x) !in Keys(v, key);
      assert |Keys(v, key)| == |v|;
      assert SortedBy(v, key);
      SortedDistinctKeys(v, key);
      forall i, j | 0 <= i < j < |s| ensures key(s[i]) < key(s[j]) {
        if j < |v| {
          assert s[i] == v[i] && s[j] == v[j];
        } else {
          assert key(v[i]) in Keys(v, key);
        }
      }
    }
  }
}
