/** `OrderByDescending(key)` and `OrderByDescending(key).Take(k)`, the shape of
    every "newest first" listing in the services. The database breaks ties in no
    promised order; this insertion sort breaks them one fixed way, and every
    lemma below holds whichever way ties are broken. */
module Sorting {

  ghost predicate SortedDesc<T>(s: seq<T>, key: T -> int) {
    forall i, j :: 0 <= i < j < |s| ==> key(s[i]) >= key(s[j])
  }

  /** A contiguous part of a sorted list is sorted. */
  lemma SliceSorted<T>(s: seq<T>, lo: int, hi: int, key: T -> int)
    requires 0 <= lo <= hi <= |s| && SortedDesc(s, key)
    ensures SortedDesc(s[lo..hi], key)
  {
    var r := s[lo..hi];
    forall i, j | 0 <= i < j < |r| ensures key(r[i]) >= key(r[j]) {
      assert r[i] == s[lo + i] && r[j] == s[lo + j];
    }
  }

  lemma ConsSorted<T>(h: T, t: seq<T>, key: T -> int)
    requires SortedDesc(t, key)
    requires forall y :: y in t ==> key(y) <= key(h)
    ensures SortedDesc([h] + t, key)
  {
    var s := [h] + t;
    forall i, j | 0 <= i < j < |s| ensures key(s[i]) >= key(s[j]) {
      if i > 0 {
        assert s[i] == t[i - 1] && s[j] == t[j - 1];
      } else {
        assert s[j] == t[j - 1] && t[j - 1] in t;
      }
    }
  }

  lemma InMultiset<T>(y: T, a: seq<T>, b: seq<T>, x: T)
    requires multiset(a) == multiset(b) + multiset{x}
    requires y in a
    ensures y == x || y in b
  {
    assert y in multiset(a);
  }

  function InsertDesc<T>(x: T, s: seq<T>, key: T -> int): (r: seq<T>)
    requires SortedDesc(s, key)
    ensures multiset(r) == multiset(s) + multiset{x}
    ensures SortedDesc(r, key)
  {
    if s == [] then [x]
    else if key(x) >= key(s[0]) then
      ConsSorted(x, s, key);
      [x] + s
    else
      var tail := InsertDesc(x, s[1..], key);
      assert s == [s[0]] + s[1..];
      forall y | y in tail ensures key(y) <= key(s[0]) {
        InMultiset(y, tail, s[1..], x);
      }
      ConsSorted(s[0], tail, key);
      [s[0]] + tail
  }

  /** The rows ordered by `key`, largest first. */
  function SortDesc<T>(s: seq<T>, key: T -> int): (r: seq<T>)
    ensures multiset(r) == multiset(s)
    ensures |r| == |s|
    ensures SortedDesc(r, key)
  {
    if s == [] then []
    else
      assert s == [s[0]] + s[1..];
      var r := InsertDesc(s[0], SortDesc(s[1..], key), key);
      assert |r| == |multiset(r)| == |multiset(s)| == |s|;
      r
  }

  lemma TopOmitted<T>(sorted: seq<T>, r: seq<T>, key: T -> int, x: T, y: T)
    requires SortedDesc(sorted, key)
    requires |r| <= |sorted| && r == sorted[..|r|]
    requires x in sorted && x !in r && y in r
    ensures key(y) >= key(x)
  {
    var j :| 0 <= j < |sorted| && sorted[j] == x;
    var i :| 0 <= i < |r| && r[i] == y;
    assert sorted[i] == y;
  }

  /** The `k` rows with the largest `key` (`OrderByDescending(key).Take(k)`):
      at most `k` of the rows, largest first, and no row left out has a larger
      key than a row kept. */
  function TopByKey<T>(s: seq<T>, key: T -> int, k: nat): (r: seq<T>)
    ensures |r| == if |s| < k then |s| else k
    ensures multiset(r) <= multiset(s)
    ensures SortedDesc(r, key)
    ensures forall x, y :: x in s && x !in r && y in r ==> key(y) >= key(x)
  {
    var sorted := SortDesc(s, key);
    var r := if |sorted| <= k then sorted else sorted[..k];
    assert sorted == r + sorted[|r|..];
    assert multiset(sorted) == multiset(r) + multiset(sorted[|r|..]);
    forall x, y | x in s && x !in r && y in r ensures key(y) >= key(x) {
      assert x in multiset(sorted);
      TopOmitted(sorted, r, key, x, y);
    }
    r
  }

  /** `before` orders every pair one way or the other (ties allowed both ways). */
  ghost predicate Total<T(!new)>(before: (T, T) -> bool) {
    forall a, b :: before(a, b) || before(b, a)
  }

  /** Each row is ordered before its successor. */
  ghost predicate SortedBy<T>(s: seq<T>, before: (T, T) -> bool) {
    forall i :: 0 < i < |s| ==> before(s[i - 1], s[i])
  }

  function InsertBy<T(!new)>(x: T, s: seq<T>, before: (T, T) -> bool): (r: seq<T>)
    requires Total(before) && SortedBy(s, before)
    ensures multiset(r) == multiset(s) + multiset{x}
    ensures |r| == |s| + 1
    ensures SortedBy(r, before)
    ensures r[0] == x || (|s| > 0 && r[0] == s[0])
  {
    if s == [] || before(x, s[0]) then [x] + s
    else
      var tail := InsertBy(x, s[1..], before);
      assert s == [s[0]] + s[1..];
      assert before(s[0], tail[0]);
      [s[0]] + tail
  }

  /** The rows in the order `before` gives (`OrderBy(..).ThenBy(..)`). */
  function SortBy<T(!new)>(s: seq<T>, before: (T, T) -> bool): (r: seq<T>)
    requires Total(before)
    ensures multiset(r) == multiset(s)
    ensures |r| == |s|
    ensures SortedBy(r, before)
  {
    if s == [] then []
    else
      assert s == [s[0]] + s[1..];
      InsertBy(s[0], SortBy(s[1..], before), before)
  }

  ghost predicate Transitive<T(!new)>(before: (T, T) -> bool) {
    forall a, b, c :: before(a, b) && before(b, c) ==> before(a, c)
  }

  /** Under a transitive order, neighbours in order means every pair in order. */
  lemma {:induction false} SortedByAll<T(!new)>(s: seq<T>, before: (T, T) -> bool)
    requires Transitive(before) && SortedBy(s, before)
    ensures forall i, j :: 0 <= i < j < |s| ==> before(s[i], s[j])
  {
    if |s| > 1 {
      var init := s[..|s| - 1];
      assert SortedBy(init, before) by {
        forall i | 0 < i < |init| ensures before(init[i - 1], init[i]) {
          assert init[i - 1] == s[i - 1] && init[i] == s[i];
        }
      }
      SortedByAll(init, before);
      forall i, j | 0 <= i < j < |s| ensures before(s[i], s[j]) {
        if j < |s| - 1 {
          assert s[i] == init[i] && s[j] == init[j];
        } else if i < j - 1 {
          assert before(init[i], init[j - 1]);
        }
      }
    }
  }
}
