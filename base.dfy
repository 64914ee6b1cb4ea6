/** Shared vocabulary: optional values, identifiers, time, and the LINQ-style
    queries (Count, Where, FirstOrDefault, Max) the services run over tables. */
module Base {

  /** A nullable value (`Guid?`, `DateTimeOffset?`, a reference that may be null). */
  datatype Option<T> = None | Some(value: T)

  /** The outcome of an operation that either returns a value or throws
      (an `InvalidOperationException` or `KeyNotFoundException` in the source). */
  datatype Result<T, E> = Success(value: T) | Failure(error: E)

  /** Keys of rows (GUIDs in the source). */
  type Id = nat

  /** Instants, in whole minutes. */
  type Time = int

  function Max(a: int, b: int): int { if a >= b then a else b }

  function Min(a: int, b: int): int { if a <= b then a else b }
}

/** Queries over a table held as a sequence, in table order. */
module Seqs {
  import opened Base

  /** Number of rows satisfying `p` (LINQ `Count(p)`); counted from the back so
      that appending a row is one step. */
  function Count<T>(s: seq<T>, p: T -> bool): (n: nat)
    ensures n <= |s|
  {
    if |s| == 0 then 0 else Count(s[..|s| - 1], p) + (if p(s[|s| - 1]) then 1 else 0)
  }

  /** Rows satisfying `p`, in table order (LINQ `Where(p)`). */
  function Filter<T>(s: seq<T>, p: T -> bool): (r: seq<T>)
    ensures |r| == Count(s, p)
    ensures forall x :: x in r ==> x in s && p(x)
    ensures multiset(r) <= multiset(s)
  {
    if |s| == 0 then []
    else
      var init := s[..|s| - 1];
      assert s == init + [s[|s| - 1]];
      Filter(init, p) + (if p(s[|s| - 1]) then [s[|s| - 1]] else [])
  }

  /** Index of the first row satisfying `p` (LINQ `FirstOrDefault(p)` without ordering). */
  function FirstIndex<T>(s: seq<T>, p: T -> bool): (r: Option<nat>)
    ensures r.Some? ==> r.value < |s| && p(s[r.value])
    ensures r.Some? ==> forall j :: 0 <= j < r.value ==> !p(s[j])
    ensures r.None? <==> forall j :: 0 <= j < |s| ==> !p(s[j])
  {
    if |s| == 0 then None
    else if p(s[0]) then Some(0)
    else match FirstIndex(s[1..], p)
      case None => None
      case Some(k) => Some(k + 1)
  }

  /** Index of the row satisfying `p` with the smallest `key`, the first such
      in table order (LINQ `Where(p).OrderBy(key).FirstOrDefault()`). */
  function ArgMinWhere<T>(s: seq<T>, p: T -> bool, key: T -> int): (r: Option<nat>)
    ensures r.None? <==> forall j :: 0 <= j < |s| ==> !p(s[j])
    ensures r.Some? ==> r.value < |s| && p(s[r.value])
    ensures r.Some? ==> forall j :: 0 <= j < |s| && p(s[j]) ==> key(s[r.value]) <= key(s[j])
  {
    if |s| == 0 then None
    else
      var rest := ArgMinWhere(s[1..], p, key);
      if !p(s[0]) then (if rest.None? then None else Some(rest.value + 1))
      else if rest.Some? && key(s[rest.value + 1]) < key(s[0]) then Some(rest.value + 1)
      else Some(0)
  }

  /** Largest `key` among the rows satisfying `p`, or None when there is none
      (LINQ `Where(p).OrderByDescending(key).FirstOrDefault()?.key`). */
  function MaxKeyWhere<T>(s: seq<T>, p: T -> bool, key: T -> int): (r: Option<int>)
    ensures r.None? <==> forall j :: 0 <= j < |s| ==> !p(s[j])
    ensures r.Some? ==> exists j :: 0 <= j < |s| && p(s[j]) && key(s[j]) == r.value
    ensures r.Some? ==> forall j :: 0 <= j < |s| && p(s[j]) ==> key(s[j]) <= r.value
  {
    if |s| == 0 then None
    else
      var rest := MaxKeyWhere(s[1..], p, key);
      assert forall j :: 0 <= j < |s[1..]| ==> s[1..][j] == s[j + 1];
      if !p(s[0]) || (rest.Some? && key(s[0]) < rest.value) then rest
      else Some(key(s[0]))
  }

  /** The table without row `i` (EF `Remove` of that row). */
  function RemoveAt<T>(s: seq<T>, i: nat): (r: seq<T>)
    requires i < |s|
    ensures |r| == |s| - 1
    ensures forall j :: 0 <= j < i ==> r[j] == s[j]
    ensures forall j :: i <= j < |r| ==> r[j] == s[j + 1]
    ensures multiset(r) + multiset{s[i]} == multiset(s)
  {
    assert s == s[..i] + [s[i]] + s[i + 1..];
    s[..i] + s[i + 1..]
  }

  /** Largest of a sequence of numbers, or None when it is empty (LINQ
      `OrderByDescending(k).Select(k).FirstOrDefault()`). */
  function MaxOf(s: seq<int>): (r: Option<int>)
    ensures r.None? <==> |s| == 0
    ensures r.Some? ==> r.value in s && forall i :: 0 <= i < |s| ==> s[i] <= r.value
  {
    if |s| == 0 then None
    else match MaxOf(s[1..])
      case None => Some(s[0])
      case Some(m) => Some(Max(s[0], m))
  }

  lemma CountSnoc<T>(s: seq<T>, x: T, p: T -> bool)
    ensures Count(s + [x], p) == Count(s, p) + (if p(x) then 1 else 0)
  {
    assert (s + [x])[..|s|] == s;
  }

  lemma FilterSnoc<T>(s: seq<T>, x: T, p: T -> bool)
    ensures Filter(s + [x], p) == Filter(s, p) + (if p(x) then [x] else [])
  {
    assert (s + [x])[..|s|] == s;
  }

  /** Counting over a concatenation adds the counts. */
  lemma {:induction false} CountConcat<T>(s: seq<T>, t: seq<T>, p: T -> bool)
    ensures Count(s + t, p) == Count(s, p) + Count(t, p)
    decreases |t|
  {
    if |t| == 0 {
      assert s + t == s;
    } else {
      var init := t[..|t| - 1];
      assert t == init + [t[|t| - 1]];
      assert s + t == (s + init) + [t[|t| - 1]];
      CountSnoc(s + init, t[|t| - 1], p);
      CountSnoc(init, t[|t| - 1], p);
      CountConcat(s, init, p);
    }
  }

  /** Replacing one row changes the count by what the old and the new row contribute. */
  lemma {:induction false} CountUpdate<T>(s: seq<T>, i: nat, x: T, p: T -> bool)
    requires i < |s|
    ensures Count(s[i := x], p) == Count(s, p) - (if p(s[i]) then 1 else 0) + (if p(x) then 1 else 0)
  {
    assert s == s[..i] + [s[i]] + s[i + 1..];
    assert s[i := x] == s[..i] + [x] + s[i + 1..];
    CountConcat(s[..i] + [s[i]], s[i + 1..], p);
    CountConcat(s[..i] + [x], s[i + 1..], p);
    CountSnoc(s[..i], s[i], p);
    CountSnoc(s[..i], x, p);
  }

  /** No row satisfies `p` exactly when the count is zero. */
  lemma {:induction false} CountZero<T>(s: seq<T>, p: T -> bool)
    ensures Count(s, p) == 0 <==> forall j :: 0 <= j < |s| ==> !p(s[j])
  {
    if |s| > 0 {
      var init := s[..|s| - 1];
      CountZero(init, p);
      assert forall j :: 0 <= j < |init| ==> init[j] == s[j];
    }
  }

  /** Two predicates that agree on every row count the same rows. */
  lemma {:induction false} CountSame<T>(s: seq<T>, p: T -> bool, q: T -> bool)
    requires forall j :: 0 <= j < |s| ==> (p(s[j]) <==> q(s[j]))
    ensures Count(s, p) == Count(s, q)
  {
    if |s| > 0 {
      var init := s[..|s| - 1];
      assert forall j :: 0 <= j < |init| ==> init[j] == s[j];
      CountSame(init, p, q);
    }
  }

  /** Every row satisfying `p` is kept by Filter. */
  lemma {:induction false} FilterKeeps<T>(s: seq<T>, p: T -> bool, x: T)
    requires x in s && p(x)
    ensures x in Filter(s, p)
  {
    var init := s[..|s| - 1];
    assert s == init + [s[|s| - 1]];
    if x != s[|s| - 1] {
      FilterKeeps(init, p, x);
    }
  }

  /** A row that satisfies `p` and whose key bounds every such row's key is the maximum. */
  lemma MaxKeyAt<T>(s: seq<T>, p: T -> bool, key: T -> int, j: nat)
    requires j < |s| && p(s[j])
    requires forall i :: 0 <= i < |s| && p(s[i]) ==> key(s[i]) <= key(s[j])
    ensures MaxKeyWhere(s, p, key) == Some(key(s[j]))
  {
    var r := MaxKeyWhere(s, p, key);
    assert r.Some? && key(s[j]) <= r.value;
    var k :| 0 <= k < |s| && p(s[k]) && key(s[k]) == r.value;
    assert key(s[k]) <= key(s[j]);
  }

  /** When every row satisfies `p`, all of them are counted. */
  lemma {:induction false} CountAll<T>(s: seq<T>, p: T -> bool)
    requires forall j :: 0 <= j < |s| ==> p(s[j])
    ensures Count(s, p) == |s|
  {
    if |s| > 0 {
      var init := s[..|s| - 1];
      assert forall j :: 0 <= j < |init| ==> init[j] == s[j];
      CountAll(init, p);
    }
  }

  /** A predicate and its negation split the rows. */
  lemma {:induction false} CountComplement<T>(s: seq<T>, p: T -> bool, q: T -> bool)
    requires forall j :: 0 <= j < |s| ==> (p(s[j]) <==> !q(s[j]))
    ensures Count(s, p) + Count(s, q) == |s|
  {
    if |s| > 0 {
      var init := s[..|s| - 1];
      assert forall j :: 0 <= j < |init| ==> init[j] == s[j];
      CountComplement(init, p, q);
    }
  }

  /** Removing a row changes the count by what that row contributed. */
  lemma {:induction false} CountSplit<T>(s: seq<T>, p: T -> bool, q: T -> bool, r: T -> bool)
    requires forall j :: 0 <= j < |s| ==> (p(s[j]) <==> q(s[j]) || r(s[j])) && !(q(s[j]) && r(s[j]))
    ensures Count(s, p) == Count(s, q) + Count(s, r)
  {
    if |s| > 0 {
      var init := s[..|s| - 1];
      assert forall j :: 0 <= j < |init| ==> init[j] == s[j];
      CountSplit(init, p, q, r);
    }
  }

  lemma {:induction false} CountMono<T>(s: seq<T>, p: T -> bool, q: T -> bool)
    requires forall j :: 0 <= j < |s| ==> p(s[j]) ==> q(s[j])
    ensures Count(s, p) <= Count(s, q)
  {
    if |s| > 0 {
      var init := s[..|s| - 1];
      assert forall j :: 0 <= j < |init| ==> init[j] == s[j];
      CountMono(init, p, q);
    }
  }

  /** Every row satisfies `p` when all of them are counted. */
  lemma {:induction false} CountFull<T>(s: seq<T>, p: T -> bool)
    requires Count(s, p) == |s|
    ensures forall j :: 0 <= j < |s| ==> p(s[j])
  {
    if |s| > 0 {
      var init := s[..|s| - 1];
      assert forall j :: 0 <= j < |init| ==> init[j] == s[j];
      CountFull(init, p);
    }
  }

  /** Filtering by a stronger predicate after a weaker one is filtering by the
      stronger one alone. */
  lemma {:induction false} FilterFilter<T>(s: seq<T>, p: T -> bool, q: T -> bool)
    requires forall j :: 0 <= j < |s| ==> q(s[j]) ==> p(s[j])
    ensures Filter(Filter(s, p), q) == Filter(s, q)
  {
    if |s| > 0 {
      var init, last := s[..|s| - 1], s[|s| - 1];
      assert init + [last] == s;
      assert forall j :: 0 <= j < |init| ==> init[j] == s[j];
      FilterFilter(init, p, q);
      FilterFilterSnoc(init, last, p, q);
    }
  }

  lemma FilterFilterSnoc<T>(init: seq<T>, last: T, p: T -> bool, q: T -> bool)
    requires Filter(Filter(init, p), q) == Filter(init, q)
    requires q(last) ==> p(last)
    ensures Filter(Filter(init + [last], p), q) == Filter(init + [last], q)
  {
    FilterSnoc(init, last, p);
    FilterSnoc(init, last, q);
    var fp := Filter(init, p);
    if p(last) {
      assert Filter(init + [last], p) == fp + [last];
      FilterSnoc(fp, last, q);
      assert Filter(fp + [last], q) == Filter(fp, q) + (if q(last) then [last] else []);
    } else {
      assert Filter(init + [last], p) == fp;
      assert Filter(init + [last], q) == Filter(init, q);
    }
  }

  /** A predicate and its negation split the rows as a multiset. */
  lemma {:induction false} FilterComplement<T>(s: seq<T>, p: T -> bool, q: T -> bool)
    requires forall j :: 0 <= j < |s| ==> (p(s[j]) <==> !q(s[j]))
    ensures multiset(Filter(s, p)) + multiset(Filter(s, q)) == multiset(s)
  {
    if |s| > 0 {
      var init, last := s[..|s| - 1], s[|s| - 1];
      assert init + [last] == s;
      assert forall j :: 0 <= j < |init| ==> init[j] == s[j];
      FilterComplement(init, p, q);
      FilterComplementSnoc(init, last, p, q);
    }
  }

  lemma FilterComplementSnoc<T>(init: seq<T>, last: T, p: T -> bool, q: T -> bool)
    requires multiset(Filter(init, p)) + multiset(Filter(init, q)) == multiset(init)
    requires p(last) <==> !q(last)
    ensures multiset(Filter(init + [last], p)) + multiset(Filter(init + [last], q)) == multiset(init + [last])
  {
    FilterSnoc(init, last, p);
    FilterSnoc(init, last, q);
    assert multiset(init + [last]) == multiset(init) + multiset{last};
    if p(last) {
      assert multiset(Filter(init, p) + [last]) == multiset(Filter(init, p)) + multiset{last};
    } else {
      assert multiset(Filter(init, q) + [last]) == multiset(Filter(init, q)) + multiset{last};
    }
  }

  lemma {:induction false} CountRemoveAt<T>(s: seq<T>, i: nat, p: T -> bool)
    requires i < |s|
    ensures Count(RemoveAt(s, i), p) == Count(s, p) - (if p(s[i]) then 1 else 0)
  {
    var a, b := s[..i], s[i + 1..];
    assert RemoveAt(s, i) == a + b;
    assert s[..i + 1] == a + [s[i]];
    assert s == s[..i + 1] + b;
    CountSnoc(a, s[i], p);
    CountConcat(s[..i + 1], b, p);
    CountConcat(a, b, p);
  }
}
