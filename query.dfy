/**
 * The parts of the ORM's QuerySet semantics the blog relies on, over a table
 * held as a sequence of rows: filter, get (first match), slicing and a stable
 * order-by on an integer key. Uniqueness constraints are `DistinctBy`.
 */
module Query {
  import opened Wrappers

  /** `filter(...)`: the rows satisfying `keep`, in their original order. */
  function Filter<T(!new)>(s: seq<T>, keep: T -> bool): (r: seq<T>)
    ensures |r| <= |s|
    ensures forall x :: x in r <==> x in s && keep(x)
  {
    if s == [] then []
    else
      var rest := Filter(s[1..], keep);
      if keep(s[0]) then [s[0]] + rest else rest
  }

  /** Filtering keeps every matching row as often as it occurs, and no other row. */
  lemma {:induction false} FilterCounts<T(!new)>(s: seq<T>, keep: T -> bool)
    ensures forall x :: multiset(Filter(s, keep))[x] == if keep(x) then multiset(s)[x] else 0
  {
    if s != [] {
      assert s == [s[0]] + s[1..];
      FilterCounts(s[1..], keep);
    }
  }

  /** Filtering twice with the same condition is filtering once. */
  lemma {:induction false} FilterIdempotent<T(!new)>(s: seq<T>, keep: T -> bool)
    ensures Filter(Filter(s, keep), keep) == Filter(s, keep)
  {
    if s != [] {
      FilterIdempotent(s[1..], keep);
      var rest := Filter(s[1..], keep);
      if keep(s[0]) {
        var t := [s[0]] + rest;
        assert t[0] == s[0] && t[1..] == rest;
      }
    }
  }

  /** `get(...)` on a table whose matching row is unique: the first row satisfying `matches`. */
  function Get<T(!new)>(s: seq<T>, matches: T -> bool): (r: Option<T>)
    ensures r.None? <==> forall x :: x in s ==> !matches(x)
    ensures r.Some? ==> r.value in s && matches(r.value)
  {
    var m := Filter(s, matches);
    if |m| == 0 then None
    else
      assert m[0] in m;
      Some(m[0])
  }

  /** Filters of two permutations of one another are permutations of one another. */
  lemma FilterPermutation<T(!new)>(s: seq<T>, t: seq<T>, keep: T -> bool)
    requires multiset(s) == multiset(t)
    ensures multiset(Filter(s, keep)) == multiset(Filter(t, keep))
    ensures |Filter(s, keep)| == |Filter(t, keep)|
  {
    var a, b := Filter(s, keep), Filter(t, keep);
    FilterCounts(s, keep);
    FilterCounts(t, keep);
    assert forall x :: multiset(a)[x] == multiset(b)[x];
    assert multiset(a) == multiset(b);
    assert |a| == |multiset(a)| == |multiset(b)| == |b|;
  }

  /** A slice `[:n]`: the first `n` rows, or all of them when there are fewer. */
  function Take<T>(s: seq<T>, n: nat): (r: seq<T>)
    ensures |r| == if n < |s| then n else |s|
    ensures r == s[..|r|]
  {
    if n < |s| then s[..n] else s
  }

  /** `s` is in ascending order of `key`. */
  ghost predicate SortedBy<T>(s: seq<T>, key: T -> int) {
    forall i, j :: 0 <= i < j < |s| ==> key(s[i]) <= key(s[j])
  }

  /** The head of a sorted table has the smallest key. */
  lemma SortedHead<T>(s: seq<T>, key: T -> int)
    requires SortedBy(s, key) && s != []
    ensures forall y :: y in s ==> key(s[0]) <= key(y)
  {
    forall y | y in s ensures key(s[0]) <= key(y) {
      var k :| 0 <= k < |s| && s[k] == y;
    }
  }

  /** A row whose key is at most every key of a sorted table may go in front of it. */
  lemma SortedCons<T>(x: T, s: seq<T>, key: T -> int)
    requires SortedBy(s, key)
    requires forall y :: y in s ==> key(x) <= key(y)
    ensures SortedBy([x] + s, key)
  {
    var r := [x] + s;
    forall i, j | 0 <= i < j < |r| ensures key(r[i]) <= key(r[j]) {
      assert r[j] == s[j - 1];
      if i == 0 { assert s[j - 1] in s; } else { assert r[i] == s[i - 1]; }
    }
  }

  /** Inserts `x` into sorted `s` in front of the first row whose key is not smaller. */
  function Insert<T(!new)>(x: T, s: seq<T>, key: T -> int): (r: seq<T>)
    requires SortedBy(s, key)
    ensures SortedBy(r, key)
    ensures multiset(r) == multiset(s) + multiset{x}
    ensures forall y :: y in r ==> y == x || y in s
  {
    if s == [] then [x]
    else if key(x) <= key(s[0]) then
      SortedHead(s, key);
      SortedCons(x, s, key);
      [x] + s
    else
      assert s == [s[0]] + s[1..];
      var rest := Insert(x, s[1..], key);
      SortedHead(s, key);
      SortedCons(s[0], rest, key);
      [s[0]] + rest
  }

  /** `order_by(key)`: a stable insertion sort; the result is sorted and a permutation of `s`. */
  function SortBy<T(!new)>(s: seq<T>, key: T -> int): (r: seq<T>)
    ensures SortedBy(r, key)
    ensures multiset(r) == multiset(s)
    ensures |r| == |s|
  {
    if s == [] then []
    else
      assert s == [s[0]] + s[1..];
      Insert(s[0], SortBy(s[1..], key), key)
  }

  /** Filtering keeps a sorted table sorted. */
  lemma {:induction false} FilterSorted<T(!new)>(s: seq<T>, keep: T -> bool, key: T -> int)
    requires SortedBy(s, key)
    ensures SortedBy(Filter(s, keep), key)
  {
    if s != [] {
      assert SortedBy(s[1..], key);
      FilterSorted(s[1..], keep, key);
      if keep(s[0]) {
        var rest := Filter(s[1..], keep);
        SortedHead(s, key);
        assert forall y :: y in rest ==> y in s;
        SortedCons(s[0], rest, key);
      }
    }
  }

  /** No two rows of `s` share a `key` (a unique constraint). */
  ghost predicate DistinctBy<T, K>(s: seq<T>, key: T -> K) {
    forall i, j :: 0 <= i < j < |s| ==> key(s[i]) != key(s[j])
  }

  /** Under a unique constraint, two rows with the same key are the same row. */
  lemma DistinctByKey<T, K>(s: seq<T>, key: T -> K, x: T, y: T)
    requires DistinctBy(s, key) && x in s && y in s && key(x) == key(y)
    ensures x == y
  {
    var i :| 0 <= i < |s| && s[i] == x;
    var j :| 0 <= j < |s| && s[j] == y;
    assert !(i < j) && !(j < i);
  }

  /** A row whose key no row of `s` has may go in front of `s` under a unique constraint. */
  lemma DistinctCons<T, K>(x: T, s: seq<T>, key: T -> K)
    requires DistinctBy(s, key)
    requires forall y :: y in s ==> key(y) != key(x)
    ensures DistinctBy([x] + s, key)
  {
    var r := [x] + s;
    forall i, j | 0 <= i < j < |r| ensures key(r[i]) != key(r[j]) {
      assert r[j] == s[j - 1];
      if i == 0 { assert s[j - 1] in s; } else { assert r[i] == s[i - 1]; }
    }
  }

  /** Filtering keeps a unique constraint. */
  lemma {:induction false} FilterDistinct<T(!new), K>(s: seq<T>, keep: T -> bool, key: T -> K)
    requires DistinctBy(s, key)
    ensures DistinctBy(Filter(s, keep), key)
  {
    if s != [] {
      assert DistinctBy(s[1..], key);
      FilterDistinct(s[1..], keep, key);
      if keep(s[0]) {
        var rest := Filter(s[1..], keep);
        forall y | y in rest ensures key(y) != key(s[0]) {
          var k :| 0 <= k < |s[1..]| && s[1..][k] == y;
          assert s[k + 1] == y;
        }
        DistinctCons(s[0], rest, key);
      }
    }
  }

  /** Appending a row whose key is new keeps a unique constraint. */
  lemma AppendDistinct<T, K>(s: seq<T>, x: T, key: T -> K)
    requires DistinctBy(s, key)
    requires forall y :: y in s ==> key(y) != key(x)
    ensures DistinctBy(s + [x], key)
  {
    var r := s + [x];
    forall i, j | 0 <= i < j < |r| ensures key(r[i]) != key(r[j]) {
      assert r[i] == s[i];
      if j == |s| { assert s[i] in s; } else { assert r[j] == s[j]; }
    }
  }

  /** Filtering a table never adds a key. */
  lemma FilterKeySet<T(!new), K>(s: seq<T>, keep: T -> bool, key: T -> K)
    ensures KeySet(Filter(s, keep), key) <= KeySet(s, key)
  {
  }

  /** The keys present in a table. */
  ghost function KeySet<T, K>(s: seq<T>, key: T -> K): (ks: set<K>)
    ensures forall x :: x in s ==> key(x) in ks
  {
    set x | x in s :: key(x)
  }

  /** A table whose rows keep their keys row by row keeps its key set and its unique constraint. */
  lemma SameKeys<T, K>(s: seq<T>, t: seq<T>, key: T -> K)
    requires |s| == |t| && forall i :: 0 <= i < |s| ==> key(s[i]) == key(t[i])
    ensures KeySet(s, key) == KeySet(t, key)
    ensures DistinctBy(s, key) ==> DistinctBy(t, key)
  {
    forall k | k in KeySet(s, key) ensures k in KeySet(t, key) {
      var x :| x in s && key(x) == k;
      var i :| 0 <= i < |s| && s[i] == x;
      assert t[i] in t;
    }
    forall k | k in KeySet(t, key) ensures k in KeySet(s, key) {
      var x :| x in t && key(x) == k;
      var i :| 0 <= i < |t| && t[i] == x;
      assert s[i] in s;
    }
  }

  /** Appending a row adds its key and no other. */
  lemma AppendKeySet<T, K>(s: seq<T>, x: T, key: T -> K)
    ensures KeySet(s + [x], key) == KeySet(s, key) + {key(x)}
  {
    var r := s + [x];
    forall k | k in KeySet(r, key) ensures k in KeySet(s, key) + {key(x)} {
      var y :| y in r && key(y) == k;
      var i :| 0 <= i < |r| && r[i] == y;
      if i < |s| { assert s[i] == y; }
    }
    forall y | y in s ensures y in r { var i :| 0 <= i < |s| && s[i] == y; assert r[i] == y; }
  }
}
