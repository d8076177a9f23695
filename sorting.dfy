/**
 * `Array.prototype.sort` with a numeric comparator `(a, b) => key(b) - key(a)`.
 * The sort in current JavaScript engines is stable, and a stable sort has only
 * one possible output, so it is modelled by a stable insertion sort.
 */
module Sorting {

  /** Non-increasing by `key`. */
  predicate SortedDesc<T>(s: seq<T>, key: T -> int) {
    forall i, j :: 0 <= i < j < |s| ==> key(s[i]) >= key(s[j])
  }

  /** The elements of `s` whose key is `k`, in order. */
  function WithKey<T>(s: seq<T>, key: T -> int, k: int): seq<T> {
    if s == [] then []
    else (if key(s[0]) == k then [s[0]] else []) + WithKey(s[1..], key, k)
  }

  /** Places `x` after every element whose key is at least its own. */
  function InsertDesc<T(==)>(s: seq<T>, x: T, key: T -> int): (r: seq<T>)
    ensures |r| == |s| + 1
  {
    if s == [] then [x]
    else if key(s[0]) >= key(x) then [s[0]] + InsertDesc(s[1..], x, key)
    else [x] + s
  }

  lemma {:induction false} InsertDescPermutes<T>(s: seq<T>, x: T, key: T -> int)
    ensures multiset(InsertDesc(s, x, key)) == multiset(s) + multiset{x}
  {
    if s != [] && key(s[0]) >= key(x) {
      InsertDescPermutes(s[1..], x, key);
      assert s == [s[0]] + s[1..];
    }
  }

  lemma {:induction false} InsertDescBounded<T>(s: seq<T>, x: T, key: T -> int, b: int)
    requires key(x) <= b && forall i :: 0 <= i < |s| ==> key(s[i]) <= b
    ensures forall i :: 0 <= i < |InsertDesc(s, x, key)| ==> key(InsertDesc(s, x, key)[i]) <= b
  {
    if s != [] && key(s[0]) >= key(x) {
      InsertDescBounded(s[1..], x, key, b);
    }
  }

  lemma {:induction false} InsertDescSorted<T>(s: seq<T>, x: T, key: T -> int)
    requires SortedDesc(s, key)
    ensures SortedDesc(InsertDesc(s, x, key), key)
  {
    if s != [] && key(s[0]) >= key(x) {
      SortedTail(s, key);
      InsertDescSorted(s[1..], x, key);
      InsertDescBounded(s[1..], x, key, key(s[0]));
    }
  }

  lemma SortedTail<T>(s: seq<T>, key: T -> int)
    requires s != [] && SortedDesc(s, key)
    ensures SortedDesc(s[1..], key)
    ensures forall i :: 0 <= i < |s| ==> key(s[i]) <= key(s[0])
  {
    forall i, j | 0 <= i < j < |s[1..]| ensures key(s[1..][i]) >= key(s[1..][j]) {
      assert s[1..][i] == s[i + 1] && s[1..][j] == s[j + 1];
    }
  }

  /** A stable sort by non-increasing `key`. */
  function SortDesc<T(==)>(s: seq<T>, key: T -> int): (r: seq<T>)
    ensures SortedDesc(r, key)
    ensures multiset(r) == multiset(s)
    ensures |r| == |s|
  {
    if s == [] then []
    else
      var init := s[..|s| - 1];
      assert s == init + [s[|s| - 1]];
      InsertDescSorted(SortDesc(init, key), s[|s| - 1], key);
      InsertDescPermutes(SortDesc(init, key), s[|s| - 1], key);
      InsertDesc(SortDesc(init, key), s[|s| - 1], key)
  }

  lemma {:induction false} WithKeyAppend<T>(a: seq<T>, b: seq<T>, key: T -> int, k: int)
    ensures WithKey(a + b, key, k) == WithKey(a, key, k) + WithKey(b, key, k)
  {
    if a == [] {
      assert a + b == b;
    } else {
      assert (a + b)[0] == a[0] && (a + b)[1..] == a[1..] + b;
      WithKeyAppend(a[1..], b, key, k);
      var head := if key(a[0]) == k then [a[0]] else [];
      assert WithKey(a + b, key, k) == head + (WithKey(a[1..], key, k) + WithKey(b, key, k));
      assert head + (WithKey(a[1..], key, k) + WithKey(b, key, k))
          == (head + WithKey(a[1..], key, k)) + WithKey(b, key, k);
    }
  }

  lemma {:induction false} WithKeyNone<T>(s: seq<T>, key: T -> int, k: int)
    requires forall i :: 0 <= i < |s| ==> key(s[i]) != k
    ensures WithKey(s, key, k) == []
  {
    if s != [] {
      WithKeyNone(s[1..], key, k);
    }
  }

  lemma {:induction false} WithKeyInsert<T>(s: seq<T>, x: T, key: T -> int, k: int)
    requires SortedDesc(s, key)
    ensures WithKey(InsertDesc(s, x, key), key, k)
         == WithKey(s, key, k) + (if key(x) == k then [x] else [])
  {
    if s == [] {
    } else if key(s[0]) >= key(x) {
      SortedTail(s, key);
      WithKeyInsert(s[1..], x, key, k);
      WithKeyInsertBehind(s, x, key, k);
    } else {
      assert InsertDesc(s, x, key) == [x] + s;
      WithKeyInsertFront(s, x, key, k);
    }
  }

  lemma WithKeyInsertBehind<T>(s: seq<T>, x: T, key: T -> int, k: int)
    requires s != [] && key(s[0]) >= key(x)
    requires WithKey(InsertDesc(s[1..], x, key), key, k)
          == WithKey(s[1..], key, k) + (if key(x) == k then [x] else [])
    ensures WithKey(InsertDesc(s, x, key), key, k)
         == WithKey(s, key, k) + (if key(x) == k then [x] else [])
  {
    var head := if key(s[0]) == k then [s[0]] else [];
    var tail := if key(x) == k then [x] else [];
    var rest := InsertDesc(s[1..], x, key);
    assert InsertDesc(s, x, key) == [s[0]] + rest;
    assert ([s[0]] + rest)[1..] == rest;
    assert WithKey(InsertDesc(s, x, key), key, k) == head + WithKey(rest, key, k);
    assert head + (WithKey(s[1..], key, k) + tail) == (head + WithKey(s[1..], key, k)) + tail;
  }

  lemma WithKeyInsertFront<T>(s: seq<T>, x: T, key: T -> int, k: int)
    requires s != [] && SortedDesc(s, key) && key(s[0]) < key(x)
    ensures WithKey([x] + s, key, k) == WithKey(s, key, k) + (if key(x) == k then [x] else [])
  {
    assert ([x] + s)[1..] == s;
    if key(x) == k {
      SortedTail(s, key);
      WithKeyNone(s, key, k);
    }
  }

  /**
   * Stability: among elements with equal keys the sort keeps the input order,
   * so ties come out exactly as they went in.
   */
  lemma {:induction false} SortDescStable<T>(s: seq<T>, key: T -> int, k: int)
    ensures WithKey(SortDesc(s, key), key, k) == WithKey(s, key, k)
  {
    if s != [] {
      var init := s[..|s| - 1];
      assert s == init + [s[|s| - 1]];
      SortDescStable(init, key, k);
      WithKeyInsert(SortDesc(init, key), s[|s| - 1], key, k);
      WithKeyAppend(init, [s[|s| - 1]], key, k);
    }
  }


  /** No two elements share a `tag`. */
  predicate DistinctBy<T, U(==)>(s: seq<T>, tag: T -> U) {
    forall i, j :: 0 <= i < j < |s| ==> tag(s[i]) != tag(s[j])
  }

  lemma {:induction false} InsertDescDistinct<T, U>(s: seq<T>, x: T, key: T -> int, tag: T -> U)
    requires DistinctBy(s, tag)
    requires forall y :: y in s ==> tag(y) != tag(x)
    ensures DistinctBy(InsertDesc(s, x, key), tag)
  {
    if s != [] {
      if key(s[0]) >= key(x) {
        var rest := InsertDesc(s[1..], x, key);
        assert s == [s[0]] + s[1..];
        assert DistinctBy(s[1..], tag) by {
          forall i, j | 0 <= i < j < |s[1..]| ensures tag(s[1..][i]) != tag(s[1..][j]) {
            assert s[1..][i] == s[i + 1] && s[1..][j] == s[j + 1];
          }
        }
        InsertDescDistinct(s[1..], x, key, tag);
        InsertDescPermutes(s[1..], x, key);
        forall j | 0 <= j < |rest| ensures tag(s[0]) != tag(rest[j]) {
          assert rest[j] in multiset(rest);
          if rest[j] != x {
            var k :| 0 <= k < |s[1..]| && s[1..][k] == rest[j];
            assert s[k + 1] == rest[j];
          }
        }
        assert InsertDesc(s, x, key) == [s[0]] + rest;
      } else {
        assert InsertDesc(s, x, key) == [x] + s;
      }
    }
  }

  /** Sorting moves elements but never puts two with the same tag together. */
  lemma {:induction false} SortDescDistinct<T, U>(s: seq<T>, key: T -> int, tag: T -> U)
    requires DistinctBy(s, tag)
    ensures DistinctBy(SortDesc(s, key), tag)
  {
    if s != [] {
      var init := s[..|s| - 1];
      var x := s[|s| - 1];
      assert s == init + [x];
      SortDescDistinct(init, key, tag);
      forall y | y in SortDesc(init, key) ensures tag(y) != tag(x) {
        assert y in multiset(SortDesc(init, key));
        var k :| 0 <= k < |init| && init[k] == y;
      }
      InsertDescDistinct(SortDesc(init, key), x, key, tag);
    }
  }

  /** A prefix of a descending list keys at least as high as anything left after it. */
  lemma SortedPrefixHighest<T>(sorted: seq<T>, key: T -> int, n: nat)
    requires SortedDesc(sorted, key) && n <= |sorted|
    ensures multiset(sorted[..n]) <= multiset(sorted)
    ensures forall x, y :: x in sorted[..n] && y in multiset(sorted) - multiset(sorted[..n]) ==> key(x) >= key(y)
  {
    var r := sorted[..n];
    assert sorted == r + sorted[n..];
    forall x, y | x in r && y in multiset(sorted) - multiset(r) ensures key(x) >= key(y) {
      assert y in multiset(sorted[n..]);
      var i :| 0 <= i < |r| && r[i] == x;
      var j :| 0 <= j < |sorted[n..]| && sorted[n..][j] == y;
      assert sorted[i] == x && sorted[n + j] == y;
    }
  }
}
