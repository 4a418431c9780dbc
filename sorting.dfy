/**
 * The order an `ORDER BY <key> DESC` clause gives a result set.  SQL fixes
 * only the order of different keys; rows with equal keys may come in any
 * order, so the contracts here promise only "descending and a permutation".
 */
module Sorting {

  predicate SortedDesc<T>(s: seq<T>, key: T -> int) {
    forall i, j :: 0 <= i < j < |s| ==> key(s[j]) <= key(s[i])
  }

  predicate Distinct<T(==)>(s: seq<T>) {
    forall i, j :: 0 <= i < j < |s| ==> s[i] != s[j]
  }

  function InsertDesc<T>(x: T, s: seq<T>, key: T -> int): (r: seq<T>)
    requires SortedDesc(s, key)
    ensures SortedDesc(r, key)
    ensures multiset(r) == multiset(s) + multiset{x}
  {
    if s == [] || key(s[0]) <= key(x) then
      ConsDesc(x, s, key);
      [x] + s
    else
      var rest := InsertDesc(x, s[1..], key);
      assert s == [s[0]] + s[1..];
      BelowHead(x, s, rest, key);
      ConsDesc(s[0], rest, key);
      [s[0]] + rest
  }

  /** Putting a key no smaller than all the others in front keeps the order. */
  lemma ConsDesc<T>(h: T, s: seq<T>, key: T -> int)
    requires SortedDesc(s, key) && forall y :: y in s ==> key(y) <= key(h)
    ensures SortedDesc([h] + s, key)
  {
    var r := [h] + s;
    forall i, j | 0 <= i < j < |r| ensures key(r[j]) <= key(r[i]) {
      assert r[j] == s[j - 1];
      if i > 0 {
        assert r[i] == s[i - 1];
      }
    }
  }

  lemma BelowHead<T>(x: T, s: seq<T>, rest: seq<T>, key: T -> int)
    requires s != [] && SortedDesc(s, key) && key(x) < key(s[0])
    requires multiset(rest) == multiset(s[1..]) + multiset{x}
    ensures forall y :: y in rest ==> key(y) <= key(s[0])
  {
    forall y | y in rest ensures key(y) <= key(s[0]) {
      assert y in multiset(rest);
      if y != x {
        assert y in multiset(s[1..]);
        var k :| 0 <= k < |s[1..]| && s[1..][k] == y;
        assert s[k + 1] == y;
      }
    }
  }

  /** One ordering that an `ORDER BY key DESC` may return. */
  function SortDesc<T>(s: seq<T>, key: T -> int): (r: seq<T>)
    ensures SortedDesc(r, key)
    ensures multiset(r) == multiset(s)
  {
    if s == [] then []
    else
      assert s == [s[0]] + s[1..];
      InsertDesc(s[0], SortDesc(s[1..], key), key)
  }

  lemma {:induction false} DistinctCount<T>(s: seq<T>, x: T)
    requires Distinct(s)
    ensures multiset(s)[x] <= 1
  {
    if s != [] {
      assert s == [s[0]] + s[1..];
      DistinctCount(s[1..], x);
      if s[0] == x {
        assert x !in s[1..];
      }
    }
  }

  /** Reordering a list without repetitions gives a list without repetitions. */
  lemma DistinctPermutation<T>(a: seq<T>, b: seq<T>)
    requires multiset(a) == multiset(b) && Distinct(a)
    ensures Distinct(b)
  {
    forall i, j | 0 <= i < j < |b| ensures b[i] != b[j] {
      if b[i] == b[j] {
        var x := b[i];
        assert b == b[..j] + [b[j]] + b[j + 1..];
        assert x in b[..j];
        assert multiset(b)[x] >= 2;
        DistinctCount(a, x);
      }
    }
  }
}
