/**
 * `ORDER BY <key> DESC` and `LIMIT n` over a relation held as a sequence.
 *
 * SQL fixes only that the result is the input rearranged so that the key
 * never increases; the order among rows with equal keys is unspecified.
 * `SortDesc` picks one such order (insertion sort) and its contract states
 * exactly what SQL promises, so nothing else here depends on the choice.
 */
module Ordering {

  predicate SortedDesc<T>(s: seq<T>, key: T -> real) {
    forall i, j :: 0 <= i < j < |s| ==> key(s[i]) >= key(s[j])
  }

  function Min(a: int, b: int): int {
    if a <= b then a else b
  }

  /** Inserts `x` into a sorted sequence, in front of the first row whose key is not larger. */
  function Insert<T>(x: T, s: seq<T>, key: T -> real): (r: seq<T>)
    requires SortedDesc(s, key)
    ensures SortedDesc(r, key)
    ensures multiset(r) == multiset(s) + multiset{x}
    ensures |r| == |s| + 1
    ensures r[0] == (if s == [] || key(x) >= key(s[0]) then x else s[0])
  {
    if s == [] then [x]
    else if key(x) >= key(s[0]) then [x] + s
    else
      var tail := Insert(x, s[1..], key);
      assert s == [s[0]] + s[1..];
      [s[0]] + tail
  }

  /** The relation ordered by `key`, largest first: sorted, and a permutation of its input. */
  function SortDesc<T>(s: seq<T>, key: T -> real): (r: seq<T>)
    ensures SortedDesc(r, key)
    ensures multiset(r) == multiset(s)
    ensures |r| == |s|
  {
    if s == [] then []
    else
      assert s == [s[0]] + s[1..];
      Insert(s[0], SortDesc(s[1..], key), key)
  }

  /**
   * The first `m` rows of a sorted relation are its top rows: no row left out
   * has a larger key than a row kept.
   */
  lemma PrefixIsTop<T>(s: seq<T>, m: nat, key: T -> real)
    requires SortedDesc(s, key)
    requires m <= |s|
    ensures multiset(s[..m]) <= multiset(s)
    ensures multiset(s) - multiset(s[..m]) == multiset(s[m..])
    ensures forall x, y :: x in s[..m] && y in multiset(s) - multiset(s[..m]) ==> key(x) >= key(y)
  {
    assert s == s[..m] + s[m..];
    assert multiset(s) == multiset(s[..m]) + multiset(s[m..]);
    forall x, y | x in s[..m] && y in multiset(s) - multiset(s[..m])
      ensures key(x) >= key(y)
    {
      assert y in s[m..];
      var i :| 0 <= i < m && s[..m][i] == x;
      var j :| 0 <= j < |s| - m && s[m..][j] == y;
      assert s[i] == x && s[m + j] == y;
    }
  }

  /**
   * `ORDER BY key DESC LIMIT n`: the `n` rows with the largest keys (all rows
   * when there are fewer), sorted, taken from the input without duplication,
   * and such that no row left out has a larger key than a row kept.
   */
  function TopN<T>(s: seq<T>, n: nat, key: T -> real): (r: seq<T>)
    ensures |r| == Min(|s|, n)
    ensures SortedDesc(r, key)
    ensures multiset(r) <= multiset(s)
    ensures |s| <= n ==> multiset(r) == multiset(s)
    ensures forall x, y :: x in r && y in multiset(s) - multiset(r) ==> key(x) >= key(y)
  {
    var sorted := SortDesc(s, key);
    var m := Min(|sorted|, n);
    PrefixIsTop(sorted, m, key);
    assert m == |sorted| ==> sorted[..m] == sorted;
    assert SortedDesc(sorted[..m], key) by {
      forall i, j | 0 <= i < j < m ensures key(sorted[..m][i]) >= key(sorted[..m][j]) {
        assert sorted[..m][i] == sorted[i] && sorted[..m][j] == sorted[j];
      }
    }
    sorted[..m]
  }

  /** Taking a matching row out of two sequences with the same rows leaves the same rows. */
  lemma RemoveOne<T>(a: seq<T>, b: seq<T>, i: nat)
    requires multiset(a) == multiset(b)
    requires a != [] && i < |b| && b[i] == a[0]
    ensures multiset(a[1..]) == multiset(b[..i] + b[i + 1..])
  {
    assert a == [a[0]] + a[1..];
    assert b == b[..i] + [b[i]] + b[i + 1..];
    calc {
      multiset(a[1..]);
      multiset(a) - multiset{a[0]};
      multiset(b) - multiset{b[i]};
      { assert multiset(b) == multiset(b[..i]) + multiset{b[i]} + multiset(b[i + 1..]); }
      multiset(b[..i]) + multiset(b[i + 1..]);
      multiset(b[..i] + b[i + 1..]);
    }
  }
}
