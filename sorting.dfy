/**
  The stable sort that `Vec::sort_by(|a, b| key(b).cmp(&key(a)))` performs: largest key
  first, elements with equal keys in their original order.
 */
module Sorting {

  predicate NonIncreasingBy<T>(s: seq<T>, key: T -> int) {
    forall i, j :: 0 <= i < j < |s| ==> key(s[i]) >= key(s[j])
  }

  predicate NonDecreasingBy<T>(s: seq<T>, key: T -> int) {
    forall i, j :: 0 <= i < j < |s| ==> key(s[i]) <= key(s[j])
  }

  /** Inserts `x` after every leading element whose key is at least `key(x)`. */
  function InsertBy<T>(x: T, s: seq<T>, key: T -> int): (r: seq<T>)
    ensures |r| == |s| + 1
  {
    if s == [] then [x]
    else if key(s[0]) >= key(x) then [s[0]] + InsertBy(x, s[1..], key)
    else [x] + s
  }

  lemma {:induction false} InsertByPermutes<T>(x: T, s: seq<T>, key: T -> int)
    ensures multiset(InsertBy(x, s, key)) == multiset(s) + multiset{x}
  {
    if s != [] && key(s[0]) >= key(x) {
      InsertByPermutes(x, s[1..], key);
      assert s == [s[0]] + s[1..];
    }
  }

  /** Every element of the result is `x` or an element of `s`. */
  lemma {:induction false} InsertByMembers<T>(x: T, s: seq<T>, key: T -> int)
    ensures forall y :: y in InsertBy(x, s, key) ==> y == x || y in s
  {
    if s != [] && key(s[0]) >= key(x) {
      InsertByMembers(x, s[1..], key);
      forall y | y in InsertBy(x, s, key) ensures y == x || y in s {
        if y != s[0] {
          assert y in InsertBy(x, s[1..], key);
          assert y != x ==> y in s[1..];
        }
      }
    }
  }

  /** An element whose key bounds every key of a non-increasing sequence can go in front. */
  lemma ConsSorted<T>(h: T, rest: seq<T>, key: T -> int)
    requires NonIncreasingBy(rest, key)
    requires forall k :: 0 <= k < |rest| ==> key(h) >= key(rest[k])
    ensures NonIncreasingBy([h] + rest, key)
  {
    var r := [h] + rest;
    forall i, j | 0 <= i < j < |r| ensures key(r[i]) >= key(r[j]) {
      assert r[j] == rest[j - 1];
      if i > 0 {
        assert r[i] == rest[i - 1];
      }
    }
  }

  lemma {:induction false} InsertBySorted<T>(x: T, s: seq<T>, key: T -> int)
    requires NonIncreasingBy(s, key)
    ensures NonIncreasingBy(InsertBy(x, s, key), key)
  {
    if s != [] && key(s[0]) >= key(x) {
      var rest := InsertBy(x, s[1..], key);
      InsertBySorted(x, s[1..], key);
      InsertByMembers(x, s[1..], key);
      forall k | 0 <= k < |rest| ensures key(s[0]) >= key(rest[k]) {
        assert rest[k] in rest;
        if rest[k] != x {
          var j :| 0 <= j < |s[1..]| && s[1..][j] == rest[k];
          assert s[j + 1] == rest[k];
        }
      }
      ConsSorted(s[0], rest, key);
    }
  }

  /** Stable descending sort by `key`: each element is inserted after the earlier ones it ties with. */
  function SortDescBy<T>(xs: seq<T>, key: T -> int): (r: seq<T>)
    ensures |r| == |xs|
  {
    if xs == [] then [] else InsertBy(xs[|xs| - 1], SortDescBy(xs[..|xs| - 1], key), key)
  }

  lemma {:induction false} SortDescByPermutes<T>(xs: seq<T>, key: T -> int)
    ensures multiset(SortDescBy(xs, key)) == multiset(xs)
  {
    if xs != [] {
      var init := xs[..|xs| - 1];
      SortDescByPermutes(init, key);
      InsertByPermutes(xs[|xs| - 1], SortDescBy(init, key), key);
      assert xs == init + [xs[|xs| - 1]];
    }
  }

  lemma {:induction false} SortDescBySorted<T>(xs: seq<T>, key: T -> int)
    ensures NonIncreasingBy(SortDescBy(xs, key), key)
  {
    if xs != [] {
      var init := xs[..|xs| - 1];
      SortDescBySorted(init, key);
      InsertBySorted(xs[|xs| - 1], SortDescBy(init, key), key);
    }
  }

  /** Reversing a non-increasing sequence gives a non-decreasing one. */
  function Reversed<T>(s: seq<T>): (r: seq<T>)
    ensures |r| == |s|
    ensures forall k :: 0 <= k < |s| ==> r[k] == s[|s| - 1 - k]
  {
    if s == [] then [] else Reversed(s[1..]) + [s[0]]
  }

  lemma ReversedOrder<T>(s: seq<T>, key: T -> int)
    requires NonIncreasingBy(s, key)
    ensures NonDecreasingBy(Reversed(s), key)
    ensures multiset(Reversed(s)) == multiset(s)
  {
    var r := Reversed(s);
    forall i, j | 0 <= i < j < |r| ensures key(r[i]) <= key(r[j]) {
      assert r[i] == s[|s| - 1 - i] && r[j] == s[|s| - 1 - j];
    }
    ReversedMultiset(s);
  }

  /** `slice::reverse`: swaps the ends of the array pairwise, moving inwards. */
  method ReverseInPlace<T>(a: array<T>)
    modifies a
    ensures a[..] == Reversed(old(a[..]))
  {
    var n := a.Length;
    var i := 0;
    while i < n / 2
      invariant 0 <= i <= n / 2
      invariant forall k :: 0 <= k < i ==> a[k] == old(a[n - 1 - k]) && a[n - 1 - k] == old(a[k])
      invariant forall k :: i <= k < n - i ==> a[k] == old(a[k])
    {
      a[i], a[n - 1 - i] := a[n - 1 - i], a[i];
      i := i + 1;
    }
  }

  lemma {:induction false} ReversedMultiset<T>(s: seq<T>)
    ensures multiset(Reversed(s)) == multiset(s)
  {
    if s != [] {
      ReversedMultiset(s[1..]);
      assert s == [s[0]] + s[1..];
    }
  }

  /** Elements left out of a prefix of a sorted sequence have keys no larger than those kept. */
  lemma PrefixKeepsLargest<T>(s: seq<T>, key: T -> int, n: nat)
    requires NonIncreasingBy(s, key) && n <= |s|
    ensures forall i, j :: 0 <= i < n <= j < |s| ==> key(s[j]) <= key(s[i])
  {
  }
}
