/**
  The bounded top-K buffer of the scanner: a `BinaryHeap<FileRecord>` under the
  reversed order of `Models.Cmp`, whose greatest element is a smallest file, and the
  property that the records it keeps are K largest of those it has seen.
 */
module TopK {
  import opened Options
  import opened Models
  import opened Sorting

  function Min(a: nat, b: nat): nat {
    if a < b then a else b
  }

  /**
    `rejected` is what was evicted: together with `top` it is exactly what was seen,
    and no evicted record is larger than a kept one.
   */
  ghost predicate Evicted(top: seq<FileRecord>, seen: seq<FileRecord>, rejected: seq<FileRecord>) {
    && multiset(seen) == multiset(top) + multiset(rejected)
    && forall r, t :: r in rejected && t in top ==> r.sizeBytes <= t.sizeBytes
  }

  /** `top` holds `min(k, |seen|)` records of `seen`, and they are the largest ones. */
  ghost predicate IsTopK(top: seq<FileRecord>, seen: seq<FileRecord>, k: nat) {
    |top| == Min(k, |seen|) && exists rejected :: Evicted(top, seen, rejected)
  }

  /** The model of `BinaryHeap<FileRecord>`: its elements, in no particular order. */
  class FileHeap {
    var items: seq<FileRecord>

    constructor ()
      ensures items == []
    {
      items := [];
    }

    method Push(r: FileRecord)
      modifies this
      ensures items == old(items) + [r]
    {
      items := items + [r];
    }

    method Len() returns (n: nat)
      ensures n == |items|
    {
      n := |items|;
    }

    /**
      `BinaryHeap::pop`: removes a greatest element under `Cmp`, that is a record of
      minimum size. Which of several equally small records goes is not promised.
     */
    method Pop() returns (r: Option<FileRecord>)
      modifies this
      ensures old(items) == [] ==> r == None && items == []
      ensures old(items) != [] ==> r.Some? && r.value in old(items)
      ensures old(items) != [] ==> forall t :: t in old(items) ==> Cmp(t, r.value) != Greater
      ensures old(items) != [] ==> multiset(items) + multiset{r.value} == multiset(old(items))
      ensures |items| == if old(items) == [] then 0 else |old(items)| - 1
    {
      if items == [] {
        return None;
      }
      var m := 0;
      var i := 1;
      while i < |items|
        invariant 0 <= m < i <= |items|
        invariant forall j :: 0 <= j < i ==> items[m].sizeBytes <= items[j].sizeBytes
      {
        if items[i].sizeBytes < items[m].sizeBytes {
          m := i;
        }
        i := i + 1;
      }
      r := Some(items[m]);
      assert items == items[..m] + [items[m]] + items[m + 1..];
      items := items[..m] + items[m + 1..];
    }

    /** `BinaryHeap::into_sorted_vec`: ascending under `Cmp`, so the largest file first. */
    method IntoSortedVec() returns (v: seq<FileRecord>)
      ensures multiset(v) == multiset(items)
      ensures forall i, j :: 0 <= i < j < |v| ==> Cmp(v[i], v[j]) != Greater
    {
      v := SortDescBy(items, Size);
      SortDescByPermutes(items, Size);
      SortDescBySorted(items, Size);
    }
  }

  /** The first file seen fits when the buffer is not full: nothing has been evicted. */
  lemma PushWithinLimit(top: seq<FileRecord>, seen: seq<FileRecord>, rejected: seq<FileRecord>, k: nat, x: FileRecord)
    requires |top| == Min(k, |seen|) && Evicted(top, seen, rejected)
    requires |top| + 1 <= k
    ensures |top + [x]| == Min(k, |seen + [x]|) && Evicted(top + [x], seen + [x], rejected)
  {
    assert |multiset(seen)| == |multiset(top)| + |multiset(rejected)|;
    assert rejected == [];
  }

  /** Pushing a record onto a full buffer and popping a smallest keeps the top-K property. */
  lemma {:induction false} PushPopKeepsTopK(
    top: seq<FileRecord>, seen: seq<FileRecord>, rejected: seq<FileRecord>, k: nat,
    x: FileRecord, m: FileRecord, top': seq<FileRecord>)
    requires |top| == Min(k, |seen|) && Evicted(top, seen, rejected)
    requires |top| + 1 > k
    requires m in top + [x]
    requires forall t :: t in top + [x] ==> m.sizeBytes <= t.sizeBytes
    requires multiset(top') + multiset{m} == multiset(top + [x])
    ensures |top'| == Min(k, |seen + [x]|) && Evicted(top', seen + [x], rejected + [m])
  {
    var rejected' := rejected + [m];
    assert |multiset(top')| + 1 == |multiset(top)| + 1;
    assert multiset(top + [x]) == multiset(top) + multiset{x};
    assert multiset(rejected') == multiset(rejected) + multiset{m};
    assert multiset(seen + [x]) == multiset(seen) + multiset{x};
    assert multiset(top') + multiset(rejected') == (multiset(top') + multiset{m}) + multiset(rejected);
    forall r, t | r in rejected' && t in top' ensures r.sizeBytes <= t.sizeBytes {
      assert t in multiset(top');
      assert t in multiset(top + [x]);
      assert t in top + [x];
      if r != m {
        assert r in rejected;
        if t !in top {
          assert t == x;
          assert m in top;
        }
      }
    }
  }

  /** Reordering the buffer does not change what it holds. */
  lemma TopKPermutation(top: seq<FileRecord>, top': seq<FileRecord>, seen: seq<FileRecord>, k: nat)
    requires IsTopK(top, seen, k)
    requires multiset(top') == multiset(top)
    ensures IsTopK(top', seen, k)
  {
    var rejected: seq<FileRecord> :| Evicted(top, seen, rejected);
    assert |top'| == |multiset(top')|;
    forall r, t | r in rejected && t in top' ensures r.sizeBytes <= t.sizeBytes {
      assert t in multiset(top);
    }
    assert Evicted(top', seen, rejected);
  }

  function Sizes(s: seq<FileRecord>): (r: seq<nat>)
    ensures |r| == |s|
    ensures forall i :: 0 <= i < |s| ==> r[i] == s[i].sizeBytes
  {
    seq(|s|, i requires 0 <= i < |s| => s[i].sizeBytes)
  }

  lemma SizesConcat(a: seq<FileRecord>, b: seq<FileRecord>)
    ensures Sizes(a + b) == Sizes(a) + Sizes(b)
  {
  }

  lemma RecordsRemove(b: seq<FileRecord>, j: nat)
    requires j < |b|
    ensures multiset(b[..j] + b[j + 1..]) == multiset(b) - multiset{b[j]}
  {
    assert b == b[..j] + [b[j]] + b[j + 1..];
  }

  lemma SizesRemove(b: seq<FileRecord>, j: nat)
    requires j < |b|
    ensures multiset(Sizes(b)) == multiset(Sizes(b[..j] + b[j + 1..])) + multiset{b[j].sizeBytes}
  {
    var s1, s2 := Sizes(b[..j]), Sizes(b[j + 1..]);
    assert Sizes(b) == s1 + [b[j].sizeBytes] + s2;
    assert Sizes(b[..j] + b[j + 1..]) == s1 + s2;
    assert multiset(s1 + [b[j].sizeBytes] + s2) == multiset(s1 + s2) + multiset{b[j].sizeBytes};
  }

  lemma SizesCons(a: seq<FileRecord>)
    requires a != []
    ensures multiset(Sizes(a)) == multiset(Sizes(a[1..])) + multiset{a[0].sizeBytes}
  {
    var tail := Sizes(a[1..]);
    assert Sizes(a) == [a[0].sizeBytes] + tail;
    assert multiset([a[0].sizeBytes] + tail) == multiset{a[0].sizeBytes} + multiset(tail);
  }

  /** Removing the same record from both sides keeps the sizes permuted. */
  lemma SizesPermutationStep(a: seq<FileRecord>, b: seq<FileRecord>, j: nat)
    requires a != [] && j < |b| && b[j] == a[0]
    requires multiset(Sizes(a[1..])) == multiset(Sizes(b[..j] + b[j + 1..]))
    ensures multiset(Sizes(a)) == multiset(Sizes(b))
  {
    SizesCons(a);
    SizesRemove(b, j);
    var tail, head := multiset(Sizes(a[1..])), multiset{a[0].sizeBytes};
    assert multiset(Sizes(a)) == tail + head;
    assert multiset(Sizes(b)) == tail + head;
  }

  /** Permuted records have permuted sizes. */
  lemma {:induction false} SizesPermutation(a: seq<FileRecord>, b: seq<FileRecord>)
    requires multiset(a) == multiset(b)
    ensures multiset(Sizes(a)) == multiset(Sizes(b))
    decreases |a|
  {
    if a != [] {
      assert a[0] in multiset(b);
      var j :| 0 <= j < |b| && b[j] == a[0];
      assert a[..0] + a[1..] == a[1..];
      RecordsRemove(a, 0);
      RecordsRemove(b, j);
      SizesPermutation(a[1..], b[..j] + b[j + 1..]);
      SizesPermutationStep(a, b, j);
    }
  }

  /**
    Shared premises of the uniqueness argument: one bag split twice into a kept and an
    evicted part, kept parts of equal size, nothing evicted larger than anything kept.
   */
  ghost predicate TwoSplits(m1: multiset<nat>, r1: multiset<nat>, m2: multiset<nat>, r2: multiset<nat>) {
    && m1 + r1 == m2 + r2
    && |m1| == |m2|
    && (forall x, y :: x in r1 && y in m1 ==> x <= y)
    && (forall x, y :: x in r2 && y in m2 ==> x <= y)
  }

  /** A value kept more often by the second split rules out any value kept more often by the first. */
  lemma NoCrossedCounts(m1: multiset<nat>, r1: multiset<nat>, m2: multiset<nat>, r2: multiset<nat>, w: nat, u: nat)
    requires TwoSplits(m1, r1, m2, r2)
    ensures m1[w] < m2[w] ==> m1[u] <= m2[u]
  {
    assert (m1 + r1)[w] == m1[w] + r1[w] && (m2 + r2)[w] == m2[w] + r2[w];
    assert (m1 + r1)[u] == m1[u] + r1[u] && (m2 + r2)[u] == m2[u] + r2[u];
  }

  /** The kept parts of two such splits are ordered by inclusion. */
  lemma KeptComparable(m1: multiset<nat>, r1: multiset<nat>, m2: multiset<nat>, r2: multiset<nat>)
    requires TwoSplits(m1, r1, m2, r2)
    ensures m1 <= m2 || m2 <= m1
  {
    forall w, u ensures m1[w] < m2[w] ==> m1[u] <= m2[u] {
      NoCrossedCounts(m1, r1, m2, r2, w, u);
    }
  }

  /** A sub-bag of a bag of the same size is the whole bag. */
  lemma SubBagOfSameSize(m1: multiset<nat>, m2: multiset<nat>)
    requires m1 <= m2 && |m1| == |m2|
    ensures m1 == m2
  {
    assert m2 == m1 + (m2 - m1);
    assert m2 - m1 == multiset{};
  }

  /** Two such splits keep the same values. */
  lemma KeptValuesUnique(m1: multiset<nat>, r1: multiset<nat>, m2: multiset<nat>, r2: multiset<nat>)
    requires TwoSplits(m1, r1, m2, r2)
    ensures m1 == m2
  {
    KeptComparable(m1, r1, m2, r2);
    if m1 <= m2 {
      SubBagOfSameSize(m1, m2);
    } else {
      SubBagOfSameSize(m2, m1);
    }
  }

  /** No evicted size exceeds a kept size. */
  lemma EvictedSizes(top: seq<FileRecord>, rejected: seq<FileRecord>)
    requires forall r, t :: r in rejected && t in top ==> r.sizeBytes <= t.sizeBytes
    ensures forall x, y :: x in multiset(Sizes(rejected)) && y in multiset(Sizes(top)) ==> x <= y
  {
    forall x, y | x in multiset(Sizes(rejected)) && y in multiset(Sizes(top)) ensures x <= y {
      var i :| 0 <= i < |rejected| && Sizes(rejected)[i] == x;
      var j :| 0 <= j < |top| && Sizes(top)[j] == y;
      assert rejected[i] in rejected && top[j] in top;
    }
  }

  /** Two top-K selections of the same records agree on the multiset of sizes. */
  lemma TopKSizesUnique(t1: seq<FileRecord>, t2: seq<FileRecord>, seen: seq<FileRecord>, k: nat)
    requires IsTopK(t1, seen, k) && IsTopK(t2, seen, k)
    ensures multiset(Sizes(t1)) == multiset(Sizes(t2))
  {
    var r1: seq<FileRecord> :| Evicted(t1, seen, r1);
    var r2: seq<FileRecord> :| Evicted(t2, seen, r2);
    SizesPermutation(seen, t1 + r1);
    SizesPermutation(seen, t2 + r2);
    SizesConcat(t1, r1);
    SizesConcat(t2, r2);
    EvictedSizes(t1, r1);
    EvictedSizes(t2, r2);
    KeptValuesUnique(multiset(Sizes(t1)), multiset(Sizes(r1)), multiset(Sizes(t2)), multiset(Sizes(r2)));
  }

  /** Cutting a descending sequence splits it into kept records and evicted ones. */
  lemma SortedSplit(s: seq<FileRecord>, m: nat)
    requires NonIncreasingBy(s, Size) && m <= |s|
    ensures Evicted(s[..m], s, s[m..])
  {
    var p, rest := s[..m], s[m..];
    assert s == p + rest;
    forall r, t | r in rest && t in p ensures r.sizeBytes <= t.sizeBytes {
      var j :| 0 <= j < |rest| && rest[j] == r;
      var i :| 0 <= i < |p| && p[i] == t;
      assert Size(s[i]) >= Size(s[m + j]);
    }
  }

  /** The `min(k, |seen|)` largest records of a descending sort are a top-K selection. */
  lemma SortedPrefixIsTopK(seen: seq<FileRecord>, k: nat)
    ensures IsTopK(SortDescBy(seen, Size)[..Min(k, |seen|)], seen, k)
  {
    var s := SortDescBy(seen, Size);
    var m := Min(k, |seen|);
    SortDescByPermutes(seen, Size);
    SortDescBySorted(seen, Size);
    SortedSplit(s, m);
    assert Evicted(s[..m], seen, s[m..]);
  }

  /**
    Reference for the scan's heap: whatever a top-K selection keeps, its sizes are
    those of the first `min(k, |seen|)` records in descending size order.
   */
  lemma TopKMatchesSortedPrefix(top: seq<FileRecord>, seen: seq<FileRecord>, k: nat)
    requires IsTopK(top, seen, k)
    ensures multiset(Sizes(top)) == multiset(Sizes(SortDescBy(seen, Size)[..Min(k, |seen|)]))
  {
    SortedPrefixIsTopK(seen, k);
    TopKSizesUnique(top, SortDescBy(seen, Size)[..Min(k, |seen|)], seen, k);
  }

  lemma NatsRemoveHead(a: seq<nat>)
    requires a != []
    ensures multiset(a[1..]) == multiset(a) - multiset{a[0]}
  {
    assert a == [a[0]] + a[1..];
  }

  /** The first element of a non-empty sorted sequence is its least element. */
  lemma SortedHeadLeast(a: seq<nat>, x: nat)
    requires forall i, j :: 0 <= i < j < |a| ==> a[i] <= a[j]
    requires x in multiset(a)
    ensures a[0] <= x
  {
    var i :| 0 <= i < |a| && a[i] == x;
    assert i == 0 || a[0] <= a[i];
  }

  /** Sorted sequences with the same elements are equal. */
  lemma {:induction false} SortedUnique(a: seq<nat>, b: seq<nat>)
    requires forall i, j :: 0 <= i < j < |a| ==> a[i] <= a[j]
    requires forall i, j :: 0 <= i < j < |b| ==> b[i] <= b[j]
    requires multiset(a) == multiset(b)
    ensures a == b
    decreases |a|
  {
    assert |b| == |multiset(b)| == |multiset(a)| == |a|;
    if a != [] {
      assert a[0] in multiset(a) && b[0] in multiset(b);
      SortedHeadLeast(a, b[0]);
      SortedHeadLeast(b, a[0]);
      assert a[0] == b[0];
      NatsRemoveHead(a);
      NatsRemoveHead(b);
      var a', b' := a[1..], b[1..];
      assert multiset(a') == multiset(b');
      assert forall i, j :: 0 <= i < j < |a'| ==> a'[i] <= a'[j] by {
        forall i, j | 0 <= i < j < |a'| ensures a'[i] <= a'[j] {
          assert a'[i] == a[i + 1] && a'[j] == a[j + 1];
        }
      }
      assert forall i, j :: 0 <= i < j < |b'| ==> b'[i] <= b'[j] by {
        forall i, j | 0 <= i < j < |b'| ensures b'[i] <= b'[j] {
          assert b'[i] == b[i + 1] && b'[j] == b[j + 1];
        }
      }
      SortedUnique(a', b');
      assert a == [a[0]] + a[1..] && b == [b[0]] + b[1..];
    }
  }
}
