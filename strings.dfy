/**
  String helpers shared by the path, heuristics and governance models. Strings are
  sequences of characters; lower-casing is the ASCII mapping only.
 */
module Strings {

  function LowerChar(c: char): (r: char)
    ensures 'A' <= c <= 'Z' ==> r as int == c as int + 32
    ensures !('A' <= c <= 'Z') ==> r == c
  {
    if 'A' <= c <= 'Z' then (c as int + 32) as char else c
  }

  /** ASCII lower-casing, the model of `to_lowercase`. */
  function Lower(s: string): (r: string)
    ensures |r| == |s|
    ensures forall i :: 0 <= i < |s| ==> r[i] == LowerChar(s[i])
  {
    if s == [] then [] else [LowerChar(s[0])] + Lower(s[1..])
  }

  lemma LowerIdempotent(s: string)
    ensures Lower(Lower(s)) == Lower(s)
  {
  }

  /** None of the first `n` characters is an ASCII capital. */
  predicate NoUpperBefore(s: string, n: nat)
    requires n <= |s|
  {
    if n == 0 then true
    else if 'A' <= s[n - 1] <= 'Z' then false
    else NoUpperBefore(s, n - 1)
  }

  /** Text without capitals is its own lower-case form. */
  lemma {:induction false} LowerOfNoUpper(s: string, n: nat)
    requires n == |s| && NoUpperBefore(s, n)
    ensures Lower(s) == s
  {
    forall i | 0 <= i < |s| ensures Lower(s)[i] == s[i] {
      NoUpperAt(s, n, i);
    }
  }

  lemma {:induction false} NoUpperAt(s: string, n: nat, i: nat)
    requires n <= |s| && NoUpperBefore(s, n) && i < n
    ensures !('A' <= s[i] <= 'Z')
    decreases n
  {
    if i < n - 1 {
      NoUpperAt(s, n - 1, i);
    }
  }

  lemma {:induction false} LowerConcat(a: string, b: string)
    ensures Lower(a + b) == Lower(a) + Lower(b)
  {
    if a != [] {
      assert (a + b)[1..] == a[1..] + b;
      LowerConcat(a[1..], b);
    }
  }

  predicate StartsWith(s: string, p: string) {
    |p| <= |s| && s[..|p|] == p
  }

  predicate EndsWith(s: string, p: string) {
    |p| <= |s| && s[|s| - |p|..] == p
  }

  /** `p` occurs in `s` starting at `k`. */
  predicate Window(s: string, p: string, k: nat) {
    k + |p| <= |s| && s[k..k + |p|] == p
  }

  /** `p` occurs in `s` as a contiguous substring (`str::contains`). */
  predicate Contains(s: string, p: string) {
    exists k :: 0 <= k <= |s| - |p| && Window(s, p, k)
  }

  lemma ContainsAt(s: string, p: string, k: nat)
    requires k + |p| <= |s| && s[k..k + |p|] == p
    ensures Contains(s, p)
  {
    assert Window(s, p, k);
  }

  lemma ContainsWitness(s: string, p: string) returns (k: nat)
    requires Contains(s, p)
    ensures k + |p| <= |s| && s[k..k + |p|] == p
  {
    var j :| 0 <= j <= |s| - |p| && Window(s, p, j);
    k := j;
  }

  lemma EndsWithContains(s: string, p: string)
    requires EndsWith(s, p)
    ensures Contains(s, p)
  {
    ContainsAt(s, p, |s| - |p|);
  }

  /** A pattern with a character that `s` lacks does not occur in `s`. */
  lemma AbsentChar(s: string, p: string, j: nat)
    requires j < |p| && p[j] !in s
    ensures !Contains(s, p)
  {
    forall k: nat | k + |p| <= |s| ensures !Window(s, p, k) {
      assert s[k..k + |p|][j] == s[k + j];
    }
  }

  /**
    A pattern does not occur when one of its characters, `p[j]`, occurs in `s` only at
    `i`, and the one window that would put `p[j]` there either does not fit or differs
    from `p` at offset `d`.
   */
  lemma CharOnlyAt(s: string, p: string, j: nat, i: nat, d: nat)
    requires j < |p| && i < |s|
    requires p[j] !in s[..i] && p[j] !in s[i + 1..]
    requires i < j || i - j + |p| > |s| || (d < |p| && s[i - j + d] != p[d])
    ensures !Contains(s, p)
  {
    forall k: nat | k + |p| <= |s| ensures !Window(s, p, k) {
      var w := s[k..k + |p|];
      assert w[j] == s[k + j];
      if k + j < i {
        assert s[..i][k + j] == s[k + j];
      } else if k + j > i {
        assert s[i + 1..][k + j - i - 1] == s[k + j];
      } else {
        assert w[d] == s[i - j + d];
      }
    }
  }

  /** `s` does not end with `p` when they differ at offset `d` of the would-be suffix. */
  lemma SuffixDiffersAt(s: string, p: string, d: nat)
    requires d < |p| && (|p| <= |s| ==> s[|s| - |p| + d] != p[d])
    ensures !EndsWith(s, p)
  {
    if |p| <= |s| {
      assert s[|s| - |p|..][d] == s[|s| - |p| + d];
    }
  }

  /** The position just after the last occurrence of `c` in `s`, or 0 when `c` does not occur. */
  function AfterLast(s: string, c: char): (k: nat)
    ensures k <= |s|
    ensures k > 0 ==> s[k - 1] == c
    ensures forall i :: k <= i < |s| ==> s[i] != c
  {
    AfterLastBefore(s, c, |s|)
  }

  function AfterLastBefore(s: string, c: char, n: nat): (k: nat)
    requires n <= |s|
    ensures k <= n
    ensures k > 0 ==> s[k - 1] == c
    ensures forall i :: k <= i < n ==> s[i] != c
  {
    if n == 0 then 0
    else if s[n - 1] == c then n
    else AfterLastBefore(s, c, n - 1)
  }
}
