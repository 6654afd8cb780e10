/** What the train/test splits of classification.go and
    sleep_classification.go share: Go's `int(x)` conversion of a float64,
    gathering rows through a shuffled index list, and the fact that a prefix
    and the matching suffix of a shuffle put every row on exactly one side. */
module Splitting {

  /** Go's conversion of a float64 to int: truncation toward zero. */
  function Trunc(x: real): (t: int)
    ensures x >= 0.0 ==> t >= 0 && t as real <= x < t as real + 1.0
    ensures x < 0.0 ==> t <= 0 && t as real - 1.0 < x <= t as real
  {
    if x >= 0.0 then x.Floor else -((-x).Floor)
  }

  /** `int(float64(n) * ratio)`: the size of the training set. */
  function TrainSize(n: nat, ratio: real): int
  {
    Trunc(n as real * ratio)
  }

  /** A shuffle of `0 .. n-1`: every index below `n` occurs exactly once. */
  predicate IsPermutation(perm: seq<nat>, n: nat)
  {
    |perm| == n &&
    (forall i :: 0 <= i < n ==> perm[i] < n) &&
    (forall i, j :: 0 <= i < j < n ==> perm[i] != perm[j])
  }

  /** The rows of `xs` named by `idx`, in that order. */
  function Gather<T>(xs: seq<T>, idx: seq<nat>): (r: seq<T>)
    requires forall i :: 0 <= i < |idx| ==> idx[i] < |xs|
    ensures |r| == |idx|
    ensures forall i :: 0 <= i < |idx| ==> r[i] == xs[idx[i]]
  {
    seq(|idx|, i requires 0 <= i < |idx| => xs[idx[i]])
  }

  /** The indices below `n`, as a set. */
  function Below(n: nat): (r: set<nat>)
    ensures |r| == n
    ensures forall i: nat :: i in r <==> i < n
  {
    if n == 0 then {} else Below(n - 1) + {n - 1}
  }

  lemma {:induction false} DistinctElementsSize(s: seq<nat>)
    requires forall i, j :: 0 <= i < j < |s| ==> s[i] != s[j]
    ensures |set i | 0 <= i < |s| :: s[i]| == |s|
  {
    if |s| > 0 {
      var n := |s| - 1;
      DistinctElementsSize(s[..n]);
      var front := set i | 0 <= i < n :: s[..n][i];
      assert (set i | 0 <= i < |s| :: s[i]) == front + {s[n]};
      assert s[n] !in front;
    }
  }

  /** Pigeonhole: a shuffle of `0 .. n-1` mentions every index below `n`. */
  lemma PermutationCovers(perm: seq<nat>, n: nat)
    requires IsPermutation(perm, n)
    ensures forall r :: 0 <= r < n ==> r in perm
  {
    var elems := set i | 0 <= i < |perm| :: perm[i];
    DistinctElementsSize(perm);
    assert elems <= Below(n);
    var missing := Below(n) - elems;
    assert Below(n) == elems + missing;
    assert missing == {};
    forall r | 0 <= r < n
      ensures r in perm
    {
      assert r in Below(n);
      assert r in elems;
    }
  }

  /** Splitting a shuffle at any point sends every row index below `n` to
      exactly one of the two halves. */
  lemma SplitPartitions(perm: seq<nat>, n: nat, t: nat)
    requires IsPermutation(perm, n) && t <= n
    ensures forall r :: 0 <= r < n ==> (r in perm[..t] <==> r !in perm[t..])
  {
    PermutationCovers(perm, n);
    forall r | 0 <= r < n
      ensures r in perm[..t] <==> r !in perm[t..]
    {
      assert r in perm;
      var k :| 0 <= k < n && perm[k] == r;
      if k < t {
        assert perm[..t][k] == r;
      } else {
        assert perm[t..][k - t] == r;
      }
    }
  }

  /** `0, 1, ..., n-1`: the index list before shuffling. */
  function Identity(n: nat): (r: seq<nat>)
    ensures |r| == n
    ensures forall i :: 0 <= i < n ==> r[i] == i
  {
    seq(n, i requires 0 <= i < n => i)
  }

  /** Exchange the entries at `i` and `j`. */
  function Swap(s: seq<nat>, i: nat, j: nat): (r: seq<nat>)
    requires i < |s| && j < |s|
    ensures |r| == |s| && r[i] == s[j] && r[j] == s[i]
    ensures forall k :: 0 <= k < |s| && k != i && k != j ==> r[k] == s[k]
  {
    s[i := s[j]][j := s[i]]
  }

  /** The random draws a shuffle of `n` positions consumes: the draw for
      position `i` is an index between 0 and `i`. */
  predicate ValidPicks(picks: seq<nat>, n: nat)
  {
    |picks| == n && forall i :: 0 <= i < n ==> picks[i] <= i
  }

  /** `rand.Shuffle` with the swap closure of `trainTestSplit`: the
      Fisher-Yates pass that, from the last position down to position 1,
      swaps position `i` with the drawn position `picks[i]`. This is the
      part still to do once positions `hi` and above are settled. */
  function ShuffleFrom(s: seq<nat>, picks: seq<nat>, hi: nat): (r: seq<nat>)
    requires hi <= |s| && ValidPicks(picks, |s|)
    ensures |r| == |s|
    decreases hi
  {
    if hi <= 1 then s else ShuffleFrom(Swap(s, hi - 1, picks[hi - 1]), picks, hi - 1)
  }

  /** The shuffled index list for the given draws. */
  function Shuffled(picks: seq<nat>): (r: seq<nat>)
    requires ValidPicks(picks, |picks|)
    ensures |r| == |picks|
  {
    ShuffleFrom(Identity(|picks|), picks, |picks|)
  }

  lemma SwapKeepsPermutation(s: seq<nat>, i: nat, j: nat)
    requires IsPermutation(s, |s|) && i < |s| && j < |s|
    ensures IsPermutation(Swap(s, i, j), |s|)
  {
    var r := Swap(s, i, j);
    forall a, b | 0 <= a < b < |s| ensures r[a] != r[b] {
      var a' := if a == i then j else if a == j then i else a;
      var b' := if b == i then j else if b == j then i else b;
      assert r[a] == s[a'] && r[b] == s[b'];
    }
  }

  lemma {:induction false} ShuffleFromKeepsPermutation(s: seq<nat>, picks: seq<nat>, hi: nat)
    requires hi <= |s| && ValidPicks(picks, |s|)
    requires IsPermutation(s, |s|)
    ensures IsPermutation(ShuffleFrom(s, picks, hi), |s|)
    decreases hi
  {
    if hi > 1 {
      SwapKeepsPermutation(s, hi - 1, picks[hi - 1]);
      ShuffleFromKeepsPermutation(Swap(s, hi - 1, picks[hi - 1]), picks, hi - 1);
    }
  }

  /** Whatever the draws, the shuffled list is a permutation of the indices. */
  lemma ShuffledIsPermutation(picks: seq<nat>)
    requires ValidPicks(picks, |picks|)
    ensures IsPermutation(Shuffled(picks), |picks|)
  {
    ShuffleFromKeepsPermutation(Identity(|picks|), picks, |picks|);
  }

  /** `rand.Perm` as used by sleep_classification.go: the first `i` entries
      after `i` rounds of the inside-out shuffle, where round `i` moves the
      entry at the drawn position `picks[i]` to position `i` and writes `i`
      at the drawn position. */
  function PermPrefix(picks: seq<nat>, i: nat): (m: seq<nat>)
    requires i <= |picks| && ValidPicks(picks, |picks|)
    ensures |m| == i
  {
    if i == 0 then []
    else
      var m := PermPrefix(picks, i - 1) + [0];
      m[i - 1 := m[picks[i - 1]]][picks[i - 1] := i - 1]
  }

  /** Every prefix built by the inside-out shuffle is a permutation. */
  lemma {:induction false} PermPrefixIsPermutation(picks: seq<nat>, i: nat)
    requires i <= |picks| && ValidPicks(picks, |picks|)
    ensures IsPermutation(PermPrefix(picks, i), i)
  {
    if i > 0 {
      PermPrefixIsPermutation(picks, i - 1);
      var prev := PermPrefix(picks, i - 1);
      var j := picks[i - 1];
      var r := PermPrefix(picks, i);
      if j < i - 1 {
        assert r[i - 1] == prev[j] && r[j] == i - 1;
        forall k | 0 <= k < i - 1 && k != j ensures r[k] == prev[k] { }
        forall a, b | 0 <= a < b < i ensures r[a] != r[b] {
          if b == i - 1 {
            if a != j { assert prev[a] != prev[j]; }
          }
        }
      } else {
        assert r == prev + [i - 1];
      }
    }
  }
}
