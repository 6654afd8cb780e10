/** An ordering-agnostic sort. Go's `sort.Slice` and `sort.Strings` promise
    only that the result is ordered and is a rearrangement of the input (the
    former is not stable), so the model sorts by insertion and proves exactly
    those two facts; nothing is claimed about the order of equivalent items. */
module Sorting {

  /** `le` is a total preorder: every two items compare, and comparison chains. */
  ghost predicate TotalPreorder<T(!new)>(le: (T, T) -> bool)
  {
    && (forall x, y :: le(x, y) || le(y, x))
    && (forall x, y, z :: le(x, y) && le(y, z) ==> le(x, z))
  }

  predicate SortedBy<T>(s: seq<T>, le: (T, T) -> bool)
  {
    forall i, j :: 0 <= i < j < |s| ==> le(s[i], s[j])
  }

  /** `x` placed before the first element it does not follow. */
  function Insert<T>(x: T, s: seq<T>, le: (T, T) -> bool): (r: seq<T>)
    ensures |r| == |s| + 1
    ensures multiset(r) == multiset(s) + multiset{x}
  {
    if s == [] then [x]
    else if le(x, s[0]) then [x] + s
    else
      assert s == [s[0]] + s[1..];
      [s[0]] + Insert(x, s[1..], le)
  }

  /** Inserting into an ordered sequence keeps it ordered. */
  lemma {:induction false} InsertSorted<T(!new)>(x: T, s: seq<T>, le: (T, T) -> bool)
    requires TotalPreorder(le)
    requires SortedBy(s, le)
    ensures SortedBy(Insert(x, s, le), le)
  {
    if s != [] && !le(x, s[0]) {
      InsertSorted(x, s[1..], le);
      var r := Insert(x, s, le);
      var t := Insert(x, s[1..], le);
      assert r == [s[0]] + t;
      forall j | 0 < j < |r| ensures le(s[0], r[j]) {
        assert r[j] in multiset(t);
        assert r[j] in multiset(s[1..]) + multiset{x};
        if r[j] in multiset(s[1..]) {
          var k :| 0 <= k < |s[1..]| && s[1..][k] == r[j];
          assert s[k + 1] == r[j];
        }
      }
    }
  }

  /** Every sequence has an ordered rearrangement. */
  lemma {:induction false} SortedPermutationExists<T(!new)>(s: seq<T>, le: (T, T) -> bool)
    requires TotalPreorder(le)
    ensures exists r :: SortedBy(r, le) && multiset(r) == multiset(s)
  {
    if s == [] {
      assert SortedBy([], le) && multiset([]) == multiset(s);
    } else {
      SortedPermutationExists(s[1..], le);
      var t :| SortedBy(t, le) && multiset(t) == multiset(s[1..]);
      InsertSorted(s[0], t, le);
      assert s == [s[0]] + s[1..];
      var r := Insert(s[0], t, le);
      assert SortedBy(r, le) && multiset(r) == multiset(s);
    }
  }

  /** Sorts `s` by repeated insertion; the result is ordered by `le` and is a
      permutation of `s`. */
  method SortBy<T(!new)>(s: seq<T>, le: (T, T) -> bool) returns (r: seq<T>)
    requires TotalPreorder(le)
    ensures SortedBy(r, le)
    ensures multiset(r) == multiset(s)
  {
    r := [];
    for i := 0 to |s|
      invariant SortedBy(r, le)
      invariant multiset(r) == multiset(s[..i])
    {
      InsertSorted(s[i], r, le);
      r := Insert(s[i], r, le);
      assert s[..i + 1] == s[..i] + [s[i]];
    }
    assert s[..|s|] == s;
  }
}
