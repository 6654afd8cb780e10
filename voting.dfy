/** The k-nearest-neighbour vote shared by `KNNClassifier.Predict`
    (classification.go) and `knnPredict` (sleep_classification.go): rank the
    training rows by distance, let the first k cast one vote each for their
    label, and return a label with the most votes. */
module Voting {
  import opened Vectors
  import Sorting

  /** One training row seen from a query: its distance and its label. */
  datatype Neighbor = Neighbor(dist: Distance, category: string)

  /** The ordering `sort.Slice` is asked to establish (`dist[i] < dist[j]`). */
  predicate NearerOrEqual(x: Neighbor, y: Neighbor)
  {
    AtMost(x.dist, y.dist)
  }

  lemma NearerOrEqualIsTotalPreorder()
    ensures Sorting.TotalPreorder(NearerOrEqual)
  {
    forall x: Neighbor, y: Neighbor, z: Neighbor
      ensures NearerOrEqual(x, y) || NearerOrEqual(y, x)
      ensures NearerOrEqual(x, y) && NearerOrEqual(y, z) ==> NearerOrEqual(x, z)
    {
      OrderFacts(x.dist, y.dist, z.dist);
    }
  }

  /** How many of `s` carry label `l`. */
  function CountLabel(s: seq<Neighbor>, l: string): nat
  {
    if s == [] then 0
    else CountLabel(s[..|s| - 1], l) + (if s[|s| - 1].category == l then 1 else 0)
  }

  /** A label is counted exactly when some element carries it. */
  lemma {:induction false} CountLabelPositive(s: seq<Neighbor>, l: string)
    ensures CountLabel(s, l) > 0 <==> exists i :: 0 <= i < |s| && s[i].category == l
  {
    if s != [] {
      var t := s[..|s| - 1];
      CountLabelPositive(t, l);
      if exists i :: 0 <= i < |t| && t[i].category == l {
        var i :| 0 <= i < |t| && t[i].category == l;
        assert s[i].category == l;
      }
      if exists i :: 0 <= i < |s| && s[i].category == l {
        var i :| 0 <= i < |s| && s[i].category == l;
        if i < |t| { assert t[i].category == l; }
      }
    }
  }

  /** The number of voters: `i < k && i < len(distances)`. */
  function VoterCount(k: int, n: nat): (m: nat)
    ensures m <= n
    ensures k <= 0 ==> m == 0
    ensures k > 0 ==> m == if k < n then k else n
  {
    if k <= 0 then 0 else if k < n then k else n
  }

  /** `chosen` is what the vote loop can return for `voters`: "" when nobody
      votes, otherwise a label some voter carries that no other label outvotes. */
  ghost predicate IsMajority(chosen: string, voters: seq<Neighbor>)
  {
    if voters == [] then chosen == ""
    else CountLabel(voters, chosen) > 0 && forall l :: CountLabel(voters, l) <= CountLabel(voters, chosen)
  }

  /** `chosen` is a possible k-NN answer for `neighbors`: under SOME ascending
      ordering of the distances (the sort is not stable, so ties may fall
      either way), it is a majority label of the first `VoterCount` rows. */
  ghost predicate KnnVote(chosen: string, neighbors: seq<Neighbor>, k: int)
  {
    exists s :: Ranking(s, neighbors) && IsMajority(chosen, s[..VoterCount(k, |s|)])
  }

  /** `s` is `neighbors` rearranged into ascending distance. */
  ghost predicate Ranking(s: seq<Neighbor>, neighbors: seq<Neighbor>)
  {
    Sorting.SortedBy(s, NearerOrEqual) && multiset(s) == multiset(neighbors)
  }

  /** The `votes` loop: one vote per label among the first `k` (at most |s|)
      rows of `s`. */
  method TallyVotes(s: seq<Neighbor>, k: int) returns (votes: map<string, nat>)
    ensures forall l :: l in votes <==> CountLabel(s[..VoterCount(k, |s|)], l) > 0
    ensures forall l :: l in votes ==> votes[l] == CountLabel(s[..VoterCount(k, |s|)], l)
  {
    votes := map[];
    var i := 0;
    while i < k && i < |s|
      invariant 0 <= i <= VoterCount(k, |s|)
      invariant forall l :: l in votes <==> CountLabel(s[..i], l) > 0
      invariant forall l :: l in votes ==> votes[l] == CountLabel(s[..i], l)
    {
      var l := s[i].category;
      assert s[..i + 1][..i] == s[..i];
      votes := votes[l := (if l in votes then votes[l] else 0) + 1];
      i := i + 1;
    }
  }

  /** The `maxVotes` loop. Go visits the map in an unspecified order; the model
      visits the keys in an arbitrary order too, so when several labels share
      the top count it promises only that one of them is returned. */
  method PickMostVoted(votes: map<string, nat>) returns (chosen: string)
    ensures (forall l :: l in votes ==> votes[l] == 0) ==> chosen == ""
    ensures (exists l :: l in votes && votes[l] > 0) ==>
              chosen in votes && forall l :: l in votes ==> votes[l] <= votes[chosen]
  {
    var maxVotes := 0;
    chosen := "";
    var rest := votes.Keys;
    while rest != {}
      invariant rest <= votes.Keys
      invariant maxVotes == 0 ==> chosen == ""
      invariant maxVotes > 0 ==> chosen in votes && votes[chosen] == maxVotes
      invariant forall l :: l in votes && l !in rest ==> votes[l] <= maxVotes
      decreases rest
    {
      var l :| l in rest;
      if votes[l] > maxVotes {
        maxVotes := votes[l];
        chosen := l;
      }
      rest := rest - {l};
    }
  }

  /** Ranks `neighbors`, counts the votes of the first `k` and returns a
      majority label. */
  method Vote(neighbors: seq<Neighbor>, k: int) returns (chosen: string)
    ensures KnnVote(chosen, neighbors, k)
  {
    NearerOrEqualIsTotalPreorder();
    var ranked := Sorting.SortBy(neighbors, NearerOrEqual);
    var votes := TallyVotes(ranked, k);
    chosen := PickMostVoted(votes);
    var voters := ranked[..VoterCount(k, |ranked|)];
    if voters != [] {
      assert voters[0].category in votes by { CountLabelPositive(voters, voters[0].category); }
      forall l ensures CountLabel(voters, l) <= CountLabel(voters, chosen) {
        if CountLabel(voters, l) > 0 { assert l in votes; }
      }
    }
    assert Ranking(ranked, neighbors) && IsMajority(chosen, voters);
  }

  /** With no training rows or a non-positive k nobody votes, and the only
      possible answer is "". */
  lemma NoVotersMeansEmptyLabel(chosen: string, neighbors: seq<Neighbor>, k: int)
    requires k <= 0 || neighbors == []
    ensures KnnVote(chosen, neighbors, k) <==> chosen == ""
  {
    NearerOrEqualIsTotalPreorder();
    Sorting.SortedPermutationExists(neighbors, NearerOrEqual);
    var s: seq<Neighbor> :| Sorting.SortedBy(s, NearerOrEqual) && multiset(s) == multiset(neighbors);
    assert |s| == |multiset(s)| == |multiset(neighbors)| == |neighbors|;
    assert s[..VoterCount(k, |s|)] == [];
    if chosen == "" {
      assert IsMajority(chosen, s[..VoterCount(k, |s|)]);
    }
  }

  /** With k = 1 the answer is the label of a training row at the smallest
      distance. */
  lemma {:induction false} OneNeighbourVote(chosen: string, neighbors: seq<Neighbor>)
    requires neighbors != []
    requires KnnVote(chosen, neighbors, 1)
    ensures exists i :: 0 <= i < |neighbors| && neighbors[i].category == chosen &&
              forall j :: 0 <= j < |neighbors| ==> AtMost(neighbors[i].dist, neighbors[j].dist)
  {
    var s: seq<Neighbor> :| Ranking(s, neighbors) && IsMajority(chosen, s[..VoterCount(1, |s|)]);
    assert |s| == |multiset(s)| == |neighbors|;
    var voters := s[..1];
    CountLabelPositive(voters, chosen);
    assert s[0].category == chosen;
    assert s[0] in multiset(neighbors);
    var i :| 0 <= i < |neighbors| && neighbors[i] == s[0];
    forall j | 0 <= j < |neighbors| ensures AtMost(neighbors[i].dist, neighbors[j].dist) {
      assert neighbors[j] in multiset(s);
      var p :| 0 <= p < |s| && s[p] == neighbors[j];
      if p > 0 { assert NearerOrEqual(s[0], s[p]); } else { OrderFacts(s[0].dist, s[0].dist, s[0].dist); }
    }
  }

  /** When every training row carries the same label, any k > 0 returns it. */
  lemma UnanimousVote(chosen: string, neighbors: seq<Neighbor>, k: int, l: string)
    requires k > 0 && neighbors != []
    requires forall i :: 0 <= i < |neighbors| ==> neighbors[i].category == l
    requires KnnVote(chosen, neighbors, k)
    ensures chosen == l
  {
    var s: seq<Neighbor> :| Ranking(s, neighbors) && IsMajority(chosen, s[..VoterCount(k, |s|)]);
    assert |s| == |multiset(s)| == |neighbors|;
    var voters := s[..VoterCount(k, |s|)];
    CountLabelPositive(voters, chosen);
    var i :| 0 <= i < |voters| && voters[i].category == chosen;
    assert s[i] in multiset(neighbors);
  }
}
