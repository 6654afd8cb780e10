/** exercises/clustering/clustering.go: Lloyd's k-means over points read from
    a CSV file whose first column is a name. */
module Clustering {
  import opened Results
  import opened Text
  import opened Vectors
  import opened Records

  /** A point (`Point`, a slice of float64) is a `seq<real>`. */
  type Point = seq<real>

  /** A centroid and the points assigned to it, in input order. */
  datatype Cluster = Cluster(centroid: Point, points: seq<Point>)

  /** `distance`: +Inf on points of different dimension, otherwise the
      (squared) Euclidean distance. */
  method Distance(p1: Point, p2: Point) returns (d: Distance)
    ensures d == Dist(p1, p2)
    ensures d.Finite? <==> |p1| == |p2|
    ensures d == Finite(0.0) <==> p1 == p2
  {
    DistProperties(p1, p2);
    if |p1| != |p2| {
      return Infinite;
    }
    var sum := 0.0;
    for i := 0 to |p1|
      invariant sum == SumSq(p1, p2, i)
    {
      var diff := p1[i] - p2[i];
      sum := sum + Square(diff);
    }
    return Finite(sum);
  }

  /** `idx` is where the scan of `findClosestCluster` over `centroids` stops:
      strictly nearer than every earlier centroid and no farther than any
      later one (0 when there are no centroids). */
  predicate IsFirstClosest(point: Point, centroids: seq<Point>, idx: nat)
  {
    if centroids == [] then idx == 0
    else
      idx < |centroids| &&
      (forall j :: 0 <= j < idx ==> Below(Dist(point, centroids[idx]), Dist(point, centroids[j]))) &&
      (forall j :: idx < j < |centroids| ==> AtMost(Dist(point, centroids[idx]), Dist(point, centroids[j])))
  }

  /** The loop state of `findClosestCluster` after the first `n` centroids:
      the index found so far and the distance to beat. */
  function Scan(point: Point, centroids: seq<Point>, n: nat): (r: (nat, Distance))
    requires n <= |centroids|
    ensures n == 0 ==> r == (0, Infinite)
    ensures n > 0 ==> r.0 < n && r.1 == Dist(point, centroids[r.0])
    ensures n > 0 ==> forall j :: 0 <= j < r.0 ==> Below(r.1, Dist(point, centroids[j]))
    ensures n > 0 ==> forall j :: r.0 < j < n ==> AtMost(r.1, Dist(point, centroids[j]))
  {
    if n == 0 then (0, Infinite)
    else
      var prev := Scan(point, centroids, n - 1);
      var d := Dist(point, centroids[n - 1]);
      if Below(d, prev.1) then
        assert forall j :: 0 <= j < n - 1 ==> Below(d, Dist(point, centroids[j])) by {
          forall j | 0 <= j < n - 1 ensures Below(d, Dist(point, centroids[j])) {
            OrderFacts(d, prev.1, Dist(point, centroids[j]));
            if j != prev.0 {
              OrderFacts(prev.1, Dist(point, centroids[j]), Dist(point, centroids[j]));
            }
          }
        }
        (n - 1, d)
      else
        prev
  }

  /** The index of the centroid `findClosestCluster` picks. */
  function Closest(point: Point, centroids: seq<Point>): (idx: nat)
    ensures IsFirstClosest(point, centroids, idx)
  {
    Scan(point, centroids, |centroids|).0
  }

  /** The first-closest index is unique, so `Closest` is the only answer. */
  lemma FirstClosestUnique(point: Point, centroids: seq<Point>, i: nat, j: nat)
    requires IsFirstClosest(point, centroids, i) && IsFirstClosest(point, centroids, j)
    ensures i == j
  {
    if centroids != [] && i != j {
      var di := Dist(point, centroids[i]);
      var dj := Dist(point, centroids[j]);
      OrderFacts(di, dj, di);
    }
  }

  /** `findClosestCluster`. */
  method FindClosestCluster(point: Point, centroids: seq<Point>) returns (closestIdx: nat)
    ensures closestIdx == Closest(point, centroids)
    ensures IsFirstClosest(point, centroids, closestIdx)
    ensures centroids != [] ==> closestIdx < |centroids|
  {
    var minDist := Infinite;
    closestIdx := 0;
    for i := 0 to |centroids|
      invariant (closestIdx, minDist) == Scan(point, centroids, i)
    {
      var dist := Distance(point, centroids[i]);
      if Below(dist, minDist) {
        minDist := dist;
        closestIdx := i;
      }
    }
  }

  /** The points a centroid may be computed from: none is longer than the
      first (the source writes each coordinate into a slice as long as the
      first point). */
  predicate FitsFirst(points: seq<Point>)
  {
    forall i :: 0 <= i < |points| ==> |points[i]| <= |points[0]|
  }

  /** Every cluster's points can be averaged. */
  predicate AllFit(clusters: seq<Cluster>)
  {
    forall c :: 0 <= c < |clusters| ==> FitsFirst(clusters[c].points)
  }

  /** Coordinate `c` summed over the points that have it. */
  function ColumnSum(points: seq<Point>, c: nat): real
  {
    if points == [] then 0.0
    else
      var last := points[|points| - 1];
      ColumnSum(points[..|points| - 1], c) + (if c < |last| then last[c] else 0.0)
  }

  /** The mean the source computes: as many coordinates as the first point,
      each the column sum divided by the number of points. */
  function Centroid(points: seq<Point>): (c: Point)
    requires |points| > 0
    ensures |c| == |points[0]|
    ensures forall i :: 0 <= i < |c| ==> c[i] == ColumnSum(points, i) / |points| as real
  {
    seq(|points[0]|, i requires 0 <= i < |points[0]| => ColumnSum(points, i) / |points| as real)
  }

  /** `calculateCentroid`: nil (here the empty point) for no points,
      otherwise the mean of the points. */
  method CalculateCentroid(points: seq<Point>) returns (centroid: Point)
    requires FitsFirst(points)
    ensures points == [] ==> centroid == []
    ensures points != [] ==> centroid == Centroid(points)
  {
    if |points| == 0 {
      return [];
    }
    var dimensions := |points[0]|;
    var sums := new real[dimensions](_ => 0.0);
    for p := 0 to |points|
      invariant forall c :: 0 <= c < dimensions ==> sums[c] == ColumnSum(points[..p], c)
    {
      var point := points[p];
      assert points[..p + 1][..p] == points[..p];
      for i := 0 to |point|
        invariant forall c :: 0 <= c < i ==> sums[c] == ColumnSum(points[..p + 1], c)
        invariant forall c :: i <= c < dimensions ==> sums[c] == ColumnSum(points[..p], c)
      {
        sums[i] := sums[i] + point[i];
      }
    }
    assert points[..|points|] == points;
    for i := 0 to dimensions
      invariant forall c :: 0 <= c < i ==> sums[c] == ColumnSum(points, c) / |points| as real
      invariant forall c :: i <= c < dimensions ==> sums[c] == ColumnSum(points, c)
    {
      sums[i] := sums[i] / |points| as real;
    }
    centroid := sums[..];
  }

  /** Every coordinate summed over `n` copies of one point is `n` times it. */
  lemma {:induction false} ColumnSumOfCopies(points: seq<Point>, p: Point, c: nat)
    requires forall i :: 0 <= i < |points| ==> points[i] == p
    requires c < |p|
    ensures ColumnSum(points, c) == |points| as real * p[c]
  {
    if points != [] {
      ColumnSumOfCopies(points[..|points| - 1], p, c);
    }
  }

  /** The centroid of copies of one point is that point. */
  lemma CentroidOfCopies(points: seq<Point>, p: Point)
    requires |points| > 0
    requires forall i :: 0 <= i < |points| ==> points[i] == p
    ensures Centroid(points) == p
  {
    forall c | 0 <= c < |p| ensures Centroid(points)[c] == p[c] {
      ColumnSumOfCopies(points, p, c);
    }
  }

  /** Every point has the dimension of the first. */
  predicate SameDimension(data: seq<Point>)
  {
    forall i :: 0 <= i < |data| ==> |data[i]| == |data[0]|
  }

  /** The points of `data`, in input order, whose closest centroid is `c`. */
  function Members(data: seq<Point>, centroids: seq<Point>, c: nat): (m: seq<Point>)
    ensures |m| <= |data|
  {
    if data == [] then []
    else
      var n := |data| - 1;
      Members(data[..n], centroids, c) + (if Closest(data[n], centroids) == c then [data[n]] else [])
  }

  /** One more point joins exactly the cluster of its closest centroid. */
  lemma MembersNext(data: seq<Point>, centroids: seq<Point>, d: nat)
    requires d < |data|
    ensures forall c :: (Members(data[..d + 1], centroids, c) ==
      Members(data[..d], centroids, c) + (if Closest(data[d], centroids) == c then [data[d]] else []))
  {
    assert data[..d + 1][..d] == data[..d];
  }

  /** A member of cluster `c` is a point of the data whose closest centroid is `c`. */
  lemma {:induction false} MembersSound(data: seq<Point>, centroids: seq<Point>, c: nat)
    ensures forall i :: 0 <= i < |Members(data, centroids, c)| ==>
      Members(data, centroids, c)[i] in data && Closest(Members(data, centroids, c)[i], centroids) == c
  {
    if data != [] {
      var n := |data| - 1;
      MembersSound(data[..n], centroids, c);
      var front := Members(data[..n], centroids, c);
      forall i | 0 <= i < |front| ensures front[i] in data {
        var a :| 0 <= a < n && data[..n][a] == front[i];
        assert data[a] == front[i];
      }
    }
  }

  /** One assignment pass: cluster `c` has centroid `c` and the points that
      are closest to it. */
  function Assign(data: seq<Point>, centroids: seq<Point>): (r: seq<Cluster>)
    ensures |r| == |centroids|
    ensures forall c :: 0 <= c < |centroids| ==> r[c] == Cluster(centroids[c], Members(data, centroids, c))
  {
    seq(|centroids|, c requires 0 <= c < |centroids| => Cluster(centroids[c], Members(data, centroids, c)))
  }

  /** Points drawn from `data` all fit the first of them. */
  lemma DrawnPointsFit(data: seq<Point>, points: seq<Point>)
    requires SameDimension(data)
    requires forall i :: 0 <= i < |points| ==> points[i] in data
    ensures FitsFirst(points)
  {
    forall i | 0 <= i < |points| ensures |points[i]| <= |points[0]| {
      var a :| 0 <= a < |data| && data[a] == points[i];
      var b :| 0 <= b < |data| && data[b] == points[0];
    }
  }

  /** The clusters of an assignment pass over `data`. */
  predicate AssignedFrom(data: seq<Point>, clusters: seq<Cluster>)
  {
    forall c :: 0 <= c < |clusters| ==> forall i :: 0 <= i < |clusters[c].points| ==> clusters[c].points[i] in data
  }

  /** The update step: a cluster with points moves its centroid to their
      mean; an empty cluster keeps its centroid. */
  function Update(centroids: seq<Point>, clusters: seq<Cluster>): (r: seq<Point>)
    requires |clusters| == |centroids|
    requires AllFit(clusters)
    ensures |r| == |centroids|
  {
    seq(|centroids|, c requires 0 <= c < |centroids| =>
      if clusters[c].points == [] then centroids[c] else Centroid(clusters[c].points))
  }

  /** After an update, a cluster with points sits at their mean and an
      empty cluster keeps its centroid. */
  lemma UpdateMovesToMeans(centroids: seq<Point>, clusters: seq<Cluster>)
    requires |clusters| == |centroids|
    requires AllFit(clusters)
    ensures forall c :: 0 <= c < |centroids| && clusters[c].points == [] ==> Update(centroids, clusters)[c] == centroids[c]
    ensures forall c :: 0 <= c < |centroids| && clusters[c].points != [] ==> Update(centroids, clusters)[c] == Centroid(clusters[c].points)
  {
  }

  /** `1e-6` squared: the convergence threshold on the squared distance. */
  const Tolerance: real := 1.0 / 1000000000000.0

  /** The source's `distance(old, new) > 1e-6`. */
  predicate Moved(before: Point, after: Point)
  {
    Below(Finite(Tolerance), Dist(before, after))
  }

  /** No non-empty cluster's mean lies farther than the threshold from its
      current centroid. */
  predicate Converged(centroids: seq<Point>, clusters: seq<Cluster>)
    requires |clusters| == |centroids|
    requires AllFit(clusters)
  {
    forall c :: 0 <= c < |clusters| && clusters[c].points != [] ==> !Moved(centroids[c], Centroid(clusters[c].points))
  }

  /** The iteration of `kmeans` from the given centroids with `iterations`
      rounds left: each round assigns the points; if no centroid then moves,
      the clusters of that round (with the centroids they were assigned to)
      are the result; otherwise the centroids are updated. When the rounds
      run out, a final assignment to the current centroids is the result. */
  function Lloyd(data: seq<Point>, centroids: seq<Point>, iterations: int): (r: seq<Cluster>)
    requires SameDimension(data)
    ensures |r| == |centroids|
    ensures r == Assign(data, CentroidsOf(r))
    decreases iterations
  {
    var clusters := Assign(data, centroids);
    AssignKeepsCentroids(data, centroids);
    if iterations <= 0 then clusters
    else
      assert AllFit(clusters) by {
        forall c | 0 <= c < |clusters| ensures FitsFirst(clusters[c].points) {
          MembersSound(data, centroids, c);
          DrawnPointsFit(data, clusters[c].points);
        }
      }
      if Converged(centroids, clusters) then clusters
      else Lloyd(data, Update(centroids, clusters), iterations - 1)
  }

  /** One unfolding of `Lloyd`. */
  lemma LloydStep(data: seq<Point>, centroids: seq<Point>, iterations: int)
    requires SameDimension(data)
    ensures AllFit(Assign(data, centroids))
    ensures iterations <= 0 ==> Lloyd(data, centroids, iterations) == Assign(data, centroids)
    ensures iterations > 0 && Converged(centroids, Assign(data, centroids)) ==>
      Lloyd(data, centroids, iterations) == Assign(data, centroids)
    ensures iterations > 0 && !Converged(centroids, Assign(data, centroids)) ==>
      Lloyd(data, centroids, iterations) == Lloyd(data, Update(centroids, Assign(data, centroids)), iterations - 1)
  {
    var clusters := Assign(data, centroids);
    forall c | 0 <= c < |clusters| ensures FitsFirst(clusters[c].points) {
      MembersSound(data, centroids, c);
      DrawnPointsFit(data, clusters[c].points);
    }
  }

  /** The initial centroids: copies of the data points at the drawn indices. */
  function InitialCentroids(data: seq<Point>, initIdx: seq<nat>): (r: seq<Point>)
    requires forall i :: 0 <= i < |initIdx| ==> initIdx[i] < |data|
    ensures |r| == |initIdx|
    ensures forall i :: 0 <= i < |r| ==> r[i] == data[initIdx[i]]
  {
    seq(|initIdx|, i requires 0 <= i < |initIdx| => data[initIdx[i]])
  }

  /** The random draws `rand.Intn(len(data))` of the initialisation. */
  predicate ValidDraws(data: seq<Point>, k: int, initIdx: seq<nat>)
  {
    |data| > 0 && k > 0 ==> |initIdx| == k && forall i :: 0 <= i < k ==> initIdx[i] < |data|
  }

  /** What `kmeans` returns: nil (here no clusters) for no data or k <= 0. */
  function KMeansResult(data: seq<Point>, k: int, maxIterations: int, initIdx: seq<nat>): (r: seq<Cluster>)
    requires SameDimension(data) && ValidDraws(data, k, initIdx)
    ensures |data| == 0 || k <= 0 ==> r == []
    ensures |data| > 0 && k > 0 ==> |r| == k
  {
    if |data| == 0 || k <= 0 then []
    else Lloyd(data, InitialCentroids(data, initIdx), maxIterations)
  }

  /** The assignment loop of one round: every point joins the cluster of its
      closest centroid, in input order. */
  method AssignPoints(data: seq<Point>, centroids: seq<Point>) returns (clusters: seq<Cluster>)
    requires |centroids| > 0
    ensures clusters == Assign(data, centroids)
  {
    var cl := new Cluster[|centroids|](c requires 0 <= c < |centroids| => Cluster(centroids[c], []));
    for d := 0 to |data|
      invariant forall c :: 0 <= c < |centroids| ==> cl[c] == Cluster(centroids[c], Members(data[..d], centroids, c))
    {
      var point := data[d];
      MembersNext(data, centroids, d);
      var closestIdx := FindClosestCluster(point, centroids);
      cl[closestIdx] := cl[closestIdx].(points := cl[closestIdx].points + [point]);
    }
    assert data[..|data|] == data;
    clusters := cl[..];
  }

  /** The update loop of one round; the result says whether no centroid moved. */
  method UpdateCentroids(centroids: array<Point>, clusters: seq<Cluster>) returns (converged: bool)
    requires |clusters| == centroids.Length
    requires AllFit(clusters)
    modifies centroids
    ensures centroids[..] == Update(old(centroids[..]), clusters)
    ensures converged == Converged(old(centroids[..]), clusters)
  {
    converged := true;
    for i := 0 to centroids.Length
      invariant forall c :: 0 <= c < i ==>
        centroids[c] == if clusters[c].points == [] then old(centroids[c]) else Centroid(clusters[c].points)
      invariant forall c :: i <= c < centroids.Length ==> centroids[c] == old(centroids[c])
      invariant converged == forall c :: 0 <= c < i && clusters[c].points != [] ==>
        !Moved(old(centroids[c]), Centroid(clusters[c].points))
    {
      if |clusters[i].points| > 0 {
        var newCentroid := CalculateCentroid(clusters[i].points);
        var d := Distance(centroids[i], newCentroid);
        if Below(Finite(Tolerance), d) {
          converged := false;
        }
        centroids[i] := newCentroid;
      }
    }
    UpdateMovesToMeans(old(centroids[..]), clusters);
  }

  /** `kmeans` with the random initial indices as a parameter. */
  method KMeans(data: seq<Point>, k: int, maxIterations: int, initIdx: seq<nat>) returns (r: seq<Cluster>)
    requires SameDimension(data)
    requires ValidDraws(data, k, initIdx)
    ensures r == KMeansResult(data, k, maxIterations, initIdx)
  {
    if |data| == 0 || k <= 0 {
      return [];
    }
    var centroids := new Point[k](i requires 0 <= i < k => data[initIdx[i]]);
    assert centroids[..] == InitialCentroids(data, initIdx);
    var iteration := 0;
    ghost var goal := KMeansResult(data, k, maxIterations, initIdx);
    ghost var left := maxIterations;
    assert Lloyd(data, centroids[..], left) == goal;
    while iteration < maxIterations
      invariant left == maxIterations - iteration
      invariant Lloyd(data, centroids[..], left) == goal
      decreases left
    {
      var before := centroids[..];
      var clusters := AssignPoints(data, before);
      LloydStep(data, before, left);
      var converged := UpdateCentroids(centroids, clusters);
      if converged {
        return clusters;
      }
      assert !Converged(before, Assign(data, before));
      assert centroids[..] == Update(before, Assign(data, before));
      assert Lloyd(data, centroids[..], left - 1) == goal;
      iteration := iteration + 1;
      left := left - 1;
    }
    LloydStep(data, centroids[..], left);
    r := AssignPoints(data, centroids[..]);
  }

  /** The centroids of a list of clusters. */
  function CentroidsOf(clusters: seq<Cluster>): (r: seq<Point>)
    ensures |r| == |clusters|
    ensures forall c :: 0 <= c < |r| ==> r[c] == clusters[c].centroid
  {
    seq(|clusters|, c requires 0 <= c < |clusters| => clusters[c].centroid)
  }

  lemma AssignKeepsCentroids(data: seq<Point>, centroids: seq<Point>)
    ensures CentroidsOf(Assign(data, centroids)) == centroids
  {
  }

  /** How many points of `data` have a closest centroid below `n`. */
  function CountBelow(data: seq<Point>, centroids: seq<Point>, n: nat): nat
  {
    if data == [] then 0
    else
      var m := |data| - 1;
      CountBelow(data[..m], centroids, n) + (if Closest(data[m], centroids) < n then 1 else 0)
  }

  lemma {:induction false} CountBelowStep(data: seq<Point>, centroids: seq<Point>, n: nat)
    ensures CountBelow(data, centroids, n + 1) == CountBelow(data, centroids, n) + |Members(data, centroids, n)|
  {
    if data != [] {
      CountBelowStep(data[..|data| - 1], centroids, n);
    }
  }

  lemma {:induction false} CountBelowAll(data: seq<Point>, centroids: seq<Point>)
    requires centroids != []
    ensures CountBelow(data, centroids, |centroids|) == |data|
  {
    if data != [] {
      CountBelowAll(data[..|data| - 1], centroids);
    }
  }

  /** The number of points held by the first `n` clusters. */
  function TotalSize(clusters: seq<Cluster>, n: nat): nat
    requires n <= |clusters|
  {
    if n == 0 then 0 else TotalSize(clusters, n - 1) + |clusters[n - 1].points|
  }

  lemma {:induction false} AssignSizes(data: seq<Point>, centroids: seq<Point>, n: nat)
    requires n <= |centroids|
    ensures TotalSize(Assign(data, centroids), n) == CountBelow(data, centroids, n)
  {
    if n == 0 {
      assert CountBelow(data, centroids, 0) == 0 by { CountBelowNone(data, centroids); }
    } else {
      AssignSizes(data, centroids, n - 1);
      CountBelowStep(data, centroids, n - 1);
    }
  }

  lemma {:induction false} CountBelowNone(data: seq<Point>, centroids: seq<Point>)
    ensures CountBelow(data, centroids, 0) == 0
  {
    if data != [] {
      CountBelowNone(data[..|data| - 1], centroids);
    }
  }

  /** A point of `data` is a member of the cluster of its closest centroid. */
  lemma {:induction false} MembersComplete(data: seq<Point>, centroids: seq<Point>, p: Point)
    requires p in data
    ensures p in Members(data, centroids, Closest(p, centroids))
  {
    var n := |data| - 1;
    if data[n] != p {
      assert p in data[..n] by {
        var a :| 0 <= a < |data| && data[a] == p;
        assert a < n && data[..n][a] == p;
      }
      MembersComplete(data[..n], centroids, p);
    }
  }

  /** What `kmeans` returns for non-empty data and k > 0: k clusters that
      together hold every point exactly as often as the data does (counted by
      size), where every point sits in the cluster whose centroid is its
      first closest, and every point of the data appears in that cluster. */
  lemma KMeansPartition(data: seq<Point>, k: int, maxIterations: int, initIdx: seq<nat>)
    requires SameDimension(data) && ValidDraws(data, k, initIdx)
    requires |data| > 0 && k > 0
    ensures var r := KMeansResult(data, k, maxIterations, initIdx);
      |r| == k &&
      TotalSize(r, k) == |data| &&
      (forall c, i :: 0 <= c < k && 0 <= i < |r[c].points| ==>
        r[c].points[i] in data && IsFirstClosest(r[c].points[i], CentroidsOf(r), c)) &&
      (forall p :: p in data ==> exists c :: 0 <= c < k && p in r[c].points)
  {
    var r := KMeansResult(data, k, maxIterations, initIdx);
    var init := InitialCentroids(data, initIdx);
    var cs := CentroidsOf(r);
    assert r == Assign(data, cs);
    AssignSizes(data, cs, k);
    CountBelowAll(data, cs);
    forall c | 0 <= c < k { MembersSound(data, cs, c); }
    forall p | p in data ensures exists c :: 0 <= c < k && p in r[c].points {
      MembersComplete(data, cs, p);
      var c := Closest(p, cs);
      assert p in r[c].points;
    }
  }

  /** The errors `loadData` reports after reading the file. */
  datatype LoadError =
    | NotEnoughData
      /** `row` counts the surviving data rows from 1, `col` is the CSV column. */
    | ParseError(row: nat, col: nat)

  /** The fields `from .. n-1` of `row`, trimmed, all parse as numbers. */
  predicate ValuesParse(row: seq<string>, parse: string -> Option<real>, from: nat, n: nat)
    requires n <= |row|
  {
    forall j :: from <= j < n ==> parse(TrimSpace(row[j])).Some?
  }

  /** The point of a row whose values parse: every field after the first. */
  function RowPoint(row: seq<string>, parse: string -> Option<real>): (p: Point)
    requires |row| >= 1 && ValuesParse(row, parse, 1, |row|)
    ensures |p| == |row| - 1
    ensures forall j :: 0 <= j < |p| ==> Some(p[j]) == parse(TrimSpace(row[j + 1]))
  {
    seq(|row| - 1, j requires 0 <= j < |row| - 1 => parse(TrimSpace(row[j + 1])).value)
  }

  /** The inner loop of `loadData`: parse every field after the first, stopping
      at the first column that does not parse. */
  method ParseRow(row: seq<string>, parse: string -> Option<real>) returns (res: Result<Point, nat>)
    requires |row| >= 1
    ensures res.Ok? <==> ValuesParse(row, parse, 1, |row|)
    ensures res.Ok? ==> res.value == RowPoint(row, parse)
    ensures res.Err? ==>
      1 <= res.error < |row| && parse(TrimSpace(row[res.error])).None? && ValuesParse(row, parse, 1, res.error)
  {
    var point := new real[|row| - 1];
    for j := 1 to |row|
      invariant ValuesParse(row, parse, 1, j)
      invariant forall b :: 1 <= b < j ==> Some(point[b - 1]) == parse(TrimSpace(row[b]))
    {
      var val := parse(TrimSpace(row[j]));
      if val.None? {
        return Err(j);
      }
      point[j - 1] := val.value;
    }
    return Ok(point[..]);
  }

  /** The row has an area name and every value after it parses. */
  predicate RowParses(row: seq<string>, parse: string -> Option<real>)
  {
    |row| >= 1 && ValuesParse(row, parse, 1, |row|)
  }

  /** Every row of `valid` parses. */
  predicate AllRowsParse(valid: seq<seq<string>>, parse: string -> Option<real>)
  {
    forall i :: 0 <= i < |valid| ==> RowParses(valid[i], parse)
  }

  /** `points` holds, in order, the point of every row of `valid`. */
  predicate Loaded(points: seq<Point>, valid: seq<seq<string>>, parse: string -> Option<real>)
  {
    |points| == |valid| &&
    forall i :: 0 <= i < |valid| ==> RowParses(valid[i], parse) && points[i] == RowPoint(valid[i], parse)
  }

  /** `e` names the first row of `valid` that fails to parse (counting from 1)
      and the first failing column in it. */
  predicate FirstFailure(e: LoadError, valid: seq<seq<string>>, parse: string -> Option<real>)
  {
    e.ParseError? && 1 <= e.row <= |valid| &&
    1 <= e.col < |valid[e.row - 1]| &&
    parse(TrimSpace(valid[e.row - 1][e.col])).None? &&
    ValuesParse(valid[e.row - 1], parse, 1, e.col) &&
    forall i :: 0 <= i < e.row - 1 ==> RowParses(valid[i], parse)
  }

  /** `loadData` after the file has been read into `records`: the same row
      filter as the classifier's loader, then the first column (the area
      name) is dropped and the rest parsed. */
  method LoadData(records: seq<seq<string>>, parse: string -> Option<real>) returns (r: Result<seq<Point>, LoadError>)
    ensures |records| < 2 ==> r == Err(NotEnoughData)
    ensures |records| >= 2 ==> (r.Ok? <==> AllRowsParse(KeptRecords(records[1..]), parse))
    ensures r.Ok? ==> (|records| >= 2 && Loaded(r.value, KeptRecords(records[1..]), parse))
    ensures r.Err? && |records| >= 2 ==> FirstFailure(r.error, KeptRecords(records[1..]), parse)
  {
    if |records| < 2 {
      return Err(NotEnoughData);
    }
    var validRecords := FilterRecords(records);
    r := ParseRecords(validRecords, parse);
  }

  /** The parsing loop of `loadData`: one point per surviving row, in order,
      stopping at the first row with a value that does not parse. */
  method ParseRecords(validRecords: seq<seq<string>>, parse: string -> Option<real>) returns (r: Result<seq<Point>, LoadError>)
    requires forall i :: 0 <= i < |validRecords| ==> KeepRecord(validRecords[i])
    ensures r.Ok? <==> AllRowsParse(validRecords, parse)
    ensures r.Ok? ==> Loaded(r.value, validRecords, parse)
    ensures r.Err? ==> FirstFailure(r.error, validRecords, parse)
  {
    var points: seq<Point> := seq(|validRecords|, _ => []);
    for i := 0 to |validRecords|
      invariant |points| == |validRecords|
      invariant forall a :: 0 <= a < i ==>
        RowParses(validRecords[a], parse) && points[a] == RowPoint(validRecords[a], parse)
    {
      var row := validRecords[i];
      assert KeepRecord(row);
      var point := ParseRow(row, parse);
      if point.Err? {
        FailureAt(validRecords, parse, i, point.error);
        return Err(ParseError(i + 1, point.error));
      }
      points := points[i := point.value];
    }
    return Ok(points);
  }

  /** Row `i` failing at column `col` after every earlier row parsed is the
      first failure, and not every row parses. */
  lemma FailureAt(valid: seq<seq<string>>, parse: string -> Option<real>, i: nat, col: nat)
    requires i < |valid| && 1 <= col < |valid[i]|
    requires parse(TrimSpace(valid[i][col])).None? && ValuesParse(valid[i], parse, 1, col)
    requires forall a :: 0 <= a < i ==> RowParses(valid[a], parse)
    ensures FirstFailure(ParseError(i + 1, col), valid, parse)
    ensures !AllRowsParse(valid, parse)
  {
    assert !RowParses(valid[i], parse);
  }
}
