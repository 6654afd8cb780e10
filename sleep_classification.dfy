/** exercises/classification/sleep_classification.go: a second, free-standing
    k-nearest-neighbours pipeline over four numeric features, with a seeded
    permutation split and a line of user input to classify. */
module SleepClassification {
  import opened Results
  import opened Text
  import opened Vectors
  import opened Splitting
  import opened Records
  import Voting
  import Sorting
  import Confusion
  import Classification

  /** The two ways reading numbers can fail. */
  datatype InputError =
    | InvalidNumber
      /** `got` is the number of fields found instead of four. */
    | WrongFieldCount(got: nat)

  /** The records after the header (none when there are no records). */
  function Body(records: seq<seq<string>>): seq<seq<string>>
  {
    if records == [] then [] else records[1..]
  }

  lemma BodyStep(records: seq<seq<string>>, i: nat)
    requires 0 < i < |records|
    ensures Body(records[..i + 1]) == Body(records[..i]) + [records[i]]
  {
  }

  /** A long row after the header whose features do not parse is a
      surviving row that fails. */
  lemma UnparsedRow(records: seq<seq<string>>, i: nat, parse: string -> Option<real>)
    requires 0 < i < |records| && |records[i]| >= 5
    requires !Classification.FieldsParse(records[i], parse, 4)
    ensures !forall k :: 0 <= k < |Wide(Body(records), 5)| ==> Classification.FieldsParse(Wide(Body(records), 5)[k], parse, 4)
  {
    WideMembers(Body(records), 5, records[i]);
    assert records[i] == Body(records)[i - 1];
    var k :| 0 <= k < |Wide(Body(records), 5)| && Wide(Body(records), 5)[k] == records[i];
  }

  /** The four features of a row whose first four fields parse. */
  function FourFeatures(row: seq<string>, parse: string -> Option<real>): (v: seq<real>)
    requires |row| >= 4 && Classification.FieldsParse(row, parse, 4)
    ensures |v| == 4
    ensures forall j :: 0 <= j < 4 ==> Some(v[j]) == parse(TrimSpace(row[j]))
  {
    seq(4, j requires 0 <= j < 4 => parse(TrimSpace(row[j])).value)
  }

  /** The parsing loop of `loadCSV` for one row. */
  method ParseFour(row: seq<string>, parse: string -> Option<real>) returns (res: Option<seq<real>>)
    requires |row| >= 4
    ensures res.Some? <==> Classification.FieldsParse(row, parse, 4)
    ensures res.Some? ==> res.value == FourFeatures(row, parse)
  {
    var feat := new real[4];
    for j := 0 to 4
      invariant Classification.FieldsParse(row, parse, j)
      invariant forall b :: 0 <= b < j ==> Some(feat[b]) == parse(TrimSpace(row[b]))
    {
      var val := parse(TrimSpace(row[j]));
      if val.None? {
        return None;
      }
      feat[j] := val.value;
    }
    return Some(feat[..]);
  }

  /** `loadCSV` after the file has been read: the header and every row with
      fewer than five fields are skipped; a surviving row contributes its
      first four fields, trimmed and parsed, and its fifth field, trimmed, as
      the label. The first field that does not parse aborts the load. */
  method LoadCSV(records: seq<seq<string>>, parse: string -> Option<real>) returns (r: Result<Classification.Data, InputError>)
    ensures r.Ok? <==> forall i :: 0 <= i < |Wide(Body(records), 5)| ==> Classification.FieldsParse(Wide(Body(records), 5)[i], parse, 4)
    ensures r.Err? ==> r.error == InvalidNumber
    ensures r.Ok? ==> Loaded(r.value, Wide(Body(records), 5), parse)
  {
    var features: seq<seq<real>> := [];
    var labels: seq<string> := [];
    for i := 0 to |records|
      invariant Loaded(Classification.Data(features, labels), Wide(Body(records[..i]), 5), parse)
    {
      if i == 0 {
        assert Body(records[..1]) == [];
        continue;
      }
      var row := records[i];
      BodyStep(records, i);
      WideStep(Body(records[..i]), 5, row);
      if |row| < 5 {
        continue;
      }
      var feat := ParseFour(row, parse);
      if feat.None? {
        UnparsedRow(records, i, parse);
        return Err(InvalidNumber);
      }
      LoadedNext(Classification.Data(features, labels), Wide(Body(records[..i]), 5), row, parse);
      features := features + [feat.value];
      labels := labels + [TrimSpace(row[4])];
    }
    assert records[..|records|] == records;
    r := Ok(Classification.Data(features, labels));
  }

  /** `d` holds, in order, the four features and the label of every row of `rows`. */
  predicate Loaded(d: Classification.Data, rows: seq<seq<string>>, parse: string -> Option<real>)
  {
    |d.features| == |rows| && |d.labels| == |rows| &&
    forall i :: 0 <= i < |rows| ==>
      |rows[i]| >= 5 &&
      Classification.FieldsParse(rows[i], parse, 4) &&
      d.features[i] == FourFeatures(rows[i], parse) &&
      d.labels[i] == TrimSpace(rows[i][4])
  }

  /** Loading one more wide row whose four fields parse appends its
      features and label. */
  lemma LoadedNext(d: Classification.Data, rows: seq<seq<string>>, row: seq<string>, parse: string -> Option<real>)
    requires Loaded(d, rows, parse) && |row| >= 5 && Classification.FieldsParse(row, parse, 4)
    ensures Loaded(Classification.Data(d.features + [FourFeatures(row, parse)], d.labels + [TrimSpace(row[4])]), rows + [row], parse)
  {
  }

  /** `euclideanDistance` of this file: no length check; it ranges over `a`
      and so indexes `b` at every position of `a`. On vectors of equal length
      it agrees with the distance of classification.go. */
  method EuclideanDistance(a: seq<real>, b: seq<real>) returns (d: real)
    requires |a| <= |b|
    ensures d == SumSq(a, b, |a|)
    ensures d >= 0.0
    ensures |a| == |b| ==> Finite(d) == Dist(a, b)
  {
    SumSqNonNegative(a, b, |a|);
    var sum := 0.0;
    for i := 0 to |a|
      invariant sum == SumSq(a, b, i)
    {
      var diff := a[i] - b[i];
      sum := sum + Square(diff);
    }
    return sum;
  }

  /** Every training vector is at least as long as `point`. */
  predicate Fits(point: seq<real>, trainX: seq<seq<real>>)
  {
    forall j :: 0 <= j < |trainX| ==> |point| <= |trainX[j]|
  }

  /** The neighbours `knnPredict` ranks for one test point. */
  function Neighbors(point: seq<real>, trainX: seq<seq<real>>, trainY: seq<string>): (s: seq<Voting.Neighbor>)
    requires |trainY| >= |trainX| && Fits(point, trainX)
    ensures |s| == |trainX|
    ensures forall j :: 0 <= j < |trainX| ==> s[j] == Voting.Neighbor(Finite(SumSq(point, trainX[j], |point|)), trainY[j])
  {
    seq(|trainX|, j requires 0 <= j < |trainX| => Voting.Neighbor(Finite(SumSq(point, trainX[j], |point|)), trainY[j]))
  }

  /** The inner loop of `knnPredict` that pairs each training row's distance
      to `point` with its label. */
  method CollectNeighbors(point: seq<real>, trainX: seq<seq<real>>, trainY: seq<string>) returns (neighbors: seq<Voting.Neighbor>)
    requires |trainY| >= |trainX| && Fits(point, trainX)
    ensures neighbors == Neighbors(point, trainX, trainY)
  {
    neighbors := [];
    for j := 0 to |trainX|
      invariant |neighbors| == j
      invariant forall a :: 0 <= a < j ==> neighbors[a] == Voting.Neighbor(Finite(SumSq(point, trainX[a], |point|)), trainY[a])
    {
      var d := EuclideanDistance(point, trainX[j]);
      neighbors := neighbors + [Voting.Neighbor(Finite(d), trainY[j])];
    }
  }

  /** The source indexes `trainY` at every training row and every training
      vector at every position of each test vector. */
  predicate Compatible(trainX: seq<seq<real>>, trainY: seq<string>, testX: seq<seq<real>>)
  {
    (|testX| > 0 ==> |trainY| >= |trainX|) &&
    forall i :: 0 <= i < |testX| ==> Fits(testX[i], trainX)
  }

  /** `knnPredict`: for every test point, the outcome of a k-nearest vote over
      the training rows ranked by distance to it. */
  method KnnPredict(trainX: seq<seq<real>>, trainY: seq<string>, testX: seq<seq<real>>, k: int) returns (predictions: seq<string>)
    requires Compatible(trainX, trainY, testX)
    ensures |predictions| == |testX|
    ensures forall i :: 0 <= i < |testX| ==> Voting.KnnVote(predictions[i], Neighbors(testX[i], trainX, trainY), k)
  {
    predictions := [];
    for i := 0 to |testX|
      invariant |predictions| == i
      invariant forall a :: 0 <= a < i ==> Voting.KnnVote(predictions[a], Neighbors(testX[a], trainX, trainY), k)
    {
      var neighbors := CollectNeighbors(testX[i], trainX, trainY);
      var chosen := Voting.Vote(neighbors, k);
      ghost var prev := predictions;
      predictions := predictions + [chosen];
      forall a | 0 <= a < i + 1
        ensures Voting.KnnVote(predictions[a], Neighbors(testX[a], trainX, trainY), k)
      {
        if a < i {
          assert predictions[a] == prev[a];
        }
      }
    }
  }

  /** `computeAccuracy`: no length check, it indexes `predicted` at every
      position of `trueLabels`; NaN (here `None`) on an empty input. The share
      lies in [0, 1] and is 1 exactly when every prediction is right. */
  method ComputeAccuracy(trueLabels: seq<string>, predicted: seq<string>) returns (acc: Option<real>)
    requires |trueLabels| <= |predicted|
    ensures |trueLabels| == 0 ==> acc == None
    ensures |trueLabels| > 0 ==>
      acc == Some(Confusion.CountMatches(trueLabels, predicted) as real / |trueLabels| as real)
    ensures acc.Some? ==> 0.0 <= acc.value <= 1.0
    ensures |trueLabels| > 0 ==> (acc == Some(1.0) <==> trueLabels == predicted[..|trueLabels|])
  {
    var correct := 0;
    for i := 0 to |trueLabels|
      invariant correct == Confusion.CountMatches(trueLabels[..i], predicted)
    {
      assert trueLabels[..i + 1][..i] == trueLabels[..i];
      if trueLabels[i] == predicted[i] {
        correct := correct + 1;
      }
    }
    assert trueLabels[..|trueLabels|] == trueLabels;
    if |trueLabels| == 0 {
      return None;
    }
    Confusion.CountMatchesAllIff(trueLabels, predicted);
    Classification.ShareBounds(correct, |trueLabels|);
    acc := Some(correct as real / |trueLabels| as real);
  }

  /** `rand.Perm(n)` for the given random draws: the inside-out shuffle. */
  method Perm(picks: seq<nat>) returns (m: seq<nat>)
    requires ValidPicks(picks, |picks|)
    ensures m == PermPrefix(picks, |picks|)
    ensures IsPermutation(m, |picks|)
  {
    var a := new nat[|picks|];
    for i := 0 to |picks|
      invariant a[..i] == PermPrefix(picks, i)
    {
      var j := picks[i];
      ghost var prev := a[..i];
      a[i] := a[j];
      a[j] := i;
      assert a[..i + 1] == (prev + [0])[i := (prev + [0])[j]][j := i];
    }
    assert a[..|picks|] == a[..];
    PermPrefixIsPermutation(picks, |picks|);
    m := a[..];
  }

  /** `trainTestSplit` of this file: the rows named by the first
      `int(n * ratio)` entries of a seeded permutation go to training, the
      others to testing. A negative size sends every row to testing and a
      size beyond `n` every row to training; nothing panics. */
  method TrainTestSplit(x: seq<seq<real>>, y: seq<string>, ratio: real, picks: seq<nat>)
    returns (trainX: seq<seq<real>>, trainY: seq<string>, testX: seq<seq<real>>, testY: seq<string>)
    requires ValidPicks(picks, |x|)
    requires |y| >= |x|
    ensures var perm := PermPrefix(picks, |x|);
      var t := Clamp(TrainSize(|x|, ratio), |x|);
      IsPermutation(perm, |x|) &&
      trainX == Gather(x, perm[..t]) && trainY == Gather(y, perm[..t]) &&
      testX == Gather(x, perm[t..]) && testY == Gather(y, perm[t..])
  {
    var perm := Perm(picks);
    trainX, trainY, testX, testY := SplitBy(x, y, perm, TrainSize(|x|, ratio));
  }

  /** The loop of `trainTestSplit`: position `i` of the permutation sends row
      `perm[i]` to training when `i` is below the training size, otherwise to
      testing. */
  method SplitBy(x: seq<seq<real>>, y: seq<string>, perm: seq<nat>, trainSize: int)
    returns (trainX: seq<seq<real>>, trainY: seq<string>, testX: seq<seq<real>>, testY: seq<string>)
    requires |perm| == |x| <= |y|
    requires forall i :: 0 <= i < |perm| ==> perm[i] < |x|
    ensures var t := Clamp(trainSize, |x|);
      trainX == Gather(x, perm[..t]) && trainY == Gather(y, perm[..t]) &&
      testX == Gather(x, perm[t..]) && testY == Gather(y, perm[t..])
  {
    var n := |x|;
    trainX, trainY, testX, testY := [], [], [], [];
    for i := 0 to n
      invariant |trainX| == Clamp(trainSize, i) && |testX| == i - Clamp(trainSize, i)
      invariant PickedRows(trainX, trainY, x, y, perm, 0)
      invariant PickedRows(testX, testY, x, y, perm, Clamp(trainSize, i))
    {
      var idx := perm[i];
      ghost var c := Clamp(trainSize, i);
      if i < trainSize {
        assert Clamp(trainSize, i + 1) == i + 1 == c + 1;
        PickedRowsNext(trainX, trainY, x, y, perm, 0);
        trainX := trainX + [x[idx]];
        trainY := trainY + [y[idx]];
      } else {
        assert Clamp(trainSize, i + 1) == c;
        PickedRowsNext(testX, testY, x, y, perm, c);
        testX := testX + [x[idx]];
        testY := testY + [y[idx]];
      }
    }
    ghost var t := Clamp(trainSize, n);
    GatheredFrom(trainX, x, perm, 0, t);
    GatheredFrom(trainY, y, perm, 0, t);
    GatheredFrom(testX, x, perm, t, n);
    GatheredFrom(testY, y, perm, t, n);
  }

  /** `r` holds, in order, the rows of `xs` named by `perm[lo..lo + |r|]`. */
  ghost predicate Picked<T>(r: seq<T>, xs: seq<T>, perm: seq<nat>, lo: nat)
  {
    lo + |r| <= |perm| &&
    forall j :: lo <= j < lo + |r| ==> perm[j] < |xs| && r[j - lo] == xs[perm[j]]
  }

  /** Picking the next named row extends what was picked. */
  lemma PickedNext<T>(r: seq<T>, xs: seq<T>, perm: seq<nat>, lo: nat)
    requires Picked(r, xs, perm, lo) && lo + |r| < |perm| && perm[lo + |r|] < |xs|
    ensures Picked(r + [xs[perm[lo + |r|]]], xs, perm, lo)
  {
    var next := r + [xs[perm[lo + |r|]]];
    forall j | lo <= j < lo + |next| ensures perm[j] < |xs| && next[j - lo] == xs[perm[j]] {
      if j < lo + |r| {
        assert next[j - lo] == r[j - lo];
      }
    }
  }

  /** Feature rows and their labels picked side by side. */
  ghost predicate PickedRows(rx: seq<seq<real>>, ry: seq<string>, x: seq<seq<real>>, y: seq<string>, perm: seq<nat>, lo: nat)
  {
    |rx| == |ry| && Picked(rx, x, perm, lo) && Picked(ry, y, perm, lo)
  }

  /** Picking the next named sample extends both picked sequences. */
  lemma PickedRowsNext(rx: seq<seq<real>>, ry: seq<string>, x: seq<seq<real>>, y: seq<string>, perm: seq<nat>, lo: nat)
    requires PickedRows(rx, ry, x, y, perm, lo) && lo + |rx| < |perm| && perm[lo + |rx|] < |x| <= |y|
    ensures PickedRows(rx + [x[perm[lo + |rx|]]], ry + [y[perm[lo + |rx|]]], x, y, perm, lo)
  {
    PickedNext(rx, x, perm, lo);
    PickedNext(ry, y, perm, lo);
  }

  /** Rows picked one by one through `perm[lo..hi]` are that slice gathered. */
  lemma GatheredFrom<T>(r: seq<T>, xs: seq<T>, perm: seq<nat>, lo: nat, hi: nat)
    requires Picked(r, xs, perm, lo) && |r| == hi - lo
    ensures forall b :: 0 <= b < hi - lo ==> perm[lo..hi][b] < |xs|
    ensures r == Gather(xs, perm[lo..hi])
  {
    var idx := perm[lo..hi];
    forall b | 0 <= b < hi - lo ensures idx[b] < |xs| && r[b] == xs[idx[b]] {
      assert idx[b] == perm[lo + b];
      assert r[lo + b - lo] == xs[perm[lo + b]];
    }
  }

  /** `v` limited to the range `0 ..= n`. */
  function Clamp(v: int, n: nat): (c: nat)
    ensures c <= n
    ensures 0 <= v <= n ==> c == v
  {
    if v < 0 then 0 else if v > n then n else v
  }

  /** The labels in print order and the printed cells. */
  datatype Matrix = Matrix(labels: seq<string>, cells: seq<seq<nat>>)

  /** The initialisation loops: a row for every label, holding a zero for
      every label. */
  method ZeroMatrix(labels: seq<string>) returns (matrix: map<string, map<string, nat>>)
    ensures forall x :: x in matrix <==> x in labels
    ensures forall x, y :: x in matrix && y in labels ==> y in matrix[x]
    ensures forall x, y :: Confusion.Cell(matrix, x, y) == 0
  {
    matrix := map[];
    for i := 0 to |labels|
      invariant forall x :: x in matrix <==> x in labels[..i]
      invariant forall x, y :: Confusion.Cell(matrix, x, y) == 0
      invariant forall x, y :: x in matrix && y in labels ==> y in matrix[x]
    {
      var row: map<string, nat> := map[];
      for j := 0 to |labels|
        invariant forall y :: y in row <==> y in labels[..j]
        invariant forall y :: y in row ==> row[y] == 0
      {
        row := row[labels[j] := 0];
      }
      assert labels[..|labels|] == labels;
      ghost var prev := matrix;
      matrix := matrix[labels[i] := row];
      forall x, y ensures Confusion.Cell(matrix, x, y) == 0 {
        if x != labels[i] {
          assert Confusion.Cell(matrix, x, y) == Confusion.Cell(prev, x, y);
        }
      }
    }
    assert labels[..|labels|] == labels;
  }

  /** The populate loop: one increment per row, at its actual and predicted labels. */
  method CountPairs(zero: map<string, map<string, nat>>, actual: seq<string>, predicted: seq<string>, labels: seq<string>)
    returns (matrix: map<string, map<string, nat>>)
    requires |actual| == |predicted|
    requires forall l :: l in labels <==> l in actual || l in predicted
    requires forall x :: x in zero <==> x in labels
    requires forall x, y :: x in zero && y in labels ==> y in zero[x]
    requires forall x, y :: Confusion.Cell(zero, x, y) == 0
    ensures forall x, y :: Confusion.Cell(matrix, x, y) == Confusion.CountCell(actual, predicted, x, y)
  {
    matrix := zero;
    for i := 0 to |actual|
      invariant forall x :: x in matrix <==> x in labels
      invariant forall x, y :: x in matrix && y in labels ==> y in matrix[x]
      invariant forall x, y :: Confusion.Cell(matrix, x, y) == Confusion.CountCell(actual[..i], predicted, x, y)
    {
      assert actual[i] in labels && predicted[i] in labels;
      ghost var prev := matrix;
      var row := matrix[actual[i]];
      assert row[predicted[i]] == Confusion.Cell(prev, actual[i], predicted[i]);
      matrix := matrix[actual[i] := row[predicted[i] := row[predicted[i]] + 1]];
      assert matrix == Confusion.Bump(prev, actual[i], predicted[i]);
      Confusion.BumpCell(prev, actual[i], predicted[i]);
      Confusion.CountCellNext(actual, predicted, i);
    }
    assert actual[..|actual|] == actual;
  }

  /** `printConfusionMatrix` of this file without the printing: `None` (the
      mismatch message) when the lengths differ; otherwise the sorted distinct
      labels of both slices and the cells, where cell (i, j) counts the rows
      whose actual label is `labels[i]` and whose prediction is `labels[j]`. */
  method ConfusionMatrix(actual: seq<string>, predicted: seq<string>) returns (r: Option<Matrix>)
    ensures |actual| != |predicted| <==> r == None
    ensures r.Some? ==>
      (forall l :: l in r.value.labels <==> l in actual || l in predicted) &&
      Confusion.Distinct(r.value.labels) &&
      Sorting.SortedBy(r.value.labels, Confusion.LexLe) &&
      r.value.cells == Confusion.Table(actual, predicted, r.value.labels)
  {
    if |actual| != |predicted| {
      return None;
    }
    var labels := Confusion.CollectLabels(actual, predicted);
    var matrix := ZeroMatrix(labels);
    matrix := CountPairs(matrix, actual, predicted, labels);
    var cells := Confusion.ReadCells(matrix, labels);
    Confusion.CellsAreTable(matrix, cells, actual, predicted, labels);
    return Some(Matrix(labels, cells));
  }

  /** `readUserInput` after the line has been read: the line, trimmed and
      split at white space, must have exactly four fields, and each must
      parse. */
  method ReadUserInput(line: string, parse: string -> Option<real>) returns (r: Result<seq<real>, InputError>)
    ensures var parts := Fields(TrimSpace(line));
      |parts| != 4 ==> r == Err(WrongFieldCount(|parts|))
    ensures var parts := Fields(TrimSpace(line));
      |parts| == 4 ==> (r.Ok? <==> forall j :: 0 <= j < 4 ==> parse(parts[j]).Some?)
    ensures r.Err? && |Fields(TrimSpace(line))| == 4 ==> r.error == InvalidNumber
    ensures r.Ok? ==> var parts := Fields(TrimSpace(line));
      |parts| == 4 && |r.value| == 4 && forall j :: 0 <= j < 4 ==> Some(r.value[j]) == parse(parts[j])
  {
    var trimmed := TrimSpace(line);
    var parts := Fields(trimmed);
    if |parts| != 4 {
      return Err(WrongFieldCount(|parts|));
    }
    var input: seq<real> := [];
    for j := 0 to 4
      invariant |input| == j
      invariant forall b :: 0 <= b < j ==> Some(input[b]) == parse(parts[b])
    {
      var val := parse(parts[j]);
      if val.None? {
        return Err(InvalidNumber);
      }
      input := input + [val.value];
    }
    return Ok(input);
  }
}
