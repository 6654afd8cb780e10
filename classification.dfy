/** exercises/classification/classification.go: a CSV loader, a shuffled
    train/test split, a k-nearest-neighbours classifier object, accuracy and
    a confusion matrix. */
module Classification {
  import opened Results
  import opened Text
  import opened Vectors
  import opened Records
  import opened Splitting
  import Sorting
  import Voting
  import Confusion

  /** Feature rows and their labels. */
  datatype Data = Data(features: seq<seq<real>>, labels: seq<string>)

  /** The errors `loadData` reports after reading the file. */
  datatype LoadError =
    | NotEnoughData
      /** `row` counts the surviving data rows from 1, `col` the columns from 0. */
    | ParseError(row: nat, col: nat)

  /** The first `n` fields of `row`, trimmed, all parse as numbers. */
  predicate FieldsParse(row: seq<string>, parse: string -> Option<real>, n: nat)
    requires n <= |row|
  {
    forall j :: 0 <= j < n ==> parse(TrimSpace(row[j])).Some?
  }

  /** Every field of `row` but the last parses. */
  predicate RowParses(row: seq<string>, parse: string -> Option<real>)
  {
    |row| >= 1 && FieldsParse(row, parse, |row| - 1)
  }

  /** The feature vector of a row whose fields parse: all fields but the last. */
  function FeatureVector(row: seq<string>, parse: string -> Option<real>): (v: seq<real>)
    requires RowParses(row, parse)
    ensures |v| == |row| - 1
    ensures forall j :: 0 <= j < |v| ==> Some(v[j]) == parse(TrimSpace(row[j]))
  {
    seq(|row| - 1, j requires 0 <= j < |row| - 1 => parse(TrimSpace(row[j])).value)
  }

  /** The label of a row: its last field, trimmed. */
  function RowLabel(row: seq<string>): string
    requires |row| >= 1
  {
    TrimSpace(row[|row| - 1])
  }

  /** The inner loop of `loadData`: parse every field of `row` but the last,
      stopping at the first column that does not parse. */
  method ParseRow(row: seq<string>, parse: string -> Option<real>) returns (res: Result<seq<real>, nat>)
    requires |row| >= 1
    ensures res.Ok? <==> RowParses(row, parse)
    ensures res.Ok? ==> res.value == FeatureVector(row, parse)
    ensures res.Err? ==>
      res.error < |row| - 1 && parse(TrimSpace(row[res.error])).None? && FieldsParse(row, parse, res.error)
  {
    var featureRow := new real[|row| - 1];
    for j := 0 to |row| - 1
      invariant FieldsParse(row, parse, j)
      invariant forall b :: 0 <= b < j ==> Some(featureRow[b]) == parse(TrimSpace(row[b]))
    {
      var val := parse(TrimSpace(row[j]));
      if val.None? {
        return Err(j);
      }
      featureRow[j] := val.value;
    }
    return Ok(featureRow[..]);
  }

  /** `loadData` after the file has been read into `records`. Fewer than two
      records is an error; otherwise the header is dropped, rows with a blank
      field are skipped, and every surviving row must parse. The result is
      the feature vectors and labels of the surviving rows, in order; a parse
      failure names the first failing row and, within it, the first failing
      column. */
  method LoadData(records: seq<seq<string>>, parse: string -> Option<real>) returns (r: Result<Data, LoadError>)
    ensures |records| < 2 ==> r == Err(NotEnoughData)
    ensures |records| >= 2 ==> (r.Ok? <==> AllRowsParse(KeptRecords(records[1..]), parse))
    ensures r.Ok? ==> (|records| >= 2 && Loaded(r.value, KeptRecords(records[1..]), parse))
    ensures r.Err? && |records| >= 2 ==> FirstFailure(r.error, KeptRecords(records[1..]), parse)
  {
    if |records| < 2 {
      return Err(NotEnoughData);
    }
    var validRecords := FilterRecords(records);
    r := ParseRecords(validRecords, parse);
  }

  /** The row loop of `loadData` over the rows that survived the filter. */
  method ParseRecords(validRecords: seq<seq<string>>, parse: string -> Option<real>) returns (r: Result<Data, LoadError>)
    requires forall i :: 0 <= i < |validRecords| ==> KeepRecord(validRecords[i])
    ensures r.Ok? <==> AllRowsParse(validRecords, parse)
    ensures r.Ok? ==> Loaded(r.value, validRecords, parse)
    ensures r.Err? ==> FirstFailure(r.error, validRecords, parse)
  {
    var features: seq<seq<real>> := seq(|validRecords|, _ => []);
    var labels: seq<string> := seq(|validRecords|, _ => "");
    for i := 0 to |validRecords|
      invariant |features| == |labels| == |validRecords|
      invariant forall a :: 0 <= a < i ==>
        RowParses(validRecords[a], parse) &&
        features[a] == FeatureVector(validRecords[a], parse) &&
        labels[a] == RowLabel(validRecords[a])
    {
      var row := validRecords[i];
      assert KeepRecord(row);
      var featureRow := ParseRow(row, parse);
      if featureRow.Err? {
        FailureAt(validRecords, parse, i, featureRow.error);
        return Err(ParseError(i + 1, featureRow.error));
      }
      features := features[i := featureRow.value];
      labels := labels[i := TrimSpace(row[|row| - 1])];
    }
    return Ok(Data(features, labels));
  }

  /** Row `i` failing at column `col` after every earlier row parsed is the
      first failure, and not every row parses. */
  lemma FailureAt(valid: seq<seq<string>>, parse: string -> Option<real>, i: nat, col: nat)
    requires i < |valid| && |valid[i]| >= 1 && col < |valid[i]| - 1
    requires parse(TrimSpace(valid[i][col])).None? && FieldsParse(valid[i], parse, col)
    requires forall a :: 0 <= a < i ==> RowParses(valid[a], parse)
    ensures FirstFailure(ParseError(i + 1, col), valid, parse)
    ensures !AllRowsParse(valid, parse)
  {
    assert !RowParses(valid[i], parse);
  }

  /** Every row of `valid` parses. */
  predicate AllRowsParse(valid: seq<seq<string>>, parse: string -> Option<real>)
  {
    forall i :: 0 <= i < |valid| ==> RowParses(valid[i], parse)
  }

  /** `d` holds, in order, the feature vector and label of every row of `valid`. */
  predicate Loaded(d: Data, valid: seq<seq<string>>, parse: string -> Option<real>)
  {
    |d.features| == |valid| && |d.labels| == |valid| &&
    forall i :: 0 <= i < |valid| ==>
      RowParses(valid[i], parse) &&
      d.features[i] == FeatureVector(valid[i], parse) &&
      d.labels[i] == RowLabel(valid[i])
  }

  /** `e` names the first row of `valid` that fails to parse (counting from 1)
      and the first failing column in it. */
  predicate FirstFailure(e: LoadError, valid: seq<seq<string>>, parse: string -> Option<real>)
  {
    e.ParseError? && 1 <= e.row <= |valid| && |valid[e.row - 1]| >= 1 &&
    e.col < |valid[e.row - 1]| - 1 &&
    parse(TrimSpace(valid[e.row - 1][e.col])).None? &&
    FieldsParse(valid[e.row - 1], parse, e.col) &&
    forall i :: 0 <= i < e.row - 1 ==> RowParses(valid[i], parse)
  }

  /** `rand.Shuffle` applied to `indices` with the swap closure of
      `trainTestSplit`; `picks` are the random draws. */
  method Shuffle(indices: array<nat>, picks: seq<nat>)
    requires ValidPicks(picks, indices.Length)
    modifies indices
    ensures indices[..] == ShuffleFrom(old(indices[..]), picks, indices.Length)
  {
    var i := indices.Length;
    while i > 1
      invariant 0 <= i <= indices.Length
      invariant ShuffleFrom(indices[..], picks, i) == ShuffleFrom(old(indices[..]), picks, indices.Length)
    {
      var j := picks[i - 1];
      assert Swap(indices[..], i - 1, j) == indices[..][i - 1 := indices[j]][j := indices[i - 1]];
      indices[i - 1], indices[j] := indices[j], indices[i - 1];
      i := i - 1;
    }
  }

  /** One of the two copy loops of `trainTestSplit`: the rows named by
      `order[lo..hi]`, in that order. */
  method CopyRows(data: Data, order: seq<nat>, lo: nat, hi: nat) returns (part: Data)
    requires lo <= hi <= |order|
    requires forall i :: 0 <= i < |order| ==> order[i] < |data.features| && order[i] < |data.labels|
    ensures part == Data(Gather(data.features, order[lo..hi]), Gather(data.labels, order[lo..hi]))
  {
    var partFeatures := new seq<real>[hi - lo];
    var partLabels := new string[hi - lo];
    for a := lo to hi
      invariant forall b :: lo <= b < a ==>
        partFeatures[b - lo] == data.features[order[b]] && partLabels[b - lo] == data.labels[order[b]]
    {
      var idx := order[a];
      partFeatures[a - lo] := data.features[idx];
      partLabels[a - lo] := data.labels[idx];
    }
    part := Data(partFeatures[..], partLabels[..]);
  }

  /** `trainTestSplit`: with `trainSize = int(n * trainRatio)`, the rows named
      by the first `trainSize` shuffled indices form the training set and the
      rest the test set. The shuffle's random draws are the parameter
      `picks`; `make` panics unless `0 <= trainSize <= n`, and every label
      indexed must exist. */
  method TrainTestSplit(data: Data, trainRatio: real, picks: seq<nat>) returns (train: Data, test: Data)
    requires ValidPicks(picks, |data.features|)
    requires |data.labels| >= |data.features|
    requires 0 <= TrainSize(|data.features|, trainRatio) <= |data.features|
    ensures IsPermutation(Shuffled(picks), |data.features|)
    ensures var t := TrainSize(|data.features|, trainRatio);
      train == Data(Gather(data.features, Shuffled(picks)[..t]), Gather(data.labels, Shuffled(picks)[..t]))
    ensures var t := TrainSize(|data.features|, trainRatio);
      test == Data(Gather(data.features, Shuffled(picks)[t..]), Gather(data.labels, Shuffled(picks)[t..]))
  {
    var n := |data.features|;
    var trainSize := TrainSize(n, trainRatio);
    var indices := new nat[n];
    for i := 0 to n
      invariant forall a :: 0 <= a < i ==> indices[a] == a
    {
      indices[i] := i;
    }
    assert indices[..] == Identity(n);
    Shuffle(indices, picks);
    var order := indices[..];
    assert order == Shuffled(picks);
    ShuffledIsPermutation(picks);
    train := CopyRows(data, order, 0, trainSize);
    test := CopyRows(data, order, trainSize, n);
    assert order[0..trainSize] == order[..trainSize];
    assert order[trainSize..n] == order[trainSize..];
  }

  /** `euclideanDistance`: +Inf on vectors of different lengths, otherwise
      the (squared) Euclidean distance. */
  method EuclideanDistance(a: seq<real>, b: seq<real>) returns (d: Distance)
    ensures d == Dist(a, b)
    ensures d.Finite? <==> |a| == |b|
    ensures d == Finite(0.0) <==> a == b
  {
    DistProperties(a, b);
    if |a| != |b| {
      return Infinite;
    }
    var sum := 0.0;
    for i := 0 to |a|
      invariant sum == SumSq(a, b, i)
    {
      var diff := a[i] - b[i];
      sum := sum + Square(diff);
    }
    return Finite(sum);
  }

  /** The (distance, label) pairs `Predict` builds for a query: one per
      training row, in training order. */
  function Neighbors(query: seq<real>, train: Data): (s: seq<Voting.Neighbor>)
    requires |train.labels| >= |train.features|
    ensures |s| == |train.features|
    ensures forall i :: 0 <= i < |s| ==> s[i] == Voting.Neighbor(Dist(query, train.features[i]), train.labels[i])
  {
    seq(|train.features|, i requires 0 <= i < |train.features| =>
      Voting.Neighbor(Dist(query, train.features[i]), train.labels[i]))
  }

  /** The training data of a fitted classifier is usable by `Predict`:
      every training row has a label. */
  predicate Labelled(d: Option<Data>)
  {
    d.Some? ==> |d.value.labels| >= |d.value.features|
  }

  /** The classifier object: a neighbour count and the data passed to `Fit`. */
  class KNNClassifier {
    var k: int
    var trainData: Option<Data>

    /** `NewKNNClassifier`: unfitted. */
    constructor (k: int)
      ensures this.k == k && trainData == None
    {
      this.k := k;
      trainData := None;
    }

    /** `Fit` only records the training data. */
    method Fit(data: Data)
      modifies this
      ensures k == old(k) && trainData == Some(data)
    {
      trainData := Some(data);
    }

    /** `Predict`: "" before `Fit`; otherwise the outcome of a k-nearest vote
        over the training rows ranked by distance to `features`. */
    method Predict(features: seq<real>) returns (chosen: string)
      requires Labelled(trainData)
      ensures trainData.None? ==> chosen == ""
      ensures trainData.Some? ==> Voting.KnnVote(chosen, Neighbors(features, trainData.value), k)
    {
      if trainData.None? {
        return "";
      }
      var train := trainData.value;
      var distances := new Voting.Neighbor[|train.features|](_ => Voting.Neighbor(Infinite, ""));
      for i := 0 to |train.features|
        invariant forall a :: 0 <= a < i ==> distances[a] == Neighbors(features, train)[a]
      {
        var dist := EuclideanDistance(features, train.features[i]);
        distances[i] := Voting.Neighbor(dist, train.labels[i]);
      }
      assert distances[..] == Neighbors(features, train);
      chosen := Voting.Vote(distances[..], k);
    }

    /** `chosen` is what `Predict` answers for `features`: "" before `Fit`,
        otherwise a k-nearest vote over the training rows. */
    ghost predicate IsPrediction(chosen: string, features: seq<real>)
      reads this
      requires Labelled(trainData)
    {
      if trainData.None? then chosen == ""
      else Voting.KnnVote(chosen, Neighbors(features, trainData.value), k)
    }

    /** `PredictBatch`: one prediction per row of `data`, each as `Predict`. */
    method PredictBatch(data: Data) returns (predictions: seq<string>)
      requires Labelled(trainData)
      ensures |predictions| == |data.features|
      ensures forall i :: 0 <= i < |predictions| ==> IsPrediction(predictions[i], data.features[i])
    {
      var out := new string[|data.features|];
      for i := 0 to |data.features|
        invariant forall a :: 0 <= a < i ==> IsPrediction(out[a], data.features[a])
      {
        out[i] := Predict(data.features[i]);
      }
      predictions := out[..];
    }
  }

  /** `calculateAccuracy`: 0 when the lengths differ; otherwise the share of
      positions where the labels agree, which is NaN (here `None`) for two
      empty slices. It lies in [0, 1] and is 1 exactly when every prediction
      is right. */
  method CalculateAccuracy(actual: seq<string>, predicted: seq<string>) returns (acc: Option<real>)
    ensures |actual| != |predicted| ==> acc == Some(0.0)
    ensures |actual| == |predicted| == 0 ==> acc == None
    ensures |actual| == |predicted| > 0 ==>
      acc == Some(Confusion.CountMatches(actual, predicted) as real / |actual| as real)
    ensures acc.Some? ==> 0.0 <= acc.value <= 1.0
    ensures |actual| == |predicted| > 0 ==> (acc == Some(1.0) <==> actual == predicted)
  {
    if |actual| != |predicted| {
      return Some(0.0);
    }
    var correct := 0;
    for i := 0 to |actual|
      invariant correct == Confusion.CountMatches(actual[..i], predicted)
    {
      assert actual[..i + 1][..i] == actual[..i];
      if actual[i] == predicted[i] {
        correct := correct + 1;
      }
    }
    assert actual[..|actual|] == actual;
    if |actual| == 0 {
      return None;
    }
    Confusion.CountMatchesAllIff(actual, predicted);
    assert predicted[..|actual|] == predicted;
    ShareBounds(correct, |actual|);
    acc := Some(correct as real / |actual| as real);
  }

  lemma ShareBounds(c: nat, n: nat)
    requires 0 < n && c <= n
    ensures 0.0 <= c as real / n as real <= 1.0
    ensures c as real / n as real == 1.0 <==> c == n
  {
  }

  /** `printConfusionMatrix` without the printing: the sorted distinct labels
      of both slices and the printed cells, where cell (i, j) counts the rows
      whose actual label is `labels[i]` and whose prediction is `labels[j]`.
      The source indexes `predicted` at every position of `actual`. */
  method ConfusionMatrix(actual: seq<string>, predicted: seq<string>) returns (labels: seq<string>, cells: seq<seq<nat>>)
    requires |actual| <= |predicted|
    ensures forall l :: l in labels <==> l in actual || l in predicted
    ensures Confusion.Distinct(labels)
    ensures Sorting.SortedBy(labels, Confusion.LexLe)
    ensures cells == Confusion.Table(actual, predicted, labels)
  {
    labels := Confusion.CollectLabels(actual, predicted);
    var matrix: map<string, map<string, nat>> := map[];
    for i := 0 to |labels|
      invariant forall x :: x in matrix <==> x in labels[..i]
      invariant forall x :: x in matrix ==> matrix[x] == map[]
    {
      matrix := matrix[labels[i] := map[]];
    }
    assert labels[..|labels|] == labels;
    matrix := Tally(matrix, actual, predicted, labels);
    cells := Confusion.ReadCells(matrix, labels);
    Confusion.CellsAreTable(matrix, cells, actual, predicted, labels);
  }

  /** The counting loop of `printConfusionMatrix`: one increment per row of
      `actual`, at its actual and predicted labels, starting from a row of
      empty counts per label. */
  method Tally(empty: map<string, map<string, nat>>, actual: seq<string>, predicted: seq<string>, labels: seq<string>)
    returns (matrix: map<string, map<string, nat>>)
    requires |actual| <= |predicted|
    requires forall l :: l in actual ==> l in labels
    requires forall x :: x in empty <==> x in labels
    requires forall x :: x in empty ==> empty[x] == map[]
    ensures forall x :: x in matrix <==> x in labels
    ensures forall x, y :: x in labels ==> Confusion.Cell(matrix, x, y) == Confusion.CountCell(actual, predicted, x, y)
  {
    matrix := empty;
    for i := 0 to |actual|
      invariant forall x :: x in matrix <==> x in labels
      invariant forall x, y :: x in labels ==> Confusion.Cell(matrix, x, y) == Confusion.CountCell(actual[..i], predicted, x, y)
    {
      ghost var prev := matrix;
      var row := matrix[actual[i]];
      var old_count := if predicted[i] in row then row[predicted[i]] else 0;
      assert old_count == Confusion.Cell(prev, actual[i], predicted[i]);
      matrix := matrix[actual[i] := row[predicted[i] := old_count + 1]];
      assert matrix == Confusion.Bump(prev, actual[i], predicted[i]);
      Confusion.BumpCell(prev, actual[i], predicted[i]);
      Confusion.CountCellNext(actual, predicted, i);
    }
    assert actual[..|actual|] == actual;
  }

  /** The printed matrix accounts for every row once, and its diagonal holds
      exactly the correct predictions counted by `calculateAccuracy`. */
  lemma ConfusionMatrixTotals(actual: seq<string>, predicted: seq<string>, labels: seq<string>)
    requires |actual| <= |predicted|
    requires forall l :: l in labels <==> l in actual || l in predicted
    requires Confusion.Distinct(labels)
    ensures Confusion.TableSum(Confusion.Table(actual, predicted, labels)) == |actual|
    ensures Confusion.Trace(Confusion.Table(actual, predicted, labels)) == Confusion.CountMatches(actual, predicted)
  {
    Confusion.CellsSumToTotal(actual, predicted, labels);
    Confusion.TraceIsMatches(actual, predicted, labels);
  }
}
