/** Confusion-matrix tabulation shared by `printConfusionMatrix` in
    classification.go and sleep_classification.go: the label list is the
    sorted, de-duplicated union of the actual and predicted labels, and cell
    (x, y) counts the rows whose actual label is x and predicted label is y. */
module Confusion {
  import Sorting

  predicate Distinct(s: seq<string>)
  {
    forall i, j :: 0 <= i < j < |s| ==> s[i] != s[j]
  }

  /** Go's `<=` on strings: byte-wise lexicographic order. UTF-8 preserves
      code-point order, so comparing characters gives the same answer. */
  predicate LexLe(a: string, b: string)
  {
    if a == [] then true
    else if b == [] then false
    else if a[0] != b[0] then a[0] < b[0]
    else LexLe(a[1..], b[1..])
  }

  lemma {:induction false} LexLeTotal(a: string, b: string)
    ensures LexLe(a, b) || LexLe(b, a)
  {
    if a != [] && b != [] && a[0] == b[0] { LexLeTotal(a[1..], b[1..]); }
  }

  lemma {:induction false} LexLeTransitive(a: string, b: string, c: string)
    requires LexLe(a, b) && LexLe(b, c)
    ensures LexLe(a, c)
  {
    if a != [] && b != [] && c != [] && a[0] == b[0] && b[0] == c[0] {
      LexLeTransitive(a[1..], b[1..], c[1..]);
    }
  }

  lemma {:induction false} LexLeAntisymmetric(a: string, b: string)
    requires LexLe(a, b) && LexLe(b, a)
    ensures a == b
  {
    if a != [] && b != [] {
      LexLeAntisymmetric(a[1..], b[1..]);
      assert a == [a[0]] + a[1..] && b == [b[0]] + b[1..];
    }
  }

  lemma LexLeIsTotalPreorder()
    ensures Sorting.TotalPreorder(LexLe)
  {
    forall a, b ensures LexLe(a, b) || LexLe(b, a) { LexLeTotal(a, b); }
    forall a, b, c | LexLe(a, b) && LexLe(b, c) ensures LexLe(a, c) { LexLeTransitive(a, b, c); }
  }

  /** A sequence is free of repeats exactly when no item occurs twice in its multiset. */
  lemma {:induction false} DistinctIffSingle(s: seq<string>)
    ensures Distinct(s) <==> forall x :: multiset(s)[x] <= 1
  {
    if s != [] {
      var t, z := s[..|s| - 1], s[|s| - 1];
      DistinctIffSingle(t);
      assert s == t + [z];
      if Distinct(s) {
        assert Distinct(t) by {
          forall i, j | 0 <= i < j < |t| ensures t[i] != t[j] { assert s[i] == t[i] && s[j] == t[j]; }
        }
        assert z !in t;
      }
      if forall x :: multiset(s)[x] <= 1 {
        assert forall x :: multiset(t)[x] <= 1 by {
          forall x ensures multiset(t)[x] <= 1 { assert multiset(s)[x] == multiset(t)[x] + multiset([z])[x]; }
        }
        assert multiset(s)[z] == multiset(t)[z] + 1;
        forall i, j | 0 <= i < j < |s| ensures s[i] != s[j] {
          if j < |s| - 1 { assert s[i] == t[i] && s[j] == t[j]; } else { assert s[i] in t; }
        }
      }
    }
  }

  /** The sorted, de-duplicated union of the labels of `actual` and `predicted`
      (the `labelSet` loops, the map-to-slice loop and `sort.Strings`). */
  method CollectLabels(actual: seq<string>, predicted: seq<string>) returns (labels: seq<string>)
    ensures forall l :: l in labels <==> l in actual || l in predicted
    ensures Distinct(labels)
    ensures Sorting.SortedBy(labels, LexLe)
  {
    var labelSet: set<string> := {};
    for i := 0 to |actual|
      invariant forall l :: l in labelSet <==> l in actual[..i]
    {
      assert actual[..i + 1] == actual[..i] + [actual[i]];
      labelSet := labelSet + {actual[i]};
    }
    assert actual[..|actual|] == actual;
    for i := 0 to |predicted|
      invariant forall l :: l in labelSet <==> l in actual || l in predicted[..i]
    {
      assert predicted[..i + 1] == predicted[..i] + [predicted[i]];
      labelSet := labelSet + {predicted[i]};
    }
    assert predicted[..|predicted|] == predicted;
    var listed: seq<string> := [];
    var rest := labelSet;
    while rest != {}
      invariant rest <= labelSet
      invariant forall l :: l in listed <==> l in labelSet && l !in rest
      invariant Distinct(listed)
      decreases rest
    {
      var l :| l in rest;
      listed := listed + [l];
      rest := rest - {l};
    }
    LexLeIsTotalPreorder();
    labels := Sorting.SortBy(listed, LexLe);
    DistinctIffSingle(listed);
    DistinctIffSingle(labels);
    forall l ensures l in labels <==> l in listed {
      assert l in labels <==> l in multiset(labels);
      assert l in listed <==> l in multiset(listed);
    }
  }

  /** How many rows i < |actual| have actual label x and predicted label y. */
  function CountCell(actual: seq<string>, predicted: seq<string>, x: string, y: string): nat
    requires |actual| <= |predicted|
  {
    if actual == [] then 0
    else
      var n := |actual| - 1;
      CountCell(actual[..n], predicted, x, y) + (if actual[n] == x && predicted[n] == y then 1 else 0)
  }

  /** How many rows i < |actual| have actual label x and predicted label in ys. */
  function CountRow(actual: seq<string>, predicted: seq<string>, x: string, ys: seq<string>): nat
    requires |actual| <= |predicted|
  {
    if actual == [] then 0
    else
      var n := |actual| - 1;
      CountRow(actual[..n], predicted, x, ys) + (if actual[n] == x && predicted[n] in ys then 1 else 0)
  }

  /** How many rows i < |actual| have actual label in xs and predicted label in ys. */
  function CountBlock(actual: seq<string>, predicted: seq<string>, xs: seq<string>, ys: seq<string>): nat
    requires |actual| <= |predicted|
  {
    if actual == [] then 0
    else
      var n := |actual| - 1;
      CountBlock(actual[..n], predicted, xs, ys) + (if actual[n] in xs && predicted[n] in ys then 1 else 0)
  }

  /** How many rows i < |actual| are predicted correctly. */
  function CountMatches(actual: seq<string>, predicted: seq<string>): (c: nat)
    requires |actual| <= |predicted|
    ensures c <= |actual|
  {
    if actual == [] then 0
    else
      var n := |actual| - 1;
      CountMatches(actual[..n], predicted) + (if actual[n] == predicted[n] then 1 else 0)
  }

  /** How many rows i < |actual| are predicted correctly with a label in xs. */
  function CountMatchesIn(actual: seq<string>, predicted: seq<string>, xs: seq<string>): nat
    requires |actual| <= |predicted|
  {
    if actual == [] then 0
    else
      var n := |actual| - 1;
      CountMatchesIn(actual[..n], predicted, xs) + (if actual[n] == predicted[n] && actual[n] in xs then 1 else 0)
  }

  /** One row of the printed matrix. */
  function Row(actual: seq<string>, predicted: seq<string>, x: string, labels: seq<string>): (r: seq<nat>)
    requires |actual| <= |predicted|
    ensures |r| == |labels|
    ensures forall j :: 0 <= j < |labels| ==> r[j] == CountCell(actual, predicted, x, labels[j])
  {
    seq(|labels|, j requires 0 <= j < |labels| => CountCell(actual, predicted, x, labels[j]))
  }

  /** The printed matrix: cell (i, j) counts actual labels[i] predicted as labels[j]. */
  function Table(actual: seq<string>, predicted: seq<string>, labels: seq<string>): (t: seq<seq<nat>>)
    requires |actual| <= |predicted|
    ensures |t| == |labels|
    ensures forall i :: 0 <= i < |labels| ==> t[i] == Row(actual, predicted, labels[i], labels)
  {
    seq(|labels|, i requires 0 <= i < |labels| => Row(actual, predicted, labels[i], labels))
  }

  function Sum(s: seq<nat>): nat
  {
    if s == [] then 0 else Sum(s[..|s| - 1]) + s[|s| - 1]
  }

  function TableSum(t: seq<seq<nat>>): nat
  {
    if t == [] then 0 else TableSum(t[..|t| - 1]) + Sum(t[|t| - 1])
  }

  /** The sum of the diagonal of a square table. */
  function Trace(t: seq<seq<nat>>): nat
    requires forall i :: 0 <= i < |t| ==> |t[i]| == |t|
    decreases |t|
  {
    if t == [] then 0
    else
      var n := |t| - 1;
      var inner := seq(n, i requires 0 <= i < n => t[i][..n]);
      Trace(inner) + t[n][n]
  }

  lemma {:induction false} CountRowSplit(actual: seq<string>, predicted: seq<string>, x: string, ys: seq<string>, y: string)
    requires |actual| <= |predicted|
    requires y !in ys
    ensures CountRow(actual, predicted, x, ys + [y]) == CountRow(actual, predicted, x, ys) + CountCell(actual, predicted, x, y)
  {
    if actual != [] { CountRowSplit(actual[..|actual| - 1], predicted, x, ys, y); }
  }

  lemma {:induction false} CountBlockSplit(actual: seq<string>, predicted: seq<string>, xs: seq<string>, x: string, ys: seq<string>)
    requires |actual| <= |predicted|
    requires x !in xs
    ensures CountBlock(actual, predicted, xs + [x], ys) == CountBlock(actual, predicted, xs, ys) + CountRow(actual, predicted, x, ys)
  {
    if actual != [] { CountBlockSplit(actual[..|actual| - 1], predicted, xs, x, ys); }
  }

  lemma {:induction false} CountMatchesSplit(actual: seq<string>, predicted: seq<string>, xs: seq<string>, x: string)
    requires |actual| <= |predicted|
    requires x !in xs
    ensures CountMatchesIn(actual, predicted, xs + [x]) == CountMatchesIn(actual, predicted, xs) + CountCell(actual, predicted, x, x)
  {
    if actual != [] { CountMatchesSplit(actual[..|actual| - 1], predicted, xs, x); }
  }

  /** A row of the matrix adds up to the rows with that actual label whose
      prediction is one of the listed labels. */
  lemma {:induction false} RowSum(actual: seq<string>, predicted: seq<string>, x: string, ys: seq<string>)
    requires |actual| <= |predicted|
    requires Distinct(ys)
    ensures Sum(Row(actual, predicted, x, ys)) == CountRow(actual, predicted, x, ys)
  {
    if ys == [] {
      ZeroCountRow(actual, predicted, x, ys);
    } else {
      var n := |ys| - 1;
      var zs := ys[..n];
      assert ys == zs + [ys[n]];
      assert Distinct(zs);
      assert ys[n] !in zs;
      RowSum(actual, predicted, x, zs);
      assert Row(actual, predicted, x, ys)[..n] == Row(actual, predicted, x, zs);
      CountRowSplit(actual, predicted, x, zs, ys[n]);
    }
  }

  lemma {:induction false} ZeroCountRow(actual: seq<string>, predicted: seq<string>, x: string, ys: seq<string>)
    requires |actual| <= |predicted|
    requires ys == []
    ensures CountRow(actual, predicted, x, ys) == 0
  {
    if actual != [] { ZeroCountRow(actual[..|actual| - 1], predicted, x, ys); }
  }

  lemma {:induction false} ZeroCountBlock(actual: seq<string>, predicted: seq<string>, xs: seq<string>, ys: seq<string>)
    requires |actual| <= |predicted|
    requires xs == []
    ensures CountBlock(actual, predicted, xs, ys) == 0
  {
    if actual != [] { ZeroCountBlock(actual[..|actual| - 1], predicted, xs, ys); }
  }

  lemma {:induction false} ZeroCountMatches(actual: seq<string>, predicted: seq<string>, xs: seq<string>)
    requires |actual| <= |predicted|
    requires xs == []
    ensures CountMatchesIn(actual, predicted, xs) == 0
  {
    if actual != [] { ZeroCountMatches(actual[..|actual| - 1], predicted, xs); }
  }

  /** The rows xs by columns ys of the matrix add up to the rows whose actual
      label is in xs and predicted label is in ys. */
  lemma {:induction false} BlockSum(actual: seq<string>, predicted: seq<string>, xs: seq<string>, ys: seq<string>)
    requires |actual| <= |predicted|
    requires Distinct(xs) && Distinct(ys)
    ensures TableSum(seq(|xs|, i requires 0 <= i < |xs| => Row(actual, predicted, xs[i], ys)))
            == CountBlock(actual, predicted, xs, ys)
  {
    var t := seq(|xs|, i requires 0 <= i < |xs| => Row(actual, predicted, xs[i], ys));
    if xs == [] {
      ZeroCountBlock(actual, predicted, xs, ys);
    } else {
      var n := |xs| - 1;
      var zs := xs[..n];
      assert xs == zs + [xs[n]];
      assert Distinct(zs);
      assert xs[n] !in zs;
      BlockSum(actual, predicted, zs, ys);
      assert t[..n] == seq(|zs|, i requires 0 <= i < |zs| => Row(actual, predicted, zs[i], ys));
      RowSum(actual, predicted, xs[n], ys);
      CountBlockSplit(actual, predicted, zs, xs[n], ys);
    }
  }

  /** When every actual and predicted label is listed, the block is every row. */
  lemma {:induction false} BlockCoversAll(actual: seq<string>, predicted: seq<string>, labels: seq<string>)
    requires |actual| <= |predicted|
    requires forall i :: 0 <= i < |actual| ==> actual[i] in labels && predicted[i] in labels
    ensures CountBlock(actual, predicted, labels, labels) == |actual|
  {
    if actual != [] { BlockCoversAll(actual[..|actual| - 1], predicted, labels); }
  }

  lemma {:induction false} MatchesCoverAll(actual: seq<string>, predicted: seq<string>, labels: seq<string>)
    requires |actual| <= |predicted|
    requires forall i :: 0 <= i < |actual| ==> actual[i] in labels
    ensures CountMatchesIn(actual, predicted, labels) == CountMatches(actual, predicted)
  {
    if actual != [] { MatchesCoverAll(actual[..|actual| - 1], predicted, labels); }
  }

  /** The cells of the matrix add up to the number of rows compared. */
  lemma CellsSumToTotal(actual: seq<string>, predicted: seq<string>, labels: seq<string>)
    requires |actual| <= |predicted|
    requires Distinct(labels)
    requires forall l :: l in labels <==> l in actual || l in predicted
    ensures TableSum(Table(actual, predicted, labels)) == |actual|
  {
    BlockSum(actual, predicted, labels, labels);
    assert Table(actual, predicted, labels) == seq(|labels|, i requires 0 <= i < |labels| => Row(actual, predicted, labels[i], labels));
    BlockCoversAll(actual, predicted, labels);
  }

  /** The diagonal of the matrix counts the correct predictions, so the
      matrix's accuracy (trace over total) is the accuracy of the predictions. */
  lemma {:induction false} TraceIsMatches(actual: seq<string>, predicted: seq<string>, labels: seq<string>)
    requires |actual| <= |predicted|
    requires Distinct(labels)
    requires forall l :: l in labels <==> l in actual || l in predicted
    ensures Trace(Table(actual, predicted, labels)) == CountMatches(actual, predicted)
  {
    TracePrefix(actual, predicted, labels);
    MatchesCoverAll(actual, predicted, labels);
  }

  lemma {:induction false} TracePrefix(actual: seq<string>, predicted: seq<string>, xs: seq<string>)
    requires |actual| <= |predicted|
    requires Distinct(xs)
    ensures Trace(Table(actual, predicted, xs)) == CountMatchesIn(actual, predicted, xs)
  {
    var t := Table(actual, predicted, xs);
    if xs == [] {
      ZeroCountMatches(actual, predicted, xs);
    } else {
      var n := |xs| - 1;
      var zs := xs[..n];
      assert xs == zs + [xs[n]];
      assert Distinct(zs);
      assert xs[n] !in zs;
      TracePrefix(actual, predicted, zs);
      var inner := seq(n, i requires 0 <= i < n => t[i][..n]);
      forall i | 0 <= i < n ensures inner[i] == Table(actual, predicted, zs)[i] {
        assert t[i] == Row(actual, predicted, xs[i], xs);
        assert xs[i] == zs[i];
      }
      assert inner == Table(actual, predicted, zs);
      CountMatchesSplit(actual, predicted, zs, xs[n]);
    }
  }

  /** Every row is predicted correctly exactly when the predictions start
      with the actual labels. */
  lemma {:induction false} CountMatchesAllIff(actual: seq<string>, predicted: seq<string>)
    requires |actual| <= |predicted|
    ensures CountMatches(actual, predicted) == |actual| <==> actual == predicted[..|actual|]
  {
    if actual != [] {
      var n := |actual| - 1;
      CountMatchesAllIff(actual[..n], predicted);
      assert actual == actual[..n] + [actual[n]];
      assert predicted[..|actual|] == predicted[..n] + [predicted[n]];
      if actual == predicted[..|actual|] {
        assert actual[..n] == predicted[..|actual|][..n];
      }
    }
  }

  /** A cell of a nested Go map as the print loop reads it: a missing outer
      or inner key reads as 0. */
  function Cell(matrix: map<string, map<string, nat>>, x: string, y: string): nat
  {
    if x in matrix && y in matrix[x] then matrix[x][y] else 0
  }

  /** The matrix after counting one more row with actual label `a` and
      prediction `p`. */
  function Bump(matrix: map<string, map<string, nat>>, a: string, p: string): map<string, map<string, nat>>
    requires a in matrix
  {
    var row := matrix[a];
    var count: nat := Cell(matrix, a, p) + 1;
    matrix[a := row[p := count]]
  }

  /** Counting one more row raises that row's cell by one and leaves the keys
      and every other cell alone. */
  lemma BumpCell(matrix: map<string, map<string, nat>>, a: string, p: string)
    requires a in matrix
    ensures forall x :: x in Bump(matrix, a, p) <==> x in matrix
    ensures forall x, y :: x in matrix && y in matrix[x] ==> y in Bump(matrix, a, p)[x]
    ensures forall x, y :: (Cell(Bump(matrix, a, p), x, y) ==
      Cell(matrix, x, y) + (if x == a && y == p then 1 else 0))
  {
  }

  /** The counts over one more row differ only in that row's cell. */
  lemma CountCellNext(actual: seq<string>, predicted: seq<string>, i: nat)
    requires i < |actual| <= |predicted|
    ensures forall x, y :: (CountCell(actual[..i + 1], predicted, x, y) ==
      CountCell(actual[..i], predicted, x, y) + (if x == actual[i] && y == predicted[i] then 1 else 0))
  {
    assert actual[..i + 1][..i] == actual[..i];
  }

  /** The nested print loop over the sorted labels. */
  method ReadCells(matrix: map<string, map<string, nat>>, labels: seq<string>) returns (cells: seq<seq<nat>>)
    ensures |cells| == |labels|
    ensures forall i :: 0 <= i < |labels| ==> |cells[i]| == |labels|
    ensures forall i, j :: 0 <= i < |labels| && 0 <= j < |labels| ==> cells[i][j] == Cell(matrix, labels[i], labels[j])
  {
    cells := [];
    for i := 0 to |labels|
      invariant |cells| == i
      invariant forall a :: 0 <= a < i ==> |cells[a]| == |labels|
      invariant forall a, b :: 0 <= a < i && 0 <= b < |labels| ==> cells[a][b] == Cell(matrix, labels[a], labels[b])
    {
      var line: seq<nat> := [];
      for j := 0 to |labels|
        invariant |line| == j
        invariant forall b :: 0 <= b < j ==> line[b] == Cell(matrix, labels[i], labels[b])
      {
        line := line + [Cell(matrix, labels[i], labels[j])];
      }
      cells := cells + [line];
    }
  }

  /** When every cell of the matrix holds its count, the printed cells are
      the confusion table. */
  lemma CellsAreTable(matrix: map<string, map<string, nat>>, cells: seq<seq<nat>>,
                      actual: seq<string>, predicted: seq<string>, labels: seq<string>)
    requires |actual| <= |predicted|
    requires forall x, y :: x in labels && y in labels ==> Cell(matrix, x, y) == CountCell(actual, predicted, x, y)
    requires |cells| == |labels|
    requires forall i :: 0 <= i < |labels| ==> |cells[i]| == |labels|
    requires forall i, j :: 0 <= i < |labels| && 0 <= j < |labels| ==> cells[i][j] == Cell(matrix, labels[i], labels[j])
    ensures cells == Table(actual, predicted, labels)
  {
    var t := Table(actual, predicted, labels);
    forall i | 0 <= i < |labels| ensures cells[i] == t[i] {
      assert t[i] == Row(actual, predicted, labels[i], labels);
    }
  }
}
