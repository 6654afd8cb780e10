/** exercises/regression/housing_regression.go: turning the CSV rows into
    numbers, the error measures, the range helpers, and the linear predictor
    applied with the fitted coefficients. */
module HousingRegression {
  import opened Results
  import opened Text
  import opened Vectors
  import opened Records

  /** A row whose fields, written one after the other, are only white space. */
  predicate BlankRow(row: seq<string>)
  {
    TrimSpace(Concat(row)) == ""
  }

  /** Column `c` of `row` gives a cell: it is not skipped and not blank. */
  predicate Kept(row: seq<string>, skip: seq<int>, c: int)
    requires 0 <= c < |row|
  {
    c !in skip && TrimSpace(row[c]) != ""
  }

  /** The trimmed contents of the columns `0 .. n-1` of `row` that are neither
      listed in `skip` nor blank, in column order. */
  function Cells(row: seq<string>, skip: seq<int>, n: nat): (r: seq<string>)
    requires n <= |row|
    ensures |r| <= n
    ensures forall k :: 0 <= k < |r| ==> r[k] != ""
  {
    if n == 0 then []
    else
      var c := n - 1;
      Cells(row, skip, c) + (if Kept(row, skip, c) then [TrimSpace(row[c])] else [])
  }

  predicate AllParse(cells: seq<string>, parse: string -> Option<real>)
  {
    forall k :: 0 <= k < |cells| ==> parse(cells[k]).Some?
  }

  /** The numbers of a row whose cells all parse. */
  function Values(cells: seq<string>, parse: string -> Option<real>): (v: seq<real>)
    requires AllParse(cells, parse)
    ensures |v| == |cells|
    ensures forall k :: 0 <= k < |v| ==> Some(v[k]) == parse(cells[k])
  {
    seq(|cells|, k requires 0 <= k < |cells| => parse(cells[k]).value)
  }

  /** The row is blank or all its cells parse. */
  predicate RowConvertible(row: seq<string>, skip: seq<int>, parse: string -> Option<real>)
  {
    !BlankRow(row) ==> AllParse(Cells(row, skip, |row|), parse)
  }

  /** What one convertible row contributes: nothing when it is blank or has
      no cell, otherwise the numbers of its cells. */
  function RowOutput(row: seq<string>, skip: seq<int>, parse: string -> Option<real>): seq<seq<real>>
    requires RowConvertible(row, skip, parse)
  {
    var cells := Cells(row, skip, |row|);
    if !BlankRow(row) && |cells| > 0 then [Values(cells, parse)] else []
  }

  /** Every row that is not blank has all its cells parse. */
  predicate Convertible(data: seq<seq<string>>, skip: seq<int>, parse: string -> Option<real>)
  {
    forall i :: 0 <= i < |data| ==> RowConvertible(data[i], skip, parse)
  }

  /** What a successful conversion returns: for each row in order, unless it
      is blank or has no cell left, the numbers of its cells. */
  function Converted(data: seq<seq<string>>, skip: seq<int>, parse: string -> Option<real>): (r: seq<seq<real>>)
    requires Convertible(data, skip, parse)
  {
    if data == [] then []
    else
      var n := |data| - 1;
      assert Convertible(data[..n], skip, parse) by {
        assert forall i :: 0 <= i < n ==> data[..n][i] == data[i];
      }
      Converted(data[..n], skip, parse) + RowOutput(data[n], skip, parse)
  }

  /** `e` is the first cell that fails to parse: row `i` is the first row that
      is not convertible, and column `j` its first failing cell. */
  predicate FirstFailure(e: string, data: seq<seq<string>>, skip: seq<int>, parse: string -> Option<real>)
  {
    exists i, j :: 0 <= i < |data| && 0 <= j < |data[i]| &&
      Convertible(data[..i], skip, parse) && !BlankRow(data[i]) &&
      AllParse(Cells(data[i], skip, j), parse) &&
      j !in skip && TrimSpace(data[i][j]) != "" && parse(TrimSpace(data[i][j])).None? &&
      e == data[i][j]
  }

  /** The `skipColumns` loop: whether column `i` is listed. */
  method IsSkipped(i: int, skipColumns: seq<int>) returns (skip: bool)
    ensures skip <==> i in skipColumns
  {
    skip := false;
    for k := 0 to |skipColumns|
      invariant !skip && i !in skipColumns[..k]
    {
      if i == skipColumns[k] {
        skip := true;
        break;
      }
    }
  }

  /** The column loop of `convertToFloat64` for one row. */
  method ConvertRow(row: seq<string>, skipColumns: seq<int>, parse: string -> Option<real>) returns (r: Result<seq<real>, nat>)
    ensures r.Ok? <==> AllParse(Cells(row, skipColumns, |row|), parse)
    ensures r.Ok? ==> r.value == Values(Cells(row, skipColumns, |row|), parse)
    ensures r.Err? ==> r.error < |row|
    ensures r.Err? ==> AllParse(Cells(row, skipColumns, r.error), parse)
    ensures r.Err? ==> r.error !in skipColumns && TrimSpace(row[r.error]) != "" && parse(TrimSpace(row[r.error])).None?
  {
    var floatRow: seq<real> := [];
    for i := 0 to |row|
      invariant AllParse(Cells(row, skipColumns, i), parse)
      invariant floatRow == Values(Cells(row, skipColumns, i), parse)
    {
      var skip := IsSkipped(i, skipColumns);
      if skip {
        continue;
      }
      var val := TrimSpace(row[i]);
      if val == "" {
        continue;
      }
      var f := parse(val);
      if f.None? {
        CellFails(row, skipColumns, parse, i);
        return Err(i);
      }
      floatRow := floatRow + [f.value];
    }
    return Ok(floatRow);
  }

  /** The cells of a shorter prefix come first among those of a longer one. */
  lemma {:induction false} CellsPrefix(row: seq<string>, skip: seq<int>, m: nat, n: nat)
    requires m <= n <= |row|
    ensures |Cells(row, skip, m)| <= |Cells(row, skip, n)|
    ensures Cells(row, skip, n)[..|Cells(row, skip, m)|] == Cells(row, skip, m)
    decreases n
  {
    if m < n {
      CellsPrefix(row, skip, m, n - 1);
    }
  }

  /** `convertToFloat64`: blank rows are dropped; each other row keeps the
      parsed values of its non-skipped, non-blank fields and is dropped when
      none is left; the first field that does not parse fails the whole
      conversion and reports the field as written. `make` is given the
      capacity `len(row) - len(skipColumns)`, which must not be negative. */
  method ConvertToFloat64(data: seq<seq<string>>, skipColumns: seq<int>, parse: string -> Option<real>)
    returns (r: Result<seq<seq<real>>, string>)
    requires forall i :: 0 <= i < |data| && !BlankRow(data[i]) ==> |data[i]| >= |skipColumns|
    ensures r.Ok? <==> Convertible(data, skipColumns, parse)
    ensures r.Ok? ==> r.value == Converted(data, skipColumns, parse)
    ensures r.Err? ==> FirstFailure(r.error, data, skipColumns, parse)
  {
    var result: seq<seq<real>> := [];
    for i := 0 to |data|
      invariant Convertible(data[..i], skipColumns, parse)
      invariant result == Converted(data[..i], skipColumns, parse)
    {
      var row := data[i];
      if TrimSpace(Concat(row)) == "" {
        ConvertedStep(data, skipColumns, parse, i);
        continue;
      }
      var floatRow := ConvertRow(row, skipColumns, parse);
      if floatRow.Err? {
        FailureAt(data, skipColumns, parse, i, floatRow.error);
        return Err(row[floatRow.error]);
      }
      ConvertedStep(data, skipColumns, parse, i);
      if |floatRow.value| > 0 {
        result := result + [floatRow.value];
      }
    }
    assert data[..|data|] == data;
    return Ok(result);
  }

  lemma ConvertedStep(data: seq<seq<string>>, skip: seq<int>, parse: string -> Option<real>, i: nat)
    requires i < |data| && Convertible(data[..i], skip, parse)
    requires !BlankRow(data[i]) ==> AllParse(Cells(data[i], skip, |data[i]|), parse)
    ensures Convertible(data[..i + 1], skip, parse)
    ensures Converted(data[..i + 1], skip, parse) == Converted(data[..i], skip, parse) + RowOutput(data[i], skip, parse)
  {
    var p := data[..i + 1];
    assert p[..i] == data[..i];
    assert forall k :: 0 <= k <= i ==> p[k] == data[k];
  }

  /** A failing cell in row `i` after convertible rows is the first failure. */
  lemma FailureAt(data: seq<seq<string>>, skip: seq<int>, parse: string -> Option<real>, i: nat, j: nat)
    requires i < |data| && Convertible(data[..i], skip, parse) && !BlankRow(data[i])
    requires j < |data[i]| && AllParse(Cells(data[i], skip, j), parse)
    requires j !in skip && TrimSpace(data[i][j]) != "" && parse(TrimSpace(data[i][j])).None?
    ensures FirstFailure(data[i][j], data, skip, parse)
    ensures !Convertible(data, skip, parse)
  {
    CellFails(data[i], skip, parse, j);
    assert !RowConvertible(data[i], skip, parse);
    var e := data[i][j];
    assert 0 <= i < |data| && 0 <= j < |data[i]| &&
      Convertible(data[..i], skip, parse) && !BlankRow(data[i]) &&
      AllParse(Cells(data[i], skip, j), parse) &&
      j !in skip && TrimSpace(data[i][j]) != "" && parse(TrimSpace(data[i][j])).None? &&
      e == data[i][j];
  }

  /** A non-skipped, non-blank field that does not parse makes its row fail. */
  lemma CellFails(row: seq<string>, skip: seq<int>, parse: string -> Option<real>, j: nat)
    requires j < |row| && j !in skip && TrimSpace(row[j]) != "" && parse(TrimSpace(row[j])).None?
    ensures !AllParse(Cells(row, skip, |row|), parse)
  {
    CellsPrefix(row, skip, j + 1, |row|);
    assert Cells(row, skip, j + 1)[|Cells(row, skip, j)|] == TrimSpace(row[j]);
  }

  /** Converting a concatenation converts each part: rows keep their order
      and each row's outcome depends on that row alone. */
  lemma {:induction false} ConvertedAppend(xs: seq<seq<string>>, ys: seq<seq<string>>, skip: seq<int>, parse: string -> Option<real>)
    requires Convertible(xs + ys, skip, parse)
    ensures Convertible(xs, skip, parse) && Convertible(ys, skip, parse)
    ensures Converted(xs + ys, skip, parse) == Converted(xs, skip, parse) + Converted(ys, skip, parse)
    decreases |ys|
  {
    var all := xs + ys;
    ConvertibleParts(xs, ys, skip, parse);
    if ys == [] {
      assert all == xs;
    } else {
      var n := |ys| - 1;
      var front := xs + ys[..n];
      assert all[..|all| - 1] == front;
      assert all[|all| - 1] == ys[n];
      ConvertedLast(all, skip, parse);
      ConvertedLast(ys, skip, parse);
      ConvertedAppend(xs, ys[..n], skip, parse);
      var tail := RowOutput(ys[n], skip, parse);
      calc {
        Converted(all, skip, parse);
        Converted(front, skip, parse) + tail;
        (Converted(xs, skip, parse) + Converted(ys[..n], skip, parse)) + tail;
        Converted(xs, skip, parse) + (Converted(ys[..n], skip, parse) + tail);
        Converted(xs, skip, parse) + Converted(ys, skip, parse);
      }
    }
  }

  /** The last row's output comes after those of the rows before it. */
  lemma ConvertedLast(data: seq<seq<string>>, skip: seq<int>, parse: string -> Option<real>)
    requires data != [] && Convertible(data, skip, parse)
    ensures Convertible(data[..|data| - 1], skip, parse)
    ensures RowConvertible(data[|data| - 1], skip, parse)
    ensures Converted(data, skip, parse) ==
      Converted(data[..|data| - 1], skip, parse) + RowOutput(data[|data| - 1], skip, parse)
  {
    ConvertiblePrefix(data, skip, parse, |data| - 1);
  }

  lemma ConvertibleParts(xs: seq<seq<string>>, ys: seq<seq<string>>, skip: seq<int>, parse: string -> Option<real>)
    requires Convertible(xs + ys, skip, parse)
    ensures Convertible(xs, skip, parse) && Convertible(ys, skip, parse)
  {
    var all := xs + ys;
    forall i | 0 <= i < |xs| ensures RowConvertible(xs[i], skip, parse) {
      assert xs[i] == all[i];
    }
    forall i | 0 <= i < |ys| ensures RowConvertible(ys[i], skip, parse) {
      assert ys[i] == all[|xs| + i];
    }
  }

  /** A prefix of convertible rows is convertible. */
  lemma ConvertiblePrefix(data: seq<seq<string>>, skip: seq<int>, parse: string -> Option<real>, k: nat)
    requires k <= |data| && Convertible(data, skip, parse)
    ensures Convertible(data[..k], skip, parse)
  {
    assert forall i :: 0 <= i < k ==> data[..k][i] == data[i];
  }

  /** Every output row is non-empty and has one number per cell of some input
      row, and there are at most as many output rows as input rows. */
  lemma {:induction false} ConvertedRows(data: seq<seq<string>>, skip: seq<int>, parse: string -> Option<real>)
    requires Convertible(data, skip, parse)
    ensures |Converted(data, skip, parse)| <= |data|
    ensures forall k :: 0 <= k < |Converted(data, skip, parse)| ==>
      Converted(data, skip, parse)[k] != [] &&
      exists i :: 0 <= i < |data| && !BlankRow(data[i]) && |Converted(data, skip, parse)[k]| == |Cells(data[i], skip, |data[i]|)|
  {
    if data != [] {
      var n := |data| - 1;
      assert forall i :: 0 <= i < n ==> data[..n][i] == data[i];
      ConvertedRows(data[..n], skip, parse);
    }
  }

  /** The contents of skipped columns never matter: two rows that agree on
      every other column have the same cells. */
  lemma {:induction false} CellsIgnoreSkipped(row: seq<string>, other: seq<string>, skip: seq<int>, n: nat)
    requires n <= |row| == |other|
    requires forall c :: 0 <= c < |row| && c !in skip ==> row[c] == other[c]
    ensures Cells(row, skip, n) == Cells(other, skip, n)
  {
    if n > 0 {
      CellsIgnoreSkipped(row, other, skip, n - 1);
    }
  }

  /** The columns below `n` that give a cell. */
  function KeptColumns(row: seq<string>, skip: seq<int>, n: nat): set<int>
    requires n <= |row|
  {
    if n == 0 then {} else KeptColumns(row, skip, n - 1) + (if Kept(row, skip, n - 1) then {n - 1} else {})
  }

  /** A column is kept exactly when it is neither skipped nor blank. */
  lemma {:induction false} KeptColumnsMembers(row: seq<string>, skip: seq<int>, n: nat, c: int)
    requires n <= |row|
    ensures c in KeptColumns(row, skip, n) <==> 0 <= c < n && Kept(row, skip, c)
  {
    if n > 0 {
      KeptColumnsMembers(row, skip, n - 1, c);
    }
  }

  /** A cell is the trimmed content of a non-skipped, non-blank column, and
      every such column gives a cell: there are as many cells as kept columns. */
  lemma {:induction false} CellsAreColumns(row: seq<string>, skip: seq<int>, n: nat)
    requires n <= |row|
    ensures |Cells(row, skip, n)| == |KeptColumns(row, skip, n)|
  {
    if n > 0 {
      CellsAreColumns(row, skip, n - 1);
      CellsNext(row, skip, n);
      KeptColumnsNext(row, skip, n);
    }
  }

  lemma CellsNext(row: seq<string>, skip: seq<int>, n: nat)
    requires 0 < n <= |row|
    ensures |Cells(row, skip, n)| == |Cells(row, skip, n - 1)| + (if Kept(row, skip, n - 1) then 1 else 0)
  {
  }

  lemma KeptColumnsNext(row: seq<string>, skip: seq<int>, n: nat)
    requires 0 < n <= |row|
    ensures |KeptColumns(row, skip, n)| == |KeptColumns(row, skip, n - 1)| + (if Kept(row, skip, n - 1) then 1 else 0)
  {
    KeptColumnsMembers(row, skip, n - 1, n - 1);
  }

  function Abs(x: real): real
  {
    if x < 0.0 then -x else x
  }

  /** Sum over the first `n` positions of the absolute differences. */
  function AbsSum(a: seq<real>, b: seq<real>, n: nat): real
    requires n <= |a| && n <= |b|
  {
    if n == 0 then 0.0 else AbsSum(a, b, n - 1) + Abs(a[n - 1] - b[n - 1])
  }

  /** The sum of absolute differences is never negative, and is zero exactly
      on agreeing prefixes. */
  lemma {:induction false} AbsSumZeroIff(a: seq<real>, b: seq<real>, n: nat)
    requires n <= |a| && n <= |b|
    ensures AbsSum(a, b, n) >= 0.0
    ensures AbsSum(a, b, n) == 0.0 <==> a[..n] == b[..n]
  {
    if n > 0 {
      AbsSumZeroIff(a, b, n - 1);
      assert a[..n] == a[..n - 1] + [a[n - 1]];
      assert b[..n] == b[..n - 1] + [b[n - 1]];
      if a[..n] == b[..n] {
        assert a[..n - 1] == a[..n][..n - 1];
        assert b[..n - 1] == b[..n][..n - 1];
        assert a[n - 1] == a[..n][n - 1];
        assert b[n - 1] == b[..n][n - 1];
      }
    }
  }

  /** `calculateMeanAbsoluteError`: 0 on a length mismatch or empty input,
      otherwise the mean absolute difference. */
  method MeanAbsoluteError(actual: seq<real>, predicted: seq<real>) returns (mae: real)
    ensures |actual| != |predicted| || |actual| == 0 ==> mae == 0.0
    ensures |actual| == |predicted| > 0 ==> mae == AbsSum(actual, predicted, |actual|) / (|actual| as real)
    ensures mae >= 0.0
    ensures mae == 0.0 <==> |actual| != |predicted| || actual == predicted
  {
    if |actual| != |predicted| || |actual| == 0 {
      return 0.0;
    }
    var sum := 0.0;
    for i := 0 to |actual|
      invariant sum == AbsSum(actual, predicted, i)
    {
      sum := sum + Abs(actual[i] - predicted[i]);
    }
    AbsSumZeroIff(actual, predicted, |actual|);
    assert actual[..|actual|] == actual && predicted[..|predicted|] == predicted;
    mae := sum / (|actual| as real);
    MeanFacts(sum, |actual|, mae);
  }

  /** A mean of a non-negative sum is non-negative, and zero exactly when the sum is. */
  lemma MeanFacts(sum: real, n: nat, mean: real)
    requires n > 0 && sum >= 0.0 && mean == sum / (n as real)
    ensures mean >= 0.0
    ensures mean == 0.0 <==> sum == 0.0
  {
    assert mean * (n as real) == sum;
  }

  /** `calculateRootMeanSquaredError` before its final `math.Sqrt`: 0 on a
      length mismatch or empty input, otherwise the mean squared difference. */
  method MeanSquaredError(actual: seq<real>, predicted: seq<real>) returns (mse: real)
    ensures |actual| != |predicted| || |actual| == 0 ==> mse == 0.0
    ensures |actual| == |predicted| > 0 ==> mse == SumSq(actual, predicted, |actual|) / (|actual| as real)
    ensures mse >= 0.0
    ensures mse == 0.0 <==> |actual| != |predicted| || actual == predicted
  {
    if |actual| != |predicted| || |actual| == 0 {
      return 0.0;
    }
    var sum := 0.0;
    for i := 0 to |actual|
      invariant sum == SumSq(actual, predicted, i)
    {
      var diff := actual[i] - predicted[i];
      sum := sum + diff * diff;
    }
    SumSqNonNegative(actual, predicted, |actual|);
    SumSqZeroIff(actual, predicted, |actual|);
    assert actual[..|actual|] == actual && predicted[..|predicted|] == predicted;
    mse := sum / (|actual| as real);
    MeanFacts(sum, |actual|, mse);
  }

  /** `minValue`: `None` (Go's NaN) on empty input, otherwise an element no
      other element is below. */
  method MinValue(slice: seq<real>) returns (r: Option<real>)
    ensures r.None? <==> slice == []
    ensures r.Some? ==> r.value in slice && forall k :: 0 <= k < |slice| ==> r.value <= slice[k]
  {
    if |slice| == 0 {
      return None;
    }
    var min := slice[0];
    for i := 1 to |slice|
      invariant min in slice[..i]
      invariant forall k :: 0 <= k < i ==> min <= slice[k]
    {
      if slice[i] < min {
        min := slice[i];
      }
    }
    assert slice[..|slice|] == slice;
    return Some(min);
  }

  /** `maxValue`: `None` (Go's NaN) on empty input, otherwise an element no
      other element is above. */
  method MaxValue(slice: seq<real>) returns (r: Option<real>)
    ensures r.None? <==> slice == []
    ensures r.Some? ==> r.value in slice && forall k :: 0 <= k < |slice| ==> slice[k] <= r.value
  {
    if |slice| == 0 {
      return None;
    }
    var max := slice[0];
    for i := 1 to |slice|
      invariant max in slice[..i]
      invariant forall k :: 0 <= k < i ==> slice[k] <= max
    {
      if slice[i] > max {
        max := slice[i];
      }
    }
    assert slice[..|slice|] == slice;
    return Some(max);
  }

  /** The rows with at least six values, split into the first five (the
      features) and the sixth (the price): the `multiX`/`multiY` loop. */
  method SelectMultiple(data: seq<seq<real>>) returns (multiX: seq<seq<real>>, multiY: seq<real>)
    ensures |multiX| == |multiY| == |Wide(data, 6)|
    ensures forall i :: 0 <= i < |multiX| ==> multiX[i] == Wide(data, 6)[i][..5] && multiY[i] == Wide(data, 6)[i][5]
  {
    multiX := [];
    multiY := [];
    for i := 0 to |data|
      invariant |multiX| == |multiY| == |Wide(data[..i], 6)|
      invariant forall k :: 0 <= k < |multiX| ==> multiX[k] == Wide(data[..i], 6)[k][..5] && multiY[k] == Wide(data[..i], 6)[k][5]
    {
      var row := data[i];
      assert data[..i + 1] == data[..i] + [row];
      WideStep(data[..i], 6, row);
      if |row| >= 6 {
        multiX := multiX + [row[..5]];
        multiY := multiY + [row[5]];
      }
    }
    assert data[..|data|] == data;
  }

  /** `coefficients[0] + Σ coefficients[j+1] * x[j]` over the first `n` features. */
  function Linear(coefficients: seq<real>, x: seq<real>, n: nat): real
    requires n <= |x| < |coefficients|
  {
    if n == 0 then coefficients[0] else Linear(coefficients, x, n - 1) + coefficients[n] * x[n - 1]
  }

  /** The price predicted for `x`: the intercept plus the weighted features. */
  function Predict(coefficients: seq<real>, x: seq<real>): real
    requires |x| < |coefficients|
  {
    Linear(coefficients, x, |x|)
  }

  /** With every feature zero the prediction is the intercept. */
  lemma {:induction false} PredictAtOrigin(coefficients: seq<real>, x: seq<real>, n: nat)
    requires n <= |x| < |coefficients|
    requires forall j :: 0 <= j < |x| ==> x[j] == 0.0
    ensures Linear(coefficients, x, n) == coefficients[0]
  {
    if n > 0 {
      PredictAtOrigin(coefficients, x, n - 1);
    }
  }

  /** Raising feature `j` by `d` raises the prediction by `coefficients[j+1] * d`. */
  lemma {:induction false} PredictSlope(coefficients: seq<real>, x: seq<real>, j: nat, d: real, n: nat)
    requires n <= |x| < |coefficients| && j < |x|
    ensures Linear(coefficients, x[j := x[j] + d], n) ==
      Linear(coefficients, x, n) + (if j < n then coefficients[j + 1] * d else 0.0)
  {
    if n > 0 {
      PredictSlope(coefficients, x, j, d, n - 1);
      if j == n - 1 {
        assert coefficients[n] * (x[j] + d) == coefficients[n] * x[j] + coefficients[n] * d;
      }
    }
  }

  /** The rows with more coefficients than features. */
  function Predictable(coefficients: seq<real>, multiX: seq<seq<real>>): (r: seq<nat>)
    ensures forall k :: 0 <= k < |r| ==> r[k] < |multiX| && |multiX[r[k]]| < |coefficients|
  {
    if multiX == [] then []
    else
      var n := |multiX| - 1;
      Predictable(coefficients, multiX[..n]) + (if |coefficients| > |multiX[n]| then [n] else [])
  }

  /** The inner loop of `performRegression`: the intercept plus each
      coefficient times its feature, accumulated left to right. */
  method PredictRow(coefficients: seq<real>, featuresRow: seq<real>) returns (predicted: real)
    requires |featuresRow| < |coefficients|
    ensures predicted == Predict(coefficients, featuresRow)
  {
    predicted := coefficients[0];
    for j := 0 to |featuresRow|
      invariant predicted == Linear(coefficients, featuresRow, j)
    {
      predicted := predicted + coefficients[j + 1] * featuresRow[j];
    }
  }

  /** The prediction loop of `performRegression`: each row with more
      coefficients than features contributes its price and its prediction;
      any other row is skipped. */
  method PredictPrices(coefficients: seq<real>, multiX: seq<seq<real>>, multiY: seq<real>)
    returns (actualPrices: seq<real>, predictedPrices: seq<real>)
    requires |multiY| >= |multiX|
    ensures |actualPrices| == |predictedPrices| == |Predictable(coefficients, multiX)|
    ensures forall k :: 0 <= k < |actualPrices| ==>
      var i := Predictable(coefficients, multiX)[k];
      actualPrices[k] == multiY[i] && predictedPrices[k] == Predict(coefficients, multiX[i])
  {
    actualPrices := [];
    predictedPrices := [];
    for i := 0 to |multiX|
      invariant |actualPrices| == |predictedPrices| == |Predictable(coefficients, multiX[..i])|
      invariant forall k :: 0 <= k < |actualPrices| ==>
        var m := Predictable(coefficients, multiX[..i])[k];
        actualPrices[k] == multiY[m] && predictedPrices[k] == Predict(coefficients, multiX[m])
    {
      var featuresRow := multiX[i];
      assert multiX[..i + 1][..i] == multiX[..i];
      assert Predictable(coefficients, multiX[..i + 1]) ==
        Predictable(coefficients, multiX[..i]) + (if |coefficients| > |featuresRow| then [i] else []);
      if |coefficients| > |featuresRow| {
        var predicted := PredictRow(coefficients, featuresRow);
        actualPrices := actualPrices + [multiY[i]];
        predictedPrices := predictedPrices + [predicted];
      }
    }
    assert multiX[..|multiX|] == multiX;
  }

  /** When every row has fewer features than there are coefficients, every
      row is predicted, in order. */
  lemma {:induction false} AllPredictable(coefficients: seq<real>, multiX: seq<seq<real>>)
    requires forall i :: 0 <= i < |multiX| ==> |multiX[i]| < |coefficients|
    ensures |Predictable(coefficients, multiX)| == |multiX|
    ensures forall k :: 0 <= k < |multiX| ==> Predictable(coefficients, multiX)[k] == k
  {
    if multiX != [] {
      var n := |multiX| - 1;
      assert forall i :: 0 <= i < n ==> multiX[..n][i] == multiX[i];
      AllPredictable(coefficients, multiX[..n]);
    }
  }
}
