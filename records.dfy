/** The header-skipping row filter written out identically in `loadData` of
    classification.go and of clustering.go: a row survives when it is not
    empty, its fields do not join to "", and no field is blank after trimming. */
module Records {
  import opened Text

  /** The test the loop applies to each row after the header. */
  predicate KeepRecord(row: seq<string>)
  {
    !(|row| == 0 || Concat(row) == "") && forall j :: 0 <= j < |row| ==> TrimSpace(row[j]) != ""
  }

  /** The surviving rows, in input order. */
  function KeptRecords(rows: seq<seq<string>>): (kept: seq<seq<string>>)
    ensures |kept| <= |rows|
    ensures forall i :: 0 <= i < |kept| ==> KeepRecord(kept[i])
  {
    if rows == [] then []
    else
      var n := |rows| - 1;
      KeptRecords(rows[..n]) + (if KeepRecord(rows[n]) then [rows[n]] else [])
  }

  /** The joined-content test is implied by the blank-field test: a row
      survives exactly when it has a field and none of them is blank. */
  lemma KeepRecordIff(row: seq<string>)
    ensures KeepRecord(row) <==> |row| > 0 && forall j :: 0 <= j < |row| ==> TrimSpace(row[j]) != ""
  {
    if |row| > 0 && forall j :: 0 <= j < |row| ==> TrimSpace(row[j]) != "" {
      ConcatEmpty(row);
      assert row[0] != "" by { assert TrimSpace(row[0]) != ""; }
    }
  }

  /** A row is kept exactly when it is one of the input rows and passes the test. */
  lemma {:induction false} KeptRecordsMembers(rows: seq<seq<string>>, row: seq<string>)
    ensures row in KeptRecords(rows) <==> row in rows && KeepRecord(row)
  {
    if rows != [] {
      var n := |rows| - 1;
      KeptRecordsMembers(rows[..n], row);
      assert rows == rows[..n] + [rows[n]];
    }
  }

  /** The first loop of `loadData`: skip the header, keep the rows that pass. */
  method FilterRecords(records: seq<seq<string>>) returns (validRecords: seq<seq<string>>)
    requires |records| >= 1
    ensures validRecords == KeptRecords(records[1..])
  {
    validRecords := [];
    for i := 0 to |records|
      invariant validRecords == KeptRecords(records[1..if i == 0 then 1 else i])
    {
      if i == 0 {
        continue;
      }
      var row := records[i];
      assert records[1..i + 1][..i - 1] == records[1..i];
      if |row| == 0 || Concat(row) == "" {
        continue;
      }
      var allValid := true;
      for j := 0 to |row|
        invariant allValid == forall m :: 0 <= m < j ==> TrimSpace(row[m]) != ""
      {
        if TrimSpace(row[j]) == "" {
          allValid := false;
          break;
        }
      }
      if allValid {
        validRecords := validRecords + [row];
      }
    }
    assert records[1..|records|] == records[1..];
  }

  /** The rows with at least `width` fields, in input order: the
      `if len(row) < width { continue }` filter of the loaders that read a
      fixed number of leading columns. */
  function Wide<T>(rows: seq<seq<T>>, width: nat): (r: seq<seq<T>>)
    ensures |r| <= |rows|
    ensures forall i :: 0 <= i < |r| ==> |r[i]| >= width
  {
    if rows == [] then []
    else
      var n := |rows| - 1;
      Wide(rows[..n], width) + (if |rows[n]| >= width then [rows[n]] else [])
  }

  /** A row survives exactly when it is one of the rows and is wide enough. */
  lemma {:induction false} WideMembers<T>(rows: seq<seq<T>>, width: nat, row: seq<T>)
    ensures row in Wide(rows, width) <==> row in rows && |row| >= width
  {
    if rows != [] {
      var n := |rows| - 1;
      WideMembers(rows[..n], width, row);
      assert rows == rows[..n] + [rows[n]];
    }
  }

  lemma WideStep<T>(rows: seq<seq<T>>, width: nat, row: seq<T>)
    ensures Wide(rows + [row], width) == Wide(rows, width) + (if |row| >= width then [row] else [])
  {
    assert (rows + [row])[..|rows|] == rows;
  }

  /** Filtering a concatenation filters each part. */
  lemma {:induction false} WideAppend<T>(xs: seq<seq<T>>, ys: seq<seq<T>>, width: nat)
    ensures Wide(xs + ys, width) == Wide(xs, width) + Wide(ys, width)
    decreases |ys|
  {
    if ys == [] {
      assert xs + ys == xs;
    } else {
      var n := |ys| - 1;
      WideAppend(xs, ys[..n], width);
      assert xs + ys == (xs + ys[..n]) + [ys[n]];
      WideStep(xs + ys[..n], width, ys[n]);
    }
  }
}
