/** exercises/clustering/zones_clustering.go: the four-column loader for the
    third-party k-means run, and the names of the plot files it writes. */
module ZonesClustering {
  import opened Results
  import opened Text
  import opened Records

  /** The two ways a surviving row can fail; each carries the whole row,
      as the error message does. */
  datatype LoadError =
    | EmptyValue(row: seq<string>)
    | ParseError(row: seq<string>)

  /** Column `j` of `row`, trimmed, is not blank and parses. */
  predicate CellOk(row: seq<string>, j: nat, parse: string -> Option<real>)
    requires j < |row|
  {
    TrimSpace(row[j]) != "" && parse(TrimSpace(row[j])).Some?
  }

  /** The first `n` columns of `row` are all usable. */
  predicate CellsOk(row: seq<string>, n: nat, parse: string -> Option<real>)
    requires n <= |row|
  {
    forall j :: 0 <= j < n ==> TrimSpace(row[j]) != "" && parse(TrimSpace(row[j])).Some?
  }

  /** The point of a row whose first four columns are usable. */
  function RowPoint(row: seq<string>, parse: string -> Option<real>): (p: seq<real>)
    requires |row| >= 4 && CellsOk(row, 4, parse)
    ensures |p| == 4
    ensures forall j :: 0 <= j < 4 ==> Some(p[j]) == parse(TrimSpace(row[j]))
  {
    seq(4, j requires 0 <= j < 4 => parse(TrimSpace(row[j])).value)
  }

  /** The error for a row whose column `j` is the first unusable one: a blank
      value is reported before any attempt to parse it. */
  function CellError(row: seq<string>, j: nat): LoadError
    requires j < |row|
  {
    if TrimSpace(row[j]) == "" then EmptyValue(row) else ParseError(row)
  }

  /** `points` holds, in order, the four values of every row of `rows`. */
  predicate Loaded(points: seq<seq<real>>, rows: seq<seq<string>>, parse: string -> Option<real>)
  {
    |points| == |rows| &&
    forall i :: 0 <= i < |rows| ==>
      |rows[i]| >= 4 && CellsOk(rows[i], 4, parse) && points[i] == RowPoint(rows[i], parse)
  }

  /** `e` is the error for the first unusable cell of the first failing row of
      `rows`, scanning row by row and column by column. */
  predicate FirstFailure(e: LoadError, rows: seq<seq<string>>, parse: string -> Option<real>)
  {
    exists i, j :: 0 <= i < |rows| && 0 <= j < 4 && |rows[i]| >= 4 &&
      (forall a :: 0 <= a < i ==> |rows[a]| >= 4 && CellsOk(rows[a], 4, parse)) &&
      CellsOk(rows[i], j, parse) && !CellOk(rows[i], j, parse) &&
      e == CellError(rows[i], j)
  }

  /** The inner loop of `loadCSV` for one row: columns 0 to 3, each trimmed,
      checked for blankness, then parsed. */
  method ParseRow(row: seq<string>, parse: string -> Option<real>) returns (res: Result<seq<real>, nat>)
    requires |row| >= 4
    ensures res.Ok? <==> CellsOk(row, 4, parse)
    ensures res.Ok? ==> res.value == RowPoint(row, parse)
    ensures res.Err? ==> res.error < 4 && CellsOk(row, res.error, parse) && !CellOk(row, res.error, parse)
  {
    var point: seq<real> := [];
    for i := 0 to 4
      invariant CellsOk(row, i, parse)
      invariant |point| == i && forall j :: 0 <= j < i ==> Some(point[j]) == parse(TrimSpace(row[j]))
    {
      var val := TrimSpace(row[i]);
      if val == "" {
        return Err(i);
      }
      var f := parse(val);
      if f.None? {
        return Err(i);
      }
      point := point + [f.value];
    }
    return Ok(point);
  }

  /** `loadCSV` after the file has been read: the header is dropped (so there
      must be one), rows with fewer than four fields are skipped, and every
      other row contributes its first four values; the first blank or
      unparseable one of them aborts the whole load. */
  method LoadCSV(records: seq<seq<string>>, parse: string -> Option<real>) returns (r: Result<seq<seq<real>>, LoadError>)
    requires |records| >= 1
    ensures r.Ok? <==> forall i :: 0 <= i < |Wide(records[1..], 4)| ==> CellsOk(Wide(records[1..], 4)[i], 4, parse)
    ensures r.Ok? ==> Loaded(r.value, Wide(records[1..], 4), parse)
    ensures r.Err? ==> FirstFailure(r.error, Wide(records[1..], 4), parse)
  {
    var data: seq<seq<real>> := [];
    for i := 1 to |records|
      invariant Loaded(data, Wide(records[1..i], 4), parse)
    {
      var row := records[i];
      assert records[1..i + 1] == records[1..i] + [row];
      WideStep(records[1..i], 4, row);
      if |row| < 4 {
        continue;
      }
      var point := ParseRow(row, parse);
      if point.Err? {
        FailureAt(records, i, point.error, parse);
        return Err(CellError(row, point.error));
      }
      data := data + [point.value];
    }
    assert records[1..|records|] == records[1..];
    r := Ok(data);
  }

  /** A wide row at `i` whose column `j` is the first unusable one, after
      rows that all loaded, is the first failure of the load. */
  lemma FailureAt(records: seq<seq<string>>, i: nat, j: nat, parse: string -> Option<real>)
    requires 1 <= i < |records| && |records[i]| >= 4 && j < 4
    requires forall a :: 0 <= a < |Wide(records[1..i], 4)| ==> CellsOk(Wide(records[1..i], 4)[a], 4, parse)
    requires CellsOk(records[i], j, parse) && !CellOk(records[i], j, parse)
    ensures FirstFailure(CellError(records[i], j), Wide(records[1..], 4), parse)
    ensures !forall a :: 0 <= a < |Wide(records[1..], 4)| ==> CellsOk(Wide(records[1..], 4)[a], 4, parse)
  {
    var rows := Wide(records[1..], 4);
    var before := Wide(records[1..i], 4);
    assert records[1..] == records[1..i] + ([records[i]] + records[i + 1..]);
    WideAppend(records[1..i], [records[i]] + records[i + 1..], 4);
    WideAppend([records[i]], records[i + 1..], 4);
    WideStep([], 4, records[i]);
    assert [] + [records[i]] == [records[i]];
    assert rows == before + ([records[i]] + Wide(records[i + 1..], 4));
    var n := |before|;
    assert rows[n] == records[i];
    assert !CellsOk(rows[n], 4, parse);
    assert forall a :: 0 <= a < n ==> rows[a] == before[a];
  }

  /** The characters `sanitizeFilename` treats as unsafe. */
  predicate Unsafe(c: char)
  {
    c == ' ' || c == '(' || c == ')' || c == '/' || c == '%'
  }

  /** No unsafe character occurs in `s`. */
  predicate Safe(s: string)
  {
    forall j :: 0 <= j < |s| ==> !Unsafe(s[j])
  }

  /** Two safe strings joined stay safe. */
  lemma SafeAppend(s: string, t: string)
    requires Safe(s) && Safe(t)
    ensures Safe(s + t)
  {
    forall j | 0 <= j < |s + t| ensures !Unsafe((s + t)[j]) {
      if j >= |s| { assert (s + t)[j] == t[j - |s|]; }
    }
  }

  /** What the replacer writes for one (already lower-cased) character. */
  function Replacement(c: char): (r: string)
    ensures Safe(r)
  {
    if c == ' ' || c == '/' then "_"
    else if c == '(' || c == ')' then ""
    else if c == '%' then "percent"
    else [c]
  }

  /** `strings.NewReplacer(" ", "_", "(", "", ")", "", "/", "_", "%", "percent")`
      applied to `s`: every pattern is a single character, so the replacer
      rewrites `s` one character at a time from the left. */
  function Replace(s: string): string
  {
    if s == [] then [] else Replacement(s[0]) + Replace(s[1..])
  }

  /** `sanitizeFilename`: lower-case, then rewrite the unsafe characters. */
  function SanitizeFilename(name: string): string
  {
    Replace(ToLower(name))
  }

  /** Nothing unsafe survives the rewrite. */
  lemma {:induction false} ReplaceIsSafe(s: string)
    ensures Safe(Replace(s))
  {
    if s != [] {
      ReplaceIsSafe(s[1..]);
      SafeAppend(Replacement(s[0]), Replace(s[1..]));
    }
  }

  lemma SanitizedIsSafe(name: string)
    ensures Safe(SanitizeFilename(name))
  {
    ReplaceIsSafe(ToLower(name));
  }

  /** A string without unsafe characters is left as it is. */
  lemma {:induction false} ReplaceKeepsSafe(s: string)
    requires Safe(s)
    ensures Replace(s) == s
  {
    if s != [] {
      assert forall j :: 0 <= j < |s| - 1 ==> s[1..][j] == s[j + 1];
      ReplaceKeepsSafe(s[1..]);
    }
  }

  /** Rewriting distributes over concatenation. */
  lemma {:induction false} ReplaceAppend(s: string, t: string)
    ensures Replace(s + t) == Replace(s) + Replace(t)
  {
    if s != [] {
      assert (s + t)[0] == s[0];
      assert (s + t)[1..] == s[1..] + t;
      ReplaceAppend(s[1..], t);
    } else {
      assert s + t == t;
    }
  }

  /** The characters other than the five unsafe ones are kept, in order, and
      each unsafe one becomes its replacement: the output is the
      concatenation of the per-character replacements of the lower-cased name. */
  lemma {:induction false} ReplaceByCharacter(s: string, k: nat)
    requires k <= |s|
    ensures Replace(s) == Replace(s[..k]) + Replace(s[k..])
    ensures k < |s| ==> Replace(s[..k + 1]) == Replace(s[..k]) + Replacement(s[k])
  {
    assert s == s[..k] + s[k..];
    ReplaceAppend(s[..k], s[k..]);
    if k < |s| {
      assert s[..k + 1] == s[..k] + [s[k]];
      ReplaceAppend(s[..k], [s[k]]);
      assert Replace([s[k]]) == Replacement(s[k]) + Replace([]);
    }
  }

  /** No upper-case ASCII letter occurs in `s`. */
  predicate NoUpper(s: string)
  {
    forall j :: 0 <= j < |s| ==> !('A' <= s[j] <= 'Z')
  }

  lemma LowerHasNoUpper(s: string)
    ensures NoUpper(ToLower(s))
  {
  }

  lemma NoUpperIsLower(s: string)
    requires NoUpper(s)
    ensures ToLower(s) == s
  {
  }

  /** The rewrite brings in no upper-case letter. */
  lemma {:induction false} ReplaceKeepsNoUpper(s: string)
    requires NoUpper(s)
    ensures NoUpper(Replace(s))
  {
    if s != [] {
      assert forall j :: 0 <= j < |s| - 1 ==> s[1..][j] == s[j + 1];
      ReplaceKeepsNoUpper(s[1..]);
      var h := Replacement(s[0]);
      var t := Replace(s[1..]);
      assert Replace(s) == h + t;
      forall j | 0 <= j < |h + t| ensures !('A' <= (h + t)[j] <= 'Z') {
        if j >= |h| { assert (h + t)[j] == t[j - |h|]; }
      }
    }
  }

  /** Sanitising a sanitised name changes nothing. */
  lemma SanitizeIdempotent(name: string)
    ensures SanitizeFilename(SanitizeFilename(name)) == SanitizeFilename(name)
  {
    var s := SanitizeFilename(name);
    LowerHasNoUpper(name);
    ReplaceKeepsNoUpper(ToLower(name));
    NoUpperIsLower(s);
    SanitizedIsSafe(name);
    ReplaceKeepsSafe(s);
  }

  /** The plot file name built in `Run` from two feature names. */
  function PlotFilename(x: string, y: string): string
  {
    "cluster_" + SanitizeFilename(x) + "_vs_" + SanitizeFilename(y) + ".png"
  }

  /** The plot file name starts with "cluster_", ends with ".png", and the part
      between holds the two sanitised feature names around "_vs_" with no
      unsafe character anywhere. */
  lemma PlotFilenameShape(x: string, y: string)
    ensures PlotFilename(x, y)[..8] == "cluster_"
    ensures PlotFilename(x, y)[|PlotFilename(x, y)| - 4..] == ".png"
    ensures Safe(PlotFilename(x, y))
  {
    var a := SanitizeFilename(x);
    var b := SanitizeFilename(y);
    SanitizedIsSafe(x);
    SanitizedIsSafe(y);
    assert Safe("cluster_") && Safe("_vs_") && Safe(".png");
    SafeAppend("cluster_", a);
    SafeAppend("cluster_" + a, "_vs_");
    SafeAppend("cluster_" + a + "_vs_", b);
    SafeAppend("cluster_" + a + "_vs_" + b, ".png");
  }
}
