# go-data-mining-workshop, modelled in Dafny

This project models the computational core of the workshop's Go exercises.

- **Classification.** There are two k-nearest-neighbours pipelines:
  - `exercises/classification/classification.go` has a `KNNClassifier` object, a shuffled train/test split, accuracy, and a confusion matrix.
  - `exercises/classification/sleep_classification.go` is a free-standing pipeline. It has a seeded-permutation split, a confusion matrix over nested maps, and a check of one line of user input.
- **Clustering.** `exercises/clustering/clustering.go` implements Lloyd's k-means with its CSV loader. `exercises/clustering/zones_clustering.go` has a four-column loader and the sanitising of plot file names.
- **Regression.** `exercises/regression/housing_regression.go` covers:
  - the conversion of CSV rows to numbers;
  - mean absolute error and (root) mean squared error;
  - the min/max helpers;
  - the linear predictor applied with fitted coefficients.

## How the model is written

- **Numbers.** Go's `float64` is modelled as `real`. Every distance is squared Euclidean distance. The source only compares or thresholds distances, and the square root is monotone, so the squared distance decides each comparison the same way. `Vectors.Distance` adds the `+Inf` that `math.Inf(1)` returns for vectors of different lengths.
- **Parsing and NaN.** `strconv.ParseFloat` is a parameter `parse: string -> Option<real>`. A NaN result (0/0 accuracy, min/max of an empty slice) is `None`.
- **Randomness** is replaced by caller-supplied draws:
  - `rand.Shuffle` is Fisher–Yates driven by a sequence `picks` with `picks[i] <= i` (`Splitting.ShuffleFrom`).
  - `rand.Perm` is the inside-out shuffle driven by the same kind of sequence (`Splitting.PermPrefix`).
  - The `rand.Intn` draws of k-means are the list `initIdx`.
- **Sorting.** `sort.Slice` is not stable, so its result is specified as *some* ascending ordering (`Voting.Ranking`). The k-NN answer (`Voting.KnnVote`) is a majority label of the first k rows under some such ordering. The model sorts with an insertion sort (`Sorting.SortBy`).
- **Map iteration.** Go iterates a map in an unspecified order, so the model picks keys in an arbitrary order (`:|`). When several labels tie for the most votes, the model promises only that one of them is returned.
- **Panics.** Where the Go code would panic (an index out of range, `make` with a negative size), the model has a precondition. Errors the Go code returns become `Result` values.
- **Files.** The loaders take the records `csv.Reader.ReadAll` would return. They never open files.

## Model

| member | source | states |
|---|---|---|
| Records.FilterRecords | exercises/classification/classification.go:52-72 | skips the header and keeps, in order, exactly the rows that pass the non-empty / no-blank-field test (`KeptRecords`) |
| Records.KeepRecordIff | exercises/clustering/clustering.go:163-172 | a row is kept iff it has a field and no field is blank after trimming (the joined-row test is implied) |
| Records.KeptRecordsMembers | exercises/classification/classification.go:52-72 | a row is in the output iff it is an input row after the header that passes the test |
| Records.WideMembers | exercises/clustering/zones_clustering.go:34-36 | the width filter keeps exactly the rows with at least `width` fields |
| Records.WideAppend | exercises/classification/sleep_classification.go:33-39 | the width filter works row by row: filtering a concatenation concatenates the filtered parts, so order is kept |
| Text.TrimSpaceEmptyIffAllSpace | exercises/classification/classification.go:62-66 | `strings.TrimSpace(s) == ""` iff every character of `s` is white space |
| Text.TrimLeftShape | exercises/classification/sleep_classification.go:198 | trimming removes exactly a white-space prefix and stops at a non-space character |
| Text.TrimRightShape | exercises/classification/sleep_classification.go:198 | trimming removes exactly a white-space suffix and stops at a non-space character |
| Text.Fields | exercises/classification/sleep_classification.go:199 | `strings.Fields` yields non-empty words containing no white space |
| Text.ConcatEmpty | exercises/regression/housing_regression.go:55 | `strings.Join(row, "")` is empty iff every field is empty |
| Vectors.DistProperties | exercises/classification/classification.go:132-143 | the distance is +Inf iff lengths differ, otherwise non-negative and symmetric, and zero iff the vectors are equal |
| Vectors.OrderFacts | exercises/classification/classification.go:169-171 | Go's `<` on distances is a strict order and `<=` a total preorder, with +Inf above every finite value |
| Vectors.SumSqZeroIff | exercises/clustering/clustering.go:29-33 | the sum of squared differences over a prefix is zero iff the prefixes agree, otherwise positive |
| Classification.LoadData | exercises/classification/classification.go:34-92 | fewer than 2 records give `NotEnoughData`; the result is Ok iff every kept row parses; Ok holds each kept row's features (every column but the last) and trimmed label, in order; Err names the first failing row and column |
| Classification.ParseRow | exercises/classification/classification.go:78-86 | succeeds iff every field but the last parses; otherwise returns the first failing column |
| Classification.ParseRecords | exercises/classification/classification.go:74-91 | over the kept rows: Ok iff every row parses, holding each row's features and trimmed label in order; Err names the first failing row (counted from 1) and column |
| Classification.Shuffle | exercises/classification/classification.go:106-108 | the index array ends up as the Fisher–Yates shuffle of its old contents driven by `picks` |
| Classification.TrainTestSplit | exercises/classification/classification.go:95-129 | the shuffled order is a permutation of 0..n-1; train holds the rows at its first `int(n*ratio)` entries and test those at the rest, features and labels paired |
| Classification.CopyRows | exercises/classification/classification.go:115-125 | copies features and labels at the given index range, paired |
| Classification.EuclideanDistance | exercises/classification/classification.go:132-143 | returns the squared Euclidean distance, finite iff the lengths agree, zero iff the vectors are equal |
| Classification.Neighbors | exercises/classification/classification.go:162-166 | one (distance, label) pair per training row, in order |
| Classification.KNNClassifier.constructor | exercises/classification/classification.go:146-148 | a new classifier has the given K and no training data |
| Classification.KNNClassifier.Fit | exercises/classification/classification.go:151-153 | sets only the training data, keeping K |
| Classification.KNNClassifier.Predict | exercises/classification/classification.go:156-190 | "" when unfit; otherwise a label that has the most votes among the min(K, N) nearest rows under some ascending ordering |
| Classification.KNNClassifier.PredictBatch | exercises/classification/classification.go:193-199 | one prediction per row; prediction i is a possible `Predict` of row i |
| Classification.CalculateAccuracy | exercises/classification/classification.go:202-215 | 0 on a length mismatch, NaN (`None`) on empty input, otherwise matches/n, within [0, 1], and 1 iff the sequences are equal |
| Classification.ConfusionMatrix | exercises/classification/classification.go:218-242 | the labels are the sorted, duplicate-free union of actual and predicted; cell (x, y) counts the rows with actual x and predicted y |
| Classification.Tally | exercises/classification/classification.go:235-242 | from an empty row per label, the keys stay the label list and each cell (x, y) ends as the number of rows with actual x and predicted y |
| Classification.ConfusionMatrixTotals | exercises/classification/classification.go:235-242 | the cells sum to len(actual) and the diagonal sums to the number of matches |
| Voting.Vote | exercises/classification/classification.go:168-189 | sort, tally and argmax give a label satisfying `KnnVote` |
| Voting.TallyVotes | exercises/classification/classification.go:174-177 | a label is in the vote map iff one of the first min(k, n) rows carries it, and its count is how many do |
| Voting.PickMostVoted | exercises/classification/classification.go:180-187 | "" when no label has a vote, otherwise a label whose count no other label exceeds |
| Voting.NoVotersMeansEmptyLabel | exercises/classification/classification.go:175-189 | with k <= 0 or no training rows, the only possible answer is "" |
| Voting.OneNeighbourVote | exercises/classification/classification.go:169-177 | with k = 1 the answer is the label of a row at minimal distance |
| Voting.UnanimousVote | exercises/classification/classification.go:174-187 | when every training row has the same label, any k > 0 returns it |
| Voting.CountLabelPositive | exercises/classification/classification.go:176 | a label has a positive count iff some voter carries it |
| Sorting.SortBy | exercises/classification/classification.go:169-171 | the output is sorted by the given total preorder and is a permutation of the input |
| Sorting.SortedPermutationExists | exercises/classification/sleep_classification.go:80-82 | every sequence has a sorted permutation, so an ordering for the vote always exists |
| Confusion.CollectLabels | exercises/classification/classification.go:220-232 | the label list holds exactly the labels of actual and predicted, once each, in byte-wise order |
| Confusion.CellsSumToTotal | exercises/classification/sleep_classification.go:169-171 | over the label union, the table's cells sum to len(actual) |
| Confusion.TraceIsMatches | exercises/classification/sleep_classification.go:169-171 | the diagonal of the table counts the rows where actual equals predicted |
| Confusion.CountMatchesAllIff | exercises/classification/classification.go:207-214 | every row matches iff actual equals the matching prefix of predicted |
| Confusion.LexLeIsTotalPreorder | exercises/classification/classification.go:232 | `sort.Strings`' byte-wise order is total and transitive |
| Confusion.LexLeAntisymmetric | exercises/classification/sleep_classification.go:157 | two strings ordered both ways are equal, so the sorted label list is unique |
| Confusion.ReadCells | exercises/classification/classification.go:252-258 | reads the square table of cells over the label list; a missing entry reads as 0 |
| Confusion.CellsAreTable | exercises/classification/classification.go:240-242 | when every map cell holds its pair count, the table read out is the counting table |
| Splitting.ShuffledIsPermutation | exercises/classification/classification.go:102-108 | shuffling the identity indices yields a permutation of 0..n-1 |
| Splitting.PermPrefixIsPermutation | exercises/classification/sleep_classification.go:119 | `Perm(n)` yields a permutation of 0..n-1 |
| Splitting.SplitPartitions | exercises/classification/sleep_classification.go:125-133 | every index is in exactly one of the train part and the test part of a permutation |
| Splitting.Trunc | exercises/classification/sleep_classification.go:120 | `int(x)` truncates toward zero: within 1 of x on x's side of zero |
| SleepClassification.LoadCSV | exercises/classification/sleep_classification.go:17-53 | skips the header and rows with fewer than 5 fields; Ok iff every other row's first four fields parse; Ok holds each such row's four features and trimmed fifth field, in order |
| SleepClassification.ParseFour | exercises/classification/sleep_classification.go:41-48 | succeeds iff the first four trimmed fields parse, yielding them in order |
| SleepClassification.EuclideanDistance | exercises/classification/sleep_classification.go:56-63 | sums squared differences over the first vector's length (the second may be longer), non-negative, equal to the distance when the lengths agree |
| SleepClassification.CollectNeighbors | exercises/classification/sleep_classification.go:74-78 | one (distance, label) pair per training row, in order |
| SleepClassification.KnnPredict | exercises/classification/sleep_classification.go:66-100 | one prediction per test point, in order; each satisfies `KnnVote` over its distances to the training rows |
| SleepClassification.ComputeAccuracy | exercises/classification/sleep_classification.go:103-111 | NaN (`None`) on empty input, otherwise matches/n within [0, 1], and 1 iff the labels equal the matching prefix of the predictions |
| SleepClassification.Perm | exercises/classification/sleep_classification.go:119 | the inside-out shuffle driven by `picks`, a permutation of 0..n-1 |
| SleepClassification.TrainTestSplit | exercises/classification/sleep_classification.go:114-135 | the first `int(n*ratio)` entries of the permutation (clamped to [0, n]) index train, the rest index test, X and Y paired |
| SleepClassification.SplitBy | exercises/classification/sleep_classification.go:122-134 | train gets X and Y at the permutation's first t entries and test at the rest, in permutation order, where t is trainSize clamped to [0, n] |
| SleepClassification.Clamp | exercises/classification/sleep_classification.go:125-126 | the index where `i < trainSize` switches from train to test, between 0 and n, equal to trainSize when it lies in that range |
| SleepClassification.ZeroMatrix | exercises/classification/sleep_classification.go:160-166 | a row per label, a cell per label pair, every cell 0 |
| SleepClassification.CountPairs | exercises/classification/sleep_classification.go:169-171 | after the loop each cell (x, y) counts the rows with actual x and predicted y |
| SleepClassification.ConfusionMatrix | exercises/classification/sleep_classification.go:138-171 | `None` iff the lengths differ; otherwise sorted distinct union labels with the counting table |
| SleepClassification.ReadUserInput | exercises/classification/sleep_classification.go:190-213 | not exactly 4 whitespace-separated fields is a `WrongFieldCount`; with 4 fields the input is accepted iff all parse, otherwise `InvalidNumber`; accepted values are the parsed fields in order |
| Clustering.Distance | exercises/clustering/clustering.go:24-35 | +Inf iff lengths differ, otherwise the squared distance, zero iff the points are equal |
| Clustering.Scan | exercises/clustering/clustering.go:39-49 | after scanning n centroids the index is the first one at minimal distance |
| Clustering.Closest | exercises/clustering/clustering.go:38-50 | the chosen index is the first at minimal distance (0 when there is none or all are +Inf) |
| Clustering.FirstClosestUnique | exercises/clustering/clustering.go:44 | the strict `<` makes the first-closest index unique |
| Clustering.FindClosestCluster | exercises/clustering/clustering.go:38-50 | the loop returns the first index at minimal distance |
| Clustering.CalculateCentroid | exercises/clustering/clustering.go:53-72 | nil for no points, otherwise the column sums divided by the number of points, as long as the first point |
| Clustering.CentroidOfCopies | exercises/clustering/clustering.go:61-69 | the mean of copies of one point is that point |
| Clustering.MembersSound | exercises/clustering/clustering.go:101-104 | every point assigned to a cluster is a data point whose closest centroid is that cluster's |
| Clustering.MembersComplete | exercises/clustering/clustering.go:131-134 | every data point is assigned to the cluster of its closest centroid |
| Clustering.AssignPoints | exercises/clustering/clustering.go:93-104 | builds one cluster per centroid holding, in order, the points closest to it |
| Clustering.UpdateCentroids | exercises/clustering/clustering.go:107-116 | a cluster with points moves its centroid to their mean and an empty one keeps it; reports convergence iff no centroid moved more than 1e-6 |
| Clustering.UpdateMovesToMeans | exercises/clustering/clustering.go:109-115 | after an update, a non-empty cluster's centroid is its mean and an empty cluster's is unchanged |
| Clustering.KMeans | exercises/clustering/clustering.go:75-137 | nil for no data or k <= 0; otherwise the clusters of Lloyd's iteration from the drawn centroids, stopping at convergence or after `maxIterations` rounds with a final assignment |
| Clustering.LloydStep | exercises/clustering/clustering.go:91-122 | one round: assignment; return it when out of rounds or converged; otherwise continue from the updated centroids |
| Clustering.Lloyd | exercises/clustering/clustering.go:91-136 | k clusters; whichever way the loop ends (rounds exhausted or converged), the clusters are the assignment of the data to their own centroids |
| Clustering.KMeansPartition | exercises/clustering/clustering.go:75-137 | k clusters whose sizes sum to len(data); every point of a cluster is a data point closest to its centroid, and every data point lies in some cluster |
| Clustering.LoadData | exercises/clustering/clustering.go:140-196 | fewer than 2 records give an error; the same row filter as the classifier; Ok iff every kept row's fields after the first parse, giving those values in order; Err names the first failing row and column |
| Clustering.ParseRow | exercises/clustering/clustering.go:182-190 | succeeds iff every field after the first parses; otherwise returns the first failing column |
| Clustering.ParseRecords | exercises/clustering/clustering.go:180-195 | over the kept rows: Ok iff every row's fields after the first parse, holding those values in order; Err names the first failing row (counted from 1) and column |
| ZonesClustering.LoadCSV | exercises/clustering/zones_clustering.go:19-53 | needs the header; skips rows with fewer than 4 fields; Ok iff every other row's first four values are non-blank and parse, giving exactly those four in order; Err reports the first failing row, as `EmptyValue` for a blank value and `ParseError` otherwise |
| ZonesClustering.ParseRow | exercises/clustering/zones_clustering.go:39-49 | succeeds iff the first four trimmed values are non-blank and parse; otherwise returns the first column that is not |
| ZonesClustering.SanitizedIsSafe | exercises/clustering/zones_clustering.go:93-96 | the result contains no ' ', '(', ')', '/' or '%' |
| ZonesClustering.ReplaceByCharacter | exercises/clustering/zones_clustering.go:94-95 | the replacer works one character at a time, left to right: each character's replacement follows the previous ones' |
| ZonesClustering.ReplaceKeepsSafe | exercises/clustering/zones_clustering.go:94-95 | characters other than the five unsafe ones are kept, in order |
| ZonesClustering.SanitizeIdempotent | exercises/clustering/zones_clustering.go:93-96 | sanitising a sanitised name changes nothing |
| ZonesClustering.PlotFilenameShape | exercises/clustering/zones_clustering.go:141-143 | the plot name starts with "cluster_", ends with ".png" and contains no unsafe character |
| HousingRegression.ConvertToFloat64 | exercises/regression/housing_regression.go:51-90 | Ok iff every non-blank row's non-skipped, non-blank fields parse; Ok keeps, in order, the numbers of each non-blank row that has any; Err reports the first failing field as written |
| HousingRegression.ConvertRow | exercises/regression/housing_regression.go:59-82 | succeeds iff every non-skipped, non-blank trimmed field parses, giving those numbers in column order; otherwise returns the first failing column |
| HousingRegression.IsSkipped | exercises/regression/housing_regression.go:62-71 | true iff the column is listed in `skipColumns` |
| HousingRegression.ConvertedAppend | exercises/regression/housing_regression.go:54-87 | converting a concatenation of row lists concatenates the conversions: order is kept and each row's output depends on that row alone |
| HousingRegression.ConvertedRows | exercises/regression/housing_regression.go:84-86 | no more output rows than input rows; every output row is non-empty and has one number per cell of some non-blank input row |
| HousingRegression.CellsIgnoreSkipped | exercises/regression/housing_regression.go:62-71 | the contents of skipped columns never affect a row's values |
| HousingRegression.CellsAreColumns | exercises/regression/housing_regression.go:73-81 | a row yields exactly as many values as it has columns that are not skipped and not blank (`KeptColumns`) |
| HousingRegression.KeptColumnsMembers | exercises/regression/housing_regression.go:62-81 | a column is counted iff it lies in the row, is not listed in `skipColumns` and is not blank after trimming |
| HousingRegression.MeanAbsoluteError | exercises/regression/housing_regression.go:164-175 | 0 on a mismatch or empty input, otherwise the mean absolute difference; never negative, and 0 iff the inputs are equal or mismatched |
| HousingRegression.AbsSumZeroIff | exercises/regression/housing_regression.go:170-173 | the sum of absolute differences is non-negative and zero iff the prefixes agree |
| HousingRegression.MeanSquaredError | exercises/regression/housing_regression.go:178-190 | 0 on a mismatch or empty input, otherwise the mean squared difference (the RMSE squared); never negative, and 0 iff the inputs are equal or mismatched |
| HousingRegression.MinValue | exercises/regression/housing_regression.go:440-452 | NaN (`None`) iff the slice is empty, otherwise an element of the slice that is <= every element |
| HousingRegression.MaxValue | exercises/regression/housing_regression.go:454-466 | NaN (`None`) iff the slice is empty, otherwise an element of the slice that is >= every element |
| HousingRegression.SelectMultiple | exercises/regression/housing_regression.go:239-247 | rows with at least 6 values, in order, giving the first five as features and the sixth as the price |
| HousingRegression.PredictPrices | exercises/regression/housing_regression.go:268-280 | each row with more coefficients than features contributes its price and `coefficients[0] + Σ coefficients[j+1]·x[j]`, in order; others are skipped |
| HousingRegression.PredictRow | exercises/regression/housing_regression.go:271-274 | the inner loop yields the intercept plus the coefficient-weighted sum of the features (`Predict`) |
| HousingRegression.AllPredictable | exercises/regression/housing_regression.go:270 | when every row has fewer features than coefficients, every row is predicted, in order |
| HousingRegression.PredictAtOrigin | exercises/regression/housing_regression.go:271-274 | with all features zero the prediction is the intercept |
| HousingRegression.PredictSlope | exercises/regression/housing_regression.go:272-274 | raising feature j by d raises the prediction by `coefficients[j+1]·d` |

## Left out

- File reading, `csv.Reader`, console input, printing, `log.Fatal` and the `Run`/`main` drivers are left out. The loaders start from the records, and `ReadUserInput` from the line read.
- `main.go` is left out: it is an interactive menu that starts the exercises as subprocesses.
- The Gonum regressions (`performLinearRegressionGonum`, `performMultipleLinearRegressionGonum`) are left out. So are the third-party `clusters.KMeans` call in zones_clustering.go, `createClusterPlot`, and all plotting. `PredictPrices` takes the coefficients as an input.
- The housing `loadCSV` (27-48) is left out. It only splits the header from the rows.
- The `sizeX`/`priceYSimple` selection (219-225) is left out, because it only feeds the Gonum fit and the plot.
- IEEE-754 behaviour (rounding, overflow, NaN propagation) is not modelled: reals are exact. NaN appears only as `None`, where the source returns it on purpose or divides 0 by 0.
- `math.Sqrt` is left out. Every distance is squared, and the k-means threshold compares the squared movement with (1e-6)².
- HousingRegression.MeanSquaredError: returns the square of `calculateRootMeanSquaredError`'s result, because `math.Sqrt` is left out.
- `rand.Seed`, `rand.Shuffle`, `rand.Perm` and `rand.Intn` are replaced by the caller-supplied `picks`/`initIdx` sequences. The model does not claim to produce Go's particular pseudo-random stream.
- Text.ToLower: lower-cases ASCII letters only, whereas `strings.ToLower` also folds other Unicode letters.
- Text.IsSpace: covers Go's `unicode.IsSpace` set. Strings are sequences of characters, not UTF-8 bytes.
- Classification.KNNClassifier.Fit: stores the training data as a value. Go stores a pointer, so later changes made through another alias of the `Data` are not modelled.
- Go's built-in `sort.Slice` order among equal distances is not modelled. `Voting.KnnVote` allows any ascending order, and the map-iteration order of the argmax is likewise arbitrary.
- Clustering.KMeans: requires all data points to have one dimension (`SameDimension`). The source panics only when a cluster's later point is longer than its first, so the precondition is stronger than the source's own condition.
- HousingRegression.ConvertToFloat64: requires every non-blank row to have at least `len(skipColumns)` fields, which is where `make` would panic. The source panics only for such a row reached before a parse error, so this is slightly stronger.
- Some pre-sized slices that Go fills by index are modelled as values. `SleepClassification.KnnPredict` appends its predictions. `Classification.ParseRecords` and `Clustering.ParseRecords` update sequences by index. The contents are the same, but updates in place and aliasing are not modelled.
