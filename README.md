# Modified Weiszfeld geometric median, in Dafny

This project models the solver of the weiszfeld-implementation repository.
The solver computes the weighted geometric median of n-dimensional points
with the Modified Weiszfeld method of Vardi and Zhang. It follows Beck's
review of the Weiszfeld method up to its section 6.3. The model covers two
Java classes: the mutable vector `Point` and the solver `WeiszfeldAlgorithm`.
It proves facts about the control flow and the algebra of the method. It
does not prove anything about numerical convergence.

Files:

- `vectors.dfy` (module `Vectors`) is the value-level view of a point: a
  `seq<real>` with component-wise arithmetic, the squared norm, the
  Euclidean norm over a caller-supplied square root, and the lexicographic
  comparison.
- `points.dfy` (module `Points`) holds the class `Point` over an
  `array<real>`.
  - The in-place methods `Add`, `Deduce` and `Multiply` and the
    fresh-result method `Substraction` are index loops. Each is proved equal
    to the matching `Vectors` function on `values[..]`.
  - `GetNormToThe2` and `CompareTo` are loops proved equal to `NormSq` and
    `LexCompare`.
  - `Multiplied` (the static `multiply`) builds a zero point and then calls
    `Add` and `Multiply` on it, as the Java code does. It is proved equal to
    `Scale`.
  - `Clone` copies the array with an array initializer, as Java's
    `values.clone()` does. It is proved to give a fresh array equal to
    `values[..]`.
- `anchors.dfy` (module `Anchors`) is the anchor table as a value. It
  merges the input points by exact equality and sums the weights of equal
  points. It then reads the entries back in the map's entry order.
- `operators.dfy` (module `Operators`) holds the method on values:
  - the objective F, the resultant R, the sum L, and the operators T and S;
  - the combined step and its iteration;
  - the choice of the starting anchor;
  - the pass at which the solver's loop stops.
- `carriers.dfy` (module `Carriers`) holds the data carriers (`WeightedPoint`,
  `Input`, `Output`), Java's 32-bit `int`, nullable boxed fields, and the
  constants `Integer.MAX_VALUE` and `Double.MIN_VALUE`.
- `weiszfeld.dfy` (module `WeiszfeldAlgorithm`) holds the solver as
  imperative methods over `Point` objects. `Process` builds the map,
  fills in the defaults, picks the start and runs the do-while loop. Every
  method is proved against the `Anchors` and `Operators` definitions.

Modelling choices:

- A Java `double` is a Dafny `real`.
- `Math.sqrt` is a parameter `sqrt`. Every member whose proof needs a
  property of `sqrt` requires `IsSqrt(sqrt)`: on nonnegative arguments,
  `sqrt` returns the nonnegative root. Members that only pass `sqrt` on or
  apply it (`GetNorm`, `Distance`, `EvaluateF`, `F`, `Start`, ...) do not.
- The `HashMap<Point, Double>` is a list of (key point, weight) entries,
  looked up by component equality. That is what `Point.equals` decides.
- The map's `entrySet` order is unspecified in Java, so it is a parameter
  `order`: any listing of the table's entries that takes each entry once.
  Every result holds for every such order.
- With no input points, the Java code leaves `startPoint` null and
  `startPoint.clone()` throws. `Process` returns
  `Failure(NullStartPoint)` in that case.

Where the design description and the code differ, the model follows the
code:

- The design describes a single-anchor fast path that returns after zero
  iterations. The code has no such path. With one anchor it runs one pass,
  which leaves the anchor in place. With a nonnegative tolerance, it then
  reports one iteration with error 0. `Operators.SingleAnchorSolution`
  proves this. With a negative tolerance, the test `error > permissibleError`
  stays true, and the loop runs to the iteration cap.
- The design expects two points of weight 1 at 0 and 10 on a line to end
  near the midpoint 5. The code does not move from its starting anchor. At
  either anchor the resultant has norm 1, which does not exceed the
  anchor's own weight 1, so the pass leaves it in place.
  `Operators.TwoEqualPointsStay` proves this.
- The design describes `add` and `subtract` as returning new vectors. In
  the code, `add`, `deduce` and `multiply(k)` change the receiver in place.
- The design names `EmptyInput` and `DimensionMismatch` errors. The code
  checks neither: an empty input fails on a null start point, and the
  dimensions are a precondition.

## Model

| member | source | states |
|---|---|---|
| `Points.Point.FromValues` | src/algorithms/weiszfeld/Point.java:15-17 | the point wraps the given array itself, without copying it |
| `Points.Point.constructor` | src/algorithms/weiszfeld/Point.java:19-22 | a new array of `dimensions` zero components |
| `Points.Point.Add` | src/algorithms/weiszfeld/Point.java:24-29 | each component becomes its old value plus other's; the length is kept; other is unchanged unless it shares the array; returns this |
| `Points.Point.Deduce` | src/algorithms/weiszfeld/Point.java:31-36 | each component becomes its old value minus other's, in place; other is unchanged unless it shares the array; returns this |
| `Points.Point.Substraction` | src/algorithms/weiszfeld/Point.java:38-44 | a fresh point of a's length with a[i] - b[i]; changes nothing that exists |
| `Points.Point.Multiply` | src/algorithms/weiszfeld/Point.java:46-51 | every component is scaled by k, in place; returns this |
| `Points.Point.GetNormToThe2` | src/algorithms/weiszfeld/Point.java:53-59 | the loop's sum is the sum of the squared components |
| `Points.Point.GetNorm` | src/algorithms/weiszfeld/Point.java:61-64 | the square root of the sum of squares |
| `Points.Point.CompareTo` | src/algorithms/weiszfeld/Point.java:66-79 | the scan with early return yields the lexicographic comparison of the components |
| `Points.Point.Equals` | src/algorithms/weiszfeld/Point.java:81-89 | true exactly when the argument is a Point with the same components |
| `Points.Point.Multiplied` | src/algorithms/weiszfeld/Point.java:97-104 | a fresh point a[i] * k; a is unchanged |
| `Points.Point.Clone` | src/algorithms/weiszfeld/Point.java:106-111 | a fresh point over a fresh array with equal components, so changing the copy leaves the original alone |
| `Vectors.NormSqNonNegative` | src/algorithms/weiszfeld/Point.java:53-59 | the sum of squares is nonnegative |
| `Vectors.NormSqZeroIff` | src/algorithms/weiszfeld/Point.java:53-59 | the sum of squares is 0 exactly for the zero vector, so it is positive whenever some component is nonzero |
| `Vectors.NormZeroIff` | src/algorithms/weiszfeld/Point.java:61-64 | the norm is nonnegative and 0 exactly for the zero vector |
| `Vectors.DistancePositive` | src/algorithms/weiszfeld/Point.java:38-64 | the norm of a - b is nonnegative, and positive exactly when a and b differ |
| `Vectors.NormScale` | src/algorithms/weiszfeld/Point.java:46-64 | scaling by k scales the norm by abs(k) |
| `Vectors.LexFrom` | src/algorithms/weiszfeld/Point.java:66-79 | the comparison from index i yields -1, 0 or 1 |
| `Vectors.LexCompareZeroIff` | src/algorithms/weiszfeld/Point.java:66-79 | the comparison is 0 exactly when all scanned components are equal |
| `Vectors.LexCompareFirstDifference` | src/algorithms/weiszfeld/Point.java:68-75 | the sign is decided by the first index at which the components differ |
| `Vectors.LexCompareAntisymmetric` | src/algorithms/weiszfeld/Point.java:66-79 | for equal lengths, swapping the arguments flips the sign |
| `Vectors.LexCompareTransitive` | src/algorithms/weiszfeld/Point.java:66-79 | "compares below" is transitive, so the comparison is a strict total order |
| `Anchors.Find` | src/algorithms/weiszfeld/WeiszfeldAlgorithm.java:29-30 | the index of the first entry with the vector, or the length when there is none |
| `Anchors.TabulateKeys` | src/algorithms/weiszfeld/WeiszfeldAlgorithm.java:25-34 | every input point becomes a key, every key is an input point, and no key occurs twice |
| `Anchors.TabulateEmpty` | src/algorithms/weiszfeld/WeiszfeldAlgorithm.java:25-34 | the map is empty exactly when the input is |
| `Anchors.TabulateWeights` | src/algorithms/weiszfeld/WeiszfeldAlgorithm.java:25-34 | each key carries the sum of the weights of the input points equal to it |
| `Anchors.TabulateTotalWeight` | src/algorithms/weiszfeld/WeiszfeldAlgorithm.java:25-34 | merging equal points keeps the total weight |
| `Anchors.TabulatePreserves` | src/algorithms/weiszfeld/WeiszfeldAlgorithm.java:25-34 | keys keep the input dimension; nonnegative weights stay nonnegative |
| `Anchors.Reorder` | src/algorithms/weiszfeld/WeiszfeldAlgorithm.java:37-43 | the anchor list holds the table's entries in the entry order |
| `Anchors.ReorderAnchors` | src/algorithms/weiszfeld/WeiszfeldAlgorithm.java:37-43 | the anchor list has the table's keys, each once, and a lookup in it finds an entry exactly when the table does, with the same weight |
| `Anchors.ReorderSameLookup` | src/algorithms/weiszfeld/WeiszfeldAlgorithm.java:37-43 | reading the entries back in any entry order keeps every lookup |
| `Anchors.IdentityOrdering` | src/algorithms/weiszfeld/WeiszfeldAlgorithm.java:37-43 | every table has an entry order |
| `Anchors.AnchorsOf` | src/algorithms/weiszfeld/WeiszfeldAlgorithm.java:25-43 | the anchors have the input dimension, keep nonnegative weights, are empty exactly when the input is, and agree with the table on every lookup |
| `Anchors.AnchorsMerged` | src/algorithms/weiszfeld/WeiszfeldAlgorithm.java:25-43 | the anchors are the distinct input points, each with the total weight of the input points equal to it |
| `Carriers.DoubleMinValuePositive` | src/algorithms/weiszfeld/WeiszfeldAlgorithm.java:50-53 | the default tolerance 2^-1074 is positive |
| `Operators.R` | src/algorithms/weiszfeld/WeiszfeldAlgorithm.java:134-149 | the resultant has the dimension of the anchor |
| `Operators.T` | src/algorithms/weiszfeld/WeiszfeldAlgorithm.java:101-115 | the Weiszfeld operator is defined at every non-anchor when some weight is positive, and has the dimension of x |
| `Operators.S` | src/algorithms/weiszfeld/WeiszfeldAlgorithm.java:117-132 | the step off the anchor is defined when the norm of R and L are positive, and has the dimension of the anchor |
| `Operators.Step` | src/algorithms/weiszfeld/WeiszfeldAlgorithm.java:78-85 | a pass keeps the dimension and keeps the iterate in the region where the next pass is defined |
| `Operators.FirstMin` | src/algorithms/weiszfeld/WeiszfeldAlgorithm.java:56-64 | an index of a smallest value, with every earlier value strictly larger |
| `Operators.Start` | src/algorithms/weiszfeld/WeiszfeldAlgorithm.java:56-64 | the start is an anchor of the input dimension |
| `Operators.FNonNegative` | src/algorithms/weiszfeld/WeiszfeldAlgorithm.java:168-174 | F is nonnegative for nonnegative weights |
| `Operators.LNonNegative` | src/algorithms/weiszfeld/WeiszfeldAlgorithm.java:151-160 | L is nonnegative for nonnegative weights |
| `Operators.LPositive` | src/algorithms/weiszfeld/WeiszfeldAlgorithm.java:151-160 | L is positive exactly when some anchor other than aj has positive weight |
| `Operators.RWithoutPull` | src/algorithms/weiszfeld/WeiszfeldAlgorithm.java:134-149 | when no other anchor has positive weight, R is the zero vector |
| `Operators.SGuard` | src/algorithms/weiszfeld/WeiszfeldAlgorithm.java:81-82 | when the norm of R exceeds wj, that norm is positive, L is positive and some weight is positive, so both divisions in S are defined |
| `Operators.TDenPositive` | src/algorithms/weiszfeld/WeiszfeldAlgorithm.java:101-115 | away from the anchors, T's sum of weights is nonnegative, and positive when some weight is positive |
| `Operators.SStepLength` | src/algorithms/weiszfeld/WeiszfeldAlgorithm.java:117-132 | S moves the anchor by exactly tj = (norm of R - wj) / L, which is positive, so S always moves |
| `Operators.AnchorMovesIff` | src/algorithms/weiszfeld/WeiszfeldAlgorithm.java:78-82 | at an anchor, a pass moves the iterate exactly when the norm of R exceeds the anchor's weight |
| `Operators.FixedAnchor` | src/algorithms/weiszfeld/WeiszfeldAlgorithm.java:78-82 | an anchor that no other positive weight pulls stays where it is |
| `Operators.NoMoveError` | src/algorithms/weiszfeld/WeiszfeldAlgorithm.java:87 | a pass that does not move measures an error of 0 |
| `Operators.SingleAnchor` | src/algorithms/weiszfeld/WeiszfeldAlgorithm.java:73-89 | with one anchor, every iterate is that anchor and every pass measures error 0 |
| `Operators.StartIsFirstMinimum` | src/algorithms/weiszfeld/WeiszfeldAlgorithm.java:56-64 | F at the start is at most F at every anchor, and strictly below F at every earlier anchor |
| `Operators.StopsUnique` | src/algorithms/weiszfeld/WeiszfeldAlgorithm.java:73-89 | the pass at which the loop stops is unique |
| `Operators.StopsBound` | src/algorithms/weiszfeld/WeiszfeldAlgorithm.java:73-89 | the loop makes at most max(1, maxIterations) passes |
| `Operators.ReachedStops` | src/algorithms/weiszfeld/WeiszfeldAlgorithm.java:89 | when the loop condition fails, the loop has made at least one pass and stops there |
| `Operators.FirstHaltHalts` | src/algorithms/weiszfeld/WeiszfeldAlgorithm.java:89 | the search for the stopping pass finds one where the test fails or the cap is reached, with the test holding before it |
| `Operators.StopPassStops` | src/algorithms/weiszfeld/WeiszfeldAlgorithm.java:73-89 | the pass found by the search is one at which the loop stops |
| `Operators.SolutionStops` | src/algorithms/weiszfeld/WeiszfeldAlgorithm.java:73-99 | the reported count is at least 1 and at most max(1, maxIterations); on it, error <= tolerance or the cap is reached; no other count has that property |
| `Operators.NoMoveStops` | src/algorithms/weiszfeld/WeiszfeldAlgorithm.java:78-89 | at an anchor whose R does not outweigh it, the pass leaves x in place, the error is 0 and the loop exits |
| `Operators.SingleAnchorSolution` | src/algorithms/weiszfeld/WeiszfeldAlgorithm.java:23-99 | when all input points are equal, there is one anchor of the total weight; with a nonnegative tolerance, the output is that point with error 0 after exactly one iteration |
| `Operators.TwoEqualPointsStay` | src/algorithms/weiszfeld/WeiszfeldAlgorithm.java:78-85 | with two weight-1 anchors at 0 and 10 on a line, a pass from either anchor leaves it in place |
| `WeiszfeldAlgorithm.Lookup` | src/algorithms/weiszfeld/WeiszfeldAlgorithm.java:29-30 | containsKey and get find the entry whose key has x's components |
| `WeiszfeldAlgorithm.BuildTable` | src/algorithms/weiszfeld/WeiszfeldAlgorithm.java:25-34 | the loop of puts builds the merged table of the input |
| `WeiszfeldAlgorithm.Put` | src/algorithms/weiszfeld/WeiszfeldAlgorithm.java:28-33 | a key equal to the point gets its weight added; otherwise the point is added as a new key |
| `WeiszfeldAlgorithm.AnchorPoints` | src/algorithms/weiszfeld/WeiszfeldAlgorithm.java:37-43 | the anchor list holds the map's entries in the map's order |
| `WeiszfeldAlgorithm.Distance` | src/algorithms/weiszfeld/WeiszfeldAlgorithm.java:87 | the norm of the difference of two points |
| `WeiszfeldAlgorithm.EvaluateF` | src/algorithms/weiszfeld/WeiszfeldAlgorithm.java:168-174 | the loop computes F at x |
| `WeiszfeldAlgorithm.OperatorL` | src/algorithms/weiszfeld/WeiszfeldAlgorithm.java:151-160 | the loop computes L at aj, skipping the anchors equal to aj |
| `WeiszfeldAlgorithm.AddLTerm` | src/algorithms/weiszfeld/WeiszfeldAlgorithm.java:153-158 | one pass of L's loop adds the next anchor's term |
| `WeiszfeldAlgorithm.R` | src/algorithms/weiszfeld/WeiszfeldAlgorithm.java:134-149 | the loop computes R at aj, skipping the anchors equal to aj |
| `WeiszfeldAlgorithm.AddResultantTerm` | src/algorithms/weiszfeld/WeiszfeldAlgorithm.java:137-146 | one pass of R's loop adds the next anchor's term |
| `WeiszfeldAlgorithm.AddScaledDifference` | src/algorithms/weiszfeld/WeiszfeldAlgorithm.java:140-144 | the difference, scaled by w over its norm, is added into the result in place |
| `WeiszfeldAlgorithm.OperatorT` | src/algorithms/weiszfeld/WeiszfeldAlgorithm.java:101-115 | away from the anchors, the loop and the final scaling compute T |
| `WeiszfeldAlgorithm.AddWeiszfeldTerm` | src/algorithms/weiszfeld/WeiszfeldAlgorithm.java:105-112 | one pass of T's loop adds the next weighted anchor and its weight |
| `WeiszfeldAlgorithm.OperatorS` | src/algorithms/weiszfeld/WeiszfeldAlgorithm.java:117-132 | the in-place updates of dj compute S |
| `WeiszfeldAlgorithm.ChooseStart` | src/algorithms/weiszfeld/WeiszfeldAlgorithm.java:56-64 | null exactly when there are no anchors; otherwise the first anchor with the smallest F |
| `WeiszfeldAlgorithm.Consider` | src/algorithms/weiszfeld/WeiszfeldAlgorithm.java:58-63 | one turn of the search replaces the choice only on a strictly smaller F |
| `WeiszfeldAlgorithm.Pass` | src/algorithms/weiszfeld/WeiszfeldAlgorithm.java:77-85 | one pass of the do-while body computes the step |
| `WeiszfeldAlgorithm.CollectAnchors` | src/algorithms/weiszfeld/WeiszfeldAlgorithm.java:25-43 | the map and its anchor list are the merged input, read back in the map's order |
| `WeiszfeldAlgorithm.Defaults` | src/algorithms/weiszfeld/WeiszfeldAlgorithm.java:45-53 | a missing cap becomes Integer.MAX_VALUE and a missing tolerance becomes Double.MIN_VALUE |
| `WeiszfeldAlgorithm.Process` | src/algorithms/weiszfeld/WeiszfeldAlgorithm.java:23-99 | fails exactly on an empty input; otherwise outputs the iterate, the error and the count at the pass where the loop from the start anchor stops |
| `WeiszfeldAlgorithm.Descend` | src/algorithms/weiszfeld/WeiszfeldAlgorithm.java:66-89 | the do-while loop makes at least one pass and stops at the stopping pass, with that pass's iterate and error |
| `WeiszfeldAlgorithm.Advance` | src/algorithms/weiszfeld/WeiszfeldAlgorithm.java:77-89 | one pass of the loop: the step, its error, the count and the loop test |

## Left out

- IEEE-754 arithmetic: rounding, NaN, infinities, subnormals and underflow. Doubles are reals.
- `Math.sqrt`: it is a parameter that is only assumed to return the nonnegative root.
- Convergence and optimality of the iteration: these are results about real analysis, and the code does not promise them.
- `HashMap` hashing and its entry order: the order is a parameter. `Point.hashCode` (Point.java:91-95) is left out; over reals it agrees with `equals`.
- `Point.showValues`: string formatting of doubles.
- `Point.getValues`: a plain getter; the model reads the `values` field.
- The `CloneNotSupportedException` path (WeiszfeldAlgorithm.java:69-71): `Point` implements `Cloneable`, so it cannot happen, and it only logs.
- The `algorithms.Algorithm` interface is not part of this model.
- `src/test/Test.java`: reading the test file and printing results is I/O.
- The getters and setters of `Input`, `Output` and `WeightedPoint`: these classes are datatypes.
- Points.Point.constructor: takes a `nat` dimension, so the `NegativeArraySizeException` of a negative `int` is not modelled.
- Points.Point.Add: requires that other has at least this point's length; a shorter argument throws `ArrayIndexOutOfBoundsException` in Java.
- Points.Point.Deduce: requires the same length condition as `Add`, for the same reason.
- Points.Point.Substraction: requires that b has at least a's length, for the same reason.
- Points.Point.CompareTo: requires that the argument has at least this point's length. In Java, a shorter argument gives the normal result of 1 or -1 when a component differs within the argument's length. It throws `ArrayIndexOutOfBoundsException` only when the argument equals this point's prefix. That case is not modelled. The solver compares only points of one dimension, so it meets this requires.
- Points.Point.Equals: carries the same requires as `CompareTo`, which it calls, for the same reason.
- WeiszfeldAlgorithm.Process: requires that every input point has `dimension` components and a nonnegative weight. The code checks neither. Over reals, the division guards need both. A negative dimension is allowed only with no input points. That input fails on the null start point, like any empty input.
