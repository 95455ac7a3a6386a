/**
 * The solver: merges equal input points into the map of anchors, fills in
 * the defaults, picks the starting anchor, and runs the Modified Weiszfeld
 * iteration until the error is within the tolerance or the iteration cap is
 * reached. Each method is proved against the value-level definitions in
 * Anchors and Operators.
 *
 * The HashMap<Point, Double> is a list of entries (key point, weight) looked
 * up by Point.Equals; the order in which it hands out its entries is the
 * parameter `order`.
 */
module WeiszfeldAlgorithm {
  import opened Vectors
  import opened Anchors
  import Operators
  import opened Points
  import opened Carriers

  /**
   * map.containsKey(x) and map.get(x): the index of the entry whose key has
   * the components of x, or |table| when there is none.
   */
  function Lookup(table: seq<WeightedPoint>, x: Point): (j: nat)
    reads Footprint(table), x.values
    ensures j == Find(ValuesOf(table), x.values[..])
  {
    if |table| == 0 then 0
    else if table[0].point.values[..] == x.values[..] then 0
    else
      assert ValuesOf(table[1..]) == ValuesOf(table)[1..];
      1 + Lookup(table[1..], x)
  }

  /**
   * Puts every input point into the map: a point equal to a key adds its
   * weight to that key's, any other point becomes a key with its own weight.
   */
  method BuildTable(points: seq<WeightedPoint>, n: nat, ghost P: seq<WeightedVector>) returns (table: seq<WeightedPoint>)
    requires HasDimension(points, n) && ValuesOf(points) == P
    ensures HasDimension(table, n)
    ensures ValuesOf(table) == Tabulate(P)
  {
    table := [];
    var i := 0;
    while i < |points|
      invariant 0 <= i <= |points|
      invariant HasDimension(table, n)
      invariant ValuesOf(points) == P
      invariant ValuesOf(table) == Tabulate(P[..i])
    {
      TabulatePrefix(P, i);
      table := Put(table, points[i], n, Tabulate(P[..i]), P[i]);
      i := i + 1;
    }
    assert P[..i] == P;
  }

  /** One put of a weighted point into the map. */
  method Put(table: seq<WeightedPoint>, wPoint: WeightedPoint, n: nat,
             ghost t: seq<WeightedVector>, ghost e: WeightedVector) returns (next: seq<WeightedPoint>)
    requires HasDimension(table, n) && wPoint.point.values.Length == n
    requires ValuesOf(table) == t && WeightedVector(wPoint.point.values[..], wPoint.weight) == e
    ensures HasDimension(next, n)
    ensures ValuesOf(next) == Insert(t, e)
  {
    var j := Lookup(table, wPoint.point);
    if j < |table| {
      ValuesOfUpdate(table, j, table[j].weight + wPoint.weight);
      next := table[j := WeightedPoint(table[j].point, table[j].weight + wPoint.weight)];
    } else {
      ValuesOfAppend(table, wPoint);
      next := table + [WeightedPoint(wPoint.point, wPoint.weight)];
    }
  }

  /** Reads the map's entries back, in the map's order, into the list of anchors. */
  method AnchorPoints(table: seq<WeightedPoint>, order: seq<nat>) returns (aPoints: seq<WeightedPoint>)
    requires forall k :: 0 <= k < |order| ==> order[k] < |table|
    ensures |aPoints| == |order|
    ensures forall k :: 0 <= k < |order| ==> aPoints[k] == table[order[k]]
  {
    aPoints := [];
    var i := 0;
    while i < |order|
      invariant 0 <= i <= |order|
      invariant |aPoints| == i
      invariant forall k :: 0 <= k < i ==> aPoints[k] == table[order[k]]
    {
      var entry := table[order[i]];
      aPoints := aPoints + [WeightedPoint(entry.point, entry.weight)];
      i := i + 1;
    }
  }

  /**
   * The distance between two points of the same dimension, the norm of their
   * difference; u and v name their components.
   */
  method Distance(a: Point, b: Point, sqrt: real -> real, ghost u: Vector, ghost v: Vector) returns (d: real)
    requires a.values[..] == u && b.values[..] == v && |u| == |v|
    ensures d == Norm(Sub(u, v), sqrt)
  {
    var dif := Point.Substraction(a, b);
    assert b.values[..a.values.Length] == b.values[..];
    d := dif.GetNorm(sqrt);
  }

  /** F at x: the weighted sum of the distances from x to the anchors. */
  method EvaluateF(x: Point, aPoints: seq<WeightedPoint>, sqrt: real -> real,
                   ghost A: seq<WeightedVector>, ghost xv: Vector) returns (res: real)
    requires HasDimension(aPoints, x.values.Length)
    requires ValuesOf(aPoints) == A && x.values[..] == xv
    ensures res == Operators.F(A, xv, sqrt)
  {
    ValuesOfDimension(aPoints, x.values.Length);
    res := 0.0;
    var i := 0;
    while i < |aPoints|
      invariant 0 <= i <= |aPoints|
      invariant res == Operators.FUpTo(A, xv, i, sqrt)
    {
      var ai := aPoints[i];
      var norm := Distance(ai.point, x, sqrt, A[i].v, xv);
      Operators.FStep(A, xv, i, ai.weight, norm, sqrt);
      res := res + Product(ai.weight, norm);
      i := i + 1;
    }
  }

  /** L at aj: the weights over the distances from aj to every anchor not equal to it. */
  method OperatorL(aj: Point, aPoints: seq<WeightedPoint>, sqrt: real -> real,
                   ghost A: seq<WeightedVector>, ghost av: Vector) returns (res: real)
    requires IsSqrt(sqrt) && HasDimension(aPoints, aj.values.Length)
    requires ValuesOf(aPoints) == A && aj.values[..] == av
    ensures res == Operators.L(A, av, sqrt)
  {
    ValuesOfDimension(aPoints, aj.values.Length);
    res := 0.0;
    var i := 0;
    while i < |aPoints|
      invariant 0 <= i <= |aPoints|
      invariant res == Operators.LUpTo(A, av, i, sqrt)
    {
      res := AddLTerm(res, aPoints[i], aj, sqrt, A, av, i);
      i := i + 1;
    }
  }

  /**
   * One anchor's term of the resultant, added into result: a - b is scaled
   * by w over its norm, in place, and added to result.
   */
  method AddScaledDifference(result: Point, a: Point, b: Point, w: real, sqrt: real -> real, ghost u: Vector, ghost v: Vector)
    requires IsSqrt(sqrt) && a.values[..] == u && b.values[..] == v
    requires |u| == |v| == result.values.Length && Norm(Sub(u, v), sqrt) > 0.0
    requires result.values != a.values && result.values != b.values
    modifies result.values
    ensures result.values[..] == Add(old(result.values[..]), Scale(Sub(u, v), Quotient(w, Norm(Sub(u, v), sqrt))))
  {
    var dif := Point.Substraction(a, b);
    assert b.values[..a.values.Length] == v;
    var norm := dif.GetNorm(sqrt);
    var factor := Quotient(w, norm);
    var _ := dif.Multiply(factor);
    var _ := result.Add(dif);
    assert dif.values[..result.values.Length] == dif.values[..];
  }

  /** One pass of L's loop: the weight of ai over its distance from aj, unless ai is equal to aj. */
  method AddLTerm(res: real, ai: WeightedPoint, aj: Point, sqrt: real -> real,
                  ghost A: seq<WeightedVector>, ghost av: Vector, ghost i: nat) returns (sum: real)
    requires IsSqrt(sqrt) && Uniform(A, |av|) && i < |A| && aj.values[..] == av
    requires A[i] == WeightedVector(ai.point.values[..], ai.weight)
    requires res == Operators.LUpTo(A, av, i, sqrt)
    ensures sum == Operators.LUpTo(A, av, i + 1, sqrt)
  {
    sum := res;
    var c := aj.CompareTo(ai.point);
    LexCompareZeroIff(av, A[i].v);
    assert A[i].v[..|av|] == A[i].v;
    if c != 0 {
      var norm := Distance(aj, ai.point, sqrt, av, A[i].v);
      Operators.LStep(A, av, i, ai.weight, norm, sqrt);
      sum := sum + Quotient(ai.weight, norm);
    } else {
      Operators.LStep(A, av, i, ai.weight, Norm(Sub(av, A[i].v), sqrt), sqrt);
    }
  }

  /** The resultant at aj: the sum, over the anchors not equal to aj, of w times the unit vector towards them. */
  method R(aj: Point, aPoints: seq<WeightedPoint>, dimension: nat, sqrt: real -> real,
            ghost A: seq<WeightedVector>, ghost av: Vector) returns (result: Point)
    requires IsSqrt(sqrt) && dimension == aj.values.Length && HasDimension(aPoints, dimension)
    requires ValuesOf(aPoints) == A && aj.values[..] == av
    ensures result.values[..] == Operators.R(A, av, sqrt)
  {
    ValuesOfDimension(aPoints, dimension);
    result := new Point(dimension);
    var i := 0;
    while i < |aPoints|
      invariant 0 <= i <= |aPoints|
      invariant fresh(result.values) && result.values.Length == dimension
      invariant result.values[..] == Operators.RUpTo(A, av, i, sqrt)
    {
      AddResultantTerm(result, aPoints[i], aj, sqrt, A, av, i);
      i := i + 1;
    }
  }

  /** One pass of the resultant's loop: the term of the anchor ai, unless ai is equal to aj. */
  method AddResultantTerm(result: Point, ai: WeightedPoint, aj: Point, sqrt: real -> real,
                          ghost A: seq<WeightedVector>, ghost av: Vector, ghost i: nat)
    requires IsSqrt(sqrt) && Uniform(A, |av|) && i < |A| && aj.values[..] == av
    requires A[i] == WeightedVector(ai.point.values[..], ai.weight)
    requires result.values != ai.point.values && result.values != aj.values
    requires result.values[..] == Operators.RUpTo(A, av, i, sqrt)
    modifies result.values
    ensures result.values[..] == Operators.RUpTo(A, av, i + 1, sqrt)
  {
    var c := ai.point.CompareTo(aj);
    LexCompareZeroIff(A[i].v, av);
    assert av[..|A[i].v|] == av;
    var w := ai.weight;
    Operators.RStep(A, av, i, w, Norm(Sub(A[i].v, av), sqrt), sqrt);
    if c != 0 {
      AddScaledDifference(result, ai.point, aj, w, sqrt, A[i].v, av);
    }
  }

  /**
   * The Weiszfeld operator at a point x that is not an anchor: the anchors,
   * each weighted by w over its distance from x, summed and divided by the
   * sum of those weights.
   */
  method OperatorT(x: Point, aPoints: seq<WeightedPoint>, dimension: nat, sqrt: real -> real,
                   ghost A: seq<WeightedVector>, ghost xv: Vector) returns (result: Point)
    requires IsSqrt(sqrt) && dimension == x.values.Length && HasDimension(aPoints, dimension)
    requires ValuesOf(aPoints) == A && x.values[..] == xv
    requires Uniform(A, dimension) && Operators.NotAnchor(A, xv)
    requires NonNegative(A) && Operators.HasPositive(A)
    ensures result.values[..] == Operators.T(A, xv, sqrt)
  {
    ValuesOfDimension(aPoints, dimension);
    result := new Point(dimension);
    var weightsSum := 0.0;
    var i := 0;
    while i < |aPoints|
      invariant 0 <= i <= |aPoints|
      invariant fresh(result.values) && result.values.Length == dimension
      invariant result.values[..] == Operators.TSum(A, xv, i, sqrt)
      invariant weightsSum == Operators.TDen(A, xv, i, sqrt)
    {
      weightsSum := AddWeiszfeldTerm(result, weightsSum, aPoints[i], x, sqrt, A, xv, i);
      i := i + 1;
    }
    Operators.TDenPositive(A, xv, |A|, sqrt);
    var _ := result.Multiply(Quotient(1.0, weightsSum));
  }

  /**
   * One pass of the Weiszfeld operator's loop: the anchor a, weighted by w
   * over its distance from x, is added to result, and that weight to the
   * running sum of weights, which is returned.
   */
  method AddWeiszfeldTerm(result: Point, weightsSum: real, a: WeightedPoint, x: Point, sqrt: real -> real,
                          ghost A: seq<WeightedVector>, ghost xv: Vector, ghost i: nat) returns (sum: real)
    requires IsSqrt(sqrt) && Uniform(A, |xv|) && Operators.NotAnchor(A, xv) && i < |A|
    requires x.values[..] == xv && A[i] == WeightedVector(a.point.values[..], a.weight)
    requires result.values != a.point.values && result.values != x.values
    requires result.values[..] == Operators.TSum(A, xv, i, sqrt)
    requires weightsSum == Operators.TDen(A, xv, i, sqrt)
    modifies result.values
    ensures result.values[..] == Operators.TSum(A, xv, i + 1, sqrt)
    ensures sum == Operators.TDen(A, xv, i + 1, sqrt)
  {
    var w := a.weight;
    var norm := Distance(x, a.point, sqrt, xv, A[i].v);
    Operators.TStep(A, xv, i, w, norm, sqrt);
    var curWeight := Quotient(w, norm);
    var cur := Point.Multiplied(a.point, curWeight);
    sum := weightsSum + curWeight;
    var _ := result.Add(cur);
    assert cur.values[..result.values.Length] == cur.values[..];
  }

  /**
   * The step off the anchor aj: from aj along -rj / ||rj|| by the step size
   * (||rj|| - wj) / L.
   */
  method OperatorS(aj: Point, wj: real, rj: Point, aPoints: seq<WeightedPoint>, dimension: nat, sqrt: real -> real,
                   ghost A: seq<WeightedVector>, ghost av: Vector, ghost rv: Vector)
    returns (dj: Point)
    requires IsSqrt(sqrt) && dimension == aj.values.Length && HasDimension(aPoints, dimension)
    requires ValuesOf(aPoints) == A && aj.values[..] == av && rj.values[..] == rv
    requires Uniform(A, dimension) && |rv| == dimension
    requires Norm(rv, sqrt) > 0.0 && Operators.L(A, av, sqrt) > 0.0
    ensures dj.values[..] == Operators.S(A, av, wj, rv, sqrt)
  {
    var rjNorm := rj.GetNorm(sqrt);
    dj := new Point(dimension);
    var _ := dj.Add(rj);
    assert rj.values[..dimension] == rv;
    var _ := dj.Multiply(Quotient(-1.0, rjNorm));
    assert dj.values[..] == Operators.Direction(rv, sqrt);
    var lj := OperatorL(aj, aPoints, sqrt, A, av);
    var tj := Quotient(rjNorm - wj, lj);
    assert rjNorm - wj == Norm(rv, sqrt) - wj;
    assert tj == Operators.StepSize(A, av, wj, rv, sqrt);
    var _ := dj.Multiply(tj);
    var _ := dj.Add(aj);
    assert aj.values[..dimension] == av;
  }

  /**
   * Picks the starting point: the anchor at which F is smallest, the first
   * such in the anchor order; null when there are no anchors. The running
   * minimum starts at positive infinity.
   */
  method ChooseStart(aPoints: seq<WeightedPoint>, n: nat, sqrt: real -> real, ghost A: seq<WeightedVector>)
    returns (startPoint: Point?)
    requires HasDimension(aPoints, n) && ValuesOf(aPoints) == A
    ensures startPoint == null <==> |A| == 0
    ensures |A| > 0 ==>
      Uniform(A, n) &&
      startPoint == aPoints[Operators.FirstMin(Operators.FValues(A, sqrt))].point &&
      startPoint.values[..] == Operators.Start(A, sqrt)
  {
    ValuesOfDimension(aPoints, n);
    ghost var vals: seq<real> := if |A| > 0 then Operators.FValues(A, sqrt) else [];
    startPoint := null;
    var mini := PositiveInfinity;
    var i := 0;
    while i < |aPoints|
      invariant 0 <= i <= |aPoints| && |vals| == |aPoints|
      invariant ValuesOf(aPoints) == A
      invariant i == 0 ==> startPoint == null && mini == PositiveInfinity
      invariant i > 0 ==>
        startPoint == aPoints[Operators.FirstMin(vals[..i])].point &&
        mini == Finite(vals[Operators.FirstMin(vals[..i])])
    {
      startPoint, mini := Consider(aPoints, n, i, sqrt, A, vals, startPoint, mini);
      i := i + 1;
    }
    if i > 0 {
      assert vals[..i] == vals;
    }
  }

  /** One turn of the search for the start: the i-th anchor replaces the choice when its F is below the minimum so far. */
  method Consider(aPoints: seq<WeightedPoint>, n: nat, i: nat, sqrt: real -> real,
                  ghost A: seq<WeightedVector>, ghost vals: seq<real>, startPoint: Point?, mini: Extended)
    returns (startPoint': Point?, mini': Extended)
    requires HasDimension(aPoints, n) && ValuesOf(aPoints) == A && i < |A|
    requires Uniform(A, n) && vals == Operators.FValues(A, sqrt)
    requires i == 0 ==> startPoint == null && mini == PositiveInfinity
    requires i > 0 ==>
      startPoint == aPoints[Operators.FirstMin(vals[..i])].point &&
      mini == Finite(vals[Operators.FirstMin(vals[..i])])
    ensures startPoint' == aPoints[Operators.FirstMin(vals[..i + 1])].point
    ensures mini' == Finite(vals[Operators.FirstMin(vals[..i + 1])])
  {
    var wPoint := aPoints[i];
    var eval := EvaluateF(wPoint.point, aPoints, sqrt, A, A[i].v);
    if i > 0 {
      Operators.FirstMinStep(vals, i);
    }
    startPoint', mini' := startPoint, mini;
    if Below(eval, mini) {
      mini' := Finite(eval);
      startPoint' := wPoint.point;
    }
  }

  /**
   * One pass of the solver's loop from x: at an anchor, the step off it when
   * the resultant outweighs the anchor's weight and x itself otherwise; away
   * from the anchors, the Weiszfeld operator.
   */
  method Pass(x: Point, table: seq<WeightedPoint>, aPoints: seq<WeightedPoint>, n: nat, sqrt: real -> real,
              ghost A: seq<WeightedVector>, ghost xv: Vector) returns (next: Point)
    requires IsSqrt(sqrt) && x.values.Length == n && x.values[..] == xv
    requires HasDimension(aPoints, n) && ValuesOf(aPoints) == A
    requires Uniform(A, n) && NonNegative(A) && Operators.Safe(A, xv)
    requires Find(ValuesOf(table), xv) < |table| <==> Find(A, xv) < |A|
    requires Find(A, xv) < |A| ==> A[Find(A, xv)].w == table[Find(ValuesOf(table), xv)].weight
    ensures next.values[..] == Operators.Step(A, xv, sqrt)
  {
    var j := Lookup(table, x);
    if j < |table| {
      var rj := R(x, aPoints, n, sqrt, A, xv);
      ghost var rv := rj.values[..];
      var wj := table[j].weight;
      var rjNorm := rj.GetNorm(sqrt);
      if rjNorm > wj {
        Operators.SGuard(A, xv, sqrt);
        next := OperatorS(x, wj, rj, aPoints, n, sqrt, A, xv, rv);
      } else {
        next := x;
      }
    } else {
      next := OperatorT(x, aPoints, n, sqrt, A, xv);
    }
  }

  /**
   * The map of the input points and its entries listed in the map's order:
   * the distinct points, each with the sum of its weights.
   */
  method CollectAnchors(points: seq<WeightedPoint>, n: nat, order: seq<nat>, ghost P: seq<WeightedVector>)
    returns (table: seq<WeightedPoint>, aPoints: seq<WeightedPoint>)
    requires HasDimension(points, n) && ValuesOf(points) == P && Uniform(P, n)
    requires IsOrdering(order, |Tabulate(P)|)
    ensures HasDimension(table, n) && ValuesOf(table) == Tabulate(P)
    ensures HasDimension(aPoints, n) && ValuesOf(aPoints) == AnchorsOf(P, n, order)
  {
    table := BuildTable(points, n, P);
    aPoints := AnchorPoints(table, order);
    assert ValuesOf(aPoints) == AnchorsOf(P, n, order);
  }

  /** The iteration cap and the tolerance, with their defaults filled in where the input leaves them out. */
  method Defaults(input: Input) returns (maxIterations: int32, tol: real)
    ensures maxIterations == MaxIterations(input) && tol == PermissibleError(input)
  {
    maxIterations := IntegerMaxValue;
    if input.maxIterations.Some? {
      maxIterations := input.maxIterations.value;
    }
    var permissibleError := input.permissibleError;
    if permissibleError.None? {
      permissibleError := Some(DoubleMinValue);
    }
    tol := permissibleError.value;
  }

  /**
   * The solver: builds the map of anchors, fills in the defaults, picks the
   * starting anchor and repeats passes until a pass moves the iterate by no
   * more than the tolerance or the iteration cap is reached. With no input
   * points there is no starting point, and cloning it fails, whatever the
   * dimension; every input point has the given dimension, so a negative one
   * can only come with no points.
   */
  method Process(input: Input, order: seq<nat>, sqrt: real -> real, ghost P: seq<WeightedVector>)
    returns (r: Result<Output, Error>)
    requires IsSqrt(sqrt) && ValuesOf(input.points) == P
    requires forall k :: 0 <= k < |input.points| ==> input.points[k].point.values.Length == input.dimension as int
    requires NonNegative(P) && IsOrdering(order, |Tabulate(P)|)
    ensures r.Failure? <==> |P| == 0
    ensures r.Success? ==>
      Uniform(P, input.dimension as nat) &&
      (r.value.point.values[..], r.value.lastError, r.value.numberOfIterations as int) ==
        Operators.Solution(P, input.dimension as nat, order, PermissibleError(input), MaxIterations(input) as int, sqrt)
  {
    var n: nat := if input.dimension < 0 then 0 else input.dimension as nat;
    ValuesOfDimension(input.points, n);
    ghost var A := AnchorsOf(P, n, order);
    var table, aPoints := CollectAnchors(input.points, n, order, P);

    var maxIterations, tol := Defaults(input);

    var startPoint := ChooseStart(aPoints, n, sqrt, A);
    if startPoint == null {
      return Failure(NullStartPoint);
    }
    ghost var x0 := Operators.Start(A, sqrt);
    var x, error, iterationCounter := Descend(startPoint, table, aPoints, n, tol, maxIterations, sqrt, A, Tabulate(P), x0);
    r := Success(Output(x, error, iterationCounter));
  }

  /**
   * The solver's do-while loop from a copy of the start point, whose
   * components are x0: a pass, its error, and one more pass while that error
   * exceeds tol and fewer than maxIterations passes are made.
   */
  method Descend(start: Point, table: seq<WeightedPoint>, aPoints: seq<WeightedPoint>, n: nat,
                 tol: real, maxIterations: int32, sqrt: real -> real,
                 ghost A: seq<WeightedVector>, ghost t: seq<WeightedVector>, ghost x0: Vector)
    returns (x: Point, error: real, iterationCounter: int32)
    requires IsSqrt(sqrt) && start.values.Length == n && start.values[..] == x0
    requires HasDimension(aPoints, n) && ValuesOf(aPoints) == A && ValuesOf(table) == t
    requires SameLookup(A, t) && Uniform(A, n) && NonNegative(A) && Operators.Safe(A, x0)
    ensures iterationCounter >= 1
    ensures iterationCounter as int == Operators.StopPass(A, x0, tol, maxIterations as int, 1, sqrt)
    ensures x.values[..] == Operators.Iterate(A, x0, iterationCounter as nat, sqrt)
    ensures error == Operators.StepError(A, x0, iterationCounter as nat, sqrt)
  {
    x := start.Clone();
    error := 0.0;
    iterationCounter := 0;
    var running := true;
    while running
      invariant 0 <= iterationCounter && x.values.Length == n
      invariant ValuesOf(aPoints) == A && ValuesOf(table) == t
      invariant Operators.Reached(A, x0, tol, maxIterations as int, iterationCounter as nat, x.values[..], error, running, sqrt)
      decreases IntegerMaxValue as int - iterationCounter as int
    {
      x, error, iterationCounter, running :=
        Advance(x, table, aPoints, n, tol, maxIterations, sqrt, A, t, x0, iterationCounter, error);
    }
    Operators.ReachedStops(A, x0, tol, maxIterations as int, iterationCounter as nat, x.values[..], error, sqrt);
    Operators.StopPassStops(A, x0, tol, maxIterations as int, sqrt);
    Operators.StopsUnique(A, x0, tol, maxIterations as int, iterationCounter as nat,
                          Operators.StopPass(A, x0, tol, maxIterations as int, 1, sqrt), sqrt);
  }

  /** One pass of the do-while loop: the step, its error, the count and whether the loop goes on. */
  method Advance(x: Point, table: seq<WeightedPoint>, aPoints: seq<WeightedPoint>, n: nat,
                 tol: real, maxIterations: int32, sqrt: real -> real,
                 ghost A: seq<WeightedVector>, ghost t: seq<WeightedVector>, ghost x0: Vector,
                 iterationCounter: int32, ghost lastError: real)
    returns (next: Point, error: real, counter: int32, running: bool)
    requires 0 <= iterationCounter && x.values.Length == n && HasDimension(aPoints, n)
    requires ValuesOf(aPoints) == A && ValuesOf(table) == t && SameLookup(A, t)
    requires Operators.Reached(A, x0, tol, maxIterations as int, iterationCounter as nat, x.values[..], lastError, true, sqrt)
    ensures next.values.Length == n && counter as int == iterationCounter as int + 1
    ensures Operators.Reached(A, x0, tol, maxIterations as int, counter as nat, next.values[..], error, running, sqrt)
  {
    ghost var xv := x.values[..];
    next := Pass(x, table, aPoints, n, sqrt, A, xv);
    error := Distance(next, x, sqrt, Operators.Step(A, xv, sqrt), xv);
    counter := iterationCounter + 1;
    running := error > tol && counter < maxIterations;
    Operators.ReachedStep(A, x0, tol, maxIterations as int, iterationCounter as nat, xv, lastError,
                          counter as nat, next.values[..], error, running, sqrt);
  }
}
