/**
 * The solver's data carriers, which hold values and have no logic of their
 * own: a weighted point, the input, the output; plus Java's 32-bit int, the
 * optional (nullable) boxed fields, the library constants the solver uses,
 * and the view of a list of weighted points as values.
 */
module Carriers {
  import opened Vectors
  import opened Anchors
  import opened Points

  /** Java's 32-bit int. */
  newtype int32 = x: int | -0x8000_0000 <= x < 0x8000_0000

  /** Integer.MAX_VALUE. */
  const IntegerMaxValue: int32 := 0x7fff_ffff

  function Pow2(n: nat): (r: real)
    ensures r >= 1.0
  {
    if n == 0 then 1.0 else 2.0 * Pow2(n - 1)
  }

  /** Double.MIN_VALUE, the smallest positive double, 2^-1074. */
  const DoubleMinValue: real := 1.0 / Pow2(1074)

  lemma DoubleMinValuePositive()
    ensures DoubleMinValue > 0.0
  {
    DivPositive(1.0, Pow2(1074));
  }

  /** A double that is finite or Double.POSITIVE_INFINITY. */
  datatype Extended = Finite(value: real) | PositiveInfinity

  /** The comparison a < b of a finite double with an extended one. */
  predicate Below(a: real, b: Extended)
  {
    b.PositiveInfinity? || a < b.value
  }

  /** A boxed Integer or Double field that may be null. */
  datatype Option<T> = None | Some(value: T)

  datatype Result<T, E> = Success(value: T) | Failure(error: E)

  /**
   * The only failure of the solver: with no input points no start point is
   * chosen and cloning it dereferences null.
   */
  datatype Error = NullStartPoint

  datatype WeightedPoint = WeightedPoint(point: Point, weight: real)

  datatype Input = Input(
    dimension: int32,
    points: seq<WeightedPoint>,
    permissibleError: Option<real>,
    maxIterations: Option<int32>)

  datatype Output = Output(point: Point, lastError: real, numberOfIterations: int32)

  /** Every point of ps has n components. */
  predicate HasDimension(ps: seq<WeightedPoint>, n: nat)
  {
    forall k :: 0 <= k < |ps| ==> ps[k].point.values.Length == n
  }

  ghost function Footprint(ps: seq<WeightedPoint>): set<array<real>>
  {
    set k | 0 <= k < |ps| :: ps[k].point.values
  }

  /** The components and weights the points of ps currently hold. */
  ghost function ValuesOf(ps: seq<WeightedPoint>): (A: seq<WeightedVector>)
    reads Footprint(ps)
    ensures |A| == |ps|
    ensures forall k :: 0 <= k < |ps| ==> A[k] == WeightedVector(ps[k].point.values[..], ps[k].weight)
  {
    seq(|ps|, k requires 0 <= k < |ps| reads Footprint(ps) =>
      WeightedVector(ps[k].point.values[..], ps[k].weight))
  }

  /** Changing one entry's weight changes only that weight in the view. */
  lemma ValuesOfUpdate(ps: seq<WeightedPoint>, j: nat, w: real)
    requires j < |ps|
    ensures ValuesOf(ps[j := WeightedPoint(ps[j].point, w)])
      == ValuesOf(ps)[j := WeightedVector(ValuesOf(ps)[j].v, w)]
  {
  }

  /** Appending an entry appends its view. */
  lemma ValuesOfAppend(ps: seq<WeightedPoint>, e: WeightedPoint)
    ensures ValuesOf(ps + [e]) == ValuesOf(ps) + [WeightedVector(e.point.values[..], e.weight)]
  {
  }

  lemma ValuesOfDimension(ps: seq<WeightedPoint>, n: nat)
    requires HasDimension(ps, n)
    ensures Uniform(ValuesOf(ps), n)
  {
  }

  /** The iteration cap: the given one, or Integer.MAX_VALUE when none is given. */
  function MaxIterations(input: Input): int32
  {
    if input.maxIterations.Some? then input.maxIterations.value else IntegerMaxValue
  }

  /** The error tolerance: the given one, or Double.MIN_VALUE when none is given. */
  function PermissibleError(input: Input): real
  {
    if input.permissibleError.Some? then input.permissibleError.value else DoubleMinValue
  }
}
