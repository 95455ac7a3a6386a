/**
 * The value-level view of a point: a vector of real components, the
 * component-wise arithmetic the Point class performs in place, the squared
 * norm, the Euclidean norm over an abstract square root, and the
 * lexicographic comparison used for exact point identity.
 */
module Vectors {

  type Vector = seq<real>

  /** The vector of n zero components. */
  function Zeros(n: nat): Vector
  {
    seq(n, _ => 0.0)
  }

  function Add(u: Vector, v: Vector): Vector
    requires |u| == |v|
  {
    seq(|u|, i requires 0 <= i < |u| => u[i] + v[i])
  }

  function Sub(u: Vector, v: Vector): Vector
    requires |u| == |v|
  {
    seq(|u|, i requires 0 <= i < |u| => u[i] - v[i])
  }

  function Scale(u: Vector, k: real): Vector
  {
    seq(|u|, i requires 0 <= i < |u| => u[i] * k)
  }

  /**
   * The product and the quotient of two reals as named functions. The
   * solver's code and the definitions it is proved against both use them,
   * so each multiplication or division the code performs is the very term
   * of the definition, with no reasoning about products of equal factors.
   */
  function Product(a: real, b: real): real
  {
    a * b
  }

  function Quotient(a: real, b: real): real
    requires b != 0.0
  {
    a / b
  }

  /** Sum of the squared components, accumulated from the first index on. */
  function NormSq(u: Vector): real
  {
    if |u| == 0 then 0.0 else NormSq(u[..|u| - 1]) + u[|u| - 1] * u[|u| - 1]
  }

  /**
   * The square root is not definable here, so every norm takes it as a
   * parameter; this predicate says what is assumed of it: on nonnegative
   * arguments it returns the nonnegative root.
   */
  ghost predicate IsSqrt(sqrt: real -> real)
  {
    forall x :: 0.0 <= x ==> 0.0 <= sqrt(x) && sqrt(x) * sqrt(x) == x
  }

  /** Euclidean norm: the square root of the squared norm. */
  function Norm(u: Vector, sqrt: real -> real): real
  {
    sqrt(NormSq(u))
  }

  /**
   * Lexicographic comparison from index i on: the sign of the first
   * differing component, or 0 when none differs. Only the indices of u are
   * scanned, so a longer v is compared on its prefix.
   */
  function LexFrom(u: Vector, v: Vector, i: nat): (r: int)
    requires |u| <= |v| && i <= |u|
    ensures -1 <= r <= 1
    decreases |u| - i
  {
    if i == |u| then 0
    else if u[i] != v[i] then (if u[i] - v[i] > 0.0 then 1 else -1)
    else LexFrom(u, v, i + 1)
  }

  function LexCompare(u: Vector, v: Vector): int
    requires |u| <= |v|
  {
    LexFrom(u, v, 0)
  }

  // ----- squared norm -----

  lemma {:induction false} NormSqNonNegative(u: Vector)
    ensures NormSq(u) >= 0.0
  {
    if |u| > 0 {
      NormSqNonNegative(u[..|u| - 1]);
      var c := u[|u| - 1];
      assert c * c >= 0.0;
    }
  }

  /** The squared norm vanishes exactly on the zero vector. */
  lemma {:induction false} NormSqZeroIff(u: Vector)
    ensures NormSq(u) == 0.0 <==> u == Zeros(|u|)
  {
    if |u| > 0 {
      var p, c := u[..|u| - 1], u[|u| - 1];
      NormSqZeroIff(p);
      NormSqNonNegative(p);
      assert u == p + [c];
      if NormSq(u) == 0.0 {
        assert c * c >= 0.0;
        assert c * c == 0.0;
        SquareZero(c);
        assert p == Zeros(|p|);
        assert u == Zeros(|u|);
      }
    }
  }

  /** Scaling a vector by k scales its squared norm by k * k. */
  lemma {:induction false} NormSqScale(u: Vector, k: real)
    ensures NormSq(Scale(u, k)) == k * k * NormSq(u)
  {
    if |u| > 0 {
      var p, c := u[..|u| - 1], u[|u| - 1];
      NormSqScale(p, k);
      var q := NormSq(p);
      ScaleSnoc(p, c, k);
      assert u == p + [c];
      NormSqSnoc(Scale(p, k), c * k);
      ScaleStep(q, c, k);
    }
  }

  lemma NormSqSnoc(p: Vector, c: real)
    ensures NormSq(p + [c]) == NormSq(p) + c * c
  {
    assert (p + [c])[..|p|] == p;
  }

  lemma ScaleSnoc(p: Vector, c: real, k: real)
    ensures Scale(p + [c], k) == Scale(p, k) + [c * k]
  {
    var u := p + [c];
    forall i | 0 <= i < |u| ensures Scale(u, k)[i] == (Scale(p, k) + [c * k])[i] {
      if i < |p| {
        assert u[i] == p[i];
      }
    }
  }

  lemma ScaleStep(q: real, c: real, k: real)
    ensures k * k * q + (c * k) * (c * k) == k * k * (q + c * c)
  {
    ProductSquare(c, k);
  }

  /** Only zero squares to zero. */
  lemma SquareZero(c: real)
    requires c * c == 0.0
    ensures c == 0.0
  {
    var a := if c < 0.0 then -c else c;
    assert a * a == c * c;
    SquareInjective(a, 0.0);
  }

  lemma MulPositive(x: real, y: real)
    requires x > 0.0 && y > 0.0
    ensures x * y > 0.0
  {
  }

  lemma ProductSquare(c: real, k: real)
    ensures (c * k) * (c * k) == k * k * (c * c)
  {
  }

  lemma MulNonNegative(x: real, y: real)
    requires x >= 0.0 && y >= 0.0
    ensures x * y >= 0.0
  {
  }

  lemma DivNonNegative(w: real, d: real)
    requires w >= 0.0 && d > 0.0
    ensures w / d >= 0.0
  {
  }

  lemma DivPositive(w: real, d: real)
    requires w > 0.0 && d > 0.0
    ensures w / d > 0.0
  {
  }

  lemma InverseNegative(n: real)
    requires n > 0.0
    ensures -1.0 / n < 0.0 && -(-1.0 / n) == 1.0 / n
  {
  }

  lemma InverseProduct(n: real)
    requires n != 0.0
    ensures (1.0 / n) * n == 1.0
  {
  }

  lemma MulEq(a: real, b: real, k: real)
    requires a == b
    ensures a * k == b * k
  {
  }

  lemma ScaleAt(u: Vector, k: real, m: nat)
    requires m < |u|
    ensures Scale(u, k)[m] == u[m] * k
  {
  }

  // ----- component-wise arithmetic -----

  lemma AddZerosLeft(u: Vector)
    ensures Add(Zeros(|u|), u) == u
  {
  }

  lemma AddZeros(n: nat)
    ensures Add(Zeros(n), Zeros(n)) == Zeros(n)
  {
  }

  lemma SubAddCancel(u: Vector, v: Vector)
    requires |u| == |v|
    ensures Sub(Add(u, v), v) == u
  {
  }

  lemma SubSelf(u: Vector)
    ensures Sub(u, u) == Zeros(|u|)
  {
  }

  /** Scaling by zero gives the zero vector. */
  lemma ScaleZero(u: Vector)
    ensures Scale(u, 0.0) == Zeros(|u|)
  {
    forall i | 0 <= i < |u| ensures Scale(u, 0.0)[i] == 0.0 {
      MulZero(u[i]);
    }
  }

  lemma MulZero(x: real)
    ensures x * 0.0 == 0.0
  {
  }

  // ----- the abstract square root and the norm -----

  lemma SqrtZero(sqrt: real -> real)
    requires IsSqrt(sqrt)
    ensures sqrt(0.0) == 0.0
  {
    var s := sqrt(0.0);
    assert 0.0 <= s && s * s == 0.0;
    SquareZero(s);
  }

  lemma SqrtPositive(sqrt: real -> real, x: real)
    requires IsSqrt(sqrt) && x > 0.0
    ensures sqrt(x) > 0.0
  {
    var s := sqrt(x);
    assert 0.0 <= s && s * s == x;
  }

  /** Two nonnegative reals with the same square are equal. */
  lemma SquareInjective(a: real, b: real)
    requires 0.0 <= a && 0.0 <= b && a * a == b * b
    ensures a == b
  {
    assert (a - b) * (a + b) == a * a - b * b;
    if a > b {
      MulPositive(a - b, a + b);
    } else if a < b {
      MulPositive(b - a, a + b);
    }
  }

  /** The root of a product of squares: sqrt(k * k * q) = |k| * sqrt(q). */
  lemma SqrtScale(sqrt: real -> real, k: real, q: real)
    requires IsSqrt(sqrt) && q >= 0.0
    ensures sqrt(k * k * q) == (if k < 0.0 then -k else k) * sqrt(q)
  {
    var a := if k < 0.0 then -k else k;
    var s := sqrt(q);
    assert 0.0 <= s && s * s == q;
    assert k * k >= 0.0;
    assert k * k * q >= 0.0;
    var y := sqrt(k * k * q);
    assert 0.0 <= y && y * y == k * k * q;
    assert (a * s) * (a * s) == (a * a) * (s * s);
    assert a * a == k * k;
    assert a * s >= 0.0;
    SquareInjective(y, a * s);
  }

  /** The norm is nonnegative and vanishes exactly on the zero vector. */
  lemma NormZeroIff(u: Vector, sqrt: real -> real)
    requires IsSqrt(sqrt)
    ensures Norm(u, sqrt) >= 0.0
    ensures Norm(u, sqrt) == 0.0 <==> u == Zeros(|u|)
  {
    NormSqNonNegative(u);
    NormSqZeroIff(u);
    if NormSq(u) > 0.0 {
      SqrtPositive(sqrt, NormSq(u));
    } else {
      SqrtZero(sqrt);
    }
  }

  /** The difference of two equal-length vectors is zero exactly when they are equal. */
  lemma SubZeroIff(u: Vector, v: Vector)
    requires |u| == |v|
    ensures Sub(u, v) == Zeros(|u|) <==> u == v
  {
    if Sub(u, v) == Zeros(|u|) {
      forall i | 0 <= i < |u| ensures u[i] == v[i] {
        assert Sub(u, v)[i] == 0.0;
      }
    }
  }

  /**
   * The distance between two equal-length vectors is nonnegative, and it is
   * positive exactly when they differ.
   */
  lemma DistancePositive(u: Vector, v: Vector, sqrt: real -> real)
    requires IsSqrt(sqrt) && |u| == |v|
    ensures Norm(Sub(u, v), sqrt) >= 0.0
    ensures Norm(Sub(u, v), sqrt) > 0.0 <==> u != v
  {
    NormZeroIff(Sub(u, v), sqrt);
    SubZeroIff(u, v);
  }

  /** The norm of a scaled vector: ||k u|| = |k| ||u||. */
  lemma NormScale(u: Vector, k: real, sqrt: real -> real)
    requires IsSqrt(sqrt)
    ensures Norm(Scale(u, k), sqrt) == (if k < 0.0 then -k else k) * Norm(u, sqrt)
  {
    var q := NormSq(u);
    NormSqScale(u, k);
    NormSqNonNegative(u);
    SqrtScale(sqrt, k, q);
    assert NormSq(Scale(u, k)) == k * k * q;
  }

  /** Dividing a nonzero vector by minus its norm gives a vector of norm one. */
  lemma UnitNorm(u: Vector, sqrt: real -> real)
    requires IsSqrt(sqrt) && Norm(u, sqrt) > 0.0
    ensures Norm(Scale(u, -1.0 / Norm(u, sqrt)), sqrt) == 1.0
  {
    var n := Norm(u, sqrt);
    NormScale(u, -1.0 / n, sqrt);
    InverseNegative(n);
    assert Norm(Scale(u, -1.0 / n), sqrt) == (1.0 / n) * n;
    InverseProduct(n);
  }

  /** A vector of norm one scaled by t >= 0 has norm t. */
  lemma ScaledUnitNorm(d: Vector, t: real, sqrt: real -> real)
    requires IsSqrt(sqrt) && Norm(d, sqrt) == 1.0 && t >= 0.0
    ensures Norm(Scale(d, t), sqrt) == t
  {
    NormScale(d, t, sqrt);
    assert Norm(Scale(d, t), sqrt) == t * 1.0;
  }

  // ----- lexicographic comparison -----

  lemma {:induction false} LexFromZeroIff(u: Vector, v: Vector, i: nat)
    requires |u| <= |v| && i <= |u|
    ensures LexFrom(u, v, i) == 0 <==> u[i..] == v[i..|u|]
    decreases |u| - i
  {
    if i < |u| {
      LexFromZeroIff(u, v, i + 1);
      assert u[i..] == [u[i]] + u[i + 1..];
      assert v[i..|u|] == [v[i]] + v[i + 1..|u|];
    }
  }

  /** Comparison yields 0 exactly when u is equal to the prefix of v it scans. */
  lemma LexCompareZeroIff(u: Vector, v: Vector)
    requires |u| <= |v|
    ensures LexCompare(u, v) == 0 <==> u == v[..|u|]
  {
    LexFromZeroIff(u, v, 0);
    assert u[0..] == u;
    assert v[0..|u|] == v[..|u|];
  }

  lemma {:induction false} LexFromFirstDifference(u: Vector, v: Vector, i: nat, k: nat)
    requires |u| <= |v| && i <= k < |u|
    requires forall m :: i <= m < k ==> u[m] == v[m]
    requires u[k] != v[k]
    ensures LexFrom(u, v, i) == if u[k] > v[k] then 1 else -1
    decreases k - i
  {
    if i < k {
      LexFromFirstDifference(u, v, i + 1, k);
    }
  }

  /** The sign of a comparison is decided by the first index where the components differ. */
  lemma LexCompareFirstDifference(u: Vector, v: Vector, k: nat)
    requires |u| <= |v| && k < |u|
    requires u[..k] == v[..k] && u[k] != v[k]
    ensures LexCompare(u, v) == if u[k] > v[k] then 1 else -1
  {
    forall m | 0 <= m < k ensures u[m] == v[m] {
      assert u[..k][m] == v[..k][m];
    }
    LexFromFirstDifference(u, v, 0, k);
  }

  lemma {:induction false} LexFromAntisymmetric(u: Vector, v: Vector, i: nat)
    requires |u| == |v| && i <= |u|
    ensures LexFrom(u, v, i) == -LexFrom(v, u, i)
    decreases |u| - i
  {
    if i < |u| && u[i] == v[i] {
      LexFromAntisymmetric(u, v, i + 1);
    }
  }

  /** Swapping the arguments of a comparison of equal-length vectors flips its sign. */
  lemma LexCompareAntisymmetric(u: Vector, v: Vector)
    requires |u| == |v|
    ensures LexCompare(u, v) == -LexCompare(v, u)
  {
    LexFromAntisymmetric(u, v, 0);
  }

  lemma {:induction false} LexFromTransitive(u: Vector, v: Vector, w: Vector, i: nat)
    requires |u| == |v| == |w| && i <= |u|
    requires LexFrom(u, v, i) < 0 && LexFrom(v, w, i) < 0
    ensures LexFrom(u, w, i) < 0
    decreases |u| - i
  {
    if u[i] == v[i] && v[i] == w[i] {
      LexFromTransitive(u, v, w, i + 1);
    }
  }

  /** "Compares below" is transitive, so the comparison is a strict total order. */
  lemma LexCompareTransitive(u: Vector, v: Vector, w: Vector)
    requires |u| == |v| == |w|
    requires LexCompare(u, v) < 0 && LexCompare(v, w) < 0
    ensures LexCompare(u, w) < 0
  {
    LexFromTransitive(u, v, w, 0);
  }
}
