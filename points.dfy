/**
 * An n-dimensional point: a mutable vector over an array of components.
 * The in-place operations change the components of this point's array and
 * return the point itself; the static ones build a new point.
 */
module Points {
  import opened Vectors

  class Point {
    /** The components; the array is shared with whoever built the point from it. */
    const values: array<real>

    /** Wraps the given array itself, without copying it. */
    constructor FromValues(values: array<real>)
      ensures this.values == values
    {
      this.values := values;
    }

    /** A point of the given dimension with every component zero, in a new array. */
    constructor (dimensions: nat)
      ensures fresh(values) && values[..] == Zeros(dimensions)
    {
      values := new real[dimensions](_ => 0.0);
    }

    /** Adds other's components to this point's, index by index, in place. */
    method Add(other: Point) returns (r: Point)
      requires values.Length <= other.values.Length
      modifies values
      ensures r == this
      ensures values[..] == Vectors.Add(old(values[..]), old(other.values[..values.Length]))
      ensures other.values != values ==> other.values[..] == old(other.values[..])
    {
      var i := 0;
      while i < values.Length
        invariant 0 <= i <= values.Length
        invariant forall k :: 0 <= k < i ==> values[k] == old(values[k]) + old(other.values[k])
        invariant forall k :: i <= k < values.Length ==> values[k] == old(values[k])
        invariant other.values != values ==> other.values[..] == old(other.values[..])
      {
        values[i] := values[i] + other.values[i];
        i := i + 1;
      }
      return this;
    }

    /** Subtracts other's components from this point's, index by index, in place. */
    method Deduce(other: Point) returns (r: Point)
      requires values.Length <= other.values.Length
      modifies values
      ensures r == this
      ensures values[..] == Sub(old(values[..]), old(other.values[..values.Length]))
      ensures other.values != values ==> other.values[..] == old(other.values[..])
    {
      var i := 0;
      while i < values.Length
        invariant 0 <= i <= values.Length
        invariant forall k :: 0 <= k < i ==> values[k] == old(values[k]) - old(other.values[k])
        invariant forall k :: i <= k < values.Length ==> values[k] == old(values[k])
        invariant other.values != values ==> other.values[..] == old(other.values[..])
      {
        values[i] := values[i] - other.values[i];
        i := i + 1;
      }
      return this;
    }

    /** A new point holding a - b; neither argument changes. */
    static method Substraction(a: Point, b: Point) returns (res: Point)
      requires a.values.Length <= b.values.Length
      ensures fresh(res.values)
      ensures res.values[..] == Sub(a.values[..], b.values[..a.values.Length])
    {
      res := new Point(a.values.Length);
      var i := 0;
      while i < a.values.Length
        invariant 0 <= i <= a.values.Length
        invariant res.values.Length == a.values.Length
        invariant forall k :: 0 <= k < i ==> res.values[k] == a.values[k] - b.values[k]
      {
        res.values[i] := a.values[i] - b.values[i];
        i := i + 1;
      }
    }

    /** Multiplies every component by k, in place. */
    method Multiply(k: real) returns (r: Point)
      modifies values
      ensures r == this
      ensures values[..] == Scale(old(values[..]), k)
    {
      ghost var o := values[..];
      var i := 0;
      while i < values.Length
        invariant 0 <= i <= values.Length
        invariant forall m :: 0 <= m < i ==> values[m] == o[m] * k
        invariant forall m :: i <= m < values.Length ==> values[m] == o[m]
      {
        MulEq(values[i], o[i], k);
        values[i] := values[i] * k;
        i := i + 1;
      }
      forall m | 0 <= m < values.Length ensures values[m] == Scale(o, k)[m] {
        ScaleAt(o, k, m);
      }
      return this;
    }

    /** The sum of the squared components. */
    method GetNormToThe2() returns (res: real)
      ensures res == NormSq(values[..])
    {
      res := 0.0;
      var i := 0;
      while i < values.Length
        invariant 0 <= i <= values.Length
        invariant res == NormSq(values[..i])
      {
        assert values[..i + 1] == values[..i] + [values[i]];
        NormSqSnoc(values[..i], values[i]);
        res := res + values[i] * values[i];
        i := i + 1;
      }
      assert values[..i] == values[..];
    }

    /** The Euclidean norm, with the square root supplied by the caller. */
    method GetNorm(sqrt: real -> real) returns (r: real)
      ensures r == Norm(values[..], sqrt)
    {
      var n2 := GetNormToThe2();
      r := sqrt(n2);
    }

    /**
     * Scans this point's indices and decides by the first component that
     * differs: 1 when this point's is larger, -1 when smaller, 0 when none
     * differs.
     */
    method CompareTo(point: Point) returns (r: int)
      requires values.Length <= point.values.Length
      ensures r == LexCompare(values[..], point.values[..])
    {
      var i := 0;
      while i < values.Length
        invariant 0 <= i <= values.Length
        invariant LexFrom(values[..], point.values[..], i) == LexCompare(values[..], point.values[..])
      {
        if values[i] != point.values[i] {
          var dif := values[i] - point.values[i];
          if dif > 0.0 {
            return 1;
          } else {
            return -1;
          }
        }
        i := i + 1;
      }
      return 0;
    }

    /** Equal to any point whose comparison with this one yields 0, and to nothing else. */
    method Equals(obj: object?) returns (b: bool)
      requires obj is Point ==> values.Length <= (obj as Point).values.Length
      ensures b <==> obj is Point && values[..] == (obj as Point).values[..values.Length]
    {
      if obj is Point {
        var other := obj as Point;
        var c := CompareTo(other);
        LexCompareZeroIff(values[..], other.values[..]);
        return c == 0;
      } else {
        return false;
      }
    }

    /** A new point whose components are a copy of this point's, in a new array. */
    method Clone() returns (cloned: Point)
      ensures fresh(cloned) && fresh(cloned.values)
      ensures cloned.values[..] == values[..]
    {
      var copy := new real[values.Length](i reads values => if 0 <= i < values.Length then values[i] else 0.0);
      cloned := new Point.FromValues(copy);
    }

    /**
     * The static multiply: a new point built as zeros, then added to a, then
     * scaled by k in place; a does not change.
     */
    static method Multiplied(a: Point, k: real) returns (res: Point)
      ensures fresh(res.values)
      ensures res.values[..] == Scale(a.values[..], k)
    {
      res := new Point(a.values.Length);
      var _ := res.Add(a);
      assert a.values[..a.values.Length] == a.values[..];
      AddZerosLeft(a.values[..]);
      assert res.values[..] == a.values[..];
      var _ := res.Multiply(k);
    }
  }
}
