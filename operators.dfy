/**
 * The Modified Weiszfeld method on values: the objective F, the resultant R
 * and the sum L at an anchor, the Weiszfeld operator T away from the
 * anchors, the step S off an anchor with the Vardi-Zhang step size, the
 * combined step, its iteration, and the choice of the starting anchor.
 * Every sum is accumulated from the first anchor to the last, as the solver's
 * loops do: each is defined over the first n anchors, and the whole sum is
 * the one over all of them.
 */
module Operators {
  import opened Vectors
  import opened Anchors

  /** No anchor of A lies at x. */
  predicate NotAnchor(A: seq<WeightedVector>, x: Vector)
  {
    forall k :: 0 <= k < |A| ==> A[k].v != x
  }

  /** One of the first n anchors has positive weight. */
  predicate PositiveWithin(A: seq<WeightedVector>, n: nat)
    requires n <= |A|
  {
    exists k :: 0 <= k < n && A[k].w > 0.0
  }

  predicate HasPositive(A: seq<WeightedVector>)
  {
    PositiveWithin(A, |A|)
  }

  /** One of the first n anchors lies off aj and has positive weight. */
  predicate PullsWithin(A: seq<WeightedVector>, aj: Vector, n: nat)
    requires n <= |A|
  {
    exists k :: 0 <= k < n && A[k].v != aj && A[k].w > 0.0
  }

  /** Some anchor other than the one at aj has positive weight. */
  predicate PullsAway(A: seq<WeightedVector>, aj: Vector)
  {
    PullsWithin(A, aj, |A|)
  }

  /**
   * The condition under which the step at x is defined: x is an anchor, or
   * some anchor has positive weight (so the operator T has a positive
   * denominator).
   */
  predicate Safe(A: seq<WeightedVector>, x: Vector)
  {
    Find(A, x) < |A| || HasPositive(A)
  }

  /** The objective over the first n anchors. */
  function FUpTo(A: seq<WeightedVector>, x: Vector, n: nat, sqrt: real -> real): real
    requires Uniform(A, |x|) && n <= |A|
  {
    if n == 0 then 0.0
    else FUpTo(A, x, n - 1, sqrt) + Product(A[n - 1].w, Norm(Sub(A[n - 1].v, x), sqrt))
  }

  /** The objective: the weighted sum of the distances from x to the anchors. */
  function F(A: seq<WeightedVector>, x: Vector, sqrt: real -> real): real
    requires Uniform(A, |x|)
  {
    FUpTo(A, x, |A|, sqrt)
  }

  /** The resultant at aj over the first n anchors. */
  function RUpTo(A: seq<WeightedVector>, aj: Vector, n: nat, sqrt: real -> real): (r: Vector)
    requires IsSqrt(sqrt) && Uniform(A, |aj|) && n <= |A|
    ensures |r| == |aj|
  {
    if n == 0 then Zeros(|aj|)
    else
      var p, a := RUpTo(A, aj, n - 1, sqrt), A[n - 1];
      if a.v != aj then
        DistancePositive(a.v, aj, sqrt);
        Add(p, Scale(Sub(a.v, aj), Quotient(a.w, Norm(Sub(a.v, aj), sqrt))))
      else p
  }

  /** The resultant at aj: the weighted unit vectors from aj towards every other anchor. */
  function R(A: seq<WeightedVector>, aj: Vector, sqrt: real -> real): (r: Vector)
    requires IsSqrt(sqrt) && Uniform(A, |aj|)
    ensures |r| == |aj|
  {
    RUpTo(A, aj, |A|, sqrt)
  }

  /** The Vardi-Zhang denominator at aj over the first n anchors. */
  function LUpTo(A: seq<WeightedVector>, aj: Vector, n: nat, sqrt: real -> real): real
    requires IsSqrt(sqrt) && Uniform(A, |aj|) && n <= |A|
  {
    if n == 0 then 0.0
    else
      var a := A[n - 1];
      if aj != a.v then
        DistancePositive(aj, a.v, sqrt);
        LUpTo(A, aj, n - 1, sqrt) + Quotient(a.w, Norm(Sub(aj, a.v), sqrt))
      else LUpTo(A, aj, n - 1, sqrt)
  }

  /** The Vardi-Zhang denominator at aj: the weights over the distances to the other anchors. */
  function L(A: seq<WeightedVector>, aj: Vector, sqrt: real -> real): real
    requires IsSqrt(sqrt) && Uniform(A, |aj|)
  {
    LUpTo(A, aj, |A|, sqrt)
  }

  /** Numerator of T over the first n anchors: each weighted by w over its distance from x. */
  function TSum(A: seq<WeightedVector>, x: Vector, n: nat, sqrt: real -> real): (r: Vector)
    requires IsSqrt(sqrt) && Uniform(A, |x|) && NotAnchor(A, x) && n <= |A|
    ensures |r| == |x|
  {
    if n == 0 then Zeros(|x|)
    else
      var a := A[n - 1];
      DistancePositive(x, a.v, sqrt);
      Add(TSum(A, x, n - 1, sqrt), Scale(a.v, Quotient(a.w, Norm(Sub(x, a.v), sqrt))))
  }

  /** Denominator of T over the first n anchors: the weights over the distances from x. */
  function TDen(A: seq<WeightedVector>, x: Vector, n: nat, sqrt: real -> real): real
    requires IsSqrt(sqrt) && Uniform(A, |x|) && NotAnchor(A, x) && n <= |A|
  {
    if n == 0 then 0.0
    else
      var a := A[n - 1];
      DistancePositive(x, a.v, sqrt);
      TDen(A, x, n - 1, sqrt) + Quotient(a.w, Norm(Sub(x, a.v), sqrt))
  }

  /** The Weiszfeld operator, applied at a point that is not an anchor. */
  function T(A: seq<WeightedVector>, x: Vector, sqrt: real -> real): (r: Vector)
    requires IsSqrt(sqrt) && Uniform(A, |x|) && NotAnchor(A, x)
    requires NonNegative(A) && HasPositive(A)
    ensures |r| == |x|
  {
    TDenPositive(A, x, |A|, sqrt);
    Scale(TSum(A, x, |A|, sqrt), Quotient(1.0, TDen(A, x, |A|, sqrt)))
  }

  /** The direction of the step off an anchor: the unit vector -rj / ||rj||. */
  function Direction(rj: Vector, sqrt: real -> real): (r: Vector)
    requires Norm(rj, sqrt) > 0.0
    ensures |r| == |rj|
  {
    Scale(Add(Zeros(|rj|), rj), Quotient(-1.0, Norm(rj, sqrt)))
  }

  /** The Vardi-Zhang step size off the anchor aj: tj = (||rj|| - wj) / L. */
  function StepSize(A: seq<WeightedVector>, aj: Vector, wj: real, rj: Vector, sqrt: real -> real): real
    requires IsSqrt(sqrt) && Uniform(A, |aj|) && L(A, aj, sqrt) > 0.0
  {
    Quotient(Norm(rj, sqrt) - wj, L(A, aj, sqrt))
  }

  /** The step off the anchor aj: from aj along the direction by the step size. */
  function S(A: seq<WeightedVector>, aj: Vector, wj: real, rj: Vector, sqrt: real -> real): (r: Vector)
    requires IsSqrt(sqrt) && Uniform(A, |aj|) && |rj| == |aj|
    requires Norm(rj, sqrt) > 0.0 && L(A, aj, sqrt) > 0.0
    ensures |r| == |aj|
  {
    Add(Scale(Direction(rj, sqrt), StepSize(A, aj, wj, rj, sqrt)), aj)
  }

  /**
   * One pass of the solver's loop: at an anchor, step off it with S when the
   * resultant outweighs the anchor's own weight and stay otherwise; away from
   * the anchors, apply T. The result again satisfies Safe.
   */
  function Step(A: seq<WeightedVector>, x: Vector, sqrt: real -> real): (r: Vector)
    requires IsSqrt(sqrt) && Uniform(A, |x|) && NonNegative(A) && Safe(A, x)
    ensures |r| == |x| && Safe(A, r)
  {
    var j := Find(A, x);
    if j < |A| then
      var rj := R(A, x, sqrt);
      if Norm(rj, sqrt) > A[j].w then
        SGuard(A, x, sqrt);
        S(A, x, A[j].w, rj, sqrt)
      else x
    else
      FindAbsent(A, x);
      assert NotAnchor(A, x) by {
        forall k | 0 <= k < |A| ensures A[k].v != x {
          assert A[k].v in KeySet(A);
        }
      }
      T(A, x, sqrt)
  }

  /** The iterate after k passes from x0. */
  function Iterate(A: seq<WeightedVector>, x0: Vector, k: nat, sqrt: real -> real): (r: Vector)
    requires IsSqrt(sqrt) && Uniform(A, |x0|) && NonNegative(A) && Safe(A, x0)
    ensures |r| == |x0| && Safe(A, r)
  {
    if k == 0 then x0 else Step(A, Iterate(A, x0, k - 1, sqrt), sqrt)
  }

  /** The error the loop measures after its k-th pass: how far that pass moved. */
  function StepError(A: seq<WeightedVector>, x0: Vector, k: nat, sqrt: real -> real): real
    requires IsSqrt(sqrt) && Uniform(A, |x0|) && NonNegative(A) && Safe(A, x0)
    requires k >= 1
  {
    Norm(Sub(Iterate(A, x0, k, sqrt), Iterate(A, x0, k - 1, sqrt)), sqrt)
  }

  /** The values of F at every anchor, in the anchor order. */
  function FValues(A: seq<WeightedVector>, sqrt: real -> real): (r: seq<real>)
    requires |A| > 0 && Uniform(A, |A[0].v|)
    ensures |r| == |A|
    ensures forall k :: 0 <= k < |A| ==> r[k] == F(A, A[k].v, sqrt)
  {
    seq(|A|, k requires 0 <= k < |A| => F(A, A[k].v, sqrt))
  }

  /**
   * The index of the first smallest value: scanning from the front, an
   * entry replaces the current choice only when strictly smaller.
   */
  function FirstMin(s: seq<real>): (r: nat)
    requires |s| > 0
    ensures r < |s|
    ensures forall k :: 0 <= k < |s| ==> s[r] <= s[k]
    ensures forall k :: 0 <= k < r ==> s[k] > s[r]
  {
    if |s| == 1 then 0
    else
      var p := FirstMin(s[..|s| - 1]);
      if s[|s| - 1] < s[p] then |s| - 1 else p
  }

  /** The starting point: the first anchor at which F is smallest. */
  function Start(A: seq<WeightedVector>, sqrt: real -> real): (x0: Vector)
    requires |A| > 0 && Uniform(A, |A[0].v|)
    ensures |x0| == |A[0].v| && Find(A, x0) < |A|
  {
    A[FirstMin(FValues(A, sqrt))].v
  }

  /**
   * The loop from x0 stops after its k-th pass: it makes at least one pass,
   * and it goes on past a pass only while that pass's error exceeds tol and
   * fewer than cap passes are made.
   */
  ghost predicate Stops(A: seq<WeightedVector>, x0: Vector, tol: real, cap: int, k: nat, sqrt: real -> real)
    requires IsSqrt(sqrt) && Uniform(A, |x0|) && NonNegative(A) && Safe(A, x0)
  {
    && k >= 1
    && (StepError(A, x0, k, sqrt) > tol ==> k >= cap)
    && (forall m :: 1 <= m < k ==> StepError(A, x0, m, sqrt) > tol && m < cap)
  }

  /**
   * The state of the loop from x0 after k passes: x is the k-th iterate,
   * error is the error of the k-th pass, running says whether the loop makes
   * another pass, and every earlier pass let the loop go on.
   */
  ghost predicate Reached(A: seq<WeightedVector>, x0: Vector, tol: real, cap: int, k: nat,
                          x: Vector, error: real, running: bool, sqrt: real -> real)
  {
    && IsSqrt(sqrt) && Uniform(A, |x0|) && NonNegative(A) && Safe(A, x0)
    && x == Iterate(A, x0, k, sqrt)
    && (k >= 1 ==> error == StepError(A, x0, k, sqrt))
    && (running <==> k == 0 || (error > tol && k < cap))
    && (forall m :: 1 <= m < k ==> StepError(A, x0, m, sqrt) > tol && m < cap)
  }

  /**
   * The pass after which the loop stops, searching from pass k on: the
   * first pass from k whose error is within tol or which is pass cap.
   */
  ghost function StopPass(A: seq<WeightedVector>, x0: Vector, tol: real, cap: int, k: nat, sqrt: real -> real): (r: nat)
    requires IsSqrt(sqrt) && Uniform(A, |x0|) && NonNegative(A) && Safe(A, x0) && k >= 1
    ensures r >= k
  {
    FirstHalt(m => m >= 1 && StepError(A, x0, m, sqrt) > tol, cap, k)
  }

  /** The first k' from k on at which go fails or which reaches cap. */
  ghost function FirstHalt(go: nat -> bool, cap: int, k: nat): (r: nat)
    ensures r >= k
    decreases if k < cap then cap - k else 0
  {
    if go(k) && k < cap then FirstHalt(go, cap, k + 1) else k
  }

  /**
   * What the solver outputs for input points P: the iterate after the pass
   * at which the loop from the starting anchor stops, the error of that
   * pass, and the number of passes made.
   */
  ghost function Solution(P: seq<WeightedVector>, n: nat, order: seq<nat>, tol: real, cap: int,
                          sqrt: real -> real): (Vector, real, int)
    requires IsSqrt(sqrt) && Uniform(P, n) && NonNegative(P) && |P| > 0
    requires IsOrdering(order, |Tabulate(P)|)
  {
    var A := AnchorsOf(P, n, order);
    var x0 := Start(A, sqrt);
    var k := StopPass(A, x0, tol, cap, 1, sqrt);
    (Iterate(A, x0, k, sqrt), StepError(A, x0, k, sqrt), k)
  }

  // ----- facts about the sums -----

  /** One more anchor's term of F, with its weight and distance as the solver computes them. */
  lemma FStep(A: seq<WeightedVector>, x: Vector, i: nat, w: real, d: real, sqrt: real -> real)
    requires Uniform(A, |x|) && i < |A|
    requires w == A[i].w && d == Norm(Sub(A[i].v, x), sqrt)
    ensures FUpTo(A, x, i + 1, sqrt) == FUpTo(A, x, i, sqrt) + Product(w, d)
  {
  }

  /** One more anchor's term of L, with its weight and distance as the solver computes them. */
  lemma LStep(A: seq<WeightedVector>, aj: Vector, i: nat, w: real, d: real, sqrt: real -> real)
    requires IsSqrt(sqrt) && Uniform(A, |aj|) && i < |A|
    requires w == A[i].w && d == Norm(Sub(aj, A[i].v), sqrt)
    ensures aj != A[i].v ==> d > 0.0
    ensures LUpTo(A, aj, i + 1, sqrt) ==
      if aj != A[i].v then LUpTo(A, aj, i, sqrt) + Quotient(w, d) else LUpTo(A, aj, i, sqrt)
  {
    if aj != A[i].v {
      DistancePositive(aj, A[i].v, sqrt);
    }
  }

  /** One more anchor's term of R, with its weight and distance as the solver computes them. */
  lemma RStep(A: seq<WeightedVector>, aj: Vector, i: nat, w: real, d: real, sqrt: real -> real)
    requires IsSqrt(sqrt) && Uniform(A, |aj|) && i < |A|
    requires w == A[i].w && d == Norm(Sub(A[i].v, aj), sqrt)
    ensures A[i].v != aj ==> d > 0.0
    ensures RUpTo(A, aj, i + 1, sqrt) ==
      if A[i].v != aj then Add(RUpTo(A, aj, i, sqrt), Scale(Sub(A[i].v, aj), Quotient(w, d)))
      else RUpTo(A, aj, i, sqrt)
  {
    if A[i].v != aj {
      DistancePositive(A[i].v, aj, sqrt);
    }
  }

  /** One more anchor's terms of T's numerator and denominator, as the solver computes them. */
  lemma TStep(A: seq<WeightedVector>, x: Vector, i: nat, w: real, d: real, sqrt: real -> real)
    requires IsSqrt(sqrt) && Uniform(A, |x|) && NotAnchor(A, x) && i < |A|
    requires w == A[i].w && d == Norm(Sub(x, A[i].v), sqrt)
    ensures d > 0.0
    ensures TSum(A, x, i + 1, sqrt) == Add(TSum(A, x, i, sqrt), Scale(A[i].v, Quotient(w, d)))
    ensures TDen(A, x, i + 1, sqrt) == TDen(A, x, i, sqrt) + Quotient(w, d)
  {
    DistancePositive(x, A[i].v, sqrt);
  }

  /** The first minimum of one more value: it replaces the old choice only when strictly smaller. */
  lemma FirstMinStep(s: seq<real>, i: nat)
    requires 0 < i < |s|
    ensures FirstMin(s[..i + 1]) ==
      if s[i] < s[FirstMin(s[..i])] then i else FirstMin(s[..i])
  {
    assert s[..i + 1][..i] == s[..i];
  }

  /** With nonnegative weights the objective is nonnegative. */
  lemma {:induction false} FNonNegative(A: seq<WeightedVector>, x: Vector, n: nat, sqrt: real -> real)
    requires IsSqrt(sqrt) && Uniform(A, |x|) && NonNegative(A) && n <= |A|
    ensures FUpTo(A, x, n, sqrt) >= 0.0
  {
    if n > 0 {
      var a := A[n - 1];
      FNonNegative(A, x, n - 1, sqrt);
      NormZeroIff(Sub(a.v, x), sqrt);
      MulNonNegative(a.w, Norm(Sub(a.v, x), sqrt));
    }
  }

  /** With nonnegative weights L is nonnegative. */
  lemma {:induction false} LNonNegative(A: seq<WeightedVector>, aj: Vector, n: nat, sqrt: real -> real)
    requires IsSqrt(sqrt) && Uniform(A, |aj|) && NonNegative(A) && n <= |A|
    ensures LUpTo(A, aj, n, sqrt) >= 0.0
  {
    if n > 0 {
      var a := A[n - 1];
      LNonNegative(A, aj, n - 1, sqrt);
      if aj != a.v {
        DistancePositive(aj, a.v, sqrt);
        DivNonNegative(a.w, Norm(Sub(aj, a.v), sqrt));
      }
    }
  }

  /** L is positive exactly when some other anchor pulls with positive weight. */
  lemma {:induction false} LPositive(A: seq<WeightedVector>, aj: Vector, n: nat, sqrt: real -> real)
    requires IsSqrt(sqrt) && Uniform(A, |aj|) && NonNegative(A) && n <= |A|
    ensures LUpTo(A, aj, n, sqrt) > 0.0 <==> PullsWithin(A, aj, n)
  {
    if n > 0 {
      var a := A[n - 1];
      LPositive(A, aj, n - 1, sqrt);
      LNonNegative(A, aj, n - 1, sqrt);
      PullsWithinStep(A, aj, n);
      if aj != a.v {
        DistancePositive(aj, a.v, sqrt);
        var d := Norm(Sub(aj, a.v), sqrt);
        if a.w > 0.0 {
          DivPositive(a.w, d);
        } else {
          assert a.w == 0.0;
          assert a.w / d == 0.0;
        }
      }
    }
  }

  /** The n-th anchor pulls, or one of the ones before it does. */
  lemma PullsWithinStep(A: seq<WeightedVector>, aj: Vector, n: nat)
    requires 0 < n <= |A|
    ensures PullsWithin(A, aj, n) <==>
      PullsWithin(A, aj, n - 1) || (A[n - 1].v != aj && A[n - 1].w > 0.0)
  {
    if PullsWithin(A, aj, n) {
      var k :| 0 <= k < n && A[k].v != aj && A[k].w > 0.0;
      if k < n - 1 {
        assert PullsWithin(A, aj, n - 1);
      }
    }
  }

  /** When none of the first n anchors pulls, the resultant over them is the zero vector. */
  lemma {:induction false} RWithoutPull(A: seq<WeightedVector>, aj: Vector, n: nat, sqrt: real -> real)
    requires IsSqrt(sqrt) && Uniform(A, |aj|) && NonNegative(A) && n <= |A|
    requires !PullsWithin(A, aj, n)
    ensures RUpTo(A, aj, n, sqrt) == Zeros(|aj|)
  {
    if n > 0 {
      var a := A[n - 1];
      PullsWithinStep(A, aj, n);
      RWithoutPull(A, aj, n - 1, sqrt);
      if a.v != aj {
        DistancePositive(a.v, aj, sqrt);
        var d := Norm(Sub(a.v, aj), sqrt);
        assert a.w == 0.0;
        assert a.w / d == 0.0;
        ScaleZero(Sub(a.v, aj));
        AddZeros(|aj|);
      }
    }
  }

  /**
   * The guard of S: when the resultant at the anchor aj outweighs wj, its
   * norm is positive, L is positive, and some anchor has positive weight, so
   * both divisions in S are defined.
   */
  lemma SGuard(A: seq<WeightedVector>, aj: Vector, sqrt: real -> real)
    requires IsSqrt(sqrt) && Uniform(A, |aj|) && NonNegative(A)
    requires Find(A, aj) < |A| && Norm(R(A, aj, sqrt), sqrt) > A[Find(A, aj)].w
    ensures Norm(R(A, aj, sqrt), sqrt) > 0.0
    ensures PullsAway(A, aj) && L(A, aj, sqrt) > 0.0 && HasPositive(A)
  {
    var j := Find(A, aj);
    assert A[j].w >= 0.0;
    if !PullsAway(A, aj) {
      RWithoutPull(A, aj, |A|, sqrt);
      NormZeroIff(Zeros(|aj|), sqrt);
    }
    LPositive(A, aj, |A|, sqrt);
    var k :| 0 <= k < |A| && A[k].v != aj && A[k].w > 0.0;
    assert PositiveWithin(A, |A|);
  }

  /** The guard of T: away from the anchors, with some positive weight, the denominator is positive. */
  lemma {:induction false} TDenPositive(A: seq<WeightedVector>, x: Vector, n: nat, sqrt: real -> real)
    requires IsSqrt(sqrt) && Uniform(A, |x|) && NotAnchor(A, x) && NonNegative(A) && n <= |A|
    ensures TDen(A, x, n, sqrt) >= 0.0
    ensures PositiveWithin(A, n) ==> TDen(A, x, n, sqrt) > 0.0
  {
    if n > 0 {
      var a := A[n - 1];
      TDenPositive(A, x, n - 1, sqrt);
      DistancePositive(x, a.v, sqrt);
      var d := Norm(Sub(x, a.v), sqrt);
      DivNonNegative(a.w, d);
      if PositiveWithin(A, n) && !PositiveWithin(A, n - 1) {
        var k :| 0 <= k < n && A[k].w > 0.0;
        assert k == n - 1;
        DivPositive(a.w, d);
      }
    }
  }

  // ----- facts about the step -----

  /**
   * S moves the anchor by exactly the step size tj = (||rj|| - wj) / L, which
   * is positive when ||rj|| > wj; so a pass that applies S always moves.
   */
  lemma SStepLength(A: seq<WeightedVector>, aj: Vector, wj: real, rj: Vector, sqrt: real -> real)
    requires IsSqrt(sqrt) && Uniform(A, |aj|) && |rj| == |aj|
    requires Norm(rj, sqrt) > wj && Norm(rj, sqrt) > 0.0 && L(A, aj, sqrt) > 0.0
    ensures Norm(Sub(S(A, aj, wj, rj, sqrt), aj), sqrt) == (Norm(rj, sqrt) - wj) / L(A, aj, sqrt)
    ensures (Norm(rj, sqrt) - wj) / L(A, aj, sqrt) > 0.0
    ensures S(A, aj, wj, rj, sqrt) != aj
  {
    var n, l := Norm(rj, sqrt), L(A, aj, sqrt);
    var t := (n - wj) / l;
    DivPositive(n - wj, l);
    AddZerosLeft(rj);
    var dj := Scale(rj, -1.0 / n);
    assert Direction(rj, sqrt) == dj;
    assert S(A, aj, wj, rj, sqrt) == Add(Scale(dj, t), aj);
    SubAddCancel(Scale(dj, t), aj);
    UnitNorm(rj, sqrt);
    ScaledUnitNorm(dj, t, sqrt);
    DistancePositive(S(A, aj, wj, rj, sqrt), aj, sqrt);
  }

  /**
   * At an anchor, a pass moves the iterate exactly when the resultant
   * outweighs the anchor's own weight.
   */
  lemma AnchorMovesIff(A: seq<WeightedVector>, x: Vector, sqrt: real -> real)
    requires IsSqrt(sqrt) && Uniform(A, |x|) && NonNegative(A) && Find(A, x) < |A|
    ensures Step(A, x, sqrt) != x <==> Norm(R(A, x, sqrt), sqrt) > A[Find(A, x)].w
  {
    var j := Find(A, x);
    var rj := R(A, x, sqrt);
    if Norm(rj, sqrt) > A[j].w {
      SGuard(A, x, sqrt);
      SStepLength(A, x, A[j].w, rj, sqrt);
    }
  }

  /** An anchor that nothing pulls away from stays where it is. */
  lemma FixedAnchor(A: seq<WeightedVector>, x: Vector, sqrt: real -> real)
    requires IsSqrt(sqrt) && Uniform(A, |x|) && NonNegative(A)
    requires Find(A, x) < |A| && !PullsAway(A, x)
    ensures Step(A, x, sqrt) == x
  {
    RWithoutPull(A, x, |A|, sqrt);
    NormZeroIff(Zeros(|x|), sqrt);
    assert A[Find(A, x)].w >= 0.0;
  }

  /** A pass that leaves the iterate in place measures an error of zero. */
  lemma NoMoveError(u: Vector, sqrt: real -> real)
    requires IsSqrt(sqrt)
    ensures Norm(Sub(u, u), sqrt) == 0.0
  {
    SubSelf(u);
    NormZeroIff(Zeros(|u|), sqrt);
  }

  /**
   * With a single anchor of nonnegative weight, every iterate from that
   * anchor is the anchor itself, and every pass measures an error of zero.
   */
  lemma {:induction false} SingleAnchor(a: WeightedVector, k: nat, sqrt: real -> real)
    requires IsSqrt(sqrt) && a.w >= 0.0
    ensures Uniform([a], |a.v|) && NonNegative([a]) && Safe([a], a.v)
    ensures Iterate([a], a.v, k, sqrt) == a.v
    ensures k >= 1 ==> StepError([a], a.v, k, sqrt) == 0.0
  {
    assert Find([a], a.v) == 0;
    if k > 0 {
      SingleAnchor(a, k - 1, sqrt);
      FixedAnchor([a], a.v, sqrt);
      NoMoveError(a.v, sqrt);
    }
  }

  /** The chosen start is an anchor at which F is smallest, the first such in the anchor order. */
  lemma StartIsFirstMinimum(A: seq<WeightedVector>, sqrt: real -> real)
    requires |A| > 0 && Uniform(A, |A[0].v|)
    ensures var s := FirstMin(FValues(A, sqrt));
      && s < |A|
      && (forall k :: 0 <= k < |A| ==> F(A, A[s].v, sqrt) <= F(A, A[k].v, sqrt))
      && (forall k :: 0 <= k < s ==> F(A, A[k].v, sqrt) > F(A, A[s].v, sqrt))
  {
    var vals := FValues(A, sqrt);
    var s := FirstMin(vals);
    forall k | 0 <= k < |A| ensures F(A, A[s].v, sqrt) <= F(A, A[k].v, sqrt) {
      assert vals[s] <= vals[k];
    }
    forall k | 0 <= k < s ensures F(A, A[k].v, sqrt) > F(A, A[s].v, sqrt) {
      assert vals[k] > vals[s];
    }
  }

  /** The pass after which the loop stops is determined by x0, tol and cap. */
  lemma StopsUnique(A: seq<WeightedVector>, x0: Vector, tol: real, cap: int, k: nat, k': nat, sqrt: real -> real)
    requires IsSqrt(sqrt) && Uniform(A, |x0|) && NonNegative(A) && Safe(A, x0)
    requires Stops(A, x0, tol, cap, k, sqrt) && Stops(A, x0, tol, cap, k', sqrt)
    ensures k == k'
  {
    assert StepError(A, x0, k', sqrt) > tol ==> k' >= cap;
    assert StepError(A, x0, k, sqrt) > tol ==> k >= cap;
  }

  /** The loop makes at most cap passes, and exactly one when cap is below one. */
  lemma StopsBound(A: seq<WeightedVector>, x0: Vector, tol: real, cap: int, k: nat, sqrt: real -> real)
    requires IsSqrt(sqrt) && Uniform(A, |x0|) && NonNegative(A) && Safe(A, x0)
    requires Stops(A, x0, tol, cap, k, sqrt)
    ensures k <= if cap < 1 then 1 else cap
  {
    if k > 1 {
      assert StepError(A, x0, k - 1, sqrt) > tol && k - 1 < cap;
    }
  }

  /** The pass after the k-th: the step from the k-th iterate, and its error. */
  lemma IterateNext(A: seq<WeightedVector>, x0: Vector, k: nat, sqrt: real -> real)
    requires IsSqrt(sqrt) && Uniform(A, |x0|) && NonNegative(A) && Safe(A, x0)
    ensures Iterate(A, x0, k + 1, sqrt) == Step(A, Iterate(A, x0, k, sqrt), sqrt)
    ensures StepError(A, x0, k + 1, sqrt) == Norm(Sub(Iterate(A, x0, k + 1, sqrt), Iterate(A, x0, k, sqrt)), sqrt)
  {
  }

  /**
   * A further pass from a running state: the next iterate is the step from
   * x, its error is how far it moved, and the loop goes on while that error
   * exceeds tol and fewer than cap passes are made.
   */
  lemma ReachedStep(A: seq<WeightedVector>, x0: Vector, tol: real, cap: int, k: nat, x: Vector, error: real,
                    k': nat, next: Vector, error': real, running': bool, sqrt: real -> real)
    requires Reached(A, x0, tol, cap, k, x, error, true, sqrt)
    requires k' == k + 1 && next == Step(A, x, sqrt) && error' == Norm(Sub(next, x), sqrt)
    requires running' == (error' > tol && k' < cap)
    ensures Reached(A, x0, tol, cap, k', next, error', running', sqrt)
  {
    IterateNext(A, x0, k, sqrt);
    GoesOn(A, x0, tol, cap, k, error, sqrt);
  }

  /** A loop that went on after each of its first k passes, the k-th included, went on after each of them. */
  lemma GoesOn(A: seq<WeightedVector>, x0: Vector, tol: real, cap: int, k: nat, error: real, sqrt: real -> real)
    requires IsSqrt(sqrt) && Uniform(A, |x0|) && NonNegative(A) && Safe(A, x0)
    requires forall m :: 1 <= m < k ==> StepError(A, x0, m, sqrt) > tol && m < cap
    requires k >= 1 ==> error == StepError(A, x0, k, sqrt) && error > tol && k < cap
    ensures forall m :: 1 <= m < k + 1 ==> StepError(A, x0, m, sqrt) > tol && m < cap
  {
    forall m | 1 <= m < k + 1
      ensures StepError(A, x0, m, sqrt) > tol && m < cap
    {
      if m == k {
        assert error == StepError(A, x0, k, sqrt);
      }
    }
  }

  /** When the loop no longer runs, it has stopped after its last pass. */
  lemma ReachedStops(A: seq<WeightedVector>, x0: Vector, tol: real, cap: int, k: nat,
                     x: Vector, error: real, sqrt: real -> real)
    requires Reached(A, x0, tol, cap, k, x, error, false, sqrt)
    ensures k >= 1 && Stops(A, x0, tol, cap, k, sqrt)
  {
  }

  /** FirstHalt finds a k' at which go fails or cap is reached, with go holding below cap on every pass before it. */
  lemma {:induction false} FirstHaltHalts(go: nat -> bool, cap: int, k: nat)
    ensures var r := FirstHalt(go, cap, k);
      && (go(r) ==> r >= cap)
      && (forall m :: k <= m < r ==> go(m) && m < cap)
    decreases if k < cap then cap - k else 0
  {
    if go(k) && k < cap {
      FirstHaltHalts(go, cap, k + 1);
      var r := FirstHalt(go, cap, k);
      assert r == FirstHalt(go, cap, k + 1);
      forall m | k <= m < r
        ensures go(m) && m < cap
      {
        if m > k {
          assert k + 1 <= m < FirstHalt(go, cap, k + 1);
        }
      }
    }
  }

  /** Searching from the first pass with a test go that agrees with the loop's own test finds the pass at which the loop stops. */
  lemma FirstHaltStops(A: seq<WeightedVector>, x0: Vector, tol: real, cap: int, sqrt: real -> real, go: nat -> bool)
    requires IsSqrt(sqrt) && Uniform(A, |x0|) && NonNegative(A) && Safe(A, x0)
    requires forall m :: 1 <= m ==> (go(m) <==> StepError(A, x0, m, sqrt) > tol)
    ensures Stops(A, x0, tol, cap, FirstHalt(go, cap, 1), sqrt)
  {
    FirstHaltHalts(go, cap, 1);
  }

  /** Searching from the first pass finds the pass at which the loop stops. */
  lemma StopPassStops(A: seq<WeightedVector>, x0: Vector, tol: real, cap: int, sqrt: real -> real)
    requires IsSqrt(sqrt) && Uniform(A, |x0|) && NonNegative(A) && Safe(A, x0)
    ensures Stops(A, x0, tol, cap, StopPass(A, x0, tol, cap, 1, sqrt), sqrt)
  {
    var go := m => m >= 1 && StepError(A, x0, m, sqrt) > tol;
    assert forall m :: 1 <= m ==> (go(m) <==> StepError(A, x0, m, sqrt) > tol);
    FirstHaltStops(A, x0, tol, cap, sqrt, go);
  }

  /**
   * The solution's pass count is the one pass at which the loop stops: the
   * loop stops there, and at no other pass; it is at most cap, or one.
   */
  lemma SolutionStops(P: seq<WeightedVector>, n: nat, order: seq<nat>, tol: real, cap: int, sqrt: real -> real, k: nat)
    requires IsSqrt(sqrt) && Uniform(P, n) && NonNegative(P) && |P| > 0
    requires IsOrdering(order, |Tabulate(P)|)
    ensures var A := AnchorsOf(P, n, order);
      var x0 := Start(A, sqrt);
      var s := Solution(P, n, order, tol, cap, sqrt);
      && s.2 >= 1 && s.2 <= (if cap < 1 then 1 else cap)
      && Stops(A, x0, tol, cap, s.2, sqrt)
      && (Stops(A, x0, tol, cap, k, sqrt) <==> k == s.2)
  {
    var A := AnchorsOf(P, n, order);
    var x0 := Start(A, sqrt);
    var s := StopPass(A, x0, tol, cap, 1, sqrt);
    StopPassStops(A, x0, tol, cap, sqrt);
    StopsBound(A, x0, tol, cap, s, sqrt);
    if Stops(A, x0, tol, cap, k, sqrt) {
      StopsUnique(A, x0, tol, cap, k, s, sqrt);
    }
  }

  /**
   * The no-move case: when the iterate after k - 1 passes is an anchor whose
   * resultant does not outweigh it, the k-th pass leaves it in place, measures
   * an error of zero, and (with a nonnegative tolerance) the loop stops there.
   */
  lemma NoMoveStops(A: seq<WeightedVector>, x0: Vector, tol: real, cap: int, k: nat, sqrt: real -> real)
    requires IsSqrt(sqrt) && Uniform(A, |x0|) && NonNegative(A) && Safe(A, x0) && k >= 1 && tol >= 0.0
    requires forall m :: 1 <= m < k ==> StepError(A, x0, m, sqrt) > tol && m < cap
    requires var x := Iterate(A, x0, k - 1, sqrt);
      Find(A, x) < |A| && Norm(R(A, x, sqrt), sqrt) <= A[Find(A, x)].w
    ensures Iterate(A, x0, k, sqrt) == Iterate(A, x0, k - 1, sqrt)
    ensures StepError(A, x0, k, sqrt) == 0.0
    ensures Stops(A, x0, tol, cap, k, sqrt)
  {
    var x := Iterate(A, x0, k - 1, sqrt);
    assert Iterate(A, x0, k, sqrt) == Step(A, x, sqrt);
    NoMoveError(x, sqrt);
  }

  /** A sequence of distinct entries whose vectors are all one vector has a single entry. */
  lemma DistinctSingleKey(A: seq<WeightedVector>, v: Vector)
    requires Distinct(A) && KeySet(A) == {v}
    ensures |A| == 1 && A[0].v == v
  {
    assert v in KeySet(A);
    if |A| >= 2 {
      TwoKeys(A);
      assert false;
    }
  }

  /** Two distinct entries give two different keys. */
  lemma TwoKeys(A: seq<WeightedVector>)
    requires Distinct(A) && |A| >= 2
    ensures A[0].v in KeySet(A) && A[1].v in KeySet(A) && A[0].v != A[1].v
  {
  }

  /**
   * When every input point is the same point, there is a single anchor, of
   * the total weight, and the solver outputs that point after exactly one
   * pass, with an error of zero (for any nonnegative tolerance).
   */
  lemma SingleAnchorSolution(P: seq<WeightedVector>, n: nat, order: seq<nat>, tol: real, cap: int, sqrt: real -> real)
    requires IsSqrt(sqrt) && Uniform(P, n) && NonNegative(P) && |P| > 0
    requires IsOrdering(order, |Tabulate(P)|) && tol >= 0.0
    requires forall k :: 0 <= k < |P| ==> P[k].v == P[0].v
    ensures var A := AnchorsOf(P, n, order);
      && A == [WeightedVector(P[0].v, WeightOf(P, P[0].v))]
      && Solution(P, n, order, tol, cap, sqrt) == (P[0].v, 0.0, 1)
  {
    var A := AnchorsOf(P, n, order);
    AnchorsMerged(P, n, order);
    assert KeySet(P) == {P[0].v} by {
      assert P[0].v in KeySet(P);
      forall y | y in KeySet(P) ensures y == P[0].v {
        var i :| 0 <= i < |P| && P[i].v == y;
      }
    }
    DistinctSingleKey(A, P[0].v);
    var a := A[0];
    assert A == [a];
    assert a.w >= 0.0;
    var x0 := Start(A, sqrt);
    assert x0 == a.v;
    SingleAnchor(a, 1, sqrt);
    var go := m => m >= 1 && StepError(A, x0, m, sqrt) > tol;
    assert !go(1);
    assert StopPass(A, x0, tol, cap, 1, sqrt) == FirstHalt(go, cap, 1) == 1;
  }

  /** The root of x is y whenever y is a nonnegative number that squares to x. */
  lemma SqrtOf(sqrt: real -> real, x: real, y: real)
    requires IsSqrt(sqrt) && y >= 0.0 && y * y == x
    ensures sqrt(x) == y
  {
    var s := sqrt(x);
    assert 0.0 <= s && s * s == x;
    SquareInjective(s, y);
  }

  /** The resultant at one of two unit-weight anchors in one dimension ten apart, listed in either order. */
  lemma TwoPointResultant(A: seq<WeightedVector>, aj: Vector, other: real, sqrt: real -> real)
    requires IsSqrt(sqrt) && |aj| == 1 && (other - aj[0] == 10.0 || aj[0] - other == 10.0)
    requires A == [WeightedVector(aj, 1.0), WeightedVector([other], 1.0)]
          || A == [WeightedVector([other], 1.0), WeightedVector(aj, 1.0)]
    ensures Norm(R(A, aj, sqrt), sqrt) == 1.0
  {
    var d := Sub([other], aj);
    assert d == [other - aj[0]];
    assert NormSq(d) == 100.0 by {
      assert d[..0] == [];
      assert (other - aj[0]) * (other - aj[0]) == 100.0;
    }
    SqrtOf(sqrt, 100.0, 10.0);
    assert Norm(d, sqrt) == 10.0;
    var u := Scale(d, Quotient(1.0, 10.0));
    assert u == [(other - aj[0]) * 0.1];
    assert [other] != aj by { assert [other][0] != aj[0]; }
    if A[0].v == aj {
      assert RUpTo(A, aj, 1, sqrt) == Zeros(1);
    } else {
      assert RUpTo(A, aj, 1, sqrt) == Add(Zeros(1), u);
    }
    assert R(A, aj, sqrt) == Add(Zeros(1), u);
    var r := R(A, aj, sqrt);
    assert r == [(other - aj[0]) * 0.1];
    assert NormSq(r) == 1.0 by {
      assert r[..0] == [];
      assert ((other - aj[0]) * 0.1) * ((other - aj[0]) * 0.1) == 1.0;
    }
    SqrtOf(sqrt, 1.0, 1.0);
  }

  /**
   * Two points of weight 1 at 0 and 10 on a line: a pass from either of them
   * leaves it in place, since the resultant's norm 1 does not exceed the
   * anchor's own weight 1; so the solver stays at its starting anchor and
   * never moves towards the midpoint 5.
   */
  lemma TwoEqualPointsStay(sqrt: real -> real)
    requires IsSqrt(sqrt)
    ensures var A := [WeightedVector([0.0], 1.0), WeightedVector([10.0], 1.0)];
      && Uniform(A, 1) && NonNegative(A)
      && Step(A, [0.0], sqrt) == [0.0]
      && Step(A, [10.0], sqrt) == [10.0]
  {
    var A := [WeightedVector([0.0], 1.0), WeightedVector([10.0], 1.0)];
    assert Find(A, [0.0]) == 0;
    TwoPointResultant(A, [0.0], 10.0, sqrt);
    assert [0.0] != [10.0] by { assert [0.0][0] != [10.0][0]; }
    assert Find(A, [10.0]) == 1;
    TwoPointResultant(A, [10.0], 0.0, sqrt);
  }
}
