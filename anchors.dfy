/**
 * The anchor table: input points merged by exact equality, each key carrying
 * the sum of the weights of the input points equal to it. This is the value
 * the solver's HashMap<Point, Double> holds once every input point has been
 * put into it, together with the list of anchors read back from it in the
 * map's entry order.
 */
module Anchors {
  import opened Vectors

  /** A point's components together with its weight. */
  datatype WeightedVector = WeightedVector(v: Vector, w: real)

  /** Every vector of A has n components. */
  predicate Uniform(A: seq<WeightedVector>, n: nat)
  {
    forall k :: 0 <= k < |A| ==> |A[k].v| == n
  }

  predicate NonNegative(A: seq<WeightedVector>)
  {
    forall k :: 0 <= k < |A| ==> A[k].w >= 0.0
  }

  /** No vector occurs twice as a key. */
  predicate Distinct(A: seq<WeightedVector>)
  {
    forall i, j :: 0 <= i < j < |A| ==> A[i].v != A[j].v
  }

  function KeySet(A: seq<WeightedVector>): set<Vector>
  {
    set k | 0 <= k < |A| :: A[k].v
  }

  /** Index of the first entry whose vector is x, or |A| when no entry has it. */
  function Find(A: seq<WeightedVector>, x: Vector): (r: nat)
    ensures r <= |A|
    ensures r < |A| ==> A[r].v == x
    ensures forall k :: 0 <= k < r ==> A[k].v != x
  {
    if |A| == 0 then 0
    else if A[0].v == x then 0
    else 1 + Find(A[1..], x)
  }

  /**
   * One put into the map: an existing key gets the new weight added to its
   * own (the key object stays the one inserted first), a new key is appended.
   */
  function Insert(t: seq<WeightedVector>, e: WeightedVector): seq<WeightedVector>
  {
    var k := Find(t, e.v);
    if k < |t| then t[k := WeightedVector(t[k].v, t[k].w + e.w)] else t + [e]
  }

  /** The table after putting every entry of s, in order. */
  function Tabulate(s: seq<WeightedVector>): seq<WeightedVector>
  {
    if |s| == 0 then [] else Insert(Tabulate(s[..|s| - 1]), s[|s| - 1])
  }

  /** Putting one more entry of s into the table built from its prefix. */
  lemma TabulatePrefix(s: seq<WeightedVector>, i: nat)
    requires i < |s|
    ensures Tabulate(s[..i + 1]) == Insert(Tabulate(s[..i]), s[i])
  {
    assert s[..i + 1][..i] == s[..i];
  }

  function TotalWeight(s: seq<WeightedVector>): real
  {
    if |s| == 0 then 0.0 else TotalWeight(s[..|s| - 1]) + s[|s| - 1].w
  }

  /** Sum of the weights of the entries of s whose vector is x. */
  function WeightOf(s: seq<WeightedVector>, x: Vector): real
  {
    if |s| == 0 then 0.0
    else WeightOf(s[..|s| - 1], x) + (if s[|s| - 1].v == x then s[|s| - 1].w else 0.0)
  }

  // ----- the table built from the input -----

  lemma FindIn(A: seq<WeightedVector>, k: nat)
    requires k < |A|
    ensures Find(A, A[k].v) <= k
  {
  }

  /** Find answers "absent" exactly when no entry has the vector. */
  lemma FindAbsent(A: seq<WeightedVector>, x: Vector)
    ensures Find(A, x) == |A| <==> x !in KeySet(A)
  {
    if Find(A, x) < |A| {
      assert A[Find(A, x)].v in KeySet(A);
    }
    if x in KeySet(A) {
      var k :| 0 <= k < |A| && A[k].v == x;
      FindIn(A, k);
    }
  }

  lemma InsertKeys(t: seq<WeightedVector>, e: WeightedVector)
    ensures KeySet(Insert(t, e)) == KeySet(t) + {e.v}
    ensures Distinct(t) ==> Distinct(Insert(t, e))
  {
    var k := Find(t, e.v);
    var r := Insert(t, e);
    if k < |t| {
      assert forall i :: 0 <= i < |t| ==> r[i].v == t[i].v;
      assert KeySet(r) == KeySet(t);
      assert e.v in KeySet(t);
    } else {
      FindAbsent(t, e.v);
      assert r == t + [e];
      assert KeySet(r) == KeySet(t) + {e.v} by {
        forall y | y in KeySet(r) ensures y in KeySet(t) + {e.v} {
          var i :| 0 <= i < |r| && r[i].v == y;
          if i < |t| { assert t[i].v == y; }
        }
        forall y | y in KeySet(t) + {e.v} ensures y in KeySet(r) {
          if y == e.v {
            assert r[|t|].v == y;
          } else {
            var i :| 0 <= i < |t| && t[i].v == y;
            assert r[i].v == y;
          }
        }
      }
    }
  }

  /**
   * Every input vector becomes a key, every key is an input vector, and no
   * key occurs twice.
   */
  lemma {:induction false} TabulateKeys(s: seq<WeightedVector>)
    ensures KeySet(Tabulate(s)) == KeySet(s)
    ensures Distinct(Tabulate(s))
  {
    if |s| > 0 {
      var p, e := s[..|s| - 1], s[|s| - 1];
      TabulateKeys(p);
      InsertKeys(Tabulate(p), e);
      assert s == p + [e];
      assert KeySet(s) == KeySet(p) + {e.v} by {
        forall y | y in KeySet(s) ensures y in KeySet(p) + {e.v} {
          var i :| 0 <= i < |s| && s[i].v == y;
          if i < |p| { assert p[i].v == y; }
        }
        forall y | y in KeySet(p) + {e.v} ensures y in KeySet(s) {
          if y == e.v {
            assert s[|p|].v == y;
          } else {
            var i :| 0 <= i < |p| && p[i].v == y;
            assert s[i].v == y;
          }
        }
      }
    }
  }

  /** The table is empty exactly when the input is. */
  lemma TabulateEmpty(s: seq<WeightedVector>)
    ensures |Tabulate(s)| == 0 <==> |s| == 0
  {
    TabulateKeys(s);
    if |s| > 0 {
      assert s[0].v in KeySet(s);
    }
  }

  lemma {:induction false} InsertWeights(t: seq<WeightedVector>, e: WeightedVector, s: seq<WeightedVector>)
    requires forall k :: 0 <= k < |t| ==> t[k].w == WeightOf(s, t[k].v)
    requires Distinct(t) && KeySet(t) == KeySet(s)
    ensures forall k :: 0 <= k < |Insert(t, e)| ==> Insert(t, e)[k].w == WeightOf(s + [e], Insert(t, e)[k].v)
  {
    var r := Insert(t, e);
    var j := Find(t, e.v);
    assert (s + [e])[..|s|] == s;
    forall k | 0 <= k < |r| ensures r[k].w == WeightOf(s + [e], r[k].v) {
      if k < |t| {
        if k == j {
          assert r[k].w == t[k].w + e.w;
        } else {
          assert r[k] == t[k];
        }
      } else {
        assert j == |t| && r[k] == e;
        FindAbsent(t, e.v);
        WeightOfAbsent(s, e.v);
      }
    }
  }

  lemma {:induction false} WeightOfAbsent(s: seq<WeightedVector>, x: Vector)
    requires x !in KeySet(s)
    ensures WeightOf(s, x) == 0.0
  {
    if |s| > 0 {
      var p := s[..|s| - 1];
      assert KeySet(p) <= KeySet(s) by {
        forall y | y in KeySet(p) ensures y in KeySet(s) {
          var i :| 0 <= i < |p| && p[i].v == y;
          assert s[i].v == y;
        }
      }
      assert s[|s| - 1].v in KeySet(s);
      WeightOfAbsent(p, x);
    }
  }

  /** Each key's weight is the sum of the weights of the input points equal to it. */
  lemma {:induction false} TabulateWeights(s: seq<WeightedVector>)
    ensures forall k :: 0 <= k < |Tabulate(s)| ==> Tabulate(s)[k].w == WeightOf(s, Tabulate(s)[k].v)
  {
    if |s| > 0 {
      var p, e := s[..|s| - 1], s[|s| - 1];
      TabulateWeights(p);
      TabulateKeys(p);
      InsertWeights(Tabulate(p), e, p);
      assert s == p + [e];
    }
  }

  lemma {:induction false} TotalWeightUpdate(t: seq<WeightedVector>, k: nat, d: real)
    requires k < |t|
    ensures TotalWeight(t[k := WeightedVector(t[k].v, t[k].w + d)]) == TotalWeight(t) + d
    decreases |t|
  {
    var r := t[k := WeightedVector(t[k].v, t[k].w + d)];
    var n := |t| - 1;
    if k < n {
      assert r[..n] == t[..n][k := WeightedVector(t[k].v, t[k].w + d)];
      TotalWeightUpdate(t[..n], k, d);
    } else {
      assert r[..n] == t[..n];
    }
  }

  /** One put adds the new entry's weight to the table's total. */
  lemma TotalWeightInsert(t: seq<WeightedVector>, e: WeightedVector)
    ensures TotalWeight(Insert(t, e)) == TotalWeight(t) + e.w
  {
    var k := Find(t, e.v);
    if k < |t| {
      TotalWeightUpdate(t, k, e.w);
    } else {
      assert (t + [e])[..|t|] == t;
    }
  }

  /** Merging equal points loses no weight. */
  lemma {:induction false} TabulateTotalWeight(s: seq<WeightedVector>)
    ensures TotalWeight(Tabulate(s)) == TotalWeight(s)
  {
    if |s| > 0 {
      TabulateTotalWeight(s[..|s| - 1]);
      TotalWeightInsert(Tabulate(s[..|s| - 1]), s[|s| - 1]);
    }
  }

  lemma {:induction false} InsertPreserves(t: seq<WeightedVector>, e: WeightedVector, n: nat)
    requires Uniform(t, n) && |e.v| == n
    ensures Uniform(Insert(t, e), n)
    ensures NonNegative(t) && e.w >= 0.0 ==> NonNegative(Insert(t, e))
  {
  }

  /** Keys keep the input's dimension, weights stay nonnegative. */
  lemma {:induction false} TabulatePreserves(s: seq<WeightedVector>, n: nat)
    requires Uniform(s, n)
    ensures Uniform(Tabulate(s), n)
    ensures NonNegative(s) ==> NonNegative(Tabulate(s))
  {
    if |s| > 0 {
      TabulatePreserves(s[..|s| - 1], n);
      InsertPreserves(Tabulate(s[..|s| - 1]), s[|s| - 1], n);
    }
  }

  // ----- the anchor list read back from the table -----

  /**
   * The entry order of the map: a listing of the table's indices in which
   * every index occurs exactly once.
   */
  predicate IsOrdering(order: seq<nat>, n: nat)
  {
    && |order| == n
    && (forall k :: 0 <= k < n ==> order[k] < n)
    && (forall j :: 0 <= j < n ==> j in order)
    && (forall k, l :: 0 <= k < l < n ==> order[k] != order[l])
  }

  /** The anchor list: the table's entries in the given order. */
  function Reorder(t: seq<WeightedVector>, order: seq<nat>): (A: seq<WeightedVector>)
    requires forall k :: 0 <= k < |order| ==> order[k] < |t|
    ensures |A| == |order|
    ensures forall k :: 0 <= k < |A| ==> A[k] == t[order[k]]
  {
    seq(|order|, k requires 0 <= k < |order| => t[order[k]])
  }

  /**
   * The anchor list holds exactly one entry per key, carrying that key's
   * weight, and the lookup of any vector in it agrees with the lookup in the
   * table.
   */
  lemma ReorderAnchors(t: seq<WeightedVector>, order: seq<nat>, x: Vector)
    requires IsOrdering(order, |t|) && Distinct(t)
    ensures Distinct(Reorder(t, order))
    ensures KeySet(Reorder(t, order)) == KeySet(t)
    ensures var A := Reorder(t, order);
      (Find(A, x) < |A| <==> Find(t, x) < |t|) &&
      (Find(A, x) < |A| ==> A[Find(A, x)].w == t[Find(t, x)].w)
  {
    var A := Reorder(t, order);
    forall i, j | 0 <= i < j < |A| ensures A[i].v != A[j].v {
      assert order[i] != order[j];
    }
    forall y | y in KeySet(A) ensures y in KeySet(t) {
      var k :| 0 <= k < |A| && A[k].v == y;
      assert t[order[k]].v == y;
    }
    forall y | y in KeySet(t) ensures y in KeySet(A) {
      var j :| 0 <= j < |t| && t[j].v == y;
      assert j in order;
      var k :| 0 <= k < |order| && order[k] == j;
      assert A[k].v == y;
    }
    FindAbsent(A, x);
    FindAbsent(t, x);
    if Find(A, x) < |A| {
      var i := order[Find(A, x)];
      var j := Find(t, x);
      assert t[i].v == x;
    }
  }

  /** Looking up any vector in A finds an entry exactly when looking it up in t does, with the same weight. */
  ghost predicate SameLookup(A: seq<WeightedVector>, t: seq<WeightedVector>)
  {
    forall x: Vector ::
      && (Find(A, x) < |A| <==> Find(t, x) < |t|)
      && (Find(A, x) < |A| ==> A[Find(A, x)].w == t[Find(t, x)].w)
  }

  /** Reading the entries back in any entry order keeps every lookup. */
  lemma ReorderSameLookup(t: seq<WeightedVector>, order: seq<nat>)
    requires IsOrdering(order, |t|) && Distinct(t)
    ensures SameLookup(Reorder(t, order), t)
  {
    forall x: Vector
      ensures var A := Reorder(t, order);
        && (Find(A, x) < |A| <==> Find(t, x) < |t|)
        && (Find(A, x) < |A| ==> A[Find(A, x)].w == t[Find(t, x)].w)
    {
      ReorderAnchors(t, order, x);
    }
  }

  /** The identity listing is an entry order, so every table has one. */
  lemma IdentityOrdering(n: nat)
    ensures IsOrdering(seq(n, k => k), n)
  {
    var o := seq(n, k => k);
    forall j | 0 <= j < n ensures j in o {
      assert o[j] == j;
    }
  }

  // ----- the anchors of an input -----

  /**
   * The anchors the solver works with, from input points whose components
   * and weights are P: the points merged by equality, each carrying the total
   * weight of the input points equal to it, in the map's entry order.
   */
  ghost function AnchorsOf(P: seq<WeightedVector>, n: nat, order: seq<nat>): (A: seq<WeightedVector>)
    requires Uniform(P, n) && IsOrdering(order, |Tabulate(P)|)
    ensures Uniform(A, n) && (NonNegative(P) ==> NonNegative(A))
    ensures |A| == 0 <==> |P| == 0
    ensures SameLookup(A, Tabulate(P))
  {
    var t := Tabulate(P);
    TabulatePreserves(P, n);
    TabulateEmpty(P);
    TabulateKeys(P);
    ReorderSameLookup(t, order);
    Reorder(t, order)
  }

  /**
   * Every input point is an anchor, every anchor is an input point, no
   * anchor occurs twice, and each anchor carries the total weight of the
   * input points equal to it.
   */
  lemma AnchorsMerged(P: seq<WeightedVector>, n: nat, order: seq<nat>)
    requires Uniform(P, n) && IsOrdering(order, |Tabulate(P)|)
    ensures var A := AnchorsOf(P, n, order);
      && Distinct(A) && KeySet(A) == KeySet(P)
      && forall k :: 0 <= k < |A| ==> A[k].w == WeightOf(P, A[k].v)
  {
    var t := Tabulate(P);
    TabulateKeys(P);
    TabulateWeights(P);
    ReorderAnchors(t, order, []);
  }
}
