/** Weighted blending of the four score matrices and the self-exclusion sentinel. */
module Combiner {

  /** One weight per signal, in the order content, collaborative, social, distance. */
  datatype Weights = Weights(content: real, collab: real, social: real, distance: real)

  /** The weights the pipeline uses: 0.45 / 0.25 / 0.20 / 0.10. */
  const DEFAULT_WEIGHTS := Weights(0.45, 0.25, 0.20, 0.10)

  /** The value written on the diagonal, below every score a pair of distinct users can get. */
  const SENTINEL: real := -1.0

  /** Non-negative weights that sum to 1. */
  predicate ValidWeights(w: Weights)
  {
    && w.content >= 0.0 && w.collab >= 0.0 && w.social >= 0.0 && w.distance >= 0.0
    && w.content + w.collab + w.social + w.distance == 1.0
  }

  predicate InUnit(x: real)
  {
    0.0 <= x <= 1.0
  }

  lemma DefaultWeightsValid()
    ensures ValidWeights(DEFAULT_WEIGHTS)
  {
  }

  /** The weighted sum of the four component scores of one pair. */
  function Blend(w: Weights, content: real, collab: real, social: real, distance: real): real
  {
    w.content * content + w.collab * collab + w.social * social + w.distance * distance
  }

  /** A convex combination of scores in [0, 1] stays in [0, 1]. */
  lemma BlendInUnit(w: Weights, content: real, collab: real, social: real, distance: real)
    requires ValidWeights(w)
    requires InUnit(content) && InUnit(collab) && InUnit(social) && InUnit(distance)
    ensures InUnit(Blend(w, content, collab, social, distance))
  {
    var a := WeightedTerm(w.content, content);
    var b := WeightedTerm(w.collab, collab);
    var c := WeightedTerm(w.social, social);
    var d := WeightedTerm(w.distance, distance);
    assert Blend(w, content, collab, social, distance) == a + b + c + d;
    assert a + b + c + d <= w.content + w.collab + w.social + w.distance;
  }

  lemma WeightedTerm(weight: real, x: real) returns (p: real)
    requires weight >= 0.0 && InUnit(x)
    ensures p == weight * x
    ensures 0.0 <= p <= weight
  {
    p := weight * x;
    assert weight * x <= weight * 1.0;
  }

  /** A new n x n table whose every cell is the weighted sum of the four input cells. */
  method Combine(w: Weights, content: array2<real>, collab: array2<real>, social: array2<real>, distance: array2<real>)
      returns (c: array2<real>)
    requires content.Length0 == content.Length1
    requires collab.Length0 == content.Length0 && collab.Length1 == content.Length0
    requires social.Length0 == content.Length0 && social.Length1 == content.Length0
    requires distance.Length0 == content.Length0 && distance.Length1 == content.Length0
    ensures fresh(c)
    ensures c.Length0 == content.Length0 && c.Length1 == content.Length0
    ensures forall u, v :: 0 <= u < c.Length0 && 0 <= v < c.Length1 ==>
      c[u, v] == Blend(w, content[u, v], collab[u, v], social[u, v], distance[u, v])
  {
    var n := content.Length0;
    c := new real[n, n];
    var u := 0;
    while u < n
      invariant 0 <= u <= n
      invariant forall i, j :: 0 <= i < u && 0 <= j < n ==>
        c[i, j] == Blend(w, content[i, j], collab[i, j], social[i, j], distance[i, j])
    {
      var v := 0;
      while v < n
        invariant 0 <= v <= n
        invariant forall i, j :: 0 <= i < u && 0 <= j < n ==>
          c[i, j] == Blend(w, content[i, j], collab[i, j], social[i, j], distance[i, j])
        invariant forall j :: 0 <= j < v ==>
          c[u, j] == Blend(w, content[u, j], collab[u, j], social[u, j], distance[u, j])
      {
        c[u, v] := w.content * content[u, v] + w.collab * collab[u, v]
                 + w.social * social[u, v] + w.distance * distance[u, v];
        v := v + 1;
      }
      u := u + 1;
    }
  }

  /** Overwrites every diagonal cell with the sentinel and leaves every other cell as it was. */
  method ExcludeSelf(c: array2<real>)
    requires c.Length0 == c.Length1
    modifies c
    ensures forall u :: 0 <= u < c.Length0 ==> c[u, u] == SENTINEL
    ensures forall u, v :: 0 <= u < c.Length0 && 0 <= v < c.Length1 && u != v ==> c[u, v] == old(c[u, v])
  {
    var u := 0;
    while u < c.Length0
      invariant 0 <= u <= c.Length0
      invariant forall i :: 0 <= i < u ==> c[i, i] == SENTINEL
      invariant forall i, j :: 0 <= i < c.Length0 && 0 <= j < c.Length1 && i != j ==> c[i, j] == old(c[i, j])
    {
      c[u, u] := SENTINEL;
      u := u + 1;
    }
  }
}
