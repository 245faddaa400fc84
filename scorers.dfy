/** The four per-pair signal scorers of the recommendation pipeline, on plain values. */
module Scorers {
  import opened RealArith

  // ---------------------------------------------------------------------------
  // Content: Jaccard similarity of two interest sets
  // ---------------------------------------------------------------------------

  /** |a * b| / |a + b|, or 0 when the union is empty. Always a fraction in [0, 1]. */
  function Jaccard(a: set<string>, b: set<string>): (r: real)
    ensures 0.0 <= r <= 1.0
  {
    var inter := |a * b|;
    var union := |a + b|;
    SubsetSize(a * b, a + b);
    if union > 0 then DivMono(inter as real, union as real, union as real); inter as real / union as real
    else 0.0
  }

  lemma JaccardSymmetric(a: set<string>, b: set<string>)
    ensures Jaccard(a, b) == Jaccard(b, a)
  {
    assert a * b == b * a && a + b == b + a;
  }

  /** The score is 1 exactly for two identical, non-empty interest sets. */
  lemma JaccardOneIff(a: set<string>, b: set<string>)
    ensures Jaccard(a, b) == 1.0 <==> a == b && a != {}
  {
    var inter, union := |a * b| as real, |a + b| as real;
    if a + b != {} {
      DivOne(inter, union);
    }
    if Jaccard(a, b) == 1.0 {
      assert inter == union > 0.0;
      SubsetSize(a * b, a + b);
      assert a * b == a + b;
    }
    if a == b && a != {} {
      assert a * b == a + b;
    }
  }

  /** The score is 0 exactly for two disjoint interest sets (including empty ones). */
  lemma JaccardZeroIff(a: set<string>, b: set<string>)
    ensures Jaccard(a, b) == 0.0 <==> a * b == {}
  {
    if a * b != {} {
      var x :| x in a * b;
      assert x in a + b;
    }
  }

  lemma SubsetSize<T>(x: set<T>, y: set<T>)
    requires x <= y
    ensures |x| <= |y|
    ensures |x| == |y| ==> x == y
  {
    assert |y - x| == |y| - |x|;
  }

  // ---------------------------------------------------------------------------
  // Collaborative: cosine similarity of two swipe rows
  // ---------------------------------------------------------------------------

  /** Integer dot product of two rows of equal length. */
  function Dot(a: seq<int>, b: seq<int>): int
    requires |a| == |b|
  {
    if |a| == 0 then 0 else a[0] * b[0] + Dot(a[1..], b[1..])
  }

  predicate IsBinary(a: seq<int>)
  {
    forall k :: 0 <= k < |a| ==> a[k] == 0 || a[k] == 1
  }

  predicate IsZero(a: seq<int>)
  {
    forall k :: 0 <= k < |a| ==> a[k] == 0
  }

  /** na is the Euclidean norm of a: it is non-negative and its square is a . a. */
  predicate IsNorm(na: real, a: seq<int>)
  {
    0.0 <= na && na * na == Dot(a, a) as real
  }

  /** Cosine similarity (a . b) / (|a| |b|), with the norms supplied; 0 when their product is 0. */
  function Cosine(a: seq<int>, b: seq<int>, na: real, nb: real): real
    requires |a| == |b| && IsNorm(na, a) && IsNorm(nb, b)
  {
    var den := na * nb;
    if den != 0.0 then Dot(a, b) as real / den else 0.0
  }

  lemma {:induction false} DotSymmetric(a: seq<int>, b: seq<int>)
    requires |a| == |b|
    ensures Dot(a, b) == Dot(b, a)
  {
    if |a| > 0 {
      DotSymmetric(a[1..], b[1..]);
    }
  }

  /** a . a is never negative, and it is 0 exactly for the all-zero row. */
  lemma {:induction false} DotSelf(a: seq<int>)
    ensures Dot(a, a) >= 0
    ensures Dot(a, a) == 0 <==> IsZero(a)
  {
    if |a| > 0 {
      DotSelf(a[1..]);
      assert a[0] * a[0] >= 0;
      if Dot(a, a) == 0 {
        assert a[0] == 0;
        forall k | 0 <= k < |a| ensures a[k] == 0 {
          if k > 0 { assert a[k] == a[1..][k - 1]; }
        }
      }
      if IsZero(a) {
        assert IsZero(a[1..]) by {
          forall k | 0 <= k < |a[1..]| ensures a[1..][k] == 0 {
            assert a[1..][k] == a[k + 1];
          }
        }
      }
    }
  }

  /** For 0/1 rows, a . b counts common ones, so it lies between 0 and a . a. */
  lemma {:induction false} DotBinaryBounds(a: seq<int>, b: seq<int>)
    requires |a| == |b| && IsBinary(a) && IsBinary(b)
    ensures 0 <= Dot(a, b) <= Dot(a, a)
  {
    if |a| > 0 {
      assert IsBinary(a[1..]) by {
        forall k | 0 <= k < |a[1..]| ensures a[1..][k] == 0 || a[1..][k] == 1 {
          assert a[1..][k] == a[k + 1];
        }
      }
      assert IsBinary(b[1..]) by {
        forall k | 0 <= k < |b[1..]| ensures b[1..][k] == 0 || b[1..][k] == 1 {
          assert b[1..][k] == b[k + 1];
        }
      }
      DotBinaryBounds(a[1..], b[1..]);
    }
  }

  /** The denominator vanishes exactly when one of the rows is all zero, and then the score is 0. */
  lemma CosineZeroGuard(a: seq<int>, b: seq<int>, na: real, nb: real)
    requires |a| == |b| && IsNorm(na, a) && IsNorm(nb, b)
    ensures na * nb == 0.0 <==> IsZero(a) || IsZero(b)
    ensures IsZero(a) || IsZero(b) ==> Cosine(a, b, na, nb) == 0.0
  {
    DotSelf(a);
    DotSelf(b);
    ProdZero(na, na);
    ProdZero(nb, nb);
    ProdZero(na, nb);
  }

  lemma CosineSymmetric(a: seq<int>, b: seq<int>, na: real, nb: real)
    requires |a| == |b| && IsNorm(na, a) && IsNorm(nb, b)
    ensures Cosine(a, b, na, nb) == Cosine(b, a, nb, na)
  {
    DotSymmetric(a, b);
    assert na * nb == nb * na;
  }

  /** For 0/1 swipe rows the cosine score lies in [0, 1]. */
  lemma CosineBounds(a: seq<int>, b: seq<int>, na: real, nb: real)
    requires |a| == |b| && IsNorm(na, a) && IsNorm(nb, b)
    requires IsBinary(a) && IsBinary(b)
    ensures 0.0 <= Cosine(a, b, na, nb) <= 1.0
  {
    if na * nb != 0.0 {
      DotBinaryBounds(a, b);
      DotBinaryBounds(b, a);
      DotSymmetric(a, b);
      RatioOfNorms(Dot(a, b) as real, na, nb);
    }
  }

  // ---------------------------------------------------------------------------
  // Social: mutual connections of two adjacency rows
  // ---------------------------------------------------------------------------

  /** The number of columns where both 0/1 rows hold 1, i.e. the sum of their element-wise AND. */
  function MutualCount(a: seq<int>, b: seq<int>): (c: nat)
    requires |a| == |b|
    ensures c <= |a|
  {
    if |a| == 0 then 0
    else (if a[0] == 1 && b[0] == 1 then 1 else 0) + MutualCount(a[1..], b[1..])
  }

  lemma {:induction false} MutualCountSymmetric(a: seq<int>, b: seq<int>)
    requires |a| == |b|
    ensures MutualCount(a, b) == MutualCount(b, a)
  {
    if |a| > 0 {
      MutualCountSymmetric(a[1..], b[1..]);
    }
  }

  // ---------------------------------------------------------------------------
  // Distance: linear decay in the distance gap
  // ---------------------------------------------------------------------------

  /** The largest element of a non-empty sequence (Python's built-in max). */
  function Max(s: seq<int>): (m: int)
    requires |s| > 0
    ensures m in s
    ensures forall k :: 0 <= k < |s| ==> s[k] <= m
  {
    if |s| == 1 then s[0]
    else
      var rest := Max(s[1..]);
      if s[0] >= rest then s[0] else rest
  }

  function Abs(x: int): nat
  {
    if x < 0 then -x else x
  }

  /** max(1 - gap / maxDist, 0); for a positive maxDist it lies in [0, 1] and is 1 for a zero gap. */
  function Decay(gap: nat, maxDist: int): (r: real)
    requires maxDist != 0
    ensures maxDist > 0 ==> 0.0 <= r <= 1.0
    ensures gap == 0 ==> r == 1.0
  {
    var score := 1.0 - gap as real / maxDist as real;
    if score > 0.0 then score else 0.0
  }

  /** A wider gap never scores higher. */
  lemma DecayMonotone(g1: nat, g2: nat, maxDist: int)
    requires maxDist > 0 && g1 <= g2
    ensures Decay(g1, maxDist) >= Decay(g2, maxDist)
  {
    DivMono(g1 as real, g2 as real, maxDist as real);
  }
}
