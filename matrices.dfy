/**
 * The per-signal score matrices: what each cell holds (as functions of the signal store)
 * and the nested loops that fill an n x n table cell by cell.
 */
module ScoreMatrices {
  import opened RealArith
  import opened Scorers
  import opened Signals

  /** The four interchangeable scorers; each maps a pair of distinct users to a real score. */
  datatype Scorer = Content | Collaborative | Mutual | Distance

  /** The score `kind` gives the pair (u, v) of distinct users; distances decay against the largest distance. */
  function PairScore(s: SignalStore, kind: Scorer, u: nat, v: nat): real
    requires s.Valid() && u < s.Size() && v < s.Size() && u != v
    requires kind == Distance ==> s.DistanceDefined()
  {
    match kind
    case Content => Jaccard(s.interests[u], s.interests[v])
    case Collaborative => Cosine(s.swipes[u], s.swipes[v], s.swipeNorms[u], s.swipeNorms[v])
    case Mutual => MutualCount(s.adjacency[u], s.adjacency[v]) as real
    case Distance => Decay(Abs(s.distances[u] - s.distances[v]), Max(s.distances))
  }

  /** Cell (u, v) of the matrix of `kind`: the scorer is only consulted off the diagonal. */
  function RawScore(s: SignalStore, kind: Scorer, u: nat, v: nat): real
    requires s.Valid() && u < s.Size() && v < s.Size()
    requires kind == Distance ==> s.DistanceDefined()
  {
    if u == v then 0.0 else PairScore(s, kind, u, v)
  }

  /** Every scorer is symmetric in the two users. */
  lemma RawScoreSymmetric(s: SignalStore, kind: Scorer, u: nat, v: nat)
    requires s.Valid() && u < s.Size() && v < s.Size()
    requires kind == Distance ==> s.DistanceDefined()
    ensures RawScore(s, kind, u, v) == RawScore(s, kind, v, u)
  {
    if u != v {
      match kind
      case Content => JaccardSymmetric(s.interests[u], s.interests[v]);
      case Collaborative => CosineSymmetric(s.swipes[u], s.swipes[v], s.swipeNorms[u], s.swipeNorms[v]);
      case Mutual => MutualCountSymmetric(s.adjacency[u], s.adjacency[v]);
      case Distance => assert Abs(s.distances[u] - s.distances[v]) == Abs(s.distances[v] - s.distances[u]);
    }
  }

  /**
   * Content, collaborative and distance scores lie in [0, 1] (the distance score once the
   * largest distance is positive); raw mutual counts lie in [0, n].
   */
  lemma RawScoreBounds(s: SignalStore, kind: Scorer, u: nat, v: nat)
    requires s.Valid() && u < s.Size() && v < s.Size()
    requires kind == Distance ==> s.DistanceDefined() && Max(s.distances) > 0
    ensures 0.0 <= RawScore(s, kind, u, v)
    ensures kind != Mutual ==> RawScore(s, kind, u, v) <= 1.0
    ensures kind == Mutual ==> RawScore(s, kind, u, v) <= s.Size() as real
  {
    if u != v && kind == Collaborative {
      CosineBounds(s.swipes[u], s.swipes[v], s.swipeNorms[u], s.swipeNorms[v]);
    }
  }

  /** Two distinct users at the same distance get distance score 1. */
  lemma SameDistanceScoresOne(s: SignalStore, u: nat, v: nat)
    requires s.Valid() && s.DistanceDefined() && u < s.Size() && v < s.Size() && u != v
    requires s.distances[u] == s.distances[v]
    ensures RawScore(s, Distance, u, v) == 1.0
  {
  }

  /** Off the diagonal, a pair with a wider distance gap never has a higher distance score. */
  lemma DistanceScoreMonotone(s: SignalStore, u: nat, v: nat, x: nat, y: nat)
    requires s.Valid() && s.DistanceDefined() && Max(s.distances) > 0
    requires u < s.Size() && v < s.Size() && x < s.Size() && y < s.Size() && u != v && x != y
    requires Abs(s.distances[u] - s.distances[v]) <= Abs(s.distances[x] - s.distances[y])
    ensures RawScore(s, Distance, u, v) >= RawScore(s, Distance, x, y)
  {
    DecayMonotone(Abs(s.distances[u] - s.distances[v]), Abs(s.distances[x] - s.distances[y]), Max(s.distances));
  }

  // ---------------------------------------------------------------------------
  // Social: global max normalisation of the mutual-count matrix
  // ---------------------------------------------------------------------------

  /** Cell (u, v) of the mutual-count matrix, as a natural number. */
  function MutualEntry(s: SignalStore, u: nat, v: nat): (c: nat)
    requires s.Valid() && u < s.Size() && v < s.Size()
    ensures c as real == RawScore(s, Mutual, u, v)
  {
    if u == v then 0 else MutualCount(s.adjacency[u], s.adjacency[v])
  }

  /** Row u of the mutual-count matrix. */
  function MutualRow(s: SignalStore, u: nat): (row: seq<int>)
    requires s.Valid() && u < s.Size()
    ensures |row| == s.Size()
    ensures forall v :: 0 <= v < s.Size() ==> row[v] == MutualEntry(s, u, v)
  {
    seq(s.Size(), v requires 0 <= v < s.Size() => MutualEntry(s, u, v))
  }

  /** The largest entry of each row of the mutual-count matrix. */
  function RowMaxima(s: SignalStore): (r: seq<int>)
    requires s.Valid() && s.Size() > 0
    ensures |r| == s.Size()
    ensures forall u :: 0 <= u < s.Size() ==> r[u] == Max(MutualRow(s, u))
  {
    seq(s.Size(), u requires 0 <= u < s.Size() => Max(MutualRow(s, u)))
  }

  /** The largest entry anywhere in the mutual-count matrix, diagonal included. */
  function MaxMutual(s: SignalStore): int
    requires s.Valid() && s.Size() > 0
  {
    Max(RowMaxima(s))
  }

  lemma MaxMutualIsMax(s: SignalStore)
    requires s.Valid() && s.Size() > 0
    ensures forall u, v :: 0 <= u < s.Size() && 0 <= v < s.Size() ==> MutualEntry(s, u, v) <= MaxMutual(s)
    ensures exists u, v :: 0 <= u < s.Size() && 0 <= v < s.Size() && MutualEntry(s, u, v) == MaxMutual(s)
  {
    var n := s.Size();
    var rows := RowMaxima(s);
    forall u, v | 0 <= u < n && 0 <= v < n ensures MutualEntry(s, u, v) <= MaxMutual(s) {
      assert MutualRow(s, u)[v] == MutualEntry(s, u, v);
      assert rows[u] == Max(MutualRow(s, u));
    }
    var u :| 0 <= u < n && rows[u] == MaxMutual(s);
    var row := MutualRow(s, u);
    var v :| 0 <= v < n && row[v] == Max(row);
    assert MutualEntry(s, u, v) == MaxMutual(s);
  }

  /** The social divisor: the global maximum mutual count, or 1 when no pair shares a connection. */
  function SocialDivisor(s: SignalStore): (d: real)
    requires s.Valid() && s.Size() > 0
    ensures d > 0.0
  {
    if MaxMutual(s) > 0 then MaxMutual(s) as real else 1.0
  }

  /** Cell (u, v) of the social score matrix. */
  function SocialScore(s: SignalStore, u: nat, v: nat): real
    requires s.Valid() && u < s.Size() && v < s.Size()
  {
    MutualEntry(s, u, v) as real / SocialDivisor(s)
  }

  lemma SocialSymmetric(s: SignalStore, u: nat, v: nat)
    requires s.Valid() && u < s.Size() && v < s.Size()
    ensures SocialScore(s, u, v) == SocialScore(s, v, u)
  {
    RawScoreSymmetric(s, Mutual, u, v);
  }

  lemma SocialBounds(s: SignalStore, u: nat, v: nat)
    requires s.Valid() && u < s.Size() && v < s.Size()
    ensures 0.0 <= SocialScore(s, u, v) <= 1.0
  {
    MaxMutualIsMax(s);
    var c := MutualEntry(s, u, v) as real;
    var d := SocialDivisor(s);
    assert c <= d;
    FractionInUnit(c, d);
  }

  /** Some pair scores exactly 1 if and only if some pair shares a connection. */
  lemma SocialReachesOne(s: SignalStore)
    requires s.Valid() && s.Size() > 0
    ensures (exists u, v :: 0 <= u < s.Size() && 0 <= v < s.Size() && SocialScore(s, u, v) == 1.0)
        <==> (exists u, v :: 0 <= u < s.Size() && 0 <= v < s.Size() && MutualEntry(s, u, v) > 0)
  {
    MaxMutualIsMax(s);
    var n := s.Size();
    if exists u, v :: 0 <= u < n && 0 <= v < n && MutualEntry(s, u, v) > 0 {
      var u, v :| 0 <= u < n && 0 <= v < n && MutualEntry(s, u, v) == MaxMutual(s);
      assert MaxMutual(s) > 0;
      DivOne(MutualEntry(s, u, v) as real, MaxMutual(s) as real);
      assert SocialScore(s, u, v) == 1.0;
    }
    if exists u, v :: 0 <= u < n && 0 <= v < n && SocialScore(s, u, v) == 1.0 {
      var u, v :| 0 <= u < n && 0 <= v < n && SocialScore(s, u, v) == 1.0;
      DivOne(MutualEntry(s, u, v) as real, SocialDivisor(s));
      assert MutualEntry(s, u, v) > 0;
    }
  }

  /** The social matrix is all zero if and only if no pair shares a connection. */
  lemma SocialAllZeroIff(s: SignalStore)
    requires s.Valid() && s.Size() > 0
    ensures (forall u, v :: 0 <= u < s.Size() && 0 <= v < s.Size() ==> SocialScore(s, u, v) == 0.0)
        <==> (forall u, v :: 0 <= u < s.Size() && 0 <= v < s.Size() ==> MutualEntry(s, u, v) == 0)
  {
    var n := s.Size();
    forall u, v | 0 <= u < n && 0 <= v < n
      ensures SocialScore(s, u, v) == 0.0 <==> MutualEntry(s, u, v) == 0
    {
      DivZero(MutualEntry(s, u, v) as real, SocialDivisor(s));
    }
  }

  // ---------------------------------------------------------------------------
  // The loops that fill the matrices
  // ---------------------------------------------------------------------------

  /** Fills the n x n matrix of `kind`: 0 on the diagonal, the scorer's value elsewhere. */
  method BuildMatrix(s: SignalStore, kind: Scorer) returns (m: array2<real>)
    requires s.Valid()
    requires kind == Distance ==> s.DistanceDefined()
    ensures m.Length0 == s.Size() && m.Length1 == s.Size()
    ensures forall u, v :: 0 <= u < s.Size() && 0 <= v < s.Size() ==> m[u, v] == RawScore(s, kind, u, v)
    ensures forall u :: 0 <= u < s.Size() ==> m[u, u] == 0.0
  {
    var n := s.Size();
    m := new real[n, n];
    var u := 0;
    while u < n
      invariant 0 <= u <= n
      invariant forall i, j :: 0 <= i < u && 0 <= j < n ==> m[i, j] == RawScore(s, kind, i, j)
    {
      var v := 0;
      while v < n
        invariant 0 <= v <= n
        invariant forall i, j :: 0 <= i < u && 0 <= j < n ==> m[i, j] == RawScore(s, kind, i, j)
        invariant forall j :: 0 <= j < v ==> m[u, j] == RawScore(s, kind, u, j)
      {
        m[u, v] := if u == v then 0.0 else PairScore(s, kind, u, v);
        v := v + 1;
      }
      u := u + 1;
    }
  }

  /** The largest entry of a non-empty table. */
  method MaxEntry(m: array2<real>) returns (mx: real)
    requires m.Length0 > 0 && m.Length1 > 0
    ensures forall u, v :: 0 <= u < m.Length0 && 0 <= v < m.Length1 ==> m[u, v] <= mx
    ensures exists u, v :: 0 <= u < m.Length0 && 0 <= v < m.Length1 && m[u, v] == mx
  {
    mx := m[0, 0];
    var u := 0;
    while u < m.Length0
      invariant 0 <= u <= m.Length0
      invariant forall i, j :: 0 <= i < u && 0 <= j < m.Length1 ==> m[i, j] <= mx
      invariant exists i, j :: 0 <= i < m.Length0 && 0 <= j < m.Length1 && m[i, j] == mx
    {
      var v := 0;
      while v < m.Length1
        invariant 0 <= v <= m.Length1
        invariant forall i, j :: 0 <= i < u && 0 <= j < m.Length1 ==> m[i, j] <= mx
        invariant forall j :: 0 <= j < v ==> m[u, j] <= mx
        invariant exists i, j :: 0 <= i < m.Length0 && 0 <= j < m.Length1 && m[i, j] == mx
      {
        if m[u, v] > mx {
          mx := m[u, v];
        }
        v := v + 1;
      }
      u := u + 1;
    }
  }

  /** A new table holding every entry of m divided by divisor. */
  method Scale(m: array2<real>, divisor: real) returns (r: array2<real>)
    requires divisor != 0.0
    ensures r.Length0 == m.Length0 && r.Length1 == m.Length1
    ensures forall u, v :: 0 <= u < m.Length0 && 0 <= v < m.Length1 ==> r[u, v] == m[u, v] / divisor
  {
    r := new real[m.Length0, m.Length1];
    var u := 0;
    while u < m.Length0
      invariant 0 <= u <= m.Length0
      invariant forall i, j :: 0 <= i < u && 0 <= j < m.Length1 ==> r[i, j] == m[i, j] / divisor
    {
      var v := 0;
      while v < m.Length1
        invariant 0 <= v <= m.Length1
        invariant forall i, j :: 0 <= i < u && 0 <= j < m.Length1 ==> r[i, j] == m[i, j] / divisor
        invariant forall j :: 0 <= j < v ==> r[u, j] == m[u, j] / divisor
      {
        r[u, v] := m[u, v] / divisor;
        v := v + 1;
      }
      u := u + 1;
    }
  }

  /**
   * Turns the mutual-count matrix into the social score matrix: divides every cell by the
   * global maximum count, or by 1 when that maximum is 0.
   */
  method NormaliseSocial(s: SignalStore, counts: array2<real>) returns (social: array2<real>)
    requires s.Valid() && s.Size() > 0
    requires counts.Length0 == s.Size() && counts.Length1 == s.Size()
    requires forall u, v :: 0 <= u < s.Size() && 0 <= v < s.Size() ==> counts[u, v] == RawScore(s, Mutual, u, v)
    ensures social.Length0 == s.Size() && social.Length1 == s.Size()
    ensures forall u, v :: 0 <= u < s.Size() && 0 <= v < s.Size() ==> social[u, v] == SocialScore(s, u, v)
  {
    var mx := MaxEntry(counts);
    var maxMutual := if mx > 0.0 then mx else 1.0;
    assert maxMutual == SocialDivisor(s) by {
      MaxMutualIsMax(s);
      var n := s.Size();
      var i, j :| 0 <= i < n && 0 <= j < n && counts[i, j] == mx;
      assert mx == MutualEntry(s, i, j) as real <= MaxMutual(s) as real;
      var k, l :| 0 <= k < n && 0 <= l < n && MutualEntry(s, k, l) == MaxMutual(s);
      assert counts[k, l] <= mx;
    }
    social := Scale(counts, maxMutual);
  }
}
