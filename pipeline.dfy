/**
 * The whole batch run: four score matrices, the social normalisation, the weighted
 * combination, the diagonal sentinel, and what the ranking then guarantees.
 */
module Pipeline {
  import opened Scorers
  import opened Signals
  import opened ScoreMatrices
  import opened Combiner
  import opened Ranker

  /** Cell (u, v) of the combined matrix after the sentinel loop. */
  function CombinedScore(s: SignalStore, w: Weights, u: nat, v: nat): real
    requires s.Valid() && s.DistanceDefined() && u < s.Size() && v < s.Size()
  {
    if u == v then SENTINEL
    else
      Blend(w, RawScore(s, Content, u, v), RawScore(s, Collaborative, u, v),
            SocialScore(s, u, v), RawScore(s, Distance, u, v))
  }

  /** Row u of the combined matrix. */
  function CombinedRow(s: SignalStore, w: Weights, u: nat): (row: seq<real>)
    requires s.Valid() && s.DistanceDefined() && u < s.Size()
    ensures |row| == s.Size()
    ensures forall v :: 0 <= v < s.Size() ==> row[v] == CombinedScore(s, w, u, v)
  {
    seq(s.Size(), v requires 0 <= v < s.Size() => CombinedScore(s, w, u, v))
  }

  /**
   * Builds the four matrices, normalises the social one, blends them and overwrites the
   * diagonal: every off-diagonal cell is the weighted sum of its four component scores and
   * every diagonal cell is the sentinel.
   */
  method Run(s: SignalStore, w: Weights) returns (combined: array2<real>)
    requires s.Valid() && s.DistanceDefined()
    ensures combined.Length0 == s.Size() && combined.Length1 == s.Size()
    ensures forall u, v :: 0 <= u < s.Size() && 0 <= v < s.Size() ==> combined[u, v] == CombinedScore(s, w, u, v)
    ensures forall u :: 0 <= u < s.Size() ==> Row(combined, u) == CombinedRow(s, w, u)
  {
    var content := BuildMatrix(s, Content);
    var collab := BuildMatrix(s, Collaborative);
    var counts := BuildMatrix(s, Mutual);
    var social := NormaliseSocial(s, counts);
    var distance := BuildMatrix(s, Distance);
    combined := Combine(w, content, collab, social, distance);
    ExcludeSelf(combined);
    forall u | 0 <= u < s.Size() ensures Row(combined, u) == CombinedRow(s, w, u) {
      assert |Row(combined, u)| == |CombinedRow(s, w, u)|;
    }
  }

  /** Off the diagonal the combined score treats both users alike. */
  lemma CombinedSymmetric(s: SignalStore, w: Weights, u: nat, v: nat)
    requires s.Valid() && s.DistanceDefined() && u < s.Size() && v < s.Size()
    ensures CombinedScore(s, w, u, v) == CombinedScore(s, w, v, u)
  {
    RawScoreSymmetric(s, Content, u, v);
    RawScoreSymmetric(s, Collaborative, u, v);
    SocialSymmetric(s, u, v);
    RawScoreSymmetric(s, Distance, u, v);
  }

  /** With valid weights, every off-diagonal combined score lies in [0, 1]. */
  lemma CombinedInUnit(s: SignalStore, w: Weights, u: nat, v: nat)
    requires s.Valid() && s.DistanceDefined() && Max(s.distances) > 0
    requires ValidWeights(w) && u < s.Size() && v < s.Size() && u != v
    ensures InUnit(CombinedScore(s, w, u, v))
  {
    RawScoreBounds(s, Content, u, v);
    RawScoreBounds(s, Collaborative, u, v);
    SocialBounds(s, u, v);
    RawScoreBounds(s, Distance, u, v);
    BlendInUnit(w, RawScore(s, Content, u, v), RawScore(s, Collaborative, u, v),
                SocialScore(s, u, v), RawScore(s, Distance, u, v));
  }

  /** Every diagonal cell is strictly below every off-diagonal cell. */
  lemma SentinelBelowAll(s: SignalStore, w: Weights, u: nat, x: nat, y: nat)
    requires s.Valid() && s.DistanceDefined() && Max(s.distances) > 0 && ValidWeights(w)
    requires u < s.Size() && x < s.Size() && y < s.Size() && x != y
    ensures CombinedScore(s, w, u, u) < CombinedScore(s, w, x, y)
  {
    CombinedInUnit(s, w, x, y);
  }

  /** Asking for fewer than n recommendations never returns the user themself. */
  lemma NoSelfRecommendation(s: SignalStore, w: Weights, user: nat, topN: int)
    requires s.Valid() && s.DistanceDefined() && Max(s.distances) > 0 && ValidWeights(w)
    requires user < s.Size() && topN < s.Size()
    ensures forall e :: e in Recommend(CombinedRow(s, w, user), topN) ==> e.candidate != user
  {
    var row := CombinedRow(s, w, user);
    forall j | 0 <= j < |row| && j != user ensures row[user] < row[j] {
      SentinelBelowAll(s, w, user, user, j);
    }
    RecommendOmitsStrictMinimum(row, topN, user);
  }

  /**
   * The same holds whatever order the sort gives to equal scores: in every ranking of the
   * user's combined row, the first HeadCount(topN, n) entries leave the user out.
   */
  lemma NoSelfInAnyRanking(s: SignalStore, w: Weights, user: nat, topN: int)
    requires s.Valid() && s.DistanceDefined() && Max(s.distances) > 0 && ValidWeights(w)
    requires user < s.Size() && topN < s.Size()
    ensures forall t: seq<Entry> :: IsRanking(CombinedRow(s, w, user), t) ==>
      forall i :: 0 <= i < HeadCount(topN, |t|) ==> t[i].candidate != user
  {
    var row := CombinedRow(s, w, user);
    forall j | 0 <= j < |row| && j != user ensures row[user] < row[j] {
      SentinelBelowAll(s, w, user, user, j);
    }
    forall t: seq<Entry> | IsRanking(row, t) ensures forall i :: 0 <= i < HeadCount(topN, |t|) ==> t[i].candidate != user {
      RankingStrictMinimumLast(row, t, user);
    }
  }

  /** With the script's default of three and more than three users, the list has three others. */
  lemma DefaultRecommendations(s: SignalStore, w: Weights, user: nat)
    requires s.Valid() && s.DistanceDefined() && Max(s.distances) > 0 && ValidWeights(w)
    requires user < s.Size() && DEFAULT_TOP_N < s.Size()
    ensures |Recommend(CombinedRow(s, w, user), DEFAULT_TOP_N)| == DEFAULT_TOP_N
    ensures forall e :: e in Recommend(CombinedRow(s, w, user), DEFAULT_TOP_N) ==> e.candidate != user
    ensures forall i, j :: 0 <= i < j < DEFAULT_TOP_N ==>
      Recommend(CombinedRow(s, w, user), DEFAULT_TOP_N)[i].candidate != Recommend(CombinedRow(s, w, user), DEFAULT_TOP_N)[j].candidate
  {
    NoSelfRecommendation(s, w, user, DEFAULT_TOP_N);
    RecommendDistinct(CombinedRow(s, w, user), DEFAULT_TOP_N);
  }
}
