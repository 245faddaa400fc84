# Tinder match recommendations, modelled in Dafny

The recommendation script scores every ordered pair of users on four signals and blends
the scores into one table. It then lists, for each user, the best-scoring other users:

- **content**: Jaccard similarity of the two users' interest sets;
- **collaborative**: cosine similarity of the two users' rows in a 0/1 swipe matrix;
- **social**: the number of connections two users have in common in a 0/1 adjacency matrix,
  divided by the largest such count anywhere in the table (or by 1 when that is 0);
- **distance**: `max(1 - |d_u - d_v| / max_dist, 0)`, where `max_dist` is the largest distance.

Each signal fills an n x n table in nested loops and puts 0 on the diagonal. The four tables
are blended with the weights 0.45 / 0.25 / 0.20 / 0.10. A second loop then overwrites every
diagonal cell with the sentinel -1. `recommend_for_user` sorts one row by descending score
and keeps its first `top_n` entries.

Layout (one module per file):

- `arith.dfy` (`RealArith`): small facts about real multiplication and division.
- `scorers.dfy` (`Scorers`): the four per-pair scorers on plain values, with their properties.
- `signals.dfy` (`Signals`): the signal store. It holds interests, swipe rows, adjacency rows,
  distances and swipe-row norms, all indexed by user position.
- `matrices.dfy` (`ScoreMatrices`): what each cell of each score table holds, the global
  maximum used by the social normalisation, and the loops that fill the tables in place.
- `combiner.dfy` (`Combiner`): the weights, the weighted sum, the blending loop and the
  diagonal sentinel loop.
- `ranker.dfy` (`Ranker`): rankings of a row, the top-N prefix, and what every ranking
  guarantees whatever order it gives to equal scores.
- `pipeline.dfy` (`Pipeline`): the whole run, and the properties of the combined table and
  of the recommendation lists.
- `example.dfy` (`Example`): the five-user data set of the script and a few scores computed
  from it.

Users are positions 0 .. n-1 in the one ordered user list that every signal shares. Score
tables are `array2<real>`, filled cell by cell like the script's preallocated tables.

In these places the script behaves in a way a reader might not expect; the model follows
the script:

- `recommend_for_user` returns `min(top_n, n)` entries for a non-negative `top_n`, so with
  `top_n >= n` the user's own -1 entry is included, in last place.
  `Pipeline.NoSelfRecommendation` therefore needs `topN < n`.
- A negative `top_n` is accepted: `head` then keeps every entry but the last `|top_n|`
  (`Ranker.HeadCount`).
- The order is non-increasing, not strictly decreasing, and equal scores come in no set
  order; they are not ordered by user id.
- The script never checks that the four sources agree on the user set, and never checks the
  weights. Agreement is the precondition `SignalStore.Valid()`. Valid weights
  (`ValidWeights`) are a hypothesis of the bound lemmas only.
- The script does not require distances to be non-negative. Only a largest distance of 0
  with two or more users makes it fail, by dividing by zero. The bound lemmas for the
  distance score assume a positive largest distance instead.

## Model

| member | source | states |
|---|---|---|
| `Scorers.Jaccard` | Tinder_Recommendations.py:35-38 | the content score always lies in [0, 1] |
| `Scorers.JaccardSymmetric` | Tinder_Recommendations.py:35-38 | swapping the two interest sets does not change the score |
| `Scorers.JaccardOneIff` | Tinder_Recommendations.py:35-38 | the score is 1 exactly when the two sets are equal and non-empty |
| `Scorers.JaccardZeroIff` | Tinder_Recommendations.py:35-38 | the score is 0 exactly when the sets are disjoint, which covers the empty-union guard |
| `Scorers.Dot` | Tinder_Recommendations.py:41 | the integer dot product of two equally long swipe rows, as `np.dot` computes it |
| `Scorers.DotSymmetric` | Tinder_Recommendations.py:41 | the dot product of two swipe rows is symmetric |
| `Scorers.DotSelf` | Tinder_Recommendations.py:42 | a row's squared norm is non-negative and is 0 exactly for the all-zero row |
| `Scorers.Cosine` | Tinder_Recommendations.py:40-43 | the dot product divided by the product of the two row norms, or 0 when that product is 0 |
| `Scorers.CosineZeroGuard` | Tinder_Recommendations.py:40-43 | the denominator is 0 exactly when one row is all zero, and then the score is 0 |
| `Scorers.CosineSymmetric` | Tinder_Recommendations.py:40-43 | swapping the two rows does not change the cosine score |
| `Scorers.CosineBounds` | Tinder_Recommendations.py:40-43 | for 0/1 swipe rows the cosine score lies in [0, 1] |
| `Scorers.MutualCount` | Tinder_Recommendations.py:61 | the number of common connections of two rows is at most n |
| `Scorers.MutualCountSymmetric` | Tinder_Recommendations.py:61 | the common-connection count is symmetric, as element-wise AND is |
| `Scorers.Max` | Tinder_Recommendations.py:66 | the largest distance is one of the distances and no distance exceeds it |
| `Scorers.Decay` | Tinder_Recommendations.py:73-74 | with a positive largest distance the decay lies in [0, 1]; it is 1 for a zero gap |
| `Scorers.DecayMonotone` | Tinder_Recommendations.py:73-74 | a wider distance gap never gives a higher score |
| `ScoreMatrices.PairScore` | Tinder_Recommendations.py:48-74 | the score each of the four scorers gives two distinct users: Jaccard of interests, cosine of swipe rows, common-connection count, or distance decay against the largest distance |
| `ScoreMatrices.RawScore` | Tinder_Recommendations.py:45-74 | cell (u, v) of a scorer's table: 0 on the diagonal, the pair score elsewhere |
| `ScoreMatrices.BuildMatrix` | Tinder_Recommendations.py:45-74 | each of the four loops fills the n x n table with the scorer's value off the diagonal and 0 on it |
| `ScoreMatrices.RawScoreSymmetric` | Tinder_Recommendations.py:46-74 | every one of the four score tables is symmetric |
| `ScoreMatrices.RawScoreBounds` | Tinder_Recommendations.py:46-74 | content, collaborative and distance cells lie in [0, 1]; mutual counts lie in [0, n] |
| `ScoreMatrices.SameDistanceScoresOne` | Tinder_Recommendations.py:70-74 | two distinct users at the same distance get distance score 1 |
| `ScoreMatrices.DistanceScoreMonotone` | Tinder_Recommendations.py:70-74 | off the diagonal, the pair with the wider distance gap never scores higher |
| `ScoreMatrices.MaxMutual` | Tinder_Recommendations.py:63 | the largest entry of the whole mutual-count table, diagonal included |
| `ScoreMatrices.MaxMutualIsMax` | Tinder_Recommendations.py:63 | the social divisor's maximum is taken over the whole count table: it bounds every cell and equals one |
| `ScoreMatrices.MaxEntry` | Tinder_Recommendations.py:63 | the loop returns an entry of the table that no entry exceeds |
| `ScoreMatrices.Scale` | Tinder_Recommendations.py:64 | the new table holds every entry divided by the divisor |
| `ScoreMatrices.SocialDivisor` | Tinder_Recommendations.py:63 | the divisor is the largest count when that is positive and 1 otherwise, so it is always positive |
| `ScoreMatrices.SocialScore` | Tinder_Recommendations.py:64 | cell (u, v) of the social table: the mutual count divided by the social divisor |
| `ScoreMatrices.NormaliseSocial` | Tinder_Recommendations.py:63-64 | every social cell is its count divided by the global maximum count, or by 1 when that is 0 |
| `ScoreMatrices.SocialSymmetric` | Tinder_Recommendations.py:58-64 | the social score table is symmetric |
| `ScoreMatrices.SocialBounds` | Tinder_Recommendations.py:63-64 | every social score lies in [0, 1] |
| `ScoreMatrices.SocialReachesOne` | Tinder_Recommendations.py:63-64 | some social score is exactly 1 if and only if some pair shares a connection |
| `ScoreMatrices.SocialAllZeroIff` | Tinder_Recommendations.py:63-64 | the social table is all zero if and only if no pair shares a connection |
| `Combiner.DefaultWeightsValid` | Tinder_Recommendations.py:76 | the script's weights are non-negative and sum to 1 |
| `Combiner.Blend` | Tinder_Recommendations.py:78-81 | the weighted sum of one pair's content, collaborative, social and distance scores |
| `Combiner.BlendInUnit` | Tinder_Recommendations.py:78-81 | with valid weights and components in [0, 1], the weighted sum lies in [0, 1] |
| `Combiner.Combine` | Tinder_Recommendations.py:78-81 | every cell of the new table is the weighted sum of the four component cells |
| `Combiner.ExcludeSelf` | Tinder_Recommendations.py:83-84 | every diagonal cell becomes -1 and no other cell changes |
| `Pipeline.CombinedScore` | Tinder_Recommendations.py:78-84 | cell (u, v) of the final table: -1 on the diagonal, the blended score elsewhere |
| `Pipeline.Run` | Tinder_Recommendations.py:45-84 | each off-diagonal combined cell is exactly the weighted sum of its content, collaborative, social and distance scores; each diagonal cell is -1 |
| `Pipeline.CombinedSymmetric` | Tinder_Recommendations.py:78-84 | the combined table is symmetric |
| `Pipeline.CombinedInUnit` | Tinder_Recommendations.py:76-81 | with valid weights every off-diagonal combined score lies in [0, 1] |
| `Pipeline.SentinelBelowAll` | Tinder_Recommendations.py:83-84 | every diagonal cell is strictly below every off-diagonal cell |
| `Pipeline.NoSelfRecommendation` | Tinder_Recommendations.py:83-88 | a user asking for fewer than n recommendations never gets themself |
| `Pipeline.NoSelfInAnyRanking` | Tinder_Recommendations.py:83-88 | the same for every ranking of the row, whatever order the unstable sort gives to equal scores |
| `Pipeline.DefaultRecommendations` | Tinder_Recommendations.py:86-88 | with the default `top_n = 3` and more than three users, each list holds exactly three entries, for three different users, none of them the user |
| `Ranker.HeadCount` | Tinder_Recommendations.py:88 | `head(k)` keeps min(k, n) entries for k >= 0 and all but the last -k for k < 0; fewer than n whenever k < n and n > 0 |
| `Ranker.SortDescending` | Tinder_Recommendations.py:87 | the sorted row is a permutation of the row with non-increasing scores |
| `Ranker.Recommend` | Tinder_Recommendations.py:86-88 | the list has HeadCount(top_n, n) entries, non-increasing, each a column of the row with that column's score |
| `Ranker.RecommendForUser` | Tinder_Recommendations.py:86-88 | the same, read from the user's row of the combined table |
| `Ranker.RecommendIsRankingPrefix` | Tinder_Recommendations.py:87-88 | the list is the first HeadCount(top_n, n) entries of a ranking of the whole row |
| `Ranker.RecommendIsTop` | Tinder_Recommendations.py:87-88 | no candidate left out scores higher than any candidate returned |
| `Ranker.RecommendDistinct` | Tinder_Recommendations.py:87-88 | no candidate is returned twice |
| `Ranker.RecommendOmitsStrictMinimum` | Tinder_Recommendations.py:87-88 | a candidate scoring strictly below all others is not returned when top_n < n |
| `Example.ContentOfFirstPair` | Tinder_Recommendations.py:8-9 | U1 and U2 share two of six interests: content score 2/6 |
| `Example.DistanceOfFirstPair` | Tinder_Recommendations.py:15 | the largest distance is 12; U1 and U2 get distance score 1 - 2/12 |
| `Example.MutualOfTwoPairs` | Tinder_Recommendations.py:26-33 | U1 and U4 have two common connections; U2 and U3 have none |
| `Example.SwipeOverlapOfFirstPair` | Tinder_Recommendations.py:17-24 | the swipe rows of U1 and U2 overlap in one column; their squared norms are 3 and 2 |

## Left out

- The square root in `np.linalg.norm` (line 42): the model has no real square root. Each
  swipe row's Euclidean norm is an input (`SignalStore.swipeNorms`). It is tied to the row
  by `IsNorm`: non-negative, and its square is the row's dot product with itself.
- Floating point: scores are exact `real`s, with no rounding and no IEEE special values.
- pandas and numpy plumbing: user labels, `.loc`, `.values` and `astype` become plain
  positions into sequences and arrays. An unknown user (a `KeyError` from `.loc`) is excluded
  by the precondition `user < n`.
- The tie order of `sort_values`: `Ranker.SortDescending` is an insertion sort, which is
  one valid order. `Ranker.RankingEntries`, `Ranker.RankingDistinct`,
  `Ranker.RankingPrefixIsTop`, `Ranker.RankingStrictMinimumLast` and
  `Pipeline.NoSelfInAnyRanking` hold for every ranking, whatever order it gives to equal
  scores. `Ranker.RecommendIsTop`, `Ranker.RecommendDistinct`,
  `Ranker.RecommendOmitsStrictMinimum` and `Pipeline.NoSelfRecommendation` are stated for
  the insertion-sort order.
- Bitwise AND (line 61) on entries other than 0 and 1: `SignalStore.Valid()` requires the
  adjacency rows to be 0/1, as the script's data on lines 26-33 is.
- `SignalStore.Valid()` also requires 0/1 swipe rows (lines 17-24). Only
  `Scorers.CosineBounds` needs this; the script's cosine accepts any numbers.
- `SignalStore.DistanceDefined()`: the division by zero on line 74 (two or more users,
  largest distance 0) is excluded by this precondition, not modelled as an error.
- `ScoreMatrices.BuildMatrix`: the distance loop takes the largest distance (line 66) inside
  each cell's score rather than once before the loop. This is the same pure value.
- `ScoreMatrices.MaxEntry` requires a non-empty table, and the run requires at least one
  user: numpy's `max` of an empty array and Python's `max` of no distances both raise.
- `ScoreMatrices.Scale` requires a non-zero divisor. The guard on line 63 always supplies one.
- `ScoreMatrices.BuildMatrix`, `ScoreMatrices.Scale`: neither promises that the table it
  returns is newly allocated. No caller needs that; `Combiner.Combine` does promise it.
- Printing (lines 90-93, 96) and the CSV export (line 95) are I/O. The round trip of the
  exported file is not modelled.
