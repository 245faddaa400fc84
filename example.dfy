/** The five-user data set the script ships with, as a concrete instance of the model. */
module Example {
  import opened Scorers

  const INTERESTS: seq<set<string>> := [
    {"music", "movies", "hiking", "coding"},
    {"music", "cooking", "travel", "coding"},
    {"anime", "gaming", "coding"},
    {"movies", "travel", "coffee", "hiking"},
    {"music", "hiking", "travel", "photography"}
  ]

  const DISTANCES: seq<int> := [5, 3, 12, 7, 4]

  const SWIPES: seq<seq<int>> := [
    [0, 1, 0, 1, 1],
    [1, 0, 0, 1, 0],
    [0, 0, 0, 1, 0],
    [0, 1, 1, 0, 1],
    [1, 0, 0, 1, 0]
  ]

  const ADJACENCY: seq<seq<int>> := [
    [0, 1, 0, 1, 1],
    [1, 0, 1, 1, 0],
    [0, 1, 0, 0, 0],
    [1, 1, 0, 0, 1],
    [1, 0, 0, 1, 0]
  ]

  /** Users U1 and U2 share two of six interests. */
  lemma ContentOfFirstPair()
    ensures Jaccard(INTERESTS[0], INTERESTS[1]) == 2.0 / 6.0
  {
    assert INTERESTS[0] * INTERESTS[1] == {"music", "coding"};
    assert INTERESTS[0] + INTERESTS[1] == {"music", "movies", "hiking", "coding", "cooking", "travel"};
  }

  /** The largest distance is 12, so U1 (5 km) and U2 (3 km) get distance score 1 - 2/12. */
  lemma DistanceOfFirstPair()
    ensures Max(DISTANCES) == 12
    ensures Decay(Abs(DISTANCES[0] - DISTANCES[1]), Max(DISTANCES)) == 1.0 - 2.0 / 12.0
  {
  }

  /** U1 and U4 have two connections in common (U2 and U5); U2 and U3 have none. */
  lemma MutualOfTwoPairs()
    ensures MutualCount(ADJACENCY[0], ADJACENCY[3]) == 2
    ensures MutualCount(ADJACENCY[1], ADJACENCY[2]) == 0
  {
  }

  /** U1 swiped right on U2, U4 and U5, and U2 on U1 and U4: the rows share one column. */
  lemma SwipeOverlapOfFirstPair()
    ensures Dot(SWIPES[0], SWIPES[1]) == 1
    ensures Dot(SWIPES[0], SWIPES[0]) == 3 && Dot(SWIPES[1], SWIPES[1]) == 2
  {
  }
}
