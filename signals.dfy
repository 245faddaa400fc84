/** The signal data the pipeline reads, every container indexed by the same user position 0 .. n-1. */
module Signals {
  import opened Scorers

  /**
   * interests[u]   the set of interest tags of user u
   * swipes[u]      row u of the 0/1 swipe matrix (u swiped right on v)
   * adjacency[u]   row u of the 0/1 social adjacency matrix
   * distances[u]   the distance of user u, in whole kilometres
   * swipeNorms[u]  the Euclidean norm of swipes[u], supplied from outside because
   *                the model has no real square root
   */
  datatype SignalStore = SignalStore(
    interests: seq<set<string>>,
    swipes: seq<seq<int>>,
    adjacency: seq<seq<int>>,
    distances: seq<int>,
    swipeNorms: seq<real>)
  {
    /** The number of users. */
    function Size(): nat
    {
      |interests|
    }

    /** All four sources describe the same n users in the same order; both matrices are n x n and 0/1. */
    predicate Valid()
    {
      && |swipes| == Size() && |adjacency| == Size()
      && |distances| == Size() && |swipeNorms| == Size()
      && (forall u :: 0 <= u < Size() ==>
            |swipes[u]| == Size() && IsBinary(swipes[u]) && IsNorm(swipeNorms[u], swipes[u]))
      && (forall u :: 0 <= u < Size() ==> |adjacency[u]| == Size() && IsBinary(adjacency[u]))
    }

    /**
     * The distance stage runs without error: the largest distance exists, and it is
     * non-zero whenever some pair of distinct users has to be divided by it.
     */
    predicate DistanceDefined()
    {
      |distances| > 0 && (|distances| > 1 ==> Max(distances) != 0)
    }
  }
}
