/** Ranking one user's row of the combined matrix and keeping its first top-N entries. */
module Ranker {

  /** One ranked candidate: its user position and its score. */
  datatype Entry = Entry(candidate: nat, score: real)

  /** The script's default list length. */
  const DEFAULT_TOP_N: int := 3

  function Min(a: nat, b: nat): nat
  {
    if a <= b then a else b
  }

  /**
   * How many of n sorted entries pandas' head(topN) keeps: the first min(topN, n) for a
   * non-negative topN, and every entry but the last |topN| for a negative one.
   */
  function HeadCount(topN: int, n: nat): (k: nat)
    ensures k <= n
    ensures topN >= 0 ==> k == Min(topN, n)
    ensures topN < 0 ==> k + Min(-topN, n) == n
    ensures 0 < n && topN < n ==> k < n
  {
    if topN >= 0 then Min(topN, n)
    else if n + topN > 0 then n + topN
    else 0
  }

  /** The (candidate, score) entries of a row, in column order. */
  function Enumerate(row: seq<real>): (r: seq<Entry>)
    ensures |r| == |row|
    ensures forall i :: 0 <= i < |row| ==> r[i] == Entry(i, row[i])
  {
    seq(|row|, i requires 0 <= i < |row| => Entry(i, row[i]))
  }

  /** Scores never increase along the sequence. */
  predicate SortedDesc(t: seq<Entry>)
  {
    forall i, j :: 0 <= i < j < |t| ==> t[i].score >= t[j].score
  }

  /** t is a ranking of row: every entry of the row exactly once, scores non-increasing, ties in any order. */
  predicate IsRanking(row: seq<real>, t: seq<Entry>)
  {
    |t| == |row| && SortedDesc(t) && multiset(t) == multiset(Enumerate(row))
  }

  function Insert(x: Entry, t: seq<Entry>): (r: seq<Entry>)
    requires SortedDesc(t)
    ensures |r| == |t| + 1
    ensures SortedDesc(r)
    ensures multiset(r) == multiset(t) + multiset{x}
  {
    if |t| == 0 || x.score >= t[0].score then
      PrependSorted(x, t);
      [x] + t
    else
      var rest := Insert(x, t[1..]);
      assert t == [t[0]] + t[1..];
      MembersOfAddition(rest, t[1..], x);
      PrependSorted(t[0], rest);
      [t[0]] + rest
  }

  lemma PrependSorted(y: Entry, t: seq<Entry>)
    requires SortedDesc(t)
    requires forall e :: e in t ==> e.score <= y.score
    ensures SortedDesc([y] + t)
  {
    forall i, j | 0 <= i < j < |t| + 1 ensures ([y] + t)[i].score >= ([y] + t)[j].score {
      if i > 0 {
        assert ([y] + t)[i] == t[i - 1];
      }
      assert ([y] + t)[j] == t[j - 1];
    }
  }

  lemma MembersOfAddition(a: seq<Entry>, b: seq<Entry>, x: Entry)
    requires multiset(a) == multiset(b) + multiset{x}
    ensures forall e :: e in a ==> e == x || e in b
  {
    forall e | e in a ensures e == x || e in b {
      assert e in multiset(a);
    }
  }

  /** Sorts by descending score (insertion sort; which of several equal scores comes first is not specified). */
  function SortDescending(t: seq<Entry>): (r: seq<Entry>)
    ensures |r| == |t|
    ensures SortedDesc(r)
    ensures multiset(r) == multiset(t)
  {
    if |t| == 0 then []
    else
      assert t == [t[0]] + t[1..];
      Insert(t[0], SortDescending(t[1..]))
  }

  /** The first HeadCount(topN, n) entries of the row sorted by descending score. */
  function Recommend(row: seq<real>, topN: int): (r: seq<Entry>)
    ensures |r| == HeadCount(topN, |row|)
    ensures SortedDesc(r)
    ensures forall i :: 0 <= i < |r| ==> r[i].candidate < |row| && r[i].score == row[r[i].candidate]
  {
    var t := SortDescending(Enumerate(row));
    RankingEntries(row, t);
    t[..HeadCount(topN, |row|)]
  }

  /** Row u of a table. */
  function Row(c: array2<real>, u: nat): (r: seq<real>)
    reads c
    requires u < c.Length0
    ensures |r| == c.Length1
    ensures forall v :: 0 <= v < c.Length1 ==> r[v] == c[u, v]
  {
    seq(c.Length1, v requires 0 <= v < c.Length1 reads c => c[u, v])
  }

  /** The top-N recommendations for `user`, read from the combined score table. */
  function RecommendForUser(c: array2<real>, user: nat, topN: int): (r: seq<Entry>)
    reads c
    requires user < c.Length0
    ensures |r| == HeadCount(topN, c.Length1)
    ensures SortedDesc(r)
    ensures forall i :: 0 <= i < |r| ==> r[i].candidate < c.Length1 && r[i].score == c[user, r[i].candidate]
  {
    Recommend(Row(c, user), topN)
  }

  // ---------------------------------------------------------------------------
  // Properties of every ranking, whatever order it gives to equal scores
  // ---------------------------------------------------------------------------

  lemma RankingEntries(row: seq<real>, t: seq<Entry>)
    requires multiset(t) == multiset(Enumerate(row))
    ensures forall i :: 0 <= i < |t| ==> t[i].candidate < |row| && t[i].score == row[t[i].candidate]
  {
    forall i | 0 <= i < |t| ensures t[i].candidate < |row| && t[i].score == row[t[i].candidate] {
      assert t[i] in multiset(Enumerate(row));
    }
  }

  lemma {:induction false} CountAtMostOne(s: seq<Entry>, x: Entry)
    requires forall i, j :: 0 <= i < j < |s| ==> s[i] != s[j]
    ensures multiset(s)[x] <= 1
  {
    if |s| > 0 {
      assert s == [s[0]] + s[1..];
      CountAtMostOne(s[1..], x);
      if x == s[0] {
        assert x !in s[1..];
      }
    }
  }

  lemma CountTwice(t: seq<Entry>, i: nat, j: nat)
    requires i < j < |t| && t[i] == t[j]
    ensures multiset(t)[t[i]] >= 2
  {
    assert t == t[..j] + [t[j]] + t[j + 1..];
    assert t[i] in t[..j];
  }

  /** No candidate appears twice in a ranking. */
  lemma RankingDistinct(row: seq<real>, t: seq<Entry>)
    requires multiset(t) == multiset(Enumerate(row))
    ensures forall i, j :: 0 <= i < j < |t| ==> t[i].candidate != t[j].candidate
  {
    RankingEntries(row, t);
    forall i, j | 0 <= i < j < |t| ensures t[i].candidate != t[j].candidate {
      if t[i].candidate == t[j].candidate {
        CountTwice(t, i, j);
        CountAtMostOne(Enumerate(row), t[i]);
      }
    }
  }

  /** Where a ranking places a given entry of the row. */
  lemma PositionOf(row: seq<real>, t: seq<Entry>, c: nat) returns (p: nat)
    requires multiset(t) == multiset(Enumerate(row)) && c < |row|
    ensures p < |t| && t[p] == Entry(c, row[c])
  {
    assert Enumerate(row)[c] == Entry(c, row[c]);
    assert Entry(c, row[c]) in multiset(t);
    p :| 0 <= p < |t| && t[p] == Entry(c, row[c]);
  }

  /** No candidate left out of a ranking's first k entries scores higher than one kept. */
  lemma RankingPrefixIsTop(row: seq<real>, t: seq<Entry>, k: nat, c: nat)
    requires IsRanking(row, t) && k <= |t| && c < |row|
    requires forall i :: 0 <= i < k ==> t[i].candidate != c
    ensures forall i :: 0 <= i < k ==> t[i].score >= row[c]
  {
    var p := PositionOf(row, t, c);
  }

  /** A candidate scoring strictly below all others comes last in every ranking. */
  lemma RankingStrictMinimumLast(row: seq<real>, t: seq<Entry>, user: nat)
    requires IsRanking(row, t) && user < |row|
    requires forall j :: 0 <= j < |row| && j != user ==> row[user] < row[j]
    ensures forall i :: 0 <= i < |t| - 1 ==> t[i].candidate != user
  {
    RankingEntries(row, t);
    RankingDistinct(row, t);
    var last := |t| - 1;
    forall i | 0 <= i < last ensures t[i].candidate != user {
      if t[last].candidate != user {
        assert row[user] < t[last].score <= t[i].score;
      }
    }
  }

  // ---------------------------------------------------------------------------
  // Properties of the recommendation list
  // ---------------------------------------------------------------------------

  /** The recommendation list is the first HeadCount(topN, n) entries of a ranking of the row. */
  lemma RecommendIsRankingPrefix(row: seq<real>, topN: int)
    ensures exists t :: IsRanking(row, t) && Recommend(row, topN) == t[..HeadCount(topN, |row|)]
  {
    var t := SortDescending(Enumerate(row));
    assert IsRanking(row, t) && Recommend(row, topN) == t[..HeadCount(topN, |row|)];
  }

  /** Every candidate not recommended scores no higher than every candidate recommended. */
  lemma RecommendIsTop(row: seq<real>, topN: int, c: nat)
    requires c < |row|
    requires forall e :: e in Recommend(row, topN) ==> e.candidate != c
    ensures forall e :: e in Recommend(row, topN) ==> e.score >= row[c]
  {
    var t := SortDescending(Enumerate(row));
    var k := HeadCount(topN, |row|);
    assert Recommend(row, topN) == t[..k];
    forall i | 0 <= i < k ensures t[i].candidate != c {
      assert t[i] in Recommend(row, topN);
    }
    RankingPrefixIsTop(row, t, k, c);
  }

  /** No candidate is recommended twice. */
  lemma RecommendDistinct(row: seq<real>, topN: int)
    ensures forall i, j :: 0 <= i < j < |Recommend(row, topN)| ==>
      Recommend(row, topN)[i].candidate != Recommend(row, topN)[j].candidate
  {
    var t := SortDescending(Enumerate(row));
    RankingDistinct(row, t);
    assert Recommend(row, topN) == t[..HeadCount(topN, |row|)];
  }

  /** When fewer than n entries are asked for, a candidate scoring strictly below all others is never returned. */
  lemma RecommendOmitsStrictMinimum(row: seq<real>, topN: int, user: nat)
    requires user < |row| && topN < |row|
    requires forall j :: 0 <= j < |row| && j != user ==> row[user] < row[j]
    ensures forall e :: e in Recommend(row, topN) ==> e.candidate != user
  {
    var t := SortDescending(Enumerate(row));
    RankingStrictMinimumLast(row, t, user);
    var k := HeadCount(topN, |row|);
    assert Recommend(row, topN) == t[..k];
    forall e | e in Recommend(row, topN) ensures e.candidate != user {
      var i :| 0 <= i < k && Recommend(row, topN)[i] == e;
      assert e == t[i];
    }
  }
}
