/**
 * The last two steps of a recommendation call: `sort_values(by='Similarity
 * Score', ascending=False)` followed by `head(top_k)`. pandas' default sort
 * is not stable, so only "non-increasing and a permutation" is promised;
 * the order among equal scores is left open.
 */
module Ranking {
  import opened Types

  /** Scores never increase from one row to a later one. */
  predicate SortedDesc(s: seq<Rec>)
  {
    forall i, j :: 0 <= i < j < |s| ==> s[i].score >= s[j].score
  }

  /** Places `x` into a list already sorted highest score first. */
  function Insert(x: Rec, s: seq<Rec>): (r: seq<Rec>)
    requires SortedDesc(s)
    ensures SortedDesc(r)
    ensures multiset(r) == multiset(s) + multiset{x}
    ensures |r| == |s| + 1
    ensures forall k :: 0 <= k < |r| ==> r[k].score <= x.score || r[k] in s
  {
    if s == [] || x.score >= s[0].score then [x] + s
    else
      var t := Insert(x, s[1..]);
      assert s == [s[0]] + s[1..];
      assert forall k :: 0 <= k < |t| ==> t[k].score <= s[0].score;
      [s[0]] + t
  }

  /** The frame sorted by score, highest first. */
  function SortByScore(s: seq<Rec>): (r: seq<Rec>)
    ensures SortedDesc(r)
    ensures multiset(r) == multiset(s)
    ensures |r| == |s|
  {
    if s == [] then []
    else
      assert s == [s[0]] + s[1..];
      Insert(s[0], SortByScore(s[1..]))
  }

  /**
   * Cutting a sorted list after `k` entries drops nothing that scores higher
   * than something kept, and what is kept is a sub-multiset of the whole.
   */
  lemma {:induction false} DroppedNoHigher(s: seq<Rec>, k: nat)
    requires SortedDesc(s) && k <= |s|
    ensures multiset(s[..k]) <= multiset(s)
    ensures forall x, y :: x in multiset(s) - multiset(s[..k]) && y in s[..k] ==> x.score <= y.score
  {
    assert s == s[..k] + s[k..];
    assert multiset(s) - multiset(s[..k]) == multiset(s[k..]);
    forall x, y | x in multiset(s) - multiset(s[..k]) && y in s[..k]
      ensures x.score <= y.score
    {
      assert x in s[k..];
      var i :| k <= i < |s| && s[i] == x;
      var j :| 0 <= j < k && s[j] == y;
    }
  }

  /**
   * `sort_values(...).head(topK)`: the `topK` best-scoring entries, highest
   * first (all of them when there are fewer than `topK`).
   */
  function Rank(recs: seq<Rec>, topK: nat): (r: seq<Rec>)
    ensures |r| == Min(topK, |recs|)
    ensures SortedDesc(r)
    ensures multiset(r) <= multiset(recs)
    ensures forall x, y :: x in multiset(recs) - multiset(r) && y in r ==> x.score <= y.score
  {
    var sorted := SortByScore(recs);
    DroppedNoHigher(sorted, Min(topK, |recs|));
    sorted[..Min(topK, |recs|)]
  }

  /** A list no longer than `topK` comes back whole: a reordering of all its entries. */
  lemma ShortListReturnedWhole(recs: seq<Rec>, topK: nat)
    requires |recs| <= topK
    ensures multiset(Rank(recs, topK)) == multiset(recs)
  {
    var r := Rank(recs, topK);
    var extra := multiset(recs) - multiset(r);
    assert multiset(recs) == multiset(r) + extra;
    assert |multiset(recs)| == |multiset(r)| + |extra|;
    assert |extra| == 0;
  }

  /**
   * The ranking step as the source writes it: `pd.DataFrame([])` has no
   * 'Similarity Score' column, so sorting the frame built from an empty
   * neighbour row raises instead of returning an empty frame.
   */
  function RankAsWritten(recs: seq<Rec>, topK: nat): (r: Result<seq<Rec>>)
    ensures r.Err? <==> recs == []
    ensures r.Err? ==> r.error == MissingScoreColumn
    ensures r.Ok? ==> r.value == Rank(recs, topK)
    ensures r.Ok? ==> |r.value| == Min(topK, |recs|) && SortedDesc(r.value)
  {
    if recs == [] then Err(MissingScoreColumn) else Ok(Rank(recs, topK))
  }

  /** The discrepancy: on an empty row the source fails where an empty ranking is intended. */
  lemma EmptyRowFailsAsWritten(topK: nat)
    ensures RankAsWritten([], topK) == Err(MissingScoreColumn)
    ensures Rank([], topK) == []
  {
  }
}
