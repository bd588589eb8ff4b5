/**
 * `get_recommendations(movie_title, model_df, df, top_k)`: resolve the
 * selected title to its catalog row, read that row of the precomputed
 * neighbour table, turn each `(neighbourIndex, score)` pair into a
 * `(title, score)` entry, and rank the entries. The catalog and the table
 * are immutable values here, so the call cannot change either of them.
 */
module Recommender {
  import opened Types
  import opened Catalog
  import opened Ranking

  /** The number of recommendations the app asks for when the button is pressed. */
  const DefaultTopK: nat := 10

  /** The entry for one neighbour pair: the title at the row `df.iloc` selects, with the pair's score. */
  function Entry(titles: seq<string>, p: Neighbour): Rec
    requires ValidNeighbourIndex(|titles|, p.index)
  {
    Rec(titles[Position(|titles|, p.index)], p.score)
  }

  /**
   * Reference definition of the source's loop: one entry per pair, in row
   * order, or the failure of the first pair whose index `df.iloc` rejects.
   */
  function MapRow(titles: seq<string>, row: seq<Neighbour>): (r: Result<seq<Rec>>)
    ensures r.Ok? <==> forall j :: 0 <= j < |row| ==> ValidNeighbourIndex(|titles|, row[j].index)
    ensures r.Ok? ==> |r.value| == |row|
    ensures r.Ok? ==> forall j :: 0 <= j < |row| ==>
      r.value[j] == Entry(titles, row[j])
    ensures r.Err? ==> exists j :: (0 <= j < |row| && r.error == NeighbourOutOfRange(row[j].index)
      && !ValidNeighbourIndex(|titles|, row[j].index)
      && forall k :: 0 <= k < j ==> ValidNeighbourIndex(|titles|, row[k].index))
    decreases |row|
  {
    if row == [] then Ok([])
    else
      var init := row[..|row| - 1];
      var p := row[|row| - 1];
      assert forall j :: 0 <= j < |init| ==> init[j] == row[j];
      match MapRow(titles, init)
      case Err(e) => Err(e)
      case Ok(recs) =>
        if ValidNeighbourIndex(|titles|, p.index) then Ok(recs + [Entry(titles, p)])
        else Err(NeighbourOutOfRange(p.index))
  }

  /** The whole call as a value: resolution, mapping, then sort and truncation. */
  function Recommend(titles: seq<string>, table: seq<seq<Neighbour>>, title: string, topK: nat): (r: Result<seq<Rec>>)
    requires |titles| == |table|
    ensures r == Err(TitleNotFound) <==> title !in titles
    ensures r.Err? ==> r.error != MissingScoreColumn
    ensures r.Ok? ==> |r.value| <= topK && SortedDesc(r.value)
  {
    match FindTitle(titles, title)
    case None => Err(TitleNotFound)
    case Some(i) =>
      match MapRow(titles, table[i])
      case Err(e) => Err(e)
      case Ok(recs) => Ok(Rank(recs, topK))
  }

  /**
   * The whole call as the source writes it: the same as Recommend except that
   * the ranking step fails on an empty working list.
   */
  function RecommendAsWritten(titles: seq<string>, table: seq<seq<Neighbour>>, title: string, topK: nat): (r: Result<seq<Rec>>)
    requires |titles| == |table|
    ensures r == Err(TitleNotFound) <==> title !in titles
    ensures r == Err(MissingScoreColumn) <==> title in titles && table[FindTitle(titles, title).value] == []
    ensures r.Ok? ==> |r.value| <= topK && SortedDesc(r.value)
  {
    match FindTitle(titles, title)
    case None => Err(TitleNotFound)
    case Some(i) =>
      match MapRow(titles, table[i])
      case Err(e) => Err(e)
      case Ok(recs) => RankAsWritten(recs, topK)
  }

  /**
   * The call as written and the corrected call disagree exactly when the
   * title is listed and its neighbour row is empty: the source then raises
   * where the corrected call returns an empty list.
   */
  lemma AsWrittenDiffersOnlyOnEmptyRow(titles: seq<string>, table: seq<seq<Neighbour>>, title: string, topK: nat)
    requires |titles| == |table|
    ensures var emptyRow := title in titles && table[FindTitle(titles, title).value] == [];
      && (RecommendAsWritten(titles, table, title, topK) != Recommend(titles, table, title, topK) <==> emptyRow)
      && (emptyRow ==> RecommendAsWritten(titles, table, title, topK) == Err(MissingScoreColumn)
                       && Recommend(titles, table, title, topK) == Ok([]))
  {
  }

  /**
   * `get_recommendations`, with the source's loop that appends one entry per
   * neighbour pair, and with the corrected ranking step: on an empty
   * neighbour row it returns an empty list where the source raises (see
   * RecommendAsWritten).
   */
  method GetRecommendations(titles: seq<string>, table: seq<seq<Neighbour>>, title: string, topK: nat)
    returns (r: Result<seq<Rec>>)
    requires |titles| == |table|
    ensures r == Recommend(titles, table, title, topK)
  {
    var found := FindTitle(titles, title);
    if found.None? {
      return Err(TitleNotFound);
    }
    var row := table[found.value];
    var recs: seq<Rec> := [];
    var i := 0;
    while i < |row|
      invariant 0 <= i <= |row|
      invariant |recs| == i
      invariant forall k :: 0 <= k < i ==> ValidNeighbourIndex(|titles|, row[k].index)
      invariant forall k :: 0 <= k < i ==> recs[k] == Entry(titles, row[k])
    {
      var p := row[i];
      if !ValidNeighbourIndex(|titles|, p.index) {
        // `df.iloc[rec_index]` raises here; no partial result escapes
        r := Err(NeighbourOutOfRange(p.index));
        ghost var m := MapRow(titles, row);
        ghost var j :| 0 <= j < |row| && m.error == NeighbourOutOfRange(row[j].index)
          && !ValidNeighbourIndex(|titles|, row[j].index)
          && forall k :: 0 <= k < j ==> ValidNeighbourIndex(|titles|, row[k].index);
        assert j == i;
        return;
      }
      recs := recs + [Entry(titles, p)];
      i := i + 1;
    }
    assert MapRow(titles, row).value == recs;
    r := Ok(Rank(recs, topK));
  }

  /** What pressing "Get Recommendations" yields once the selection has passed the guard. */
  datatype Screen = NotFoundMessage | Results(result: Result<seq<Rec>>)

  /**
   * The app's flow around the call: stop with a message when the selection
   * is not a listed title, otherwise ask for the default number of
   * recommendations.
   */
  method RecommendForSelection(titles: seq<string>, table: seq<seq<Neighbour>>, selected: string)
    returns (screen: Screen)
    requires |titles| == |table|
    ensures screen.NotFoundMessage? <==> selected !in titles
    ensures screen.Results? ==> screen.result == Recommend(titles, table, selected, DefaultTopK)
    ensures screen.Results? ==> screen.result != Err(TitleNotFound)
  {
    if !IsListed(titles, selected) {
      return NotFoundMessage;
    }
    var r := GetRecommendations(titles, table, selected, DefaultTopK);
    screen := Results(r);
  }

  /**
   * An unmatched title fails, and only an unmatched title fails that way;
   * a matched one reads the row at its first occurrence.
   */
  lemma NotFoundIffUnlisted(titles: seq<string>, table: seq<seq<Neighbour>>, title: string, topK: nat)
    requires |titles| == |table|
    ensures Recommend(titles, table, title, topK) == Err(TitleNotFound) <==> title !in titles
  {
  }

  /**
   * For a listed title: the call succeeds exactly when every neighbour index
   * of its row selects a catalog row, and then returns min(topK, |row|)
   * entries, highest score first, drawn from the row's mapped entries, with
   * nothing dropped that scores above anything kept.
   */
  lemma RecommendOfListedTitle(titles: seq<string>, table: seq<seq<Neighbour>>, title: string, topK: nat)
    requires |titles| == |table| && title in titles
    ensures var i := FindTitle(titles, title).value;
      var row := table[i];
      var r := Recommend(titles, table, title, topK);
      && (r.Ok? <==> forall j :: 0 <= j < |row| ==> ValidNeighbourIndex(|titles|, row[j].index))
      && (r.Ok? ==> var recs := MapRow(titles, row).value;
           && |r.value| == Min(topK, |row|)
           && SortedDesc(r.value)
           && multiset(r.value) <= multiset(recs)
           && forall x, y :: x in multiset(recs) - multiset(r.value) && y in r.value ==> x.score <= y.score)
  {
  }

  /** `y` is the entry of some pair of `row` whose index selects a catalog row. */
  ghost predicate EntryOfRow(titles: seq<string>, row: seq<Neighbour>, y: Rec)
  {
    exists j :: 0 <= j < |row| && ValidNeighbourIndex(|titles|, row[j].index) && y == Entry(titles, row[j])
  }

  /**
   * Every recommended title is the catalog title at the row selected by some
   * pair of the source movie's neighbour row, carrying that pair's score.
   */
  lemma RecommendedEntriesComeFromRow(titles: seq<string>, table: seq<seq<Neighbour>>, title: string, topK: nat)
    requires |titles| == |table|
    ensures Recommend(titles, table, title, topK).Ok? ==> title in titles
    ensures Recommend(titles, table, title, topK).Ok? ==>
      forall y :: y in Recommend(titles, table, title, topK).value ==>
        EntryOfRow(titles, table[FindTitle(titles, title).value], y)
  {
    if Recommend(titles, table, title, topK).Err? {
      return;
    }
    var row := table[FindTitle(titles, title).value];
    var m := MapRow(titles, row);
    assert m.Ok?;
    var recs := m.value;
    var r := Rank(recs, topK);
    assert Recommend(titles, table, title, topK) == Ok(r);
    forall y | y in r
      ensures EntryOfRow(titles, row, y)
    {
      assert y in multiset(r);
      assert y in multiset(recs);
      var j :| 0 <= j < |recs| && recs[j] == y;
      assert recs[j] == Entry(titles, row[j]);
    }
  }

  /** The neighbour row of "A" in the three-movie example maps to "B" then "C". */
  lemma ExampleRowMaps()
    ensures MapRow(["A", "B", "C"], [Neighbour(1, 0.9), Neighbour(2, 0.3)])
      == Ok([Rec("B", 0.9), Rec("C", 0.3)])
  {
    var titles := ["A", "B", "C"];
    var row := [Neighbour(1, 0.9), Neighbour(2, 0.3)];
    var m := MapRow(titles, row);
    assert ValidNeighbourIndex(3, row[0].index) && ValidNeighbourIndex(3, row[1].index);
    assert m.Ok? && |m.value| == 2;
    assert m.value[0] == Rec("B", 0.9) && m.value[1] == Rec("C", 0.3);
    assert m.value == [Rec("B", 0.9), Rec("C", 0.3)];
  }

  /**
   * A three-movie catalog where only "A" has neighbours: "A" ranks "B" above
   * "C", a top-1 call keeps only "B", and "B" (an empty row) yields an empty
   * list, whereas the ranking as written fails on that empty row.
   */
  lemma ThreeMovieExample()
    ensures var titles := ["A", "B", "C"];
      var table := [[Neighbour(1, 0.9), Neighbour(2, 0.3)], [], []];
      && Recommend(titles, table, "A", 10) == Ok([Rec("B", 0.9), Rec("C", 0.3)])
      && Recommend(titles, table, "A", 1) == Ok([Rec("B", 0.9)])
      && Recommend(titles, table, "B", 10) == Ok([])
      && RankAsWritten([], 10) == Err(MissingScoreColumn)
  {
    var titles := ["A", "B", "C"];
    var recs := [Rec("B", 0.9), Rec("C", 0.3)];
    assert FindTitle(titles, "A") == Some(0);
    assert FindTitle(titles, "B") == Some(1);
    ExampleRowMaps();
    ExampleRanks();
  }

  /** Ranking the example's two entries keeps their order; a top-1 cut keeps "B". */
  lemma ExampleRanks()
    ensures Rank([Rec("B", 0.9), Rec("C", 0.3)], 10) == [Rec("B", 0.9), Rec("C", 0.3)]
    ensures Rank([Rec("B", 0.9), Rec("C", 0.3)], 1) == [Rec("B", 0.9)]
  {
    ExampleSorts();
    var recs := [Rec("B", 0.9), Rec("C", 0.3)];
    assert Min(10, 2) == 2 && Min(1, 2) == 1;
    assert recs[..2] == recs && recs[..1] == [Rec("B", 0.9)];
  }

  /** Sorting the example's two entries leaves them in place. */
  lemma ExampleSorts()
    ensures SortByScore([Rec("B", 0.9), Rec("C", 0.3)]) == [Rec("B", 0.9), Rec("C", 0.3)]
  {
    var b, c := Rec("B", 0.9), Rec("C", 0.3);
    assert [b, c][1..] == [c] && [c][1..] == [];
    assert SortByScore([c]) == Insert(c, []) == [c];
    assert SortByScore([b, c]) == Insert(b, [c]) == [b, c];
  }
}
