/**
 * The movie catalog as the recommendation core sees it: the 'Title' column,
 * row by row, with the default 0..N-1 row index (so an index label and a
 * row position coincide).
 */
module Catalog {
  import opened Types

  /**
   * `df.index[df['Title'] == title][0]`: the position of the first row whose
   * title equals `title` exactly; None where the source's `[0]` would raise.
   */
  function FindTitle(titles: seq<string>, title: string): (r: Option<nat>)
    ensures r.None? <==> title !in titles
    ensures r.Some? ==> r.value < |titles| && titles[r.value] == title
    ensures r.Some? ==> forall j :: 0 <= j < r.value ==> titles[j] != title
  {
    if titles == [] then None
    else if titles[0] == title then Some(0)
    else
      match FindTitle(titles[1..], title)
      case None => None
      case Some(k) => Some(k + 1)
  }

  /** The guard `selected_movie not in movie_list`, negated: the title is listed. */
  function IsListed(titles: seq<string>, title: string): (b: bool)
    ensures b <==> FindTitle(titles, title).Some?
  {
    title in titles
  }

  /** Any position meeting the first-match description is the one FindTitle resolves to. */
  lemma FirstMatchIsResolution(titles: seq<string>, title: string, i: nat)
    requires i < |titles| && titles[i] == title
    requires forall j :: 0 <= j < i ==> titles[j] != title
    ensures FindTitle(titles, title) == Some(i)
  {
  }

  /** The integer positions `df.iloc` accepts on a frame of `n` rows; negative ones count from the end. */
  predicate ValidNeighbourIndex(n: nat, index: int)
  {
    -(n as int) <= index < n
  }

  /** The row `df.iloc[index]` selects: the index taken modulo the number of rows. */
  function Position(n: nat, index: int): (p: nat)
    requires ValidNeighbourIndex(n, index)
    ensures p < n && p == index % n
  {
    if index < 0 then index + n else index
  }
}
