# Movie recommendation core

A Dafny model of the recommendation step of a Streamlit movie-recommendation
app. The user picks a movie title. The app checks that the title is in the
catalog, then `get_recommendations` does four things:

- it finds the first catalog row with that exact title;
- it reads that row of a precomputed neighbour table of `(neighbourIndex, score)` pairs;
- it turns each pair into a `(title, score)` entry;
- it sorts the entries by score, highest first, and keeps the first `top_k`.

The catalog is modelled as its `Title` column (`seq<string>`). The neighbour
table is modelled as `seq<seq<Neighbour>>`. Scores are `real`; the core only
compares them. Both inputs are immutable values, so the call cannot modify
the catalog or the table.

Files:

- `types.dfy` (module `Types`): `Option`, `Result`, the `Failure` cases the source raises, `Neighbour`, `Rec` and `Min`.
- `catalog.dfy` (module `Catalog`): title resolution, the membership guard, and the row that `df.iloc` selects for an integer index.
- `ranking.dfy` (module `Ranking`): sort by score and `head(top_k)`, with the as-written ranking of the finding below.
- `recommender.dfy` (module `Recommender`): the mapping loop and the whole call. `MapRow` and `Recommend` are reference definitions. `GetRecommendations` is the source's function with its `for` loop, and with the corrected ranking step (see Findings); it is proved equal to `Recommend`. `RecommendAsWritten` is the call as the source writes it. `RecommendForSelection` is the guard followed by the call with `top_k=10`.

Points where the model is deliberately precise about what the code does:

- **Negative neighbour indices.** `df.iloc[rec_index]` accepts a negative integer position and counts it from the end of the catalog. The model therefore accepts indices in `[-N, N)` and maps them to `index % N`; only indices outside that range fail (not every index outside `[0, N)`).
- **Tie order.** A stable tie order is not promised: `sort_values` defaults to quicksort, which is not stable. The contracts promise only "non-increasing and a permutation".
- **Empty neighbour row.** An empty row is evidently meant to give an empty list. The code raises instead (see Findings).

## Model

| member | source | states |
|---|---|---|
| Catalog.FindTitle | app.py:40 | Resolution fails exactly when no title equals the selection. Otherwise it returns a position holding that exact title with no earlier position holding it, so duplicates resolve to the first occurrence. |
| Catalog.FirstMatchIsResolution | app.py:40 | Converse of the first-match rule: any position holding the title with no earlier match is the one resolution returns. |
| Catalog.IsListed | app.py:18-20 | The guard `selected_movie in movie_list` holds exactly when title resolution succeeds. |
| Catalog.Position | app.py:49 | The row `df.iloc[index]` selects is a valid catalog position equal to the index modulo the catalog size. Negative indices count from the end. |
| Ranking.SortByScore | app.py:58 | The sorted frame is non-increasing by score and is a permutation (same multiset) of its input. |
| Ranking.DroppedNoHigher | app.py:58-60 | Cutting a sorted list after k entries keeps a sub-multiset. Every dropped entry scores no higher than every kept entry. |
| Ranking.Rank | app.py:56-60 | `sort_values(...).head(top_k)` returns min(top_k, n) entries. They are non-increasing, drawn from the input as a sub-multiset, and every dropped entry scores no higher than every kept one. |
| Ranking.ShortListReturnedWhole | app.py:60 | When the list has at most top_k entries, the result is a reordering of all of them. There is no padding and no error. |
| Ranking.RankAsWritten | app.py:56-58 | As written, ranking fails with a missing-column error exactly when the working list is empty. Otherwise it returns the corrected ranking `Rank`: the sorted top_k. |
| Ranking.EmptyRowFailsAsWritten | app.py:56-58 | On an empty list, the as-written ranking fails where the corrected ranking returns the empty list. |
| Recommender.MapRow | app.py:44-54 | Mapping succeeds exactly when every neighbour index selects a catalog row. It then yields one entry per pair, in row order, each equal to `(titles[position], score)`, with no deduplication and no self-match removal. Otherwise it fails naming the first bad index. |
| Recommender.Recommend | app.py:38-60 | The corrected call as a value. It fails with not-found exactly when the title is unlisted and never fails with a missing column. A successful result has at most top_k entries, highest score first. |
| Recommender.RecommendAsWritten | app.py:38-60 | The call as the source writes it. It fails with not-found exactly when the title is unlisted, and with a missing-column error exactly when the title is listed and its neighbour row is empty. A successful result has at most top_k entries, highest score first. |
| Recommender.GetRecommendations | app.py:38-60 | The looping implementation, with the corrected ranking step, returns exactly the reference result `Recommend`. That is a not-found failure, the first out-of-range failure, or the ranked mapped row. |
| Recommender.AsWrittenDiffersOnlyOnEmptyRow | app.py:38-60 | The call as written (`RecommendAsWritten`) and the corrected call give different results exactly when the title is listed and its neighbour row is empty. The source then fails with a missing-column error where the corrected call returns an empty list. |
| Recommender.RecommendForSelection | app.py:18-20 | The app stops with a message exactly when the selection is not a listed title. Otherwise it shows the result for top_k = 10 (the call at app.py:65), which can never be a not-found failure. |
| Recommender.NotFoundIffUnlisted | app.py:40 | The call fails with not-found exactly when no catalog title equals the given title. |
| Recommender.RecommendOfListedTitle | app.py:38-60 | For a listed title, the call succeeds exactly when every index in its row is valid. It then returns min(top_k, row length) entries, non-increasing, drawn from the row's mapped entries, and none of the dropped entries scores above a kept one. |
| Recommender.RecommendedEntriesComeFromRow | app.py:45-49 | Every recommended entry is `(title at a valid catalog position, score)` for some pair of the source movie's neighbour row. |
| Recommender.ThreeMovieExample | app.py:38-60 | On catalog A, B, C with neighbours of A = [(1, 0.9), (2, 0.3)]: A gives [B, C], A with top 1 gives [B], and B (empty row) gives []. The as-written ranking fails on that empty row. |

## Findings

| source | as written | input that shows it | evidently intended | confidence | as-written member | corrected member |
|---|---|---|---|---|---|---|
| app.py:56-58 | `pd.DataFrame([])` has no `Similarity Score` column, so `sort_values(by='Similarity Score')` raises KeyError | a selected title whose neighbour row is empty, e.g. "B" in `ThreeMovieExample` | an empty recommendation list, with no padding and no error | medium; not executed (relies on pandas raising KeyError for a sort key missing from an empty frame) | Ranking.RankAsWritten, Ranking.EmptyRowFailsAsWritten, Recommender.RecommendAsWritten, Recommender.AsWrittenDiffersOnlyOnEmptyRow | Ranking.Rank, Ranking.ShortListReturnedWhole |

The rest of the model (`Recommend`, `GetRecommendations`, `RecommendForSelection`) uses the corrected `Rank`. `RecommendAsWritten` is the whole call as written.

## Left out

- Rank: does not fix the order among equal scores, because `sort_values` defaults to a non-stable quicksort. Only sortedness and permutation are promised.
- GetRecommendations: requires the catalog and the neighbour table to have equal length. A table of a different length is not modelled. A shorter table raises IndexError at app.py:42 only for titles whose first position is at or past its end, and serves every other title normally, still looking neighbours up in the full catalog. A longer one is read without error.
- GetRecommendations: follows the corrected ranking, so on a listed title with an empty neighbour row it returns an empty list where the source raises KeyError. `RecommendAsWritten` and `AsWrittenDiffersOnlyOnEmptyRow` state the source's behaviour there.
- RecommendForSelection: shows the corrected call's result, so the same empty-row difference applies to the button flow.
- Index labels versus positions: the catalog is assumed to carry the default 0..N-1 row index, so the label from `df.index[...]` is also a position.
- Negative `top_k` (pandas' `head(-n)`) is not modelled: `top_k` is a `nat`, and the only call passes 10. `head(0)` is covered and gives the empty list.
- Scores are `real`. Floating-point NaN and its placement by `sort_values` are not modelled.
- Neighbour indices that are not integers (which `iloc` rejects with a TypeError) are not modelled. Indices are `int`.
- Streamlit presentation (title, selectbox, expander, buttons, dataframe rendering) is out of scope. So is the selected-movie info panel, which repeats the first-match lookup for display only.
- Loading the CSV catalog and unpickling the neighbour model is I/O and is not modelled. Both arrive as parameters.
- Multiplying scores by 100 for the progress column is a display transform and is not modelled.
