/**
 * Values shared by the recommendation core: the neighbour pairs of the
 * precomputed similarity table, the rows of the recommendation frame, and
 * the failures the source raises instead of returning a result.
 */
module Types {

  datatype Option<T> = None | Some(value: T)

  /** Why a recommendation call produced no frame (each is a raised exception in the source). */
  datatype Failure =
    | TitleNotFound                  // `[0]` on an empty index of matching rows (IndexError)
    | NeighbourOutOfRange(index: int) // `df.iloc[index]` outside the catalog (IndexError)
    | MissingScoreColumn             // sorting a frame that has no 'Similarity Score' column (KeyError)

  datatype Result<T> = Ok(value: T) | Err(error: Failure)

  /** One `(neighbourIndex, score)` pair of a precomputed neighbour row. */
  datatype Neighbour = Neighbour(index: int, score: real)

  /** One row of the recommendation frame: columns 'Title' and 'Similarity Score'. */
  datatype Rec = Rec(title: string, score: real)

  function Min(a: int, b: int): int
  {
    if a <= b then a else b
  }
}
