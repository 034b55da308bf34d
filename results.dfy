/** The outcome of a computation that can fail, and the one failure the
    summarizer can run into. */
module Results {

  datatype Result<+T, +E> = Success(value: T) | Failure(error: E)

  /** The decile lookup reads row `index` of a frame that has only `rows`
      rows; the only way this happens is an empty holder set. */
  datatype SummaryError = RowOutOfRange(index: int, rows: nat)
}
