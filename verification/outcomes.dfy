/** Failure-compatible result types for the exceptions the retrieval engine raises. */
module Outcomes {

  /** The exceptions of the modelled code, one constructor per kind. */
  datatype Error =
    | NotFitted         // ValueError raised by SimpleEmbeddings.transform before fit
    | NotInitialized    // RuntimeError raised by AIQuerySystem.query before initialize
    | CorpusNotFound    // FileNotFoundError raised when the documents directory is missing
    | PersistenceError  // open/unpickle failure inside VectorStore.load
    | IndexOutOfRange   // IndexError from list indexing with a stale or foreign row/column id

  /** A value that may be absent (a missing dictionary key, a missing file). */
  datatype Option<T> = None | Some(value: T)

  /** Either a value or the exception that aborted the computation. */
  datatype Result<T> = Success(value: T) | Failure(error: Error) {
    predicate IsFailure() {
      Failure?
    }

    function PropagateFailure<U>(): Result<U>
      requires Failure?
    {
      Failure(error)
    }

    function Extract(): T
      requires Success?
    {
      value
    }
  }
}
