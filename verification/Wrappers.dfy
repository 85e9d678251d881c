/** Optional values and results shared by the lexer and the parser. */
module Wrappers {

  datatype Option<T> = None | Some(value: T)

  /** The outcome of a parse: a value, or a failure that carries nothing (parser.ts
      throws one generic error for every kind of mismatch). */
  datatype Result<T> = Success(value: T) | Failure
}
