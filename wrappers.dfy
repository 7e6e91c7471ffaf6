/** Small value wrappers shared by every module: an optional value (a TypeScript
    `x?: T` / `T | undefined`) and a success-or-error result (a thrown `Error`). */
module Wrappers {

  datatype Option<+T> = None | Some(value: T)

  datatype Result<+T, +E> = Success(value: T) | Failure(error: E)
}
