/** Optional values and results with an error, for the places where the game
    either has no value (`gameOverAt` is `null` while playing) or throws. */
module Wrappers {

  datatype Option<+T> = None | Some(value: T)

  datatype Result<+T, +E> = Success(value: T) | Failure(error: E)
}
