/** Optional values and the outcome of operations that the program aborts with a panic. */
module Wrappers {

  datatype Option<T> = None | Some(value: T) {

    /** The wrapped value, or `default` when there is none (Rust's `unwrap_or`). */
    function GetOr(default: T): T {
      match this
      case Some(v) => v
      case None => default
    }
  }

  /** Why an operation aborted the program (an `expect` or `unwrap` on an error). */
  datatype Panic =
    | CreateDirFailed      // `fs::create_dir_all` on a path that is a file
    | ReadFileFailed       // the file to read does not exist
    | DeserializeFailed    // the file exists but does not hold the expected JSON value
    | QueryFailed          // the database rejected a statement
    | ArithmeticOverflow   // an integer addition left its type's range
    | ConversionFailed     // `try_into().unwrap()` on a value outside the target range

  /** The result of an operation that either completes or panics. */
  datatype Outcome<T> = Done(value: T) | Panicked(reason: Panic)
}
