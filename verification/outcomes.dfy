/** Shared optional, result and error types of the scan pipeline. */
module Outcomes {
  /** An optional value, as Rust's `Option`. */
  datatype Option<+T> = None | Some(value: T)

  /** The value of a step that may abort the whole run, as a Rust `Result` propagated with `?`. */
  datatype Result<+T, +E> = Success(value: T) | Failure(error: E)

  /** Why `analyze_folder` returns an error. Each one discards every per-language state built so far. */
  datatype ScanError =
    | Unreadable(path: string)                      // `fs::read_to_string` failed
    | BadPattern(checkId: string, pattern: string)  // `Regex::new` rejected a check's primary pattern
    | ValidationFailed(path: string)                // the external validation call returned an error
}
