/** Option and Result values standing in for PHP's nullable values and for
    operations that can fail (a database error, an unset typed property). */
module Wrappers {

  /** A value that may be absent; `None` plays the role of PHP's `null`. */
  datatype Option<+T> = None | Some(value: T) {

    /** The wrapped value, or `default` when absent (PHP's `??`). */
    function GetOr(default: T): T {
      match this
      case Some(v) => v
      case None => default
    }
  }

  /** The outcome of an operation that either produces a value or fails. */
  datatype Result<+T, +E> = Success(value: T) | Failure(error: E)

  /** PHP truthiness of a string: the empty string and "0" are falsy. */
  predicate TruthyString(s: string) {
    s != "" && s != "0"
  }

  /** PHP truthiness of a nullable string: `null` is falsy as well. */
  predicate Truthy(s: Option<string>) {
    s.Some? && TruthyString(s.value)
  }
}
