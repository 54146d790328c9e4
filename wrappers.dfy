/** Option and Result, the two wrappers every other module returns. */
module Wrappers {
  datatype Option<T> = None | Some(value: T)

  /** The Rust `Result<T, E>`: a value, or the error the operation reports. */
  datatype Result<T, E> = Ok(value: T) | Err(error: E)

  /** The three answers of `Ord::cmp`. */
  datatype Ordering = Less | Equal | Greater {
    function Reverse(): Ordering
    {
      match this
      case Less => Greater
      case Equal => Equal
      case Greater => Less
    }

    /** `Ordering::then`: this ordering, unless it is `Equal`. */
    function Then(next: Ordering): Ordering
    {
      if this == Equal then next else this
    }
  }
}
