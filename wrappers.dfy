/** Option and Result values, and the choice of an element of a set, shared by the models of the three note stores. */
module Wrappers {

  /** A value that may be absent: `Option<T>` in Rust, `None` in Python. */
  datatype Option<+T> = None | Some(value: T)
  {
    /** The value, or `default` when absent (Rust's `unwrap_or`, Python's `x or default`). */
    function GetOr(default: T): T
    {
      match this
      case Some(v) => v
      case None => default
    }
  }

  /** The outcome of a fallible operation: `Result<T, E>` in Rust. */
  datatype Result<+T, +E> = Ok(value: T) | Err(error: E)

  /** Some element of a nonempty set (the choice is fixed for each set). */
  ghost function Pick<K>(s: set<K>): (x: K)
    requires s != {}
    ensures x in s
  {
    var x :| x in s; x
  }

  /** Takes some element of a nonempty set, as iterating over a table or a hash set does. */
  method PickOne<K>(s: set<K>) returns (x: K)
    requires s != {}
    ensures x in s
  {
    x :| x in s;
  }
}
