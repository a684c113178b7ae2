/** Failure-compatible wrappers, and one sequence fact, shared by the modules of the model. */
module Wrappers {

  /** A value that may be absent: Python's `None`, C++'s null pointer or end iterator. */
  datatype Option<+T> = None | Some(value: T)

  /** The outcome of an operation that either succeeds with a value or raises an error
      (`mooseError`, a Python exception). */
  datatype Result<+T, +E> = Ok(value: T) | Err(error: E)

  /** Regrouping a concatenation, stated once so that callers need not prove it again in
      their own heavier contexts. */
  lemma AppendAssoc<T>(a: seq<T>, b: seq<T>, c: seq<T>)
    ensures (a + b) + c == a + (b + c)
  {
  }
}
