/** Result types and a set fact shared by the other modules. */
module Wrappers {

  datatype Option<+T> = None | Some(value: T)

  datatype Result<+T, +E> = Ok(value: T) | Err(error: E)

  /** What a call does: it returns a value, or an assertion, an `unwrap` or an
      index fails and the thread unwinds. */
  datatype Outcome<+T> = Returned(value: T) | Panicked

  lemma SubsetSize<T>(a: set<T>, b: set<T>)
    requires a <= b
    ensures |a| <= |b|
  {
    assert b == a + (b - a);
  }
}
