/** Shared result types. */
module Prelude {

  /** The source's `Option<T>`. */
  datatype Option<+T> = None | Some(value: T)

  /** The source's `Result<T, E>`. */
  datatype Result<+T, +E> = Ok(value: T) | Err(error: E)

  /** An optional value as a sequence of at most one. */
  function ToSeq<T>(o: Option<T>): seq<T> {
    match o
    case None => []
    case Some(v) => [v]
  }

  lemma SubsetSize<T>(a: set<T>, b: set<T>)
    requires a <= b
    ensures |a| <= |b|
  {
    assert b == a + (b - a);
  }
}
