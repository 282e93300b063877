/** Datatypes shared by the models of the individual services. */
module Common {
  datatype Option<+T> = None | Some(value: T)

  /** The outcome of an operation that the services may abort with an error. */
  datatype Result<+T> = Ok(value: T) | Err(message: string)

  lemma SubsetIsSmaller<T>(a: set<T>, b: set<T>)
    requires a <= b
    ensures |a| <= |b|
  {
    assert b == a + (b - a);
  }
}
