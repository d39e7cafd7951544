/** Optional values shared by every component model. */
module Wrappers {

  /** A value that may be absent: Go's "ok" flag, Python's None. */
  datatype Option<T> = None | Some(value: T) {
    predicate IsFailure() { None? }

    function PropagateFailure<U>(): Option<U>
      requires None?
    {
      None
    }

    function Extract(): T
      requires Some?
    {
      value
    }
  }

}
