/** Option, the failure-compatible result used throughout the model. In the
    importers a `None` result stands for the source's `panic!`/`unwrap` abort. */
module Wrappers {

  datatype Option<+T> = None | Some(value: T) {

    predicate IsFailure() {
      None?
    }

    function PropagateFailure<U>(): Option<U>
      requires None?
    {
      None
    }

    function Extract(): T
      requires Some?
    {
      value
    }
  }
}
