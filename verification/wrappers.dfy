/** `Option`, usable with the `:-` operator, shared by the other modules. */
module Wrappers {

  /** A value that may be absent; `None` stands for a missing (null)
      configuration value or a rejected parse. */
  datatype Option<+T> = None | Some(value: T) {

    /** `:-` stops at an absent value. */
    predicate IsFailure() {
      None?
    }

    /** An absent value, retyped for the enclosing function's result. */
    function PropagateFailure<U>(): Option<U>
      requires None?
    {
      None
    }

    /** The value `:-` binds when one is present. */
    function Extract(): T
      requires Some?
    {
      value
    }
  }
}
