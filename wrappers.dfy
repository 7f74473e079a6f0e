/** Failure-carrying values used in place of Python's `None` defaults and raised exceptions. */
module Wrappers {

  /** An optional value: `None` stands for Python's `None`. */
  datatype Option<+T> = None | Some(value: T)

  /** The outcome of an operation that either returns a value or raises an error. */
  datatype Result<+T, +E> = Ok(value: T) | Err(error: E)

  /**
   * Python's `x or default` on an optional integer: `None` and `0` are both falsy,
   * so either one is replaced by the default.
   */
  function OrDefault(x: Option<int>, default: int): (r: int)
    ensures x.Some? && x.value != 0 ==> r == x.value
    ensures x.None? || x.value == 0 ==> r == default
    ensures default != 0 ==> r != 0
  {
    match x
    case Some(v) => if v != 0 then v else default
    case None => default
  }

  /** Python truthiness of an optional integer. */
  predicate Truthy(x: Option<int>) {
    x.Some? && x.value != 0
  }
}
