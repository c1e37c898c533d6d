module Wrappers {
  datatype Option<+T> = None | Some(value: T) {
    predicate IsFailure() {
      None?
    }

    function PropagateFailure<U>(): Option<U>
      requires None?
    {
      None
    }

    function Extract(): T
      requires Some?
    {
      value
    }
  }

  type Bytes = seq<bv8>

  function Min(a: int, b: int): int {
    if a <= b then a else b
  }

  datatype Result<+T, +E> = Ok(value: T) | Err(error: E)
}
