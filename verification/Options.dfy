/** The failure-compatible result used by every partial operation of the model. */
module Options {

  datatype Option<+T> = None | Some(value: T) {

    predicate IsFailure() {
      None?
    }

    function PropagateFailure<U>(): Option<U>
      requires None?
    {
      None
    }

    function Extract(): T
      requires Some?
    {
      value
    }

    function GetOr(fallback: T): T {
      if Some? then value else fallback
    }
  }
}
