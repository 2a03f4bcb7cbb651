/** The optional value used throughout, usable with `:-`. */
module Options {

  datatype Option<+T> = None | Some(value: T) {

    predicate IsFailure() {
      None?
    }

    function PropagateFailure<U>(): Option<U>
      requires None?
    {
      None
    }

    function Extract(): T
      requires Some?
    {
      value
    }

    /** The value if there is one, and `default` if not. */
    function GetOr(default: T): T {
      match this
      case None => default
      case Some(v) => v
    }
  }
}
