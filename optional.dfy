/** Failure-compatible option type, and the result of scanning one field off the front of a line. */
module Optional {

  datatype Option<+T> = None | Some(value: T) {
    predicate IsFailure() {
      None?
    }

    function PropagateFailure<U>(): Option<U>
      requires None?
    {
      None
    }

    function Extract(): T
      requires Some?
    {
      value
    }
  }

  /** A value read from the front of a text, and the text that follows it. */
  datatype Scan<+T> = Scan(value: T, rest: string)
}
