/** An optional value: Python's `None`-or-value and JavaScript's missing property. */
module Maybe {

  datatype Option<+T> = None | Some(value: T) {

    /** The carried value, or `default` when there is none (Python's `x or default` on optionals). */
    function GetOr(default: T): T
    {
      match this
      case Some(v) => v
      case None => default
    }
  }
}
