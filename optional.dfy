/** The absent-or-present value used for the application's nullable fields
    (`string | null`, optional properties, a failed `find`). */
module Optional {

  datatype Option<+T> = None | Some(value: T) {

    /** The value, or `fallback` when absent: JavaScript's `x ?? fallback`. */
    function GetOr(fallback: T): T {
      match this
      case Some(v) => v
      case None => fallback
    }
  }
}
