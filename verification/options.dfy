/** The JavaScript "value or null/absent" convention, as a datatype. */
module Options {

  /** `None` stands for a field that is absent (or a reference that is null). */
  datatype Option<+T> = None | Some(value: T) {

    /** The encapsulated value, or `default` when absent. */
    function GetOr(default: T): (r: T)
      ensures Some? ==> r == value
      ensures None? ==> r == default
    {
      match this
      case Some(v) => v
      case None => default
    }
  }
}
