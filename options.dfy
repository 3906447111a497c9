/** The optional value used wherever the source returns `undefined` or `null`
    for "nothing there", or leaves an optional field out. */
module Options {

  datatype Option<+T> = None | Some(value: T) {

    /** The held value, or `default` when there is none (the `??` / spread-merge idiom). */
    function GetOr(default: T): T {
      match this
      case Some(v) => v
      case None => default
    }
  }
}
