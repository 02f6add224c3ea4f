/** The optional-value type the program's parsers return. */
module Wrappers {

  /** Rust's `Option<T>`: either no value, or one value of type T. */
  datatype Option<+T> = None | Some(value: T) {

    /** Rust's `Option::map`: applies `f` to a present value and keeps `None` as it is. */
    function Map<U>(f: T -> U): (r: Option<U>)
      ensures r.Some? <==> this.Some?
      ensures r.Some? ==> r.value == f(this.value)
    {
      match this
      case None => None
      case Some(v) => Some(f(v))
    }
  }
}
