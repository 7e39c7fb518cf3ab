/** The optional-value datatype used across the model: a C/C++ NULL pointer,
    `std::string::npos` or a missing JSON member all become `None`. */
module Wrappers {

  datatype Option<+T> = None | Some(value: T) {

    /** The carried value, or `default` standing in for the null/npos case. */
    function GetOr(default: T): T {
      match this
      case Some(v) => v
      case None => default
    }
  }
}
