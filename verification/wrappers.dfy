/** Plain optional-value and value-or-error datatypes shared by the model. */
module Wrappers {

  /** An optional value; `None` stands for PHP's FALSE/absent result. */
  datatype Option<+T> = None | Some(value: T) {
    function GetOr(default: T): T {
      match this
      case Some(v) => v
      case None => default
    }
  }

  /** Either a value or the error that PHP would have raised. */
  datatype Result<+R, +E> = Success(value: R) | Failure(error: E)
}
