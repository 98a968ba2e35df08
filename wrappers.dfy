/** The nullable values of the estimator (`int | None`). */
module Wrappers {

  datatype Option<+T> = None | Some(value: T)

}
