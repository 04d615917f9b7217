/** Option and Result, the two failure-carrying wrappers used throughout the model. */
module Wrappers {

  datatype Option<+T> = None | Some(value: T)

  datatype Result<+R, +E> = Success(value: R) | Failure(error: E)

  /** What a Java method does instead of returning: throw or never return. */
  datatype Fault =
    | NullPointer          // a null collection iterated or a null Integer unboxed
    | IndexOutOfBounds     // an array written or read past its end
    | NumberFormat         // Integer.parseInt on text that is not a number
    | Diverges             // a loop that never changes its state again
}
