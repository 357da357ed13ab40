/** Option and Result, standing for the source's nullable references and
    for the exception `JoinRoom` throws on a disposed room. */
module Wrappers {

  datatype Option<+T> = None | Some(value: T)

  datatype Result<+R, +E> = Success(value: R) | Failure(error: E)
}
