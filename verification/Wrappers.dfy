/** Result and option types shared by every module. */
module Wrappers {

  datatype Option<+T> = None | Some(value: T)

  /** The error classes of the engine that the model tells apart. */
  datatype Error = Corrupt | Unsupported | BadRead | Aead | Busy

  datatype Result<+T> = Success(value: T) | Failure(error: Error) {
    predicate IsFailure() {
      Failure?
    }

    function PropagateFailure<U>(): Result<U>
      requires Failure?
    {
      Failure(error)
    }

    function Extract(): T
      requires Success?
    {
      value
    }
  }

  /** One byte of a payload, a key or a record. */
  newtype Byte = x: int | 0 <= x < 256

  type Bytes = seq<Byte>

  /** A keyed content hash. */
  type Digest = seq<Byte>
}
