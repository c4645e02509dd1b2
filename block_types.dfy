/** Value types shared by every part of the block manager model. */
module BlockTypes {

  /** An opaque block identifier. Only equality and ordering are used. */
  type BlockId = nat

  newtype uint8 = x: int | 0 <= x < 0x100

  /** The error kinds the block manager reports. */
  datatype ErrorKind = NotFound | AlreadyExists | IllegalState | OutOfRange

  /** The outcome of an operation that returns no value. */
  datatype Status = Ok | Error(kind: ErrorKind)

  /** The outcome of an operation that returns a value. */
  datatype Result<T> = Success(value: T) | Failure(kind: ErrorKind)

  datatype Option<T> = None | Some(value: T)
}
