/** Option and Result, for the source's nil pointers and error returns. */
module Wrappers {

  datatype Option<+T> = None | Some(value: T)

  datatype Result<+T, +E> = Success(value: T) | Failure(error: E)
}

/** The identifier types of the bridge and the few primitive types its records use. */
module Types {

  /** A WhatsApp JID such as "123@s.whatsapp.net" or "123-456@g.us". */
  type WhatsAppID = string

  /** A Matrix user identifier such as "@alice:example.org". */
  type MatrixUserID = string

  /** A Matrix room identifier. */
  type MatrixRoomID = string

  /** Go's uint64. */
  newtype u64 = x: int | 0 <= x < 0x1_0000_0000_0000_0000

  /** A Go error value; only its message is kept. */
  datatype Error = Error(message: string)
}
