/** Results and the error values of the store. */
module Wrappers {

  datatype Error =
    | EOF
    | ErrInvalidPara
    | ErrInvalidType
    | ErrEmptyKey
    | ErrUnexpectedValue
    | ErrRecordTooLarge
    | ErrIncompleteRecord
    | ErrFileClosed
    | ErrDbClosed
    | ErrIO  // any failure reported by the operating system

  datatype Option<+T> = None | Some(value: T)

  datatype Result<+T> = Ok(value: T) | Err(error: Error)
}
