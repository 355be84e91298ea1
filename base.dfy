/** Shared value types: bytes, the errors the response rewriter can return,
    and the Result/Option wrappers used for Go's `(value, error)` returns. */
module Base {

  /** A Go `byte`. */
  newtype byte = b: int | 0 <= b < 256

  /** The two failures the body rewrite can surface (main.go:121-123, 127-129). */
  datatype Error =
    | ReadFailed     // the backend connection failed while the body was read
    | GzipInvalid    // the body claimed gzip encoding but did not decode

  datatype Result<T> = Ok(value: T) | Err(error: Error)

  datatype Option<T> = None | Some(value: T)
}
