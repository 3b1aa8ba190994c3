/**
 * Values shared by every module: optional values for Java's nullable
 * references, and results that carry the exception an operation throws.
 */
module Wrappers {

  /** A Java reference that may be null: `None` is null. */
  datatype Option<T> = None | Some(value: T)

  /** The exceptions thrown by the library, by kind. */
  datatype Fault =
    | NullPointer                        // java.lang.NullPointerException
    | IllegalArgument                    // java.lang.IllegalArgumentException
    | IndexOutOfBounds                   // IndexOutOfBounds / ArrayIndexOutOfBounds
    | UnsupportedOperation               // java.lang.UnsupportedOperationException
    | Runtime                            // a plain java.lang.RuntimeException
    | ILP(code: int, message: string)    // com.patrikdufresne.ilp.ILPException
    | Native                             // the native solver library rejects the call

  /** The outcome of an operation that either returns a value or throws. */
  datatype Result<T> = Ok(value: T) | Err(error: Fault)
}
