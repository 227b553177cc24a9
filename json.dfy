/** The parts of `serde_json` (and of Rust's `std`) that the crate builds on:
    bytes, `Option`, `Result`, the generic JSON value and the error type. */
module Json {

  newtype byte = x: int | 0 <= x < 256

  /** The JSON Lines record separator `\n`. */
  const NEWLINE: byte := 10

  datatype Option<+T> = None | Some(value: T)

  /** Rust's `Result`; the constructors are named as in Dafny's own library so that
      `ResponseObject` can keep the names `Ok` and `Err`. */
  datatype Result<+T, +E> = Success(value: T) | Failure(error: E) {
    predicate IsFailure() { Failure? }

    function PropagateFailure<U>(): Result<U, E>
      requires Failure?
    {
      Failure(error)
    }

    function Extract(): T
      requires Success?
    {
      value
    }
  }

  /** `serde_json::Value`. Numbers are split into integers and fractions;
      an object is a map, as `serde_json::Map` is (keys are unique). */
  datatype Value =
    | Null
    | Bool(b: bool)
    | Int(i: int)
    | Float(f: real)
    | Str(s: string)
    | Arr(items: seq<Value>)
    | Obj(fields: map<string, Value>)

  /** `std::io::ErrorKind`, reduced to the kinds the model's transport produces. */
  datatype IoErrorKind = UnexpectedEof | WouldBlock | Interrupted | Other

  /** `serde_json::Error`, by category (`serde_json::error::Category`). */
  datatype Error = IoError(kind: IoErrorKind) | Syntax | Data | Eof
}
