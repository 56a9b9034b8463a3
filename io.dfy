/** The asynchronous I/O vocabulary the progress decorator speaks: the poll
    outcome of a non-blocking operation, the I/O result it carries, and the
    answer a wrapped stream gives when the decorator forwards a call to it. */
module Io {

  /** Rust's `u64`. */
  newtype u64 = x: int | 0 <= x < 0x1_0000_0000_0000_0000

  /** Rust's `i64`, the signed offset of a relative seek. */
  newtype i64 = x: int | -0x8000_0000_0000_0000 <= x < 0x8000_0000_0000_0000

  type byte = bv8

  /** The kinds of I/O error the model distinguishes (a subset of Rust's
      `std::io::ErrorKind`). */
  datatype ErrorKind = Interrupted | NotFound | BrokenPipe | WriteZero | Other

  datatype IoError = IoError(kind: ErrorKind, message: string)

  /** `tokio::io::Result<R>`. */
  datatype IoResult<R> = Ok(value: R) | Err(error: IoError)

  /** `std::task::Poll<R>`: the operation finished with a value, or it is not
      ready yet and the caller will be woken later. */
  datatype Poll<R> = Ready(value: R) | Pending

  /** `std::io::SeekFrom`, the argument of a seek. */
  datatype SeekFrom = Start(offset: u64) | End(delta: i64) | Current(delta: i64)

  /** What the wrapped stream does when a call is forwarded to it: its state
      afterwards and the poll result it returns. */
  datatype Delegated<T, R> = Delegated(buf: T, poll: Poll<IoResult<R>>)

  /** The number of bytes a write poll reports as accepted: `n` for
      `Ready(Ok(n))`, nothing for an error or `Pending`. */
  function WriteCount(p: Poll<IoResult<nat>>): (n: nat)
    ensures p.Ready? && p.value.Ok? ==> n == p.value.value
    ensures n > 0 ==> p == Ready(Ok(n))
    ensures (p.Pending? || p.value.Err?) ==> n == 0
  {
    match p
    case Ready(Ok(n)) => n
    case _ => 0
  }
}
