/**
 * What the handlers receive from the operating system and hand back to
 * FUSE. A libc call either succeeds with a value or fails with `-1` and an
 * `errno`; a handler reports the failure to FUSE as the negated `errno`.
 */
module Kernel {

  datatype Option<T> = None | Some(value: T)

  /** An `errno` value: always positive. */
  type Errno = e: int | 0 < e witness 1

  /** Linux's `EINVAL`: an invalid argument, such as a zero-length buffer for `readlink`. */
  const EINVAL: Errno := 22

  /** The outcome of one libc call: its value, or `-1` with `errno` set. */
  datatype Sys<T> = Ok(value: T) | Err(errno: Errno)

  /** The handlers' return convention: `0` on success, `-errno` on failure. */
  function Status<T>(call: Sys<T>): (r: int)
    ensures r == 0 <==> call.Ok?
    ensures r < 0 <==> call.Err?
    ensures call.Err? ==> r == -(call.errno as int)
  {
    match call
    case Ok(_) => 0
    case Err(e) => -(e as int)
  }
}
