/** Shared vocabulary of the PCMCIA model: optional values, results,
    the unsigned byte of the C code and the Linux errno values the
    enumeration code returns. */
module Base {

  /** An unsigned char. */
  type Byte = x: int | 0 <= x < 256

  /** A value that may be absent.  Used for record fields the C code leaves
      uninitialised when the attribute or the tuple walk fails. */
  datatype Option<+T> = None | Some(value: T) {
    function GetOr(default: T): T {
      match this
      case Some(v) => v
      case None => default
    }
  }

  datatype Result<+R, +E> = Ok(value: R) | Err(error: E)

  /** A non-zero return code of a C call. */
  type ErrCode = x: int | x != 0 witness -1

  /** Linux errno values (asm-generic/errno-base.h). */
  const EIO: int := 5
  const ENODEV: int := 19
  const EINVAL: int := 22
}
