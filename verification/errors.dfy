/**
 Kernel error numbers the driver returns, and the `0` / `-errno` return
 convention of a file operation.
 */
module Errors {

  datatype Errno = EPERM | EAGAIN | EACCES | EINVAL | ENOSYS

  /** The Linux generic error numbers (asm-generic/errno-base.h, errno.h). */
  function Number(e: Errno): (n: nat)
    ensures 0 < n
  {
    match e
    case EPERM => 1
    case EAGAIN => 11
    case EACCES => 13
    case EINVAL => 22
    case ENOSYS => 38
  }

  /** The outcome of one file operation. */
  datatype Status = Ok | Err(errno: Errno)

  /** The value the operation returns to the VFS: 0 on success, the negated
      error number otherwise. Distinct outcomes give distinct return values. */
  function Code(st: Status): (rc: int)
    ensures rc == 0 <==> st == Ok
    ensures rc < 0 <==> st.Err?
  {
    match st
    case Ok => 0
    case Err(e) => -(Number(e) as int)
  }

  /** Callers can tell every outcome apart by the return value alone. */
  lemma CodeInjective(a: Status, b: Status)
    requires Code(a) == Code(b)
    ensures a == b
  {
  }
}
