/** Small shared vocabulary: optional values, guest errno codes and 32-bit wrap-around. */
module Prelude {
  datatype Option<+T> = None | Some(value: T) {
    function GetOr(default: T): (r: T) { if None? then default else value }
  }

  // Guest-visible ARM32 errno values.
  const EPERM := 1
  const ESRCH := 3
  const ENOEXEC := 8
  const EBADF := 9
  const EAGAIN := 11
  const ENOMEM := 12
  const EFAULT := 14
  const EBUSY := 16
  const EEXIST := 17
  const EINVAL := 22
  const EDEADLK := 35
  const ETIMEDOUT := 110
  const ECANCELED := 125

  const TWO32: int := 0x1_0000_0000
  const TWO64: int := 0x1_0000_0000_0000_0000

  type uint32 = x: int | 0 <= x < 0x1_0000_0000
  type uint64 = x: int | 0 <= x < 0x1_0000_0000_0000_0000

  /** The value of an unsigned 32-bit computation. */
  function Wrap32(x: int): (r: uint32)
    ensures 0 <= x < TWO32 ==> r == x
    ensures TWO32 <= x < 2 * TWO32 ==> r == x - TWO32
    ensures -TWO32 <= x < 0 ==> r == x + TWO32
  {
    x % TWO32
  }

  lemma {:induction false} SubsetSize<T>(a: set<T>, b: set<T>)
    requires a <= b
    ensures |a| <= |b|
  {
    if x :| x in a {
      SubsetSize(a - {x}, b - {x});
    }
  }
}
