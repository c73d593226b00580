/** The error numbers that calls return negated. */
module Errno {
  const EPERM: int := 1
  const EIO: int := 5
  const ENXIO: int := 6
  const EBUSY: int := 16
  const EINVAL: int := 22
  const ERANGE: int := 34
}
