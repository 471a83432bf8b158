/** The error numbers the models return, negated, as the C code does. */
module Errno {

  const EPERM := 1
  const ESRCH := 3
  const EINTR := 4
  const EBADF := 9
  const EAGAIN := 11
  const ENOMEM := 12
  const EACCES := 13
  const EFAULT := 14
  const EXDEV := 18
  const EISDIR := 21
  const EINVAL := 22
  const ETXTBSY := 26
  const EFBIG := 27
  const EOVERFLOW := 75
  const EOPNOTSUPP := 95
  const ERESTARTNOINTR := 513
}
