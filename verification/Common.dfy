/** Definitions shared by every part of the kernel model. */
module Common {
  const PAGE_SIZE: nat := 4096

  datatype Option<+T> = None | Some(value: T)
}
