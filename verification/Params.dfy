/** Constants of kernel/param.h, kernel/fs.h and kernel/riscv.h that more than one part uses. */
module Params {

  const MAXOPBLOCKS: nat := 10
  const LOGBLOCKS: nat := MAXOPBLOCKS * 3
  const NBUF: nat := MAXOPBLOCKS * 3
  const BSIZE: nat := 1024
  const PGSIZE: nat := 4096
}
