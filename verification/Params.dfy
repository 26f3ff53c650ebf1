/** The constants of kernel/param.h and kernel/riscv.h that several parts share. */
module Params {
  const MAXOPBLOCKS: nat := 10
  const LOGBLOCKS: nat := MAXOPBLOCKS * 3
  const NBUF: nat := MAXOPBLOCKS * 3
  const PGSIZE: nat := 4096
  const UINT64: nat := 0x1_0000_0000_0000_0000
}
