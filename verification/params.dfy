/** Constants of kernel/param.h that several parts share. */
module Params {
  /** The most blocks one file system operation writes. */
  const MAXOPBLOCKS: nat := 10
  /** Data blocks in the log on disk. */
  const LOGBLOCKS: nat := MAXOPBLOCKS * 3
}
