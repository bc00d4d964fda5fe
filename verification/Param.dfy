/** The limits of param.h that more than one part of the model uses. */
module Param {
  const MAXOPBLOCKS: nat := 10             // blocks that one file system operation writes
  const LOGSIZE: nat := MAXOPBLOCKS * 3    // blocks in the on-disk log
  const NBUF: nat := MAXOPBLOCKS * 3       // buffers in the block cache
}
