/** The constants of kernel/param.h and kernel/fs.h used by the model. */
module Params {
  const MAXOPBLOCKS: nat := 10
  const LOGBLOCKS: nat := MAXOPBLOCKS * 3
  const NBUF: nat := MAXOPBLOCKS * 3
  const ROOTDEV: nat := 1

  const BSIZE: nat := 1024
  const WORDS: nat := BSIZE / 4
}
