/** What the HelixFS modules share: errors, block size and addresses. */
module Helix {
  import opened Bytes
  import opened Prelude

  datatype Error =
    | NoSpace
    | InvalidBlockSize
    | BitmapCorrupt
    | ExtentCorrupt
    | IndexCrcMismatch
    | IoReadFailed
    | IoWriteFailed
    | IoFlushFailed
    | LogFull
    | NotFound
    | IsADirectory
    | FileTooLarge
    | NoValidSuperblock

  type Result<+T> = Outcome<T, Error>

  const BLOCK_SIZE: nat := 4096
  const BLOCK_NULL: nat := 0xFFFF_FFFF_FFFF_FFFF

  /** Blocks that hold `size` bytes. */
  function BlocksFor(size: nat): nat
  {
    (size + BLOCK_SIZE - 1) / BLOCK_SIZE
  }

  function Zeros(n: nat): (s: seq<Byte>)
    ensures |s| == n && forall i :: 0 <= i < n ==> s[i] == 0
  {
    seq(n, _ => 0)
  }
}
