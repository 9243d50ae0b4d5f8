/** Constants of the file layout, bytes and in-place replacement of a byte range. */
module Blocks {
  const FILE_BLOCK_SIZE: nat := 0x10_0000
  const TWO_TO_THE_64: nat := 0x1_0000_0000_0000_0000
  const TWO_TO_THE_31: nat := 0x8000_0000

  newtype byte = x: int | 0 <= x < 256

  /** The value a uint64_t holds after an assignment of `x`. */
  function Wrap64(x: int): nat {
    x % TWO_TO_THE_64
  }

  /** Number of blocks that cover `length` bytes. */
  function BlocksFor(length: nat): nat {
    (length + FILE_BLOCK_SIZE - 1) / FILE_BLOCK_SIZE
  }

  /** `s` with the bytes from `at` on replaced by `data`. */
  function Splice(s: seq<byte>, at: nat, data: seq<byte>): (r: seq<byte>)
    requires at + |data| <= |s|
    ensures |r| == |s|
    ensures forall j :: 0 <= j < |s| ==> r[j] == if at <= j < at + |data| then data[j - at] else s[j]
  {
    s[..at] + data + s[at + |data|..]
  }

  /** `x & FILE_BLOCK_MASK` is the offset inside the block. */
  lemma MaskIsRemainder(x: bv64)
    ensures FILE_BLOCK_SIZE == 0x10_0000 && x & 0xF_FFFF == x % 0x10_0000
  {
  }
}
