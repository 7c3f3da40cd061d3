/** Sizes, bytes and sectors shared by the buffer cache and the file system. */
module Sectors {

  const SECTOR_SIZE: nat := 512

  /** The sector number that `block_sector_t` -1 denotes; no device has it. */
  const INVALID_SECTOR: nat := 0xFFFF_FFFF

  type Byte = b: int | 0 <= b < 256

  type Sector = s: seq<Byte> | |s| == SECTOR_SIZE witness seq(SECTOR_SIZE, _ => 0)

  datatype Option<+T> = None | Some(value: T)

  /** `base` with the bytes of `bytes` laid over it from position `offset` on. */
  function Splice(base: seq<Byte>, offset: nat, bytes: seq<Byte>): (r: seq<Byte>)
    requires offset + |bytes| <= |base|
    ensures |r| == |base|
    ensures forall k :: 0 <= k < |base| ==>
      r[k] == if offset <= k < offset + |bytes| then bytes[k - offset] else base[k]
  {
    base[..offset] + bytes + base[offset + |bytes|..]
  }
}
