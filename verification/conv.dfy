/** Conversions into a message buffer in the revision that presets the fill
    cursor from the source's length (`From<Vec<u8>>`, borrowed and boxed
    slices). An uninitialised region is given with whatever bytes it happens
    to hold; the buffer treats none of them as initialised. */
module Conv {
  import opened Base
  import opened Owned
  import opened Buf

  /** `From<Vec<u8>>`: owns the vector's allocation; its elements are both the
      initialised and the filled part, and they count as a message when there
      is at least one. */
  function FromVec(v: Vec): (b: MsgBuf)
    requires v.Valid()
    ensures b.Valid() && !b.borrowed && b.backing == VecBacked && b.quota == None
    ensures b.Cap() == v.Capacity() && b.init == v.len && b.fill == v.len
    ensures FilledPart(b) == v.Elements()
    ensures b.hasMsg <==> v.len > 0
  {
    MsgBuf(v.mem, v.len, v.len, false, VecBacked, None, v.len > 0)
  }

  /** `From<&mut [MaybeUninit<u8>]>`: borrows the region, assuming nothing
      about its contents. */
  function FromBorrowedUninit(region: seq<byte>): (b: MsgBuf)
    ensures b.Valid() && b.borrowed && b.quota == None && !b.hasMsg
    ensures b.Cap() == |region| && b.init == 0 && b.fill == 0
  {
    MsgBuf(region, 0, 0, true, VecBacked, None, false)
  }

  /** `From<Box<[MaybeUninit<u8>]>>`: owns the region, assuming nothing about
      its contents. */
  function FromBoxedUninit(region: seq<byte>): (b: MsgBuf)
    ensures b.Valid() && !b.borrowed && b.quota == None && !b.hasMsg
    ensures b.Cap() == |region| && b.init == 0 && b.fill == 0
  {
    MsgBuf(region, 0, 0, false, VecBacked, None, false)
  }

  /** `From<&mut [u8]>` (fill-presetting revision): borrows the slice, which is
      wholly initialised and filled, and a message unless empty. */
  function FromBorrowedInit(slice: seq<byte>): (b: MsgBuf)
    ensures b.Valid() && b.borrowed && b.quota == None
    ensures b.Cap() == |slice| && b.init == |slice| && b.fill == |slice|
    ensures FilledPart(b) == slice
    ensures b.hasMsg <==> |slice| > 0
  {
    MsgBuf(slice, |slice|, |slice|, true, VecBacked, None, |slice| > 0)
  }

  /** `From<Box<[u8]>>` (fill-presetting revision): owns the slice, which is
      wholly initialised and filled, and a message unless empty. */
  function FromBoxedInit(slice: seq<byte>): (b: MsgBuf)
    ensures b.Valid() && !b.borrowed && b.quota == None
    ensures b.Cap() == |slice| && b.init == |slice| && b.fill == |slice|
    ensures FilledPart(b) == slice
    ensures b.hasMsg <==> |slice| > 0
  {
    MsgBuf(slice, |slice|, |slice|, false, VecBacked, None, |slice| > 0)
  }
}
