/** Constructors of the message buffer in the revision built on owned-buffer
    trait objects: `new_owned_dyn`/`put_owned`, `put_slice`, `with_capacity`,
    and the `From` conversions expressed through them. In this revision no
    conversion presets the fill cursor. */
module Ctor {
  import opened Base
  import opened Owned
  import opened Buf
  import Conv
  import opened Take

  /** `put_owned`: replaces the memory with the owned buffer's, taking its
      capacity, cursor and kind; the fill cursor drops to 0. */
  function PutOwned(b: MsgBuf, owned: DynOwnedBuf): (r: MsgBuf)
    requires owned.Valid()
    ensures r.Valid() && !r.borrowed && r.fill == 0
    ensures r.mem == owned.raw.mem && r.init == owned.raw.init && r.backing == owned.backing
    ensures r.quota == b.quota && r.hasMsg == b.hasMsg
  {
    b.(mem := owned.raw.mem, init := owned.raw.init, backing := owned.backing,
       borrowed := false, fill := 0)
  }

  /** `put_slice`: replaces the memory with a borrowed region, assuming
      nothing about its contents. */
  function PutSlice(b: MsgBuf, region: seq<byte>): (r: MsgBuf)
    ensures r.Valid() && r.borrowed && r.Cap() == |region| && r.init == 0 && r.fill == 0
    ensures r.quota == b.quota && r.hasMsg == b.hasMsg && r.backing == b.backing
  {
    b.(mem := region, borrowed := true, init := 0, fill := 0)
  }

  /** `new_owned_dyn`: a default buffer holding the owned buffer. */
  function NewOwnedDyn(owned: DynOwnedBuf): (r: MsgBuf)
    requires owned.Valid()
    ensures r.Valid() && !r.borrowed && r.backing == owned.backing
    ensures r.Cap() == owned.raw.Cap() && r.init == owned.raw.init && r.fill == 0
    ensures r.quota == None && !r.hasMsg
  {
    PutOwned(Default(), owned)
  }

  /** `new_owned` / `From<Owned>` for a `Vec<u8>`: its length becomes the
      initialisation cursor, nothing is filled. */
  function FromOwnedVec(v: Vec): (r: MsgBuf)
    requires v.Valid()
    ensures r.Valid() && !r.borrowed && r.backing == VecBacked
    ensures r.Cap() == v.Capacity() && r.init == v.len && r.fill == 0
    ensures InitPart(r) == v.Elements()
    ensures r.quota == None && !r.hasMsg
  {
    NewOwnedDyn(DynOwnedBuf(VecBacked, VecAsRawParts(v)))
  }

  /** `with_capacity::<Owned>(c)`: grows an empty owned buffer of the given
      kind to `c`, then wraps it. The no-alloc kind cannot grow. */
  function WithCapacity(backing: Backing, c: nat): (r: Checked<MsgBuf>)
    ensures r.Done? <==> backing == VecBacked
    ensures r.Panic? ==> r.reason == AllocationForbidden
    ensures r.Done? ==> r.value.Valid() && !r.value.borrowed && r.value.backing == backing
    ensures r.Done? ==> r.value.Cap() >= c && r.value.fill == 0
    ensures r.Done? ==> r.value.quota == None && !r.value.hasMsg
  {
    var empty := OwnedDefault(backing);
    match BackingGrow(backing, empty.raw, c)
    case Panic(f) => Panic(f)
    case Done(raw) => Done(NewOwnedDyn(DynOwnedBuf(backing, raw)))
  }

  /** `From<&mut [MaybeUninit<u8>]>` in this revision. */
  function FromBorrowedUninitNew(region: seq<byte>): (r: MsgBuf)
    ensures r == Conv.FromBorrowedUninit(region)
  {
    PutSlice(Default(), region)
  }

  /** `From<&mut [u8]>` in this revision: the slice counts as initialised but
      the fill cursor stays 0 and there is no message. */
  function FromBorrowedInitNew(slice: seq<byte>): (r: MsgBuf)
    ensures r.Valid() && r.borrowed && r.quota == None
    ensures r.Cap() == |slice| && r.init == |slice| && r.fill == 0 && !r.hasMsg
    ensures InitPart(r) == slice
  {
    SetInit(FromBorrowedUninitNew(slice), |slice|).value
  }

  /** `From<Box<[MaybeUninit<u8>]>>` in this revision: an owned `Vec` of
      length 0 over the box's memory. */
  function FromBoxedUninitNew(region: seq<byte>): (r: MsgBuf)
    ensures r.Valid() && !r.borrowed && r.quota == None && !r.hasMsg
    ensures r.Cap() == |region| && r.init == 0 && r.fill == 0
  {
    FromOwnedVec(Vec(region, 0))
  }

  /** `From<Box<[u8]>>` in this revision: an owned `Vec` whose elements are
      the box's bytes; initialised, not filled. */
  function FromBoxedInitNew(slice: seq<byte>): (r: MsgBuf)
    ensures r.Valid() && !r.borrowed && r.quota == None && !r.hasMsg
    ensures r.Cap() == |slice| && r.init == |slice| && r.fill == 0
    ensures InitPart(r) == slice
  {
    FromOwnedVec(Vec(slice, |slice|))
  }

  /** The two revisions of the initialised-slice conversions agree on
      everything except the fill cursor and the message flag, which only the
      older one presets. */
  lemma {:induction false} InitConversionsDifferOnlyInFill(slice: seq<byte>)
    ensures FromBorrowedInitNew(slice) == Conv.FromBorrowedInit(slice).(fill := 0, hasMsg := false)
    ensures FromBoxedInitNew(slice) == Conv.FromBoxedInit(slice).(fill := 0, hasMsg := false)
  {
  }

  /** Taking an owned buffer's memory and putting it back restores the buffer
      up to its fill cursor and message flag, which the take clears. */
  lemma {:induction false} TakeOwnedPutOwnedRoundTrip(b: MsgBuf)
    requires b.Valid() && (!b.borrowed || b.Cap() == 0)
    ensures TakeOwned(b).0.Some?
    ensures PutOwned(TakeOwned(b).1, TakeOwned(b).0.value) == b.(fill := 0, hasMsg := false, borrowed := false)
  {
  }
}
