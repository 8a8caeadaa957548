/** Ownership utilities of the message buffer: `take_owned`, `take_borrowed`
    and `forget_in_place`. A buffer of capacity 0 counts as both borrowed and
    owned, so either take succeeds on it. */
module Take {
  import opened Base
  import opened Owned
  import opened Buf

  /** `forget_in_place`: empties the buffer without releasing anything. The
      quota and the owned-buffer kind stay. */
  function ForgetInPlace(b: MsgBuf): (r: MsgBuf)
    ensures r.Valid() && r.Cap() == 0 && r.init == 0 && r.fill == 0
    ensures !r.hasMsg && !r.borrowed
    ensures r.quota == b.quota && r.backing == b.backing
  {
    b.(mem := [], init := 0, fill := 0, hasMsg := false, borrowed := false)
  }

  /** `take_owned`: hands out the owned allocation (memory and initialisation
      cursor, with the buffer's owned-buffer kind) and empties the buffer. A
      borrowed buffer with memory is left untouched. */
  function TakeOwned(b: MsgBuf): (r: (Option<DynOwnedBuf>, MsgBuf))
    ensures r.0.None? <==> b.borrowed && b.Cap() > 0
    ensures r.0.None? ==> r.1 == b
    ensures r.0.Some? ==> r.0.value == DynOwnedBuf(b.backing, RawParts(b.mem, b.init))
    ensures r.0.Some? ==> r.1 == ForgetInPlace(b)
  {
    if b.borrowed && |b.mem| > 0 then (None, b)
    else (Some(DynOwnedBuf(b.backing, RawParts(b.mem, b.init))), ForgetInPlace(b))
  }

  /** `take_borrowed`: hands out the whole borrowed region (its full capacity)
      and empties the buffer. An owned buffer with memory is left untouched. */
  function TakeBorrowed(b: MsgBuf): (r: (Option<seq<byte>>, MsgBuf))
    ensures r.0.None? <==> !b.borrowed && b.Cap() > 0
    ensures r.0.None? ==> r.1 == b
    ensures r.0.Some? ==> r.0.value == b.mem && r.1 == ForgetInPlace(b)
  {
    if !b.borrowed && |b.mem| > 0 then (None, b)
    else (Some(b.mem), ForgetInPlace(b))
  }

  /** A buffer without memory gives itself up to both takes. */
  lemma {:induction false} EmptyBufferIsBothKinds(b: MsgBuf)
    requires b.Cap() == 0
    ensures TakeOwned(b).0.Some? && TakeBorrowed(b).0.Some?
    ensures TakeOwned(b).1 == TakeBorrowed(b).1
  {
  }
}
