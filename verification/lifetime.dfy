/** Lifetime management of the message buffer: `try_extend_lifetime` and the
    two revisions of `make_owned`, plus a corrected `make_owned`.

    The newer `make_owned` carries the old fill cursor into a fresh allocation
    whose initialisation cursor is 0, which breaks `fill <= init` whenever a
    borrowed buffer with a non-empty filled part is converted. `MakeOwned` is
    the corrected form the rest of the model relies on: it copies the filled
    part into the fresh allocation. */
module Lifetime {
  import opened Base
  import opened Owned
  import opened Buf
  import opened Conv
  import opened Slicing
  import opened Ctor
  import opened QueueTransport

  /** `try_extend_lifetime()`: succeeds, unchanged but marked owned, exactly
      when the buffer is owned or has no memory; otherwise hands the buffer
      back. */
  function TryExtendLifetime(b: MsgBuf): (r: Result<MsgBuf, MsgBuf>)
    ensures r.Ok? <==> !b.borrowed || b.Cap() == 0
    ensures r.Ok? ==> !r.value.borrowed && r.value == b.(borrowed := r.value.borrowed)
    ensures r.Err? ==> r.error == b
  {
    if !b.borrowed || |b.mem| == 0 then Ok(b.(borrowed := false)) else Err(b)
  }

  /** `make_owned()`, older revision: an owned buffer passes through; a
      borrowed one (even of capacity 0) is replaced by a fresh, empty `Vec` of
      the same capacity, dropping quota, content and message. */
  function MakeOwnedOld(b: MsgBuf): (r: MsgBuf)
    requires b.Valid()
    ensures r.Valid() && !r.borrowed
    ensures !b.borrowed ==> r == b
    ensures b.borrowed ==> r.Cap() == b.Cap() && r.init == 0 && r.fill == 0
    ensures b.borrowed ==> r.quota == None && !r.hasMsg && r.backing == VecBacked
  {
    if !b.borrowed then b else FromVec(VecWithCapacity(|b.mem|))
  }

  /** `make_owned()`, newer revision, as written: on a borrowed buffer it
      allocates a fresh `Vec` of the old capacity and copies over the quota,
      the fill cursor and the message flag, but not the bytes, leaving the
      initialisation cursor at 0. */
  function MakeOwnedAsWritten(b: MsgBuf): (r: MsgBuf)
    requires b.Valid()
    ensures !r.borrowed
    ensures TryExtendLifetime(b).Ok? ==> r == TryExtendLifetime(b).value
    ensures TryExtendLifetime(b).Err? ==>
              && r.Cap() == b.Cap() && r.init == 0 && r.fill == b.fill
              && r.quota == b.quota && r.hasMsg == b.hasMsg
    ensures r.Valid() <==> !(b.borrowed && b.Cap() > 0 && b.fill > 0)
  {
    match TryExtendLifetime(b)
    case Ok(owned) => owned
    case Err(slf) =>
      FromVec(VecWithCapacity(|slf.mem|)).(quota := slf.quota, fill := slf.fill, hasMsg := slf.hasMsg)
  }

  /** A borrowed 6-byte buffer, made in the revision of the constructors
      without a preset fill, that has received the one-byte message `[7]` is
      turned into a buffer whose fill cursor exceeds its initialisation
      cursor. */
  lemma {:induction false} MakeOwnedAsWrittenBreaksInvariant()
    ensures var b := Deliver(FromBorrowedUninitNew(Zeros(6)), [7]);
            && b.Valid() && b.borrowed && Msg(b) == Some([7])
            && !MakeOwnedAsWritten(b).Valid()
            && MakeOwnedAsWritten(b).fill == 1 && MakeOwnedAsWritten(b).init == 0
  {
    var b := Deliver(FromBorrowedUninitNew(Zeros(6)), [7]);
    assert b.fill == 1 && b.borrowed && b.Cap() == 6;
    assert FilledPart(b) == [7];
  }

  /** `make_owned()`, corrected: a borrowed buffer's filled part is copied into
      a fresh `Vec` of the same capacity, so the result keeps its invariant,
      its quota and its message. */
  function MakeOwned(b: MsgBuf): (r: MsgBuf)
    requires b.Valid()
    ensures r.Valid() && !r.borrowed && r.Cap() == b.Cap()
    ensures TryExtendLifetime(b).Ok? ==> r == TryExtendLifetime(b).value
    ensures r.fill == b.fill && FilledPart(r) == FilledPart(b)
    ensures r.quota == b.quota && r.hasMsg == b.hasMsg
  {
    match TryExtendLifetime(b)
    case Ok(owned) => owned
    case Err(slf) =>
      var v := VecExtendFromSlice(VecWithCapacity(|slf.mem|), slf.mem[..slf.fill]);
      FromVec(v).(quota := slf.quota, hasMsg := slf.hasMsg)
  }

  /** The corrected conversion hands over the same message, byte for byte. */
  lemma {:induction false} MakeOwnedKeepsMessage(b: MsgBuf)
    requires b.Valid()
    ensures MakeOwned(b).Valid() && Msg(MakeOwned(b)) == Msg(b)
  {
  }
}
