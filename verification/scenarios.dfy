/** The situations the crate's own unit tests describe, restated as lemmas
    about the model: buffer growth with and without a quota, content kept
    across growth, `extend_from_slice`, and whole-message reception of an
    oversized datagram into small borrowed and owned buffers. Also the
    concrete inputs on which the two reception strategies, or debug and
    release builds, part ways. */
module Scenarios {
  import opened Base
  import opened Owned
  import opened Buf
  import opened Conv
  import opened Cap
  import opened Ctor
  import opened Write
  import opened Slicing
  import opened Results
  import opened QueueTransport
  import opened SyncRecv
  import opened AsyncRecv

  /** The buffer type's own usage examples: each conversion's capacity,
      cursors and message flag, for 32-byte regions and for `Vec`s. */
  lemma {:induction false} ConversionExamples()
    ensures var b := FromBorrowedUninit(Zeros(32));
            Capacity(b) == 32 && |InitPart(b)| == 0 && |FilledPart(b)| == 0 && !b.hasMsg
    ensures var b := FromBorrowedInit(Zeros(32));
            Capacity(b) == 32 && |InitPart(b)| == 32 && |FilledPart(b)| == 32 && b.hasMsg
    ensures var b := FromBoxedUninit(Zeros(32));
            Capacity(b) == 32 && LenInit(b) == 0 && LenFilled(b) == 0 && !b.hasMsg
    ensures var b := FromBoxedInit(Zeros(32));
            Capacity(b) == 32 && LenInit(b) == 32 && LenFilled(b) == 32 && b.hasMsg
    ensures var b := FromVec(VecWithCapacity(31));
            Capacity(b) == 31 && LenInit(b) == 0 && LenFilled(b) == 0 && !b.hasMsg
    ensures var b := FromVec(Vec(Zeros(32), 6));
            Capacity(b) == 32 && LenInit(b) == 6 && LenFilled(b) == 6 && b.hasMsg
  {
  }

  /** `clear_and_grow_to` on a one-byte borrowed buffer, then on a 305-byte
      `Vec`: every request is met; a quota of 256 refuses 4096 bytes; a
      quota of 4096 admits them. */
  lemma {:induction false} ClearAndGrowScenario()
    ensures var b0 := FromBorrowedInit([0]);
            && ClearAndGrowTo(b0, 2).Ok? && ClearAndGrowTo(b0, 2).value.Cap() >= 2
            && var b1 := ClearAndGrowTo(b0, 2).value;
               ClearAndGrowTo(b1, 309).Ok? && ClearAndGrowTo(b1, 309).value.Cap() >= 309
    ensures var v0 := FromVec(VecWithCapacity(305));
            && ClearAndGrowTo(v0, 512).Ok?
            && var v1 := ClearAndGrowTo(v0, 512).value;
               && v1.Cap() >= 512
               && ClearAndGrowTo(v1, 1025).Ok?
               && var v2 := ClearAndGrowTo(v1, 1025).value;
                  && v2.Cap() >= 1025
                  && ClearAndGrowTo(v2.(quota := Some(256)), 4096).Err?
                  && ClearAndGrowTo(v2.(quota := Some(4096)), 4096).Ok?
                  && ClearAndGrowTo(v2.(quota := Some(4096)), 4096).value.Cap() >= 4096
  {
    var b0 := FromBorrowedInit([0]);
    var b1 := ClearAndGrowTo(b0, 2).value;
    assert b1.quota == None;
    var v0 := FromVec(VecWithCapacity(305));
    var v1 := ClearAndGrowTo(v0, 512).value;
    var v2 := ClearAndGrowTo(v1, 1025).value;
    assert v2.Cap() >= 1025;
  }

  /** With a quota of zero on a one-byte borrowed buffer, even a one-byte
      request is refused: the request is first raised to the minimum
      capacity, which the quota does not admit. (The unit test at the same
      place expects this request to succeed.) */
  lemma {:induction false} ZeroQuotaRefusesEveryGrowth(n: nat)
    requires n >= 1
    ensures var b := FromBorrowedInit([0]).(quota := Some(0));
            && ClearAndGrowTo(b, n).Err?
            && ClearAndGrowTo(b, n).error == QuotaExceeded(0, Raised(n))
  {
  }

  /** A fresh buffer over an empty no-alloc owned buffer, asked for any
      capacity: the kind-aware growth refuses with a panic, while the
      Vec-only growth of `EnsureCapacity` turns it into a Vec-backed buffer. */
  lemma {:induction false} NoAllocGrowthPanics(n: nat)
    ensures var b := NewOwnedDyn(OwnedDefault(NoAlloc));
            && EnsureCapacityChecked(b, n) == Panic(AllocationForbidden)
            && EnsureCapacity(b, n).Ok?
            && EnsureCapacity(b, n).value.backing == VecBacked
  {
  }

  /** `retain_check` on a borrowed slice holding `s`, whose fill cursor is
      set to its length: growing to 64 times that keeps `s` as the filled
      part. */
  lemma {:induction false} GrowSliceRetains(s: seq<byte>)
    ensures var b := SetFill(FromBorrowedInit(s), |s|);
            && b.Done?
            && GrowTo(b.value, |s| * 64).Ok?
            && FilledPart(GrowTo(b.value, |s| * 64).value) == s
  {
    var b := FromBorrowedInit(s);
    assert SetFill(b, |s|).value == b;
  }

  /** `retain_check` on a `Vec` that `s` was appended to. */
  lemma {:induction false} GrowVecRetains(s: seq<byte>)
    ensures var v := VecExtendFromSlice(Vec([], 0), s);
            var b := SetFill(FromVec(v), |s|);
            && b.Done?
            && GrowTo(b.value, |s| * 64).Ok?
            && FilledPart(GrowTo(b.value, |s| * 64).value) == s
  {
    var v := VecExtendFromSlice(Vec([], 0), s);
    assert v.mem[..v.len] == s;
    var b := FromVec(v);
    assert SetFill(b, |s|).value == b;
    var g := GrowTo(b, |s| * 64).value;
    assert g.mem[..g.fill] == b.mem[..b.fill];
  }

  /** `extend`: appending to an empty borrowed region of any size succeeds
      without a quota and fills exactly the appended bytes. */
  lemma {:induction false} ExtendFillsExactly(region: seq<byte>, s: seq<byte>)
    ensures var r := ExtendFromSlice(FromBorrowedUninit(region), s);
            r.Ok? && LenFilled(r.value) == |s| && FilledPart(r.value) == s
  {
  }

  /** The 193-byte datagram of the socket test, received whole by either
      strategy into a 6-byte borrowed buffer or an empty 16-byte `Vec`: the
      outcome is `Spilled` and the buffer holds exactly the message. */
  lemma {:induction false} OversizedDatagramSpills(t: Transport, m: seq<byte>)
    requires |m| == 193 && t.queue == [m] && NoFaults(t)
    ensures forall b | b == FromBorrowedUninit(Zeros(6)) || b == FromVec(VecWithCapacity(16)) ::
              && RecvViaRecvTrunc(t, b).result == Ok(RecvResult.Spilled)
              && FilledPart(RecvViaRecvTrunc(t, b).b) == m
              && RecvViaTryRecv(t, b).Done?
              && RecvViaTryRecv(t, b).value.result == Ok(RecvResult.Spilled)
              && FilledPart(RecvViaTryRecv(t, b).value.b) == m
  {
    forall b | b == FromBorrowedUninit(Zeros(6)) || b == FromVec(VecWithCapacity(16))
      ensures && RecvViaRecvTrunc(t, b).result == Ok(RecvResult.Spilled)
              && FilledPart(RecvViaRecvTrunc(t, b).b) == m
              && RecvViaTryRecv(t, b).Done?
              && RecvViaTryRecv(t, b).value.result == Ok(RecvResult.Spilled)
              && FilledPart(RecvViaTryRecv(t, b).value.b) == m
    {
      assert b.Valid() && b.quota.None? && b.Cap() < 193;
      RecvViaRecvTruncMeetsReference(t, b);
      RecvViaTryRecvMeetsReference(t, b);
      var a := RecvViaRecvTrunc(t, b);
      assert LoopPost(t, b, true, a);
      var v := RecvViaTryRecv(t, b).value;
      assert TryPathPost(t, b, v);
    }
  }

  /** Messages come out in the order they were queued, each whole, and the
      stream then ends; the buffer is reused from one call to the next. */
  lemma {:induction false} MessagesInOrderThenEnd(t: Transport, b: MsgBuf, m1: seq<byte>, m2: seq<byte>)
    requires b.Valid() && b.quota.None? && NoFaults(t) && t.queue == [m1, m2]
    ensures var o1 := RecvViaRecvTrunc(t, b);
            var o2 := RecvViaRecvTrunc(o1.t, o1.b);
            var o3 := RecvViaRecvTrunc(o2.t, o2.b);
            && o1.result.Ok? && Msg(o1.b) == Some(m1)
            && o2.result.Ok? && Msg(o2.b) == Some(m2)
            && o3.result == Ok(RecvResult.EndOfStream) && o3.t.queue == []
  {
    var o1 := RecvViaRecvTrunc(t, b);
    RecvViaRecvTruncFromMeetsReference(t, b, true);
    assert LoopPost(t, b, true, o1);
    assert o1.t.queue == [m2];
    var o2 := RecvViaRecvTrunc(o1.t, o1.b);
    RecvViaRecvTruncFromMeetsReference(o1.t, o1.b, true);
    assert LoopPost(o1.t, o1.b, true, o2);
    assert o2.t.queue == [];
    var o3 := RecvViaRecvTrunc(o2.t, o2.b);
    RecvViaRecvTruncMeetsReference(o2.t, o2.b);
    assert LoopPost(o2.t, o2.b, true, o3);
  }

  /** Under a quota the strategies differ: an empty buffer with a 100-byte
      quota and a 90-byte message. Doubling reaches 56 bytes, then asks for
      112 and is refused; growing to the reported size asks for 90 and
      succeeds. */
  lemma {:induction false} StrategiesDifferUnderQuota(t: Transport, m: seq<byte>)
    requires |m| == 90 && t.queue == [m] && NoFaults(t)
    ensures var b := Default().(quota := Some(100));
            && RecvViaRecvTrunc(t, b).result == Ok(RecvResult.OverQuota(QuotaExceeded(100, 112)))
            && RecvViaTryRecv(t, b).Done?
            && RecvViaTryRecv(t, b).value.result == Ok(RecvResult.Spilled)
  {
    var b := Default().(quota := Some(100));
    // Doubling strategy: the first peek is truncated, growth gives exactly 56.
    var p := RecvTrunc(t, true, b);
    assert p.result == Ok(Some(false));
    var cleared := SetFill(p.b, 0).value;
    var g := ClearAndGrow(cleared);
    assert cleared.Cap() == 0;
    assert g.Ok? && g.value.Cap() == 56;
    var p2 := RecvTrunc(p.t, true, g.value);
    assert p2.result == Ok(Some(false));
    var cleared2 := SetFill(p2.b, 0).value;
    assert ClearAndGrow(cleared2) == Err(QuotaExceeded(100, 112));
    assert RecvViaRecvTruncFrom(p.t, g.value, false).result == Ok(RecvResult.OverQuota(QuotaExceeded(100, 112)));
    // Probing strategy: the probe reports 90 bytes, which the quota admits.
    RecvViaTryRecvNeverRetcons(t, b);
    var first := TryRecvMsg(t, b);
    assert first.result == Ok(TryRecvResult.Spilled(90));
    var grown := ClearAndGrowTo(first.b, 90);
    assert grown.Ok?;
    var v := RecvViaTryRecv(t, b).value;
    assert TryPathPost(t, b, v);
  }

  /** A transport that suspends right after a completed peek (which the
      reception contract forbids) is caught in debug builds and merely
      suspends the poll in release builds. Here: an empty buffer, a 1-byte
      message, the first poll ready and the second not. */
  lemma {:induction false} PendingAfterPeekCaughtInDebug(t: Transport, m: seq<byte>)
    requires |m| == 1 && t.queue == [m] && NoFaults(t)
    requires !t.conforming && t.readiness == [true, false]
    ensures PollRecvViaPollRecvTrunc(t, Default(), true) == Panic(PendingAfterPeek)
    ensures var r := PollRecvViaPollRecvTrunc(t, Default(), false);
            r.Done? && r.value.poll.Pending?
  {
    var b := Default();
    var p := PollRecvTrunc(t, true, b);
    assert p.poll == Ready(Ok(Some(false)));
    var cleared := SetFill(p.b, 0).value;
    var g := EnsureCapacity(cleared, 2 * cleared.Cap());
    assert g.Ok?;
    assert p.t.readiness == [false] && p.t.primed;
    assert !CanComplete(p.t);
    assert PollRecvTrunc(p.t, true, g.value).poll.Pending?;
    assert PollViaTruncFrom(t, b, true, true, true) == PollViaTruncFrom(p.t, g.value, false, false, true);
    assert PollViaTruncFrom(t, b, true, true, false) == PollViaTruncFrom(p.t, g.value, false, false, false);
  }
}
