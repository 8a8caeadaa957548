/** `Empty`: the dummy message stream that is at end of stream from the
    outset. Its error type is uninhabited, so every call succeeds; the buffer
    is never touched. */
module EmptyStream {
  import opened Base
  import opened Buf
  import opened Results
  import opened QueueTransport
  import opened SyncRecv
  import opened AsyncRecv

  /** `Empty::recv_trunc` (and its polled form, which is always ready). */
  function EmptyRecvTrunc(peek: bool, b: MsgBuf): (r: (Option<bool>, MsgBuf))
    ensures r.0.None? && r.1 == b
    ensures RecvTruncContract(b, 0, false, r.1)
  {
    (None, b)
  }

  /** `Empty::recv_trunc_with_full_size` (and its polled form). */
  function EmptyRecvTruncWithFullSize(peek: bool, b: MsgBuf): (r: (TryRecvResult, MsgBuf))
    ensures r.0.EndOfStream? && r.1 == b
    ensures RecvTruncContract(b, 0, false, r.1)
  {
    (TryRecvResult.EndOfStream, b)
  }

  /** `Empty::recv_msg` (and its polled form). */
  function EmptyRecvMsg(b: MsgBuf): (r: (RecvResult, MsgBuf))
    ensures r.0.EndOfStream? && r.1 == b
  {
    (RecvResult.EndOfStream, b)
  }

  /** A stream at end of stream from the outset: nothing queued, no faults,
      every poll ready. */
  predicate Exhausted(t: Transport)
  {
    t.queue == [] && NoFaults(t) && t.readiness == []
  }

  /** `Empty`'s primitives are exactly those of an exhausted queue
      transport, blocking and polled, with or without peeking. */
  lemma {:induction false} EmptyIsExhaustedQueue(t: Transport, peek: bool, b: MsgBuf)
    requires b.Valid() && Exhausted(t)
    ensures var c := RecvTruncWithFullSize(t, peek, b);
            c.result == Ok(EmptyRecvTruncWithFullSize(peek, b).0) && c.b == EmptyRecvTruncWithFullSize(peek, b).1
    ensures var c := RecvTrunc(t, peek, b);
            c.result == Ok(EmptyRecvTrunc(peek, b).0) && c.b == EmptyRecvTrunc(peek, b).1
    ensures var p := PollRecvTruncWithFullSize(t, peek, b);
            p.poll == Ready(Ok(EmptyRecvTruncWithFullSize(peek, b).0)) && p.b == b
    ensures var p := PollRecvTrunc(t, peek, b);
            p.poll == Ready(Ok(EmptyRecvTrunc(peek, b).0)) && p.b == b
  {
    assert t.(readiness := Rest(t.readiness)) == t;
  }

  /** `Empty::recv_msg` is what either blocking strategy would compute from
      its primitives: end of stream at once, the buffer untouched. */
  lemma {:induction false} EmptyRecvMsgMatchesStrategies(t: Transport, b: MsgBuf)
    requires b.Valid() && Exhausted(t)
    ensures var o := RecvViaRecvTrunc(t, b);
            o.result == Ok(EmptyRecvMsg(b).0) && o.b == EmptyRecvMsg(b).1
    ensures var r := RecvViaTryRecv(t, b);
            r.Done? && r.value.result == Ok(EmptyRecvMsg(b).0) && r.value.b == EmptyRecvMsg(b).1
  {
    var o := RecvViaRecvTrunc(t, b);
    assert LoopPost(t, b, true, o);
    var r := RecvViaTryRecv(t, b);
    RecvViaTryRecvNeverRetcons(t, b);
    assert TryPathPost(t, b, r.value);
  }

  /** The polled strategies on an exhausted stream are ready at the first
      poll with end of stream, as `Empty::poll_recv_msg` is. */
  lemma {:induction false} EmptyPollRecvMsgMatchesStrategies(t: Transport, b: MsgBuf, debug: bool)
    requires b.Valid() && Exhausted(t)
    ensures var r := PollRecvViaPollRecvTrunc(t, b, debug);
            r.Done? && r.value.poll == Ready(Ok(EmptyRecvMsg(b).0)) && r.value.b == b
    ensures var r := PollRecvViaPollTryRecv(t, b);
            r.Done? && r.value.poll == Ready(Ok(EmptyRecvMsg(b).0)) && r.value.b == b
  {
    PollRecvViaPollRecvTruncAgreesWithBlocking(t, b, debug);
    PollRecvViaPollTryRecvAgreesWithBlocking(t, b);
    EmptyRecvMsgMatchesStrategies(t, b);
  }
}
