/** The `TryRecv` future, the polled form of `try_recv_msg`: a state machine
    that peeks with the true size, and after a fit moves on to discarding the
    message it has just received. */
module Futures {
  import opened Base
  import opened Buf
  import opened Results
  import opened QueueTransport
  import opened SyncRecv

  /** `TryRecvState`; the buffer it borrows while receiving is passed
      alongside. */
  datatype TryRecvState = Recving | Discarding | End

  /** One poll's outcome: what it returned, and the state, transport and
      buffer after it. */
  datatype Step = Step(poll: Poll<Result<TryRecvResult, IoError>>, state: TryRecvState,
                       t: Transport, b: MsgBuf)

  /** `TryRecv::new`: a fresh future is receiving. */
  function NewTryRecv(): TryRecvState
  {
    Recving
  }

  function Stage(s: TryRecvState): nat
  {
    match s
    case Recving => 2
    case Discarding => 1
    case End => 0
  }

  /** `<TryRecv as Future>::poll`. Receiving: a pending peek leaves everything
      but the readiness oracle as it was; a peek error propagates and the
      future stays receiving; a fit moves to discarding and polls the discard
      at once; a spill clears the fill cursor and message flag and reports the
      size; end of stream is reported. Discarding: a pending discard stays
      put; a finished one ends the future with `Fit` or the error. Polling an
      ended future is fatal. */
  function PollTryRecv(st: TryRecvState, t: Transport, b: MsgBuf): (r: Checked<Step>)
    requires b.Valid()
    ensures r.Panic? <==> st.End?
    ensures r.Panic? ==> r.reason == PolledAfterCompletion
    ensures r.Done? ==> r.value.b.Valid() && r.value.b.Cap() == b.Cap()
    ensures r.Done? && r.value.poll.Pending? ==>
              r.value.state == st || (st.Recving? && r.value.state.Discarding?)
    ensures r.Done? && r.value.poll.Pending? && r.value.state == st ==>
              r.value.b == b && r.value.t.queue == t.queue && r.value.t.log == t.log
    ensures r.Done? && r.value.state.Discarding? ==> r.value.poll.Pending?
    ensures r.Done? && r.value.poll.Ready? && r.value.poll.value.Ok? ==>
              (r.value.state == End <==> r.value.poll.value.value.Fit?)
    ensures r.Done? && r.value.state == End ==>
              r.value.t.log != [] && r.value.t.log[|r.value.t.log| - 1] == Take
    decreases Stage(st)
  {
    match st
    case End => Panic(PolledAfterCompletion)
    case Discarding =>
      var (p, t1) := PollDiscardMsg(t);
      if p.Pending? then Done(Step(Pending, Discarding, t1, b))
      else Done(Step(Ready(if p.value.Ok? then Ok(TryRecvResult.Fit) else Err(p.value.error)), End, t1, b))
    case Recving =>
      var p := PollRecvTruncWithFullSize(t, true, b);
      if p.poll.Pending? then Done(Step(Pending, Recving, p.t, p.b))
      else if p.poll.value.Err? then Done(Step(p.poll, Recving, p.t, p.b))
      else if p.poll.value.value.Fit? then PollTryRecv(Discarding, p.t, p.b)
      else if p.poll.value.value.Spilled? then Done(Step(p.poll, Recving, p.t, ClearMsg(p.b)))
      else Done(Step(p.poll, Recving, p.t, p.b))
  }

  /** On a transport whose polls are all ready, one poll of a fresh future
      finishes and does exactly what blocking `try_recv_msg` does. */
  lemma {:induction false} TryRecvAgreesWithBlocking(t: Transport, b: MsgBuf)
    requires b.Valid() && t.readiness == []
    ensures var r := PollTryRecv(NewTryRecv(), t, b);
            var c := TryRecvMsg(t, b);
            r.Done? && r.value.poll == Ready(c.result) && r.value.t == c.t && r.value.b == c.b
  {
    assert t.(readiness := Rest(t.readiness)) == t;
    var p := RecvTruncWithFullSize(t, true, b);
    assert p.t.readiness == [];
    assert p.t.(readiness := Rest(p.t.readiness)) == p.t;
  }

  /** On a conforming transport a fresh future never stops halfway: the
      discard that follows a fitting peek is never pending. */
  lemma {:induction false} ConformingTryRecvNeverStallsInDiscard(t: Transport, b: MsgBuf)
    requires b.Valid() && t.conforming
    ensures var r := PollTryRecv(NewTryRecv(), t, b);
            r.Done? && !r.value.state.Discarding?
  {
  }

  /** A future stalled in its discard, once polled to completion, ends with
      `Fit` and has committed the message. */
  lemma {:induction false} DiscardingCompletesWithFit(t: Transport, b: MsgBuf)
    requires b.Valid() && NoFaults(t) && CanComplete(t) && t.queue != []
    ensures var r := PollTryRecv(Discarding, t, b);
            && r.Done? && r.value.poll == Ready(Ok(TryRecvResult.Fit)) && r.value.state == End
            && r.value.t.queue == t.queue[1..] && r.value.t.log == t.log + [Take]
  {
  }
}
