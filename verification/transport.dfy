/** An abstract message-queue transport standing in for the sockets: the
    primitive "peek or take one message, report fit or truncation (with the
    true size)" operation, blocking and polled, together with the contract
    notes the reception traits place on it.

    The transport's environment is given as oracles: `faults` says, call by
    call, whether the next completed primitive call fails with an I/O error
    (an exhausted oracle means no more faults), and `readiness` says, poll by
    poll, whether a polled primitive call can complete now (exhausted means
    always ready). A blocking call on an empty queue reports end of stream. */
module QueueTransport {
  import opened Base
  import opened Buf
  import opened Slicing
  import opened Results
  import Conv

  /** An I/O error; `WouldBlock` is the kind a readiness loop retries on. */
  datatype IoError = WouldBlock | Failure(code: nat)

  /** One completed primitive call, as recorded in the transport's log. */
  datatype Call = Peek | Take

  /** `core::task::Poll`. */
  datatype Poll<+T> = Ready(value: T) | Pending

  datatype Transport = Transport(
    queue: seq<seq<byte>>,          // messages not yet taken, front first
    faults: seq<Option<IoError>>,   // fault oracle, one entry per completed call
    readiness: seq<bool>,           // readiness oracle, one entry per poll
    log: seq<Call>,                 // completed primitive calls, oldest first
    primed: bool,                   // the last poll was a completed peek
    conforming: bool                // honours "no Pending after a ready peek"
  )

  /** Every call in the stretch was a peek: nothing was taken off the queue. */
  predicate AllPeeks(calls: seq<Call>)
  {
    forall i :: 0 <= i < |calls| ==> calls[i] == Peek
  }

  /** The stretch commits exactly once, as its last call. */
  predicate CommitsOnce(calls: seq<Call>)
  {
    |calls| > 0 && calls[|calls| - 1] == Take && AllPeeks(calls[..|calls| - 1])
  }

  predicate NoFaults(t: Transport)
  {
    forall i :: 0 <= i < |t.faults| ==> t.faults[i].None?
  }

  function NextFault(t: Transport): Option<IoError>
  {
    if |t.faults| == 0 then None else t.faults[0]
  }

  function Rest<T>(s: seq<T>): (r: seq<T>)
    ensures |s| > 0 ==> r == s[1..]
    ensures |s| == 0 ==> r == []
  {
    if |s| == 0 then [] else s[1..]
  }

  /** Consuming a fault entry keeps a fault-free oracle fault-free. */
  lemma {:induction false} NoFaultsRest(t: Transport, u: Transport)
    requires u.faults == Rest(t.faults)
    ensures NoFaults(t) ==> NoFaults(u) && NextFault(t).None?
  {
    if NoFaults(t) {
      forall i | 0 <= i < |u.faults|
        ensures u.faults[i].None?
      {
        assert u.faults[i] == t.faults[i + 1];
      }
    }
  }

  /** Writes as much of `m` as fits at the start of the buffer: the fill
      cursor becomes the truncated size, the initialisation cursor only moves
      forward, and the buffer now holds a message. */
  function Deliver(b: MsgBuf, m: seq<byte>): (r: MsgBuf)
    requires b.Valid()
    ensures r.Valid() && r.Cap() == b.Cap()
    ensures r.fill == Min(|m|, b.Cap()) && r.init == Max(b.init, r.fill)
    ensures FilledPart(r) == m[..Min(|m|, b.Cap())] && r.hasMsg
    ensures r.borrowed == b.borrowed && r.backing == b.backing && r.quota == b.quota
  {
    var n := Min(|m|, |b.mem|);
    b.(mem := m[..n] + b.mem[n..], fill := n, init := Max(b.init, n), hasMsg := true)
  }

  /** A primitive call that has completed: its result, and the transport and
      buffer after it. */
  datatype Completed<+T> = Completed(result: Result<T, IoError>, t: Transport, b: MsgBuf)

  /** What the truncating-reception contract asks of one completed call that
      started from buffer `b` and left `c`: the capacity is untouched, the
      initialisation cursor does not go back, and a received message sets the
      message flag and leaves the fill cursor at its truncated size. */
  predicate RecvTruncContract(b: MsgBuf, fullSize: nat, received: bool, c: MsgBuf)
  {
    && c.Cap() == b.Cap()
    && c.init >= b.init
    && (received ==> c.hasMsg && c.fill == Min(fullSize, b.Cap()))
    && (!received ==> c.fill == b.fill)
  }

  /** `recv_trunc_with_full_size(peek, buf)` on the queue transport, for a call
      that completes. The next fault, if any, fails the call with the buffer
      and queue untouched; an empty queue is end of stream; otherwise the
      front message is delivered (truncated to the capacity), taken off the
      queue unless peeking, and reported as fitting or with its true size. */
  function RecvTruncWithFullSize(t: Transport, peek: bool, b: MsgBuf): (c: Completed<TryRecvResult>)
    requires b.Valid()
    ensures c.b.Valid()
    ensures c.t.log == t.log + [if peek then Peek else Take] && c.t.faults == Rest(t.faults)
    ensures c.t.primed == peek && c.t.readiness == t.readiness && c.t.conforming == t.conforming
    ensures c.result.Err? <==> NextFault(t).Some?
    ensures c.result.Err? ==> c.result.error == NextFault(t).value
    ensures c.result.Err? || t.queue == [] ==> c.b == b && c.t.queue == t.queue
    ensures c.result.Ok? ==> (c.result.value.EndOfStream? <==> t.queue == [])
    ensures c.result.Ok? && t.queue != [] ==>
              && c.b.fill == Min(|t.queue[0]|, b.Cap())
              && Msg(c.b) == Some(t.queue[0][..c.b.fill])
              && (c.result.value.Fit? <==> |t.queue[0]| <= b.Cap())
              && (c.result.value.Spilled? ==> c.result.value.size == |t.queue[0]|)
              && c.t.queue == (if peek then t.queue else t.queue[1..])
    ensures RecvTruncContract(b, if t.queue == [] then 0 else |t.queue[0]|,
                              c.result.Ok? && t.queue != [], c.b)
    ensures NoFaults(t) ==> NoFaults(c.t)
  {
    var t1 := t.(faults := Rest(t.faults), log := t.log + [if peek then Peek else Take], primed := peek);
    NoFaultsRest(t, t1);
    match NextFault(t)
    case Some(e) => Completed(Err(e), t1, b)
    case None =>
      if |t.queue| == 0 then Completed(Ok(TryRecvResult.EndOfStream), t1, b)
      else
        var m := t.queue[0];
        var delivered := Deliver(b, m);
        var t2 := t1.(queue := if peek then t.queue else t.queue[1..]);
        Completed(Ok(if |m| <= |b.mem| then TryRecvResult.Fit else TryRecvResult.Spilled(|m|)), t2, delivered)
  }

  /** With `peek`, the message stays queued: a second call sees the same
      message, and a buffer at least as large receives at least as much of it,
      agreeing on the common prefix. */
  lemma {:induction false} PeekIsRepeatable(t: Transport, b: MsgBuf, b2: MsgBuf)
    requires b.Valid() && b2.Valid() && b2.Cap() >= b.Cap()
    requires NoFaults(t) && t.queue != []
    ensures var c := RecvTruncWithFullSize(t, true, b);
            var c2 := RecvTruncWithFullSize(c.t, true, b2);
            && c.t.queue == t.queue && c2.t.queue == t.queue
            && c.b.fill <= c2.b.fill
            && c.b.mem[..c.b.fill] == c2.b.mem[..c.b.fill] == t.queue[0][..c.b.fill]
            && (c.result.value.Fit? ==> c2.result.value.Fit?)
  {
    var c := RecvTruncWithFullSize(t, true, b);
    var c2 := RecvTruncWithFullSize(c.t, true, b2);
    assert c2.b.mem[..c.b.fill] == c2.b.mem[..c2.b.fill][..c.b.fill];
  }

  /** `recv_trunc(peek, buf)` through `recv_trunc_via_recv_trunc_with_full_size`:
      `Fit` becomes `Some(true)`, a spill `Some(false)`, end of stream `None`,
      and the capacity is unchanged. */
  function RecvTrunc(t: Transport, peek: bool, b: MsgBuf): (c: Completed<Option<bool>>)
    requires b.Valid()
    ensures c.b.Valid() && c.b.Cap() == b.Cap()
    ensures var f := RecvTruncWithFullSize(t, peek, b);
            && c.t == f.t && c.b == f.b
            && (c.result.Err? <==> f.result.Err?)
            && (c.result.Err? ==> c.result.error == f.result.error)
            && (c.result.Ok? ==>
                  && (c.result.value == None <==> f.result.value.EndOfStream?)
                  && (c.result.value == Some(true) <==> f.result.value.Fit?)
                  && (c.result.value == Some(false) <==> f.result.value.Spilled?))
  {
    var f := RecvTruncWithFullSize(t, peek, b);
    match f.result
    case Err(e) => Completed(Err(e), f.t, f.b)
    case Ok(r) =>
      Completed(Ok(match r
                    case Fit => Some(true)
                    case Spilled(_) => Some(false)
                    case EndOfStream => None), f.t, f.b)
  }

  /** The one-byte scratch buffer the default `discard_msg` receives into. */
  function Scratch(): (s: MsgBuf)
    ensures s.Valid() && s.Cap() == 1
  {
    Conv.FromBorrowedInit([0])
  }

  /** The default `discard_msg()`: one taking call into a scratch buffer. Its
      value is ignored; an error propagates. */
  function DiscardMsg(t: Transport): (r: (Result<(), IoError>, Transport))
    ensures r.1.log == t.log + [Take] && r.1.faults == Rest(t.faults) && !r.1.primed
    ensures r.1.readiness == t.readiness && r.1.conforming == t.conforming
    ensures r.0.Err? <==> NextFault(t).Some?
    ensures r.0.Err? ==> r.0.error == NextFault(t).value && r.1.queue == t.queue
    ensures r.0.Ok? ==> r.1.queue == Rest(t.queue)
    ensures NoFaults(t) ==> NoFaults(r.1)
  {
    var c := RecvTrunc(t, false, Scratch());
    (if c.result.Ok? then Ok(()) else Err(c.result.error), c.t)
  }

  /** Readiness of the next poll: a conforming transport is always ready right
      after a completed peek, whatever the oracle says. */
  predicate CanComplete(t: Transport)
  {
    |t.readiness| == 0 || t.readiness[0] || (t.conforming && t.primed)
  }

  /** A poll's outcome with the transport and buffer after it. */
  datatype Polled<+T> = Polled(poll: Poll<Result<T, IoError>>, t: Transport, b: MsgBuf)

  /** `poll_recv_trunc_with_full_size(peek, buf)`: consumes one readiness
      entry; if the call cannot complete it is `Pending` and changes nothing
      else (and the transport is no longer primed), otherwise it is the
      blocking call. */
  function PollRecvTruncWithFullSize(t: Transport, peek: bool, b: MsgBuf): (p: Polled<TryRecvResult>)
    requires b.Valid()
    ensures p.b.Valid()
    ensures p.poll.Pending? <==> !CanComplete(t)
    ensures t.conforming && t.primed ==> p.poll.Ready?
    ensures p.poll.Pending? ==>
              p.b == b && p.t == t.(readiness := Rest(t.readiness), primed := false)
    ensures p.poll.Ready? ==>
              Completed(p.poll.value, p.t, p.b)
                == RecvTruncWithFullSize(t.(readiness := Rest(t.readiness)), peek, b)
  {
    var t1 := t.(readiness := Rest(t.readiness));
    if !CanComplete(t) then Polled(Pending, t1.(primed := false), b)
    else
      var c := RecvTruncWithFullSize(t1, peek, b);
      Polled(Ready(c.result), c.t, c.b)
  }

  /** `poll_recv_trunc_via_poll_recv_trunc_with_full_size`: the same mapping
      as the blocking translation, with `Pending` passed through. */
  function PollRecvTrunc(t: Transport, peek: bool, b: MsgBuf): (p: Polled<Option<bool>>)
    requires b.Valid()
    ensures p.b.Valid() && p.b.Cap() == b.Cap()
    ensures p.poll.Pending? <==> !CanComplete(t)
    ensures p.poll.Pending? ==>
              p.b == b && p.t == t.(readiness := Rest(t.readiness), primed := false)
    ensures p.poll.Ready? ==>
              Completed(p.poll.value, p.t, p.b)
                == RecvTrunc(t.(readiness := Rest(t.readiness)), peek, b)
  {
    var f := PollRecvTruncWithFullSize(t, peek, b);
    match f.poll
    case Pending => Polled(Pending, f.t, f.b)
    case Ready(r) =>
      var c := RecvTrunc(t.(readiness := Rest(t.readiness)), peek, b);
      Polled(Ready(c.result), c.t, c.b)
  }

  /** The default `poll_discard_msg()`: one taking poll into a scratch buffer;
      `Pending` propagates, any received value becomes `Ok(())`. A conforming
      transport does not suspend it right after a completed peek. */
  function PollDiscardMsg(t: Transport): (r: (Poll<Result<(), IoError>>, Transport))
    ensures r.0.Pending? <==> !CanComplete(t)
    ensures t.conforming && t.primed ==> r.0.Ready?
    ensures r.0.Pending? ==> r.1 == t.(readiness := Rest(t.readiness), primed := false)
    ensures r.0.Ready? ==> (r.0.value, r.1) == DiscardMsg(t.(readiness := Rest(t.readiness)))
  {
    var p := PollRecvTrunc(t, false, Scratch());
    match p.poll
    case Pending => (Pending, p.t)
    case Ready(Ok(_)) => (Ready(Ok(())), p.t)
    case Ready(Err(e)) => (Ready(Err(e)), p.t)
  }
}
