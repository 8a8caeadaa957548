/** Blocking reliable reception built on the truncating primitive:
    `try_recv_msg` (probe the size, commit only on a fit) and the two ways of
    receiving a whole message, `recv_via_recv_trunc` (grow and retry) and
    `recv_via_try_recv` (probe the size, grow once, retry once). */
module SyncRecv {
  import opened Base
  import opened Buf
  import opened Cap
  import opened Slicing
  import opened Results
  import opened QueueTransport

  /** The calls a stretch of reception added to the transport's log. */
  function NewCalls(before: Transport, after: Transport): seq<Call>
    requires |before.log| <= |after.log|
  {
    after.log[|before.log|..]
  }

  /** `after` was reached from `before` by appending to the log. */
  predicate Extends(before: Transport, after: Transport)
  {
    |before.log| <= |after.log| && after.log[..|before.log|] == before.log
  }

  /** Log extension composes, and the new calls of the composite run are
      those of the first run followed by those of the second. */
  lemma {:induction false} ExtendsTrans(a: Transport, m: Transport, c: Transport)
    requires Extends(a, m) && Extends(m, c)
    ensures Extends(a, c) && NewCalls(a, c) == NewCalls(a, m) + NewCalls(m, c)
  {
    assert c.log[..|a.log|] == c.log[..|m.log|][..|a.log|];
    assert c.log[..|m.log|] + NewCalls(m, c) == c.log;
    assert c.log[..|m.log|][|a.log|..] == NewCalls(a, m);
  }

  lemma {:induction false} PeekThenAllPeeks(s: seq<Call>)
    ensures AllPeeks(s) ==> AllPeeks([Peek] + s)
  {
    if AllPeeks(s) {
      forall i | 0 <= i < |[Peek] + s|
        ensures ([Peek] + s)[i] == Peek
      {
        if i > 0 {
          assert ([Peek] + s)[i] == s[i - 1];
        }
      }
    }
  }

  /** A leading peek changes neither whether a stretch takes nothing nor
      whether it commits exactly once, at its end. */
  lemma {:induction false} PeekThen(s: seq<Call>)
    ensures AllPeeks(s) ==> AllPeeks([Peek] + s)
    ensures CommitsOnce(s) ==> CommitsOnce([Peek] + s)
  {
    PeekThenAllPeeks(s);
    if CommitsOnce(s) {
      PeekThenAllPeeks(s[..|s| - 1]);
      assert ([Peek] + s)[..|s|] == [Peek] + s[..|s| - 1];
    }
  }

  /** `try_recv_msg(buf)`: one full-size peek; on a fit, one discard commits
      the message; on a spill, the buffer's fill cursor and message flag are
      cleared and nothing is committed; at end of stream nothing changes.
      Errors from the peek or the discard propagate with the queue intact. */
  function TryRecvMsg(t: Transport, b: MsgBuf): (c: Completed<TryRecvResult>)
    requires b.Valid()
    ensures c.b.Valid() && c.b.Cap() == b.Cap() && c.b.quota == b.quota
    ensures Extends(t, c.t) && |c.t.log| > |t.log| && c.t.log[|t.log|] == Peek
    ensures c.t.readiness == t.readiness && c.t.conforming == t.conforming
    ensures c.result == Ok(TryRecvResult.Fit) ==>
              && t.queue != [] && |t.queue[0]| <= b.Cap()
              && c.t.queue == t.queue[1..] && Msg(c.b) == Some(t.queue[0])
              && NewCalls(t, c.t) == [Peek, Take]
    ensures c.result.Ok? && c.result.value.Spilled? ==>
              && t.queue != [] && c.result.value.size == |t.queue[0]| > b.Cap()
              && c.t.queue == t.queue && c.b.fill == 0 && !c.b.hasMsg
              && NewCalls(t, c.t) == [Peek] && c.t.primed
    ensures c.result == Ok(TryRecvResult.EndOfStream) ==>
              t.queue == [] && c.t.queue == [] && c.b == b && NewCalls(t, c.t) == [Peek]
    ensures c.result.Err? ==> c.t.queue == t.queue
    ensures NoFaults(t) ==>
              && c.result.Ok? && NoFaults(c.t)
              && (c.result.value.EndOfStream? <==> t.queue == [])
              && (t.queue != [] ==> (c.result.value.Fit? <==> |t.queue[0]| <= b.Cap()))
  {
    var p := RecvTruncWithFullSize(t, true, b);
    if p.result.Err? || p.result.value.EndOfStream? then p
    else if p.result.value.Spilled? then
      Completed(Ok(TryRecvResult.Spilled(p.result.value.size)), p.t, ClearMsg(p.b))
    else
      var (d, t2) := DiscardMsg(p.t);
      assert t2.log[|t.log|..] == [Peek, Take];
      assert t.queue[0][..|t.queue[0]|] == t.queue[0];
      if d.Err? then Completed(Err(d.error), t2, p.b)
      else Completed(Ok(TryRecvResult.Fit), t2, p.b)
  }

  /** How far the front message is from fitting; the grow-and-retry loop
      decreases it on every retry. */
  function Shortfall(queue: seq<seq<byte>>, cap: nat): nat
  {
    if queue != [] && |queue[0]| > cap then |queue[0]| - cap else 0
  }

  /** What one run of the grow-and-retry loop, entered from transport `t`
      and buffer `b`, guarantees about its outcome `o`:
      - the buffer keeps its invariant and quota and never shrinks, and the
        run only appended to the log;
      - `Fit`/`Spilled`: the front message was taken off the queue by exactly
        one commit, the last call, and the buffer holds all of it;
      - `Fit` only when no peek was truncated and the message fit `b`;
      - end of stream only on an empty queue, with nothing committed;
      - over quota: nothing committed and the filled part empty;
      - an I/O error: the queue is intact, and if it came from a peek the
        filled part is empty and the message flag cleared. */
  predicate LoopPost(t: Transport, b: MsgBuf, fitFirst: bool, o: Completed<RecvResult>)
  {
    && o.b.Valid() && o.b.Cap() >= b.Cap() && o.b.quota == b.quota
    && Extends(t, o.t) && |o.t.log| > |t.log|
    && (o.result.Ok? && (o.result.value.Fit? || o.result.value.Spilled?) ==>
          && t.queue != [] && o.t.queue == t.queue[1..]
          && Msg(o.b) == Some(t.queue[0])
          && CommitsOnce(NewCalls(t, o.t)))
    && (o.result == Ok(RecvResult.Fit) ==> fitFirst && |t.queue[0]| <= b.Cap())
    && (o.result == Ok(RecvResult.Spilled) ==> !fitFirst || |t.queue[0]| > b.Cap())
    && (o.result == Ok(RecvResult.EndOfStream) ==>
          t.queue == [] && o.t.queue == [] && AllPeeks(NewCalls(t, o.t)))
    && (o.result.Ok? && o.result.value.OverQuota? ==>
          && o.t.queue == t.queue && AllPeeks(NewCalls(t, o.t)) && o.b.fill == 0
          && b.quota.Some? && o.result.value.err.quota == b.quota.value)
    && (o.result.Err? ==>
          && o.t.queue == t.queue
          && (AllPeeks(NewCalls(t, o.t)) ==> o.b.fill == 0 && !o.b.hasMsg))
  }

  /** The loop's exit after a fitting peek: one discard commits the message. */
  function CommitFitting(t: Transport, b: MsgBuf, fitFirst: bool): (o: Completed<RecvResult>)
    requires b.Valid() && RecvTrunc(t, true, b).result == Ok(Some(true))
    ensures LoopPost(t, b, fitFirst, o)
  {
    var p := RecvTrunc(t, true, b);
    var (d, t2) := DiscardMsg(p.t);
    assert NewCalls(t, t2) == [Peek, Take];
    assert NewCalls(t, t2)[1] != Peek;
    assert t.queue[0][..|t.queue[0]|] == t.queue[0];
    if d.Err? then Completed(Err(d.error), t2, p.b)
    else Completed(Ok(if fitFirst then RecvResult.Fit else RecvResult.Spilled), t2, p.b)
  }

  /** A retry after a truncated peek inherits the loop's guarantees: the
      retry's own run starts one peek later, on the same queue, from a larger
      buffer with the same quota. */
  lemma {:induction false} RetryKeepsLoopPost(t: Transport, b: MsgBuf, fitFirst: bool, grown: MsgBuf, o: Completed<RecvResult>)
    requires b.Valid()
    requires RecvTrunc(t, true, b).result == Ok(Some(false))
    requires grown.Valid() && grown.Cap() > b.Cap() && grown.quota == b.quota
    requires LoopPost(RecvTrunc(t, true, b).t, grown, false, o)
    ensures LoopPost(t, b, fitFirst, o)
  {
    var p := RecvTrunc(t, true, b);
    ExtendsTrans(t, p.t, o.t);
    assert NewCalls(t, p.t) == [Peek];
    PeekThen(NewCalls(p.t, o.t));
  }

  /** The loop of `recv_via_recv_trunc`, entered with `fitFirst` telling
      whether no peek has been truncated yet. Each iteration peeks; a peek
      error clears the buffer and propagates; end of stream returns; a fitting
      peek is committed by one discard; a truncated one empties the filled
      part and grows the buffer (at least doubling it), and a quota failure
      returns before anything is committed. Capacity strictly increases on
      every retry while the front message stays the same, so the loop ends. */
  function RecvViaRecvTruncFrom(t: Transport, b: MsgBuf, fitFirst: bool): (o: Completed<RecvResult>)
    requires b.Valid()
    ensures LoopPost(t, b, fitFirst, o)
    decreases Shortfall(t.queue, b.Cap())
  {
    var p := RecvTrunc(t, true, b);
    match p.result
    case Err(e) =>
      assert NewCalls(t, p.t) == [Peek];
      Completed(Err(e), p.t, ClearMsg(p.b))
    case Ok(None) =>
      assert NewCalls(t, p.t) == [Peek];
      Completed(Ok(RecvResult.EndOfStream), p.t, p.b)
    case Ok(Some(fit)) =>
      if fit then CommitFitting(t, b, fitFirst)
      else
        var cleared := SetFill(p.b, 0).value;
        assert NewCalls(t, p.t) == [Peek];
        match ClearAndGrow(cleared)
        case Err(qe) => Completed(Ok(RecvResult.OverQuota(qe)), p.t, cleared)
        case Ok(grown) =>
          var o := RecvViaRecvTruncFrom(p.t, grown, false);
          RetryKeepsLoopPost(t, b, fitFirst, grown, o);
          o
  }

  /** `recv_via_recv_trunc(buf)`: the loop's guarantees, with `Fit` meaning
      the message fit the buffer as passed in. */
  function RecvViaRecvTrunc(t: Transport, b: MsgBuf): (o: Completed<RecvResult>)
    requires b.Valid()
    ensures LoopPost(t, b, true, o)
    ensures o.result == Ok(RecvResult.Fit) <==>
              o.result.Ok? && (o.result.value.Fit? || o.result.value.Spilled?)
              && |t.queue[0]| <= b.Cap()
  {
    RecvViaRecvTruncFrom(t, b, true)
  }

  /** What whole-message reception should report when nothing fails: end of
      stream on an empty queue, otherwise `Fit` exactly when the front
      message fits the buffer as it was. */
  function Expected(t: Transport, b: MsgBuf): RecvResult
  {
    if t.queue == [] then RecvResult.EndOfStream
    else if |t.queue[0]| <= b.Cap() then RecvResult.Fit
    else RecvResult.Spilled
  }

  /** Without faults or a quota the grow-and-retry loop always succeeds with
      the reference outcome (a retried loop never reports `Fit`). */
  lemma {:induction false} RecvViaRecvTruncFromMeetsReference(t: Transport, b: MsgBuf, fitFirst: bool)
    requires b.Valid() && NoFaults(t) && b.quota.None?
    ensures var o := RecvViaRecvTruncFrom(t, b, fitFirst);
            o.result == Ok(if t.queue == [] then RecvResult.EndOfStream
                           else if fitFirst && |t.queue[0]| <= b.Cap() then RecvResult.Fit
                           else RecvResult.Spilled)
            && NoFaults(o.t)
    decreases Shortfall(t.queue, b.Cap())
  {
    var p := RecvTrunc(t, true, b);
    if p.result == Ok(Some(false)) {
      var cleared := SetFill(p.b, 0).value;
      var grown := ClearAndGrow(cleared).value;
      RecvViaRecvTruncFromMeetsReference(p.t, grown, false);
    }
  }

  /** `recv_via_recv_trunc` meets the reference when nothing fails. */
  lemma {:induction false} RecvViaRecvTruncMeetsReference(t: Transport, b: MsgBuf)
    requires b.Valid() && NoFaults(t) && b.quota.None?
    ensures RecvViaRecvTrunc(t, b).result == Ok(Expected(t, b))
  {
    RecvViaRecvTruncFromMeetsReference(t, b, true);
  }

  /** What `recv_via_try_recv`, entered from transport `t` and buffer `b`,
      guarantees about its outcome `o`: the buffer keeps its invariant and
      never shrinks, and the log only grows; `Fit`/`Spilled` commit the front
      message exactly once, as the last call, with all of it in the buffer,
      and `Fit` exactly when it fit `b`; end of stream only on an empty queue;
      over quota commits nothing, leaves the buffer without a message, and
      reports the raised message size as the attempted allocation; an I/O
      error leaves the queue intact. */
  predicate TryPathPost(t: Transport, b: MsgBuf, o: Completed<RecvResult>)
  {
    && o.b.Valid() && o.b.Cap() >= b.Cap()
    && Extends(t, o.t) && |o.t.log| > |t.log|
    && (o.result.Ok? && (o.result.value.Fit? || o.result.value.Spilled?) ==>
          && t.queue != [] && o.t.queue == t.queue[1..]
          && Msg(o.b) == Some(t.queue[0])
          && CommitsOnce(NewCalls(t, o.t)))
    && (o.result == Ok(RecvResult.Fit) ==> |t.queue[0]| <= b.Cap())
    && (o.result == Ok(RecvResult.Spilled) ==> |t.queue[0]| > b.Cap())
    && (o.result == Ok(RecvResult.EndOfStream) ==> t.queue == [] && o.t.queue == [])
    && (o.result.Ok? && o.result.value.OverQuota? ==>
          && t.queue != [] && o.t.queue == t.queue && AllPeeks(NewCalls(t, o.t))
          && o.b.fill == 0 && !o.b.hasMsg && b.quota.Some?
          && o.result.value.err == QuotaExceeded(b.quota.value, Raised(|t.queue[0]|)))
    && (o.result.Err? ==> o.t.queue == t.queue)
  }

  /** The second half of `recv_via_try_recv`, after a probe reported a spill
      of `sz` bytes: empty the buffer and grow it to `sz` (a quota failure is
      an outcome, with nothing committed), then probe again. A second spill
      is the retcon panic; end of stream is passed on. */
  function GrowAndRetry(t: Transport, b: MsgBuf): (r: Checked<Completed<RecvResult>>)
    requires b.Valid()
    requires TryRecvMsg(t, b).result.Ok? && TryRecvMsg(t, b).result.value.Spilled?
    ensures r.Done? ==> TryPathPost(t, b, r.value)
  {
    var first := TryRecvMsg(t, b);
    assert NewCalls(t, first.t) == [Peek];
    match ClearAndGrowTo(first.b, first.result.value.size)
    case Err(qe) => Done(Completed(Ok(RecvResult.OverQuota(qe)), first.t, first.b))
    case Ok(grown) =>
      var second := TryRecvMsg(first.t, grown);
      ExtendsTrans(t, first.t, second.t);
      if second.result.Err? then Done(Completed(Err(second.result.error), second.t, second.b))
      else match second.result.value
        case Fit =>
          assert NewCalls(t, second.t) == [Peek, Peek, Take];
          Done(Completed(Ok(RecvResult.Spilled), second.t, second.b))
        case Spilled(_) => Panic(SizeRetcon)
        case EndOfStream => Done(Completed(Ok(RecvResult.EndOfStream), second.t, second.b))
  }

  /** `recv_via_try_recv(buf)`: probe; a fit or end of stream is the outcome,
      a spill goes on to grow once and retry once. */
  function RecvViaTryRecv(t: Transport, b: MsgBuf): (r: Checked<Completed<RecvResult>>)
    requires b.Valid()
    ensures r.Done? ==> TryPathPost(t, b, r.value)
  {
    var first := TryRecvMsg(t, b);
    if first.result.Err? then Done(Completed(Err(first.result.error), first.t, first.b))
    else if first.result.value.Spilled? then GrowAndRetry(t, b)
    else Done(Completed(Ok(ToRecvResult(first.result.value)), first.t, first.b))
  }

  /** On the queue transport the retry after growth never spills again, so
      `recv_via_try_recv` never reaches the retcon panic. */
  lemma {:induction false} RecvViaTryRecvNeverRetcons(t: Transport, b: MsgBuf)
    requires b.Valid()
    ensures RecvViaTryRecv(t, b).Done?
  {
    var first := TryRecvMsg(t, b);
    if first.result.Ok? && first.result.value.Spilled? {
      var r := ClearAndGrowTo(first.b, first.result.value.size);
      if r.Ok? {
        var second := TryRecvMsg(first.t, r.value);
        assert second.result.Ok? ==> second.result.value.Fit?;
      }
    }
  }

  /** `recv_via_try_recv` meets the reference when nothing fails. */
  lemma {:induction false} RecvViaTryRecvMeetsReference(t: Transport, b: MsgBuf)
    requires b.Valid() && NoFaults(t) && b.quota.None?
    ensures RecvViaTryRecv(t, b).Done?
    ensures RecvViaTryRecv(t, b).value.result == Ok(Expected(t, b))
  {
    RecvViaTryRecvNeverRetcons(t, b);
    var first := TryRecvMsg(t, b);
    if first.result.Ok? && first.result.value.Spilled? {
      var grown := ClearAndGrowTo(first.b, first.result.value.size).value;
      var second := TryRecvMsg(first.t, grown);
    }
  }

  /** Without faults or a quota the two strategies agree: same outcome, same
      queue afterwards, and the same message in the buffer. */
  lemma {:induction false} StrategiesAgree(t: Transport, b: MsgBuf)
    requires b.Valid() && NoFaults(t) && b.quota.None?
    ensures var a := RecvViaRecvTrunc(t, b);
            var v := RecvViaTryRecv(t, b).value;
            && RecvViaTryRecv(t, b).Done?
            && a.result == v.result
            && a.t.queue == v.t.queue
            && (a.result != Ok(RecvResult.EndOfStream) ==> Msg(a.b) == Msg(v.b))
  {
    RecvViaRecvTruncMeetsReference(t, b);
    RecvViaTryRecvMeetsReference(t, b);
  }
}
