/** Polled reliable reception: `poll_recv_via_poll_recv_trunc` (grow and
    retry) and `poll_recv_via_poll_try_recv` (probe, grow once, retry once),
    each a single poll that either finishes or suspends. */
module AsyncRecv {
  import opened Base
  import opened Buf
  import opened Cap
  import opened Results
  import opened QueueTransport
  import opened SyncRecv
  import opened Futures

  /** The transport with its readiness oracle forgotten: what blocking code
      sees of it. */
  function Strip(t: Transport): Transport
  {
    t.(readiness := [])
  }

  /** The loop of `poll_recv_via_poll_recv_trunc`. `first` says no peek has
      completed yet in this poll, `fitFirst` that no peek was truncated. A
      pending peek suspends the poll, but after a completed peek that breaks
      the transport's contract and is fatal in debug builds. A peek error
      clears the buffer; a fitting peek is committed by one discard, which
      must not be pending; a truncated peek empties the filled part and grows
      the buffer to twice its capacity, and a quota failure is an outcome. */
  function PollViaTruncFrom(t: Transport, b: MsgBuf, first: bool, fitFirst: bool, debug: bool): (r: Checked<Polled<RecvResult>>)
    requires b.Valid()
    requires !first ==> t.primed
    ensures r.Done? ==> r.value.b.Valid() && r.value.b.Cap() >= b.Cap()
    ensures r.Done? && r.value.poll.Pending? ==> r.value.t.queue == t.queue
    ensures first && !CanComplete(t) ==>
              r == Done(Polled(Pending, t.(readiness := Rest(t.readiness), primed := false), b))
    ensures r.Panic? ==>
              && !t.conforming
              && (r.reason == PendingAfterPeek ==> debug)
              && (r.reason == PendingAfterPeek || r.reason == DiscardPendingAfterPeek)
    decreases Shortfall(t.queue, b.Cap())
  {
    var p := PollRecvTrunc(t, true, b);
    match p.poll
    case Pending =>
      if !first && debug then Panic(PendingAfterPeek) else Done(Polled(Pending, p.t, p.b))
    case Ready(Err(e)) => Done(Polled(Ready(Err(e)), p.t, ClearMsg(p.b)))
    case Ready(Ok(None)) => Done(Polled(Ready(Ok(RecvResult.EndOfStream)), p.t, p.b))
    case Ready(Ok(Some(fit))) =>
      var stillFitFirst := if first && !fit then false else fitFirst;
      if fit then PollCommitFitting(p.t, p.b, stillFitFirst)
      else
        var cleared := SetFill(p.b, 0).value;
        match EnsureCapacity(cleared, 2 * cleared.Cap())
        case Err(qe) => Done(Polled(Ready(Ok(RecvResult.OverQuota(qe))), p.t, cleared))
        case Ok(grown) =>
          assert p.t.queue == t.queue && |t.queue[0]| > b.Cap() && grown.Cap() > b.Cap();
          PollViaTruncFrom(p.t, grown, false, stillFitFirst, debug)
  }

  /** The commit after a fitting completed peek: one discard poll, which only
      a transport breaking its contract suspends, and which is fatal then. */
  function PollCommitFitting(t: Transport, b: MsgBuf, fitFirst: bool): (r: Checked<Polled<RecvResult>>)
    requires t.primed
    ensures r.Panic? <==> !CanComplete(t)
    ensures r.Panic? ==> !t.conforming && r.reason == DiscardPendingAfterPeek
    ensures r.Done? ==> r.value.b == b && r.value.poll.Ready?
    ensures r.Done? && r.value.poll.value.Ok? ==>
              r.value.poll.value.value == (if fitFirst then RecvResult.Fit else RecvResult.Spilled)
  {
    var (d, t2) := PollDiscardMsg(t);
    match d
    case Pending => Panic(DiscardPendingAfterPeek)
    case Ready(Err(e)) => Done(Polled(Ready(Err(e)), t2, b))
    case Ready(Ok(_)) =>
      Done(Polled(Ready(Ok(if fitFirst then RecvResult.Fit else RecvResult.Spilled)), t2, b))
  }

  /** `poll_recv_via_poll_recv_trunc(buf)`; `debug` stands for
      `cfg!(debug_assertions)`. */
  function PollRecvViaPollRecvTrunc(t: Transport, b: MsgBuf, debug: bool): (r: Checked<Polled<RecvResult>>)
    requires b.Valid()
    ensures r.Done? ==> r.value.b.Valid() && r.value.b.Cap() >= b.Cap()
    ensures !CanComplete(t) ==>
              r == Done(Polled(Pending, t.(readiness := Rest(t.readiness), primed := false), b))
    ensures r.Panic? ==> !t.conforming
  {
    PollViaTruncFrom(t, b, true, true, debug)
  }

  /** The queue transport's primitive does not look at the readiness
      oracle. */
  lemma {:induction false} PrimitiveIgnoresReadiness(t: Transport, peek: bool, b: MsgBuf)
    requires b.Valid()
    ensures var c := RecvTruncWithFullSize(t, peek, b);
            var s := RecvTruncWithFullSize(Strip(t), peek, b);
            c.result == s.result && c.b == s.b && Strip(c.t) == s.t
  {
  }

  /** A completed truncating poll is the blocking call on the stripped
      transport. */
  lemma {:induction false} ReadyPeekIsBlockingPeek(t: Transport, b: MsgBuf)
    requires b.Valid()
    ensures var p := PollRecvTrunc(t, true, b);
            var s := RecvTrunc(Strip(t), true, b);
            p.poll.Ready? ==> p.poll.value == s.result && p.b == s.b && Strip(p.t) == s.t
  {
    assert Strip(t.(readiness := Rest(t.readiness))) == Strip(t);
    PrimitiveIgnoresReadiness(t.(readiness := Rest(t.readiness)), true, b);
  }

  /** A completed discard poll is the blocking discard on the stripped
      transport. */
  lemma {:induction false} ReadyDiscardIsBlockingDiscard(t: Transport)
    ensures var (d, t2) := PollDiscardMsg(t);
            var (e, s2) := DiscardMsg(Strip(t));
            d.Ready? ==> d.value == e && Strip(t2) == s2
  {
    assert Strip(t.(readiness := Rest(t.readiness))) == Strip(t);
    PrimitiveIgnoresReadiness(t.(readiness := Rest(t.readiness)), false, Scratch());
  }

  /** After a fitting completed peek, the polled and the blocking loop
      commit alike. */
  lemma {:induction false} CommitSimulatesBlocking(t: Transport, b: MsgBuf, first: bool, fitFirst: bool, debug: bool)
    requires b.Valid() && (first || !fitFirst) && (!first ==> t.primed)
    requires PollRecvTrunc(t, true, b).poll == Ready(Ok(Some(true)))
    ensures var r := PollViaTruncFrom(t, b, first, fitFirst, debug);
            var o := RecvViaRecvTruncFrom(Strip(t), b, fitFirst);
            r.Done? && r.value.poll.Ready? ==>
              r.value.poll.value == o.result && Strip(r.value.t) == o.t && r.value.b == o.b
  {
    var p := PollRecvTrunc(t, true, b);
    ReadyPeekIsBlockingPeek(t, b);
    ReadyDiscardIsBlockingDiscard(p.t);
    var s := RecvTrunc(Strip(t), true, b);
    assert s.result == Ok(Some(true));
    assert RecvViaRecvTruncFrom(Strip(t), b, fitFirst) == CommitFitting(Strip(t), b, fitFirst);
  }

  /** A poll that finishes is the blocking loop run on the same transport
      with its readiness forgotten: same outcome, same buffer, same queue and
      log. */
  lemma {:induction false} PollViaTruncFromSimulatesBlocking(t: Transport, b: MsgBuf, first: bool, fitFirst: bool, debug: bool)
    requires b.Valid() && (first || !fitFirst) && (!first ==> t.primed)
    ensures var r := PollViaTruncFrom(t, b, first, fitFirst, debug);
            var o := RecvViaRecvTruncFrom(Strip(t), b, fitFirst);
            r.Done? && r.value.poll.Ready? ==>
              r.value.poll.value == o.result && Strip(r.value.t) == o.t && r.value.b == o.b
    decreases Shortfall(t.queue, b.Cap()), 1
  {
    var p := PollRecvTrunc(t, true, b);
    ReadyPeekIsBlockingPeek(t, b);
    if p.poll == Ready(Ok(Some(true))) {
      CommitSimulatesBlocking(t, b, first, fitFirst, debug);
    } else if p.poll == Ready(Ok(Some(false))) {
      RetrySimulatesBlocking(t, b, first, fitFirst, debug);
    }
  }

  /** After a truncated completed peek, both loops clear and grow the buffer
      alike and retry on the same queue. */
  lemma {:induction false} RetrySimulatesBlocking(t: Transport, b: MsgBuf, first: bool, fitFirst: bool, debug: bool)
    requires b.Valid() && (first || !fitFirst) && (!first ==> t.primed)
    requires PollRecvTrunc(t, true, b).poll == Ready(Ok(Some(false)))
    ensures var r := PollViaTruncFrom(t, b, first, fitFirst, debug);
            var o := RecvViaRecvTruncFrom(Strip(t), b, fitFirst);
            r.Done? && r.value.poll.Ready? ==>
              r.value.poll.value == o.result && Strip(r.value.t) == o.t && r.value.b == o.b
    decreases Shortfall(t.queue, b.Cap()), 0
  {
    var p := PollRecvTrunc(t, true, b);
    ReadyPeekIsBlockingPeek(t, b);
    var s := RecvTrunc(Strip(t), true, b);
    var cleared := SetFill(p.b, 0).value;
    assert SetFill(cleared, 0).value == cleared;
    var g := EnsureCapacity(cleared, 2 * cleared.Cap());
    assert ClearAndGrow(cleared) == g;
    if g.Ok? {
      var next := if first then false else fitFirst;
      PollViaTruncFromSimulatesBlocking(p.t, g.value, false, next, debug);
      assert PollViaTruncFrom(t, b, first, fitFirst, debug)
          == PollViaTruncFrom(p.t, g.value, false, next, debug);
      assert RecvViaRecvTruncFrom(Strip(t), b, fitFirst)
          == RecvViaRecvTruncFrom(Strip(p.t), g.value, false);
    }
  }

  /** On a transport whose polls are all ready, the polled grow-and-retry
      reception finishes in one poll with exactly the blocking outcome. */
  lemma {:induction false} PollRecvViaPollRecvTruncAgreesWithBlocking(t: Transport, b: MsgBuf, debug: bool)
    requires b.Valid() && t.readiness == []
    ensures var r := PollRecvViaPollRecvTrunc(t, b, debug);
            var o := RecvViaRecvTrunc(t, b);
            r == Done(Polled(Ready(o.result), o.t, o.b))
  {
    PollViaTruncFromSimulatesBlocking(t, b, true, true, debug);
    AllReadyFinishes(t, b, true, true, debug);
  }

  /** With every poll ready, the loop neither suspends nor panics. */
  lemma {:induction false} AllReadyFinishes(t: Transport, b: MsgBuf, first: bool, fitFirst: bool, debug: bool)
    requires b.Valid() && t.readiness == [] && (!first ==> t.primed)
    ensures var r := PollViaTruncFrom(t, b, first, fitFirst, debug);
            r.Done? && r.value.poll.Ready? && r.value.t.readiness == []
    decreases Shortfall(t.queue, b.Cap()), 1
  {
    var p := PollRecvTrunc(t, true, b);
    assert p.poll.Ready? && p.t.readiness == [];
    if p.poll == Ready(Ok(Some(true))) {
      assert PollDiscardMsg(p.t).0.Ready?;
    } else if p.poll == Ready(Ok(Some(false))) {
      AllReadyRetryFinishes(t, b, first, fitFirst, debug);
    }
  }

  /** The retry after a truncated peek keeps every poll ready. */
  lemma {:induction false} AllReadyRetryFinishes(t: Transport, b: MsgBuf, first: bool, fitFirst: bool, debug: bool)
    requires b.Valid() && t.readiness == [] && (!first ==> t.primed)
    requires PollRecvTrunc(t, true, b).poll == Ready(Ok(Some(false)))
    ensures var r := PollViaTruncFrom(t, b, first, fitFirst, debug);
            r.Done? && r.value.poll.Ready? && r.value.t.readiness == []
    decreases Shortfall(t.queue, b.Cap()), 0
  {
    var p := PollRecvTrunc(t, true, b);
    assert p.t.readiness == [];
    var cleared := SetFill(p.b, 0).value;
    var g := EnsureCapacity(cleared, 2 * cleared.Cap());
    if g.Ok? {
      var next := if first then false else fitFirst;
      AllReadyFinishes(p.t, g.value, false, next, debug);
      assert PollViaTruncFrom(t, b, first, fitFirst, debug)
          == PollViaTruncFrom(p.t, g.value, false, next, debug);
    }
  }

  /** A conforming transport that can complete the first peek never
      suspends the rest of the poll, so the poll finishes without panicking. */
  lemma {:induction false} ConformingFinishesOncePrimed(t: Transport, b: MsgBuf, first: bool, fitFirst: bool, debug: bool)
    requires b.Valid() && t.conforming && (CanComplete(t) || !first)
    requires !first ==> t.primed
    ensures var r := PollViaTruncFrom(t, b, first, fitFirst, debug);
            r.Done? && r.value.poll.Ready?
    decreases Shortfall(t.queue, b.Cap())
  {
    var p := PollRecvTrunc(t, true, b);
    if p.poll.Ready? && p.poll.value.Ok? && p.poll.value.value.Some? && !p.poll.value.value.value {
      var cleared := SetFill(p.b, 0).value;
      var g := EnsureCapacity(cleared, 2 * cleared.Cap());
      if g.Ok? {
        ConformingFinishesOncePrimed(p.t, g.value, false, if first then false else fitFirst, debug);
      }
    }
  }

  /** `poll_recv_via_poll_try_recv(buf)`: one poll of a fresh `TryRecv`
      future; on a spill of `sz` bytes, grow to `sz` (a quota failure is an
      outcome) and poll a second fresh future, which must not spill again. A
      pending future suspends the whole poll. */
  function PollRecvViaPollTryRecv(t: Transport, b: MsgBuf): (r: Checked<Polled<RecvResult>>)
    requires b.Valid()
    ensures r.Done? ==> r.value.b.Valid() && r.value.b.Cap() >= b.Cap()
    ensures r.Panic? ==> r.reason == SizeRetcon
    ensures !CanComplete(t) ==>
              r == Done(Polled(Pending, t.(readiness := Rest(t.readiness), primed := false), b))
  {
    var s1 := PollTryRecv(NewTryRecv(), t, b);
    var first := s1.value;
    match first.poll
    case Pending => Done(Polled(Pending, first.t, first.b))
    case Ready(Err(e)) => Done(Polled(Ready(Err(e)), first.t, first.b))
    case Ready(Ok(res)) =>
      if !res.Spilled? then Done(Polled(Ready(Ok(ToRecvResult(res))), first.t, first.b))
      else
        match EnsureCapacity(first.b, res.size)
        case Err(qe) => Done(Polled(Ready(Ok(RecvResult.OverQuota(qe))), first.t, first.b))
        case Ok(grown) =>
          var second := PollTryRecv(NewTryRecv(), first.t, grown).value;
          match second.poll
          case Pending => Done(Polled(Pending, second.t, second.b))
          case Ready(Err(e)) => Done(Polled(Ready(Err(e)), second.t, second.b))
          case Ready(Ok(Fit)) => Done(Polled(Ready(Ok(RecvResult.Spilled)), second.t, second.b))
          case Ready(Ok(Spilled(_))) => Panic(SizeRetcon)
          case Ready(Ok(EndOfStream)) => Done(Polled(Ready(Ok(RecvResult.EndOfStream)), second.t, second.b))
  }

  /** On a transport whose polls are all ready, the polled probe-and-retry
      reception finishes in one poll with exactly the blocking outcome. */
  lemma {:induction false} PollRecvViaPollTryRecvAgreesWithBlocking(t: Transport, b: MsgBuf)
    requires b.Valid() && t.readiness == []
    ensures var r := PollRecvViaPollTryRecv(t, b);
            var o := RecvViaTryRecv(t, b);
            o.Done? && r == Done(Polled(Ready(o.value.result), o.value.t, o.value.b))
  {
    RecvViaTryRecvNeverRetcons(t, b);
    TryRecvAgreesWithBlocking(t, b);
    var c := TryRecvMsg(t, b);
    if c.result.Ok? && c.result.value.Spilled? {
      SpillRetryAgreesWithBlocking(t, b);
    }
  }

  /** After a spilled probe, the polled retry is the blocking grow-and-retry. */
  lemma {:induction false} SpillRetryAgreesWithBlocking(t: Transport, b: MsgBuf)
    requires b.Valid() && t.readiness == []
    requires TryRecvMsg(t, b).result.Ok? && TryRecvMsg(t, b).result.value.Spilled?
    ensures var r := PollRecvViaPollTryRecv(t, b);
            var o := GrowAndRetry(t, b);
            o.Done? ==> r == Done(Polled(Ready(o.value.result), o.value.t, o.value.b))
  {
    TryRecvAgreesWithBlocking(t, b);
    var c := TryRecvMsg(t, b);
    var s1 := PollTryRecv(NewTryRecv(), t, b).value;
    assert s1.poll == Ready(c.result) && s1.t == c.t && s1.b == c.b;
    assert c.b.fill == 0;
    assert SetFill(c.b, 0).value == c.b;
    var g := EnsureCapacity(c.b, c.result.value.size);
    assert ClearAndGrowTo(c.b, c.result.value.size) == g;
    if g.Ok? {
      assert c.t.readiness == [];
      TryRecvAgreesWithBlocking(c.t, g.value);
      var c2 := TryRecvMsg(c.t, g.value);
      var s2 := PollTryRecv(NewTryRecv(), c.t, g.value).value;
      assert s2.poll == Ready(c2.result) && s2.t == c2.t && s2.b == c2.b;
    }
  }

  /** A conforming transport that can complete the first probe never
      suspends the retry: after a spill it is primed by the completed peek. */
  lemma {:induction false} ConformingTryRecvFinishes(t: Transport, b: MsgBuf)
    requires b.Valid() && t.conforming && CanComplete(t)
    ensures var r := PollRecvViaPollTryRecv(t, b);
            r.Done? && r.value.poll.Ready?
  {
    var first := PollTryRecv(NewTryRecv(), t, b).value;
    ConformingTryRecvNeverStallsInDiscard(t, b);
    if first.poll.Ready? && first.poll.value.Ok? && first.poll.value.value.Spilled? {
      var g := EnsureCapacity(first.b, first.poll.value.value.size);
      if g.Ok? {
        assert first.t.primed;
        var second := PollTryRecv(NewTryRecv(), first.t, g.value);
        ConformingTryRecvNeverStallsInDiscard(first.t, g.value);
        if second.value.poll.Ready? && second.value.poll.value.Ok? {
          assert !second.value.poll.value.value.Spilled?;
        }
      }
    }
  }
}
