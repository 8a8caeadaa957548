/** The readiness retry loop behind the polled socket adapters: run the
    non-blocking operation, and while it fails with `WouldBlock`, poll the
    socket's readiness and try again. */
module IoLoop {
  import opened Base
  import opened Results
  import opened QueueTransport

  /** What the non-blocking operation yields on success; the socket adapters
      run the loop around the three primitives. */
  datatype Received =
    | Trunc(fit: Option<bool>)
    | FullSize(probe: TryRecvResult)
    | Whole(outcome: RecvResult)

  /** What polling the socket's readiness can report. */
  datatype Readiness = NowReady | ReadyFailed(error: IoError) | NotYet

  predicate IsWouldBlock(x: Result<Received, IoError>)
  {
    x.Err? && x.error.WouldBlock?
  }

  /** The operation's successive outcomes and the readiness reports after
      each `WouldBlock` (report `i` follows attempt `i`) are enough to decide
      the loop: it stops within them. */
  predicate Decides(attempts: seq<Result<Received, IoError>>, reports: seq<Readiness>)
    decreases |attempts|
  {
    && |attempts| > 0
    && (!IsWouldBlock(attempts[0])
        || (&& |reports| > 0
            && (reports[0] != NowReady || Decides(attempts[1..], reports[1..]))))
  }

  /** `ioloop`: returns what the loop yields and how many attempts it made.
      Every attempt but the last failed with `WouldBlock` and was followed by
      a ready report; the last attempt's success or non-`WouldBlock` error is
      returned as is; if it would block, a failed readiness poll is returned
      as the error and a pending one suspends. */
  function Ioloop(attempts: seq<Result<Received, IoError>>, reports: seq<Readiness>): (r: (Poll<Result<Received, IoError>>, nat))
    requires Decides(attempts, reports)
    ensures 1 <= r.1 <= |attempts| && r.1 - 1 <= |reports|
    ensures forall j :: 0 <= j < r.1 - 1 ==> IsWouldBlock(attempts[j]) && reports[j] == NowReady
    ensures !IsWouldBlock(attempts[r.1 - 1]) ==> r.0 == Ready(attempts[r.1 - 1])
    ensures IsWouldBlock(attempts[r.1 - 1]) ==>
              && r.1 - 1 < |reports| && reports[r.1 - 1] != NowReady
              && r.0 == (if reports[r.1 - 1] == NotYet then Pending
                         else Ready(Err(reports[r.1 - 1].error)))
    decreases |attempts|
  {
    if !IsWouldBlock(attempts[0]) then (Ready(attempts[0]), 1)
    else
      match reports[0]
      case NotYet => (Pending, 1)
      case ReadyFailed(e) => (Ready(Err(e)), 1)
      case NowReady =>
        var rest := Ioloop(attempts[1..], reports[1..]);
        (rest.0, rest.1 + 1)
  }

  /** The loop's verdict does not depend on anything after the attempt it
      stopped at: extending either oracle leaves it unchanged. */
  lemma {:induction false} IoloopIgnoresLaterAttempts(attempts: seq<Result<Received, IoError>>, reports: seq<Readiness>, moreAttempts: seq<Result<Received, IoError>>, moreReports: seq<Readiness>)
    requires Decides(attempts, reports)
    ensures Decides(attempts + moreAttempts, reports + moreReports)
    ensures Ioloop(attempts + moreAttempts, reports + moreReports) == Ioloop(attempts, reports)
    decreases |attempts|
  {
    assert (attempts + moreAttempts)[0] == attempts[0];
    if IsWouldBlock(attempts[0]) {
      assert (reports + moreReports)[0] == reports[0];
      if reports[0] == NowReady {
        assert (attempts + moreAttempts)[1..] == attempts[1..] + moreAttempts;
        assert (reports + moreReports)[1..] == reports[1..] + moreReports;
        IoloopIgnoresLaterAttempts(attempts[1..], reports[1..], moreAttempts, moreReports);
      }
    }
  }
}
