/** The outcomes of message reception: `RecvResult` for whole-message
    reception and `TryRecvResult` for size probes, in the revision where `Fit`
    carries no size. */
module Results {
  import opened Cap

  /** Outcome of `recv_msg`. Running over the quota is an ordinary outcome,
      not an I/O error; the variant is named `OverQuota` here so that it does
      not clash with the error type it carries. */
  datatype RecvResult =
    | EndOfStream
    | Fit
    | Spilled
    | OverQuota(err: QuotaExceeded)

  /** Outcome of `try_recv_msg` and `recv_trunc_with_full_size`: `Spilled`
      carries the message's true size. */
  datatype TryRecvResult =
    | EndOfStream
    | Fit
    | Spilled(size: nat)

  /** `RecvResult::default()`. */
  function DefaultRecvResult(): (r: RecvResult)
    ensures r.EndOfStream?
  {
    RecvResult.EndOfStream
  }

  /** `TryRecvResult::default()`. */
  function DefaultTryRecvResult(): (r: TryRecvResult)
    ensures r.EndOfStream?
  {
    TryRecvResult.EndOfStream
  }

  /** `From<TryRecvResult> for RecvResult`: forgets the size of a spill. */
  function ToRecvResult(t: TryRecvResult): (r: RecvResult)
    ensures r.EndOfStream? <==> t.EndOfStream?
    ensures r.Fit? <==> t.Fit?
    ensures r.Spilled? <==> t.Spilled?
    ensures !r.OverQuota?
  {
    match t
    case EndOfStream => RecvResult.EndOfStream
    case Fit => RecvResult.Fit
    case Spilled(_) => RecvResult.Spilled
  }

  /** The conversion loses exactly the spill size: two probe results convert
      alike if and only if they agree up to that size. */
  lemma {:induction false} ToRecvResultForgetsOnlySize(s: TryRecvResult, t: TryRecvResult)
    ensures ToRecvResult(s) == ToRecvResult(t) <==>
              (s == t || (s.Spilled? && t.Spilled?))
  {
    if s.Spilled? && t.Spilled? {
    } else if ToRecvResult(s) == ToRecvResult(t) {
      assert s.EndOfStream? <==> t.EndOfStream?;
      assert s.Fit? <==> t.Fit?;
    }
  }
}
