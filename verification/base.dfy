/** Shared vocabulary of the model: bytes, optional values, results, and the
    fatal conditions (Rust panics and failed assertions) that the source treats
    as contract violations rather than recoverable errors. */
module Base {

  /** One byte of buffer memory. */
  newtype byte = x: int | 0 <= x < 256

  datatype Option<+T> = None | Some(value: T)

  datatype Result<+T, +E> = Ok(value: T) | Err(error: E)

  /** Why a fatal condition (a panic) was raised. */
  datatype Fatal =
    | InitPastCapacity        // `set_init` beyond the capacity
    | FillPastInit            // `set_fill` beyond the initialisation cursor
    | AllocationForbidden     // growing the no-alloc owned buffer
    | GrowthFellShort         // an owned buffer grew to less than requested
    | SizeRetcon              // a second full-size probe reported truncation again
    | PendingAfterPeek        // a primitive poll suspended after a ready peek (debug builds)
    | DiscardPendingAfterPeek // the discard suspended after a successful peek
    | PolledAfterCompletion   // a finished future was polled again

  /** The outcome of code that may panic. */
  datatype Checked<+T> = Done(value: T) | Panic(reason: Fatal)

  function Max(a: int, b: int): (m: int)
    ensures m >= a && m >= b
    ensures m == a || m == b
  {
    if a >= b then a else b
  }

  function Min(a: int, b: int): (m: int)
    ensures m <= a && m <= b
    ensures m == a || m == b
  {
    if a <= b then a else b
  }

  /** Memory handed out by the allocator. Its contents are unspecified in the
      source; the model fixes them to zeroes, and no contract reads them before
      they are initialised. */
  function Zeros(n: nat): (z: seq<byte>)
    ensures |z| == n
    ensures forall i :: 0 <= i < n ==> z[i] == 0
  {
    seq(n, _ => 0)
  }
}
