# recvmsg, modelled in Dafny

This project models the core of the Rust crate `recvmsg`. The crate receives whole
datagram-style messages from socket-like transports without silently truncating them.
The model has two parts.

- **The message buffer `MsgBuf`** (modules `Owned`, `Buf`, `Take`, `Conv`, `Cap`, `Write`,
  `Ctor`, `Lifetime`, `Slicing`).
  - The buffer is an immutable datatype: its memory is a byte sequence whose length is the
    capacity. It carries the initialisation and fill cursors, whether the memory is borrowed
    from the caller, which owned-buffer kind manages it (`Vec<u8>` or the no-alloc `()`), the
    optional growth quota and the message flag.
  - Every operation is a pure function over that datatype: the cursor accessors and setters,
    `ensure_capacity` with its quota check and its minimum request of `size_of::<MsgBuf>()`
    (56 bytes), the growth wrappers, `extend_from_slice`, the take/forget utilities, the
    `From` conversions and constructors of both crate revisions, `make_owned` and
    `try_extend_lifetime`, and the slicing views.
  - Fatal conditions (`set_fill` past `init`, a no-alloc owned buffer asked to grow through
    `with_capacity`, its own `grow` or `Cap.EnsureCapacityChecked`) are a `Panic(reason)` result
    rather than a process abort. The Vec-only growth path (`Cap.EnsureCapacity` and everything
    built on it) follows the `cap.rs` revision and never panics; see "Left out".
- **Reception** (modules `Results`, `QueueTransport`, `IoLoop`, `SyncRecv`, `Futures`,
  `AsyncRecv`, `EmptyStream`).
  - The socket is replaced by an abstract queue transport. Its environment is given as
    oracles: which calls fail with an I/O error, and which polls are ready. The transport
    implements the truncating primitive `recv_trunc_with_full_size` (blocking and polled),
    and from it the crate's default `recv_trunc` and `discard_msg`.
  - On top of the transport the model has `try_recv_msg` and both whole-message strategies:
    `recv_via_recv_trunc` (grow and retry) and `recv_via_try_recv` (probe the size, grow
    once, retry once).
  - Both strategies also exist as polled variants (`poll_recv_via_*`). The polled variants
    cover the debug-only trap for a primitive that suspends after a completed peek.
  - Also modelled: the `TryRecv` future's state machine, the readiness loop `ioloop`, and
    the `Empty` stream.

The main properties proved:

- **Buffer**
  - Cursor partition.
  - What growth keeps: the filled bytes, fill, quota, message flag and non-shrinking
    capacity.
  - The exact quota-failure condition and its error value.
  - The take/put round trip.
  - How the two revisions of the conversions relate.
- **Reception**
  - Each whole-message reception commits exactly one message, as its last primitive call,
    and hands over all of it.
  - `Fit` is reported exactly when the message fit the buffer as passed in.
  - Both strategies reach a reference outcome when nothing fails and there is no quota, so
    they agree.
  - The retcon panic is unreachable on a transport whose peeks are repeatable
    (src/sync.rs:42-44), as the queue transport's are.
  - A polled reception that finishes equals the blocking one.
  - A conforming transport never suspends a reception halfway.
  - `Empty` behaves like an exhausted queue.

Growth follows src/msgbuf/cap.rs:18-50:

- every request is first raised to `size_of::<MsgBuf>()` (56 bytes), then served by `Vec`'s
  `reserve`/`reserve_exact`;
- a raised request over the quota fails with `QuotaExceeded`;
- so a quota of 0 refuses every request the buffer does not already meet, which for a buffer
  below 56 bytes is every request (`Scenarios.ZeroQuotaRefusesEveryGrowth`).

The crate holds several revisions of the same files. Where they differ, the model states
which one it follows:

- the message flag `has_msg`, a `usize` quota that may be 0, and the `lib.rs` result types
  (`Fit` without a size);
- the `From` conversions of `conv.rs` (which preset the fill cursor) as `Conv.*`;
- the constructors of `ctor.rs` (which do not) as `Ctor.*`.

## Model

| member | source | states |
|---|---|---|
| `Owned.VecAsRawParts` | src/msgbuf/owned/impl.rs:10-19 | a `Vec`'s raw parts are its capacity with its length as the cursor, and a valid `Vec` gives valid parts |
| `Owned.VecFromRawParts` | src/msgbuf/owned/impl.rs:6-8 | rebuilding a `Vec` from raw parts takes the cursor as length and keeps the capacity; valid parts give a valid `Vec` |
| `Owned.ReserveExact` | src/msgbuf/cap.rs:36-39 | exact reservation keeps the elements and old memory, reaches `len + additional`, reallocates to exactly that when short, and is the identity otherwise |
| `Owned.Reserve` | src/msgbuf/cap.rs:34-39 | amortised reservation keeps the contents and reaches the request; a reallocation goes to the larger of the request and twice the old capacity, otherwise nothing changes |
| `Owned.VecWithCapacity` | src/msgbuf/cap.rs:42 | a fresh `Vec` has exactly the requested capacity and no elements |
| `Owned.VecExtendFromSlice` | src/msgbuf/cap.rs:43 | appending makes the elements the old elements followed by the slice, and needs no reallocation when the spare room suffices |
| `Owned.VecGrow` | src/msgbuf/owned/impl.rs:20-23 | `Vec`'s `grow` keeps length and elements, reaches the requested capacity, and does nothing for a request not above the length |
| `Owned.BackingGrow` | src/msgbuf/owned.rs:17-35 | growth succeeds exactly for the `Vec` kind and then meets the owned-buffer contract (initialised bytes kept, cursor not lowered, capacity reached); the `()` kind panics |
| `Owned.UnitRawParts` | src/msgbuf/owned/impl.rs:26-36 | the no-alloc buffer's raw parts are always empty |
| `Owned.OwnedDefault` | src/msgbuf/owned.rs:58-60 | a default owned buffer of any kind has zero capacity and cursor and keeps its kind |
| `Owned.DynDefault` | src/msgbuf/owned/trait_object.rs:107-111 | the default trait object is an empty `Vec` |
| `Owned.DynGrow` | src/msgbuf/owned/trait_object.rs:66-79 | growth through the trait object succeeds exactly for `Vec`, keeps the kind and meets the owned-buffer contract |
| `Owned.DynTake` | src/msgbuf/owned/trait_object.rs:84-88 | taking hands out exactly the raw parts and leaves an empty buffer of the same kind |
| `Buf.Default` | src/msgbuf.rs:116-129 | the default buffer satisfies the cursor invariant, with no memory, no quota and no message, owned by the `Vec` kind |
| `Buf.CursorPartition` | src/msgbuf/cursors.rs:8-33 | filled, initialised-but-unfilled and uninitialised lengths add up to the capacity; unfilled = initialised-but-unfilled + uninitialised |
| `Buf.SetInit` | src/msgbuf/cursors.rs:48-54 | panics exactly when the cursor would pass the capacity; otherwise only `init` changes, and the invariant holds exactly when the fill cursor is not past it |
| `Buf.SetFill` | src/msgbuf/cursors.rs:60-66 | panics exactly when the cursor would pass `init`; otherwise only `fill` changes and the invariant is kept |
| `Buf.ClearMsg` | src/sync/via.rs:33-37 | the reset before an error propagates empties the filled part, clears the message flag, and keeps memory, `init`, ownership and quota |
| `Buf.FullyInitialize` | src/msgbuf/cursors.rs:37-40 | the initialised bytes are kept, the tail is zeroed, and `init` reaches the capacity; fill, ownership, quota and flag are unchanged |
| `Take.ForgetInPlace` | src/msgbuf/take.rs:43-45 | forgetting leaves an empty, valid, non-borrowed buffer without a message, keeping the quota and kind |
| `Take.TakeOwned` | src/msgbuf/take.rs:6-18 | refuses exactly a borrowed buffer with memory (left untouched); otherwise hands out memory, cursor and kind and empties the buffer |
| `Take.TakeBorrowed` | src/msgbuf/take.rs:20-41 | refuses exactly an owned buffer with memory (left untouched); otherwise hands out the whole region and empties the buffer |
| `Take.EmptyBufferIsBothKinds` | src/msgbuf/take.rs:6-8 | a zero-capacity buffer gives itself up to both takes, with the same result |
| `Conv.FromVec` | src/msgbuf/conv.rs:10-23 | the buffer owns the `Vec`'s allocation, its elements are both the initialised and the filled part, and it holds a message exactly when non-empty |
| `Conv.FromBorrowedUninit` | src/msgbuf/conv.rs:26-38 | a borrowed uninitialised region gives a borrowed buffer of its size with both cursors 0 |
| `Conv.FromBoxedUninit` | src/msgbuf/conv.rs:40-52 | a boxed uninitialised region gives an owned buffer of its size with both cursors 0 |
| `Conv.FromBorrowedInit` | src/msgbuf/conv.rs:56-68 | a borrowed initialised slice is wholly initialised and filled, is the filled content, and is a message exactly when non-empty |
| `Conv.FromBoxedInit` | src/msgbuf/conv.rs:71-83 | the same for a boxed slice, owned |
| `Cap.Raised` | src/msgbuf/cap.rs:20 | the working request is at least the request, at least the 56-byte minimum, and positive |
| `Cap.GrowOwnedVec` | src/msgbuf/cap.rs:33-40 | growing the taken `Vec` keeps its elements, reaches the request, and, with `reserve`/`reserve_exact` allocating the amounts the model gives them, stays within the quota thanks to the exact reservation near it |
| `Cap.Reallocate` | src/msgbuf/cap.rs:32-48 | reallocation keeps the filled bytes, fill, quota and flag, reaches the request (within the quota under the modelled `reserve` amounts), and yields an owned `Vec` whose initialised part is its filled part |
| `Cap.EnsureCapacity` | src/msgbuf/cap.rs:18-50 | a large enough buffer is unchanged; fails exactly when the raised request is over the quota, reporting quota and raised request; otherwise keeps the filled content and reaches the request, owned and within the quota |
| `Cap.EnsureCapacityChecked` | src/msgbuf/cap.rs:32-45 | growth that the request needs, within the quota, of an owned no-alloc buffer panics with `AllocationForbidden` (its `grow` at src/msgbuf/owned/impl.rs:33-35), exactly then; every other case is `EnsureCapacity`'s result |
| `Cap.GrowTo` | src/msgbuf/tests.rs:35-38 | growth that keeps the filled content reaches the request and fails only on the quota, naming an allocation at least the request |
| `Cap.ClearAndGrowTo` | src/sync/via.rs:59-63 | clearing and growing empties the filled part, reaches the request, keeps quota and flag, and fails exactly on the quota with the raised request |
| `Cap.ClearAndGrow` | src/sync/via.rs:42-46 | success strictly increases and at least doubles the capacity with an empty filled part; fails exactly when twice the capacity, raised, is over the quota |
| `Write.ExtendFromSlice` | src/msgbuf.rs:143-154 | fails exactly on the quota; otherwise the filled part becomes the old filled part followed by the slice, quota and flag kept, and without reallocation `init` only moves forward |
| `Ctor.PutOwned` | src/msgbuf/ctor.rs:54-59 | installing an owned buffer takes its memory, cursor and kind, drops fill to 0, and keeps quota and flag |
| `Ctor.PutSlice` | src/msgbuf/ctor.rs:61-67 | installing a borrowed region makes a borrowed buffer of its size with both cursors 0, keeping quota and flag |
| `Ctor.NewOwnedDyn` | src/msgbuf/ctor.rs:40-44 | a buffer wrapping an owned buffer has its capacity, cursor and kind, nothing filled, no quota, no message |
| `Ctor.FromOwnedVec` | src/msgbuf/ctor.rs:33-35 | wrapping a `Vec` makes its elements the initialised part, with nothing filled |
| `Ctor.WithCapacity` | src/msgbuf/ctor.rs:47-51 | succeeds exactly for the `Vec` kind, with at least the requested capacity and nothing filled; the no-alloc kind panics |
| `Ctor.FromBorrowedUninitNew` | src/msgbuf/ctor.rs:85-91 | this revision's borrowed uninitialised conversion coincides with the other revision's |
| `Ctor.FromBorrowedInitNew` | src/msgbuf/ctor.rs:101-108 | a borrowed initialised slice is the initialised part, with nothing filled and no message |
| `Ctor.FromBoxedUninitNew` | src/msgbuf/ctor.rs:93-97 | a boxed uninitialised region gives an owned buffer of its size with both cursors 0 |
| `Ctor.FromBoxedInitNew` | src/msgbuf/ctor.rs:111-115 | a boxed initialised slice is the initialised part of an owned buffer, with nothing filled |
| `Ctor.InitConversionsDifferOnlyInFill` | src/msgbuf/ctor.rs:99-115 | the two revisions of the initialised conversions differ only in the fill cursor and the message flag |
| `Ctor.TakeOwnedPutOwnedRoundTrip` | src/msgbuf/ctor.rs:53-59 | putting back what `take_owned` took restores the buffer except for fill and flag |
| `Lifetime.TryExtendLifetime` | src/msgbuf/lifetime.rs:15-22 | succeeds exactly for an owned or zero-capacity buffer, changing nothing but the borrow mark; otherwise hands the buffer back |
| `Lifetime.MakeOwnedOld` | src/msgbuf.rs:159-169 | older `make_owned`: an owned buffer passes through; a borrowed one becomes an empty owned buffer of the same capacity, losing quota and message |
| `Lifetime.MakeOwnedAsWritten` | src/msgbuf/lifetime.rs:7-13 | newer `make_owned` as written: the result is valid exactly unless a borrowed buffer with memory had a non-empty filled part |
| `Lifetime.MakeOwnedAsWrittenBreaksInvariant` | src/msgbuf/lifetime.rs:9-11 | a borrowed 6-byte buffer that received the one-byte message `[7]` comes out with fill 1 and init 0 |
| `Lifetime.MakeOwned` | src/msgbuf/lifetime.rs:5-13 | corrected `make_owned`: owned, same capacity, valid, with the same filled bytes, quota and flag |
| `Lifetime.MakeOwnedKeepsMessage` | src/msgbuf/lifetime.rs:5-6 | the corrected conversion hands over the same message byte for byte |
| `Slicing.PartsTile` | src/msgbuf/slicing.rs:74-142 | the filled, initialised-but-unfilled and uninitialised parts tile the memory, and their lengths are the cursor accessors |
| `Slicing.Msg` | src/msgbuf/slicing.rs:61-67 | the message exists exactly when the flag is set, and is then the filled part |
| `Slicing.SplitAtInit` | src/msgbuf/slicing.rs:111-114 | the initialised part and the uninitialised tail as a fresh borrowed buffer concatenate to the memory |
| `Slicing.SplitAtFill` | src/msgbuf/slicing.rs:118-127 | the filled part and the unfilled tail concatenate to the memory, and the tail knows which of its bytes are initialised |
| `Results.DefaultRecvResult` | src/lib.rs:91-96 | the default reception result is end of stream |
| `Results.DefaultTryRecvResult` | src/lib.rs:116-121 | the default probe result is end of stream |
| `Results.ToRecvResult` | src/lib.rs:105-114 | the conversion preserves the variant, and never yields a quota failure |
| `Results.ToRecvResultForgetsOnlySize` | src/lib.rs:105-114 | two probe results convert alike exactly when they are equal or both spills |
| `QueueTransport.Deliver` | src/sync.rs:48-53 | writing a message keeps capacity, sets fill to the truncated size, moves `init` only forward, holds the message prefix and sets the flag |
| `QueueTransport.RecvTruncWithFullSize` | src/sync.rs:74-84 | fails exactly on a fault, untouched; end of stream exactly on an empty queue; else delivers the truncated front message, `Fit` exactly when it fits, the true size on a spill, taken off only without `peek`; meets the trait's contract notes except the message flag at end of stream |
| `QueueTransport.PeekIsRepeatable` | src/sync.rs:42-44 | a peek leaves the message queued, and a second peek with a buffer at least as large receives at least as much, agreeing on the prefix |
| `QueueTransport.RecvTrunc` | src/sync/via.rs:4-20 | the translation maps `Fit`, a spill and end of stream to `Some(true)`, `Some(false)` and `None` exactly, with the capacity unchanged |
| `QueueTransport.Scratch` | src/sync.rs:64 | the discard's scratch buffer is one valid byte |
| `QueueTransport.DiscardMsg` | src/sync.rs:61-66 | the default discard is one taking call that removes the front message (a no-op at end of stream), or propagates the fault with the queue intact |
| `QueueTransport.PollRecvTruncWithFullSize` | src/async.rs:137-151 | pending exactly when the transport cannot complete, changing nothing else; never pending right after a ready peek on a conforming transport; a ready poll is the blocking call |
| `QueueTransport.PollRecvTrunc` | src/async/via.rs:12-31 | the polled translation passes `Pending` through and is otherwise the blocking translation, capacity unchanged |
| `QueueTransport.PollDiscardMsg` | src/async.rs:114-129 | the polled discard is pending exactly when the transport cannot complete, never right after a conforming peek, and is otherwise the blocking discard |
| `IoLoop.Ioloop` | src/async.rs:49-66 | all attempts before the last would block and were followed by readiness; the last attempt's success or other error is returned; if it would block, a failed readiness poll is the error and a pending one suspends |
| `IoLoop.IoloopIgnoresLaterAttempts` | src/async.rs:56-64 | the loop's verdict does not depend on attempts or readiness reports after the one it stopped at |
| `SyncRecv.TryRecvMsg` | src/sync/ext.rs:16-33 | `Fit` exactly when the front message fits, committed by peek then take with the whole message; a spill reports the true size, commits nothing and empties the buffer; errors leave the queue intact |
| `SyncRecv.CommitFitting` | src/sync/via.rs:49-50 | after a fitting peek, one discard commits the message as the last call, with all of it in the buffer |
| `SyncRecv.RetryKeepsLoopPost` | src/sync/via.rs:41-47 | a retry with a larger buffer after a truncated peek keeps the loop's guarantees, since a leading peek commits nothing |
| `SyncRecv.RecvViaRecvTruncFrom` | src/sync/via.rs:28-51 | each run commits the front message exactly once as its last call with all of it in the buffer, ends only at end of stream, on the quota with nothing committed, or on an error with the queue intact, and terminates as capacity grows |
| `SyncRecv.RecvViaRecvTrunc` | src/sync/via.rs:22-51 | `recv_msg` via `recv_trunc`: the loop's guarantees, with `Fit` exactly when the message fit the buffer passed in |
| `SyncRecv.RecvViaRecvTruncFromMeetsReference` | src/sync/via.rs:28-48 | without faults or a quota the loop yields end of stream, `Fit` (only if no peek was truncated) or `Spilled`, and never fails |
| `SyncRecv.RecvViaRecvTruncMeetsReference` | src/sync.rs:108-118 | without faults or a quota, `recv_msg` via `recv_trunc` yields the reference outcome for the queue and buffer |
| `SyncRecv.GrowAndRetry` | src/sync/via.rs:60-68 | after a spill, growth to the true size either fails on the quota with nothing committed or the retry commits the message and reports `Spilled` |
| `SyncRecv.RecvViaTryRecv` | src/sync/via.rs:53-73 | `recv_msg` via `try_recv_msg` commits exactly once, `Fit` exactly when the message fit, and a quota failure names the raised message size |
| `SyncRecv.RecvViaTryRecvNeverRetcons` | src/lib.rs:78-85 | on a transport whose sizes are truthful the retry never spills again, so the retcon panic is unreachable |
| `SyncRecv.RecvViaTryRecvMeetsReference` | src/sync/via.rs:59-72 | without faults or a quota, `recv_msg` via `try_recv_msg` yields the reference outcome |
| `SyncRecv.StrategiesAgree` | src/sync/via.rs:22-73 | without faults or a quota both strategies give the same outcome, the same remaining queue and the same message |
| `Futures.PollTryRecv` | src/async/futures.rs:84-127 | polling an ended future is the only panic; a fitting peek moves on to the discard, and the future ends exactly with `Fit` after a take; a pending poll changes nothing but readiness |
| `Futures.TryRecvAgreesWithBlocking` | src/async/futures.rs:59-74 | when polls are ready, one poll of a fresh future does exactly what blocking `try_recv_msg` does |
| `Futures.ConformingTryRecvNeverStallsInDiscard` | src/async.rs:117-119 | on a conforming transport a fresh future never remains stuck in its discard after one poll |
| `Futures.DiscardingCompletesWithFit` | src/async/futures.rs:114-121 | a discarding future that can complete ends with `Fit`, taking the front message |
| `AsyncRecv.PollViaTruncFrom` | src/async/via.rs:39-85 | the polled loop never shrinks the buffer, keeps the queue while pending, suspends untouched on a first pending peek, and panics only on a non-conforming transport (the peek trap only in debug) |
| `AsyncRecv.PollCommitFitting` | src/async/via.rs:74-84 | the commit after a fitting peek panics exactly when its discard poll cannot complete, which only a non-conforming transport allows; otherwise it keeps the buffer and reports the discard's error, or `Fit` when no peek was truncated and `Spilled` otherwise |
| `AsyncRecv.PollRecvViaPollRecvTrunc` | src/async/via.rs:33-85 | the polled grow-and-retry reception suspends untouched when the first peek cannot complete and panics only on a non-conforming transport |
| `AsyncRecv.ReadyPeekIsBlockingPeek` | src/async.rs:84-96 | a completed polled peek is the blocking peek |
| `AsyncRecv.ReadyDiscardIsBlockingDiscard` | src/async.rs:114-119 | a completed polled discard is the blocking discard |
| `AsyncRecv.CommitSimulatesBlocking` | src/async/via.rs:74-84 | after a fitting peek the polled commit matches the blocking one |
| `AsyncRecv.PollViaTruncFromSimulatesBlocking` | src/async/via.rs:41-73 | a finished polled loop has the blocking loop's outcome, buffer, queue and log |
| `AsyncRecv.RetrySimulatesBlocking` | src/async/via.rs:61-72 | after a truncated completed peek the polled and the blocking loop clear and grow the buffer alike, so a finished poll still has the blocking outcome |
| `AsyncRecv.PollRecvViaPollRecvTruncAgreesWithBlocking` | src/async.rs:162-165 | when polls are ready, the polled grow-and-retry reception finishes in one poll with exactly the blocking result |
| `AsyncRecv.AllReadyFinishes` | src/async/via.rs:42-50 | with every poll ready the polled loop neither suspends nor panics |
| `AsyncRecv.AllReadyRetryFinishes` | src/async/via.rs:65-72 | with every poll ready, the retry after a truncated peek neither suspends nor panics |
| `AsyncRecv.ConformingFinishesOncePrimed` | src/async.rs:104-105 | on a conforming transport, once the first peek completes, the poll finishes |
| `AsyncRecv.PollRecvViaPollTryRecv` | src/async/via.rs:87-111 | the polled probe-and-retry reception never shrinks the buffer, suspends untouched when it cannot start, and can only panic with the retcon panic |
| `AsyncRecv.PollRecvViaPollTryRecvAgreesWithBlocking` | src/async/via.rs:94-110 | when polls are ready it finishes in one poll with exactly the blocking `recv_via_try_recv` result |
| `AsyncRecv.SpillRetryAgreesWithBlocking` | src/async/via.rs:96-106 | when polls are ready, the polled grow-once-and-retry after a spilled probe is the blocking one |
| `AsyncRecv.ConformingTryRecvFinishes` | src/async.rs:104-119 | on a conforming transport that can complete the first probe, the reception finishes |
| `EmptyStream.EmptyRecvTrunc` | src/empty.rs:31-43 | `Empty` reports end of stream and leaves the buffer alone, meeting the contract notes |
| `EmptyStream.EmptyRecvTruncWithFullSize` | src/empty.rs:44-53 | `Empty`'s full-size probe reports end of stream, buffer untouched |
| `EmptyStream.EmptyRecvMsg` | src/empty.rs:54-65 | `Empty`'s `recv_msg` reports end of stream, buffer untouched |
| `EmptyStream.EmptyIsExhaustedQueue` | src/empty.rs:67-92 | `Empty`'s primitives, blocking and polled, are those of an exhausted queue transport |
| `EmptyStream.EmptyRecvMsgMatchesStrategies` | src/empty.rs:54-65 | both blocking strategies on an exhausted stream give `Empty`'s `recv_msg` result, buffer untouched |
| `EmptyStream.EmptyPollRecvMsgMatchesStrategies` | src/empty.rs:93-105 | both polled strategies on an exhausted stream are ready at once with `Empty`'s result |
| `Scenarios.ConversionExamples` | src/msgbuf.rs:26-87 | the documented capacities, cursors and message flags of the conversions of 32-byte regions and of `Vec`s |
| `Scenarios.ClearAndGrowScenario` | src/msgbuf/tests.rs:5-25 | the documented growth sequence succeeds, a quota of 256 refuses 4096 bytes and a quota of 4096 admits them |
| `Scenarios.ZeroQuotaRefusesEveryGrowth` | src/msgbuf/tests.rs:27-30 | with quota 0, growing a one-byte buffer to any size of at least 1 fails with the raised request |
| `Scenarios.NoAllocGrowthPanics` | src/msgbuf/owned/impl.rs:33-35 | a fresh buffer over the empty no-alloc owned buffer, asked for any capacity, panics under kind-aware growth, whereas the Vec-only growth turns it into a `Vec` |
| `Scenarios.GrowSliceRetains` | src/msgbuf/tests.rs:40-47 | growing a filled borrowed slice keeps its filled content |
| `Scenarios.GrowVecRetains` | src/msgbuf/tests.rs:49-56 | growing a filled `Vec` buffer keeps its filled content |
| `Scenarios.ExtendFillsExactly` | src/msgbuf/tests.rs:58-64 | extending an empty borrowed buffer fills exactly the slice |
| `Scenarios.OversizedDatagramSpills` | src/sync/impl/net/tests.rs:17-55 | a 193-byte datagram into a 6-byte borrowed or 16-byte `Vec` buffer spills under both strategies and ends up whole in the buffer |
| `Scenarios.MessagesInOrderThenEnd` | src/sync.rs:108-118 | two queued messages are received in order, one per call, and then end of stream is reported |
| `Scenarios.StrategiesDifferUnderQuota` | src/sync/via.rs:44-62 | under a quota of 100, a 90-byte message into an empty buffer fails the doubling strategy (112 bytes) but not the size-probing one |
| `Scenarios.PendingAfterPeekCaughtInDebug` | src/async/via.rs:5-10 | a non-conforming transport that suspends after a ready peek panics in debug builds and is reported as pending in release builds |

## Left out

- I/O and the operating system: the socket implementations, `recvmsg`/`WSARecvMsg` calls, address
  decoding and the `abuf` sender-address buffers are left out. An abstract queue transport with
  fault and readiness oracles takes their place.
- `Pin`, `Context` and wakers are left out, because a poll is a function of the transport and buffer.
- The tokio glue is left out because it sits outside the core. `ioloop` is modelled with its
  operation outcomes and readiness reports given as sequences.
- The one-shot forwarding futures `RecvTrunc`, `DiscardMsg`, `RecvTruncWithFullSize` and `RecvMsg`
  (src/async/futures.rs:22-57) are not separate members, since each poll only forwards to the
  trait method. Their poll is `QueueTransport.PollRecvTrunc`, `QueueTransport.PollDiscardMsg` and
  `QueueTransport.PollRecvTruncWithFullSize`.
- Raw pointers, `Drop`, `ManuallyDrop` and memory release are left out, because memory is a value.
  The `drop` test (src/msgbuf/tests.rs:66-72) exercises only memory release.
- `Display`/`Debug` formatting is left out.
- `Write.ExtendFromSlice` follows src/msgbuf.rs:143-154. The newer body at
  src/msgbuf/safe_write.rs:9-17 differs only in calling `grow_to` instead of `ensure_capacity`
  and `advance_init_and_set_fill(new_len)` instead of `set_init(max(..))` followed by
  `set_fill`; the bodies of those two are not part of the crate's shown source.
- `grow_fn.rs` and the `fwd`/`ext`/macro forwarding layers are left out.
- `Cap.EnsureCapacity`: `usize` overflow of the request arithmetic is not modelled (integers are
  unbounded). The allocator's freedom to over-provision is also not modelled. `reserve`,
  `reserve_exact` and `Vec::with_capacity` (`Owned.Reserve`, `Owned.ReserveExact`,
  `Owned.VecWithCapacity`) are given the amounts the current std implementation allocates;
  std itself only guarantees lower bounds. The "within the quota" clause therefore holds only
  under that assumption; the crate itself notes that `Vec` may overshoot the quota
  (src/msgbuf.rs:106-110).
- `Cap.GrowOwnedVec`: its bound `Capacity() <= quota` holds only under the modelled `reserve`
  amounts, not under the lower bounds std guarantees.
- `Cap.Reallocate`: in the `cap.rs` revision `take_owned` yields a `Vec`, so only `Vec`-owned
  buffers exist there. The model follows it: `Cap.Reallocate`, `Cap.EnsureCapacity`, the growth
  wrappers, `Write.ExtendFromSlice` and the reception retries grow a no-alloc owned buffer into a
  `Vec` instead of panicking as that kind's `grow` (src/msgbuf/owned/impl.rs:33-35) does. The
  panic is stated only by `Cap.EnsureCapacityChecked`.
- `Cap.Reallocate`: its bound `Cap() <= quota` holds only under the modelled `reserve` and
  `with_capacity` amounts, not under the lower bounds std guarantees.
- `Cap.GrowTo`: the body of `grow_to` (and of `clear_and_grow_to`/`clear_and_grow`) is not part of
  the crate's shown source. It is modelled as `ensure_capacity`, with the contract the tests and
  call sites rely on. `clear_and_grow` doubles the capacity, as the polled loop does explicitly
  at src/async/via.rs:68-69.
- `AsyncRecv.PollViaTruncFrom`: the revision of src/async/via.rs whose `Fit`/`Spilled` carry the
  received length is modelled with the `lib.rs` result types, which carry no size. The size is
  the buffer's fill cursor, which the blocking-equivalence lemmas pin down.
- `AsyncRecv.PollRecvViaPollTryRecv`: the `debug_assert_eq!(sz, fitsz)` is not modelled. On the
  queue transport the retry never spills, so the sizes agree.
- `QueueTransport.RecvTruncWithFullSize`: a received message sets the fill cursor to its
  truncated size, as the contract note at src/sync.rs:52-53 requires. This can lower the fill
  cursor, which the note at src/sync.rs:51 forbids; the two notes conflict and the model follows
  the former. At end of stream the buffer, message flag included, is left unchanged, whereas the
  notes at src/sync.rs:49 and src/async.rs:98 ask for the flag on every `Ok`; so the flag is set
  only when a message was received, as `Empty` does (src/empty.rs:35-42). The same holds for
  `QueueTransport.RecvTrunc`, `QueueTransport.PollRecvTruncWithFullSize` and
  `QueueTransport.PollRecvTrunc`, which pass this result on.
- `SyncRecv.TryRecvMsg`: the peek writes the truncated prefix into the buffer, so on a spill the
  initialised part may have changed. The `TryRecvResult::Spilled` documentation (src/lib.rs:125)
  says it is not modified; the code at src/sync/ext.rs:21 passes the caller's buffer to the peek.
- `EmptyStream.EmptyRecvTrunc`: `Empty` does not set the message flag on end of stream, whereas
  the contract notes ask for it on every `Ok`. The model follows the code.
- The `debug_assert_eq!` on the capacity in the translations (src/sync/via.rs:14,
  src/async/via.rs:24) is replaced by the proved "capacity unchanged" of `QueueTransport.RecvTrunc`.
- `Scenarios.ZeroQuotaRefusesEveryGrowth`: the unit test at src/msgbuf/tests.rs:29 expects growth
  to 1 byte under quota 0 to succeed. `ensure_capacity` raises every request to 56 bytes first
  (src/msgbuf/cap.rs:20), so that growth fails. The model follows `ensure_capacity`, and the lemma
  states the failure.

## Findings

| source | as written | input that shows it | evidently intended | confidence | as-written member | corrected member |
|---|---|---|---|---|---|---|
| src/msgbuf/lifetime.rs:9-11 | a borrowed buffer is replaced by a fresh empty `Vec` allocation (init 0) into which the old fill cursor and message flag are copied, but not the bytes | `make_owned` of a borrowed 6-byte buffer (`From<&mut [MaybeUninit<u8>]>`) after it received the one-byte message `[7]`: the result has fill 1 and init 0, breaking `fill <= init` and exposing uninitialised memory as the message | keep the cursor invariant by copying the filled part into the new allocation | not executed | `Lifetime.MakeOwnedAsWritten` | `Lifetime.MakeOwned` |
