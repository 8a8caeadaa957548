/** Capacity and reallocation of the message buffer: `ensure_capacity` with
    its quota check, the `QuotaExceeded` error, and the growth wrappers
    `grow_to`, `clear_and_grow_to` and `clear_and_grow` built on it. */
module Cap {
  import opened Base
  import opened Owned
  import opened Buf
  import opened Conv
  import opened Take

  /** The quota the buffer had and the capacity the failed growth aimed at. */
  datatype QuotaExceeded = QuotaExceeded(quota: nat, attemptedAlloc: nat)

  /** `size_of::<MsgBuf>()` on a 64-bit target, for the layout of the
      revision with `has_msg` and the owned-buffer vtable that `cap.rs`
      compiles against: pointer, three cursors, vtable reference and an
      `Option<NonZeroUsize>` quota (8 bytes each, the quota niche-packed) and
      two one-byte flags, padded to 8. The model's quota admits 0, as the
      unit tests use it; that does not change this constant. Every growth
      request is raised to at least this. */
  const MinCapacity: nat := 56

  /** The request `ensure_capacity` actually works with. */
  function Raised(c: nat): (r: nat)
    ensures r >= c && r >= MinCapacity && r > 0
  {
    Max(c, MinCapacity)
  }

  /** What a successful growth keeps: the cursor invariant, the filled prefix
      byte for byte, the fill cursor, the quota and the message flag; and the
      capacity does not go down. */
  predicate Retains(b: MsgBuf, r: MsgBuf)
    requires b.Valid()
  {
    && r.Valid()
    && r.fill == b.fill
    && r.mem[..b.fill] == b.mem[..b.fill]
    && r.quota == b.quota
    && r.hasMsg == b.hasMsg
    && r.Cap() >= b.Cap()
  }

  /** The allocation step of `ensure_capacity` for an owned buffer whose
      cursor was lowered to the fill: the `Vec` grows in place, exactly to the
      request when amortised doubling could pass the quota. */
  function GrowOwnedVec(vec: Vec, req: nat, quota: Option<nat>): (w: Vec)
    requires vec.Valid() && vec.len <= vec.Capacity() < req
    requires quota.Some? ==> req <= quota.value
    ensures w.Valid() && w.len == vec.len && w.Elements() == vec.Elements()
    ensures w.Capacity() >= req
    ensures quota.Some? ==> w.Capacity() <= quota.value
  {
    var overshoot := quota.Some? && req * 2 > quota.value;
    if overshoot then ReserveExact(vec, req - vec.len) else Reserve(vec, req - vec.len)
  }

  /** The reallocating branch of `ensure_capacity`: the filled part ends up
      as the elements of a `Vec` of at least `req` bytes. */
  function Reallocate(b: MsgBuf, req: nat): (r: MsgBuf)
    requires b.Valid() && b.Cap() < req
    requires b.quota.Some? ==> req <= b.quota.value
    ensures Retains(b, r) && r.Cap() >= req
    ensures !r.borrowed && r.backing == VecBacked && r.init == r.fill
    ensures b.quota.Some? ==> r.Cap() <= b.quota.value
  {
    var dropped := b.(init := b.fill);
    var v :=
      match TakeOwned(dropped).0
      case Some(owned) => GrowOwnedVec(VecFromRawParts(owned.raw), req, b.quota)
      case None => VecExtendFromSlice(VecWithCapacity(req), b.mem[..b.fill]);
    FromVec(v).(quota := b.quota, hasMsg := b.hasMsg)
  }

  /** `ensure_capacity(c)`. After raising `c` to `MinCapacity`, a buffer that
      is already large enough is left alone; a request over the quota fails
      before anything changes; otherwise the filled part is moved into an owned
      `Vec` allocation (growing the owned one in place, or copying out of the
      borrowed one). The result owns its memory, its initialised part is
      exactly its filled part, and its capacity stays within the quota. */
  function EnsureCapacity(b: MsgBuf, c: nat): (r: Result<MsgBuf, QuotaExceeded>)
    requires b.Valid()
    ensures b.Cap() >= Raised(c) ==> r == Ok(b)
    ensures r.Err? <==> b.Cap() < Raised(c) && b.quota.Some? && Raised(c) > b.quota.value
    ensures r.Err? ==> r.error == QuotaExceeded(b.quota.value, Raised(c))
    ensures r.Ok? ==> Retains(b, r.value) && r.value.Cap() >= c
    ensures r.Ok? && b.Cap() < Raised(c) ==>
              && r.value.Cap() >= Raised(c)
              && !r.value.borrowed && r.value.backing == VecBacked
              && r.value.init == r.value.fill
              && (b.quota.Some? ==> r.value.Cap() <= b.quota.value)
  {
    var req := Raised(c);
    if |b.mem| >= req then Ok(b)
    else if b.quota.Some? && req > b.quota.value then Err(QuotaExceeded(b.quota.value, req))
    else Ok(Reallocate(b, req))
  }

  /** `ensure_capacity(c)` where the owned buffer is a trait object of a
      known kind: growth goes through that kind's `grow`, so a no-alloc
      owned buffer that has to grow is fatal, and every other case is the
      Vec-backed growth of `EnsureCapacity`. */
  function EnsureCapacityChecked(b: MsgBuf, c: nat): (r: Checked<Result<MsgBuf, QuotaExceeded>>)
    requires b.Valid()
    ensures r.Panic? <==>
              && b.Cap() < Raised(c)
              && !(b.quota.Some? && Raised(c) > b.quota.value)
              && (!b.borrowed || b.Cap() == 0)
              && b.backing == NoAlloc
    ensures r.Panic? ==> r.reason == AllocationForbidden
    ensures r.Done? ==> r.value == EnsureCapacity(b, c)
  {
    var req := Raised(c);
    if |b.mem| >= req || (b.quota.Some? && req > b.quota.value) then Done(EnsureCapacity(b, c))
    else
      match TakeOwned(b.(init := b.fill)).0
      case Some(owned) =>
        if DynGrow(owned, req).Panic? then Panic(AllocationForbidden) else Done(EnsureCapacity(b, c))
      case None => Done(EnsureCapacity(b, c))
  }

  /** `grow_to(n)`: growth that keeps the filled content. */
  function GrowTo(b: MsgBuf, n: nat): (r: Result<MsgBuf, QuotaExceeded>)
    requires b.Valid()
    ensures r.Ok? ==> Retains(b, r.value) && r.value.Cap() >= n
    ensures r.Err? <==> b.Cap() < Raised(n) && b.quota.Some? && Raised(n) > b.quota.value
    ensures r.Err? ==> r.error.attemptedAlloc >= n
  {
    EnsureCapacity(b, n)
  }

  /** `clear_and_grow_to(n)`: empties the filled part, then grows; nothing has
      to be copied. */
  function ClearAndGrowTo(b: MsgBuf, n: nat): (r: Result<MsgBuf, QuotaExceeded>)
    requires b.Valid()
    ensures r.Ok? ==> r.value.Valid() && r.value.fill == 0 && r.value.Cap() >= n
    ensures r.Ok? ==> r.value.Cap() >= b.Cap() && r.value.quota == b.quota && r.value.hasMsg == b.hasMsg
    ensures r.Err? <==> b.Cap() < Raised(n) && b.quota.Some? && Raised(n) > b.quota.value
    ensures r.Err? ==> r.error == QuotaExceeded(b.quota.value, Raised(n))
  {
    EnsureCapacity(SetFill(b, 0).value, n)
  }

  /** `clear_and_grow()`: empties the filled part and at least doubles the
      capacity (from zero, up to `MinCapacity`). Success always strictly
      increases the capacity, which is what makes the grow-and-retry loop
      terminate. */
  function ClearAndGrow(b: MsgBuf): (r: Result<MsgBuf, QuotaExceeded>)
    requires b.Valid()
    ensures r.Ok? ==> r.value.Valid() && r.value.fill == 0
    ensures r.Ok? ==> r.value.Cap() > b.Cap() && r.value.Cap() >= 2 * b.Cap()
    ensures r.Ok? ==> r.value.quota == b.quota && r.value.hasMsg == b.hasMsg
    ensures r.Err? <==> b.quota.Some? && Raised(2 * b.Cap()) > b.quota.value
  {
    ClearAndGrowTo(b, 2 * |b.mem|)
  }
}
