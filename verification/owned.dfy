/** Owned backing storage of a message buffer (`OwnedBuf`, its `Vec<u8>` and
    no-alloc `()` implementations, and the `DynOwnedBuf` trait object).

    Raw pointers are replaced by the memory they point to: a raw-parts value is
    the allocation (`mem`, whose length is the capacity) plus the
    initialisation cursor. The vtable of the trait object becomes a tag naming
    which of the two implementations backs the buffer. */
module Owned {
  import opened Base

  /** The owned-buffer implementations a trait object can stand for. */
  datatype Backing = VecBacked | NoAlloc

  /** `OwnedBufRawParts`: base pointer and capacity (as the memory itself) and
      the initialisation cursor. */
  datatype RawParts = RawParts(mem: seq<byte>, init: nat) {
    function Cap(): nat { |mem| }

    /** The cursor may not exceed the capacity. */
    predicate Valid() { init <= |mem| }
  }

  /** A `Vec<u8>`: an allocation of `|mem|` bytes whose first `len` bytes are
      its elements. */
  datatype Vec = Vec(mem: seq<byte>, len: nat) {
    function Capacity(): nat { |mem| }

    predicate Valid() { len <= |mem| }

    /** The elements, as `as_slice()` sees them. */
    function Elements(): seq<byte>
      requires Valid()
    {
      mem[..len]
    }
  }

  /** The raw parts of a `Vec`: its capacity and, as the cursor, its length. */
  function VecAsRawParts(v: Vec): (r: RawParts)
    ensures r.Cap() == v.Capacity() && r.init == v.len
    ensures v.Valid() ==> r.Valid()
  {
    RawParts(v.mem, v.len)
  }

  /** Rebuilds a `Vec` from raw parts: length = cursor, capacity = capacity. */
  function VecFromRawParts(r: RawParts): (v: Vec)
    ensures v.Capacity() == r.Cap() && v.len == r.init
    ensures r.Valid() ==> v.Valid()
  {
    Vec(r.mem, r.init)
  }

  /** The std `Vec::reserve_exact(additional)`: when fewer than `additional`
      slots are spare, reallocate to exactly `len + additional`, keeping the
      contents. */
  function ReserveExact(v: Vec, additional: nat): (w: Vec)
    requires v.Valid()
    ensures w.Valid() && w.len == v.len
    ensures w.Capacity() >= v.len + additional
    ensures w.Capacity() >= v.Capacity() && w.mem[..v.Capacity()] == v.mem
    ensures v.Capacity() < v.len + additional ==> w.Capacity() == v.len + additional
    ensures v.Capacity() >= v.len + additional ==> w == v
  {
    if |v.mem| - v.len >= additional then v
    else Vec(v.mem + Zeros(v.len + additional - |v.mem|), v.len)
  }

  /** The std `Vec::reserve(additional)`: like `ReserveExact`, but a
      reallocation at least doubles the capacity (amortised growth). */
  function Reserve(v: Vec, additional: nat): (w: Vec)
    requires v.Valid()
    ensures w.Valid() && w.len == v.len
    ensures w.Capacity() >= v.len + additional
    ensures w.Capacity() >= v.Capacity() && w.mem[..v.Capacity()] == v.mem
    ensures v.Capacity() < v.len + additional ==>
              w.Capacity() == Max(v.len + additional, 2 * v.Capacity())
    ensures v.Capacity() >= v.len + additional ==> w == v
  {
    if |v.mem| - v.len >= additional then v
    else Vec(v.mem + Zeros(Max(v.len + additional, 2 * |v.mem|) - |v.mem|), v.len)
  }

  /** `Vec::with_capacity(n)`: a fresh allocation of `n` bytes and no
      elements. */
  function VecWithCapacity(n: nat): (v: Vec)
    ensures v.Valid() && v.Capacity() == n && v.len == 0
  {
    Vec(Zeros(n), 0)
  }

  /** `Vec::extend_from_slice(s)`: appends `s` after the elements, growing
      like `Reserve` when the spare room is too small. */
  function VecExtendFromSlice(v: Vec, s: seq<byte>): (w: Vec)
    requires v.Valid()
    ensures w.Valid() && w.len == v.len + |s|
    ensures w.Elements() == v.Elements() + s
    ensures v.Capacity() >= v.len + |s| ==> w.Capacity() == v.Capacity()
  {
    var r := Reserve(v, |s|);
    Vec(r.mem[..r.len] + s + r.mem[r.len + |s|..], r.len + |s|)
  }

  /** `OwnedBuf::grow` for `Vec<u8>`: reserves exactly the saturating
      difference between the requested capacity and the length. */
  function VecGrow(v: Vec, newCap: nat): (w: Vec)
    requires v.Valid()
    ensures w.Valid() && w.len == v.len
    ensures w.Capacity() >= newCap
    ensures w.mem[..v.len] == v.mem[..v.len]
    ensures newCap <= v.len ==> w == v
  {
    var incr := if newCap > v.len then newCap - v.len else 0;
    ReserveExact(v, incr)
  }

  /** The logical contract every `OwnedBuf::grow` must meet: the initialised
      bytes survive, the cursor does not go down, and the capacity reaches the
      request. */
  predicate GrowContract(before: RawParts, after: RawParts, newCap: nat)
    requires before.Valid()
  {
    && after.Valid()
    && after.init >= before.init
    && after.mem[..before.init] == before.mem[..before.init]
    && after.Cap() >= newCap
  }

  /** `grow` of the implementation named by `backing`, on its raw parts. The
      `()` buffer refuses to allocate. */
  function BackingGrow(backing: Backing, raw: RawParts, newCap: nat): (g: Checked<RawParts>)
    requires raw.Valid()
    ensures g.Done? <==> backing == VecBacked
    ensures g.Done? ==> GrowContract(raw, g.value, newCap)
    ensures g.Panic? ==> g.reason == AllocationForbidden
  {
    match backing
    case VecBacked => Done(VecAsRawParts(VecGrow(VecFromRawParts(raw), newCap)))
    case NoAlloc => Panic(AllocationForbidden)
  }

  /** The raw parts of the no-alloc `()` buffer: always empty. */
  function UnitRawParts(): (r: RawParts)
    ensures r.Cap() == 0 && r.init == 0
  {
    RawParts([], 0)
  }

  /** `DynOwnedBuf`: the implementation tag and the raw parts it owns. Its
      `as_raw_parts` is the `raw` field. */
  datatype DynOwnedBuf = DynOwnedBuf(backing: Backing, raw: RawParts) {
    predicate Valid() { raw.Valid() }
  }

  /** `owned_default`: an owned buffer of the given kind rebuilt from a zero
      capacity and a zero cursor. */
  function OwnedDefault(backing: Backing): (d: DynOwnedBuf)
    ensures d.Valid() && d.backing == backing
    ensures d.raw.Cap() == 0 && d.raw.init == 0
  {
    DynOwnedBuf(backing, RawParts([], 0))
  }

  /** `DynOwnedBuf::default`: an empty `Vec`-backed buffer. */
  function DynDefault(): (d: DynOwnedBuf)
    ensures d.Valid() && d.backing == VecBacked
    ensures d.raw.Cap() == 0 && d.raw.init == 0
  {
    DynOwnedBuf(VecBacked, VecAsRawParts(Vec([], 0)))
  }

  /** `DynOwnedBuf::grow`: delegates to the implementation, keeps the kind, and
      panics if the implementation came back smaller than requested. */
  function DynGrow(d: DynOwnedBuf, newCap: nat): (g: Checked<DynOwnedBuf>)
    requires d.Valid()
    ensures g.Done? <==> d.backing == VecBacked
    ensures g.Done? ==> g.value.backing == d.backing && GrowContract(d.raw, g.value.raw, newCap)
    ensures g.Panic? ==> g.reason == AllocationForbidden
  {
    match BackingGrow(d.backing, d.raw, newCap)
    case Panic(f) => Panic(f)
    case Done(r) => if r.Cap() < newCap then Panic(GrowthFellShort) else Done(DynOwnedBuf(d.backing, r))
  }

  /** `DynOwnedBuf::take`: hands out the raw parts and leaves an empty buffer
      of the same kind. */
  function DynTake(d: DynOwnedBuf): (r: (RawParts, DynOwnedBuf))
    ensures r.0 == d.raw
    ensures r.1.backing == d.backing && r.1.raw.Cap() == 0 && r.1.raw.init == 0
  {
    (d.raw, DynOwnedBuf(d.backing, RawParts([], 0)))
  }
}
