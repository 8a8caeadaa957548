/** The message buffer `MsgBuf` (its fields and invariant, `Default`) and its
    cursors (`len_*` accessors, the `*_part` views they delimit, `set_init`,
    `set_fill`, `fully_initialize`).

    The buffer's memory is `mem`; its length is the capacity. Bytes at or past
    `init` stand for uninitialised memory: they have some value in the model,
    but no contract speaks about them. */
module Buf {
  import opened Base
  import opened Owned

  /** `MsgBuf`: memory, the initialisation and fill cursors, whether the memory
      is borrowed from the caller, which owned-buffer kind manages it when it
      is owned, the growth quota, and whether the filled part is a message. */
  datatype MsgBuf = MsgBuf(
    mem: seq<byte>,
    init: nat,
    fill: nat,
    borrowed: bool,
    backing: Backing,
    quota: Option<nat>,
    hasMsg: bool)
  {
    function Cap(): nat { |mem| }

    /** The field invariant: `fill <= init <= cap`. */
    predicate Valid() { fill <= init <= |mem| }
  }

  /** `Default`: no memory, no cursors, owned by the default `Vec` kind, no
      quota and no message. */
  function Default(): (b: MsgBuf)
    ensures b.Valid()
    ensures b.Cap() == 0 && b.init == 0 && b.fill == 0
    ensures !b.borrowed && b.backing == VecBacked && b.quota == None && !b.hasMsg
  {
    MsgBuf([], 0, 0, false, VecBacked, None, false)
  }

  /** `capacity()`. */
  function Capacity(b: MsgBuf): nat { |b.mem| }

  /** `len_filled()`. */
  function LenFilled(b: MsgBuf): nat { b.fill }

  /** `len_init()`. */
  function LenInit(b: MsgBuf): nat { b.init }

  /** `len_init_but_unfilled()`: the bytes that are initialised but not filled. */
  function LenInitButUnfilled(b: MsgBuf): nat
    requires b.Valid()
  {
    b.init - b.fill
  }

  /** `len_unfilled()`: everything past the fill cursor, initialised or not. */
  function LenUnfilled(b: MsgBuf): nat
    requires b.Valid()
  {
    |b.mem| - b.fill
  }

  /** `len_uninit()`: everything past the initialisation cursor. */
  function LenUninit(b: MsgBuf): nat
    requires b.Valid()
  {
    |b.mem| - b.init
  }

  /** `filled_part()`: the first `fill` bytes. */
  function FilledPart(b: MsgBuf): seq<byte>
    requires b.Valid()
  {
    b.mem[..b.fill]
  }

  /** `init_part()`: the first `init` bytes. */
  function InitPart(b: MsgBuf): seq<byte>
    requires b.Valid()
  {
    b.mem[..b.init]
  }

  /** `init_but_unfilled_part_mut()`: the bytes in `[fill, init)`. */
  function InitButUnfilledPart(b: MsgBuf): seq<byte>
    requires b.Valid()
  {
    b.mem[b.fill..b.init]
  }

  /** `unfilled_part()`: everything from the fill cursor to the capacity. */
  function UnfilledPart(b: MsgBuf): seq<byte>
    requires b.Valid()
  {
    b.mem[b.fill..]
  }

  /** `uninit_part()`: everything from the initialisation cursor to the
      capacity. */
  function UninitPart(b: MsgBuf): seq<byte>
    requires b.Valid()
  {
    b.mem[b.init..]
  }

  /** The three regions the cursors delimit partition the capacity, and the
      unfilled part is the initialised-but-unfilled part plus the uninitialised
      one. */
  lemma CursorPartition(b: MsgBuf)
    requires b.Valid()
    ensures LenFilled(b) + LenInitButUnfilled(b) + LenUninit(b) == Capacity(b)
    ensures LenUnfilled(b) == LenInitButUnfilled(b) + LenUninit(b)
    ensures LenFilled(b) + LenUnfilled(b) == Capacity(b)
    ensures LenInit(b) + LenUninit(b) == Capacity(b)
  {
  }

  /** `set_init(n)`: moves the initialisation cursor; a cursor past the
      capacity is a fatal error. */
  function SetInit(b: MsgBuf, n: nat): (r: Checked<MsgBuf>)
    ensures r.Panic? <==> n > b.Cap()
    ensures r.Panic? ==> r.reason == InitPastCapacity
    ensures r.Done? ==> r.value.init == n && r.value == b.(init := r.value.init)
    ensures r.Done? && b.Valid() ==> (r.value.Valid() <==> b.fill <= n)
  {
    if n > |b.mem| then Panic(InitPastCapacity) else Done(b.(init := n))
  }

  /** `set_fill(n)`: moves the fill cursor; a cursor past the initialised part
      is a fatal error. */
  function SetFill(b: MsgBuf, n: nat): (r: Checked<MsgBuf>)
    ensures r.Panic? <==> n > b.init
    ensures r.Panic? ==> r.reason == FillPastInit
    ensures r.Done? ==> r.value.fill == n && r.value == b.(fill := r.value.fill)
    ensures r.Done? && b.Valid() ==> r.value.Valid()
  {
    if n > b.init then Panic(FillPastInit) else Done(b.(fill := n))
  }

  /** Empties the filled part and forgets the message, as the reception code
      does before it propagates an I/O error or reports a size-only probe. */
  function ClearMsg(b: MsgBuf): (r: MsgBuf)
    requires b.Valid()
    ensures r.Valid() && r.fill == 0 && !r.hasMsg
    ensures r.mem == b.mem && r.init == b.init && r.borrowed == b.borrowed
    ensures r.quota == b.quota && r.backing == b.backing
  {
    SetFill(b, 0).value.(hasMsg := false)
  }

  /** `fully_initialize()`: zeroes the uninitialised tail and moves the
      initialisation cursor to the capacity. */
  function FullyInitialize(b: MsgBuf): (r: MsgBuf)
    requires b.Valid()
    ensures r.Valid() && r.init == r.Cap() == b.Cap() && r.fill == b.fill
    ensures r.mem[..b.init] == b.mem[..b.init]
    ensures forall i :: b.init <= i < r.Cap() ==> r.mem[i] == 0
    ensures r.borrowed == b.borrowed && r.quota == b.quota && r.hasMsg == b.hasMsg
  {
    var zeroed := b.(mem := b.mem[..b.init] + Zeros(|b.mem| - b.init));
    SetInit(zeroed, |zeroed.mem|).value
  }
}
