/** Views of the message buffer: the message, how the parts the cursors
    delimit tile the memory, and the two splits that hand out the tail as a new borrowed buffer. */
module Slicing {
  import opened Base
  import opened Buf
  import opened Conv

  /** The parts tile the memory and their lengths are the cursor distances. */
  lemma {:induction false} PartsTile(b: MsgBuf)
    requires b.Valid()
    ensures FilledPart(b) + InitButUnfilledPart(b) == InitPart(b)
    ensures InitPart(b) + UninitPart(b) == b.mem
    ensures FilledPart(b) + UnfilledPart(b) == b.mem
    ensures |FilledPart(b)| == LenFilled(b) && |InitPart(b)| == LenInit(b)
    ensures |InitButUnfilledPart(b)| == LenInitButUnfilled(b)
    ensures |UnfilledPart(b)| == LenUnfilled(b) && |UninitPart(b)| == LenUninit(b)
  {
    assert FilledPart(b) + InitButUnfilledPart(b) == InitPart(b);
  }

  /** `msg()`: the filled part when it is a message, nothing otherwise. */
  function Msg(b: MsgBuf): (m: Option<seq<byte>>)
    requires b.Valid()
    ensures m.Some? <==> b.hasMsg
    ensures m.Some? ==> m.value == b.mem[..b.fill] && |m.value| == b.fill
  {
    if b.hasMsg then Some(FilledPart(b)) else None
  }

  /** `split_at_init()`: the initialised part, and the uninitialised tail as a
      fresh borrowed buffer. */
  function SplitAtInit(b: MsgBuf): (r: (seq<byte>, MsgBuf))
    requires b.Valid()
    ensures r.0 == b.mem[..b.init]
    ensures r.1.Valid() && r.1.borrowed && r.1.quota == None && !r.1.hasMsg
    ensures r.1.Cap() == b.Cap() - b.init && r.1.init == 0 && r.1.fill == 0
    ensures r.0 + r.1.mem == b.mem
  {
    PartsTile(b);
    (InitPart(b), FromBorrowedUninit(UninitPart(b)))
  }

  /** `split_at_fill()`: the filled part, and the unfilled tail as a fresh
      borrowed buffer that keeps knowing which of its bytes are initialised. */
  function SplitAtFill(b: MsgBuf): (r: (seq<byte>, MsgBuf))
    requires b.Valid()
    ensures r.0 == b.mem[..b.fill]
    ensures r.1.Valid() && r.1.borrowed && r.1.quota == None && !r.1.hasMsg
    ensures r.1.Cap() == b.Cap() - b.fill && r.1.init == b.init - b.fill && r.1.fill == 0
    ensures r.0 + r.1.mem == b.mem
    ensures r.0 + InitPart(r.1) == InitPart(b)
  {
    PartsTile(b);
    var tail := FromBorrowedUninit(UnfilledPart(b));
    var right := SetInit(tail, LenInitButUnfilled(b)).value;
    assert right.mem[..right.init] == InitButUnfilledPart(b);
    (FilledPart(b), right)
  }
}
