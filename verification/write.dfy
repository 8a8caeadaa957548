/** Writing into the message buffer from safe code: `extend_from_slice`. */
module Write {
  import opened Base
  import opened Buf
  import opened Cap

  /** `extend_from_slice(s)`: makes room for `s` after the filled part (which
      may fail on the quota before anything is written), copies `s` there, and
      moves the fill cursor past it. The initialisation cursor only moves
      forward from where growth left it. */
  function ExtendFromSlice(b: MsgBuf, s: seq<byte>): (r: Result<MsgBuf, QuotaExceeded>)
    requires b.Valid()
    ensures r.Err? <==> b.Cap() < Raised(b.fill + |s|) && b.quota.Some? && Raised(b.fill + |s|) > b.quota.value
    ensures r.Err? ==> r.error == QuotaExceeded(b.quota.value, Raised(b.fill + |s|))
    ensures r.Ok? ==> r.value.Valid() && r.value.fill == b.fill + |s|
    ensures r.Ok? ==> FilledPart(r.value) == FilledPart(b) + s
    ensures r.Ok? ==> r.value.quota == b.quota && r.value.hasMsg == b.hasMsg
    ensures r.Ok? && b.Cap() >= Raised(b.fill + |s|) ==>
              r.value.init == Max(b.fill + |s|, b.init) && r.value.Cap() == b.Cap()
              && r.value.borrowed == b.borrowed
  {
    var newLen := b.fill + |s|;
    match EnsureCapacity(b, newLen)
    case Err(q) => Err(q)
    case Ok(g) =>
      var written := g.(mem := g.mem[..g.fill] + s + g.mem[newLen..]);
      var advanced := SetInit(written, Max(newLen, g.init)).value;
      Ok(SetFill(advanced, newLen).value)
  }
}
