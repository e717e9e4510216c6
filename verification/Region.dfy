/** Mapped regions (server-go/bus/region.go): where the two rings of a queue pair lie and what is checked
    when a region is attached. */
module Region {
  import opened Words
  import RC = RingCalls
  import RM = RingMemory

  const TWO63: int := 0x8000_0000_0000_0000

  const CTL_MAGIC: u32 := 0x4c544342
  const CTL_BYTES: nat := 96
  const QP_MAGIC: u32 := 0x52504251
  const QP_BYTES: nat := 96
  const QP_OFF_LOST: nat := 20
  const QP_OFF_IN: nat := 24
  const QP_OFF_OUT: nat := 28
  const QP_OFF_HEARTBEAT: nat := 32

  // ----------------------------------------------------------- layout arithmetic

  /** A 64-bit signed integer: sums and products wrap around. */
  function Wrap(x: int): int { (x + TWO63) % TWO64 - TWO63 }

  /** `(n + 63) &^ 63` on a 64-bit signed integer. */
  function Align64(n: int): int {
    var m := Wrap(n + 63);
    m - m % 64
  }

  function RingBytes(slotSize: u32, capacity: u32): int { Wrap(RM.HDR_BYTES + Wrap(slotSize * capacity)) }

  /** `qpairBytes`: the header, then two rings, each aligned to 64 bytes. */
  function QpairBytes(slotSize: u32, capacity: u32): int {
    var inOff := Align64(QP_BYTES);
    var outOff := Align64(Wrap(inOff + RingBytes(slotSize, capacity)));
    Wrap(outOff + RingBytes(slotSize, capacity))
  }

  /** `Align64(QP_BYTES)`. */
  const IN_OFF: nat := 128

  /** Where the outbound ring starts, and where the region ends, in unbounded integers. */
  function OutOff(slotSize: u32, capacity: u32): nat { (IN_OFF + RM.Need(slotSize, capacity) + 63) / 64 * 64 }

  function Total(slotSize: u32, capacity: u32): nat { OutOff(slotSize, capacity) + RM.Need(slotSize, capacity) }

  lemma WrapSmall(x: int)
    ensures -TWO63 <= Wrap(x) < TWO63
    ensures -TWO63 <= x < TWO63 <==> Wrap(x) == x
    ensures Wrap(x) % 64 == x % 64
  {
    var q, r := (x + TWO63) / TWO64, (x + TWO63) % TWO64;
    if 0 <= x + TWO63 < TWO64 { ModUnique(x + TWO63, TWO64, 0, x + TWO63); }
    assert x == Wrap(x) + 64 * (TWO64 / 64 * q);
    var a := Wrap(x) / 64;
    assert x == 64 * (a + TWO64 / 64 * q) + Wrap(x) % 64;
    ModUnique(x, 64, a + TWO64 / 64 * q, Wrap(x) % 64);
  }

  lemma ProductBound(slotSize: u32, capacity: u32)
    ensures 0 <= slotSize * capacity < TWO64 - TWO32
  {
    MulLe(slotSize, capacity, TWO32 - 1);
    MulLe(TWO32 - 1, slotSize, TWO32 - 1);
  }

  lemma MulLe(a: nat, b: nat, c: nat)
    requires b <= c
    ensures 0 <= a * b <= a * c
  {
    Distribute(a, b, c - b);
  }

  /** The size computed with wrap-around is the true size exactly when that fits a signed 64-bit integer. */
  lemma QpairBytesIsTotal(slotSize: u32, capacity: u32)
    ensures QpairBytes(slotSize, capacity) == Total(slotSize, capacity) <==> Total(slotSize, capacity) < TWO63
  {
    ProductBound(slotSize, capacity);
    if Total(slotSize, capacity) < TWO63 {
      WrapSmall(slotSize * capacity);
      WrapSmall(RM.Need(slotSize, capacity));
      assert RingBytes(slotSize, capacity) == RM.Need(slotSize, capacity);
      NothingWraps(RM.Need(slotSize, capacity));
    } else {
      hide Align64, RingBytes;
      WrapSmall(Align64(Wrap(Align64(QP_BYTES) + RingBytes(slotSize, capacity))) + RingBytes(slotSize, capacity));
    }
  }

  /** The largest geometry two rings may have: its size does not fit a signed 64-bit integer. */
  lemma LargestPairWraps()
    ensures SingleBit(0x8000_0000)
    ensures Total(0xFFFF_FFFF, 0x8000_0000) >= TWO63
    ensures QpairBytes(0xFFFF_FFFF, 0x8000_0000) != Total(0xFFFF_FFFF, 0x8000_0000)
  {
    hide SingleBit, And, QpairBytes, Wrap;
    HalfOf32();
    Pow2IsSingleBit(31);
    QpairBytesIsTotal(0xFFFF_FFFF, 0x8000_0000);
  }

  lemma HalfOf32()
    ensures Pow2(31) == 0x8000_0000
  {
    hide SingleBit, And;
    Pow64();
    assert Pow2(32) == 2 * Pow2(31);
  }

  lemma NothingWraps(need: nat)
    requires (IN_OFF + need + 63) / 64 * 64 + need < TWO63
    ensures Align64(QP_BYTES) == IN_OFF
    ensures Wrap(Align64(Wrap(IN_OFF + need)) + need) == (IN_OFF + need + 63) / 64 * 64 + need
  {
    WrapSmall(QP_BYTES + 63);
    WrapSmall(IN_OFF + need);
    WrapSmall(IN_OFF + need + 63);
    WrapSmall((IN_OFF + need + 63) / 64 * 64 + need);
  }

  /** The rings of a pair are 64-aligned, lie behind the header and behind one another, and the second ends
      exactly where the region ends. */
  lemma PairGeometry(slotSize: u32, capacity: u32)
    ensures IN_OFF % 64 == 0 && OutOff(slotSize, capacity) % 64 == 0
    ensures QP_BYTES <= IN_OFF && IN_OFF + RM.Need(slotSize, capacity) <= OutOff(slotSize, capacity)
    ensures OutOff(slotSize, capacity) < IN_OFF + RM.Need(slotSize, capacity) + 64
    ensures OutOff(slotSize, capacity) + RM.Need(slotSize, capacity) == Total(slotSize, capacity)
  {
    ProductBound(slotSize, capacity);
  }

  /** The size `AttachRing` computes never wraps for a capacity it accepts. */
  lemma NeedNeverWraps(slotSize: u32, capacity: u32)
    requires SingleBit(capacity)
    ensures RingBytes(slotSize, capacity) == RM.Need(slotSize, capacity)
  {
    hide SingleBit, And;
    var k := SingleBitIsPow2(capacity);
    Pow64();
    if k > 31 { Pow2Splits(32, k); assert false; }
    Pow2Splits(k, 31);
    assert Pow2(32) == 2 * Pow2(31);
    MulLe(slotSize, capacity, 0x8000_0000);
    ProductBound(slotSize, capacity);
    WrapSmall(slotSize * capacity);
    WrapSmall(RM.Need(slotSize, capacity));
  }

  // ------------------------------------------------------------- control region

  /** `AttachControl` accepts these bytes. */
  predicate ControlOk(b: seq<byte>) {
    && |b| >= CTL_BYTES && Get32(b, 0) == CTL_MAGIC && Get32(b, 4) == 1 && Get32(b, 8) == 1
    && Get32(b, 16) != 0 && Get32(b, 20) <= Get32(b, 16) && Get64(b, 32) != 0
  }

  class Control {
    const mem: array<byte>

    constructor (mem: array<byte>)
      ensures this.mem == mem
    {
      this.mem := mem;
    }

    predicate Valid()
      reads mem
    {
      ControlOk(mem[..])
    }
  }

  method AttachControl(mem: array<byte>) returns (c: Control?)
    ensures c != null <==> ControlOk(mem[..])
    ensures c != null ==> c.mem == mem && c.Valid()
  {
    var b := mem[..];
    if mem.Length < CTL_BYTES { return null; }
    if Get32(b, 0) != CTL_MAGIC { return null; }
    if Get32(b, 4) != 1 || Get32(b, 8) != 1 { return null; }
    var slot, inl, arena := Get32(b, 16), Get32(b, 20), Get64(b, 32);
    if slot == 0 || inl > slot || arena == 0 { return null; }
    c := new Control(mem);
  }

  /** Control bytes that pass although a full fragment and its frame header do not fit a slot. */
  lemma TightControl() returns (b: seq<byte>)
    ensures ControlOk(b) && Get32(b, 20) <= Get32(b, 16) < Get32(b, 20) + 64
  {
    hide LE, UnLE;
    var words := LE(4, CTL_MAGIC) + LE(4, 1) + LE(4, 1) + LE(4, 0) + LE(4, 128) + LE(4, 100) + LE(8, 0) + LE(8, 1);
    b := words + seq(56, _ => 0);
    Widths();
    UnLEofLE(4, CTL_MAGIC); UnLEofLE(4, 1); UnLEofLE(4, 128); UnLEofLE(4, 100); UnLEofLE(8, 1);
    assert b[0..4] == LE(4, CTL_MAGIC) && b[4..8] == LE(4, 1) == b[8..12];
    assert b[16..20] == LE(4, 128) && b[20..24] == LE(4, 100) && b[32..40] == LE(8, 1);
  }

  // ------------------------------------------------------------------ queue pair

  /** `AttachQueuePair` accepts these bytes. */
  predicate PairOk(b: seq<byte>) {
    && |b| >= QP_BYTES && Get32(b, 0) == QP_MAGIC
    && Get32(b, QP_OFF_IN) < |b| && Get32(b, QP_OFF_OUT) < |b| && Get32(b, QP_OFF_IN) != Get32(b, QP_OFF_OUT)
    && RM.Accepts(b[Get32(b, QP_OFF_IN)..]) && RM.Accepts(b[Get32(b, QP_OFF_OUT)..])
  }

  /** A ring header as `initRing` leaves it: this geometry, both counters 0. */
  predicate FreshRing(b: seq<byte>, slotSize: u32, capacity: u32) {
    && |b| >= RM.HDR_BYTES && Get32(b, 0) == RM.RING_MAGIC
    && Get32(b, RM.OFF_SLOT) == slotSize && Get32(b, RM.OFF_CAP) == capacity
    && Get32(b, RM.OFF_MASK) == capacity - 1 && Get32(b, RM.OFF_SLOTS) == RM.HDR_BYTES
    && Get64(b, RM.OFF_HEAD) == 0 && Get64(b, RM.OFF_TAIL) == 0
  }

  /** A region of the computed size with two fresh rings at the computed offsets. */
  predicate LaidOut(b: seq<byte>, slotSize: u32, capacity: u32) {
    && |b| == Total(slotSize, capacity)
    && Get32(b, 0) == QP_MAGIC && Get32(b, QP_OFF_IN) == IN_OFF && Get32(b, QP_OFF_OUT) == OutOff(slotSize, capacity)
    && FreshRing(b[IN_OFF..], slotSize, capacity) && FreshRing(b[OutOff(slotSize, capacity)..], slotSize, capacity)
  }

  lemma FreshIsAccepted(b: seq<byte>, slotSize: u32, capacity: u32)
    requires FreshRing(b, slotSize, capacity) && |b| >= RM.Need(slotSize, capacity)
    ensures RM.Accepts(b) <==> capacity >= 2 && SingleBit(capacity) && slotSize != 0
  {
    hide SingleBit, UnLE;
  }

  lemma Pieces(a: seq<byte>, b: seq<byte>, c: seq<byte>, d: seq<byte>, e: seq<byte>)
    requires |a| == |b| == |c| == |d| == |e| == 4
    ensures var h := a + (b + c + d + e);
      h[0..4] == a && h[4..8] == b && h[8..12] == c && h[12..16] == d && h[16..20] == e
  {}

  /** The bytes `initRing` stores in one ring header. */
  function GeometryWords(slotSize: u32, capacity: u32): (h: seq<byte>)
    requires capacity > 0
    ensures |h| == 16
  {
    LE(4, slotSize) + LE(4, capacity) + LE(4, capacity - 1) + LE(4, RM.HDR_BYTES)
  }

  lemma HeaderReads(b: seq<byte>, slotSize: u32, capacity: u32)
    requires |b| >= RM.HDR_BYTES && capacity > 0
    requires b[0..20] == LE(4, RM.RING_MAGIC) + GeometryWords(slotSize, capacity)
    requires b[RM.OFF_HEAD..RM.OFF_HEAD + 8] == LE(8, 0) == b[RM.OFF_TAIL..RM.OFF_TAIL + 8]
    ensures FreshRing(b, slotSize, capacity)
  {
    hide LE, UnLE;
    Widths();
    UnLEofLE(4, RM.RING_MAGIC); UnLEofLE(4, slotSize); UnLEofLE(4, capacity); UnLEofLE(4, capacity - 1);
    UnLEofLE(4, RM.HDR_BYTES); UnLEofLE(8, 0);
    Pieces(LE(4, RM.RING_MAGIC), LE(4, slotSize), LE(4, capacity), LE(4, capacity - 1), LE(4, RM.HDR_BYTES));
    SliceSlice(b, 0, 20, 0, 4);
    SliceSlice(b, 0, 20, 4, 8);
    SliceSlice(b, 0, 20, 8, 12);
    SliceSlice(b, 0, 20, 12, 16);
    SliceSlice(b, 0, 20, 16, 20);
  }

  /** Geometry, then both counters, then the magic word, seen from the ring base. */
  lemma HeaderStores(b: seq<byte>, at: nat, end: nat, magic: seq<byte>, geometry: seq<byte>, zero: seq<byte>)
    requires at + RM.HDR_BYTES <= end <= |b| && |magic| == 4 && |geometry| == 16 && |zero| == 8
    ensures var c := Splice(Splice(Splice(Splice(b, at + 4, geometry), at + RM.OFF_HEAD, zero), at + RM.OFF_TAIL,
            zero), at, magic);
      |c| == |b| && c[at..at + 20] == magic + geometry
      && c[at + RM.OFF_HEAD..at + RM.OFF_HEAD + 8] == zero == c[at + RM.OFF_TAIL..at + RM.OFF_TAIL + 8]
      && c[..at] == b[..at] && c[end..] == b[end..]
  {
    hide Splice;
    var b1 := Splice(b, at + 4, geometry);
    var b2 := Splice(b1, at + RM.OFF_HEAD, zero);
    var b3 := Splice(b2, at + RM.OFF_TAIL, zero);
    SpliceRead(b, at + 4, geometry, 0, at);
    SpliceRead(b, at + 4, geometry, end, |b|);
    SpliceRead(b1, at + RM.OFF_HEAD, zero, 0, at);
    SpliceRead(b1, at + RM.OFF_HEAD, zero, end, |b|);
    SpliceRead(b1, at + RM.OFF_HEAD, zero, at + 4, at + 20);
    SpliceRead(b2, at + RM.OFF_TAIL, zero, 0, at);
    SpliceRead(b2, at + RM.OFF_TAIL, zero, end, |b|);
    SpliceRead(b2, at + RM.OFF_TAIL, zero, at + 4, at + 20);
    SpliceRead(b2, at + RM.OFF_TAIL, zero, at + RM.OFF_HEAD, at + RM.OFF_HEAD + 8);
    SpliceRead(b3, at, magic, 0, at);
    SpliceRead(b3, at, magic, end, |b|);
    SpliceRead(b3, at, magic, at + 4, at + 20);
    SpliceRead(b3, at, magic, at + RM.OFF_HEAD, at + RM.OFF_HEAD + 8);
    SpliceRead(b3, at, magic, at + RM.OFF_TAIL, at + RM.OFF_TAIL + 8);
    var c := Splice(b3, at, magic);
    assert c[at..at + 20] == c[at..at + 4] + c[at + 4..at + 20];
  }

  /** `initRing(mem[at:at+len], ...)`: an empty ring of this geometry exactly when the geometry is one
      `AttachRing` accepts and the bytes suffice; otherwise nothing is written. */
  method InitRing(mem: array<byte>, at: nat, len: nat, slotSize: u32, capacity: u32) returns (r: RM.Ring?)
    requires at + len <= mem.Length
    modifies mem
    ensures r != null <==> capacity >= 2 && SingleBit(capacity) && slotSize != 0 && len >= RM.Need(slotSize, capacity)
    ensures r == null ==> mem[..] == old(mem[..])
    ensures r != null ==> r.mem == mem && r.at == at && r.slotSize == slotSize && r.capacity == capacity
                          && r.Valid() && RC.QueueOf(r.View()) == []
                          && r.Outside() == (old(mem[..])[..at], old(mem[..])[at + RM.Need(slotSize, capacity)..])
  {
    hide LE, UnLE, RM.ViewOf, RM.Accepts, And, FreshRing, Headed, RC.Attachable, RC.QueueOf;
    if capacity < 2 || And(capacity, capacity - 1) != 0 || slotSize == 0 { return null; }
    var need := RM.HDR_BYTES + slotSize * capacity;
    if len < need { return null; }
    Zero(mem, at, need);
    WriteHeader(mem, at, at + need, slotSize, capacity);
    HeaderIn(mem[..], at, at + len, slotSize, capacity);
    FreshIsAccepted(mem[..][at..at + len], slotSize, capacity);
    r := RM.AttachRing(mem, at, len);
    FreshFields(mem[..][at..at + len], slotSize, capacity);
    HeaderIn(mem[..], at, mem.Length, slotSize, capacity);
    assert mem[..][at..mem.Length] == mem[..][at..];
    EmptyAt(r, slotSize, capacity);
  }

  /** `mem[at..end]` starts with the header of an empty ring. */
  ghost predicate Headed(b: seq<byte>, at: nat, slotSize: u32, capacity: u32) {
    && at + RM.HDR_BYTES <= |b| && capacity > 0
    && b[at..at + 20] == LE(4, RM.RING_MAGIC) + GeometryWords(slotSize, capacity)
    && b[at + RM.OFF_HEAD..at + RM.OFF_HEAD + 8] == LE(8, 0) == b[at + RM.OFF_TAIL..at + RM.OFF_TAIL + 8]
  }

  lemma HeaderIn(b: seq<byte>, at: nat, end: nat, slotSize: u32, capacity: u32)
    requires Headed(b, at, slotSize, capacity) && at + RM.HDR_BYTES <= end <= |b|
    ensures FreshRing(b[at..end], slotSize, capacity)
  {
    hide LE, UnLE, GeometryWords, FreshRing;
    SliceSlice(b, at, end, 0, 20);
    SliceSlice(b, at, end, RM.OFF_HEAD, RM.OFF_HEAD + 8);
    SliceSlice(b, at, end, RM.OFF_TAIL, RM.OFF_TAIL + 8);
    HeaderReads(b[at..end], slotSize, capacity);
  }

  method WriteHeader(mem: array<byte>, at: nat, end: nat, slotSize: u32, capacity: u32)
    requires at + RM.HDR_BYTES <= end <= mem.Length && capacity > 0
    modifies mem
    ensures Headed(mem[..], at, slotSize, capacity)
    ensures mem[..][..at] == old(mem[..])[..at] && mem[..][end..] == old(mem[..])[end..]
  {
    hide LE, Splice;
    HeaderStores(mem[..], at, end, LE(4, RM.RING_MAGIC), GeometryWords(slotSize, capacity), LE(8, 0));
    Put4(mem, at + RM.OFF_SLOT, 4, slotSize, 4, capacity, 4, capacity - 1, 4, RM.HDR_BYTES);
    Put(mem, at + RM.OFF_HEAD, 8, 0);
    Put(mem, at + RM.OFF_TAIL, 8, 0);
    Put(mem, at, 4, RM.RING_MAGIC);
  }

  lemma FreshFields(b: seq<byte>, slotSize: u32, capacity: u32)
    requires FreshRing(b, slotSize, capacity)
    ensures |b| >= RM.HDR_BYTES && Get32(b, RM.OFF_SLOT) == slotSize && Get32(b, RM.OFF_CAP) == capacity
    ensures Get64(b, RM.OFF_HEAD) == 0 == Get64(b, RM.OFF_TAIL)
  {
    hide UnLE;
  }

  method Zero(mem: array<byte>, at: nat, n: nat)
    requires at + n <= mem.Length
    modifies mem
    ensures mem[..][..at] == old(mem[..])[..at] && mem[..][at + n..] == old(mem[..])[at + n..]
    ensures forall i :: at <= i < at + n ==> mem[i] == 0
  {
    for i := 0 to n
      invariant mem[..at] == old(mem[..at]) && mem[at + n..] == old(mem[at + n..])
      invariant forall k :: at <= k < at + i ==> mem[k] == 0
    {
      mem[at + i] := 0;
    }
  }

  /** Whatever the geometry, a region laid out at the computed offsets is attached exactly when `AttachRing`
      would take a ring of that geometry on its own. */
  lemma LaidOutIsAccepted(b: seq<byte>, slotSize: u32, capacity: u32)
    requires LaidOut(b, slotSize, capacity)
    ensures PairOk(b) <==> capacity >= 2 && SingleBit(capacity) && slotSize != 0
  {
    hide RM.Accepts, FreshRing, SingleBit, UnLE;
    PairGeometry(slotSize, capacity);
    var inOff, outOff := IN_OFF, OutOff(slotSize, capacity);
    assert |b[inOff..]| >= RM.Need(slotSize, capacity) && |b[outOff..]| >= RM.Need(slotSize, capacity);
    FreshIsAccepted(b[inOff..], slotSize, capacity);
    FreshIsAccepted(b[outOff..], slotSize, capacity);
  }

  /** What lies outside a changed range is unchanged. */
  lemma ElsewhereUntouched(b: seq<byte>, c: seq<byte>, lo: nat, hi: nat, at: nat, n: nat)
    requires |b| == |c| && lo <= hi <= |b| && at + n <= |b|
    requires b[..lo] == c[..lo] && b[hi..] == c[hi..]
    requires at + n <= lo || hi <= at
    ensures b[at..at + n] == c[at..at + n]
  {
    if at + n <= lo {
      SliceSlice(b, 0, lo, at, at + n);
      SliceSlice(c, 0, lo, at, at + n);
    } else {
      SliceSlice(b, hi, |b|, at - hi, at + n - hi);
      SliceSlice(c, hi, |c|, at - hi, at + n - hi);
    }
  }

  class QueuePair {
    const mem: array<byte>
    const inbound: RM.Ring
    const outbound: RM.Ring

    constructor (mem: array<byte>, inbound: RM.Ring, outbound: RM.Ring)
      ensures this.mem == mem && this.inbound == inbound && this.outbound == outbound
    {
      this.mem, this.inbound, this.outbound := mem, inbound, outbound;
    }

    ghost predicate Valid()
      reads mem, inbound.mem, outbound.mem
    {
      && mem.Length >= QP_BYTES && inbound.mem == mem == outbound.mem
      && inbound.Valid() && outbound.Valid()
    }

    /** The rings overlap neither the header nor each other, in this order. `AttachQueuePair` does not check
        this; the offsets `qpairBytes` assigns guarantee it (`AttachLaidOut`). */
    predicate Apart() {
      QP_BYTES <= inbound.at && inbound.End() <= outbound.at && outbound.End() <= mem.Length
    }

    function Heartbeat(): u64
      requires mem.Length >= QP_BYTES
      reads mem
    {
      Get64(mem[..], QP_OFF_HEARTBEAT)
    }

    function ControlLost(): bool
      requires mem.Length >= QP_BYTES
      reads mem
    {
      Get32(mem[..], QP_OFF_LOST) != 0
    }

    /** Both rings read the same as before: same counters, same slots, so the same queues. */
    twostate predicate RingsSame()
      requires old(Valid()) && Valid()
      reads mem, inbound.mem, outbound.mem
    {
      inbound.View() == old(inbound.View()) && outbound.View() == old(outbound.View())
    }

    /** The heartbeat reaches the word the host reads and nothing else; rings that lie apart stay as they are. */
    method SetHeartbeat(now: u64)
      requires Valid()
      modifies mem
      ensures Heartbeat() == now && ControlLost() == old(ControlLost())
      ensures Apart() ==> Valid() && RingsSame()
      ensures mem[..] == Splice(old(mem[..]), QP_OFF_HEARTBEAT, LE(8, now))
    {
      hide LE, UnLE, RM.ViewOf, Splice;
      ghost var b := mem[..];
      HeartbeatStore(b, now, QP_BYTES, QP_BYTES);
      if Apart() {
        HeartbeatStore(b, now, inbound.at, inbound.End());
        HeartbeatStore(b, now, outbound.at, outbound.End());
      }
      Put(mem, QP_OFF_HEARTBEAT, 8, now);
    }

    /** An operation on the outbound ring, which changes nothing outside it, leaves the inbound queue, the
        heartbeat and the control flag alone. */
    twostate lemma OutboundOnly()
      requires old(Valid()) && Valid() && Apart() && outbound.Outside() == old(outbound.Outside())
      ensures inbound.View() == old(inbound.View())
      ensures Heartbeat() == old(Heartbeat()) && ControlLost() == old(ControlLost())
    {
      hide UnLE, RM.ViewOf;
      var b, c := old(mem[..]), mem[..];
      ElsewhereUntouched(b, c, outbound.at, outbound.End(), inbound.at, inbound.End() - inbound.at);
      ElsewhereUntouched(b, c, outbound.at, outbound.End(), QP_OFF_HEARTBEAT, 8);
      ElsewhereUntouched(b, c, outbound.at, outbound.End(), QP_OFF_LOST, 4);
    }

    twostate lemma InboundOnly()
      requires old(Valid()) && Valid() && Apart() && inbound.Outside() == old(inbound.Outside())
      ensures outbound.View() == old(outbound.View())
      ensures Heartbeat() == old(Heartbeat()) && ControlLost() == old(ControlLost())
    {
      hide UnLE, RM.ViewOf;
      var b, c := old(mem[..]), mem[..];
      ElsewhereUntouched(b, c, inbound.at, inbound.End(), outbound.at, outbound.End() - outbound.at);
      ElsewhereUntouched(b, c, inbound.at, inbound.End(), QP_OFF_HEARTBEAT, 8);
      ElsewhereUntouched(b, c, inbound.at, inbound.End(), QP_OFF_LOST, 4);
    }
  }

  lemma HeartbeatStore(b: seq<byte>, now: u64, lo: nat, hi: nat)
    requires QP_BYTES <= lo <= hi <= |b|
    ensures var c := Splice(b, QP_OFF_HEARTBEAT, LE(8, now));
      |c| == |b| && c[lo..hi] == b[lo..hi] && Get64(c, QP_OFF_HEARTBEAT) == now
        && Get32(c, QP_OFF_LOST) == Get32(b, QP_OFF_LOST)
  {
    hide LE, UnLE;
    StoreLoad(b, QP_OFF_HEARTBEAT, now, 0);
    SpliceRead(b, QP_OFF_HEARTBEAT, LE(8, now), lo, hi);
    SpliceRead(b, QP_OFF_HEARTBEAT, LE(8, now), QP_OFF_LOST, QP_OFF_LOST + 4);
  }

  /** `AttachQueuePair`: a pair exactly when the header and both rings are accepted. */
  method AttachQueuePair(mem: array<byte>) returns (q: QueuePair?)
    ensures q != null <==> PairOk(mem[..])
    ensures q != null ==> q.mem == mem && q.Valid()
                          && q.inbound.at == Get32(mem[..], QP_OFF_IN) && q.outbound.at == Get32(mem[..], QP_OFF_OUT)
                          && q.inbound.slotSize == Get32(mem[q.inbound.at..], RM.OFF_SLOT)
                          && q.inbound.capacity == Get32(mem[q.inbound.at..], RM.OFF_CAP)
                          && q.outbound.slotSize == Get32(mem[q.outbound.at..], RM.OFF_SLOT)
                          && q.outbound.capacity == Get32(mem[q.outbound.at..], RM.OFF_CAP)
  {
    hide RM.Accepts, UnLE, RM.ViewOf;
    var b := mem[..];
    if mem.Length < QP_BYTES { return null; }
    if Get32(b, 0) != QP_MAGIC { return null; }
    var inOff, outOff := Get32(b, QP_OFF_IN), Get32(b, QP_OFF_OUT);
    if inOff >= mem.Length || outOff >= mem.Length || inOff == outOff { return null; }
    assert b[inOff..] == mem[..][inOff..inOff + (mem.Length - inOff)];
    assert b[outOff..] == mem[..][outOff..outOff + (mem.Length - outOff)];
    var inbound := RM.AttachRing(mem, inOff, mem.Length - inOff);
    if inbound == null { return null; }
    var outbound := RM.AttachRing(mem, outOff, mem.Length - outOff);
    if outbound == null { return null; }
    assert mem[inOff..] == b[inOff..] && mem[outOff..] == b[outOff..];
    q := new QueuePair(mem, inbound, outbound);
  }

  /** A region laid out at the computed offsets attaches to two empty rings of that geometry, apart from
      each other and from the header. */
  method AttachLaidOut(mem: array<byte>, slotSize: u32, capacity: u32) returns (q: QueuePair?)
    requires LaidOut(mem[..], slotSize, capacity)
    ensures q != null <==> capacity >= 2 && SingleBit(capacity) && slotSize != 0
    ensures q != null ==> q.Valid() && q.Apart() && q.outbound.End() == mem.Length
                          && RC.QueueOf(q.inbound.View()) == [] == RC.QueueOf(q.outbound.View())
  {
    hide SingleBit, UnLE, RM.Accepts, RM.ViewOf;
    LaidOutIsAccepted(mem[..], slotSize, capacity);
    PairGeometry(slotSize, capacity);
    q := AttachQueuePair(mem);
    if q != null {
      assert mem[q.inbound.at..] == mem[..][IN_OFF..] && mem[q.outbound.at..] == mem[..][OutOff(slotSize, capacity)..];
      EmptyAt(q.inbound, slotSize, capacity);
      EmptyAt(q.outbound, slotSize, capacity);
    }
  }

  lemma EmptyAt(r: RM.Ring, slotSize: u32, capacity: u32)
    requires r.Valid() && r.slotSize == slotSize && r.capacity == capacity
    requires r.at <= r.mem.Length && FreshRing(r.mem[..][r.at..], slotSize, capacity)
    ensures RC.QueueOf(r.View()) == []
  {
    hide UnLE, FreshRing, RM.SlotBytes, And, SingleBit, LE;
    var b := r.mem[..];
    FreshFields(b[r.at..], slotSize, capacity);
    SliceSlice(b, r.at, r.End(), RM.OFF_HEAD, RM.OFF_HEAD + 8);
    SliceSlice(b, r.at, r.End(), RM.OFF_TAIL, RM.OFF_TAIL + 8);
    SliceSlice(b, r.at, |b|, RM.OFF_HEAD, RM.OFF_HEAD + 8);
    SliceSlice(b, r.at, |b|, RM.OFF_TAIL, RM.OFF_TAIL + 8);
    assert b[r.at..|b|] == b[r.at..];
    assert r.View().head == 0 == r.View().tail;
    RC.EmptyGap(0, 0);
  }
}
