/** The 64-byte event frame header (server-go/bus/wire.go). */
module FrameCodec {
  import opened Words

  const WIRE_MAGIC: u32 := 0x30535542
  const WIRE_VERSION: u16 := 3
  const HDR_LEN: nat := 64
  const MAX_PAYLOAD: u32 := 1_048_576

  const F_INLINE: u16 := 0x0001
  const F_ARENA: u16 := 0x0002
  const F_NOTIFICATION: u16 := 0x0004
  const F_REQUEST: u16 := 0x0008
  const F_REPLY: u16 := 0x0010
  const F_CANCEL: u16 := 0x0020
  const F_MORE: u16 := 0x0080
  const PLACEMENT_MASK: u16 := 0x0003
  const PATTERN_MASK: u16 := 0x003C
  const UNKNOWN_MASK: u16 := 0xFF00 // the complement of fKnownMask

  const KIND_ERROR: u32 := 3
  const KIND_CAPABILITY_ABSENT: u32 := 4

  datatype Frame = Frame(
    hdrFlags: u16, wireVersion: u16, eventKind: u32, principalRef: u32, correlationId: u64,
    sequence: u64, logicalTs: u64, payloadRef: u64, payloadLen: u32,
    srcHandle: u32, dstHandle: u32, generation: u32)

  datatype Code = OK | ErrShort | ErrMagic | ErrVersion | ErrFlags | ErrPayloadLen | ErrCorrelation

  datatype Decoded = Decoded(frame: Frame) | Rejected(code: Code)

  predicate Has(flags: u16, flag: u16) { And(flags, flag) != 0 }

  /** The header rules, in the order the code tests them. */
  function Validate(f: Frame): Code {
    var placement := And(f.hdrFlags, PLACEMENT_MASK);
    var pattern := And(f.hdrFlags, PATTERN_MASK);
    if f.wireVersion != WIRE_VERSION then ErrVersion
    else if And(f.hdrFlags, UNKNOWN_MASK) != 0 then ErrFlags
    else if !SingleBit(pattern) then ErrFlags
    else if f.payloadLen > 0 && !SingleBit(placement) then ErrFlags
    else if f.payloadLen > 0 && f.payloadLen > MAX_PAYLOAD then ErrPayloadLen
    else if f.payloadLen == 0 && placement != 0 then ErrFlags
    else if f.payloadLen == 0 && f.payloadRef != 0 then ErrPayloadLen
    else if Has(f.hdrFlags, F_MORE) &&
            ((pattern != F_REQUEST && pattern != F_REPLY) || placement != F_INLINE || f.payloadLen == 0) then ErrFlags
    else if !Has(f.hdrFlags, F_ARENA) && f.generation != 0 then ErrFlags
    else if Has(f.hdrFlags, F_NOTIFICATION) then
      if f.correlationId != 0 then ErrCorrelation else OK
    else if f.correlationId == 0 then ErrCorrelation
    else OK
  }

  /** Bounds a payload reference against live geometry; `end` wraps at 2^64 as in the code. */
  function CheckPlacement(f: Frame, slotSize: u32, arenaSize: u64): Code {
    if Validate(f) != OK then Validate(f)
    else if f.payloadLen == 0 then OK
    else if Has(f.hdrFlags, F_INLINE) then
      var end := (f.payloadRef + f.payloadLen) % TWO64;
      if end < f.payloadRef || f.payloadRef < HDR_LEN || end > slotSize then ErrPayloadLen else OK
    else if f.payloadLen > arenaSize then ErrPayloadLen else OK
  }

  /** How many of the four message patterns a flag word names. */
  function Patterns(flags: u16): nat {
    (if Has(flags, F_NOTIFICATION) then 1 else 0) + (if Has(flags, F_REQUEST) then 1 else 0)
    + (if Has(flags, F_REPLY) then 1 else 0) + (if Has(flags, F_CANCEL) then 1 else 0)
  }

  /** The bit trick on the pattern mask accepts exactly the flag words with one of the four patterns. */
  lemma OnePattern(flags: u16)
    ensures SingleBit(And(flags, PATTERN_MASK)) <==> Patterns(flags) == 1
  {
    PatternNibble(flags);
    NibbleOnes(flags / 4);
    PatternBits(flags);
    OneBit(And(flags, PATTERN_MASK), Patterns(flags));
  }

  lemma OneBit(m: nat, n: nat)
    requires Ones(m) == n
    ensures SingleBit(m) <==> n == 1
  {
    SingleBitIsOneOne(m);
  }

  lemma PatternBits(flags: u16)
    ensures Patterns(flags) == flags / 4 % 2 + flags / 4 / 2 % 2 + flags / 4 / 4 % 2 + flags / 4 / 8 % 2
  {
    FlagBits(flags);
    assert flags / 4 / 2 == flags / 8 && flags / 4 / 4 == flags / 16 && flags / 4 / 8 == flags / 32;
  }

  lemma PatternNibble(flags: u16)
    ensures Ones(And(flags, PATTERN_MASK)) == Ones(And(flags / 4, 15))
  {
    hide And, Ones;
    AndEven(flags, 30); AndEven(flags / 2, 15);
    var n := And(flags / 4, 15);
    assert And(flags, PATTERN_MASK) == 2 * (2 * n) by { assert flags / 2 / 2 == flags / 4; }
    DoubleOnes(n); DoubleOnes(2 * n);
  }

  lemma DoubleOnes(n: nat)
    ensures Ones(2 * n) == Ones(n)
  {}

  lemma FlagBit(flags: nat, k: nat)
    ensures And(flags, Pow2(k)) != 0 <==> flags / Pow2(k) % 2 == 1
  {
    AndPow2(flags, k);
    MulBounds(Pow2(k), flags / Pow2(k) % 2);
  }

  lemma FlagBits(flags: u16)
    ensures Has(flags, F_NOTIFICATION) <==> flags / 4 % 2 == 1
    ensures Has(flags, F_REQUEST) <==> flags / 8 % 2 == 1
    ensures Has(flags, F_REPLY) <==> flags / 16 % 2 == 1
    ensures Has(flags, F_CANCEL) <==> flags / 32 % 2 == 1
  {
    assert Pow2(2) == 4 && Pow2(3) == 8 && Pow2(4) == 16 && Pow2(5) == 32;
    FlagBit(flags, 2); FlagBit(flags, 3); FlagBit(flags, 4); FlagBit(flags, 5);
  }

  lemma NibbleOnes(y: nat)
    ensures Ones(And(y, 15)) == y % 2 + y / 2 % 2 + y / 4 % 2 + y / 8 % 2
  {
    hide And, Ones;
    LastOne(y);
    OnesStep(y, 7); OnesStep(y / 2, 3); OnesStep(y / 2 / 2, 1); OnesStep(y / 2 / 2 / 2, 0);
    assert y / 2 / 2 == y / 4 && y / 4 / 2 == y / 8;
  }

  lemma LastOne(y: nat)
    ensures Ones(And(y / 2 / 2 / 2 / 2, 0)) == 0
  {
    AndZero(y / 2 / 2 / 2 / 2);
  }

  lemma OnesStep(x: nat, h: nat)
    ensures Ones(And(x, 2 * h + 1)) == x % 2 + Ones(And(x / 2, h))
  {
    AndOdd(x, h);
    var v, a := And(x, 2 * h + 1), And(x / 2, h);
    OnesSplit(v, a, x % 2);
  }

  lemma OnesSplit(v: nat, a: nat, b: nat)
    requires v == 2 * a + b && b < 2
    ensures Ones(v) == b + Ones(a)
  {
    assert v % 2 == b && v / 2 == a;
  }

  lemma OddIsInline(flags: u16)
    ensures Has(flags, F_INLINE) <==> flags % 2 == 1
  {
    AndOdd(flags, 0);
  }

  /** An accepted inline payload lies inside its slot, behind the header: wrapping cannot hide it. */
  lemma PlacementInBounds(f: Frame, slotSize: u32, arenaSize: u64)
    requires f.payloadLen > 0 && Has(f.hdrFlags, F_INLINE)
    ensures CheckPlacement(f, slotSize, arenaSize) == OK <==>
            Validate(f) == OK && HDR_LEN <= f.payloadRef && f.payloadRef + f.payloadLen <= slotSize
  {
    var sum := f.payloadRef + f.payloadLen;
    if sum >= TWO64 { ModUnique(sum, TWO64, 1, sum - TWO64); }
  }

  // ------------------------------------------------------------- bytes

  function Bytes0(f: Frame): seq<byte> {
    LE(4, WIRE_MAGIC) + LE(2, f.hdrFlags) + LE(2, f.wireVersion) + LE(4, f.eventKind)
  }
  function Bytes1(f: Frame): seq<byte> {
    LE(4, f.principalRef) + LE(8, f.correlationId) + LE(8, f.sequence) + LE(8, f.logicalTs)
  }
  function Bytes2(f: Frame): seq<byte> {
    LE(8, f.payloadRef) + LE(4, f.payloadLen) + LE(4, f.srcHandle) + LE(4, f.dstHandle)
  }

  /** The 64 header bytes of `f`. */
  function Bytes(f: Frame): (b: seq<byte>)
    ensures |b| == HDR_LEN
  {
    Bytes0(f) + Bytes1(f) + Bytes2(f) + LE(4, f.generation)
  }

  function Parse(b: seq<byte>): Frame
    requires |b| >= HDR_LEN
  {
    Frame(Get16(b, 4), Get16(b, 6), Get32(b, 8), Get32(b, 12), Get64(b, 16), Get64(b, 24),
          Get64(b, 32), Get64(b, 40), Get32(b, 48), Get32(b, 52), Get32(b, 56), Get32(b, 60))
  }

  function Decode(b: seq<byte>): Decoded {
    if |b| < HDR_LEN then Rejected(ErrShort)
    else if Get32(b, 0) != WIRE_MAGIC then Rejected(ErrMagic)
    else if Validate(Parse(b)) != OK then Rejected(Validate(Parse(b)))
    else Decoded(Parse(b))
  }

  lemma BytesAt(f: Frame, tail: seq<byte>)
    ensures var b := Bytes(f) + tail;
      |Bytes(f)| == HDR_LEN && b[0..4] == LE(4, WIRE_MAGIC) && b[4..6] == LE(2, f.hdrFlags)
      && b[6..8] == LE(2, f.wireVersion) && b[8..12] == LE(4, f.eventKind) && b[12..16] == LE(4, f.principalRef)
      && b[16..24] == LE(8, f.correlationId) && b[24..32] == LE(8, f.sequence) && b[32..40] == LE(8, f.logicalTs)
      && b[40..48] == LE(8, f.payloadRef) && b[48..52] == LE(4, f.payloadLen) && b[52..56] == LE(4, f.srcHandle)
      && b[56..60] == LE(4, f.dstHandle) && b[60..64] == LE(4, f.generation)
  {}

  /** decode(encode(f)) is `f` exactly when `f` is valid; an invalid frame is refused with its own code,
      whatever bytes follow the header. */
  lemma DecodeOfBytes(f: Frame, tail: seq<byte>)
    ensures Decode(Bytes(f) + tail) == if Validate(f) == OK then Decoded(f) else Rejected(Validate(f))
  {
    var b := Bytes(f) + tail;
    BytesAt(f, tail);
    Widths();
    UnLEofLE(4, WIRE_MAGIC);
    UnLEofLE(2, f.hdrFlags); UnLEofLE(2, f.wireVersion); UnLEofLE(4, f.eventKind); UnLEofLE(4, f.principalRef);
    UnLEofLE(8, f.correlationId); UnLEofLE(8, f.sequence); UnLEofLE(8, f.logicalTs); UnLEofLE(8, f.payloadRef);
    UnLEofLE(4, f.payloadLen); UnLEofLE(4, f.srcHandle); UnLEofLE(4, f.dstHandle); UnLEofLE(4, f.generation);
    assert Parse(b) == f;
  }

  /** encode(decode(b)) reproduces the header of every accepted byte string. */
  lemma BytesOfDecode(b: seq<byte>)
    requires Decode(b).Decoded?
    ensures Validate(Decode(b).frame) == OK && Bytes(Decode(b).frame) == b[..HDR_LEN]
  {
    BytesOfParse(b);
  }

  lemma BytesOfParse(b: seq<byte>)
    requires |b| >= HDR_LEN && Get32(b, 0) == WIRE_MAGIC
    ensures Bytes(Parse(b)) == b[..HDR_LEN]
  {
    hide LE, UnLE;
    var f := Parse(b);
    assert Bytes0(f) == b[0..12] by {
      Word(b, 0, 4); Word(b, 4, 6); Word(b, 6, 8); Word(b, 8, 12);
      Join4(b, 0, 4, 6, 8, 12);
    }
    assert Bytes1(f) == b[12..40] by {
      Word(b, 12, 16); Word(b, 16, 24); Word(b, 24, 32); Word(b, 32, 40);
      Join4(b, 12, 16, 24, 32, 40);
    }
    assert Bytes2(f) == b[40..60] by {
      Word(b, 40, 48); Word(b, 48, 52); Word(b, 52, 56); Word(b, 56, 60);
      Join4(b, 40, 48, 52, 56, 60);
    }
    Word(b, 60, 64);
    Join4(b, 0, 12, 40, 60, 64);
  }

  /** `Frame.Encode` into the `len` bytes of `mem` at `at`: it writes the whole header or nothing. */
  method Encode(f: Frame, mem: array<byte>, at: nat, len: nat) returns (n: nat)
    requires at + len <= mem.Length
    modifies mem
    ensures n == if len >= HDR_LEN && Validate(f) == OK then HDR_LEN else 0
    ensures mem[..] == if n == 0 then old(mem[..]) else Splice(old(mem[..]), at, Bytes(f))
  {
    if len < HDR_LEN { return 0; }
    if Validate(f) != OK { return 0; }
    ghost var b := mem[..];
    var zeros: seq<byte> := seq(HDR_LEN, _ => 0);
    Copy(mem, at, zeros);
    ghost var zeroed := mem[..];
    Put4(mem, at, 4, WIRE_MAGIC, 2, f.hdrFlags, 2, f.wireVersion, 4, f.eventKind);
    Put4(mem, at + 12, 4, f.principalRef, 8, f.correlationId, 8, f.sequence, 8, f.logicalTs);
    SpliceAppend(zeroed, at, Bytes0(f), Bytes1(f));
    Put4(mem, at + 40, 8, f.payloadRef, 4, f.payloadLen, 4, f.srcHandle, 4, f.dstHandle);
    SpliceAppend(zeroed, at, Bytes0(f) + Bytes1(f), Bytes2(f));
    Put(mem, at + 60, 4, f.generation);
    SpliceAppend(zeroed, at, Bytes0(f) + Bytes1(f) + Bytes2(f), LE(4, f.generation));
    SpliceOver(b, at, zeros, Bytes(f));
    return HDR_LEN;
  }
}
