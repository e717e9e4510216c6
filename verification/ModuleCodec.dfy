/** The 40-byte AMOD message header that opens every module payload (server-go/bus/module_protocol.go). */
module ModuleCodec {
  import opened Words

  const MAGIC: u32 := 0x444f4d41
  const VERSION: u16 := 1
  const HEADER_LEN: nat := 40
  const MAX_BODY: u32 := 0x100_0000

  const OP_INVOKE: u16 := 1
  const OP_RESULT: u16 := 2

  const STATUS_OK: u16 := 0
  const STATUS_CAPABILITY_ABSENT: u16 := 1
  const STATUS_CANCELLED: u16 := 2
  const STATUS_DEADLINE_EXCEEDED: u16 := 3
  const STATUS_INVALID_REQUEST: u16 := 4
  const STATUS_INTERNAL: u16 := 5

  datatype Message = Message(operation: u16, status: u16, stageId: u32, flags: u32, bodyLen: u32, deadlineNs: u64,
    traceId: u64)

  datatype Decoded = Decoded(message: Message) | Rejected

  predicate Valid(m: Message) {
    && (m.operation == OP_INVOKE || m.operation == OP_RESULT)
    && m.status <= STATUS_INTERNAL
    && (m.operation == OP_INVOKE ==> m.status == STATUS_OK)
    && m.stageId != 0 && m.flags == 0 && m.bodyLen <= MAX_BODY
  }

  predicate DeadlineExpired(deadlineNs: u64, now: u64) { deadlineNs != 0 && now >= deadlineNs }

  function Bytes0(m: Message): seq<byte> { LE(4, MAGIC) + LE(2, VERSION) + LE(2, HEADER_LEN) + LE(2, m.operation) }
  function Bytes1(m: Message): seq<byte> { LE(2, m.status) + LE(4, m.stageId) + LE(4, m.flags) + LE(4, m.bodyLen) }

  /** The 40 header bytes of `m`. */
  function Bytes(m: Message): (b: seq<byte>)
    ensures |b| == HEADER_LEN
  {
    Bytes0(m) + Bytes1(m) + LE(8, m.deadlineNs) + LE(8, m.traceId)
  }

  function Parse(b: seq<byte>): Message
    requires |b| >= HEADER_LEN
  {
    Message(Get16(b, 8), Get16(b, 10), Get32(b, 12), Get32(b, 16), Get32(b, 20), Get64(b, 24), Get64(b, 32))
  }

  function Decode(b: seq<byte>): Decoded {
    if |b| < HEADER_LEN || Get32(b, 0) != MAGIC || Get16(b, 4) != VERSION || Get16(b, 6) != HEADER_LEN then Rejected
    else if !Valid(Parse(b)) || Parse(b).bodyLen > |b| - HEADER_LEN then Rejected
    else Decoded(Parse(b))
  }

  lemma BytesAt(m: Message, tail: seq<byte>)
    ensures var b := Bytes(m) + tail;
      b[0..4] == LE(4, MAGIC) && b[4..6] == LE(2, VERSION) && b[6..8] == LE(2, HEADER_LEN)
      && b[8..10] == LE(2, m.operation) && b[10..12] == LE(2, m.status) && b[12..16] == LE(4, m.stageId)
      && b[16..20] == LE(4, m.flags) && b[20..24] == LE(4, m.bodyLen) && b[24..32] == LE(8, m.deadlineNs)
      && b[32..40] == LE(8, m.traceId)
  {}

  /** A message survives encoding exactly when it is valid and the payload holds the body it announces. */
  lemma DecodeOfBytes(m: Message, body: seq<byte>)
    ensures Decode(Bytes(m) + body) == if Valid(m) && m.bodyLen <= |body| then Decoded(m) else Rejected
  {
    var b := Bytes(m) + body;
    BytesAt(m, body);
    Widths();
    UnLEofLE(4, MAGIC); UnLEofLE(2, VERSION); UnLEofLE(2, HEADER_LEN);
    UnLEofLE(2, m.operation); UnLEofLE(2, m.status); UnLEofLE(4, m.stageId); UnLEofLE(4, m.flags);
    UnLEofLE(4, m.bodyLen); UnLEofLE(8, m.deadlineNs); UnLEofLE(8, m.traceId);
    assert Parse(b) == m;
  }

  /** The header of every accepted payload is the encoding of what was decoded from it. */
  lemma BytesOfDecode(b: seq<byte>)
    requires Decode(b).Decoded?
    ensures Valid(Decode(b).message) && Bytes(Decode(b).message) == b[..HEADER_LEN]
            && HEADER_LEN + Decode(b).message.bodyLen <= |b|
  {
    BytesOfParse(b);
  }

  lemma BytesOfParse(b: seq<byte>)
    requires |b| >= HEADER_LEN && Get32(b, 0) == MAGIC && Get16(b, 4) == VERSION && Get16(b, 6) == HEADER_LEN
    ensures Bytes(Parse(b)) == b[..HEADER_LEN]
  {
    hide LE, UnLE;
    var m := Parse(b);
    assert Bytes0(m) == b[0..10] by {
      Word(b, 0, 4); Word(b, 4, 6); Word(b, 6, 8); Word(b, 8, 10);
      Join4(b, 0, 4, 6, 8, 10);
    }
    assert Bytes1(m) == b[10..24] by {
      Word(b, 10, 12); Word(b, 12, 16); Word(b, 16, 20); Word(b, 20, 24);
      Join4(b, 10, 12, 16, 20, 24);
    }
    Word(b, 24, 32); Word(b, 32, 40);
    Join4(b, 0, 10, 24, 32, 40);
  }

  /** `ModuleMessage.Encode`: the header at the front of `out`, or an error that leaves `out` alone. */
  method Encode(m: Message, out: array<byte>) returns (ok: bool)
    modifies out
    ensures ok <==> out.Length >= HEADER_LEN && Valid(m)
    ensures out[..] == if ok then Splice(old(out[..]), 0, Bytes(m)) else old(out[..])
  {
    if out.Length < HEADER_LEN || !Valid(m) { return false; }
    ghost var b := out[..];
    var zeros: seq<byte> := seq(HEADER_LEN, _ => 0);
    Copy(out, 0, zeros);
    ghost var zeroed := out[..];
    Put4(out, 0, 4, MAGIC, 2, VERSION, 2, HEADER_LEN, 2, m.operation);
    Put4(out, 10, 2, m.status, 4, m.stageId, 4, m.flags, 4, m.bodyLen);
    SpliceAppend(zeroed, 0, Bytes0(m), Bytes1(m));
    Put(out, 24, 8, m.deadlineNs);
    SpliceAppend(zeroed, 0, Bytes0(m) + Bytes1(m), LE(8, m.deadlineNs));
    Put(out, 32, 8, m.traceId);
    SpliceAppend(zeroed, 0, Bytes0(m) + Bytes1(m) + LE(8, m.deadlineNs), LE(8, m.traceId));
    SpliceOver(b, 0, zeros, Bytes(m));
    return true;
  }
}
