/** The layouts of rings, regions and module headers (server-go/bus) in plain offsets and numbers. */
module LayoutRules {
  import opened Words
  import FC = FrameCodec
  import MC = ModuleCodec
  import RM = RingMemory
  import RG = Region

  /** Words are stored low byte first. */
  lemma {:induction false} LowByteFirst(n: nat, v: nat, i: nat)
    requires i < n
    ensures LE(n, v)[i] == v / Pow256(i) % 256
  {
    if i == 0 {
      ModUnique(v, 1, v, 0);
    } else {
      LowByteFirst(n - 1, v / 256, i - 1);
      var p := Pow256(i - 1);
      DivTwice(v, p);
    }
  }

  lemma DivTwice(v: nat, b: nat)
    requires b > 0
    ensures v / 256 / b == v / (256 * b)
  {
    var m, s := v / 256, v % 256;
    var q, r := m / b, m % b;
    var bq := b * q;
    assert m == bq + r;
    assert v == 256 * bq + (256 * r + s);
    assert 256 * b * q == 256 * bq by { Regroup(256, b, q, bq); }
    ModUnique(v, 256 * b, q, 256 * r + s);
  }

  lemma Regroup(a: nat, b: nat, q: nat, bq: nat)
    requires bq == b * q
    ensures a * b * q == a * bq
  {}

  /** A module header: 40 bytes, magic, version 1 and length 40; an invocation (1), which has status 0, or a result (2)
      of a status up to 5; a stage, no flags, a body of at most 16 MiB that is all there; and its fields at their
      places. */
  lemma MessageExactly(b: seq<byte>)
    ensures MC.Decode(b).Decoded? <==>
            && |b| >= 40 && Get32(b, 0) == 0x444f_4d41 && Get16(b, 4) == 1 && Get16(b, 6) == 40
            && ((Get16(b, 8) == 1 && Get16(b, 10) == 0) || (Get16(b, 8) == 2 && Get16(b, 10) <= 5))
            && Get32(b, 12) != 0 && Get32(b, 16) == 0 && Get32(b, 20) <= 16_777_216 && 40 + Get32(b, 20) <= |b|
    ensures MC.Decode(b).Decoded? ==>
              MC.Decode(b).message == MC.Message(Get16(b, 8), Get16(b, 10), Get32(b, 12), Get32(b, 16), Get32(b, 20),
                                                 Get64(b, 24), Get64(b, 32))
  {
    hide UnLE;
  }

  /** A ring header: 192 bytes with its magic; a slot size; a capacity of at least 2 with a single one bit and its mask;
      slots behind the header, all of them there; and counters no further apart than the capacity. */
  lemma RingExactly(b: seq<byte>)
    ensures RM.Accepts(b) <==>
            && |b| >= 192 && Get32(b, 0) == 0x474e_4952 && Get32(b, 4) > 0
            && Get32(b, 8) >= 2 && Ones(Get32(b, 8)) == 1 && Get32(b, 12) == Get32(b, 8) - 1 && Get32(b, 16) == 192
            && |b| >= 192 + Get32(b, 4) * Get32(b, 8)
            && (Get64(b, 64) - Get64(b, 128)) % 0x1_0000_0000_0000_0000 <= Get32(b, 8)
  {
    hide UnLE, SingleBit, Ones;
    if |b| >= 192 { SingleBitIsOneOne(Get32(b, 8)); }
  }

  /** Which bytes are a ring's slots and counters. */
  lemma ViewExactly(b: seq<byte>, slotSize: nat, capacity: nat, i: nat)
    requires |b| == 192 + slotSize * capacity && i < capacity
    ensures 192 + slotSize * i + slotSize <= |b|
    ensures var v := RM.ViewOf(b, slotSize, capacity);
      && v.slots[i] == b[192 + slotSize * i..192 + slotSize * i + slotSize]
      && v.head == Get64(b, 64) && v.tail == Get64(b, 128) && v.slotSize == slotSize && v.capacity == capacity
  {
    hide UnLE;
    RM.SlotInside(slotSize, capacity, i);
  }

  /** A control region: 96 bytes with its magic, specification and layout 1, a slot size, an inline budget within it,
      and an arena. */
  lemma ControlExactly(b: seq<byte>)
    ensures RG.ControlOk(b) <==>
            && |b| >= 96 && Get32(b, 0) == 0x4c54_4342 && Get32(b, 4) == 1 && Get32(b, 8) == 1
            && Get32(b, 16) > 0 && Get32(b, 20) <= Get32(b, 16) && Get64(b, 32) > 0
  {
    hide UnLE;
  }

  /** A queue pair: 96 bytes with its magic, and two rings at different places inside. */
  lemma PairExactly(b: seq<byte>)
    ensures RG.PairOk(b) <==>
            && |b| >= 96 && Get32(b, 0) == 0x5250_4251
            && Get32(b, 24) < |b| && Get32(b, 28) < |b| && Get32(b, 24) != Get32(b, 28)
            && RM.Accepts(b[Get32(b, 24)..]) && RM.Accepts(b[Get32(b, 28)..])
  {
    hide UnLE, RM.Accepts;
  }

  /** Where a queue pair keeps what, and where its rings go: inbound first, at 128. */
  lemma PairPlaces(slotSize: u32, capacity: u32)
    ensures RG.QP_OFF_IN == 24 && RG.QP_OFF_OUT == 28 && RG.QP_OFF_HEARTBEAT == 32 && RG.QP_OFF_LOST == 20
    ensures RG.IN_OFF == 128
    ensures RG.Total(slotSize, capacity)
            == RG.OutOff(slotSize, capacity) + 192 + slotSize * capacity
    ensures var behind := 128 + 192 + slotSize * capacity;
      behind <= RG.OutOff(slotSize, capacity) < behind + 64 && RG.OutOff(slotSize, capacity) % 64 == 0
  {
    RG.PairGeometry(slotSize, capacity);
  }

  /** A fresh ring header, word by word. */
  lemma FreshExactly(b: seq<byte>, slotSize: u32, capacity: u32)
    ensures RG.FreshRing(b, slotSize, capacity) <==>
            && |b| >= 192 && Get32(b, 0) == 0x474e_4952 && Get32(b, 4) == slotSize && Get32(b, 8) == capacity
            && Get32(b, 12) == capacity - 1 && Get32(b, 16) == 192 && Get64(b, 64) == 0 && Get64(b, 128) == 0
  {
    hide UnLE;
  }
}
