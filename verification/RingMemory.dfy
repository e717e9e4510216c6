/** A ring as a view onto mapped bytes (server-go/bus/ring.go). The class keeps no copy of the data:
    every call reads or writes the mapping, and is specified by its effect on `RingSteps.Shared`. */
module RingMemory {
  import opened Words
  import RS = RingSteps
  import RC = RingCalls

  const RING_MAGIC: u32 := 0x474e4952
  const OFF_SLOT: nat := 4
  const OFF_CAP: nat := 8
  const OFF_MASK: nat := 12
  const OFF_SLOTS: nat := 16
  const OFF_HEAD: nat := 64
  const OFF_TAIL: nat := 128
  const HDR_BYTES: nat := 192

  /** The bytes a ring occupies. */
  function Need(slotSize: nat, capacity: nat): nat { HDR_BYTES + slotSize * capacity }

  function SlotAt(slotSize: nat, i: nat): nat { HDR_BYTES + slotSize * i }

  /** Slots follow one another without overlap. */
  lemma SlotsApart(slotSize: nat, i: nat, j: nat)
    requires i < j
    ensures SlotAt(slotSize, i) + slotSize <= SlotAt(slotSize, j)
  {
    MulStep(slotSize, i, j);
  }

  lemma MulStep(m: nat, i: nat, j: nat)
    requires i < j
    ensures m * i + m <= m * j
  {
    Distribute(m, i, j - i);
    if m > 0 { MulBounds(m, j - i); }
  }

  lemma SlotInside(slotSize: nat, capacity: nat, i: nat)
    requires i < capacity
    ensures HDR_BYTES <= SlotAt(slotSize, i) && SlotAt(slotSize, i) + slotSize <= Need(slotSize, capacity)
  {
    MulStep(slotSize, i, capacity);
  }

  function SlotBytes(b: seq<byte>, slotSize: nat, capacity: nat, i: nat): (s: seq<byte>)
    requires |b| == Need(slotSize, capacity) && i < capacity
    ensures |s| == slotSize
  {
    SlotInside(slotSize, capacity, i);
    b[SlotAt(slotSize, i)..SlotAt(slotSize, i) + slotSize]
  }

  /** What a ring's bytes mean. */
  function ViewOf(b: seq<byte>, slotSize: nat, capacity: nat): (s: RS.Shared)
    requires |b| == Need(slotSize, capacity)
    ensures s.slotSize == slotSize && s.capacity == capacity
    ensures |s.slots| == capacity && forall i :: 0 <= i < capacity ==> s.slots[i] == SlotBytes(b, slotSize, capacity, i)
  {
    RS.Shared(slotSize, capacity, seq(capacity, i requires 0 <= i < capacity => SlotBytes(b, slotSize, capacity, i)),
              Get64(b, OFF_HEAD), Get64(b, OFF_TAIL))
  }

  /** Storing a counter changes that counter only. */
  lemma ViewOfStoreHead(b: seq<byte>, slotSize: nat, capacity: nat, v: u64)
    requires |b| == Need(slotSize, capacity)
    ensures ViewOf(Splice(b, OFF_HEAD, LE(8, v)), slotSize, capacity) == ViewOf(b, slotSize, capacity).(head := v)
  {
    StoreLoad(b, OFF_HEAD, v, OFF_TAIL);
    CounterStore(b, slotSize, capacity, v, OFF_HEAD);
  }

  lemma ViewOfStoreTail(b: seq<byte>, slotSize: nat, capacity: nat, v: u64)
    requires |b| == Need(slotSize, capacity)
    ensures ViewOf(Splice(b, OFF_TAIL, LE(8, v)), slotSize, capacity) == ViewOf(b, slotSize, capacity).(tail := v)
  {
    StoreLoad(b, OFF_TAIL, v, OFF_HEAD);
    CounterStore(b, slotSize, capacity, v, OFF_TAIL);
  }

  lemma CounterStore(b: seq<byte>, slotSize: nat, capacity: nat, v: u64, at: nat)
    requires |b| == Need(slotSize, capacity) && at + 8 <= HDR_BYTES
    ensures ViewOf(Splice(b, at, LE(8, v)), slotSize, capacity).slots == ViewOf(b, slotSize, capacity).slots
  {
    var b' := Splice(b, at, LE(8, v));
    forall i | 0 <= i < capacity
      ensures SlotBytes(b', slotSize, capacity, i) == SlotBytes(b, slotSize, capacity, i)
    {
      SlotInside(slotSize, capacity, i);
      SpliceRead(b, at, LE(8, v), SlotAt(slotSize, i), SlotAt(slotSize, i) + slotSize);
    }
  }

  lemma OtherSlots(b: seq<byte>, slotSize: nat, capacity: nat, slot: nat, offset: nat, s: seq<byte>, i: nat)
    requires |b| == Need(slotSize, capacity) && slot < capacity && offset + |s| <= slotSize
    requires i < capacity && i != slot
    ensures SlotAt(slotSize, slot) + offset + |s| <= |b|
    ensures SlotBytes(Splice(b, SlotAt(slotSize, slot) + offset, s), slotSize, capacity, i)
            == SlotBytes(b, slotSize, capacity, i)
  {
    SlotInside(slotSize, capacity, slot);
    SlotInside(slotSize, capacity, i);
    if i < slot { SlotsApart(slotSize, i, slot); } else { SlotsApart(slotSize, slot, i); }
    SpliceRead(b, SlotAt(slotSize, slot) + offset, s, SlotAt(slotSize, i), SlotAt(slotSize, i) + slotSize);
  }

  lemma SpliceSlice(b: seq<byte>, lo: nat, hi: nat, offset: nat, s: seq<byte>)
    requires lo + offset + |s| <= hi <= |b|
    ensures Splice(b, lo + offset, s)[lo..hi] == Splice(b[lo..hi], offset, s)
    ensures Splice(b, lo + offset, s)[..lo] == b[..lo] && Splice(b, lo + offset, s)[hi..] == b[hi..]
  {}

  /** Writing into one slot changes that slot only. */
  lemma ViewOfWrite(b: seq<byte>, slotSize: nat, capacity: nat, slot: nat, offset: nat, s: seq<byte>)
    requires |b| == Need(slotSize, capacity) && slot < capacity && offset + |s| <= slotSize
    ensures SlotAt(slotSize, slot) + offset + |s| <= |b|
    ensures var v := ViewOf(b, slotSize, capacity);
      ViewOf(Splice(b, SlotAt(slotSize, slot) + offset, s), slotSize, capacity)
      == v.(slots := v.slots[slot := Splice(v.slots[slot], offset, s)])
  {
    SlotInside(slotSize, capacity, slot);
    var lo := SlotAt(slotSize, slot);
    SpliceRead(b, lo + offset, s, OFF_HEAD, OFF_HEAD + 8);
    SpliceRead(b, lo + offset, s, OFF_TAIL, OFF_TAIL + 8);
    forall i | 0 <= i < capacity && i != slot
      ensures SlotBytes(Splice(b, lo + offset, s), slotSize, capacity, i) == SlotBytes(b, slotSize, capacity, i)
    {
      OtherSlots(b, slotSize, capacity, slot, offset, s, i);
    }
    SpliceSlice(b, lo, lo + slotSize, offset, s);
  }

  /** `AttachRing` accepts these bytes. */
  predicate Accepts(b: seq<byte>) {
    && |b| >= HDR_BYTES && Get32(b, 0) == RING_MAGIC
    && Get32(b, OFF_CAP) >= 2 && SingleBit(Get32(b, OFF_CAP)) && Get32(b, OFF_SLOT) != 0
    && Get32(b, OFF_MASK) == Get32(b, OFF_CAP) - 1 && Get32(b, OFF_SLOTS) == HDR_BYTES
    && |b| >= Need(Get32(b, OFF_SLOT), Get32(b, OFF_CAP))
    && Sub64(Get64(b, OFF_HEAD), Get64(b, OFF_TAIL)) <= Get32(b, OFF_CAP)
  }

  lemma AcceptedIsAttachable(b: seq<byte>)
    requires Accepts(b)
    ensures RC.Attachable(
              ViewOf(b[..Need(Get32(b, OFF_SLOT), Get32(b, OFF_CAP))], Get32(b, OFF_SLOT), Get32(b, OFF_CAP)))
  {
    hide And, SingleBit, UnLE;
    var n := Need(Get32(b, OFF_SLOT), Get32(b, OFF_CAP));
    PrefixCounter(b, n, OFF_HEAD);
    PrefixCounter(b, n, OFF_TAIL);
  }

  lemma PrefixCounter(b: seq<byte>, n: nat, at: nat)
    requires at + 8 <= n <= |b|
    ensures Get64(b[..n], at) == Get64(b, at)
  {
    SliceSlice(b, 0, n, at, at + 8);
  }

  lemma IndexOk(s: RS.Shared, counter: u64)
    requires RS.Geometry(s)
    ensures RS.Index(s.capacity, counter) < |s.slots|
  {
    ModUnique(counter, TWO64, 0, counter);
    RS.IndexIsMod(s.capacity, counter);
  }

  class Ring {
    const mem: array<byte>
    const at: nat
    const slotSize: u32
    const capacity: u32

    constructor (mem: array<byte>, at: nat, slotSize: u32, capacity: u32)
      ensures this.mem == mem && this.at == at && this.slotSize == slotSize && this.capacity == capacity
    {
      this.mem, this.at, this.slotSize, this.capacity := mem, at, slotSize, capacity;
    }

    predicate Fits() { at + Need(slotSize, capacity) <= mem.Length }

    /** The ring's bytes. */
    function Raw(): (b: seq<byte>)
      requires Fits()
      reads mem
      ensures |b| == Need(slotSize, capacity)
    {
      mem[..][at..End()]
    }

    function End(): nat { at + Need(slotSize, capacity) }

    function View(): (s: RS.Shared)
      requires Fits()
      reads mem
      ensures s.slotSize == slotSize && s.capacity == capacity == |s.slots|
    {
      ViewOf(Raw(), slotSize, capacity)
    }

    ghost predicate Valid()
      reads mem
    {
      Fits() && RC.Attachable(View())
    }

    lemma IndexInside(counter: u64)
      requires Valid()
      ensures RS.Index(capacity, counter) < capacity
    {
      IndexOk(View(), counter);
    }

    /** The mapped range of the slot a counter selects. */
    method Slot(index: u64) returns (off: nat)
      requires Valid()
      ensures off == at + SlotAt(slotSize, RS.Index(capacity, index)) && off + slotSize <= at + Need(slotSize, capacity)
    {
      IndexInside(index);
      SlotInside(slotSize, capacity, RS.Index(capacity, index));
      off := at + HDR_BYTES + slotSize * And(index, capacity - 1);
    }

    method LoadHead() returns (v: u64)
      requires Valid()
      ensures v == View().head
    {
      SliceSlice(mem[..], at, End(), OFF_HEAD, OFF_HEAD + 8);
      v := Get64(mem[..], at + OFF_HEAD);
    }

    method LoadTail() returns (v: u64)
      requires Valid()
      ensures v == View().tail
    {
      SliceSlice(mem[..], at, End(), OFF_TAIL, OFF_TAIL + 8);
      v := Get64(mem[..], at + OFF_TAIL);
    }

    /** The bytes before and after the ring. */
    function Outside(): (seq<byte>, seq<byte>)
      requires Fits()
      reads mem
    {
      (mem[..][..at], mem[..][End()..])
    }

    /** A writable slot, or -1 exactly when the queue is full. */
    method ProduceBegin() returns (off: int)
      requires Valid()
      ensures off == -1 <==> |RC.QueueOf(View())| == capacity
      ensures off != -1 ==> off == at + SlotAt(slotSize, RS.Index(capacity, View().head))
                            && off + slotSize <= at + Need(slotSize, capacity)
    {
      hide ViewOf, And, LE, UnLE;
      var head := LoadHead();
      var tail := LoadTail();
      if Sub64(head, tail) >= capacity {
        off := -1;
      } else {
        off := Slot(head);
      }
    }

    method ProduceCommit()
      requires Valid() && |RC.QueueOf(View())| < capacity
      modifies mem
      ensures Valid() && View() == old(View()).(head := (old(View()).head + 1) % TWO64)
      ensures RS.Index(capacity, old(View()).head) < |View().slots|
      ensures RC.QueueOf(View()) == old(RC.QueueOf(View())) + [View().slots[RS.Index(capacity, old(View()).head)]]
      ensures Outside() == old(Outside())
    {
      hide ViewOf, And, LE, UnLE, RC.SlotsFrom;
      ghost var before := View();
      var head := LoadHead();
      IndexInside(head);
      SpliceSlice(mem[..], at, End(), OFF_HEAD, LE(8, (head + 1) % TWO64));
      ViewOfStoreHead(Raw(), slotSize, capacity, (head + 1) % TWO64);
      Put(mem, at + OFF_HEAD, 8, (head + 1) % TWO64);
      var i := RS.Index(capacity, before.head);
      assert before.slots[i := before.slots[i]] == before.slots;
      RC.PublishEnqueues(before, before.slots[i]);
    }

    /** The oldest unread slot, or -1 exactly when the queue is empty. */
    method ConsumeBegin() returns (off: int)
      requires Valid()
      ensures off == -1 <==> RC.QueueOf(View()) == []
      ensures off != -1 ==> off == at + SlotAt(slotSize, RS.Index(capacity, View().tail))
                            && off + slotSize <= at + Need(slotSize, capacity)
                            && RC.QueueOf(View()) != [] && mem[off..off + slotSize] == RC.QueueOf(View())[0]
    {
      hide And, LE, UnLE;
      var tail := LoadTail();
      var head := LoadHead();
      RC.EmptyGap(head, tail);
      if head == tail {
        off := -1;
      } else {
        off := Slot(tail);
        RC.ReleaseDrops(View());
        IndexInside(tail);
        SlotInside(slotSize, capacity, RS.Index(capacity, tail));
        SliceSlice(mem[..], at, End(), off - at, off - at + slotSize);
        assert mem[off..off + slotSize] == mem[..][off..off + slotSize];
      }
    }

    method ConsumeCommit()
      requires Valid() && RC.QueueOf(View()) != []
      modifies mem
      ensures Valid() && View() == RC.Release(old(View()))
      ensures RC.QueueOf(View()) == old(RC.QueueOf(View()))[1..]
      ensures Outside() == old(Outside())
    {
      hide ViewOf, And, LE, UnLE, RC.SlotsFrom;
      var tail := LoadTail();
      RC.EmptyGap(View().head, tail);
      SpliceSlice(mem[..], at, End(), OFF_TAIL, LE(8, (tail + 1) % TWO64));
      ViewOfStoreTail(Raw(), slotSize, capacity, (tail + 1) % TWO64);
      Put(mem, at + OFF_TAIL, 8, (tail + 1) % TWO64);
      RC.ReleaseDrops(old(View()));
    }
  }

  /** `AttachRing(mem[at:at+len])`: a ring exactly when the header is accepted, and then a valid one. */
  method AttachRing(mem: array<byte>, at: nat, len: nat) returns (r: Ring?)
    requires at + len <= mem.Length
    ensures r != null <==> Accepts(mem[..][at..at + len])
    ensures r != null ==> r.mem == mem && r.at == at && Need(r.slotSize, r.capacity) <= len && r.Valid()
                          && r.slotSize == Get32(mem[..][at..at + len], OFF_SLOT)
                             && r.capacity == Get32(mem[..][at..at + len], OFF_CAP)
  {
    var b := mem[..][at..at + len];
    if len < HDR_BYTES { return null; }
    if Get32(b, 0) != RING_MAGIC { return null; }
    var slot: u32, capv: u32 := Get32(b, OFF_SLOT), Get32(b, OFF_CAP);
    if capv < 2 || And(capv, capv - 1) != 0 || slot == 0 || Get32(b, OFF_MASK) != capv - 1
      || Get32(b, OFF_SLOTS) != HDR_BYTES {
      return null;
    }
    if len < HDR_BYTES + slot * capv { return null; }
    if Sub64(Get64(b, OFF_HEAD), Get64(b, OFF_TAIL)) > capv { return null; }
    assert Accepts(b);
    AcceptedIsAttachable(b);
    r := new Ring(mem, at, slot, capv);
    assert r.Raw() == b[..Need(slot, capv)] by { SliceSlice(mem[..], at, at + len, 0, Need(slot, capv)); }
  }
}
