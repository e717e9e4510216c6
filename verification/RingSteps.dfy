/** The single-producer/single-consumer ring (server-go/bus/ring.go) under every interleaving of
    its atomic steps. Each atomic load, each atomic store and each byte written to or read from a slot
    is one step; the 64-bit counters wrap. `published` and `base` record the history: the unbounded
    counters are `Head` and `Tail`, and `head`/`tail` are their values modulo 2^64. */
module RingSteps {
  import opened Words

  /** What both sides see: the slots and the two counters. */
  datatype Shared = Shared(slotSize: nat, capacity: nat, slots: seq<seq<byte>>, head: u64, tail: u64)

  /** The geometry `AttachRing` checks. */
  ghost predicate Geometry(s: Shared) {
    && 2 <= s.capacity < TWO32 && SingleBit(s.capacity)
    && 0 < s.slotSize < TWO32
    && |s.slots| == s.capacity
    && (forall i :: 0 <= i < |s.slots| ==> |s.slots[i]| == s.slotSize)
  }

  /** `index & mask`. */
  function Index(capacity: nat, counter: u64): nat
    requires capacity > 0
  {
    And(counter, capacity - 1)
  }

  lemma IndexIsMod(capacity: nat, counter: nat)
    requires SingleBit(capacity) && capacity < TWO32
    ensures Index(capacity, counter % TWO64) == counter % capacity < capacity
  {
    WrappedIndex(counter, capacity);
  }

  // The program counters of the two endpoints, with the local copies they have loaded.
  datatype Producer = ProducerIdle | LoadedHead(h: u64) | Producing(h: u64) | Committing(h: u64)
  datatype Consumer = ConsumerIdle | LoadedTail(t: u64) | Consuming(t: u64) | Releasing(t: u64)

  /** One byte the consumer read while it held its `item`-th slot. */
  datatype Read = Read(item: nat, offset: nat, value: byte)

  datatype Ring = Ring(
    shared: Shared, producer: Producer, consumer: Consumer,
    base: nat, published: seq<seq<byte>>, taken: nat, seen: seq<Read>)
  {
    function Head(): nat { base + |published| }
    function Tail(): nat { base + taken }
  }

  datatype Action =
    | ProduceLoadHead | ProduceLoadTail | WriteByte(offset: nat, value: byte) | ProduceAbandon
    | CommitLoadHead | CommitStoreHead
    | ConsumeLoadTail | ConsumeLoadHead | ReadByte(at: nat) | ConsumeAgain
    | ReleaseLoadTail | ReleaseStoreTail

  function SetByte(s: Shared, slot: nat, offset: nat, value: byte): Shared
    requires slot < |s.slots| && offset < |s.slots[slot]|
  {
    var bytes: seq<byte> := s.slots[slot][offset := value];
    s.(slots := s.slots[slot := bytes])
  }

  /** One atomic step; an action whose endpoint is elsewhere in its code does nothing. */
  function Step(r: Ring, a: Action): (r': Ring)
    requires r.shared.capacity > 0
    ensures r'.shared.capacity == r.shared.capacity && r'.shared.slotSize == r.shared.slotSize
  {
    var s := r.shared;
    match a
    case ProduceLoadHead =>
      if r.producer.ProducerIdle? then r.(producer := LoadedHead(s.head)) else r
    case ProduceLoadTail =>
      if !r.producer.LoadedHead? then r
      else if Sub64(r.producer.h, s.tail) >= s.capacity then r.(producer := ProducerIdle)
      else r.(producer := Producing(r.producer.h))
    case WriteByte(offset, value) =>
      if r.producer.Producing? && Index(s.capacity, r.producer.h) < |s.slots|
         && offset < |s.slots[Index(s.capacity, r.producer.h)]|
      then r.(shared := SetByte(s, Index(s.capacity, r.producer.h), offset, value))
      else r
    case ProduceAbandon =>
      if r.producer.Producing? then r.(producer := ProducerIdle) else r
    case CommitLoadHead =>
      if r.producer.Producing? then r.(producer := Committing(s.head)) else r
    case CommitStoreHead =>
      if r.producer.Committing? && Index(s.capacity, r.producer.h) < |s.slots|
      then r.(shared := s.(head := (r.producer.h + 1) % TWO64), producer := ProducerIdle,
              published := r.published + [s.slots[Index(s.capacity, r.producer.h)]])
      else r
    case ConsumeLoadTail =>
      if r.consumer.ConsumerIdle? then r.(consumer := LoadedTail(s.tail)) else r
    case ConsumeLoadHead =>
      if !r.consumer.LoadedTail? then r
      else if s.head == r.consumer.t then r.(consumer := ConsumerIdle)
      else r.(consumer := Consuming(r.consumer.t))
    case ReadByte(at) =>
      if r.consumer.Consuming? && Index(s.capacity, r.consumer.t) < |s.slots|
         && at < |s.slots[Index(s.capacity, r.consumer.t)]|
      then r.(seen := r.seen + [Read(r.taken, at, s.slots[Index(s.capacity, r.consumer.t)][at])])
      else r
    case ConsumeAgain =>
      if r.consumer.Consuming? then r.(consumer := ConsumerIdle) else r
    case ReleaseLoadTail =>
      if r.consumer.Consuming? then r.(consumer := Releasing(s.tail)) else r
    case ReleaseStoreTail =>
      if r.consumer.Releasing?
      then r.(shared := s.(tail := (r.consumer.t + 1) % TWO64), consumer := ConsumerIdle, taken := r.taken + 1)
      else r
  }

  function Run(r: Ring, actions: seq<Action>): (r': Ring)
    requires r.shared.capacity > 0
    ensures r'.shared.capacity == r.shared.capacity && r'.base == r.base
    decreases |actions|
  {
    if actions == [] then r else Run(Step(r, actions[0]), actions[1..])
  }

  /** A freshly attached ring: any counters `AttachRing` accepts, with the slots between them published. */
  ghost predicate Attached(r: Ring) {
    && Geometry(r.shared)
    && Sub64(r.shared.head, r.shared.tail) <= r.shared.capacity
    && r.producer.ProducerIdle? && r.consumer.ConsumerIdle?
    && r.base == r.shared.tail && r.taken == 0 && r.seen == []
    && |r.published| == Sub64(r.shared.head, r.shared.tail)
    && forall i :: 0 <= i < |r.published| ==> r.published[i] == r.shared.slots[(r.base + i) % r.shared.capacity]
  }

  ghost predicate ProducerOk(r: Ring) {
    match r.producer
    case ProducerIdle => true
    case LoadedHead(h) => h == r.shared.head
    case Producing(h) => h == r.shared.head && |r.published| < r.taken + r.shared.capacity
    case Committing(h) => h == r.shared.head && |r.published| < r.taken + r.shared.capacity
  }

  ghost predicate ConsumerOk(r: Ring) {
    match r.consumer
    case ConsumerIdle => true
    case LoadedTail(t) => t == r.shared.tail
    case Consuming(t) => t == r.shared.tail && r.taken < |r.published|
    case Releasing(t) => t == r.shared.tail && r.taken < |r.published|
  }

  /** The slot of the counter `base + i`. */
  function SlotOf(s: Shared, base: nat, i: nat): nat
    requires s.capacity > 0
  {
    (base + i) % s.capacity
  }

  /** Every published, unreleased item still sits untouched in its slot. */
  ghost predicate SlotsOk(s: Shared, base: nat, published: seq<seq<byte>>, taken: nat) {
    && Geometry(s)
    && (forall i :: taken <= i < |published| ==>
          SlotOf(s, base, i) < |s.slots| && s.slots[SlotOf(s, base, i)] == published[i])
    && (forall i :: 0 <= i < |published| ==> |published[i]| == s.slotSize)
  }

  /** Every byte the consumer ever read is the published one, and items are read in order. */
  ghost predicate SeenOk(seen: seq<Read>, published: seq<seq<byte>>, taken: nat) {
    && (forall k :: 0 <= k < |seen| ==>
          var d := seen[k];
          d.item <= taken && d.item < |published| && d.offset < |published[d.item]|
          && d.value == published[d.item][d.offset])
    && (forall j, k :: 0 <= j < k < |seen| ==> seen[j].item <= seen[k].item)
  }

  ghost predicate Inv(r: Ring) {
    && SlotsOk(r.shared, r.base, r.published, r.taken)
    && r.taken <= |r.published| <= r.taken + r.shared.capacity
    && r.shared.head == r.Head() % TWO64 && r.shared.tail == r.Tail() % TWO64
    && ProducerOk(r) && ConsumerOk(r) && SeenOk(r.seen, r.published, r.taken)
  }

  lemma AttachedInv(r: Ring)
    requires Attached(r)
    ensures Inv(r)
  {
    var n := Sub64(r.shared.head, r.shared.tail);
    ModUnique(r.base, TWO64, 0, r.base);
    var d := r.shared.head - r.shared.tail;
    if d >= 0 {
      ModUnique(d, TWO64, 0, d);
      ModUnique(r.base + n, TWO64, 0, r.shared.head);
    } else {
      ModUnique(d, TWO64, -1, d + TWO64);
      ModUnique(r.base + n, TWO64, 1, r.shared.head);
    }
  }

  lemma NextCounter(n: nat)
    ensures (n % TWO64 + 1) % TWO64 == (n + 1) % TWO64
  {
    var q, m := n / TWO64, n % TWO64;
    if m + 1 == TWO64 {
      ModUnique(m + 1, TWO64, 1, 0);
      ModUnique(n + 1, TWO64, q + 1, 0);
    } else {
      ModUnique(m + 1, TWO64, 0, m + 1);
      ModUnique(n + 1, TWO64, q, m + 1);
    }
  }

  /** The slot the producer holds is none of the published, unreleased ones. */
  lemma ProducerSlotIsFree(r: Ring, i: nat)
    requires Inv(r) && (r.producer.Producing? || r.producer.Committing?)
    requires r.taken <= i < |r.published|
    ensures Index(r.shared.capacity, r.producer.h) == r.Head() % r.shared.capacity < |r.shared.slots|
    ensures Index(r.shared.capacity, r.producer.h) != SlotOf(r.shared, r.base, i)
  {
    IndexIsMod(r.shared.capacity, r.Head());
    DistinctSlots(r.base + i, r.Head(), r.shared.capacity);
  }

  lemma WriteInv(r: Ring, offset: nat, value: byte)
    requires Inv(r)
    ensures Inv(Step(r, WriteByte(offset, value)))
  {
    hide SlotsOk, SeenOk, And, SetByte;
    if r.producer.Producing? { WriteKeepsSlots(r, offset, value); }
  }

  lemma WriteKeepsSlots(r: Ring, offset: nat, value: byte)
    requires Inv(r) && r.producer.Producing?
    ensures var slot := Index(r.shared.capacity, r.producer.h);
      slot < |r.shared.slots| && offset < |r.shared.slots[slot]| ==>
        var s' := SetByte(r.shared, slot, offset, value);
        SlotsOk(s', r.base, r.published, r.taken) && s' == r.shared.(slots := s'.slots)
  {
    hide SeenOk, And, SingleBit, ProducerOk, ConsumerOk;
    forall i | r.taken <= i < |r.published|
      ensures Index(r.shared.capacity, r.producer.h) != SlotOf(r.shared, r.base, i)
    {
      ProducerSlotIsFree(r, i);
    }
  }

  lemma PublishInv(r: Ring)
    requires Inv(r)
    ensures Inv(Step(r, CommitStoreHead))
  {
    hide SlotsOk, SeenOk, And;
    NextCounter(r.Head());
    if r.producer.Committing? {
      PublishKeepsSlots(r);
      SeenLonger(r.seen, r.published, r.shared.slots[Index(r.shared.capacity, r.producer.h)], r.taken);
    }
  }

  lemma PublishKeepsSlots(r: Ring)
    requires Inv(r) && r.producer.Committing?
    ensures var slot := Index(r.shared.capacity, r.producer.h);
      slot < |r.shared.slots|
      && SlotsOk(r.shared.(head := (r.producer.h + 1) % TWO64), r.base, r.published + [r.shared.slots[slot]], r.taken)
  {
    hide SeenOk, And, SingleBit, ConsumerOk;
    IndexIsMod(r.shared.capacity, r.Head());
    assert SlotOf(r.shared, r.base, |r.published|) == r.Head() % r.shared.capacity;
  }

  lemma SeenLonger(seen: seq<Read>, published: seq<seq<byte>>, slot: seq<byte>, taken: nat)
    requires SeenOk(seen, published, taken)
    ensures SeenOk(seen, published + [slot], taken)
  {}

  lemma ReleaseInv(r: Ring)
    requires Inv(r)
    ensures Inv(Step(r, ReleaseStoreTail))
  {
    NextCounter(r.Tail());
  }

  lemma ReadInv(r: Ring, at: nat)
    requires Inv(r)
    ensures Inv(Step(r, ReadByte(at)))
  {
    hide SlotsOk, SeenOk, And;
    if r.consumer.Consuming? {
      HeldSlot(r);
      if at < |r.published[r.taken]| { SeenOneMore(r.seen, r.published, r.taken, at); }
    }
  }

  lemma HeldSlot(r: Ring)
    requires Inv(r) && r.consumer.Consuming?
    ensures var slot := Index(r.shared.capacity, r.consumer.t);
      slot < |r.shared.slots| && r.taken < |r.published| && r.shared.slots[slot] == r.published[r.taken]
  {
    hide SeenOk, And, SingleBit, ProducerOk;
    IndexIsMod(r.shared.capacity, r.Tail());
    assert SlotOf(r.shared, r.base, r.taken) == Index(r.shared.capacity, r.consumer.t);
  }

  lemma SeenOneMore(seen: seq<Read>, published: seq<seq<byte>>, taken: nat, at: nat)
    requires SeenOk(seen, published, taken) && taken < |published| && at < |published[taken]|
    ensures SeenOk(seen + [Read(taken, at, published[taken][at])], published, taken)
  {}

  lemma ProducerLoadInv(r: Ring, a: Action)
    requires Inv(r)
    requires a.ProduceLoadHead? || a.ProduceLoadTail? || a.ProduceAbandon? || a.CommitLoadHead?
    ensures Inv(Step(r, a))
  {
    hide And, SingleBit, SeenOk;
    GapOfWrapped(r.Head(), r.Tail());
  }

  lemma ConsumerLoadInv(r: Ring, a: Action)
    requires Inv(r)
    requires a.ConsumeLoadTail? || a.ConsumeLoadHead? || a.ConsumeAgain? || a.ReleaseLoadTail?
    ensures Inv(Step(r, a))
  {
    hide And, SingleBit, SeenOk;
  }

  lemma StepInv(r: Ring, a: Action)
    requires Inv(r)
    ensures Inv(Step(r, a))
  {
    match a
    case WriteByte(offset, value) => WriteInv(r, offset, value);
    case CommitStoreHead => PublishInv(r);
    case ReleaseStoreTail => ReleaseInv(r);
    case ReadByte(at) => ReadInv(r, at);
    case ProduceLoadHead | ProduceLoadTail | ProduceAbandon | CommitLoadHead => ProducerLoadInv(r, a);
    case _ => ConsumerLoadInv(r, a);
  }

  /** The invariant holds after every run, from every attachable ring. */
  lemma {:induction false} RunInv(r: Ring, actions: seq<Action>)
    requires Inv(r)
    ensures Inv(Run(r, actions))
    decreases |actions|
  {
    if actions != [] {
      StepInv(r, actions[0]);
      RunInv(Step(r, actions[0]), actions[1..]);
    }
  }

  // ------------------------------------------------------- the FIFO it refines

  /** The abstract bounded queue. */
  function Queue(r: Ring): seq<seq<byte>>
    requires r.taken <= |r.published|
  {
    r.published[r.taken..]
  }

  /** A store of the head is an enqueue of the held slot's bytes into a queue with room. */
  lemma CommitEnqueues(r: Ring)
    requires Inv(r) && r.producer.Committing?
    ensures |Queue(r)| < r.shared.capacity && r.Head() % r.shared.capacity < |r.shared.slots|
    ensures var r' := Step(r, CommitStoreHead);
      r'.taken <= |r'.published| && Queue(r') == Queue(r) + [r.shared.slots[r.Head() % r.shared.capacity]]
  {
    IndexIsMod(r.shared.capacity, r.Head());
  }

  /** A store of the tail is a dequeue of the item whose slot was held. */
  lemma ReleaseDequeues(r: Ring)
    requires Inv(r) && (r.consumer.Consuming? || r.consumer.Releasing?)
    ensures var slot := Index(r.shared.capacity, r.consumer.t);
      Queue(r) != [] && slot < |r.shared.slots| && Queue(r)[0] == r.shared.slots[slot]
    ensures r.consumer.Releasing? ==>
              var r' := Step(r, ReleaseStoreTail); r'.taken <= |r'.published| && Queue(r') == Queue(r)[1..]
  {
    IndexIsMod(r.shared.capacity, r.Tail());
    assert SlotOf(r.shared, r.base, r.taken) == Index(r.shared.capacity, r.consumer.t);
  }

  /** Every other step leaves the queue alone, and "full" and "empty" are answered exactly when they are
      true at the deciding load, although each side works from the copies it loaded. */
  lemma OtherStepsStutter(r: Ring, a: Action)
    requires Inv(r) && !(a.CommitStoreHead? && r.producer.Committing?)
             && !(a.ReleaseStoreTail? && r.consumer.Releasing?)
    ensures |Queue(r)| <= r.shared.capacity
    ensures Step(r, a).taken <= |Step(r, a).published| && Queue(Step(r, a)) == Queue(r)
    ensures a.ProduceLoadTail? && r.producer.LoadedHead? ==>
              (Step(r, a).producer.ProducerIdle? <==> |Queue(r)| == r.shared.capacity)
    ensures a.ConsumeLoadHead? && r.consumer.LoadedTail? ==>
              (Step(r, a).consumer.ConsumerIdle? <==> Queue(r) == [])
  {
    GapOfWrapped(r.Head(), r.Tail());
  }

  /** No slot is written while it is published. */
  lemma PublishedSlotsAreNotWritten(r: Ring, offset: nat, value: byte, i: nat)
    requires Inv(r) && r.taken <= i < |r.published|
    ensures var s := Step(r, WriteByte(offset, value)).shared;
      s.capacity > 0 && SlotOf(s, r.base, i) < |s.slots| && s.slots[SlotOf(s, r.base, i)] == r.published[i]
  {
    WriteInv(r, offset, value);
  }

  lemma StepHistory(r: Ring, a: Action)
    requires r.shared.capacity > 0
    ensures var r' := Step(r, a);
      r.published <= r'.published && r.seen <= r'.seen && r.taken <= r'.taken <= r.taken + 1
  {}

  /** Nothing published is forgotten or reordered, and items leave one at a time. */
  lemma {:induction false} RunHistory(r: Ring, actions: seq<Action>)
    requires Inv(r)
    ensures var r' := Run(r, actions);
      r.published <= r'.published && r.seen <= r'.seen
      && r.taken <= r'.taken <= |r'.published| && r'.taken <= r.taken + |actions|
    decreases |actions|
  {
    if actions != [] {
      StepInv(r, actions[0]);
      StepHistory(r, actions[0]);
      RunHistory(Step(r, actions[0]), actions[1..]);
    }
  }

  /** Actions during which the consumer keeps the slot it holds. */
  predicate KeepsLease(a: Action) { !a.ReleaseLoadTail? && !a.ReleaseStoreTail? && !a.ConsumeAgain? }

  lemma LeaseStep(r: Ring, a: Action)
    requires Inv(r) && r.consumer.Consuming? && KeepsLease(a)
    ensures Step(r, a).consumer == r.consumer && Step(r, a).taken == r.taken
  {}

  /** The bytes of a held slot are the published item and do not change under any number of steps of the
      producer, counter wrap-around included. */
  lemma {:induction false} LeaseIsStable(r: Ring, actions: seq<Action>)
    requires Inv(r) && r.consumer.Consuming?
    requires forall a :: a in actions ==> KeepsLease(a)
    ensures var r' := Run(r, actions);
      var slot := Index(r.shared.capacity, r.consumer.t);
      r'.consumer == r.consumer && r'.taken == r.taken < |r.published| && slot < |r'.shared.slots|
      && r'.shared.slots[slot] == r.published[r.taken]
    decreases |actions|
  {
    if actions == [] {
      ReleaseDequeues(r);
    } else {
      StepInv(r, actions[0]);
      StepHistory(r, actions[0]);
      LeaseStep(r, actions[0]);
      LeaseIsStable(Step(r, actions[0]), actions[1..]);
    }
  }

  // ------------------------------------------------------------------- Count

  /** `Count` loads the head in one state and the tail in a later one. */
  function CountAcross(first: Ring, later: Ring): u64 { Sub64(first.shared.head, later.shared.tail) }

  /** How far the consumer has meanwhile passed the head an observer loaded, as 64-bit counters show it. */
  function Passed(first: Ring, later: Ring): int { (later.Tail() - first.Head()) % TWO64 }

  /** An observer's count is a difference of true counters, within [0, capacity], as long as the consumer has
      not meanwhile passed the head it loaded. Once it has, the count leaves that range, save when it was
      passed by (nearly) a multiple of 2^64. */
  lemma CountInRange(r: Ring, actions: seq<Action>)
    requires Inv(r)
    ensures var later := Run(r, actions);
      && (later.Tail() <= r.Head() ==> CountAcross(r, later) == r.Head() - later.Tail() <= r.shared.capacity)
      && (later.Tail() > r.Head() ==>
            (CountAcross(r, later) <= r.shared.capacity
             <==> Passed(r, later) == 0 || Passed(r, later) >= TWO64 - r.shared.capacity))
  {
    hide Run, And, SingleBit, ProducerOk, ConsumerOk, SeenOk;
    var later := Run(r, actions);
    RunInv(r, actions);
    RunHistory(r, actions);
    if later.Tail() <= r.Head() {
      GapOfWrapped(r.Head(), later.Tail());
    } else {
      WrappedDifference(r.Head(), later.Tail());
    }
  }

  lemma WrappedDifference(a: nat, b: nat)
    ensures var gap := (b - a) % TWO64;
      Sub64(a % TWO64, b % TWO64) == if gap == 0 then 0 else TWO64 - gap
  {
    var q, gap := (b - a) / TWO64, (b - a) % TWO64;
    var d := a % TWO64 - b % TWO64;
    var e := a / TWO64 - b / TWO64;
    assert d == TWO64 * (-q - e) - gap;
    if gap == 0 {
      ModUnique(d, TWO64, -q - e, 0);
    } else {
      ModUnique(d, TWO64, -q - e - 1, TWO64 - gap);
    }
  }

  /** Either endpoint counts correctly: no other party moves the counter it owns. */
  lemma EndpointCount(r: Ring, actions: seq<Action>)
    requires Inv(r)
    requires (forall k :: 0 <= k < |actions| ==> !actions[k].ReleaseStoreTail?)
          || (forall k :: 0 <= k < |actions| ==> !actions[k].CommitStoreHead?)
    ensures CountAcross(r, Run(r, actions)) == r.Head() - Run(r, actions).Tail() <= r.shared.capacity
  {
    hide Run, And, SingleBit, ProducerOk, ConsumerOk, SeenOk;
    RunInv(r, actions);
    RunHistory(r, actions);
    OwnCounter(r, actions);
    GapOfWrapped(r.Head(), Run(r, actions).Tail());
  }

  lemma StepCounters(r: Ring, a: Action)
    requires r.shared.capacity > 0
    ensures !a.ReleaseStoreTail? ==> Step(r, a).taken == r.taken
    ensures !a.CommitStoreHead? ==> Step(r, a).published == r.published
  {
    hide And;
  }

  lemma {:induction false} OwnCounter(r: Ring, actions: seq<Action>)
    requires r.shared.capacity > 0
    ensures (forall k :: 0 <= k < |actions| ==> !actions[k].ReleaseStoreTail?) ==> Run(r, actions).taken == r.taken
    ensures (forall k :: 0 <= k < |actions| ==> !actions[k].CommitStoreHead?) ==>
            Run(r, actions).published == r.published
    decreases |actions|
  {
    hide Step;
    if actions != [] {
      StepCounters(r, actions[0]);
      OwnCounter(Step(r, actions[0]), actions[1..]);
      assert forall k :: 0 <= k < |actions[1..]| ==> actions[1..][k] == actions[k + 1];
    }
  }
}
