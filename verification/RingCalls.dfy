/** Whole ring calls as runs of atomic steps, and the queue a shared ring holds. The memory-level
    class in `RingMemory` is specified with the functions of this module. */
module RingCalls {
  import opened Words
  import opened RingSteps

  /** `AttachRing`'s last test: the counters are no further apart than the capacity. */
  ghost predicate Attachable(s: Shared) {
    Geometry(s) && Sub64(s.head, s.tail) <= s.capacity
  }

  /** The oldest `n` slots, starting at counter `from`. */
  function SlotsFrom(s: Shared, from: nat, n: nat): (q: seq<seq<byte>>)
    requires s.capacity > 0 && |s.slots| == s.capacity
    ensures |q| == n
    ensures forall k :: 0 <= k < n ==> SlotOf(s, from, k) < |s.slots| && q[k] == s.slots[SlotOf(s, from, k)]
  {
    seq(n, k requires 0 <= k < n => s.slots[SlotOf(s, from, k)])
  }

  /** The published, unreleased slots, oldest first. */
  function QueueOf(s: Shared): seq<seq<byte>>
    requires s.capacity > 0 && |s.slots| == s.capacity
  {
    SlotsFrom(s, s.tail, Sub64(s.head, s.tail))
  }

  /** A ring attached with the shared contents `s`. */
  function Attach(s: Shared): Ring
    requires s.capacity > 0 && |s.slots| == s.capacity
  {
    Ring(s, ProducerIdle, ConsumerIdle, s.tail, QueueOf(s), 0, [])
  }

  lemma AttachOk(s: Shared)
    requires Attachable(s)
    ensures Inv(Attach(s)) && Queue(Attach(s)) == QueueOf(s)
  {
    AttachedInv(Attach(s));
  }

  /** The queue can be read off the shared ring alone. */
  lemma QueueOfShared(r: Ring)
    requires Inv(r)
    ensures Attachable(r.shared) && QueueOf(r.shared) == Queue(r)
  {
    GapOfWrapped(r.Head(), r.Tail());
    var q := QueueOf(r.shared);
    forall k | 0 <= k < |q| ensures q[k] == Queue(r)[k] {
      SameSlot(r, k);
      assert r.published[r.taken + k] == r.shared.slots[SlotOf(r.shared, r.base, r.taken + k)];
    }
  }

  lemma SameSlot(r: Ring, k: nat)
    requires Inv(r)
    ensures SlotOf(r.shared, r.shared.tail, k) == SlotOf(r.shared, r.base, r.taken + k)
  {
    var c := r.shared.capacity;
    var n := r.Tail() / TWO64;
    assert r.Tail() == TWO64 * n + r.shared.tail;
    WrapShift(r.shared.tail + k, n, c);
    assert r.base + (r.taken + k) == TWO64 * n + (r.shared.tail + k);
  }

  lemma WrapShift(x: nat, n: nat, capacity: nat)
    requires SingleBit(capacity) && capacity < TWO32
    ensures (TWO64 * n + x) % capacity == x % capacity
  {
    WrappedIndex(TWO64 * n + x, capacity);
    WrappedIndex(x, capacity);
    var q, m := x / TWO64, x % TWO64;
    assert TWO64 * n + x == TWO64 * (n + q) + m;
    ModUnique(TWO64 * n + x, TWO64, n + q, m);
  }

  // --------------------------------------------------------------- publish

  /** The effect of writing `image` to the slot `ProduceBegin` returns and committing it. */
  function Publish(s: Shared, image: seq<byte>): Shared
    requires s.capacity > 0 && Index(s.capacity, s.head) < |s.slots|
  {
    s.(slots := s.slots[Index(s.capacity, s.head) := image], head := (s.head + 1) % TWO64)
  }

  function Writes(image: seq<byte>): seq<Action> { seq(|image|, k requires 0 <= k < |image| => WriteByte(k, image[k])) }

  const BEGIN: seq<Action> := [ProduceLoadHead, ProduceLoadTail]
  const COMMIT: seq<Action> := [CommitLoadHead, CommitStoreHead]

  /** The steps of one successful produce. */
  function PublishActions(image: seq<byte>): seq<Action> {
    BEGIN + Writes(image) + COMMIT
  }

  lemma {:induction false} RunAppend(r: Ring, a: seq<Action>, b: seq<Action>)
    requires r.shared.capacity > 0
    ensures Run(r, a + b) == Run(Run(r, a), b)
    decreases |a|
  {
    if a == [] {
      assert a + b == b;
    } else {
      assert (a + b)[0] == a[0] && (a + b)[1..] == a[1..] + b;
      RunAppend(Step(r, a[0]), a[1..], b);
    }
  }

  /** Writing every byte of a held slot, one step each, leaves exactly `image` in it. */
  lemma {:induction false} WritesFill(r: Ring, image: seq<byte>, n: nat)
    requires Inv(r) && r.producer.Producing? && n <= |image| == r.shared.slotSize
    ensures var i := Index(r.shared.capacity, r.producer.h);
      i < |r.shared.slots|
      && Run(r, Writes(image)[..n])
         == r.(shared := r.shared.(slots := r.shared.slots[i := image[..n] + r.shared.slots[i][n..]]))
  {
    IndexIsMod(r.shared.capacity, r.Head());
    var i := Index(r.shared.capacity, r.producer.h);
    if n == 0 {
      assert image[..0] + r.shared.slots[i][0..] == r.shared.slots[i];
      assert r.shared.slots[i := r.shared.slots[i]] == r.shared.slots;
    } else {
      WritesFill(r, image, n - 1);
      var w := Writes(image);
      assert w[..n] == w[..n - 1] + [w[n - 1]];
      RunAppend(r, w[..n - 1], [w[n - 1]]);
      var mid := Run(r, w[..n - 1]);
      assert Run(mid, [w[n - 1]]) == Step(mid, w[n - 1]) by { assert [w[n - 1]][1..] == []; }
      var part := image[..n - 1] + r.shared.slots[i][n - 1..];
      assert part[n - 1 := image[n - 1]] == image[..n] + r.shared.slots[i][n..];
    }
  }

  lemma RunOne(r: Ring, a: Action)
    requires r.shared.capacity > 0
    ensures Run(r, [a]) == Step(r, a)
  {
    var rest := [a][1..];
    assert rest == [];
    assert Run(Step(r, a), rest) == Step(r, a);
  }

  lemma RunTwo(r: Ring, a: Action, b: Action)
    requires r.shared.capacity > 0
    ensures Run(r, [a, b]) == Step(Step(r, a), b)
  {
    RunAppend(r, [a], [b]);
    RunOne(r, a);
    RunOne(Step(r, a), b);
  }

  lemma BeginRun(r: Ring)
    requires Inv(r) && r.producer.ProducerIdle?
    ensures Run(r, BEGIN) == if |Queue(r)| == r.shared.capacity then r
            else r.(producer := Producing(r.shared.head))
  {
    GapOfWrapped(r.Head(), r.Tail());
    RunTwo(r, ProduceLoadHead, ProduceLoadTail);
  }

  /** A produce call with room is a run that publishes the image and changes nothing else. */
  lemma PublishRun(r: Ring, image: seq<byte>)
    requires Inv(r) && r.producer.ProducerIdle? && |Queue(r)| < r.shared.capacity && |image| == r.shared.slotSize
    ensures Index(r.shared.capacity, r.shared.head) < |r.shared.slots|
    ensures Run(r, PublishActions(image)) == r.(shared := Publish(r.shared, image), published := r.published + [image])
  {
    IndexIsMod(r.shared.capacity, r.Head());
    var i := Index(r.shared.capacity, r.shared.head);
    BeginRun(r);
    RunInv(r, BEGIN);
    var begun := Run(r, BEGIN);
    WritesFill(begun, image, |image|);
    assert Writes(image)[..|image|] == Writes(image);
    assert image[..|image|] + r.shared.slots[i][|image|..] == image;
    PublishParts(r, image, begun, Run(begun, Writes(image)));
  }

  lemma PublishParts(r: Ring, image: seq<byte>, begun: Ring, written: Ring)
    requires r.shared.capacity > 0 && r.producer.ProducerIdle?
             && Index(r.shared.capacity, r.shared.head) < |r.shared.slots|
    requires begun == r.(producer := Producing(r.shared.head)) == Run(r, BEGIN)
    requires written == Run(begun, Writes(image))
    requires written
             == begun.(shared := r.shared.(slots := r.shared.slots[Index(r.shared.capacity, r.shared.head) := image]))
    ensures Run(r, PublishActions(image)) == r.(shared := Publish(r.shared, image), published := r.published + [image])
  {
    hide Step, And, Writes, Run;
    CommitRun(written);
    Run3(r, BEGIN, Writes(image), COMMIT);
  }

  lemma Run3(r: Ring, a: seq<Action>, b: seq<Action>, c: seq<Action>)
    requires r.shared.capacity > 0
    ensures Run(r, a + b + c) == Run(Run(Run(r, a), b), c)
  {
    RunAppend(r, a, b);
    RunAppend(r, a + b, c);
  }

  lemma CommitRun(r: Ring)
    requires r.shared.capacity > 0 && r.producer.Producing?
             && Index(r.shared.capacity, r.shared.head) < |r.shared.slots|
    ensures Run(r, COMMIT) ==
            r.(shared := r.shared.(head := (r.shared.head + 1) % TWO64), producer := ProducerIdle,
               published := r.published + [r.shared.slots[Index(r.shared.capacity, r.shared.head)]])
  {
    RunTwo(r, CommitLoadHead, CommitStoreHead);
  }

  /** A successful produce appends its image to the queue. */
  lemma PublishEnqueues(s: Shared, image: seq<byte>)
    requires Attachable(s) && Sub64(s.head, s.tail) < s.capacity && |image| == s.slotSize
    ensures Index(s.capacity, s.head) < |s.slots|
    ensures Attachable(Publish(s, image)) && QueueOf(Publish(s, image)) == QueueOf(s) + [image]
  {
    AttachOk(s);
    PublishRun(Attach(s), image);
    RunInv(Attach(s), PublishActions(image));
    QueueOfShared(Run(Attach(s), PublishActions(image)));
  }

  // --------------------------------------------------------------- release

  /** The effect of `ConsumeCommit`. */
  function Release(s: Shared): Shared { s.(tail := (s.tail + 1) % TWO64) }

  /** The slot `ConsumeBegin` returns. */
  function Oldest(s: Shared): seq<byte>
    requires s.capacity > 0 && Index(s.capacity, s.tail) < |s.slots|
  {
    s.slots[Index(s.capacity, s.tail)]
  }

  const CONSUME: seq<Action> := [ConsumeLoadTail, ConsumeLoadHead]
  const RELEASE: seq<Action> := [ReleaseLoadTail, ReleaseStoreTail]

  lemma ConsumeLoads(r: Ring)
    requires r.shared.capacity > 0 && r.consumer.ConsumerIdle?
    ensures Run(r, CONSUME) == if r.shared.head == r.shared.tail then r
            else r.(consumer := Consuming(r.shared.tail))
  {
    RunTwo(r, ConsumeLoadTail, ConsumeLoadHead);
  }

  lemma ConsumeRun(r: Ring)
    requires Inv(r) && r.consumer.ConsumerIdle?
    ensures Run(r, CONSUME) == if Queue(r) == [] then r else r.(consumer := Consuming(r.shared.tail))
  {
    GapOfWrapped(r.Head(), r.Tail());
    EmptyGap(r.shared.head, r.shared.tail);
    ConsumeLoads(r);
  }

  lemma ReleaseRun(r: Ring)
    requires r.shared.capacity > 0 && r.consumer.Consuming?
    ensures Run(r, RELEASE) == r.(shared := Release(r.shared), consumer := ConsumerIdle, taken := r.taken + 1)
  {
    RunTwo(r, ReleaseLoadTail, ReleaseStoreTail);
  }

  /** `ConsumeBegin` shows the head of a non-empty queue and `ConsumeCommit` removes it. */
  lemma ReleaseDrops(s: Shared)
    requires Attachable(s) && s.head != s.tail
    ensures QueueOf(s) != [] && Index(s.capacity, s.tail) < |s.slots| && Oldest(s) == QueueOf(s)[0]
    ensures Attachable(Release(s)) && QueueOf(Release(s)) == QueueOf(s)[1..]
  {
    hide Step, And, SingleBit, SlotsOk, SeenOk;
    AttachOk(s);
    var r := Attach(s);
    ConsumeRun(r);
    if Queue(r) == [] {
      QueueOfShared(r);
      EmptyGap(s.head, s.tail);
    }
    var held := Run(r, CONSUME);
    RunInv(r, CONSUME);
    ReleaseDequeues(held);
    ReleaseRun(held);
    RunInv(held, RELEASE);
    QueueOfShared(Run(held, RELEASE));
  }

  lemma EmptyGap(head: u64, tail: u64)
    ensures Sub64(head, tail) == 0 <==> head == tail
  {
    var d, q := head - tail, (head - tail) / TWO64;
    if Sub64(head, tail) == 0 {
      assert d == TWO64 * q;
      MulBounds(TWO64, q);
    }
  }

  // ----------------------------------------------------------------- Count again

  /** One item goes in and out again. */
  function PassActions(image: seq<byte>): seq<Action> { PublishActions(image) + CONSUME + RELEASE }

  lemma PassOne(r: Ring, image: seq<byte>)
    requires Inv(r) && r.producer.ProducerIdle? && r.consumer.ConsumerIdle? && Queue(r) == []
             && |image| == r.shared.slotSize
    ensures Run(r, PassActions(image)).taken == r.taken + 1
  {
    hide Step, And, SingleBit, SeenOk, Writes;
    PublishRun(r, image);
    var full := Run(r, PublishActions(image));
    RunInv(r, PublishActions(image));
    ConsumeRun(full);
    ReleaseRun(Run(full, CONSUME));
    Run3(r, PublishActions(image), CONSUME, RELEASE);
  }

  /** On every empty ring: between an observer's two loads one item passes through, and the count it then computes
      is 2^64 - 1. */
  lemma CountLeavesRange(r: Ring, image: seq<byte>)
    requires Inv(r) && r.producer.ProducerIdle? && r.consumer.ConsumerIdle? && Queue(r) == []
             && |image| == r.shared.slotSize
    ensures CountAcross(r, Run(r, PassActions(image))) == TWO64 - 1 > r.shared.capacity
  {
    hide Step, And, SingleBit, SeenOk, Writes, Run, PassActions;
    PassOne(r, image);
    OneBehind(r, Run(r, PassActions(image)), PassActions(image));
  }

  lemma OneBehind(r: Ring, later: Ring, actions: seq<Action>)
    requires Inv(r) && later == Run(r, actions) && later.taken == r.taken + 1 && Queue(r) == []
    ensures CountAcross(r, later) == TWO64 - 1
  {
    hide Step, And, SingleBit, SeenOk, SlotsOk, ProducerOk, ConsumerOk;
    RunInv(r, actions);
    WrappedDifference(r.Head(), later.Tail());
    ModUnique(1, TWO64, 0, 1);
  }
}
