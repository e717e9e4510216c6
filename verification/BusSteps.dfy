/** `emit` and `Poll` (server-go/bus/client.go) as programs of single atomic steps on one ring: an emitting and a
    polling process take turns in any order, between any two loads, stores, byte writes or byte reads. */
module BusSteps {
  import opened Words
  import FC = FrameCodec
  import RC = RingCalls
  import RS = RingSteps
  import BC = BusClient

  // ------------------------------------------------------------------ programs

  /** One call of `emit`, or another implementation of the producer side publishing a slot of its own. */
  datatype Order =
    | Emit(flags: u16, kind: u32, correlation: u64, payload: seq<byte>, budget: u32, handle: u32, epochChanged: bool)
    | Foreign(image: seq<byte>)

  /** An order and what it was answered. */
  datatype Done = Done(order: Order, err: BC.Err)

  /** Where the emitter is: between calls, after loading the head, at its `n`-th write, before storing the head. */
  datatype Emitter = Ready | Loaded | Filling(n: nat) | Closing

  /** Where the poller is: between polls, releasing the slot of the last event, after loading the tail, reading the
      header, reading the payload, releasing a refused slot, or stopped by a slice out of bounds. */
  datatype Poller =
    | Resting(pending: bool) | Giving | Peeking | Reading(header: seq<byte>)
    | Copying(frame: FC.Frame, n: nat, got: seq<byte>) | Dropping | Broken

  /** The ring, how many mapped bytes lie behind its slots, the slot sizes the two clients were told, and both
      processes with what they did. */
  datatype Sys = Sys(
    ring: RS.Ring, behind: nat, emitSlot: u32, pollSlot: u32,
    todo: seq<Order>, emitter: Emitter, done: seq<Done>,
    poller: Poller, delivered: seq<BC.Event>)

  /** Whose turn it is; `wild` is the byte a poller finds that reads behind the ring. */
  datatype Turn = Emits | Polls(wild: byte)

  /** The header of an emitted order. */
  function FrameOf(o: Order): FC.Frame
    requires o.Emit?
  {
    BC.EmitFrame(o.flags, o.kind, o.correlation, |o.payload| % TWO32, o.handle)
  }

  /** The tests `emit` makes before it touches the ring. */
  function Refusal(emitSlot: u32, slotSize: nat, o: Order): BC.Err {
    match o
    case Foreign(image) => if |image| == slotSize then BC.NoError else BC.ErrPayload
    case Emit(_, _, _, payload, budget, _, epochChanged) =>
      if |payload| > 0 && (|payload| % TWO32 > budget || FC.HDR_LEN + |payload| > emitSlot) then BC.ErrPayload
      else if epochChanged then BC.ErrEpoch else BC.NoError
  }

  /** Whether `Frame.Encode` accepts the header for this slot. */
  predicate Encodable(o: Order, slotSize: nat) {
    o.Foreign? || (slotSize >= FC.HDR_LEN && FC.Validate(FrameOf(o)) == FC.OK)
  }

  /** The bytes an order leaves at the start of its slot; `copy` stops at the end of it. */
  function Message(o: Order, slotSize: nat): (m: seq<byte>)
    ensures |m| <= slotSize
  {
    var all := if o.Emit? then FC.Bytes(FrameOf(o)) + o.payload else o.image;
    all[..Min(|all|, slotSize)]
  }

  /** `Encode` first clears the header. */
  function Cleared(o: Order, slotSize: nat): nat { if o.Emit? then Min(FC.HDR_LEN, slotSize) else 0 }

  /** The call is over. */
  function Finish(x: Sys, err: BC.Err): Sys
    requires x.todo != []
  {
    x.(todo := x.todo[1..], emitter := Ready, done := x.done + [Done(x.todo[0], err)])
  }

  /** The next step of the emitter. */
  function EmitStep(x: Sys): (x': Sys)
    requires x.ring.shared.capacity > 0
    ensures x'.ring.shared.capacity == x.ring.shared.capacity && x'.ring.shared.slotSize == x.ring.shared.slotSize
  {
    if x.todo == [] then x
    else
      var o, size := x.todo[0], x.ring.shared.slotSize;
      match x.emitter
      case Ready =>
        if Refusal(x.emitSlot, size, o) != BC.NoError then Finish(x, Refusal(x.emitSlot, size, o))
        else x.(ring := RS.Step(x.ring, RS.ProduceLoadHead), emitter := Loaded)
      case Loaded =>
        var r := RS.Step(x.ring, RS.ProduceLoadTail);
        if r.producer.Producing? then x.(ring := r, emitter := Filling(0)) else Finish(x.(ring := r), BC.ErrWouldBlock)
      case Filling(n) =>
        var clear, m := Cleared(o, size), Message(o, size);
        if !Encodable(o, size) then Finish(x.(ring := RS.Step(x.ring, RS.ProduceAbandon)), BC.ErrProtocol)
        else if n < clear then x.(ring := RS.Step(x.ring, RS.WriteByte(n, 0)), emitter := Filling(n + 1))
        else if n - clear < |m| then
          x.(ring := RS.Step(x.ring, RS.WriteByte(n - clear, m[n - clear])), emitter := Filling(n + 1))
        else x.(ring := RS.Step(x.ring, RS.CommitLoadHead), emitter := Closing)
      case Closing => Finish(x.(ring := RS.Step(x.ring, RS.CommitStoreHead)), BC.NoError)
  }

  /** What `Poll` makes of a header: refused, an event with so many payload bytes, or a reference that wraps. */
  datatype Sight = Refused | Wanted(frame: FC.Frame, n: nat) | Wrapped

  function Look(header: seq<byte>, pollSlot: u32): Sight {
    match FC.Decode(header)
    case Rejected(_) => Refused
    case Decoded(f) =>
      if FC.Has(f.hdrFlags, FC.F_INLINE) && f.payloadLen > 0 && (f.payloadRef + f.payloadLen) % TWO64 <= pollSlot then
        if f.payloadRef + f.payloadLen <= pollSlot then Wanted(f, f.payloadLen) else Wrapped
      else Wanted(f, 0)
  }

  /** The held slot. */
  function Held(r: RS.Ring): nat
    requires r.shared.capacity > 0
  {
    if r.consumer.Consuming? then RS.Index(r.shared.capacity, r.consumer.t) else 0
  }

  /** How far a slice of the held slot may reach: Go bounds it by the capacity of the slot, which is what is mapped
      from its first byte on, not by its length. */
  function Reach(x: Sys): nat
    requires x.ring.shared.capacity > 0
  {
    var s := x.ring.shared;
    var later := if Held(x.ring) < s.capacity then s.capacity - 1 - Held(x.ring) else 0;
    s.slotSize + Product(later, s.slotSize) + x.behind
  }

  /** `a * b`. */
  function Product(a: nat, b: nat): (p: nat)
    ensures p == a * b
  {
    if a == 0 then 0 else b + Product(a - 1, b)
  }

  /** The byte of the held slot the poller reads next. */
  function HeldByte(r: RS.Ring, at: nat): byte
    requires r.shared.capacity > 0
  {
    if r.consumer.Consuming? && RS.Index(r.shared.capacity, r.consumer.t) < |r.shared.slots|
       && at < |r.shared.slots[RS.Index(r.shared.capacity, r.consumer.t)]|
    then r.shared.slots[RS.Index(r.shared.capacity, r.consumer.t)][at] else 0
  }

  /** The byte `at` places behind the start of the held slot: in it, in a later slot, or behind the ring. */
  function ByteAt(r: RS.Ring, at: nat, wild: byte): byte
    requires r.shared.capacity > 0
  {
    var size := r.shared.slotSize;
    if at < size || size == 0 then HeldByte(r, at)
    else
      var i := Held(r) + at / size;
      if i < |r.shared.slots| && at % size < |r.shared.slots[i]| then r.shared.slots[i][at % size] else wild
  }

  /** The next step of the poller; it polls again and again, reading each payload before the next poll. */
  function PollStep(x: Sys, wild: byte): (x': Sys)
    requires x.ring.shared.capacity > 0
    ensures x'.ring.shared.capacity == x.ring.shared.capacity && x'.ring.shared.slotSize == x.ring.shared.slotSize
  {
    var size := x.ring.shared.slotSize;
    match x.poller
    case Resting(pending) =>
      if pending then x.(ring := RS.Step(x.ring, RS.ReleaseLoadTail), poller := Giving)
      else x.(ring := RS.Step(x.ring, RS.ConsumeLoadTail), poller := Peeking)
    case Giving => x.(ring := RS.Step(x.ring, RS.ReleaseStoreTail), poller := Resting(false))
    case Peeking =>
      var r := RS.Step(x.ring, RS.ConsumeLoadHead);
      x.(ring := r, poller := if r.consumer.Consuming? then Reading([]) else Resting(false))
    case Reading(header) =>
      if |header| < Min(FC.HDR_LEN, size) then
        x.(ring := RS.Step(x.ring, RS.ReadByte(|header|)), poller := Reading(header + [HeldByte(x.ring, |header|)]))
      else
        match Look(header, x.pollSlot) {
          case Refused => x.(ring := RS.Step(x.ring, RS.ReleaseLoadTail), poller := Dropping)
          case Wanted(f, n) =>
            x.(poller := if n == 0 || f.payloadRef + n <= Reach(x) then Copying(f, n, []) else Broken)
          case Wrapped => x.(poller := Broken)
        }
    case Copying(f, n, got) =>
      if |got| < n then
        var at := f.payloadRef + |got|;
        x.(ring := RS.Step(x.ring, RS.ReadByte(at)), poller := Copying(f, n, got + [ByteAt(x.ring, at, wild)]))
      else x.(poller := Resting(true), delivered := x.delivered + [BC.Event(f, got)])
    case Dropping => x.(ring := RS.Step(x.ring, RS.ReleaseStoreTail), poller := Resting(false))
    case Broken => x
  }

  function Step(x: Sys, turn: Turn): (x': Sys)
    requires x.ring.shared.capacity > 0
    ensures x'.ring.shared.capacity == x.ring.shared.capacity && x'.ring.shared.slotSize == x.ring.shared.slotSize
  {
    match turn
    case Emits => EmitStep(x)
    case Polls(wild) => PollStep(x, wild)
  }

  function Run(x: Sys, turns: seq<Turn>): (x': Sys)
    requires x.ring.shared.capacity > 0
    ensures x'.ring.shared.capacity == x.ring.shared.capacity && x'.ring.shared.slotSize == x.ring.shared.slotSize
    decreases |turns|
  {
    if turns == [] then x else Run(Step(x, turns[0]), turns[1..])
  }

  // ------------------------------------------------------------------ what is meant

  /** The orders that were carried out. */
  function Successes(done: seq<Done>): seq<Order> {
    if done == [] then []
    else Successes(done[..|done| - 1]) + (if done[|done| - 1].err == BC.NoError then [done[|done| - 1].order] else [])
  }

  /** The slot starts with the bytes of the order. */
  ghost predicate Placed(o: Order, slotSize: nat, slot: seq<byte>) {
    Encodable(o, slotSize) && |slot| == slotSize && slot[..|Message(o, slotSize)|] == Message(o, slotSize)
  }

  /** What a poller told `pollSlot` makes of the header of a slot. */
  function Sees(pollSlot: u32, slot: seq<byte>): Sight { Look(slot[..Min(FC.HDR_LEN, |slot|)], pollSlot) }

  /** The payload bytes that lie inside the slot are those of the slot. */
  ghost predicate Agrees(f: FC.Frame, got: seq<byte>, slot: seq<byte>) {
    forall k :: 0 <= k < |got| && f.payloadRef + k < |slot| ==> got[k] == slot[f.payloadRef + k]
  }

  /** The event has the header of the slot, the length it names, and the bytes of the slot as far as that goes. */
  ghost predicate Shows(pollSlot: u32, slot: seq<byte>, e: BC.Event) {
    Sees(pollSlot, slot) == Wanted(e.frame, |e.payload|) && Agrees(e.frame, e.payload, slot)
  }

  /** The events show the slots, in order and each once, but for the slots that are refused. */
  ghost predicate Shown(pollSlot: u32, slots: seq<seq<byte>>, events: seq<BC.Event>) {
    if slots == [] then events == []
    else
      var front, last := slots[..|slots| - 1], slots[|slots| - 1];
      if Sees(pollSlot, last) == Refused then Shown(pollSlot, front, events)
      else events != [] && Shows(pollSlot, last, events[|events| - 1])
           && Shown(pollSlot, front, events[..|events| - 1])
  }

  /** The payload its header names ends within the slot. */
  predicate Contained(pollSlot: u32, slot: seq<byte>) {
    match Sees(pollSlot, slot)
    case Wanted(f, n) => n == 0 || f.payloadRef + n <= |slot|
    case _ => true
  }

  /** How many published slots the poller is through with. */
  function Consumed(x: Sys): nat {
    x.ring.taken + (if x.poller == Resting(true) || x.poller.Giving? || x.poller.Dropping? then 1 else 0)
  }

  // ------------------------------------------------------------------ invariant

  /** Where a stretch of the run started. */
  datatype Base = Base(published: seq<seq<byte>>, delivered: seq<BC.Event>, consumed: nat)

  /** The slot behind the head starts with the first `n` bytes of the order. */
  ghost predicate Holds(s: RS.Shared, o: Order, n: nat)
    requires s.capacity > 0
  {
    var i, m := RS.Index(s.capacity, s.head), Message(o, s.slotSize);
    i < |s.slots| && n <= |m| && n <= |s.slots[i]| && s.slots[i][..n] == m[..n]
  }

  ghost predicate EmitterOk(x: Sys)
    requires x.ring.shared.capacity > 0
  {
    var size := x.ring.shared.slotSize;
    && (!x.emitter.Ready? ==> x.todo != [] && Refusal(x.emitSlot, size, x.todo[0]) == BC.NoError)
    && match x.emitter
       case Ready => x.ring.producer.ProducerIdle?
       case Loaded => x.ring.producer.LoadedHead?
       case Filling(n) =>
         var o := x.todo[0];
         x.ring.producer.Producing?
         && (Encodable(o, size) && n > Cleared(o, size) ==> Holds(x.ring.shared, o, n - Cleared(o, size)))
       case Closing =>
         x.ring.producer.Committing? && Encodable(x.todo[0], size)
           && Holds(x.ring.shared, x.todo[0], |Message(x.todo[0], size)|)
  }

  /** The slice of `Poll` is out of bounds: the reference wraps, or it names bytes behind everything mapped. */
  ghost predicate Breaks(x: Sys, slot: seq<byte>)
    requires x.ring.shared.capacity > 0
  {
    match Sees(x.pollSlot, slot)
    case Refused => false
    case Wanted(f, n) => n > 0 && f.payloadRef + n > Reach(x)
    case Wrapped => true
  }

  ghost predicate PollerOk(x: Sys)
    requires x.ring.shared.capacity > 0
  {
    var r := x.ring;
    match x.poller
    case Resting(pending) => if pending then r.consumer.Consuming? else r.consumer.ConsumerIdle?
    case Giving => r.consumer.Releasing?
    case Dropping => r.consumer.Releasing?
    case Peeking => r.consumer.LoadedTail?
    case Reading(header) => r.consumer.Consuming? && r.taken < |r.published| && HeaderRead(header, r.published[r.taken])
    case Copying(f, n, got) =>
      r.consumer.Consuming? && r.taken < |r.published| && PayloadRead(f, n, got, x.pollSlot, r.published[r.taken])
    case Broken => r.consumer.Consuming? && r.taken < |r.published| && Breaks(x, r.published[r.taken])
  }

  ghost predicate HeaderRead(header: seq<byte>, slot: seq<byte>) {
    |header| <= Min(FC.HDR_LEN, |slot|) && header == slot[..|header|]
  }

  ghost predicate PayloadRead(f: FC.Frame, n: nat, got: seq<byte>, pollSlot: u32, slot: seq<byte>) {
    Sees(pollSlot, slot) == Wanted(f, n) && |got| <= n && Agrees(f, got, slot)
  }

  /** Every slot published since holds the bytes of one successful order, in order. */
  ghost predicate Recorded(first: seq<seq<byte>>, published: seq<seq<byte>>, done: seq<Done>, slotSize: nat) {
    var orders := Successes(done);
    && first <= published && |published| == |first| + |orders|
    && forall i :: 0 <= i < |orders| ==> Placed(orders[i], slotSize, published[|first| + i])
  }

  /** Every slot passed since gave its event, in order. */
  ghost predicate ReadUp(b: Base, x: Sys) {
    && b.consumed <= Consumed(x) <= |x.ring.published|
    && b.delivered <= x.delivered
    && Shown(x.pollSlot, x.ring.published[b.consumed..Consumed(x)], x.delivered[|b.delivered|..])
  }

  ghost predicate Good(b: Base, x: Sys) {
    && RS.Inv(x.ring) && EmitterOk(x) && PollerOk(x)
    && Recorded(b.published, x.ring.published, x.done, x.ring.shared.slotSize) && ReadUp(b, x)
  }

  /** A system between calls of the emitter and between polls. */
  ghost predicate Quiet(x: Sys) {
    && RS.Inv(x.ring) && x.emitter.Ready? && x.done == [] && x.ring.producer.ProducerIdle?
    && x.poller.Resting? && (if x.poller.pending then x.ring.consumer.Consuming? else x.ring.consumer.ConsumerIdle?)
  }

  function BaseOf(x: Sys): Base { Base(x.ring.published, x.delivered, Consumed(x)) }

  lemma QuietIsGood(x: Sys)
    requires Quiet(x)
    ensures Good(BaseOf(x), x)
  {
    assert x.ring.published[Consumed(x)..Consumed(x)] == [];
  }

  // -------------------------------------------------------------- emitter steps

  lemma SuccessesGrow(done: seq<Done>, d: Done)
    ensures Successes(done + [d]) == Successes(done) + (if d.err == BC.NoError then [d.order] else [])
  {
    assert (done + [d])[..|done|] == done;
  }

  /** A step of the emitter leaves the poller's side alone; it publishes at most one more slot. */
  lemma EmitterSide(r: RS.Ring, a: RS.Action)
    requires RS.Inv(r)
    requires a.ProduceLoadHead? || a.ProduceLoadTail? || a.WriteByte? || a.ProduceAbandon? || a.CommitLoadHead?
             || a.CommitStoreHead?
    ensures var r' := RS.Step(r, a);
      && RS.Inv(r') && r'.consumer == r.consumer && r'.taken == r.taken && r.published <= r'.published
      && r'.shared.slotSize == r.shared.slotSize && r'.shared.capacity == r.shared.capacity
      && (!a.CommitStoreHead? ==> r'.published == r.published && r'.shared.head == r.shared.head)
      && (a.WriteByte? ==> r'.producer == r.producer)
      && (r.producer.Producing? && a.ProduceAbandon? ==> r'.producer.ProducerIdle?)
      && (r.producer.Producing? && a.CommitLoadHead? ==> r'.producer.Committing?)
  {
    RS.StepInv(r, a);
    hide RS.Inv, And;
  }

  lemma LongerReadUp(b: Base, x: Sys, x': Sys)
    requires ReadUp(b, x) && x.ring.published <= x'.ring.published
    requires x'.poller == x.poller && x'.delivered == x.delivered && x'.pollSlot == x.pollSlot
             && x'.ring.taken == x.ring.taken
    ensures ReadUp(b, x')
  {
    hide Shown;
    assert x'.ring.published[b.consumed..Consumed(x)] == x.ring.published[b.consumed..Consumed(x)];
  }

  lemma LongerPoller(x: Sys, x': Sys)
    requires x.ring.shared.capacity > 0 && PollerOk(x) && x.ring.published <= x'.ring.published
    requires x'.poller == x.poller && x'.pollSlot == x.pollSlot && x'.ring.taken == x.ring.taken
    requires x'.ring.consumer == x.ring.consumer && x'.behind == x.behind
    requires x'.ring.shared.capacity == x.ring.shared.capacity && x'.ring.shared.slotSize == x.ring.shared.slotSize
    ensures PollerOk(x')
  {
    hide HeaderRead, PayloadRead, Sees, Product, And;
  }

  /** One byte further. */
  lemma WriteHolds(r: RS.Ring, o: Order, n: nat)
    requires RS.Inv(r) && r.producer.Producing? && n < |Message(o, r.shared.slotSize)|
             && (n > 0 ==> Holds(r.shared, o, n))
    ensures Holds(RS.Step(r, RS.WriteByte(n, Message(o, r.shared.slotSize)[n])).shared, o, n + 1)
  {
    hide Message;
    RS.IndexIsMod(r.shared.capacity, r.Head());
    var m := Message(o, r.shared.slotSize);
    assert m[..n + 1] == m[..n] + [m[n]];
  }

  lemma Parts(b: Base, x: Sys)
    requires Good(b, x)
    ensures x.ring.shared.capacity > 0
    ensures RS.Inv(x.ring) && EmitterOk(x) && PollerOk(x) && ReadUp(b, x)
    ensures Recorded(b.published, x.ring.published, x.done, x.ring.shared.slotSize)
  {}

  /** What is left to show of a step of the emitter that publishes nothing. */
  lemma EmitterMoves(b: Base, x: Sys, x': Sys, a: RS.Action)
    requires Good(b, x) && x'.ring == RS.Step(x.ring, a)
    requires a.ProduceLoadHead? || a.ProduceLoadTail? || a.WriteByte? || a.ProduceAbandon? || a.CommitLoadHead?
    requires x'.poller == x.poller && x'.delivered == x.delivered && x'.pollSlot == x.pollSlot
    requires x'.behind == x.behind && EmitterOk(x')
    requires Recorded(b.published, x.ring.published, x'.done, x.ring.shared.slotSize)
    ensures Good(b, x')
  {
    Parts(b, x);
    EmitterSide(x.ring, a);
    hide RS.Inv, RS.Step, EmitterOk, PollerOk, ReadUp, Recorded;
    LongerReadUp(b, x, x');
    LongerPoller(x, x');
  }

  lemma FillStep(b: Base, x: Sys)
    requires Good(b, x) && x.emitter.Filling? && x.todo != []
    ensures Good(b, EmitStep(x))
  {
    hide Good, ReadUp, Recorded, PollerOk, Message, Encodable, Refusal, Holds, RS.Inv, RS.Step, Cleared;
    Parts(b, x);
    var o, n, size, x' := x.todo[0], x.emitter.n, x.ring.shared.slotSize, EmitStep(x);
    var clear, m := Cleared(o, size), Message(o, size);
    if !Encodable(o, size) {
      EmitterSide(x.ring, RS.ProduceAbandon);
      SameRecord(b.published, x.ring.published, x.done, Done(o, BC.ErrProtocol), size);
      EmitterMoves(b, x, x', RS.ProduceAbandon);
    } else if n < clear {
      EmitterSide(x.ring, RS.WriteByte(n, 0));
      EmitterMoves(b, x, x', RS.WriteByte(n, 0));
    } else if n - clear < |m| {
      EmitterSide(x.ring, RS.WriteByte(n - clear, m[n - clear]));
      WriteHolds(x.ring, o, n - clear);
      EmitterMoves(b, x, x', RS.WriteByte(n - clear, m[n - clear]));
    } else {
      EmitterSide(x.ring, RS.CommitLoadHead);
      FullyHeld(x.ring, o, n - clear);
      EmitterMoves(b, x, x', RS.CommitLoadHead);
    }
  }

  lemma FullyHeld(r: RS.Ring, o: Order, n: nat)
    requires RS.Inv(r) && n >= |Message(o, r.shared.slotSize)| && (n > 0 ==> Holds(r.shared, o, n))
    ensures Holds(RS.Step(r, RS.CommitLoadHead).shared, o, |Message(o, r.shared.slotSize)|)
  {
    hide Message, RS.Inv, And;
    HeadSlot(r);
    assert RS.Step(r, RS.CommitLoadHead).shared == r.shared;
  }

  lemma HeadSlot(r: RS.Ring)
    requires RS.Inv(r)
    ensures r.shared.capacity > 0 && RS.Index(r.shared.capacity, r.shared.head) < |r.shared.slots|
  {
    hide SingleBit, And, RS.ProducerOk, RS.ConsumerOk, RS.SeenOk;
    RS.IndexIsMod(r.shared.capacity, r.Head());
  }

  lemma SameRecord(first: seq<seq<byte>>, published: seq<seq<byte>>, done: seq<Done>, d: Done, slotSize: nat)
    requires Recorded(first, published, done, slotSize) && d.err != BC.NoError
    ensures Recorded(first, published, done + [d], slotSize)
  {
    SuccessesGrow(done, d);
    hide Placed;
  }

  lemma NextRecord(first: seq<seq<byte>>, published: seq<seq<byte>>, slot: seq<byte>, done: seq<Done>, o: Order,
      slotSize: nat)
    requires Recorded(first, published, done, slotSize) && Placed(o, slotSize, slot)
    ensures Recorded(first, published + [slot], done + [Done(o, BC.NoError)], slotSize)
  {
    SuccessesGrow(done, Done(o, BC.NoError));
    hide Placed;
  }

  lemma CloseStep(b: Base, x: Sys)
    requires Good(b, x) && x.emitter.Closing? && x.todo != []
    ensures Good(b, EmitStep(x))
  {
    hide ReadUp, Recorded, PollerOk, Message, Encodable, Refusal, Successes;
    var o, size, x' := x.todo[0], x.ring.shared.slotSize, EmitStep(x);
    EmitterSide(x.ring, RS.CommitStoreHead);
    RS.IndexIsMod(x.ring.shared.capacity, x.ring.Head());
    var slot := x.ring.shared.slots[RS.Index(x.ring.shared.capacity, x.ring.shared.head)];
    assert x'.ring.published == x.ring.published + [slot];
    NextRecord(b.published, x.ring.published, slot, x.done, o, size);
    LongerReadUp(b, x, x');
    LongerPoller(x, x');
  }

  lemma LoadStep(b: Base, x: Sys)
    requires Good(b, x) && (x.emitter.Ready? || x.emitter.Loaded?) && x.todo != []
    ensures Good(b, EmitStep(x))
  {
    hide Good, ReadUp, Recorded, PollerOk, Message, Encodable, Refusal, Holds, RS.Inv, RS.Step, Cleared;
    Parts(b, x);
    var o, size, x' := x.todo[0], x.ring.shared.slotSize, EmitStep(x);
    var refusal := Refusal(x.emitSlot, size, o);
    var e := if x.emitter.Ready? then refusal else BC.ErrWouldBlock;
    if e != BC.NoError { SameRecord(b.published, x.ring.published, x.done, Done(o, e), size); }
    LoadEffects(x.ring);
    if x.emitter.Loaded? {
      EmitterMoves(b, x, x', RS.ProduceLoadTail);
    } else if e == BC.NoError {
      EmitterMoves(b, x, x', RS.ProduceLoadHead);
    } else {
      NothingMoves(b, x, x');
    }
  }

  lemma LoadEffects(r: RS.Ring)
    requires r.shared.capacity > 0
    ensures r.producer.ProducerIdle? ==> RS.Step(r, RS.ProduceLoadHead).producer.LoadedHead?
    ensures r.producer.LoadedHead? ==>
              RS.Step(r, RS.ProduceLoadTail).producer.Producing?
                || RS.Step(r, RS.ProduceLoadTail).producer.ProducerIdle?
  {}

  lemma NothingMoves(b: Base, x: Sys, x': Sys)
    requires Good(b, x) && x'.ring == x.ring
    requires x'.poller == x.poller && x'.delivered == x.delivered && x'.pollSlot == x.pollSlot
    requires x'.behind == x.behind && EmitterOk(x')
    requires Recorded(b.published, x.ring.published, x'.done, x.ring.shared.slotSize)
    ensures Good(b, x')
  {
    Parts(b, x);
    hide Good, EmitterOk, PollerOk, ReadUp, Recorded, RS.Inv;
    LongerReadUp(b, x, x');
    LongerPoller(x, x');
    Whole(b, x');
  }

  lemma Whole(b: Base, x: Sys)
    requires x.ring.shared.capacity > 0 && RS.Inv(x.ring) && EmitterOk(x) && PollerOk(x) && ReadUp(b, x)
    requires Recorded(b.published, x.ring.published, x.done, x.ring.shared.slotSize)
    ensures Good(b, x)
  {}

  lemma EmitGood(b: Base, x: Sys)
    requires Good(b, x)
    ensures Good(b, EmitStep(x))
  {
    if x.todo != [] {
      if x.emitter.Filling? { FillStep(b, x); } else if x.emitter.Closing? { CloseStep(b, x); } else { LoadStep(b, x); }
    }
  }

  // --------------------------------------------------------------- poller steps

  /** A step of the poller leaves the emitter's side, its held slot included, alone. */
  lemma PollerSide(r: RS.Ring, a: RS.Action)
    requires RS.Inv(r)
    requires a.ConsumeLoadTail? || a.ConsumeLoadHead? || a.ReadByte? || a.ReleaseLoadTail? || a.ReleaseStoreTail?
    ensures var r' := RS.Step(r, a);
      && RS.Inv(r') && r'.producer == r.producer && r'.published == r.published && r'.shared.slots == r.shared.slots
      && r'.shared.head == r.shared.head && r'.shared.slotSize == r.shared.slotSize
         && r'.shared.capacity == r.shared.capacity
      && r'.taken == r.taken + (if a.ReleaseStoreTail? && r.consumer.Releasing? then 1 else 0)
      && (a.ReadByte? ==> r'.consumer == r.consumer)
      && (a.ReleaseLoadTail? && r.consumer.Consuming? ==> r'.consumer.Releasing?)
  {
    RS.StepInv(r, a);
    hide RS.Inv, And;
  }

  lemma SameEmitter(x: Sys, x': Sys)
    requires x.ring.shared.capacity > 0 && EmitterOk(x)
    requires x'.ring.shared.capacity == x.ring.shared.capacity && x'.ring.shared.slotSize == x.ring.shared.slotSize
    requires x'.ring.shared.slots == x.ring.shared.slots && x'.ring.shared.head == x.ring.shared.head
    requires x'.ring.producer == x.ring.producer
    requires x'.emitter == x.emitter && x'.todo == x.todo && x'.emitSlot == x.emitSlot
    ensures EmitterOk(x')
  {
    hide Message, Encodable, Refusal;
  }

  /** The bytes the poller reads are those that were published. */
  lemma HeldIsPublished(r: RS.Ring, at: nat)
    requires RS.Inv(r) && r.consumer.Consuming?
    ensures r.taken < |r.published| && |r.published[r.taken]| == r.shared.slotSize
    ensures at < r.shared.slotSize ==> HeldByte(r, at) == r.published[r.taken][at]
  {
    RS.ReleaseDequeues(r);
  }

  lemma SameReadUp(b: Base, x: Sys, x': Sys)
    requires ReadUp(b, x) && x'.ring.published == x.ring.published && Consumed(x') == Consumed(x)
    requires x'.delivered == x.delivered && x'.pollSlot == x.pollSlot
    ensures ReadUp(b, x')
  {}

  lemma OneMoreEvent(b: Base, x: Sys, x': Sys)
    requires ReadUp(b, x) && x'.ring.published == x.ring.published
             && Consumed(x') == Consumed(x) + 1 <= |x.ring.published|
    requires x'.pollSlot == x.pollSlot
    requires var slot := x.ring.published[Consumed(x)];
      if Sees(x.pollSlot, slot) == Refused then x'.delivered == x.delivered
      else |x'.delivered| > 0 && x'.delivered[..|x'.delivered| - 1] == x.delivered
           && Shows(x.pollSlot, slot, x'.delivered[|x'.delivered| - 1])
    ensures ReadUp(b, x')
  {
    hide Sees, Shows;
    var p := x.ring.published;
    var slots, now := p[b.consumed..Consumed(x) + 1], x'.delivered[|b.delivered|..];
    assert slots[..|slots| - 1] == p[b.consumed..Consumed(x)];
    if Sees(x.pollSlot, p[Consumed(x)]) != Refused {
      assert now[..|now| - 1] == x.delivered[|b.delivered|..];
    }
  }

  /** What is left to show of a step of the poller. */
  lemma PollerMoves(b: Base, x: Sys, x': Sys, a: RS.Action)
    requires Good(b, x) && x'.ring == RS.Step(x.ring, a)
    requires a.ConsumeLoadTail? || a.ConsumeLoadHead? || a.ReadByte? || a.ReleaseLoadTail? || a.ReleaseStoreTail?
    requires x'.emitter == x.emitter && x'.todo == x.todo && x'.emitSlot == x.emitSlot && x'.done == x.done
    requires PollerOk(x') && ReadUp(b, x')
    ensures Good(b, x')
  {
    Parts(b, x);
    PollerSide(x.ring, a);
    hide RS.Inv, RS.Step, EmitterOk, PollerOk, ReadUp, Recorded;
    SameEmitter(x, x');
  }

  lemma PollerThinks(b: Base, x: Sys, x': Sys)
    requires Good(b, x) && x'.ring == x.ring
    requires x'.emitter == x.emitter && x'.todo == x.todo && x'.emitSlot == x.emitSlot && x'.done == x.done
    requires PollerOk(x') && ReadUp(b, x')
    ensures Good(b, x')
  {
    Parts(b, x);
    hide RS.Inv, EmitterOk, PollerOk, ReadUp, Recorded;
    SameEmitter(x, x');
  }

  lemma HeaderGrows(header: seq<byte>, slot: seq<byte>)
    requires HeaderRead(header, slot) && |header| < Min(FC.HDR_LEN, |slot|)
    ensures HeaderRead(header + [slot[|header|]], slot)
  {
    assert slot[..|header| + 1] == slot[..|header|] + [slot[|header|]];
  }

  lemma ReadStep(b: Base, x: Sys, wild: byte)
    requires Good(b, x) && x.poller.Reading?
    ensures Good(b, PollStep(x, wild))
  {
    hide Good, RS.Inv, RS.Step, EmitterOk, Recorded, ReadUp, HeldByte, ByteAt, Look, Sees, Shows, HeaderRead,
         PayloadRead, Reach, Breaks;
    Parts(b, x);
    var header, x' := x.poller.header, PollStep(x, wild);
    var size, slot := x.ring.shared.slotSize, x.ring.published[x.ring.taken];
    HeldIsPublished(x.ring, |header|);
    if |header| < Min(FC.HDR_LEN, size) {
      PollerSide(x.ring, RS.ReadByte(|header|));
      HeaderGrows(header, slot);
      SameReadUp(b, x, x');
      PollerMoves(b, x, x', RS.ReadByte(|header|));
    } else {
      assert header == slot[..Min(FC.HDR_LEN, size)] by { WholeHeader(header, slot); }
      Decides(x, header, slot);
      if Look(header, x.pollSlot) == Refused {
        PollerSide(x.ring, RS.ReleaseLoadTail);
        OneMoreEvent(b, x, x');
        PollerMoves(b, x, x', RS.ReleaseLoadTail);
      } else {
        SameReadUp(b, x, x');
        PollerThinks(b, x, x');
      }
    }
  }

  lemma WholeHeader(header: seq<byte>, slot: seq<byte>)
    requires HeaderRead(header, slot) && |header| >= Min(FC.HDR_LEN, |slot|)
    ensures header == slot[..Min(FC.HDR_LEN, |slot|)]
  {}

  /** The whole header decides what is done with the slot. */
  lemma Decides(x: Sys, header: seq<byte>, slot: seq<byte>)
    requires x.ring.shared.capacity > 0
    requires header == slot[..Min(FC.HDR_LEN, |slot|)]
    ensures Look(header, x.pollSlot) == Sees(x.pollSlot, slot)
    ensures match Look(header, x.pollSlot)
      case Refused => true
      case Wanted(f, n) =>
        (if n == 0 || f.payloadRef + n <= Reach(x) then PayloadRead(f, n, [], x.pollSlot, slot)
         else Breaks(x.(poller := Broken), slot))
      case Wrapped => Breaks(x.(poller := Broken), slot)
  {
    hide Look, Product, And;
  }

  /** One byte more of the payload, the slot's own if it lies in the slot. */
  lemma CopyOne(f: FC.Frame, n: nat, got: seq<byte>, pollSlot: u32, slot: seq<byte>, next: byte)
    requires PayloadRead(f, n, got, pollSlot, slot)
    requires f.payloadRef + |got| < |slot| ==> next == slot[f.payloadRef + |got|]
    ensures |got| < n ==> PayloadRead(f, n, got + [next], pollSlot, slot)
    ensures |got| == n ==> Shows(pollSlot, slot, BC.Event(f, got)) && Sees(pollSlot, slot) != Refused
    ensures |got| <= n
  {
    hide Sees;
  }

  lemma HeldFirst(r: RS.Ring, at: nat, wild: byte)
    requires r.shared.capacity > 0
    ensures at < r.shared.slotSize ==> ByteAt(r, at, wild) == HeldByte(r, at)
  {
    hide HeldByte, Held;
  }

  lemma CopyStep(b: Base, x: Sys, wild: byte)
    requires Good(b, x) && x.poller.Copying?
    ensures Good(b, PollStep(x, wild))
  {
    hide Good, RS.Inv, RS.Step, EmitterOk, Recorded, ReadUp, ByteAt, Look, Sees, Shows, PayloadRead,
         Reach, Breaks;
    Parts(b, x);
    var f, n, got, x' := x.poller.frame, x.poller.n, x.poller.got, PollStep(x, wild);
    var slot := x.ring.published[x.ring.taken];
    HeldIsPublished(x.ring, f.payloadRef + |got|);
    HeldFirst(x.ring, f.payloadRef + |got|, wild);
    CopyOne(f, n, got, x.pollSlot, slot, ByteAt(x.ring, f.payloadRef + |got|, wild));
    if |got| < n {
      PollerSide(x.ring, RS.ReadByte(f.payloadRef + |got|));
      SameReadUp(b, x, x');
      PollerMoves(b, x, x', RS.ReadByte(f.payloadRef + |got|));
    } else {
      OneMoreEvent(b, x, x');
      PollerThinks(b, x, x');
    }
  }

  /** Taking up the next slot, or finding none. */
  lemma BeginStep(b: Base, x: Sys, wild: byte)
    requires Good(b, x) && (x.poller == Resting(false) || x.poller.Peeking?)
    ensures Good(b, PollStep(x, wild))
  {
    hide Good, RS.Inv, RS.Step, EmitterOk, Recorded, ReadUp, HeldByte, ByteAt, Look, Sees, Shows, HeaderRead,
         PayloadRead, Reach, Breaks;
    Parts(b, x);
    var x' := PollStep(x, wild);
    var a := if x.poller.Peeking? then RS.ConsumeLoadHead else RS.ConsumeLoadTail;
    PollerSide(x.ring, a);
    ConsumeEffects(x.ring);
    if RS.Step(x.ring, a).consumer.Consuming? {
      HeldIsPublished(RS.Step(x.ring, a), 0);
      EmptyHeader(RS.Step(x.ring, a).published[RS.Step(x.ring, a).taken]);
    }
    SameReadUp(b, x, x');
    PollerMoves(b, x, x', a);
  }

  lemma ConsumeEffects(r: RS.Ring)
    requires r.shared.capacity > 0
    ensures r.consumer.ConsumerIdle? ==> RS.Step(r, RS.ConsumeLoadTail).consumer.LoadedTail?
    ensures r.consumer.LoadedTail? ==>
              RS.Step(r, RS.ConsumeLoadHead).consumer.Consuming?
                || RS.Step(r, RS.ConsumeLoadHead).consumer.ConsumerIdle?
    ensures r.consumer.Consuming? ==> RS.Step(r, RS.ReleaseLoadTail).consumer.Releasing?
    ensures r.consumer.Releasing? ==> RS.Step(r, RS.ReleaseStoreTail).consumer.ConsumerIdle?
  {}

  /** Giving a slot back. */
  lemma ReleaseStep(b: Base, x: Sys, wild: byte)
    requires Good(b, x) && (x.poller == Resting(true) || x.poller.Giving? || x.poller.Dropping?)
    ensures Good(b, PollStep(x, wild))
  {
    hide Good, RS.Inv, RS.Step, EmitterOk, Recorded, ReadUp, HeldByte, ByteAt, Look, Sees, Shows, HeaderRead,
         PayloadRead, Reach, Breaks;
    Parts(b, x);
    var x' := PollStep(x, wild);
    var a := if x.poller.Resting? then RS.ReleaseLoadTail else RS.ReleaseStoreTail;
    PollerSide(x.ring, a);
    ConsumeEffects(x.ring);
    SameReadUp(b, x, x');
    PollerMoves(b, x, x', a);
  }

  lemma EmptyHeader(slot: seq<byte>)
    ensures HeaderRead([], slot)
  {}

  lemma StepGood(b: Base, x: Sys, turn: Turn)
    requires Good(b, x)
    ensures Good(b, Step(x, turn))
  {
    match turn
    case Emits => EmitGood(b, x);
    case Polls(wild) =>
      if x.poller.Reading? { ReadStep(b, x, wild); }
      else if x.poller.Copying? { CopyStep(b, x, wild); }
      else if x.poller == Resting(false) || x.poller.Peeking? { BeginStep(b, x, wild); }
      else if !x.poller.Broken? { ReleaseStep(b, x, wild); }
  }

  lemma {:induction false} RunGood(b: Base, x: Sys, turns: seq<Turn>)
    requires Good(b, x)
    ensures Good(b, Run(x, turns))
    decreases |turns|
  {
    hide Good, Step;
    if turns != [] {
      GoodHasRoom(b, x);
      StepGood(b, x, turns[0]);
      RunGood(b, Step(x, turns[0]), turns[1..]);
    }
  }

  lemma GoodHasRoom(b: Base, x: Sys)
    requires Good(b, x)
    ensures x.ring.shared.capacity > 0
  {}

  // ---------------------------------------------------------------- the answers

  /** Why an order was answered as it was; fullness is left to `BlockedWhenFull`. */
  predicate Answer(emitSlot: u32, slotSize: nat, d: Done) {
    var refusal := Refusal(emitSlot, slotSize, d.order);
    if refusal != BC.NoError then d.err == refusal
    else d.err == BC.ErrWouldBlock || d.err == (if Encodable(d.order, slotSize) then BC.NoError else BC.ErrProtocol)
  }

  /** The orders are answered one after another, each for its own reasons. */
  ghost predicate Answered(program: seq<Order>, x: Sys) {
    && |x.done| <= |program| && x.todo == program[|x.done|..]
    && (forall i :: 0 <= i < |x.done| ==>
          x.done[i].order == program[i] && Answer(x.emitSlot, x.ring.shared.slotSize, x.done[i]))
  }

  lemma StepAnswered(b: Base, program: seq<Order>, x: Sys, turn: Turn)
    requires Good(b, x) && Answered(program, x)
    ensures Answered(program, Step(x, turn))
  {
    hide Good, EmitStep, PollStep, EmitterOk, Answered, RS.Inv, PollerOk, ReadUp, Recorded;
    Parts(b, x);
    match turn
    case Emits => EmitAnswered(program, x);
    case Polls(wild) =>
      PollLeaves(x, wild);
      StillAnswered(program, x, PollStep(x, wild));
  }

  lemma StillAnswered(program: seq<Order>, x: Sys, x': Sys)
    requires Answered(program, x) && x'.done == x.done && x'.todo == x.todo && x'.emitSlot == x.emitSlot
    requires x'.ring.shared.slotSize == x.ring.shared.slotSize
    ensures Answered(program, x')
  {
    hide Answer;
  }

  lemma EmitAnswered(program: seq<Order>, x: Sys)
    requires x.ring.shared.capacity > 0 && EmitterOk(x) && Answered(program, x)
    ensures Answered(program, EmitStep(x))
  {
    hide EmitStep, EmitterOk, Answer;
    NoOrder(x);
    if x.todo != [] {
      EmitAnswers(x);
      assert program[|x.done|..][1..] == program[|x.done| + 1..];
    }
  }

  lemma NoOrder(x: Sys)
    requires x.ring.shared.capacity > 0
    ensures x.todo == [] ==> EmitStep(x) == x
  {
    hide RS.Step, Refusal, Encodable, Message, Cleared;
  }

  lemma PollLeaves(x: Sys, wild: byte)
    requires x.ring.shared.capacity > 0
    ensures var x' := PollStep(x, wild); x' == x.(ring := x'.ring, poller := x'.poller, delivered := x'.delivered)
  {
    hide RS.Step, Look, ByteAt, HeldByte, Reach;
  }

  /** A step of the emitter goes on with its order or answers it. */
  lemma EmitAnswers(x: Sys)
    requires x.ring.shared.capacity > 0 && EmitterOk(x) && x.todo != []
    ensures var x' := EmitStep(x);
      x'.emitSlot == x.emitSlot
      && ((x'.done == x.done && x'.todo == x.todo)
          || (x'.todo == x.todo[1..] && |x'.done| == |x.done| + 1 && x'.done[..|x.done|] == x.done
              && x'.done[|x.done|].order == x.todo[0] && Answer(x.emitSlot, x.ring.shared.slotSize, x'.done[|x.done|])))
  {
    AnswerOk(x.emitSlot, x.ring.shared.slotSize, x.todo[0]);
    hide RS.Step, Refusal, Encodable, Message, Holds, Answer, Cleared;
  }

  lemma AnswerOk(emitSlot: u32, slotSize: nat, o: Order)
    ensures var e := Refusal(emitSlot, slotSize, o);
      && (e != BC.NoError ==> Answer(emitSlot, slotSize, Done(o, e)))
      && (e == BC.NoError ==> Answer(emitSlot, slotSize, Done(o, BC.ErrWouldBlock)))
      && (e == BC.NoError && Encodable(o, slotSize) ==> Answer(emitSlot, slotSize, Done(o, BC.NoError)))
      && (e == BC.NoError && !Encodable(o, slotSize) ==> Answer(emitSlot, slotSize, Done(o, BC.ErrProtocol)))
  {
    hide Refusal, Encodable;
  }

  lemma {:induction false} RunAnswered(b: Base, program: seq<Order>, x: Sys, turns: seq<Turn>)
    requires Good(b, x) && Answered(program, x)
    ensures Good(b, Run(x, turns)) && Answered(program, Run(x, turns))
    ensures var x' := Run(x, turns);
      x'.emitSlot == x.emitSlot && x'.pollSlot == x.pollSlot && x'.behind == x.behind
    decreases |turns|
  {
    hide Good, Answered, EmitStep, PollStep;
    if turns != [] {
      GoodHasRoom(b, x);
      StepGood(b, x, turns[0]);
      StepAnswered(b, program, x, turns[0]);
      SameSizes(x, turns[0]);
      RunAnswered(b, program, Step(x, turns[0]), turns[1..]);
    }
  }

  lemma SameSizes(x: Sys, turn: Turn)
    requires x.ring.shared.capacity > 0
    ensures Step(x, turn).emitSlot == x.emitSlot && Step(x, turn).pollSlot == x.pollSlot
    ensures Step(x, turn).behind == x.behind
  {
    hide RS.Step, Refusal, Encodable, Message, Look, ByteAt, Reach;
  }

  /** An order waits for room exactly when the queue is full at its deciding load. */
  lemma BlockedWhenFull(b: Base, x: Sys)
    requires Good(b, x) && x.emitter.Loaded?
    ensures var x' := EmitStep(x);
      |RS.Queue(x.ring)| == x.ring.shared.capacity <==>
        x'.emitter.Ready? && x'.done == x.done + [Done(x.todo[0], BC.ErrWouldBlock)]
  {
    RS.OtherStepsStutter(x.ring, RS.ProduceLoadTail);
    hide RS.SlotsOk, RS.SeenOk, Recorded, ReadUp, PollerOk;
  }

  // ------------------------------------------------------------- main results

  /** In every interleaving with a poller, exactly the successful orders are published, in order, each with every
      byte written: a write survives whatever the poller does until the head is stored. */
  lemma PublishedAreSent(x: Sys, turns: seq<Turn>)
    requires Quiet(x)
    ensures var x' := Run(x, turns);
      Recorded(x.ring.published, x'.ring.published, x'.done, x.ring.shared.slotSize) && Answered(x.todo, x')
      && x.ring.published <= x'.ring.published
  {
    QuietIsGood(x);
    RunAnswered(BaseOf(x), x.todo, x, turns);
    hide RS.Inv, EmitterOk, PollerOk, ReadUp, Placed, Answered, Run, Successes;
  }

  /** In every interleaving with an emitter, the events delivered show the slots passed, in order and each once,
      although header and payload are read a byte at a time: each has the header published and every byte of the
      payload that lies in the slot. For slots of the size the poller was told that is the whole event. */
  lemma ReadAreWhole(x: Sys, turns: seq<Turn>)
    requires Quiet(x)
    ensures var x' := Run(x, turns);
      Consumed(x) <= Consumed(x') <= |x'.ring.published| && x.delivered <= x'.delivered
      && var passed := x'.ring.published[Consumed(x)..Consumed(x')];
         Shown(x.pollSlot, passed, x'.delivered[|x.delivered|..])
         && (x.pollSlot == x.ring.shared.slotSize ==> x'.delivered == x.delivered + BC.Events(passed))
  {
    hide Quiet, Good, Run, Answered, Shown, ReadUp, BC.Events, Consumed;
    QuietSizes(x);
    QuietIsGood(x);
    AnsweredAtFirst(x);
    RunAnswered(BaseOf(x), x.todo, x, turns);
    GoodIsRead(BaseOf(x), Run(x, turns));
  }

  lemma QuietSizes(x: Sys)
    requires Quiet(x)
    ensures x.ring.shared.capacity > 0
  {}

  /** What `ReadUp` says, and that it says it of whole events if the poller knows the slot size. */
  lemma GoodIsRead(b: Base, x: Sys)
    requires Good(b, x)
    ensures b.consumed <= Consumed(x) <= |x.ring.published| && b.delivered <= x.delivered
    ensures var passed := x.ring.published[b.consumed..Consumed(x)];
      Shown(x.pollSlot, passed, x.delivered[|b.delivered|..])
      && (x.pollSlot == x.ring.shared.slotSize ==> x.delivered == b.delivered + BC.Events(passed))
  {
    hide EmitterOk, PollerOk, Recorded, Shown, RS.ProducerOk, RS.ConsumerOk, RS.SeenOk, BC.Events, Consumed;
    var passed, shown := x.ring.published[b.consumed..Consumed(x)], x.delivered[|b.delivered|..];
    if x.pollSlot == x.ring.shared.slotSize {
      assert forall i :: 0 <= i < |passed| ==> |passed[i]| == x.ring.shared.slotSize;
      ShownAreEvents(x.pollSlot, passed, shown);
      assert x.delivered == b.delivered + shown;
    }
  }

  /** Exactly when an event is the slot's own: the payload named must end within the ring's slot. A poller told more
      than the slot size returns bytes of later slots, or from behind the ring, with the others. */
  lemma WholeWhenContained(pollSlot: u32, slot: seq<byte>, e: BC.Event)
    requires Shows(pollSlot, slot, e)
    ensures Contained(pollSlot, slot) <==>
            e.payload == [] || (e.frame.payloadRef + |e.payload| <= |slot|
                                && e.payload == slot[e.frame.payloadRef..e.frame.payloadRef + |e.payload|])
    ensures !Contained(pollSlot, slot) ==> |slot| < e.frame.payloadRef + |e.payload| <= pollSlot
  {
    hide FC.Decode, FC.Has;
  }

  /** Exactly when the poller panics on the slot it holds, once it knows its header. */
  lemma PanicsWhenBeyond(b: Base, x: Sys, wild: byte)
    requires Good(b, x) && x.poller.Reading? && |x.poller.header| == Min(FC.HDR_LEN, x.ring.shared.slotSize)
    ensures x.ring.shared.capacity > 0 && x.ring.taken < |x.ring.published|
    ensures PollStep(x, wild).poller.Broken? <==> Breaks(x, x.ring.published[x.ring.taken])
  {
    hide Good, EmitterOk, Recorded, ReadUp, RS.Inv, RS.Step, Look, Reach;
    Parts(b, x);
    HeldIsPublished(x.ring, 0);
    WholeHeader(x.poller.header, x.ring.published[x.ring.taken]);
  }

  /** A poller that was told no more than the slot size returns the slot's own bytes only. */
  lemma SmallIsContained(pollSlot: u32, slot: seq<byte>)
    requires pollSlot <= |slot|
    ensures Contained(pollSlot, slot)
  {
    hide FC.Decode, FC.Has;
  }

  /** A poller that knows the slot size right polls as `BusClient.PollSlot` says. */
  lemma ShowsIsPoll(slot: seq<byte>, e: BC.Event)
    requires |slot| < TWO32
    ensures Sees(|slot|, slot) == Refused <==> BC.PollSlot(slot) == BC.Skipped
    ensures Sees(|slot|, slot) == Wrapped <==> BC.PollSlot(slot) == BC.Panicked
    ensures Shows(|slot|, slot, e) ==> BC.PollSlot(slot) == BC.Got(e)
  {
    HeaderDecodes(slot);
    hide FC.Decode, FC.Has;
    if Shows(|slot|, slot, e) {
      SmallIsContained(|slot|, slot);
      WholeWhenContained(|slot|, slot, e);
    }
  }

  lemma {:induction false} ShownAreEvents(pollSlot: u32, slots: seq<seq<byte>>, events: seq<BC.Event>)
    requires Shown(pollSlot, slots, events)
    requires forall i :: 0 <= i < |slots| ==> |slots[i]| == pollSlot
    ensures events == BC.Events(slots)
  {
    hide Sees, Shows, BC.PollSlot;
    if slots != [] {
      var front, last := slots[..|slots| - 1], slots[|slots| - 1];
      assert slots == front + [last];
      BC.EventsAppend(front, [last]);
      BC.EventsOne(last);
      if Sees(pollSlot, last) == Refused {
        ShownAreEvents(pollSlot, front, events);
        ShowsIsPoll(last, BC.Event(NoFrame(), []));
      } else {
        var n := |events| - 1;
        ShownAreEvents(pollSlot, front, events[..n]);
        ShowsIsPoll(last, events[n]);
        assert events == events[..n] + [events[n]];
      }
    }
  }

  function NoFrame(): FC.Frame { FC.Frame(0, 0, 0, 0, 0, 0, 0, 0, 0, 0, 0, 0) }

  /** Both clients were told the ring's own slot size. */
  predicate SameSlots(x: Sys) { x.emitSlot == x.ring.shared.slotSize == x.pollSlot }

  /** The events of orders. */
  function EventsOf(orders: seq<Order>): seq<BC.Event> {
    if orders == [] then [] else EventsOf(orders[..|orders| - 1]) + EventOf(orders[|orders| - 1])
  }

  function EventOf(o: Order): seq<BC.Event> {
    match o
    case Emit(_, _, _, payload, _, _, _) => [BC.Event(FrameOf(o), payload)]
    case Foreign(image) => (match BC.PollSlot(image) case Got(e) => [e] case _ => [])
  }

  /** Nothing foreign makes the poller panic, neither unread at the start nor published later. */
  ghost predicate Harmless(x: Sys) {
    && Consumed(x) <= |x.ring.published|
    && (forall i :: Consumed(x) <= i < |x.ring.published| ==> !BC.PollSlot(x.ring.published[i]).Panicked?)
    && (forall o :: o in x.todo && o.Foreign? ==> !BC.PollSlot(o.image).Panicked?)
  }

  lemma HeaderDecodes(slot: seq<byte>)
    ensures var header := slot[..Min(FC.HDR_LEN, |slot|)];
      (FC.Decode(header).Decoded? <==> FC.Decode(slot).Decoded?)
      && (FC.Decode(slot).Decoded? ==> FC.Decode(header) == FC.Decode(slot))
  {
    hide FC.Decode, FC.Bytes, FC.Validate;
    var header := slot[..Min(FC.HDR_LEN, |slot|)];
    if |slot| >= FC.HDR_LEN {
      assert slot == header + slot[FC.HDR_LEN..] && header == header + [];
      if FC.Decode(slot).Decoded? { SameHeader(slot, header, FC.Decode(slot).frame); }
      if FC.Decode(header).Decoded? { SameHeader(header, slot, FC.Decode(header).frame); }
    } else {
      assert header == slot;
    }
  }

  lemma SameHeader(a: seq<byte>, b: seq<byte>, f: FC.Frame)
    requires |a| >= FC.HDR_LEN && |b| >= FC.HDR_LEN && a[..FC.HDR_LEN] == b[..FC.HDR_LEN]
             && FC.Decode(a) == FC.Decoded(f)
    ensures FC.Decode(b) == FC.Decoded(f)
  {
    hide FC.Decode, FC.Bytes, FC.Validate;
    FC.BytesOfDecode(a);
    assert b == FC.Bytes(f) + b[FC.HDR_LEN..];
    FC.DecodeOfBytes(f, b[FC.HDR_LEN..]);
  }

  /** The slot of a successful order yields exactly its event. */
  lemma PlacedYields(o: Order, slotSize: u32, slot: seq<byte>)
    requires Placed(o, slotSize, slot) && Refusal(slotSize, slotSize, o) == BC.NoError
    ensures match BC.PollSlot(slot)
      case Got(e) => EventOf(o) == [e]
      case Skipped => EventOf(o) == []
      case Panicked => EventOf(o) == [] && o.Foreign? && BC.PollSlot(o.image).Panicked?
  {
    hide BC.PollSlot, FC.Validate, FC.Bytes, BC.EmitFrame;
    if o.Emit? {
      ModUnique(|o.payload|, TWO32, 0, |o.payload|);
      var f, m := FrameOf(o), Message(o, slotSize);
      if o.payload == [] {
        assert m == FC.Bytes(f);
      }
      assert m == FC.Bytes(f) + o.payload;
      assert slot[..FC.HDR_LEN] == m[..FC.HDR_LEN] && slot[FC.HDR_LEN..|m|] == m[FC.HDR_LEN..];
      BC.PollOfCarried(slot, o.flags, o.kind, o.correlation, o.payload, o.handle);
    } else {
      assert slot[..|slot|] == slot && o.image[..|o.image|] == o.image;
    }
  }

  ghost predicate AllPlaced(orders: seq<Order>, slotSize: u32, slots: seq<seq<byte>>) {
    |slots| == |orders|
    && forall i :: 0 <= i < |orders| ==>
         Placed(orders[i], slotSize, slots[i]) && Refusal(slotSize, slotSize, orders[i]) == BC.NoError
         && (orders[i].Foreign? ==> !BC.PollSlot(orders[i].image).Panicked?)
  }

  lemma {:induction false} EventsOfPlaced(orders: seq<Order>, slotSize: u32, slots: seq<seq<byte>>)
    requires AllPlaced(orders, slotSize, slots)
    ensures BC.Events(slots) == EventsOf(orders)
    ensures forall i :: 0 <= i < |slots| ==> !BC.PollSlot(slots[i]).Panicked?
  {
    hide BC.PollSlot, Placed, Refusal, EventOf;
    if slots != [] {
      var n := |slots| - 1;
      EventsOfPlaced(orders[..n], slotSize, slots[..n]);
      PlacedYields(orders[n], slotSize, slots[n]);
      assert slots == slots[..n] + [slots[n]];
      BC.EventsAppend(slots[..n], [slots[n]]);
      BC.EventsOne(slots[n]);
      forall i | 0 <= i < |slots| ensures !BC.PollSlot(slots[i]).Panicked? {
        if i < n { assert slots[..n][i] == slots[i]; }
      }
    }
  }

  lemma {:induction false} SuccessIsAnswered(done: seq<Done>, o: Order)
    requires o in Successes(done)
    ensures exists i :: 0 <= i < |done| && done[i] == Done(o, BC.NoError)
  {
    var last := done[|done| - 1];
    if o in Successes(done[..|done| - 1]) {
      SuccessIsAnswered(done[..|done| - 1], o);
      var i :| 0 <= i < |done| - 1 && done[..|done| - 1][i] == Done(o, BC.NoError);
      assert done[i] == Done(o, BC.NoError);
    } else {
      assert done[|done| - 1] == Done(o, BC.NoError);
    }
  }

  /** The successful orders are among the given ones, were refused by no test, and sit in their slots. */
  lemma SuccessesPlaced(x: Sys, x': Sys)
    requires Harmless(x) && SameSlots(x) && x'.emitSlot == x.emitSlot
             && x'.ring.shared.slotSize == x.ring.shared.slotSize
    requires Answered(x.todo, x') && Recorded(x.ring.published, x'.ring.published, x'.done, x.ring.shared.slotSize)
    ensures AllPlaced(Successes(x'.done), x.emitSlot, x'.ring.published[|x.ring.published|..])
  {
    hide Placed, Refusal, Encodable, BC.PollSlot, Consumed;
    var orders, size := Successes(x'.done), x.emitSlot;
    forall i | 0 <= i < |orders|
      ensures Refusal(size, size, orders[i]) == BC.NoError
      ensures orders[i].Foreign? ==> !BC.PollSlot(orders[i].image).Panicked?
    {
      SuccessIsAnswered(x'.done, orders[i]);
      var k :| 0 <= k < |x'.done| && x'.done[k] == Done(orders[i], BC.NoError);
      assert Answer(x'.emitSlot, size, x'.done[k]);
      assert x.todo[k] in x.todo;
    }
  }

  /** `emit` and `Poll` through one ring, in every interleaving of their atomic steps: what is delivered is, in
      order and each once, the unread events of the start and then the events of exactly the successful orders,
      with the flags, kind, correlation and payload given; what is missing is still queued. */
  lemma DeliveredAreAccepted(x: Sys, turns: seq<Turn>)
    requires Quiet(x) && SameSlots(x) && Harmless(x)
    ensures var x' := Run(x, turns);
      var all := x.delivered + BC.Events(x.ring.published[Consumed(x)..]) + EventsOf(Successes(x'.done));
      Consumed(x') <= |x'.ring.published| && x'.delivered <= all && !x'.poller.Broken?
      && (Consumed(x') == |x'.ring.published| ==> x'.delivered == all)
  {
    SlotIsWord(x);
    NewEvents(x, turns);
    ReadAreWhole(x, turns);
    AnsweredAtFirst(x);
    hide Quiet, Harmless, Run, BC.Events, EventsOf, Successes, Consumed;
    var x' := Run(x, turns);
    var passed, ahead := x'.ring.published[Consumed(x)..Consumed(x')], x'.ring.published[Consumed(x')..];
    Regroup(x.ring.published, x'.ring.published, Consumed(x), Consumed(x'));
    Together(x.delivered, BC.Events(passed), BC.Events(ahead),
             BC.Events(x.ring.published[Consumed(x)..]), EventsOf(Successes(x'.done)));
    NoEvents();
  }

  lemma NoEvents()
    ensures BC.Events([]) == []
  {}

  lemma Together(d: seq<BC.Event>, passed: seq<BC.Event>, ahead: seq<BC.Event>, queued: seq<BC.Event>,
      added: seq<BC.Event>)
    requires passed + ahead == queued + added
    ensures d + passed <= d + queued + added && (ahead == [] ==> d + passed == d + queued + added)
  {
    assert d + queued + added == d + (queued + added);
    assert d + passed + ahead == d + (passed + ahead);
  }

  /** What is published in a run yields the events of its successful orders, and the poller panics on nothing. */
  lemma NewEvents(x: Sys, turns: seq<Turn>)
    requires Quiet(x) && SameSlots(x) && Harmless(x)
    ensures var x' := Run(x, turns);
      x.ring.published <= x'.ring.published && !x'.poller.Broken?
      && BC.Events(x'.ring.published[|x.ring.published|..]) == EventsOf(Successes(x'.done))
  {
    SlotIsWord(x);
    PublishedAreSent(x, turns);
    QuietIsGood(x);
    AnsweredAtFirst(x);
    RunAnswered(BaseOf(x), x.todo, x, turns);
    hide Quiet, Harmless, Good, Answered, Recorded, Run, BC.Events, EventsOf, Successes, Consumed;
    var x' := Run(x, turns);
    SuccessesPlaced(x, x');
    EventsOfPlaced(Successes(x'.done), x.emitSlot, x'.ring.published[|x.ring.published|..]);
    NotBroken(x, x');
  }

  lemma AnsweredAtFirst(x: Sys)
    requires Quiet(x)
    ensures Answered(x.todo, x) && Consumed(x) <= |x.ring.published|
  {}

  /** The slots passed and those ahead are the slots unread at first and those added since. */
  lemma Regroup(before: seq<seq<byte>>, now: seq<seq<byte>>, from: nat, to: nat)
    requires before <= now && from <= to <= |now| && from <= |before|
    ensures BC.Events(before[from..]) + BC.Events(now[|before|..])
            == BC.Events(now[from..to]) + BC.Events(now[to..])
  {
    assert now[from..to] + now[to..] == now[from..] == before[from..] + now[|before|..];
    BC.EventsAppend(now[from..to], now[to..]);
    BC.EventsAppend(before[from..], now[|before|..]);
  }

  lemma SlotIsWord(x: Sys)
    requires Quiet(x)
    ensures x.ring.shared.slotSize < TWO32 && x.ring.shared.capacity > 0
  {}

  lemma NotBroken(x: Sys, x': Sys)
    requires Good(BaseOf(x), x') && x'.pollSlot == x.pollSlot && SameSlots(x) && Harmless(x)
    requires x'.ring.shared.slotSize == x.ring.shared.slotSize && x.ring.published <= x'.ring.published
    requires forall i :: 0 <= i < |x'.ring.published[|x.ring.published|..]| ==>
               !BC.PollSlot(x'.ring.published[|x.ring.published|..][i]).Panicked?
    ensures !x'.poller.Broken?
  {
    hide EmitterOk, Recorded, BC.PollSlot, Sees, Breaks, Reach;
    if x'.poller.Broken? {
      HeldIsPublished(x'.ring, 0);
      var slot := x'.ring.published[x'.ring.taken];
      ShowsIsPoll(slot, BC.Event(NoFrame(), []));
      NonePanics(x, x'.ring.published, x'.ring.taken);
      OnlyWraps(x', slot);
    }
  }

  /** A poller that knows the slot size right is never sent behind the mapping. */
  lemma OnlyWraps(x: Sys, slot: seq<byte>)
    requires x.ring.shared.capacity > 0 && x.pollSlot == x.ring.shared.slotSize && Breaks(x, slot)
    ensures Sees(x.pollSlot, slot) == Wrapped
  {
    hide FC.Decode, FC.Has, Product;
  }

  lemma NonePanics(x: Sys, published: seq<seq<byte>>, i: nat)
    requires Harmless(x) && x.ring.published <= published && Consumed(x) <= i < |published|
    requires forall k :: 0 <= k < |published[|x.ring.published|..]| ==>
             !BC.PollSlot(published[|x.ring.published|..][k]).Panicked?
    ensures !BC.PollSlot(published[i]).Panicked?
  {
    hide BC.PollSlot;
    if i >= |x.ring.published| { assert published[i] == published[|x.ring.published|..][i - |x.ring.published|]; }
  }

  // ----------------------------------------------------------------- the lease

  lemma EmitsKeep(x: Sys)
    requires x.ring.shared.capacity > 0
    ensures var x' := EmitStep(x);
      x'.ring.consumer == x.ring.consumer && x'.ring.taken == x.ring.taken && x'.poller == x.poller
  {
    hide Refusal, Encodable, Message, Cleared;
  }

  /** The payload of the last event stays as it is until the next poll: whatever the emitter does in between, step
      by step, every byte of the held slot is the published one. */
  lemma {:induction false} EventStays(b: Base, x: Sys, turns: seq<Turn>, at: nat)
    requires Good(b, x) && x.poller == Resting(true) && at < x.ring.shared.slotSize
    requires forall turn :: turn in turns ==> turn == Emits
    ensures var x' := Run(x, turns);
      x.ring.taken < |x.ring.published| && |x.ring.published[x.ring.taken]| == x.ring.shared.slotSize
      && HeldByte(x'.ring, at) == x.ring.published[x.ring.taken][at]
    decreases |turns|
  {
    hide Good, RS.Inv, HeldByte, EmitStep, PollStep;
    HeldNow(b, x);
    HeldIsPublished(x.ring, at);
    if turns != [] {
      assert turns[0] in turns;
      GoodHasRoom(b, x);
      StepGood(b, x, Emits);
      EmitsKeep(x);
      EmitGrows(b, x);
      assert forall turn :: turn in turns[1..] ==> turn in turns;
      EventStays(b, EmitStep(x), turns[1..], at);
    }
  }

  lemma HeldNow(b: Base, x: Sys)
    requires Good(b, x)
    ensures RS.Inv(x.ring) && (x.poller == Resting(true) ==> x.ring.consumer.Consuming?)
  {
    hide RS.Inv, EmitterOk, Recorded, ReadUp;
  }

  lemma EmitGrows(b: Base, x: Sys)
    requires Good(b, x)
    ensures x.ring.published <= EmitStep(x).ring.published
  {
    hide Good, Refusal, Encodable, Message, Cleared, RS.Step;
    GoodHasRoom(b, x);
    forall a: RS.Action ensures x.ring.published <= RS.Step(x.ring, a).published { RS.StepHistory(x.ring, a); }
  }

  /** A ring just attached, with nothing emitted or polled yet. */
  lemma FreshIsQuiet(s: RS.Shared, behind: nat, emitSlot: u32, pollSlot: u32, todo: seq<Order>)
    requires RC.Attachable(s)
    ensures Quiet(Sys(RC.Attach(s), behind, emitSlot, pollSlot, todo, Ready, [], Resting(false), []))
  {
    RC.AttachOk(s);
  }
}
