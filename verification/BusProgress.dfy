/** What `BusSteps` leaves open: that calls come to an end. Enough turns of the emitter answer every order, enough
    turns of the poller deliver every event, whatever the other side does meanwhile. */
module BusProgress {
  import opened Words
  import FC = FrameCodec
  import RC = RingCalls
  import RS = RingSteps
  import BC = BusClient
  import TD = TrainDelivery
  import opened BusSteps

  function EmitTurns(turns: seq<Turn>): nat {
    if turns == [] then 0 else (if turns[0].Emits? then 1 else 0) + EmitTurns(turns[1..])
  }

  function PollTurns(turns: seq<Turn>): nat {
    if turns == [] then 0 else (if turns[0].Polls? then 1 else 0) + PollTurns(turns[1..])
  }

  lemma {:induction false} RunAppend(x: Sys, a: seq<Turn>, b: seq<Turn>)
    requires x.ring.shared.capacity > 0
    ensures Run(x, a + b) == Run(Run(x, a), b)
    decreases |a|
  {
    hide Step;
    if a == [] {
      assert a + b == b;
    } else {
      assert (a + b)[1..] == a[1..] + b;
      RunAppend(Step(x, a[0]), a[1..], b);
    }
  }

  // ----------------------------------------------------------------- the poller

  /** How many turns the poller needs for one slot, at most. */
  function SlotCost(x: Sys): nat { x.pollSlot + FC.HDR_LEN + 7 }

  /** How many turns it still needs for the slot it is at, at most. */
  function Here(x: Sys): nat {
    var full := x.pollSlot + FC.HDR_LEN;
    match x.poller
    case Resting(pending) => if pending then full + 6 else full + 4
    case Giving => full + 5
    case Dropping => full + 5
    case Peeking => full + 3
    case Reading(header) => if |header| <= FC.HDR_LEN then full + 2 - |header| else 0
    case Copying(_, n, got) => if |got| <= n then n - |got| + 1 else 0
    case Broken => 0
  }

  /** How many turns it still needs for the first `target` slots, at most. */
  function Left(target: nat, x: Sys): nat {
    if Consumed(x) >= target then 0 else Product(target - Consumed(x) - 1, SlotCost(x)) + Here(x)
  }

  lemma WantedIsShort(pollSlot: u32, header: seq<byte>)
    ensures match Look(header, pollSlot) case Wanted(_, n) => n <= pollSlot case _ => true
  {
    hide FC.Decode, FC.Has;
  }

  /** What one turn of the poller does to the slot it is at. */
  lemma PollMoves(b: Base, x: Sys, wild: byte)
    requires Good(b, x) && Consumed(x) < |x.ring.published| && !PollStep(x, wild).poller.Broken?
    ensures var x' := PollStep(x, wild);
      x'.pollSlot == x.pollSlot
      && ((Consumed(x') == Consumed(x) && Here(x') < Here(x))
          || (Consumed(x') == Consumed(x) + 1 && Here(x) > 0 && Here(x') < SlotCost(x)))
  {
    hide Good, EmitterOk, Recorded, ReadUp, Look, ByteAt, HeldByte, Reach, RS.Inv, Sees, Shows, Breaks, RS.Step,
         FC.Decode;
    Parts(b, x);
    PollLeaves(x, wild);
    Taking(x.ring);
    HeaderIsShort(x);
    if x.poller.Reading? { WantedIsShort(x.pollSlot, x.poller.header); }
  }

  lemma HeaderIsShort(x: Sys)
    requires x.ring.shared.capacity > 0 && PollerOk(x)
    ensures x.poller.Reading? ==> |x.poller.header| <= FC.HDR_LEN
    ensures x.poller.Copying? ==> |x.poller.got| <= x.poller.n
  {
    hide Sees, Agrees;
  }

  /** The counters of the ring under the poller's steps. */
  lemma Taking(r: RS.Ring)
    requires RS.Inv(r)
    ensures forall at :: RS.Step(r, RS.ReadByte(at)).taken == r.taken
    ensures RS.Step(r, RS.ConsumeLoadTail).taken == r.taken
    ensures RS.Step(r, RS.ConsumeLoadHead).taken == r.taken
    ensures RS.Step(r, RS.ReleaseLoadTail).taken == r.taken
    ensures r.consumer.Releasing? ==> RS.Step(r, RS.ReleaseStoreTail).taken == r.taken + 1
    ensures r.consumer.LoadedTail? && r.taken < |r.published| ==> RS.Step(r, RS.ConsumeLoadHead).consumer.Consuming?
  {
    if r.consumer.LoadedTail? && r.taken < |r.published| { RC.EmptyGap(r.shared.head, r.shared.tail); GapOf(r); }
    hide RS.SlotsOk, RS.SeenOk;
  }

  lemma GapOf(r: RS.Ring)
    requires RS.Inv(r) && r.taken < |r.published|
    ensures r.shared.head != r.shared.tail
  {
    hide RS.SeenOk, RS.ProducerOk, RS.ConsumerOk;
    assert r.Head() - r.Tail() <= r.shared.capacity < TWO32;
    GapOfWrapped(r.Head(), r.Tail());
    if r.shared.head == r.shared.tail { ModUnique(0, TWO64, 0, 0); }
  }

  /** A turn of the poller brings it nearer. */
  lemma PollAdvances(b: Base, x: Sys, wild: byte, target: nat)
    requires Good(b, x) && target <= |x.ring.published| && !PollStep(x, wild).poller.Broken?
    requires Consumed(x) < target
    ensures Left(target, PollStep(x, wild)) < Left(target, x)
  {
    hide Good, PollStep, Here, Consumed;
    PollMoves(b, x, wild);
  }

  /** Nothing is unread again. */
  lemma ConsumedGrows(b: Base, x: Sys, turn: Turn)
    requires Good(b, x) && x.ring.shared.capacity > 0
    ensures Consumed(Step(x, turn)) >= Consumed(x)
  {
    hide Good, EmitterOk, Recorded, ReadUp, Look, ByteAt, HeldByte, Reach, RS.Inv, Sees, Shows, Breaks, RS.Step,
         EmitStep;
    Parts(b, x);
    if turn.Emits? { EmitsKeep(x); } else { Taking(x.ring); }
  }

  lemma BrokenStays(x: Sys, turn: Turn)
    requires x.ring.shared.capacity > 0 && x.poller.Broken?
    ensures Step(x, turn).poller.Broken?
  {
    hide EmitStep;
    EmitsKeep(x);
  }

  lemma {:induction false} BrokenRun(x: Sys, turns: seq<Turn>)
    requires x.ring.shared.capacity > 0 && x.poller.Broken?
    ensures Run(x, turns).poller.Broken?
    decreases |turns|
  {
    hide Step;
    if turns != [] {
      BrokenStays(x, turns[0]);
      BrokenRun(Step(x, turns[0]), turns[1..]);
    }
  }

  lemma Grows(b: Base, x: Sys, turn: Turn)
    requires Good(b, x) && x.ring.shared.capacity > 0
    ensures x.ring.published <= Step(x, turn).ring.published
  {
    hide Good, EmitStep, PollStep;
    match turn
    case Emits => EmitGrows(b, x);
    case Polls(wild) => PollPublishes(b, x, wild);
  }

  lemma PollPublishes(b: Base, x: Sys, wild: byte)
    requires Good(b, x) && x.ring.shared.capacity > 0
    ensures var x' := PollStep(x, wild);
      x'.ring.published == x.ring.published && x'.ring.producer == x.ring.producer
      && x'.ring.shared.head == x.ring.shared.head
  {
    hide Good, Look, ByteAt, HeldByte, Reach;
  }

  lemma EmitLeft(x: Sys, target: nat)
    requires x.ring.shared.capacity > 0
    ensures Left(target, EmitStep(x)) == Left(target, x)
  {
    hide EmitStep, Product;
    EmitsKeep(x);
    SameSizes(x, Emits);
  }

  /** Whatever the emitter does meanwhile, enough turns of the poller bring it through the first `target` slots. */
  lemma {:induction false} CatchesUp(b: Base, x: Sys, turns: seq<Turn>, target: nat)
    requires Good(b, x) && x.ring.shared.capacity > 0 && target <= |x.ring.published|
    requires !Run(x, turns).poller.Broken? && PollTurns(turns) >= Left(target, x)
    ensures Consumed(Run(x, turns)) >= target
    decreases |turns|
  {
    hide Good, Step, Consumed, Left, Here;
    if turns == [] {
      NothingLeft(b, x, target);
    } else {
      var turn, x1 := turns[0], Step(x, turns[0]);
      if x1.poller.Broken? { BrokenRun(x1, turns[1..]); }
      StepGood(b, x, turn);
      Grows(b, x, turn);
      LeftAfter(b, x, turn, target);
      CatchesUp(b, x1, turns[1..], target);
    }
  }

  lemma LeftAfter(b: Base, x: Sys, turn: Turn, target: nat)
    requires Good(b, x) && x.ring.shared.capacity > 0 && target <= |x.ring.published|
    requires !Step(x, turn).poller.Broken?
    ensures var left := Left(target, Step(x, turn));
      left == 0 || left + (if turn.Polls? then 1 else 0) <= Left(target, x)
  {
    hide Good, EmitStep, PollStep, Consumed, Here;
    match turn
    case Emits => EmitLeft(x, target);
    case Polls(wild) =>
      ConsumedGrows(b, x, turn);
      if Consumed(x) < target { PollAdvances(b, x, wild, target); }
  }

  lemma NothingLeft(b: Base, x: Sys, target: nat)
    requires Good(b, x) && Left(target, x) == 0 && !x.poller.Broken?
    ensures Consumed(x) >= target
  {
    hide Good, EmitterOk, Recorded, ReadUp, RS.Inv, Sees, Agrees, Product;
    Parts(b, x);
    HeaderIsShort(x);
  }

  /** The reader waits for nobody: whatever the emitter does meanwhile, every event unread at the start is delivered
      after a number of its own turns that depends on the number of events and the slot size only. */
  lemma UnreadArrive(x: Sys, turns: seq<Turn>)
    requires Quiet(x) && !Run(x, turns).poller.Broken?
    requires PollTurns(turns) >= (|x.ring.published| - Consumed(x) + 1) * SlotCost(x)
    ensures Consumed(Run(x, turns)) >= |x.ring.published|
  {
    hide Quiet, Run;
    QuietIsGood(x);
    QuietHasRoom(x);
    HereAtMost(BaseOf(x), x);
    LeftAtMost(x, |x.ring.published|);
    CatchesUp(BaseOf(x), x, turns, |x.ring.published|);
  }

  lemma QuietHasRoom(x: Sys)
    requires Quiet(x)
    ensures x.ring.shared.capacity > 0 && Consumed(x) <= |x.ring.published|
  {}

  lemma LeftAtMost(x: Sys, target: nat)
    requires Consumed(x) <= target && Here(x) <= SlotCost(x)
    ensures Left(target, x) <= (target - Consumed(x) + 1) * SlotCost(x)
  {
    hide Consumed, Here;
  }

  lemma HereAtMost(b: Base, x: Sys)
    requires Good(b, x)
    ensures Here(x) <= SlotCost(x)
  {
    hide Good, EmitterOk, Recorded, ReadUp, RS.Inv, Look, Agrees;
    Parts(b, x);
    HeaderIsShort(x);
    if x.poller.Copying? {
      var slot := x.ring.published[x.ring.taken];
      WantedIsShort(x.pollSlot, slot[..Min(FC.HDR_LEN, |slot|)]);
    }
  }

  // ---------------------------------------------------------------- the emitter

  /** How many turns the emitter needs for one order, at most. */
  function OrderCost(x: Sys): nat { x.ring.shared.slotSize + FC.HDR_LEN + 4 }

  /** How many turns it still needs for the order it is at, at most. */
  function Ahead(x: Sys): nat
    requires x.todo != []
  {
    var o, size := x.todo[0], x.ring.shared.slotSize;
    match x.emitter
    case Ready => OrderCost(x)
    case Loaded => OrderCost(x) - 1
    case Filling(n) =>
      var all := Cleared(o, size) + |Message(o, size)|;
      if !Encodable(o, size) then 1 else if n <= all then all - n + 2 else 0
    case Closing => 1
  }

  /** How many turns it still needs for all orders, at most. */
  function Work(x: Sys): nat {
    if x.todo == [] then 0 else Product(|x.todo| - 1, OrderCost(x)) + Ahead(x)
  }

  lemma EmitMoves(b: Base, x: Sys)
    requires Good(b, x) && x.todo != [] && x.ring.shared.capacity > 0
    ensures var x' := EmitStep(x);
      Ahead(x) > 0
      && ((x'.todo == x.todo && Ahead(x') < Ahead(x)) || (x'.todo == x.todo[1..] && x'.emitter.Ready?))
  {
    hide Good, PollerOk, Recorded, ReadUp, RS.Inv, RS.Step, Message, Encodable, Refusal;
    Parts(b, x);
    if x.emitter.Filling? && Encodable(x.todo[0], x.ring.shared.slotSize) { Filled(x); }
  }

  lemma Filled(x: Sys)
    requires x.ring.shared.capacity > 0 && EmitterOk(x) && x.todo != [] && x.emitter.Filling?
    requires Encodable(x.todo[0], x.ring.shared.slotSize)
    ensures var o, size := x.todo[0], x.ring.shared.slotSize;
      x.emitter.n <= Cleared(o, size) + |Message(o, size)|
  {
    hide Message, Encodable, Refusal;
  }

  lemma EmitAdvances(b: Base, x: Sys)
    requires Good(b, x) && x.todo != [] && x.ring.shared.capacity > 0
    ensures Work(EmitStep(x)) < Work(x)
  {
    hide Good, EmitStep, Message, Encodable;
    EmitMoves(b, x);
    var x' := EmitStep(x);
    if x'.todo == x.todo[1..] && x'.todo != [] { assert Ahead(x') == OrderCost(x); }
  }

  lemma PollWork(x: Sys, wild: byte)
    requires x.ring.shared.capacity > 0
    ensures Work(PollStep(x, wild)) == Work(x) && PollStep(x, wild).todo == x.todo
  {
    PollLeaves(x, wild);
    hide PollStep, Message, Encodable;
  }

  /** Whatever the poller does meanwhile, enough turns of the emitter answer every order. */
  lemma {:induction false} Answers(b: Base, x: Sys, turns: seq<Turn>)
    requires Good(b, x) && x.ring.shared.capacity > 0 && EmitTurns(turns) >= Work(x)
    ensures Run(x, turns).todo == []
    decreases |turns|
  {
    hide Good, EmitStep, PollStep, Message, Encodable, Work;
    NoWork(x);
    if turns == [] {
      Parts(b, x);
      if x.todo != [] { EmitAdvances(b, x); }
    } else {
      var turn := turns[0];
      StepGood(b, x, turn);
      match turn {
        case Emits => if x.todo == [] { NoOrder(x); } else { EmitAdvances(b, x); }
        case Polls(wild) => PollWork(x, wild);
      }
      Answers(b, Step(x, turn), turns[1..]);
    }
  }

  lemma NoWork(x: Sys)
    ensures x.todo == [] ==> Work(x) == 0
  {}

  // ------------------------------------------------------------------- together

  lemma {:induction false} NothingAdded(b: Base, x: Sys, turns: seq<Turn>)
    requires Good(b, x) && x.todo == [] && x.ring.shared.capacity > 0
    ensures Run(x, turns).ring.published == x.ring.published && Run(x, turns).todo == []
    ensures Run(x, turns).done == x.done
    decreases |turns|
  {
    hide Good, EmitStep, PollStep;
    if turns != [] {
      StepGood(b, x, turns[0]);
      match turns[0] {
        case Emits => NoOrder(x);
        case Polls(wild) => PollLeaves(x, wild); PollPublishes(b, x, wild);
      }
      NothingAdded(b, Step(x, turns[0]), turns[1..]);
    }
  }

  lemma Times(a: nat, b: nat, k: nat)
    requires a <= b
    ensures a * k <= b * k
  {}

  lemma WorkAtMost(x: Sys)
    requires x.emitter.Ready?
    ensures Work(x) <= |x.todo| * OrderCost(x)
  {
    if x.todo != [] { assert |x.todo| * OrderCost(x) == (|x.todo| - 1) * OrderCost(x) + OrderCost(x); }
  }

  lemma AtMostFull(b: Base, x: Sys)
    requires Good(b, x)
    ensures Consumed(x) <= |x.ring.published| <= Consumed(x) + x.ring.shared.capacity
  {
    hide EmitterOk, PollerOk, Recorded;
  }

  /** Enough turns of the emitter and then enough of the poller: every order is answered and every slot passed. */
  lemma AllPass(x: Sys, a: seq<Turn>, b: seq<Turn>)
    requires Quiet(x) && !Run(x, a + b).poller.Broken?
    requires EmitTurns(a) >= |x.todo| * OrderCost(x)
    requires PollTurns(b) >= (x.ring.shared.capacity + 1) * SlotCost(x)
    ensures var x' := Run(x, a + b);
      x'.todo == [] && |x'.done| == |x.todo| && Consumed(x') == |x'.ring.published| && Good(BaseOf(x), x')
  {
    hide Quiet, Good, Run, Consumed, Successes, Answered;
    QuietHasRoom(x);
    QuietIsGood(x);
    AnsweredAtFirst(x);
    QuietIsReady(x);
    var base, y, x' := BaseOf(x), Run(x, a), Run(x, a + b);
    RunAppend(x, a, b);
    WorkAtMost(x);
    Answers(base, x, a);
    RunAnswered(base, x.todo, x, a);
    RunAnswered(base, x.todo, x, a + b);
    NothingAdded(base, y, b);
    AtMostFull(base, y);
    AtMostFull(base, x');
    HereAtMost(base, y);
    LeftAtMost(y, |y.ring.published|);
    Times(|y.ring.published| - Consumed(y) + 1, x.ring.shared.capacity + 1, SlotCost(x));
    CatchesUp(base, y, b, |y.ring.published|);
    AllDone(x.todo, x');
  }

  /** Everything arrives. Let the two clients take turns in any order, with enough turns of the emitter and then enough
      of the poller: every order is answered, every slot passed, and what was delivered is the unread start and then
      the events of exactly the successful orders, each once. */
  lemma AllArrive(x: Sys, a: seq<Turn>, b: seq<Turn>)
    requires Quiet(x) && SameSlots(x) && Harmless(x)
    requires EmitTurns(a) >= |x.todo| * OrderCost(x)
    requires PollTurns(b) >= (x.ring.shared.capacity + 1) * SlotCost(x)
    ensures var x' := Run(x, a + b);
      x'.todo == [] && |x'.done| == |x.todo| && Consumed(x') == |x'.ring.published|
      && x'.delivered
         == x.delivered + BC.Events(x.ring.published[Consumed(x)..]) + EventsOf(Successes(x'.done))
  {
    hide Quiet, Harmless, Good, Run, Consumed, Successes, BC.Events;
    QuietHasRoom(x);
    AnsweredAtFirst(x);
    DeliveredAreAccepted(x, a + b);
    AllPass(x, a, b);
  }

  lemma QuietIsReady(x: Sys)
    requires Quiet(x)
    ensures x.emitter.Ready? && x.done == []
  {}

  lemma AllDone(program: seq<Order>, x: Sys)
    requires Answered(program, x) && x.todo == []
    ensures |x.done| == |program|
  {
    hide Answer;
  }

  /** The queue and the orders to come fit the ring, and none was told to wait. */
  ghost predicate RoomFor(x: Sys) {
    && |x.todo| + |x.ring.published| <= x.ring.taken + x.ring.shared.capacity
    && forall i :: 0 <= i < |x.done| ==> x.done[i].err != BC.ErrWouldBlock
  }

  lemma RoomInRing(r: RS.Ring)
    requires RS.Inv(r) && r.producer.LoadedHead? && |r.published| < r.taken + r.shared.capacity
    ensures RS.Step(r, RS.ProduceLoadTail).producer.Producing?
  {
    hide RS.SeenOk, And, SingleBit;
    GapOfWrapped(r.Head(), r.Tail());
  }

  lemma EmitRoom(b: Base, x: Sys)
    requires Good(b, x) && RoomFor(x) && x.ring.shared.capacity > 0
    ensures RoomFor(EmitStep(x))
  {
    hide Good, EmitterOk, PollerOk, Recorded, ReadUp, Message, Encodable, Cleared, RS.Inv;
    Parts(b, x);
    EmitsKeep(x);
    if x.todo != [] && x.emitter.Loaded? {
      LoadedIsLoaded(x);
      RoomInRing(x.ring);
    }
  }

  lemma LoadedIsLoaded(x: Sys)
    requires x.ring.shared.capacity > 0 && EmitterOk(x) && x.emitter.Loaded?
    ensures x.ring.producer.LoadedHead?
  {
    hide Refusal;
  }

  lemma PollRoom(b: Base, x: Sys, wild: byte)
    requires Good(b, x) && RoomFor(x) && x.ring.shared.capacity > 0
    ensures RoomFor(PollStep(x, wild))
  {
    hide Good, EmitterOk, PollerOk, Recorded, ReadUp, Look, ByteAt, HeldByte, Reach, RS.Inv;
    Parts(b, x);
    PollLeaves(x, wild);
  }

  /** Orders that fit behind the queue are never told to wait, however the steps interleave. */
  lemma {:induction false} RoomSuffices(b: Base, x: Sys, turns: seq<Turn>)
    requires Good(b, x) && RoomFor(x) && x.ring.shared.capacity > 0
    ensures RoomFor(Run(x, turns))
    decreases |turns|
  {
    hide Good, RoomFor, EmitStep, PollStep;
    if turns != [] {
      StepGood(b, x, turns[0]);
      match turns[0] {
        case Emits => EmitRoom(b, x);
        case Polls(wild) => PollRoom(b, x, wild);
      }
      RoomSuffices(b, Step(x, turns[0]), turns[1..]);
    }
  }

  // -------------------------------------------------------------- a single order

  /** A ring just attached and two clients with one order between them. */
  function Fresh(s: RS.Shared, behind: nat, emitSlot: u32, pollSlot: u32, o: Order): Sys
    requires s.capacity > 0 && |s.slots| == s.capacity
  {
    Sys(RC.Attach(s), behind, emitSlot, pollSlot, [o], Ready, [], Resting(false), [])
  }

  /** On an empty ring an order that no test refuses is carried out, and its slot is polled. */
  lemma OneOrder(s: RS.Shared, behind: nat, emitSlot: u32, pollSlot: u32, o: Order, a: seq<Turn>, b: seq<Turn>)
    requires RC.Attachable(s) && TD.Queued(s) == 0
    requires Refusal(emitSlot, s.slotSize, o) == BC.NoError && Encodable(o, s.slotSize)
    requires !Run(Fresh(s, behind, emitSlot, pollSlot, o), a + b).poller.Broken?
    requires EmitTurns(a) >= s.slotSize + FC.HDR_LEN + 4
    requires PollTurns(b) >= (s.capacity + 1) * (pollSlot + FC.HDR_LEN + 7)
    ensures var x' := Run(Fresh(s, behind, emitSlot, pollSlot, o), a + b);
      && x'.todo == [] && x'.done == [Done(o, BC.NoError)] && Successes(x'.done) == [o]
      && |x'.ring.published| == 1 == Consumed(x') && Placed(o, s.slotSize, x'.ring.published[0])
      && Shown(pollSlot, x'.ring.published, x'.delivered)
  {
    hide Quiet, Run, Placed, Refusal, Encodable, Good, RC.Attachable, RC.SlotsFrom, Shown, Answered, Recorded, RoomFor,
         Successes;
    FreshHasRoom(s);
    var x := Fresh(s, behind, emitSlot, pollSlot, o);
    FreshIsQuiet(s, behind, emitSlot, pollSlot, [o]);
    AllPass(x, a, b);
    PublishedAreSent(x, a + b);
    ReadAreWhole(x, a + b);
    QuietIsGood(x);
    FreshRoom(s, behind, emitSlot, pollSlot, o);
    RoomSuffices(BaseOf(x), x, a + b);
    var x' := Run(x, a + b);
    RunKeepsSizes(x, a + b);
    OneDone(o, x');
    FirstPlaced(x'.ring.published, x'.done, s.slotSize);
    assert x'.ring.published[0..1] == x'.ring.published;
    assert x'.delivered[0..] == x'.delivered;
  }

  lemma FreshRoom(s: RS.Shared, behind: nat, emitSlot: u32, pollSlot: u32, o: Order)
    requires RC.Attachable(s) && TD.Queued(s) == 0
    ensures s.capacity > 0 && |s.slots| == s.capacity
    ensures RoomFor(Fresh(s, behind, emitSlot, pollSlot, o))
  {
    hide And, SingleBit, RC.SlotsFrom;
  }

  lemma OneDone(o: Order, x: Sys)
    requires Answered([o], x) && |x.done| == 1 && RoomFor(x)
    requires Refusal(x.emitSlot, x.ring.shared.slotSize, o) == BC.NoError && Encodable(o, x.ring.shared.slotSize)
    ensures x.done == [Done(o, BC.NoError)] && Successes(x.done) == [o]
  {
    hide Refusal, Encodable;
    assert x.done == [x.done[0]];
    SuccessesGrow([], x.done[0]);
    assert [] + [x.done[0]] == x.done;
  }

  lemma FreshHasRoom(s: RS.Shared)
    requires RC.Attachable(s)
    ensures s.capacity >= 2 && |s.slots| == s.capacity
  {}

  lemma {:induction false} RunKeepsSizes(x: Sys, turns: seq<Turn>)
    requires x.ring.shared.capacity > 0
    ensures var x' := Run(x, turns);
      x'.emitSlot == x.emitSlot && x'.pollSlot == x.pollSlot && x'.behind == x.behind
    decreases |turns|
  {
    hide Step;
    if turns != [] {
      SameSizes(x, turns[0]);
      RunKeepsSizes(Step(x, turns[0]), turns[1..]);
    }
  }

  // ---------------------------------------------------------------- what may fail

  /** An emit of a request of 100 bytes within its budget. */
  function LongEmit(kind: u32, payload: seq<byte>): Order { Emit(FC.F_REQUEST, kind, 1, payload, 100, 0, false) }

  lemma LongEmitPasses(kind: u32, payload: seq<byte>)
    requires |payload| == 100
    ensures var o := LongEmit(kind, payload);
      Refusal(256, 128, o) == BC.NoError && Encodable(o, 128) && FC.Validate(FrameOf(o)) == FC.OK
      && FC.Has(FrameOf(o).hdrFlags, FC.F_INLINE) && FrameOf(o).payloadRef == 64 && FrameOf(o).payloadLen == 100
      && |Message(o, 128)| == 128 && Message(o, 128)[..64] == FC.Bytes(FrameOf(o))
  {
    hide FC.Validate, FC.Has, And;
    BC.FragmentFrameIsValid(FC.F_REQUEST, kind, 1, 100, false, 0);
    ModUnique(100, TWO32, 0, 100);
    FC.OddIsInline(FrameOf(LongEmit(kind, payload)).hdrFlags);
  }

  /** Its slot names 100 payload bytes and has room for 64. */
  lemma LongSlot(kind: u32, payload: seq<byte>, slot: seq<byte>)
    requires |payload| == 100 && Placed(LongEmit(kind, payload), 128, slot)
    ensures Sees(256, slot) == Wanted(FrameOf(LongEmit(kind, payload)), 100) && |slot| == 128
  {
    hide FC.Validate, FC.Has, FC.Decode, FC.Bytes, Message;
    LongEmitPasses(kind, payload);
    var f, header := FrameOf(LongEmit(kind, payload)), slot[..64];
    assert slot == Message(LongEmit(kind, payload), 128);
    assert header + [] == header;
    FC.DecodeOfBytes(f, []);
    ModUnique(164, TWO64, 0, 164);
  }

  /** Two clients that were told a slot size of 256, on an empty ring whose slots have 128: the emit of 100 bytes
      succeeds although the slot holds 64 of them, and the poller delivers 100 bytes, 36 of them not from the slot. */
  lemma SlotSizesDiffer(kind: u32, payload: seq<byte>, a: seq<Turn>, b: seq<Turn>)
    requires |payload| == 100 && EmitTurns(a) >= 196 && PollTurns(b) >= 3 * 327
    ensures RC.Attachable(TD.SmallRing()) && TD.SmallRing().slotSize == 128
    ensures var o := LongEmit(kind, payload);
      var x' := Run(Fresh(TD.SmallRing(), 128, 256, 256, o), a + b);
      && x'.done == [Done(o, BC.NoError)] && |x'.ring.published| == 1 && |x'.ring.published[0]| == 128
      && |x'.delivered| == 1 && |x'.delivered[0].payload| == 100 && !Contained(256, x'.ring.published[0])
  {
    hide Quiet, Run, Placed, Refusal, Encodable, Good, Shows, Sees;
    var o, s := LongEmit(kind, payload), TD.SmallRing();
    TD.SmallRingIsEmpty();
    var x := Fresh(s, 128, 256, 256, o);
    LongEmitPasses(kind, payload);
    NeverBeyond(kind, payload, a + b);
    OneOrder(s, 128, 256, 256, o, a, b);
    var x' := Run(x, a + b);
    LongSlot(kind, payload, x'.ring.published[0]);
    OneShown(256, x'.ring.published[0], x'.delivered);
    assert x'.ring.published == [x'.ring.published[0]];
  }

  lemma OneShown(pollSlot: u32, slot: seq<byte>, events: seq<BC.Event>)
    requires Shown(pollSlot, [slot], events)
    ensures Sees(pollSlot, slot).Wanted? ==> |events| == 1 && |events[0].payload| == Sees(pollSlot, slot).n
  {
    hide Sees;
    assert [slot][..0] == [];
    if Sees(pollSlot, slot).Wanted? { assert events[..|events| - 1] == []; }
  }

  lemma OneSuccess(o: Order, x: Sys)
    requires Answered([o], x)
    ensures Successes(x.done) == [] || Successes(x.done) == [o]
  {
    hide Answer;
    if x.done != [] {
      assert x.done[..0] == [];
      SuccessesGrow([], x.done[0]);
      assert [] + [x.done[0]] == x.done;
    }
  }

  lemma NeverBeyond(kind: u32, payload: seq<byte>, turns: seq<Turn>)
    requires |payload| == 100
    ensures !Run(Fresh(TD.SmallRing(), 128, 256, 256, LongEmit(kind, payload)), turns).poller.Broken?
  {
    hide Quiet, Run, Placed, Refusal, Encodable, Sees, Good, Answered, Recorded, Successes, And;
    var o, s := LongEmit(kind, payload), TD.SmallRing();
    TD.SmallRingIsEmpty();
    var x := Fresh(s, 128, 256, 256, o);
    FreshIsQuiet(s, 128, 256, 256, [o]);
    QuietIsGood(x);
    AnsweredAtFirst(x);
    RunAnswered(BaseOf(x), [o], x, turns);
    PublishedAreSent(x, turns);
    var x' := Run(x, turns);
    if x'.poller.Broken? {
      OneSuccess(o, x');
      BrokenReaches(BaseOf(x), x');
      FirstPlaced(x'.ring.published, x'.done, 128);
      LongSlot(kind, payload, x'.ring.published[0]);
    }
  }

  lemma FirstPlaced(published: seq<seq<byte>>, done: seq<Done>, slotSize: nat)
    requires Recorded([], published, done, slotSize) && (published != [] || Successes(done) != [])
    ensures |Successes(done)| == |published| && Placed(Successes(done)[0], slotSize, published[0])
  {
    hide Placed, Successes;
    var n := 0;
    assert published[n + 0] == published[0];
  }

  /** A poller that stopped was sent behind what is mapped, or its reference wraps. */
  lemma BrokenReaches(b: Base, x: Sys)
    requires Good(b, x) && x.poller.Broken?
    ensures x.ring.taken < |x.ring.published|
    ensures match Sees(x.pollSlot, x.ring.published[x.ring.taken])
      case Wanted(f, n) => f.payloadRef + n > x.ring.shared.slotSize + x.behind
      case _ => true
  {
    hide EmitterOk, ReadUp, Recorded, RS.Inv, Sees, And;
  }
}
