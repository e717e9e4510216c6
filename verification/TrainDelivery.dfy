/** When the trains of fragments cut by the caller and by the runtime can leave through a ring: the bridge
    between the inline budget they are cut to and the slots `emit` writes into. */
module TrainDelivery {
  import opened Words
  import FC = FrameCodec
  import MC = ModuleCodec
  import RC = RingCalls
  import RM = RingMemory
  import RS = RingSteps
  import BC = BusClient
  import opened Fragments

  /** What `emit` answers, with an unchanged epoch, to one fragment of a request or a reply. */
  function Outcome(pattern: u16, budget: u32, handle: u32, s: RS.Shared, f: Fragment): BC.Err
    requires s.capacity > 0 && |s.slots| == s.capacity && pattern <= FC.F_CANCEL
  {
    if f.correlation == 0 || (f.more && f.payload == []) then BC.ErrProtocol
    else BC.EmitOutcome(true, false, budget, handle, s, BC.FragmentFlags(pattern, f.more), f.kind, f.correlation,
      f.payload)
  }

  /** A nonempty fragment within the budget is refused for its size, or waits for room, or is sent. */
  lemma FragmentOutcome(pattern: u16, budget: u32, handle: u32, s: RS.Shared, f: Fragment)
    requires RC.Attachable(s) && (pattern == FC.F_REQUEST || pattern == FC.F_REPLY)
    requires f.correlation != 0 && 0 < |f.payload| <= budget <= FC.MAX_PAYLOAD
    ensures Outcome(pattern, budget, handle, s, f) ==
            if FC.HDR_LEN + |f.payload| > s.slotSize then BC.ErrPayload
            else if |RC.QueueOf(s)| >= s.capacity then BC.ErrWouldBlock else BC.NoError
  {
    hide FC.Validate, RC.QueueOf, SingleBit, And;
    BC.FragmentFrameIsValid(pattern, f.kind, f.correlation, |f.payload|, f.more, handle);
    ModUnique(|f.payload|, TWO32, 0, |f.payload|);
  }

  // ------------------------------------------------------------- one emit after another

  /** The clients' constants for one direction. */
  datatype Side = Side(pattern: u16, budget: u32, handle: u32)

  /** A train as the two loops cut it: nonempty fragments of one call within the budget. */
  ghost predicate Cut(side: Side, t: seq<Fragment>) {
    && (side.pattern == FC.F_REQUEST || side.pattern == FC.F_REPLY) && side.budget <= FC.MAX_PAYLOAD
    && forall i :: 0 <= i < |t| ==> t[i].correlation != 0 && 0 < |t[i].payload| <= side.budget
  }

  /** Every fragment, with its header, fits a slot. */
  ghost predicate Fits(t: seq<Fragment>, slotSize: nat) {
    forall i :: 0 <= i < |t| ==> FC.HDR_LEN + |t[i].payload| <= slotSize
  }

  /** How many slots are published and not yet released. */
  ghost function Queued(s: RS.Shared): nat
    requires RC.Attachable(s)
  {
    |RC.QueueOf(s)|
  }

  /** One emit: its answer, and the ring after it. */
  ghost function EmitOne(side: Side, s: RS.Shared, f: Fragment): (BC.Err, RS.Shared)
    requires RC.Attachable(s) && side.pattern <= FC.F_CANCEL
  {
    var err := Outcome(side.pattern, side.budget, side.handle, s, f);
    RM.IndexOk(s, s.head);
    if err != BC.NoError then (err, s)
    else
      var slot := s.slots[RS.Index(s.capacity, s.head)];
      var frame := BC.EmitFrame(BC.FragmentFlags(side.pattern, f.more), f.kind, f.correlation, |f.payload|,
        side.handle);
      (err, RC.Publish(s, BC.Image(slot, frame, f.payload)))
  }

  /** The ring after an emit of a cut fragment: one slot fuller, or as it was. */
  lemma EmitOneQueue(side: Side, s: RS.Shared, f: Fragment)
    requires RC.Attachable(s) && Cut(side, [f])
    ensures var (err, s') := EmitOne(side, s, f);
      && err == (if FC.HDR_LEN + |f.payload| > s.slotSize then BC.ErrPayload
                 else if Queued(s) >= s.capacity then BC.ErrWouldBlock else BC.NoError)
      && RC.Attachable(s') && s'.slotSize == s.slotSize && s'.capacity == s.capacity
      && Queued(s) <= s.capacity
      && Queued(s') == Queued(s) + (if err == BC.NoError then 1 else 0)
  {
    hide Outcome, BC.EmitFrame, RC.Publish, RC.SlotsFrom, BC.Image;
    assert [f][0] == f;
    FragmentOutcome(side.pattern, side.budget, side.handle, s, f);
    if EmitOne(side, s, f).0 == BC.NoError { Published(side, s, f); }
  }

  lemma Published(side: Side, s: RS.Shared, f: Fragment)
    requires RC.Attachable(s) && side.pattern <= FC.F_CANCEL && EmitOne(side, s, f).0 == BC.NoError
    ensures var s' := EmitOne(side, s, f).1;
      RC.Attachable(s') && s'.slotSize == s.slotSize && s'.capacity == s.capacity
      && Queued(s') == Queued(s) + 1
  {
    hide FC.Validate, FC.Has;
    RM.IndexOk(s, s.head);
    var slot := s.slots[RS.Index(s.capacity, s.head)];
    var frame := BC.EmitFrame(BC.FragmentFlags(side.pattern, f.more), f.kind, f.correlation, |f.payload|, side.handle);
    RC.PublishEnqueues(s, BC.Image(slot, frame, f.payload));
  }

  /** `send`: one emit per fragment, up to the first that is not answered with success. */
  ghost function SendFrom(side: Side, s: RS.Shared, t: seq<Fragment>): (nat, RS.Shared)
    requires RC.Attachable(s) && Cut(side, t)
    decreases |t|
  {
    if t == [] then (0, s)
    else
      EmitOneQueue(side, s, t[0]);
      var (err, s1) := EmitOne(side, s, t[0]);
      if err != BC.NoError then (0, s)
      else
        var (n, s2) := SendFrom(side, s1, t[1..]);
        (n + 1, s2)
  }

  /** Without a reader, `send` gets the whole train out exactly when every fragment fits a slot and the ring has
      room for all of them at once: it gives up at the first full ring. */
  lemma {:induction false} SendsAll(side: Side, s: RS.Shared, t: seq<Fragment>)
    requires RC.Attachable(s) && Cut(side, t) && Queued(s) <= s.capacity
    ensures SendFrom(side, s, t).0 <= |t|
    ensures SendFrom(side, s, t).0 == |t| <==> Fits(t, s.slotSize) && |t| <= s.capacity - Queued(s)
    decreases |t|
  {
    hide EmitOne, Queued, RC.Attachable;
    if t != [] {
      EmitOneQueue(side, s, t[0]);
      var (err, s1) := EmitOne(side, s, t[0]);
      if err == BC.NoError {
        SendsAll(side, s1, t[1..]);
        FitsTail(t, s.slotSize);
      }
    }
  }

  lemma FitsTail(t: seq<Fragment>, slotSize: nat)
    requires t != []
    ensures Fits(t, slotSize) <==> FC.HDR_LEN + |t[0].payload| <= slotSize && Fits(t[1..], slotSize)
  {
    forall i | 0 <= i < |t| ensures i > 0 ==> t[i] == t[1..][i - 1] {}
  }

  /** A train fits exactly when its largest fragment does. For bodies that fill the budget this is
      `inlineBudget + 64 <= slotSize`, while attaching checks `inlineBudget <= slotSize` only. */
  lemma TrainFits(kind: u32, c: u64, m: MC.Message, body: seq<byte>, budget: u32, slotSize: nat)
    requires MC.HEADER_LEN < budget
    ensures Fits(Train(kind, c, m, body, budget - MC.HEADER_LEN), slotSize)
            <==> FC.HDR_LEN + Min(MC.HEADER_LEN + |body|, budget) <= slotSize
  {
    hide MC.Bytes;
    var chunk := budget - MC.HEADER_LEN;
    var t, parts := Train(kind, c, m, body, chunk), Chunks(body, chunk);
    ChunkShape(body, chunk);
    assert forall i :: 0 <= i < |t| ==> |t[i].payload| == MC.HEADER_LEN + |parts[i]|;
    assert |parts[0]| == Min(|body|, chunk);
    if FC.HDR_LEN + Min(MC.HEADER_LEN + |body|, budget) > slotSize {
      assert FC.HDR_LEN + |t[0].payload| > slotSize;
    }
  }

  lemma TrainIsCut(side: Side, kind: u32, c: u64, m: MC.Message, body: seq<byte>)
    requires side.pattern == FC.F_REQUEST || side.pattern == FC.F_REPLY
    requires c != 0 && MC.HEADER_LEN < side.budget <= FC.MAX_PAYLOAD
    ensures Cut(side, Train(kind, c, m, body, side.budget - MC.HEADER_LEN))
  {
    hide MC.Bytes;
    TrainShape(kind, c, m, body, side.budget - MC.HEADER_LEN);
  }

  /** `send` of one body into a ring nobody reads meanwhile. */
  lemma TrainLeaves(side: Side, s: RS.Shared, kind: u32, c: u64, m: MC.Message, body: seq<byte>)
    requires RC.Attachable(s) && Queued(s) <= s.capacity
    requires side.pattern == FC.F_REQUEST || side.pattern == FC.F_REPLY
    requires c != 0 && MC.HEADER_LEN < side.budget <= FC.MAX_PAYLOAD
    ensures var chunk := side.budget - MC.HEADER_LEN;
      var t := Train(kind, c, m, body, chunk);
      Cut(side, t)
      && (SendFrom(side, s, t).0 == |t| <==>
            FC.HDR_LEN + Min(MC.HEADER_LEN + |body|, side.budget) <= s.slotSize
            && (if body == [] then 1 else (|body| + chunk - 1) / chunk) <= s.capacity - Queued(s))
  {
    hide Cut, SendFrom, Fits, MC.Bytes, Queued, RC.Attachable, Train;
    var chunk := side.budget - MC.HEADER_LEN;
    TrainIsCut(side, kind, c, m, body);
    TrainFits(kind, c, m, body, side.budget, s.slotSize);
    TrainShape(kind, c, m, body, chunk);
    SendsAll(side, s, Train(kind, c, m, body, chunk));
  }

  // ------------------------------------------------------- with a reader and retries

  datatype Turn = Released | Tried

  /** `replyModuleResult` under way: the ring, how many fragments are out, how many slots the reader gave back, the
      last answer, and whether nothing was given back since the ring was found full. */
  datatype Sending = Sending(s: RS.Shared, sent: nat, released: nat, last: BC.Err, stuck: bool)

  predicate Failed(x: Sending) { x.last != BC.NoError && x.last != BC.ErrWouldBlock }

  ghost predicate SendingOk(t: seq<Fragment>, x: Sending) { RC.Attachable(x.s) && x.sent <= |t| }

  /** One turn: the reader releases a slot, or the loop tries its next fragment. */
  ghost function TakeTurn(side: Side, t: seq<Fragment>, x: Sending, turn: Turn): Sending
    requires Cut(side, t) && SendingOk(t, x)
  {
    if turn.Released? then
      if Queued(x.s) == 0 then x else x.(s := RC.Release(x.s), released := x.released + 1, stuck := false)
    else if x.sent == |t| || Failed(x) then x
    else
      var (err, s) := EmitOne(side, x.s, t[x.sent]);
      x.(s := s, sent := if err == BC.NoError then x.sent + 1 else x.sent, last := err,
         stuck := err == BC.ErrWouldBlock)
  }

  /** Slots are conserved, a stuck loop faces a full ring, and a failed one a fragment that cannot fit. */
  ghost predicate Accounts(t: seq<Fragment>, x0: Sending, x: Sending) {
    && RC.Attachable(x0.s) && SendingOk(t, x) && x.s.slotSize == x0.s.slotSize && x.s.capacity == x0.s.capacity
    && Queued(x.s) + x.released == Queued(x0.s) + x.sent && Queued(x.s) <= x.s.capacity
    && (x.stuck ==> Queued(x.s) == x.s.capacity)
    && (forall i :: 0 <= i < x.sent ==> FC.HDR_LEN + |t[i].payload| <= x.s.slotSize)
    && (Failed(x) ==> x.sent < |t| && FC.HDR_LEN + |t[x.sent].payload| > x.s.slotSize)
  }

  lemma TurnAccounts(side: Side, t: seq<Fragment>, x0: Sending, x: Sending, turn: Turn)
    requires Cut(side, t) && Accounts(t, x0, x)
    ensures Accounts(t, x0, TakeTurn(side, t, x, turn))
  {
    hide EmitOne, Queued, RC.Attachable, RC.Release;
    if turn.Released? {
      if Queued(x.s) != 0 { ReleaseOne(x.s); }
    } else if x.sent < |t| && !Failed(x) {
      EmitOneQueue(side, x.s, t[x.sent]);
    }
  }

  lemma ReleaseOne(s: RS.Shared)
    requires RC.Attachable(s) && Queued(s) != 0
    ensures RC.Attachable(RC.Release(s)) && Queued(RC.Release(s)) == Queued(s) - 1
    ensures RC.Release(s).slotSize == s.slotSize && RC.Release(s).capacity == s.capacity
  {
    hide RS.Geometry, And;
    RC.EmptyGap(s.head, s.tail);
    RC.ReleaseDrops(s);
  }

  ghost function TakeTurns(side: Side, t: seq<Fragment>, x0: Sending, x: Sending, turns: seq<Turn>): Sending
    requires Cut(side, t) && Accounts(t, x0, x)
    decreases |turns|
  {
    if turns == [] then x
    else
      TurnAccounts(side, t, x0, x, turns[0]);
      TakeTurns(side, t, x0, TakeTurn(side, t, x, turns[0]), turns[1..])
  }

  lemma {:induction false} TurnsAccount(side: Side, t: seq<Fragment>, x0: Sending, x: Sending, turns: seq<Turn>)
    requires Cut(side, t) && Accounts(t, x0, x)
    ensures Accounts(t, x0, TakeTurns(side, t, x0, x, turns))
    decreases |turns|
  {
    hide Cut, Accounts, TakeTurn;
    if turns != [] {
      Settling(t, x0, x);
      TurnAccounts(side, t, x0, x, turns[0]);
      TurnsAccount(side, t, x0, TakeTurn(side, t, x, turns[0]), turns[1..]);
    }
  }

  lemma Settling(t: seq<Fragment>, x0: Sending, x: Sending)
    requires Accounts(t, x0, x)
    ensures SendingOk(t, x)
  {}

  /** The loop has sent everything, given up, or waits for a full ring. */
  predicate Settled(t: seq<Fragment>, x: Sending) { x.sent == |t| || Failed(x) || x.stuck }

  /** With retries, whatever the reader does and in whatever order: once the loop is settled, the whole train is out
      exactly when every fragment fits a slot and the slots free at first together with those released are enough. */
  lemma RepliesAll(side: Side, t: seq<Fragment>, s: RS.Shared, turns: seq<Turn>)
    requires RC.Attachable(s) && Cut(side, t) && Queued(s) <= s.capacity && t != []
    ensures var x0 := Sending(s, 0, 0, BC.NoError, false);
      Accounts(t, x0, x0)
      && var x := TakeTurns(side, t, x0, x0, turns);
         Settled(t, x) ==>
           (x.sent == |t| <==> Fits(t, s.slotSize) && |t| <= s.capacity - Queued(s) + x.released)
  {
    hide Cut, TakeTurns, Queued, RC.Attachable;
    var x0 := Sending(s, 0, 0, BC.NoError, false);
    TurnsAccount(side, t, x0, x0, turns);
  }

  /** A loop that is not settled moves on at its next attempt. */
  lemma TryingMoves(side: Side, t: seq<Fragment>, x0: Sending, x: Sending)
    requires Cut(side, t) && Accounts(t, x0, x) && !Settled(t, x)
    ensures var x' := TakeTurn(side, t, x, Tried); x'.sent == x.sent + 1 || Settled(t, x')
  {
    hide EmitOne, Queued, RC.Attachable;
    EmitOneQueue(side, x.s, t[x.sent]);
  }

  /** A fragment that found no room is offered again unchanged, and its answer depends only on the ring:
      while the ring stays full it keeps waiting, and it leaves as soon as one slot is released. */
  lemma RetrySucceeds(pattern: u16, budget: u32, handle: u32, s: RS.Shared, f: Fragment)
    requires RC.Attachable(s) && (pattern == FC.F_REQUEST || pattern == FC.F_REPLY)
    requires f.correlation != 0 && 0 < |f.payload| <= budget <= FC.MAX_PAYLOAD
    requires Outcome(pattern, budget, handle, s, f) == BC.ErrWouldBlock
    ensures RC.Attachable(RC.Release(s)) && Outcome(pattern, budget, handle, RC.Release(s), f) == BC.NoError
  {
    hide Outcome;
    FragmentOutcome(pattern, budget, handle, s, f);
    RC.EmptyGap(s.head, s.tail);
    RC.ReleaseDrops(s);
    FragmentOutcome(pattern, budget, handle, RC.Release(s), f);
  }

  // ---------------------------------------------------------------- what may fail

  /** An empty ring of two 128-byte slots. */
  function SmallRing(): RS.Shared {
    var slot: seq<byte> := seq(128, _ => 0);
    RS.Shared(128, 2, [slot, slot], 0, 0)
  }

  lemma SmallRingIsEmpty()
    ensures RC.Attachable(SmallRing()) && Queued(SmallRing()) == 0
  {}

  /** An inline budget of 100 is within a slot of 128, and the ring is empty; yet a full request is refused. */
  lemma BudgetMayNotFit(kind: u32, m: MC.Message, body: seq<byte>)
    requires |body| == 60
    ensures var side := Side(FC.F_REQUEST, 100, 0);
      var t := Train(kind, 1, m, body, side.budget - MC.HEADER_LEN);
      side.budget <= SmallRing().slotSize && RC.Attachable(SmallRing()) && Queued(SmallRing()) == 0
      && Cut(side, t) && SendFrom(side, SmallRing(), t).0 == 0
  {
    hide SendFrom, Cut, Train, RC.Attachable, RC.QueueOf;
    var side := Side(FC.F_REQUEST, 100, 0);
    SmallRingIsEmpty();
    TrainLeaves(side, SmallRing(), kind, 1, m, body);
    TrainShape(kind, 1, m, body, 60);
    TrainIsCut(side, kind, 1, m, body);
    SendsAll(side, SmallRing(), Train(kind, 1, m, body, 60));
  }

  /** Every fragment fits a slot of the empty ring, but the third finds it full and `send` gives up. */
  lemma RoomMayNotSuffice(kind: u32, m: MC.Message, body: seq<byte>)
    requires |body| == 60
    ensures var side := Side(FC.F_REQUEST, 60, 0);
      var t := Train(kind, 1, m, body, side.budget - MC.HEADER_LEN);
      RC.Attachable(SmallRing()) && Queued(SmallRing()) == 0 && Fits(t, SmallRing().slotSize)
      && Cut(side, t) && |t| == 3 && SendFrom(side, SmallRing(), t).0 < 3
  {
    hide SendFrom, Cut, Train, RC.Attachable, RC.QueueOf;
    var side := Side(FC.F_REQUEST, 60, 0);
    SmallRingIsEmpty();
    TrainLeaves(side, SmallRing(), kind, 1, m, body);
    TrainShape(kind, 1, m, body, 20);
    TrainFits(kind, 1, m, body, 60, 128);
    TrainIsCut(side, kind, 1, m, body);
    SendsAll(side, SmallRing(), Train(kind, 1, m, body, 20));
  }
}
