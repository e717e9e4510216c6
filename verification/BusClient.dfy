/** Framed messages over a pair of rings (server-go/bus/client.go): `emit` and `Poll`. */
module BusClient {
  import opened Words
  import FC = FrameCodec
  import FR = FrameRules
  import RS = RingSteps
  import RC = RingCalls
  import RM = RingMemory

  /** A received event; its payload is a slice of the shared slot. */
  datatype Event = Event(frame: FC.Frame, payload: seq<byte>)

  datatype Err = NoError | ErrProtocol | ErrPayload | ErrEpoch | ErrWouldBlock

  /** What one slot yields to a client that was told the ring's slot size: an event, nothing because the header is
      refused, or Go's slice-bounds panic, which then takes a reference so large that `ref + len` wraps around
      2^64. `BusSteps` keeps the two sizes apart. */
  datatype Polled = Got(event: Event) | Skipped | Panicked

  /** `HdrFlags |= FInline`. */
  function WithInline(flags: u16): u16 { if flags % 2 == 1 then flags else flags + 1 }

  /** The header `emit` builds. */
  function EmitFrame(flags: u16, kind: u32, correlation: u64, len: u32, handle: u32): FC.Frame {
    FC.Frame(if len > 0 then WithInline(flags) else flags, FC.WIRE_VERSION, kind, 0, correlation, 0, 0,
             if len > 0 then FC.HDR_LEN else 0, len, handle, 0, 0)
  }

  function PollSlot(slot: seq<byte>): Polled {
    match FC.Decode(slot)
    case Rejected(_) => Skipped
    case Decoded(f) =>
      if FC.Has(f.hdrFlags, FC.F_INLINE) && f.payloadLen > 0 && (f.payloadRef + f.payloadLen) % TWO64 <= |slot| then
        if f.payloadRef + f.payloadLen <= |slot| then Got(Event(f, slot[f.payloadRef..f.payloadRef + f.payloadLen]))
        else Panicked
      else Got(Event(f, []))
  }

  /** A slot panics the poller exactly when its header is acceptable and its reference wraps. */
  lemma PanicCondition(slot: seq<byte>)
    ensures PollSlot(slot).Panicked? <==>
            var d := FC.Decode(slot);
            d.Decoded? && FC.Has(d.frame.hdrFlags, FC.F_INLINE) && d.frame.payloadLen > 0
            && d.frame.payloadRef + d.frame.payloadLen > |slot|
            && (d.frame.payloadRef + d.frame.payloadLen) % TWO64 <= |slot|
  {}

  /** The payload of an event is the range of the slot its header names. */
  lemma GotPayload(slot: seq<byte>)
    ensures match PollSlot(slot)
      case Got(e) =>
        e.payload != [] ==>
          e.frame.payloadRef + |e.payload| <= |slot|
            && e.payload == slot[e.frame.payloadRef..e.frame.payloadRef + |e.payload|]
      case _ => true
  {
    hide FC.Validate, FC.Has;
  }

  /** Where the payload lies in the memory the slot is part of. */
  lemma PlaceOf(all: seq<byte>, at: nat, size: nat, e: Event)
    requires at + size <= |all| && PollSlot(all[at..at + size]) == Got(e)
    ensures var place := if e.payload == [] then at else at + e.frame.payloadRef;
      place + |e.payload| <= at + size && all[place..place + |e.payload|] == e.payload
  {
    hide PollSlot;
    GotPayload(all[at..at + size]);
    if e.payload != [] {
      SliceSlice(all, at, at + size, e.frame.payloadRef, e.frame.payloadRef + |e.payload|);
    }
  }

  /** `image` is a slot holding the frame and, behind it, the payload. */
  ghost predicate Carries(image: seq<byte>, f: FC.Frame, payload: seq<byte>) {
    && FC.HDR_LEN + |payload| <= |image|
    && image[..FC.HDR_LEN] == FC.Bytes(f)
    && image[FC.HDR_LEN..FC.HDR_LEN + |payload|] == payload
  }

  function Image(slot: seq<byte>, f: FC.Frame, payload: seq<byte>): (image: seq<byte>)
    requires FC.HDR_LEN + |payload| <= |slot|
    ensures |image| == |slot|
  {
    Splice(Splice(slot, 0, FC.Bytes(f)), FC.HDR_LEN, payload)
  }

  lemma ImageCarries(slot: seq<byte>, f: FC.Frame, payload: seq<byte>)
    requires FC.HDR_LEN + |payload| <= |slot|
    ensures Carries(Image(slot, f, payload), f, payload)
  {}

  /** Whatever slot it lands in, a valid emitted frame passes `CheckPlacement` and is polled back as the
      event that was sent: same header (flags, kind, correlation) and same payload bytes. */
  lemma PollOfCarried(image: seq<byte>, flags: u16, kind: u32, correlation: u64, payload: seq<byte>, handle: u32)
    requires |payload| < TWO32 && |image| < TWO32
    requires var f := EmitFrame(flags, kind, correlation, |payload|, handle);
      Carries(image, f, payload) && FC.Validate(f) == FC.OK
    ensures var f := EmitFrame(flags, kind, correlation, |payload|, handle);
      PollSlot(image) == Got(Event(f, payload))
      && forall arena: u64 :: FC.CheckPlacement(f, |image|, arena) == FC.OK
  {
    hide FC.Validate, FC.Has, FC.Bytes, And, FC.Decode;
    var f := EmitFrame(flags, kind, correlation, |payload|, handle);
    DecodeCarried(image, f, payload);
    FC.OddIsInline(f.hdrFlags);
    ModUnique(f.payloadRef + f.payloadLen, TWO64, 0, f.payloadRef + f.payloadLen);
    if |payload| == 0 { assert payload == []; }
  }

  lemma DecodeCarried(image: seq<byte>, f: FC.Frame, payload: seq<byte>)
    requires Carries(image, f, payload) && FC.Validate(f) == FC.OK
    ensures FC.Decode(image) == FC.Decoded(f)
  {
    hide FC.Validate;
    assert image == FC.Bytes(f) + image[FC.HDR_LEN..];
    FC.DecodeOfBytes(f, image[FC.HDR_LEN..]);
  }

  // ------------------------------------------------------------ one channel

  /** The answer of `emit`, from what it can observe. */
  function EmitOutcome(attached: bool, epochChanged: bool, inlineBudget: u32, handle: u32, s: RS.Shared,
                       flags: u16, kind: u32, correlation: u64, payload: seq<byte>): Err
    requires s.capacity > 0 && |s.slots| == s.capacity
  {
    if !attached then ErrProtocol
    else if |payload| > 0 && (|payload| % TWO32 > inlineBudget || FC.HDR_LEN + |payload| > s.slotSize) then ErrPayload
    else if epochChanged then ErrEpoch
    else if |RC.QueueOf(s)| >= s.capacity then ErrWouldBlock
    else if s.slotSize < FC.HDR_LEN || |payload| >= TWO32
         || FC.Validate(EmitFrame(flags, kind, correlation, |payload|, handle)) != FC.OK then ErrProtocol
    else NoError
  }

  /** The events a sequence of slots yields, refused slots skipped. */
  function Events(slots: seq<seq<byte>>): seq<Event> {
    if slots == [] then []
    else match PollSlot(slots[0])
      case Got(e) => [e] + Events(slots[1..])
      case _ => Events(slots[1..])
  }

  lemma {:induction false} EventsAppend(a: seq<seq<byte>>, b: seq<seq<byte>>)
    ensures Events(a + b) == Events(a) + Events(b)
  {
    if a == [] {
      assert a + b == b;
    } else {
      assert (a + b)[0] == a[0] && (a + b)[1..] == a[1..] + b;
      EventsAppend(a[1..], b);
    }
  }

  lemma EventsOne(slot: seq<byte>)
    ensures Events([slot]) == match PollSlot(slot) case Got(e) => [e] case _ => []
  {
    hide PollSlot;
    var none: seq<seq<byte>> := [];
    assert [slot][1..] == none;
  }

  /** One ring with its emitter and its poller. `accepted` lists every slot ever published on it. */
  datatype Channel = Channel(shared: RS.Shared, pending: bool, accepted: seq<seq<byte>>, delivered: seq<Event>)

  /** `Foreign` is another implementation of the producer side publishing a slot of its own. */
  datatype Call =
    | Emit(flags: u16, kind: u32, correlation: u64, payload: seq<byte>, budget: u32, handle: u32, epochChanged: bool)
    | Foreign(image: seq<byte>)
    | Poll

  ghost predicate ChannelOk(c: Channel) {
    && RC.Attachable(c.shared)
    && (c.pending ==> RC.QueueOf(c.shared) != [])
  }

  /** The slots not yet handed to the poller. */
  function Unread(c: Channel): seq<seq<byte>>
    requires c.shared.capacity > 0 && |c.shared.slots| == c.shared.capacity
  {
    var q := RC.QueueOf(c.shared);
    if c.pending && q != [] then q[1..] else q
  }

  function EmitErr(c: Channel, call: Call): Err
    requires call.Emit? && c.shared.capacity > 0 && |c.shared.slots| == c.shared.capacity
  {
    EmitOutcome(true, call.epochChanged, call.budget, call.handle, c.shared, call.flags, call.kind, call.correlation,
      call.payload)
  }

  function PublishOn(c: Channel, image: seq<byte>): Channel
    requires c.shared.capacity > 0 && RS.Index(c.shared.capacity, c.shared.head) < |c.shared.slots|
  {
    c.(shared := RC.Publish(c.shared, image), accepted := c.accepted + [image])
  }

  /** `Poll` on the inbound side: first release the slot it still holds, then look at the next one. */
  function AfterRelease(s: RS.Shared, pending: bool): RS.Shared { if pending then RC.Release(s) else s }

  ghost function Do(c: Channel, call: Call): Channel
    requires ChannelOk(c)
  {
    RM.IndexOk(c.shared, c.shared.head);
    match call
    case Emit(flags, kind, correlation, payload, _, handle, _) =>
      if EmitErr(c, call) == NoError then
        PublishOn(c, Image(c.shared.slots[RS.Index(c.shared.capacity, c.shared.head)],
                           EmitFrame(flags, kind, correlation, |payload|, handle), payload))
      else c
    case Foreign(image) =>
      if |RC.QueueOf(c.shared)| < c.shared.capacity && |image| == c.shared.slotSize then PublishOn(c, image) else c
    case Poll =>
      var s := AfterRelease(c.shared, c.pending);
      if RC.QueueOf(s) == [] then c.(shared := s, pending := false)
      else match PollSlot(RC.QueueOf(s)[0])
        case Got(e) => c.(shared := s, pending := true, delivered := c.delivered + [e])
        case Skipped => c.(shared := RC.Release(s), pending := false)
        case Panicked => c.(shared := s, pending := false)
  }

  /** Conservation: delivered and undelivered events are together the events of everything accepted. */
  ghost predicate Conserved(c: Channel) {
    && ChannelOk(c)
    && Events(c.accepted) == c.delivered + Events(Unread(c))
    && (forall k :: 0 <= k < |Unread(c)| ==> !PollSlot(Unread(c)[k]).Panicked?)
  }

  lemma PublishConserves(c: Channel, image: seq<byte>)
    requires Conserved(c) && |RC.QueueOf(c.shared)| < c.shared.capacity && |image| == c.shared.slotSize
    requires !PollSlot(image).Panicked?
    ensures RS.Index(c.shared.capacity, c.shared.head) < |c.shared.slots|
    ensures Conserved(PublishOn(c, image))
  {
    hide PollSlot, Events, Unread, And, SingleBit;
    UnreadPublish(c, image);
    EventsAppend(c.accepted, [image]);
    EventsAppend(Unread(c), [image]);
    assert c.delivered + Events(Unread(c) + [image]) == c.delivered + Events(Unread(c)) + Events([image]);
  }

  lemma UnreadPublish(c: Channel, image: seq<byte>)
    requires ChannelOk(c) && |RC.QueueOf(c.shared)| < c.shared.capacity && |image| == c.shared.slotSize
    ensures RS.Index(c.shared.capacity, c.shared.head) < |c.shared.slots|
    ensures ChannelOk(PublishOn(c, image)) && Unread(PublishOn(c, image)) == Unread(c) + [image]
  {
    hide And, SingleBit;
    RM.IndexOk(c.shared, c.shared.head);
    RC.PublishEnqueues(c.shared, image);
  }

  /** What the poller finds after giving back the slot it held is exactly the unread queue. */
  lemma AfterReleaseQueue(c: Channel)
    requires ChannelOk(c)
    ensures var s := AfterRelease(c.shared, c.pending);
      RC.Attachable(s) && RC.QueueOf(s) == Unread(c)
      && (Unread(c) != [] ==> RC.Attachable(RC.Release(s)) && RC.QueueOf(RC.Release(s)) == Unread(c)[1..])
  {
    RC.EmptyGap(c.shared.head, c.shared.tail);
    if c.pending { RC.ReleaseDrops(c.shared); }
    var s := AfterRelease(c.shared, c.pending);
    RC.EmptyGap(s.head, s.tail);
    if Unread(c) != [] { RC.ReleaseDrops(s); }
  }

  lemma PollConserves(c: Channel)
    requires Conserved(c)
    ensures Conserved(Do(c, Poll))
  {
    AfterReleaseQueue(c);
    var q, d := Unread(c), Do(c, Poll);
    assert d.accepted == c.accepted;
    if q == [] {
      assert Unread(d) == [] && d.delivered == c.delivered;
    } else {
      assert !PollSlot(q[0]).Panicked?;
      assert Unread(d) == q[1..];
      TailOf(c, q);
    }
  }

  lemma TailOf(c: Channel, q: seq<seq<byte>>)
    requires q != [] && !PollSlot(q[0]).Panicked?
    requires Events(c.accepted) == c.delivered + Events(q)
    requires forall k :: 0 <= k < |q| ==> !PollSlot(q[k]).Panicked?
    ensures Events(c.accepted) ==
            (match PollSlot(q[0]) case Got(e) => c.delivered + [e] case _ => c.delivered) + Events(q[1..])
    ensures forall k :: 0 <= k < |q[1..]| ==> !PollSlot(q[1..][k]).Panicked?
  {
    forall k | 0 <= k < |q[1..]| ensures !PollSlot(q[1..][k]).Panicked? { assert q[1..][k] == q[k + 1]; }
  }

  /** The slot another implementation publishes does not make the poller slice beyond it. */
  predicate Harmless(call: Call) { call.Foreign? ==> !PollSlot(call.image).Panicked? }

  lemma DoConserves(c: Channel, call: Call)
    requires Conserved(c) && Harmless(call)
    ensures Conserved(Do(c, call))
  {
    match call
    case Poll => PollConserves(c);
    case Foreign(image) =>
      if |RC.QueueOf(c.shared)| < c.shared.capacity && |image| == c.shared.slotSize {
        PublishConserves(c, image);
      }
    case Emit(flags, kind, correlation, payload, _, handle, _) =>
      if EmitErr(c, call) == NoError {
        RM.IndexOk(c.shared, c.shared.head);
        var f := EmitFrame(flags, kind, correlation, |payload|, handle);
        var image := Image(c.shared.slots[RS.Index(c.shared.capacity, c.shared.head)], f, payload);
        ImageCarries(c.shared.slots[RS.Index(c.shared.capacity, c.shared.head)], f, payload);
        PollOfCarried(image, flags, kind, correlation, payload, handle);
        PublishConserves(c, image);
      }
  }

  ghost function DoAll(c: Channel, calls: seq<Call>): Channel
    requires Conserved(c) && forall call :: call in calls ==> Harmless(call)
    decreases |calls|
  {
    if calls == [] then c else
      DoConserves(c, calls[0]);
      DoAll(Do(c, calls[0]), calls[1..])
  }

  /** Over any sequence of whole calls, one after another, the delivered events are, in order and each once, the
      events of the accepted slots; what is missing is still queued. `BusSteps.DeliveredAreAccepted` says the
      same of calls that overlap. */
  lemma {:induction false} WholeCallsDeliver(c: Channel, calls: seq<Call>)
    requires Conserved(c) && forall call :: call in calls ==> Harmless(call)
    ensures var c' := DoAll(c, calls);
      Conserved(c') && c'.delivered <= Events(c'.accepted)
      && (Unread(c') == [] ==> c'.delivered == Events(c'.accepted))
    decreases |calls|
  {
    if calls == [] {
    } else {
      DoConserves(c, calls[0]);
      WholeCallsDeliver(Do(c, calls[0]), calls[1..]);
    }
  }

  /** A channel over an attached empty ring starts conserved. */
  lemma FreshConserves(s: RS.Shared)
    requires RC.Attachable(s) && RC.QueueOf(s) == []
    ensures Conserved(Channel(s, false, [], []))
  {}

  /** A failed emit leaves the channel as it was; a successful one adds exactly its own event. */
  lemma EmitAddsItsEvent(c: Channel, call: Call)
    requires Conserved(c) && call.Emit?
    ensures EmitErr(c, call) != NoError ==> Do(c, call) == c
    ensures EmitErr(c, call) == NoError ==>
              |call.payload| < TWO32
              && Events(Do(c, call).accepted) == Events(c.accepted)
                 + [Event(EmitFrame(call.flags, call.kind, call.correlation, |call.payload|, call.handle),
                   call.payload)]
  {
    if EmitErr(c, call) == NoError {
      RM.IndexOk(c.shared, c.shared.head);
      var slot := c.shared.slots[RS.Index(c.shared.capacity, c.shared.head)];
      var f := EmitFrame(call.flags, call.kind, call.correlation, |call.payload|, call.handle);
      var image := Image(slot, f, call.payload);
      ImageCarries(slot, f, call.payload);
      PollOfCarried(image, call.flags, call.kind, call.correlation, call.payload, call.handle);
      EventsAppend(c.accepted, [image]);
    }
  }

  // ------------------------------------------------------------------- class

  /** Encoding a frame and copying its payload into a slot of a mapped ring, seen through the ring. */
  lemma WriteImage(all: seq<byte>, at: nat, slotSize: nat, capacity: nat, index: nat, f: FC.Frame, payload: seq<byte>)
    requires index < capacity && FC.HDR_LEN + |payload| <= slotSize
    requires at + RM.Need(slotSize, capacity) <= |all|
    ensures var slot, end := at + RM.SlotAt(slotSize, index), at + RM.Need(slotSize, capacity);
      && slot + slotSize <= end
      && var all' := Splice(Splice(all, slot, FC.Bytes(f)), slot + FC.HDR_LEN, payload);
         var v := RM.ViewOf(all[at..end], slotSize, capacity);
         RM.ViewOf(all'[at..end], slotSize, capacity)
           == v.(slots := v.slots[index := Image(v.slots[index], f, payload)])
         && all'[..at] == all[..at] && all'[end..] == all[end..]
  {
    hide RM.ViewOf, FC.Bytes, Splice, Image;
    RM.SlotInside(slotSize, capacity, index);
    var off, end := RM.SlotAt(slotSize, index), at + RM.Need(slotSize, capacity);
    RM.SpliceSlice(all, at, end, off, FC.Bytes(f));
    RM.SpliceSlice(Splice(all, at + off, FC.Bytes(f)), at, end, off + FC.HDR_LEN, payload);
    WriteRaw(all[at..end], slotSize, capacity, index, f, payload);
  }

  /** The same, seen from the start of the ring. */
  lemma WriteRaw(raw: seq<byte>, slotSize: nat, capacity: nat, index: nat, f: FC.Frame, payload: seq<byte>)
    requires index < capacity && FC.HDR_LEN + |payload| <= slotSize && |raw| == RM.Need(slotSize, capacity)
    ensures var off := RM.SlotAt(slotSize, index);
      && off + slotSize <= |raw|
      && var v := RM.ViewOf(raw, slotSize, capacity);
         RM.ViewOf(Splice(Splice(raw, off, FC.Bytes(f)), off + FC.HDR_LEN, payload), slotSize, capacity)
           == v.(slots := v.slots[index := Image(v.slots[index], f, payload)])
  {
    hide FC.Bytes, Splice, RM.SlotBytes;
    RM.SlotInside(slotSize, capacity, index);
    var once := Splice(raw, RM.SlotAt(slotSize, index), FC.Bytes(f));
    RM.ViewOfWrite(raw, slotSize, capacity, index, 0, FC.Bytes(f));
    RM.ViewOfWrite(once, slotSize, capacity, index, FC.HDR_LEN, payload);
  }

  /** Filling the held slot is invisible to the consumer. */
  lemma SameQueue(s: RS.Shared, index: nat, image: seq<byte>)
    requires RC.Attachable(s) && |RC.QueueOf(s)| < s.capacity && index == RS.Index(s.capacity, s.head)
             && |image| == s.slotSize
    ensures index < |s.slots|
    ensures var s' := s.(slots := s.slots[index := image]); RC.Attachable(s') && RC.QueueOf(s') == RC.QueueOf(s)
  {
    RM.IndexOk(s, s.head);
    var s' := s.(slots := s.slots[index := image]);
    RC.PublishEnqueues(s, image);
    var q, q', longer := RC.QueueOf(s), RC.QueueOf(s'), RC.QueueOf(RC.Publish(s, image));
    forall k | 0 <= k < |q| ensures q'[k] == q[k] {
      assert RS.SlotOf(s, s.tail, k) == RS.SlotOf(s', s.tail, k) == RS.SlotOf(RC.Publish(s, image), s.tail, k);
      assert longer[k] == q[k];
    }
  }

  /** A range outside a changed one reads the same. */
  lemma OutsideRange(a: seq<byte>, b: seq<byte>, at: nat, end: nat, lo: nat, hi: nat)
    requires |a| == |b| && at <= end <= |a| && lo <= hi
    requires a[..at] == b[..at] && a[end..] == b[end..]
    ensures hi <= |a| && (hi <= at || end <= lo) ==> a[lo..hi] == b[lo..hi]
  {
    if hi <= at {
      SliceSlice(a, 0, at, lo, hi);
      SliceSlice(b, 0, at, lo, hi);
    } else if end <= lo && hi <= |a| {
      SliceSlice(a, end, |a|, lo - end, hi - end);
      SliceSlice(b, end, |b|, lo - end, hi - end);
    }
  }

  class Client {
    const handle: u32
    const slotSize: u32
    const inlineBudget: u32
    const attachedEpoch: u64
    const outbound: RM.Ring
    const inbound: RM.Ring
    /** The host's epoch word in the control region. */
    var epoch: u64
    var pendingRead: bool
    /** Whether the control region is mapped. */
    var attached: bool

    constructor (handle: u32, slotSize: u32, inlineBudget: u32, epoch: u64, outbound: RM.Ring, inbound: RM.Ring)
      requires outbound.Valid() && inbound.Valid()
      requires slotSize == outbound.slotSize == inbound.slotSize
      requires Apart(outbound, inbound)
      ensures Valid() && this.outbound == outbound && this.inbound == inbound && !pendingRead && attached
      ensures this.handle == handle && this.inlineBudget == inlineBudget && !EpochChanged()
    {
      this.handle, this.slotSize, this.inlineBudget, this.attachedEpoch := handle, slotSize, inlineBudget, epoch;
      this.outbound, this.inbound, this.epoch, this.pendingRead, this.attached := outbound, inbound, epoch, false, true;
    }

    static predicate Apart(a: RM.Ring, b: RM.Ring) {
      a.mem != b.mem || a.End() <= b.at || b.End() <= a.at
    }

    ghost predicate Valid()
      reads this, outbound.mem, inbound.mem
    {
      && outbound.Valid() && inbound.Valid() && Apart(outbound, inbound)
      && slotSize == outbound.slotSize == inbound.slotSize
      && (pendingRead ==> RC.QueueOf(inbound.View()) != [])
    }

    predicate EpochChanged()
      reads this
    {
      attached && epoch != attachedEpoch
    }

    ghost function Unread(): seq<seq<byte>>
      requires Valid()
      reads this, outbound.mem, inbound.mem
    {
      var q := RC.QueueOf(inbound.View());
      if pendingRead then q[1..] else q
    }

    /** Publishes one frame, or reports why not and changes nothing. */
    method Emit(flags: u16, kind: u32, correlation: u64, payload: seq<byte>) returns (err: Err)
      requires Valid()
      modifies outbound.mem
      ensures Valid() && inbound.View() == old(inbound.View())
      ensures err == EmitOutcome(attached, epoch != attachedEpoch, inlineBudget, handle, old(outbound.View()),
                                 flags, kind, correlation, payload)
      ensures err != NoError ==> outbound.mem[..] == old(outbound.mem[..])
      ensures err == NoError ==>
                var queue, f := RC.QueueOf(outbound.View()), EmitFrame(flags, kind, correlation, |payload|, handle);
                |queue| == old(|RC.QueueOf(outbound.View())|) + 1
                && queue[..|queue| - 1] == old(RC.QueueOf(outbound.View()))
                && Carries(queue[|queue| - 1], f, payload)
      ensures outbound.Outside() == old(outbound.Outside())
    {
      hide RM.ViewOf, And, LE, UnLE, FC.Validate, EmitFrame, Carries;
      if !attached { return ErrProtocol; }
      if |payload| > 0 && (|payload| % TWO32 > inlineBudget || FC.HDR_LEN + |payload| > slotSize) { return ErrPayload; }
      if EpochChanged() { return ErrEpoch; }
      var slot := outbound.ProduceBegin();
      if slot == -1 { return ErrWouldBlock; }
      if slotSize < FC.HDR_LEN { return ErrProtocol; }
      err := EmitInto(flags, kind, correlation, payload, slot);
    }

    /** `Publish`: a one-way notification, of correlation 0. */
    method Publish(kind: u32, payload: seq<byte>) returns (err: Err)
      requires Valid()
      modifies outbound.mem
      ensures Valid() && inbound.View() == old(inbound.View()) && outbound.Outside() == old(outbound.Outside())
      ensures err == EmitOutcome(attached, epoch != attachedEpoch, inlineBudget, handle, old(outbound.View()),
                                 FC.F_NOTIFICATION, kind, 0, payload)
      ensures err != NoError ==> outbound.mem[..] == old(outbound.mem[..])
      ensures err == NoError ==>
                var queue, f := RC.QueueOf(outbound.View()),
                  EmitFrame(FC.F_NOTIFICATION, kind, 0, |payload|, handle);
                |queue| == old(|RC.QueueOf(outbound.View())|) + 1
                && queue[..|queue| - 1] == old(RC.QueueOf(outbound.View()))
                && Carries(queue[|queue| - 1], f, payload)
    {
      err := Emit(FC.F_NOTIFICATION, kind, 0, payload);
    }

    /** The rest of `emit`, once a slot is held. */
    method EmitInto(flags: u16, kind: u32, correlation: u64, payload: seq<byte>, slot: nat) returns (err: Err)
      requires Valid() && FC.HDR_LEN + |payload| <= slotSize && |RC.QueueOf(outbound.View())| < outbound.capacity
      requires slot == outbound.at + RM.SlotAt(slotSize, RS.Index(outbound.capacity, outbound.View().head))
      modifies outbound.mem
      ensures Valid() && inbound.View() == old(inbound.View())
      ensures err == if FC.Validate(EmitFrame(flags, kind, correlation, |payload|, handle)) != FC.OK then ErrProtocol
              else NoError
      ensures err != NoError ==> outbound.mem[..] == old(outbound.mem[..])
      ensures err == NoError ==>
                var queue, f := RC.QueueOf(outbound.View()), EmitFrame(flags, kind, correlation, |payload|, handle);
                |queue| == old(|RC.QueueOf(outbound.View())|) + 1
                && queue[..|queue| - 1] == old(RC.QueueOf(outbound.View()))
                && Carries(queue[|queue| - 1], f, payload)
      ensures outbound.Outside() == old(outbound.Outside())
    {
      hide FC.Validate, EmitFrame, Image, RM.ViewOf, FC.Bytes, And, LE, UnLE;
      var f := EmitFrame(flags, kind, correlation, |payload|, handle);
      ghost var before := outbound.View();
      ghost var index := RS.Index(outbound.capacity, before.head);
      var ok := FillSlot(f, payload, slot);
      if !ok { return ErrProtocol; }
      ImageCarries(before.slots[index], f, payload);
      ghost var all := outbound.mem[..];
      outbound.ProduceCommit();
      OutsideRange(all, outbound.mem[..], outbound.at, outbound.End(), inbound.at, inbound.End());
      return NoError;
    }

    /** Header and payload into the held slot; no other slot, no counter and no other region changes. */
    method FillSlot(f: FC.Frame, payload: seq<byte>, slot: nat) returns (ok: bool)
      requires Valid() && FC.HDR_LEN + |payload| <= slotSize && |RC.QueueOf(outbound.View())| < outbound.capacity
      requires slot == outbound.at + RM.SlotAt(slotSize, RS.Index(outbound.capacity, outbound.View().head))
      modifies outbound.mem
      ensures Valid() && RC.QueueOf(outbound.View()) == old(RC.QueueOf(outbound.View()))
      ensures ok <==> FC.Validate(f) == FC.OK
      ensures !ok ==> outbound.mem[..] == old(outbound.mem[..])
      ensures ok ==> var v := old(outbound.View());
                     var index := RS.Index(outbound.capacity, v.head);
                     index < |v.slots|
                       && outbound.View() == v.(slots := v.slots[index := Image(v.slots[index], f, payload)])
      ensures inbound.View() == old(inbound.View()) && outbound.Outside() == old(outbound.Outside())
    {
      hide FC.Validate, FC.Bytes, RM.ViewOf, Image, And, LE, UnLE, FC.Has, Splice, RC.Attachable, RC.QueueOf;
      ghost var before, all := outbound.View(), outbound.mem[..];
      outbound.IndexInside(before.head);
      ghost var index := RS.Index(outbound.capacity, before.head);
      RM.SlotInside(slotSize, outbound.capacity, index);
      WriteImage(all, outbound.at, slotSize, outbound.capacity, index, f, payload);
      SameQueue(before, index, Image(before.slots[index], f, payload));
      var n := FC.Encode(f, outbound.mem, slot, slotSize);
      if n != FC.HDR_LEN { return false; }
      Copy(outbound.mem, slot + FC.HDR_LEN, payload);
      OutsideRange(all, outbound.mem[..], outbound.at, outbound.End(), inbound.at, inbound.End());
      return true;
    }

    /** Takes the next inbound event. The payload lies at `at..at+|event.payload|` of the mapping and stays
        valid until the next `Poll`: the slot it lies in is released only then. */
    method Poll() returns (result: Polled, err: Err, at: nat)
      requires Valid()
      modifies this`pendingRead, inbound.mem
      ensures Valid() && outbound.View() == old(outbound.View())
      ensures err == if !attached then ErrProtocol else if epoch != attachedEpoch then ErrEpoch else NoError
      ensures err != NoError ==>
                inbound.mem[..] == old(inbound.mem[..]) && pendingRead == old(pendingRead) && result == Skipped
      ensures err == NoError && old(Unread()) == [] ==> result == Skipped && Unread() == [] && !pendingRead
      ensures err == NoError && old(Unread()) != [] ==>
                result == PollSlot(old(Unread())[0])
                && Unread() == (if result.Panicked? then old(Unread()) else old(Unread())[1..])
                && (pendingRead <==> result.Got?)
      ensures result.Got? ==> at + |result.event.payload| <= inbound.mem.Length
                              && inbound.mem[..][at..at + |result.event.payload|] == result.event.payload
                              && inbound.at <= at && at + |result.event.payload| <= inbound.End()
      ensures inbound.Outside() == old(inbound.Outside())
    {
      hide PollSlot, RM.ViewOf, And, LE, UnLE;
      at := inbound.at;
      if !attached { return Skipped, ErrProtocol, at; }
      if EpochChanged() { return Skipped, ErrEpoch, at; }
      ReleaseHeld();
      result, at := PollNext();
      err := NoError;
    }

    /** Gives back the slot the previous `Poll` returned. */
    method ReleaseHeld()
      requires Valid()
      modifies this`pendingRead, inbound.mem
      ensures Valid() && outbound.View() == old(outbound.View()) && inbound.Outside() == old(inbound.Outside())
      ensures !pendingRead && RC.QueueOf(inbound.View()) == old(Unread())
    {
      hide RM.ViewOf, And, LE, UnLE;
      if pendingRead {
        ghost var all := inbound.mem[..];
        inbound.ConsumeCommit();
        pendingRead := false;
        OutsideRange(all, inbound.mem[..], inbound.at, inbound.End(), outbound.at, outbound.End());
      }
    }

    method PollNext() returns (result: Polled, at: nat)
      requires Valid() && !pendingRead
      modifies this`pendingRead, inbound.mem
      ensures Valid() && outbound.View() == old(outbound.View()) && inbound.Outside() == old(inbound.Outside())
      ensures old(Unread()) == [] ==> result == Skipped && Unread() == [] && !pendingRead
      ensures old(Unread()) != [] ==>
                result == PollSlot(old(Unread())[0])
                && Unread() == (if result.Panicked? then old(Unread()) else old(Unread())[1..])
                && (pendingRead <==> result.Got?)
      ensures result.Got? ==> at + |result.event.payload| <= inbound.mem.Length
                              && inbound.mem[..][at..at + |result.event.payload|] == result.event.payload
                              && inbound.at <= at && at + |result.event.payload| <= inbound.End()
    {
      hide PollSlot, RM.ViewOf, And, LE, UnLE, RC.QueueOf, RC.Attachable;
      at := inbound.at;
      var slot := inbound.ConsumeBegin();
      if slot == -1 { return Skipped, at; }
      assert inbound.mem[..][slot..slot + slotSize] == inbound.mem[slot..slot + slotSize];
      result := PollSlot(inbound.mem[slot..slot + slotSize]);
      match result {
        case Skipped => Discard();
        case Got(event) =>
          pendingRead := true;
          PlaceOf(inbound.mem[..], slot, slotSize, event);
          if event.payload != [] { at := slot + event.frame.payloadRef; }
        case Panicked =>
      }
    }

    /** Consumes the slot just looked at. */
    method Discard()
      requires Valid() && !pendingRead && RC.QueueOf(inbound.View()) != []
      modifies inbound.mem
      ensures Valid() && outbound.View() == old(outbound.View()) && inbound.Outside() == old(inbound.Outside())
      ensures RC.QueueOf(inbound.View()) == old(RC.QueueOf(inbound.View()))[1..]
    {
      hide RM.ViewOf, And, LE, UnLE;
      ghost var all := inbound.mem[..];
      inbound.ConsumeCommit();
      OutsideRange(all, inbound.mem[..], inbound.at, inbound.End(), outbound.at, outbound.End());
    }

    /** `RequestFragment`, `ReplyFragment` and `Cancel` refuse the correlation 0, and an empty fragment that
        announces another one; otherwise they emit with their pattern flag. */
    method Fragment(pattern: u16, kind: u32, correlation: u64, payload: seq<byte>, more: bool) returns (err: Err)
      requires Valid() && (pattern == FC.F_REQUEST || pattern == FC.F_REPLY || (pattern == FC.F_CANCEL && !more))
      modifies outbound.mem
      ensures Valid() && inbound.View() == old(inbound.View()) && outbound.Outside() == old(outbound.Outside())
      ensures err == if correlation == 0 || (more && payload == []) then ErrProtocol
                     else EmitOutcome(attached, epoch != attachedEpoch, inlineBudget, handle, old(outbound.View()),
                                      FragmentFlags(pattern, more), kind, correlation, payload)
      ensures err != NoError ==> outbound.mem[..] == old(outbound.mem[..])
      ensures err == NoError ==>
                var queue, f := RC.QueueOf(outbound.View()),
                  EmitFrame(FragmentFlags(pattern, more), kind, correlation, |payload|, handle);
                |queue| == old(|RC.QueueOf(outbound.View())|) + 1
                && queue[..|queue| - 1] == old(RC.QueueOf(outbound.View()))
                && Carries(queue[|queue| - 1], f, payload)
    {
      if correlation == 0 { return ErrProtocol; }
      if more && payload == [] { return ErrProtocol; }
      err := Emit(FragmentFlags(pattern, more), kind, correlation, payload);
    }
  }

  function FragmentFlags(pattern: u16, more: bool): u16
    requires pattern <= FC.F_CANCEL
  {
    if more then pattern + FC.F_MORE else pattern
  }

  /** Fragment headers are always valid within the payload limit: `emit` then never fails to encode. */
  lemma FragmentFrameIsValid(pattern: u16, kind: u32, correlation: u64, len: u32, more: bool, handle: u32)
    requires pattern == FC.F_REQUEST || pattern == FC.F_REPLY || (pattern == FC.F_CANCEL && !more)
    requires correlation != 0 && (more ==> len > 0) && (pattern == FC.F_CANCEL ==> len == 0)
    ensures var f := EmitFrame(FragmentFlags(pattern, more), kind, correlation, len, handle);
      (FC.Validate(f) == FC.OK <==> len <= FC.MAX_PAYLOAD) && Bits(f.hdrFlags, pattern, more, len > 0)
      && f.eventKind == kind && f.correlationId == correlation
  {
    var f := EmitFrame(FragmentFlags(pattern, more), kind, correlation, len, handle);
    FragmentBits(pattern, more, len > 0);
    ValidFromBits(f, pattern, more, len > 0);
  }

  /** The flag tests `Validate` makes, answered for a fragment header. */
  ghost predicate Bits(flags: u16, pattern: u16, more: bool, inline: bool) {
    && And(flags, FC.UNKNOWN_MASK) == 0 && And(flags, FC.PATTERN_MASK) == pattern && SingleBit(pattern)
    && And(flags, FC.PLACEMENT_MASK) == (if inline then 1 else 0) && SingleBit(1)
    && (FC.Has(flags, FC.F_MORE) <==> more) && !FC.Has(flags, FC.F_ARENA) && !FC.Has(flags, FC.F_NOTIFICATION)
    && (FC.Has(flags, FC.F_REQUEST) <==> pattern == FC.F_REQUEST)
    && (FC.Has(flags, FC.F_REPLY) <==> pattern == FC.F_REPLY)
    && (FC.Has(flags, FC.F_CANCEL) <==> pattern == FC.F_CANCEL)
  }

  lemma FragmentBits(pattern: u16, more: bool, inline: bool)
    requires pattern == FC.F_REQUEST || pattern == FC.F_REPLY || (pattern == FC.F_CANCEL && !more)
    ensures Bits(if inline then WithInline(FragmentFlags(pattern, more)) else FragmentFlags(pattern, more),
                 pattern, more, inline)
  {
    hide And, SingleBit, Pow2;
    var flags := pattern + (if more then FC.F_MORE else 0) + (if inline then 1 else 0);
    SmallPowers();
    FR.HighByte(flags);
    AndEven(flags, 30); AndEven(flags / 2, 15); AndMask(flags / 4, 4); AndMask(flags, 2);
    FC.FlagBit(flags, 7); FC.FlagBit(flags, 1); FC.FlagBit(flags, 2);
    FC.FlagBit(flags, 3); FC.FlagBit(flags, 4); FC.FlagBit(flags, 5);
    Pow2IsSingleBit(0); Pow2IsSingleBit(3); Pow2IsSingleBit(4); Pow2IsSingleBit(5);
  }

  lemma SmallPowers()
    ensures Pow2(0) == 1 && Pow2(1) == 2 && Pow2(2) == 4 && Pow2(3) == 8 && Pow2(4) == 16
    ensures Pow2(5) == 32 && Pow2(7) == 128 && Pow2(8) == 256
  {}

  lemma ValidFromBits(f: FC.Frame, pattern: u16, more: bool, inline: bool)
    requires Bits(f.hdrFlags, pattern, more, inline) && (pattern == FC.F_REQUEST || pattern == FC.F_REPLY || !more)
    requires f.wireVersion == FC.WIRE_VERSION && f.correlationId != 0 && f.generation == 0
    requires (inline <==> f.payloadLen > 0) && (!inline ==> f.payloadRef == 0) && (more ==> inline)
    ensures FC.Validate(f) == FC.OK <==> f.payloadLen <= FC.MAX_PAYLOAD
  {
    hide And, SingleBit, FC.Has;
  }

  /** Such a slot exists: a valid inline request whose reference lies just below 2^64. */
  lemma PollPanics() returns (slot: seq<byte>)
    ensures |slot| == 128 && PollSlot(slot).Panicked?
  {
    hide FC.Validate, FC.Bytes, And;
    var f := FC.Frame(9, FC.WIRE_VERSION, 1, 0, 1, 0, 0, TWO64 - 10, 64, 0, 0, 0);
    slot := FC.Bytes(f) + seq(64, _ => 0);
    FragmentBits(FC.F_REQUEST, false, true);
    hide Bits;
    WrappedIsValid(f);
    FC.DecodeOfBytes(f, seq(64, _ => 0));
    FC.OddIsInline(9);
    ModUnique(TWO64 - 10 + 64, TWO64, 1, 54);
  }

  /** `Validate` looks at the reference of an empty payload only. */
  lemma WrappedIsValid(f: FC.Frame)
    requires Bits(f.hdrFlags, FC.F_REQUEST, false, true) && f.wireVersion == FC.WIRE_VERSION
    requires 0 < f.payloadLen <= FC.MAX_PAYLOAD && f.correlationId != 0 && f.generation == 0
    ensures FC.Validate(f) == FC.OK
  {
    ValidFromBits(f, FC.F_REQUEST, false, true);
  }
}
