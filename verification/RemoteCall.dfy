/** A whole remote call over four rings: caller to host, host to server, and back. What the other modules show of
    rings, clients, caller and runtime is put together here; the host is any relay that forwards the messages of
    the call in order. */
module RemoteCall {
  import opened Words
  import FC = FrameCodec
  import MC = ModuleCodec
  import BC = BusClient
  import BS = BusSteps
  import TD = TrainDelivery
  import CA = Caller
  import RH = RuntimeHistory
  import opened Fragments
  import opened Runtime
  import opened RuntimeSafety
  import opened EndToEnd

  // ------------------------------------------------------------------ messages

  /** The events of one correlation. */
  function OfEvents(events: seq<BC.Event>, c: u64): seq<BC.Event> {
    if events == [] then []
    else
      var last := events[|events| - 1];
      OfEvents(events[..|events| - 1], c) + (if last.frame.correlationId == c then [last] else [])
  }

  lemma {:induction false} OfEventsAppend(a: seq<BC.Event>, b: seq<BC.Event>, c: u64)
    ensures OfEvents(a + b, c) == OfEvents(a, c) + OfEvents(b, c)
  {
    if b == [] {
      assert a + b == a;
    } else {
      assert (a + b)[..|a + b| - 1] == a + b[..|b| - 1];
      OfEventsAppend(a, b[..|b| - 1], c);
    }
  }

  lemma {:induction false} OfEventsOwn(events: seq<BC.Event>, c: u64)
    ensures forall e :: e in OfEvents(events, c) ==> e.frame.correlationId == c && e in events
  {
    if events != [] { OfEventsOwn(events[..|events| - 1], c); }
  }

  /** The same message in another frame: what a relay may not change. */
  ghost predicate SameMessage(e: BC.Event, e': BC.Event) {
    && FC.Validate(e'.frame) == FC.OK
    && e'.frame.eventKind == e.frame.eventKind && e'.frame.correlationId == e.frame.correlationId
       && e'.payload == e.payload
    && (FC.Has(e'.frame.hdrFlags, FC.F_MORE) <==> FC.Has(e.frame.hdrFlags, FC.F_MORE))
    && (FC.Has(e'.frame.hdrFlags, FC.F_REQUEST) <==> FC.Has(e.frame.hdrFlags, FC.F_REQUEST))
    && (FC.Has(e'.frame.hdrFlags, FC.F_REPLY) <==> FC.Has(e.frame.hdrFlags, FC.F_REPLY))
    && (FC.Has(e'.frame.hdrFlags, FC.F_CANCEL) <==> FC.Has(e.frame.hdrFlags, FC.F_CANCEL))
  }

  ghost predicate Forwarded(read: seq<BC.Event>, written: seq<BC.Event>) {
    |written| == |read| && forall i :: 0 <= i < |read| ==> SameMessage(read[i], written[i])
  }

  lemma ForwardedCarries(read: seq<BC.Event>, written: seq<BC.Event>, t: seq<Fragment>, pattern: u16)
    requires Forwarded(read, written) && CA.CarriedAll(read, t, pattern)
    requires pattern == FC.F_REQUEST || pattern == FC.F_REPLY
    ensures CA.CarriedAll(written, t, pattern)
  {
    hide FC.Validate, FC.Has;
  }

  // --------------------------------------------------------------------- wires

  /** One ring with its two clients, from the start of the call on. */
  datatype Wire = Wire(first: BS.Sys, turns: seq<BS.Turn>)

  /** Between calls at first; both clients were told the ring's slot size; nothing on it overruns its reader; and
      nothing unread belongs to the correlation `c`. */
  ghost predicate WireOk(w: Wire, c: u64) {
    && BS.Quiet(w.first) && BS.SameSlots(w.first) && BS.Harmless(w.first) && w.first.delivered == []
    && OfEvents(BC.Events(w.first.ring.published[BS.Consumed(w.first)..]), c) == []
  }

  function Last(w: Wire): BS.Sys
    requires w.first.ring.shared.capacity > 0
  {
    BS.Run(w.first, w.turns)
  }

  lemma WireHasRoom(w: Wire, c: u64)
    requires WireOk(w, c)
    ensures w.first.ring.shared.capacity > 0
  {}

  /** The messages of `c` put on the wire, and those taken off it. */
  function Written(w: Wire, c: u64): seq<BC.Event>
    requires w.first.ring.shared.capacity > 0
  {
    OfEvents(BS.EventsOf(BS.Successes(Last(w).done)), c)
  }

  function Read(w: Wire, c: u64): seq<BC.Event>
    requires w.first.ring.shared.capacity > 0
  {
    OfEvents(Last(w).delivered, c)
  }

  /** What is read of a call is what was written, up to what is still on its way. */
  lemma ReadIsWritten(w: Wire, c: u64)
    requires WireOk(w, c)
    ensures w.first.ring.shared.capacity > 0
    ensures Read(w, c) <= Written(w, c)
    ensures |Read(w, c)| == |Written(w, c)| ==> Read(w, c) == Written(w, c)
  {
    hide BS.Quiet, BS.Harmless, BS.EventsOf, BS.Successes, BS.Consumed, OfEvents, BS.Run;
    WireHasRoom(w, c);
    BS.AnsweredAtFirst(w.first);
    BS.DeliveredAreAccepted(w.first, w.turns);
    var queued := BC.Events(w.first.ring.published[BS.Consumed(w.first)..]);
    var added := BS.EventsOf(BS.Successes(Last(w).done));
    var all := queued + added;
    assert w.first.delivered + queued + added == all;
    OfEventsAppend(queued, added, c);
    var d := Last(w).delivered;
    OfEventsAppend(d, all[|d|..], c);
    assert all == d + all[|d|..];
    assert [] + OfEvents(added, c) == OfEvents(added, c);
  }

  // ------------------------------------------------------------ fragments as orders

  /** The emit of one fragment. */
  function OrderOf(side: TD.Side, f: Fragment): BS.Order
    requires side.pattern <= FC.F_CANCEL
  {
    BS.Emit(BC.FragmentFlags(side.pattern, f.more), f.kind, f.correlation, f.payload, side.budget, side.handle, false)
  }

  /** The geometry under which a full fragment and its frame header fit a slot. */
  predicate Roomy(side: TD.Side, w: Wire) {
    && (side.pattern == FC.F_REQUEST || side.pattern == FC.F_REPLY)
    && side.budget <= FC.MAX_PAYLOAD && side.budget + FC.HDR_LEN <= w.first.ring.shared.slotSize
  }

  predicate Sendable(side: TD.Side, f: Fragment) { f.correlation != 0 && 0 < |f.payload| <= side.budget }

  /** In that geometry a fragment is never refused: it is sent, or it waits for room. */
  lemma NeverRefused(side: TD.Side, w: Wire, f: Fragment, d: BS.Done)
    requires Roomy(side, w) && Sendable(side, f) && d.order == OrderOf(side, f)
    requires BS.SameSlots(w.first) && BS.Answer(w.first.emitSlot, w.first.ring.shared.slotSize, d)
    ensures d.err == BC.NoError || d.err == BC.ErrWouldBlock
  {
    hide FC.Validate;
    BC.FragmentFrameIsValid(side.pattern, f.kind, f.correlation, |f.payload|, f.more, side.handle);
    ModUnique(|f.payload|, TWO32, 0, |f.payload|);
  }

  /** What a sent fragment yields carries it. */
  lemma OrderCarries(side: TD.Side, f: Fragment)
    requires side.pattern == FC.F_REQUEST || side.pattern == FC.F_REPLY
    requires side.budget <= FC.MAX_PAYLOAD && Sendable(side, f)
    ensures |BS.EventOf(OrderOf(side, f))| == 1
    ensures var e := BS.EventOf(OrderOf(side, f))[0];
      CA.Carried(e, f, side.pattern) && e.frame.correlationId == f.correlation
  {
    hide FC.Validate, FC.Has;
    CA.EmittedIsCarried(f, side.pattern, side.handle);
    ModUnique(|f.payload|, TWO32, 0, |f.payload|);
  }

  /** Orders that are the fragments `t`. */
  ghost predicate AreOrders(side: TD.Side, orders: seq<BS.Order>, t: seq<Fragment>)
    requires side.pattern <= FC.F_CANCEL
  {
    |orders| == |t| && forall i :: 0 <= i < |t| ==> orders[i] == OrderOf(side, t[i]) && Sendable(side, t[i])
  }

  /** The events of a correlation among sent fragments carry the fragments of that correlation. */
  lemma {:induction false} OrdersCarry(side: TD.Side, orders: seq<BS.Order>, t: seq<Fragment>, c: u64)
    requires side.pattern == FC.F_REQUEST || side.pattern == FC.F_REPLY
    requires side.budget <= FC.MAX_PAYLOAD && AreOrders(side, orders, t)
    ensures CA.CarriedAll(OfEvents(BS.EventsOf(orders), c), Of(t, c), side.pattern)
  {
    hide CA.CarriedAll, CA.Carried, BS.EventOf, Sendable, OrderOf, OfEvents, Of, BS.EventsOf;
    if t == [] {
      NoneCarried(c, side.pattern);
      assert orders == [];
    } else {
      var n := |t| - 1;
      OrdersCarry(side, orders[..n], t[..n], c);
      OrderCarries(side, t[n]);
      var e := BS.EventOf(orders[n])[0];
      assert BS.EventOf(orders[n]) == [e];
      LastOrder(orders, c);
      OneEvent(e, c);
      LastFragment(t, c);
      OneMoreCarried(OfEvents(BS.EventsOf(orders[..n]), c), Of(t[..n], c), side.pattern, e, t[n], c);
    }
  }

  lemma NoneCarried(c: u64, pattern: u16)
    ensures CA.CarriedAll(OfEvents(BS.EventsOf([]), c), Of([], c), pattern)
  {}

  lemma LastOrder(orders: seq<BS.Order>, c: u64)
    requires orders != []
    ensures var n := |orders| - 1;
      OfEvents(BS.EventsOf(orders), c) == OfEvents(BS.EventsOf(orders[..n]), c) + OfEvents(BS.EventOf(orders[n]), c)
  {
    hide BS.EventOf, OfEvents;
    OfEventsAppend(BS.EventsOf(orders[..|orders| - 1]), BS.EventOf(orders[|orders| - 1]), c);
  }

  lemma LastFragment(t: seq<Fragment>, c: u64)
    requires t != []
    ensures var n := |t| - 1; Of(t, c) == Of(t[..n], c) + (if t[n].correlation == c then [t[n]] else [])
  {}

  lemma OneMoreCarried(events: seq<BC.Event>, t: seq<Fragment>, pattern: u16, e: BC.Event, f: Fragment, c: u64)
    requires CA.CarriedAll(events, t, pattern) && CA.Carried(e, f, pattern)
    ensures CA.CarriedAll(events + (if f.correlation == c then [e] else []),
            t + (if f.correlation == c then [f] else []), pattern)
  {
    hide CA.Carried;
  }

  lemma OneEvent(e: BC.Event, c: u64)
    ensures OfEvents([e], c) == if e.frame.correlationId == c then [e] else []
  {
    assert [e][..0] == [];
  }

  // ------------------------------------------------------------------- the caller

  /** Whether an order puts a message of `c` on the wire. */
  predicate Concerns(o: BS.Order, c: u64) { OfEvents(BS.EventOf(o), c) != [] }

  /** What became of the orders that concern `c`. */
  function Tries(done: seq<BS.Done>, c: u64): seq<BS.Done> {
    if done == [] then []
    else
      var last := done[|done| - 1];
      Tries(done[..|done| - 1], c) + (if Concerns(last.order, c) then [last] else [])
  }

  /** The orders of `c` are these fragments, each offered once, and none found the ring full. */
  ghost predicate OfferedOnce(side: TD.Side, done: seq<BS.Done>, t: seq<Fragment>, c: u64)
    requires side.pattern <= FC.F_CANCEL
  {
    var tries := Tries(done, c);
    |tries| == |t| && forall i :: 0 <= i < |t| ==>
      tries[i].order == OrderOf(side, t[i]) && tries[i].err != BC.ErrWouldBlock
  }

  lemma {:induction false} TriesAreDone(done: seq<BS.Done>, c: u64)
    ensures forall d :: d in Tries(done, c) ==> d in done
  {
    hide Concerns;
    if done != [] { TriesAreDone(done[..|done| - 1], c); }
  }

  lemma {:induction false} OnlyTriesCount(done: seq<BS.Done>, c: u64)
    ensures OfEvents(BS.EventsOf(BS.Successes(done)), c) == OfEvents(BS.EventsOf(BS.Successes(Tries(done, c))), c)
  {
    hide BS.EventOf, OfEvents, BS.EventsOf, BS.Successes, Tries;
    if done == [] {
      NoTries(c);
    } else {
      var front, last := done[..|done| - 1], done[|done| - 1];
      assert done == front + [last];
      OnlyTriesCount(front, c);
      OneMoreDone(front, last, c);
      LastTry(front, last, c);
      OneMoreDone(Tries(front, c), last, c);
      Unconcerned(last, c);
      var none: seq<BC.Event>, tries := [], Tries(front, c);
      assert tries + [] == tries && forall es: seq<BC.Event> :: es + none == es;
    }
  }

  lemma Unconcerned(d: BS.Done, c: u64)
    ensures !Concerns(d.order, c) ==> OfEvents(BS.EventOf(d.order), c) == []
  {}

  lemma NoTries(c: u64)
    ensures Tries([], c) == []
  {}

  lemma LastTry(front: seq<BS.Done>, last: BS.Done, c: u64)
    ensures Tries(front + [last], c) == Tries(front, c) + (if Concerns(last.order, c) then [last] else [])
  {
    hide Concerns;
    assert (front + [last])[..|front|] == front;
  }

  lemma OneMoreDone(front: seq<BS.Done>, last: BS.Done, c: u64)
    ensures OfEvents(BS.EventsOf(BS.Successes(front + [last])), c)
            == OfEvents(BS.EventsOf(BS.Successes(front)), c)
               + (if last.err == BC.NoError then OfEvents(BS.EventOf(last.order), c) else [])
  {
    hide BS.EventOf, OfEvents, BS.EventsOf;
    BS.SuccessesGrow(front, last);
    var orders := BS.Successes(front);
    if last.err == BC.NoError {
      LastOrder(orders + [last.order], c);
      assert (orders + [last.order])[..|orders|] == orders;
    } else {
      assert orders + [] == orders;
    }
  }

  lemma {:induction false} AllSucceed(side: TD.Side, tries: seq<BS.Done>, t: seq<Fragment>)
    requires side.pattern <= FC.F_CANCEL && |tries| == |t|
    requires forall i :: 0 <= i < |t| ==> tries[i] == BS.Done(OrderOf(side, t[i]), BC.NoError) && Sendable(side, t[i])
    ensures AreOrders(side, BS.Successes(tries), t)
  {
    hide OrderOf, Sendable;
    if t != [] {
      var n := |t| - 1;
      AllSucceed(side, tries[..n], t[..n]);
      assert tries == tries[..n] + [tries[n]];
      BS.SuccessesGrow(tries[..n], tries[n]);
    }
  }

  /** The caller's half: in a roomy geometry a train offered once, without finding the ring full, is on the wire. */
  lemma CallerWrites(side: TD.Side, w: Wire, t: seq<Fragment>, c: u64)
    requires WireOk(w, c) && Roomy(side, w) && w.first.ring.shared.capacity > 0
    requires OfferedOnce(side, Last(w).done, t, c)
    requires forall f :: f in t ==> Sendable(side, f) && f.correlation == c
    ensures CA.CarriedAll(Written(w, c), t, side.pattern)
  {
    hide WireOk, OrderOf, Sendable, BS.Answer, BS.EventsOf, BS.Successes, Tries, CA.CarriedAll, Of, OfEvents, Roomy,
         BS.Run;
    RoomyFacts(side, w);
    var done := Last(w).done;
    var tries := Tries(done, c);
    TriesAreDone(done, c);
    WireAnswers(w, c);
    forall i | 0 <= i < |t| ensures tries[i] == BS.Done(OrderOf(side, t[i]), BC.NoError) && Sendable(side, t[i]) {
      assert tries[i] in tries && t[i] in t;
      NeverRefused(side, w, t[i], tries[i]);
    }
    AllSucceed(side, tries, t);
    OnlyTriesCount(done, c);
    OrdersCarry(side, BS.Successes(tries), t, c);
    OfAll(t, c);
  }

  lemma RoomyFacts(side: TD.Side, w: Wire)
    requires Roomy(side, w)
    ensures side.pattern == FC.F_REQUEST || side.pattern == FC.F_REPLY
    ensures side.budget <= FC.MAX_PAYLOAD
  {}

  lemma WireAnswers(w: Wire, c: u64)
    requires WireOk(w, c)
    ensures w.first.ring.shared.capacity > 0
    ensures BS.SameSlots(w.first)
    ensures forall d :: d in Last(w).done ==> BS.Answer(w.first.emitSlot, w.first.ring.shared.slotSize, d)
  {
    hide BS.Quiet, BS.Harmless, BS.EventsOf, BS.Successes, BS.Consumed, OfEvents, BS.Answer, BS.Run,
         BS.Good;
    WireHasRoom(w, c);
    BS.QuietIsGood(w.first);
    BS.AnsweredAtFirst(w.first);
    BS.RunAnswered(BS.BaseOf(w.first), w.first.todo, w.first, w.turns);
  }

  // ------------------------------------------------------------------- the server

  /** One attempt of the serving loop to send its next fragment. */
  datatype Try = Try(f: Fragment, input: Input)

  predicate Attempt(s: State, input: Input) {
    s.mode.Sending? && s.rest != [] && (input.SendAccepted? || input.SendBlocked? || input.SendFailed?)
  }

  function Attempts(cfg: Config, s: State, inputs: seq<Input>): seq<Try>
    decreases |inputs|
  {
    if inputs == [] then []
    else
      (if Attempt(s, inputs[0]) then [Try(s.rest[0], inputs[0])] else [])
      + Attempts(cfg, Step(cfg, s, inputs[0]), inputs[1..])
  }

  /** The events its polls return, as far as they are acceptable at all. */
  function PolledEvents(cfg: Config, s: State, inputs: seq<Input>): seq<BC.Event>
    decreases |inputs|
  {
    if inputs == [] then []
    else
      (if s.mode.AtPoll? && inputs[0].PollEvent? && FC.Validate(inputs[0].event.frame) == FC.OK
       then [inputs[0].event] else [])
      + PolledEvents(cfg, Step(cfg, s, inputs[0]), inputs[1..])
  }

  lemma {:induction false} ArrivalsAreRead(cfg: Config, s: State, inputs: seq<Input>, c: u64)
    ensures Arrivals(cfg, s, inputs, c) == OfEvents(PolledEvents(cfg, s, inputs), c)
    decreases |inputs|
  {
    hide Step, FC.Validate, OfEvents;
    if inputs == [] {
      NoEventsOf(c);
    } else {
      ArrivalsAreRead(cfg, Step(cfg, s, inputs[0]), inputs[1..], c);
      var later := PolledEvents(cfg, Step(cfg, s, inputs[0]), inputs[1..]);
      if s.mode.AtPoll? && inputs[0].PollEvent? && FC.Validate(inputs[0].event.frame) == FC.OK {
        OfEventsAppend([inputs[0].event], later, c);
        OneEvent(inputs[0].event, c);
      } else {
        assert [] + later == later;
      }
    }
  }

  lemma NoEventsOf(c: u64)
    ensures OfEvents([], c) == []
  {}

  /** Nothing makes the loop leave: no shutdown, no new epoch, no failed poll. */
  predicate Calm(input: Input) {
    !input.ContextDone? && !input.EpochSeen? && !input.PollFailed?
    && (input.SendBlocked? ==> !input.contextDone && !input.epochChanged)
  }

  /** As `Smooth`, for a request that is due by the instant `due` (0: at no time), but that the loop goes on is left to
      be shown. */
  ghost predicate Undisturbed(cfg: Config, x: Exchange, due: nat, s: State, inputs: seq<Input>, k: nat)
    requires x.callerBudget > MC.HEADER_LEN
    decreases |inputs|
  {
    inputs != [] ==>
      && Calm(inputs[0])
      && (Takes(s, inputs[0], x.c) ==>
            (x.c in s.assemblies || |s.assemblies| < MAX_IN_FLIGHT)
            && (k + 1 == |PartsOf(x)| ==> |s.jobs| < MAX_IN_FLIGHT && (due == 0 || inputs[0].now < due)))
      && (inputs[0].HandlerReturns? && inputs[0].correlation == x.c && x.c in s.workers && s.workers[x.c].Running?
          && x.c in s.jobs ==>
            Settle(s.jobs[x.c], inputs[0].response, inputs[0].status, inputs[0].clock) == (x.status, x.response))
      && Undisturbed(cfg, x, due, Step(cfg, s, inputs[0]), inputs[1..], if Takes(s, inputs[0], x.c) then k + 1 else k)
  }

  /** No job and no fragment to be sent is of correlation 0. */
  ghost predicate NonZero(s: State) {
    0 !in s.jobs && forall i :: 0 <= i < |s.rest| ==> s.rest[i].correlation != 0
  }

  /** A valid request has a correlation. */
  lemma RequestCorrelation(f: FC.Frame)
    requires FC.Validate(f) == FC.OK && FC.Has(f.hdrFlags, FC.F_REQUEST)
    ensures f.correlationId != 0
  {
    hide And;
    FC.OnePattern(f.hdrFlags);
  }

  lemma ReplyNonZero(cfg: Config, s: State, kind: u32, c: u64, stage: u32, trace: u64, status: u16, body: seq<byte>)
    requires NonZero(s) && c != 0 && cfg.budget > MC.HEADER_LEN
    ensures NonZero(Reply(cfg, s, kind, c, stage, trace, status, body))
  {
    hide MC.Bytes, Chunks, Normal;
    if stage != 0 {
      var (st, b) := Normal(status, body);
      TrainShape(kind, c, ResultHeader(st, stage, trace), b, cfg.budget - MC.HEADER_LEN);
    }
  }

  lemma RefuseNonZero(cfg: Config, s: State, c: u64, part: Part, stage: u32, trace: u64, status: u16)
    requires NonZero(s) && c != 0 && cfg.budget > MC.HEADER_LEN
    ensures NonZero(Refuse(cfg, s, c, part, stage, trace, status))
  {
    hide Reply;
    ReplyNonZero(cfg, Record(s, c, Refused(status), part).(
                        assemblies := s.assemblies - {c},
                        tally := s.tally.(immediate := s.tally.immediate + 1)), part.kind, c, stage, trace, status, []);
  }

  lemma RequestNonZero(cfg: Config, s: State, event: BC.Event, now: u64)
    requires NonZero(s) && event.frame.correlationId != 0 && cfg.budget > MC.HEADER_LEN
    ensures NonZero(Request(cfg, s, event, now))
  {
    hide Refuse, StageOf, MC.Decode, FC.Has, PartOf, MC.DeadlineExpired, Matches;
    var kind, c, d := event.frame.eventKind, event.frame.correlationId, MC.Decode(event.payload);
    var part := PartOf(kind, d, event.payload);
    var s1 := s.(tally := s.tally.(requests := s.tally.requests + 1));
    forall stage: u32, trace: u64, status: u16 ensures NonZero(Refuse(cfg, s1, c, part, stage, trace, status)) {
      RefuseNonZero(cfg, s1, c, part, stage, trace, status);
    }
  }

  lemma StepNonZero(cfg: Config, s: State, input: Input)
    requires Tables(s) && NonZero(s) && cfg.budget > MC.HEADER_LEN
    ensures NonZero(Step(cfg, s, input))
  {
    hide Request, Finish, Settle, FC.Validate, FC.Has, Tables;
    match input
    case PollEvent(event, now) =>
      if FC.Validate(event.frame) == FC.OK && FC.Has(event.frame.hdrFlags, FC.F_REQUEST) {
        RequestCorrelation(event.frame);
        RequestNonZero(cfg, s, event, now);
      }
    case Select => if s.done != [] { FinishNonZero(cfg, s); }
    case _ =>
  }

  lemma FinishNonZero(cfg: Config, s: State)
    requires Tables(s) && NonZero(s) && s.done != [] && cfg.budget > MC.HEADER_LEN
    ensures NonZero(Finish(cfg, s))
  {
    hide Reply, Tables, DoneKeys, Distinct;
    TakeDone(s);
    var r := s.done[0];
    var w := s.jobs[r.correlation];
    ReplyNonZero(cfg, s.(done := s.done[1..], jobs := s.jobs - {r.correlation},
                         tally := s.tally.(finished := s.tally.finished + 1)),
                 w.kind, r.correlation, w.stageId, w.traceId, r.status, r.body);
  }

  /** The fragment to be sent next fits the budget and can be decoded, so it is not empty. */
  lemma NextIsSendable(side: TD.Side, cfg: Config, s: State)
    requires RH.TrainsOk(cfg, s) && NonZero(s) && s.rest != [] && side.budget == cfg.budget
    ensures Sendable(side, s.rest[0])
  {
    hide Flatten;
    var t := s.trains[|s.trains| - 1];
    var i := |t| - |s.rest|;
    assert t in s.trains && s.rest[0] == t[i];
    WholeFragment(cfg, t, i);
  }

  lemma WholeFragment(cfg: Config, t: seq<Fragment>, i: nat)
    requires RH.CompleteTrain(cfg, t) && i < |t|
    ensures 0 < |t[i].payload| <= cfg.budget
  {
    assert RH.ResultFragment(cfg, t[i], MC.Decode(t[0].payload));
    hide RH.CompleteTrain, MC.Parse;
  }

  lemma {:induction false} AttemptsSendable(side: TD.Side, cfg: Config, s: State, inputs: seq<Input>)
    requires Sane(cfg, s) && NonZero(s) && cfg.budget > MC.HEADER_LEN && side.budget == cfg.budget
    ensures forall a :: a in Attempts(cfg, s, inputs) ==> Sendable(side, a.f)
    decreases |inputs|
  {
    hide Step, Tables, RH.TrainsOk, RH.Assembled, NonZero, Sendable;
    if inputs != [] {
      if Attempt(s, inputs[0]) { NextIsSendable(side, cfg, s); }
      StepSane(cfg, s, inputs[0]);
      StepNonZero(cfg, s, inputs[0]);
      AttemptsSendable(side, cfg, Step(cfg, s, inputs[0]), inputs[1..]);
    }
  }

  /** The attempts that were accepted. */
  function Accepted(tries: seq<Try>): seq<Fragment> {
    if tries == [] then []
    else
      Accepted(tries[..|tries| - 1])
      + (if tries[|tries| - 1].input.SendAccepted? then [tries[|tries| - 1].f] else [])
  }

  lemma {:induction false} AcceptedAppend(a: seq<Try>, b: seq<Try>)
    ensures Accepted(a + b) == Accepted(a) + Accepted(b)
  {
    if b == [] {
      assert a + b == a;
    } else {
      assert (a + b)[..|a + b| - 1] == a + b[..|b| - 1];
      AcceptedAppend(a, b[..|b| - 1]);
    }
  }

  /** What a run sends is what was accepted of it. */
  lemma {:induction false} OutIsAccepted(cfg: Config, s: State, inputs: seq<Input>)
    ensures Run(cfg, s, inputs).out == s.out + Accepted(Attempts(cfg, s, inputs))
    decreases |inputs|
  {
    hide Step, Accepted;
    NothingAccepted();
    if inputs != [] {
      var next := Step(cfg, s, inputs[0]);
      var now := if Attempt(s, inputs[0]) then [Try(s.rest[0], inputs[0])] else [];
      OutIsAccepted(cfg, next, inputs[1..]);
      AcceptedAppend(now, Attempts(cfg, next, inputs[1..]));
      StepOut(cfg, s, inputs[0]);
    }
  }

  lemma NothingAccepted()
    ensures Accepted([]) == []
  {}

  lemma StepOut(cfg: Config, s: State, input: Input)
    ensures Step(cfg, s, input).out == s.out + Accepted(if Attempt(s, input) then [Try(s.rest[0], input)] else [])
  {
    hide Request, Finish, Settle, FC.Validate, FC.Has;
    if Attempt(s, input) {
      var a := [Try(s.rest[0], input)];
      assert a[..0] == [];
    }
    match input
    case Select => if s.done != [] { FinishOut(cfg, s); }
    case PollEvent(event, now) => RequestOut(cfg, s, event, now);
    case _ =>
  }

  lemma FinishOut(cfg: Config, s: State)
    requires s.done != []
    ensures Finish(cfg, s).out == s.out
  {
    hide ReplyTrain;
  }

  lemma RequestOut(cfg: Config, s: State, event: BC.Event, now: u64)
    ensures Request(cfg, s, event, now).out == s.out
  {
    hide Refuse, StageOf, MC.Decode, FC.Has, PartOf, MC.DeadlineExpired, Matches;
    RefuseOut();
  }

  lemma RefuseOut()
    ensures forall cfg: Config, s: State, c: u64, part: Part, stage: u32, trace: u64, status: u16 ::
              Refuse(cfg, s, c, part, stage, trace, status).out == s.out
  {
    hide ReplyTrain;
  }

  /** An attempt and its order on the wire. */
  ghost predicate Matched(side: TD.Side, a: Try, d: BS.Done)
    requires side.pattern <= FC.F_CANCEL
  {
    && d.order == OrderOf(side, a.f)
    && (a.input.SendAccepted? <==> d.err == BC.NoError) && (a.input.SendBlocked? <==> d.err == BC.ErrWouldBlock)
  }

  /** The orders on the wire are the attempts of the loop. */
  ghost predicate AllMatched(side: TD.Side, tries: seq<Try>, done: seq<BS.Done>)
    requires side.pattern <= FC.F_CANCEL
  {
    |done| == |tries| && forall i :: 0 <= i < |tries| ==> Matched(side, tries[i], done[i])
  }

  lemma {:induction false} MatchedOrders(side: TD.Side, tries: seq<Try>, done: seq<BS.Done>)
    requires side.pattern <= FC.F_CANCEL && AllMatched(side, tries, done)
    requires forall a :: a in tries ==> Sendable(side, a.f)
    ensures AreOrders(side, BS.Successes(done), Accepted(tries))
  {
    hide OrderOf, Sendable;
    if tries != [] {
      var n := |tries| - 1;
      assert tries[n] in tries;
      MatchedOrders(side, tries[..n], done[..n]);
      assert done == done[..n] + [done[n]];
      assert Matched(side, tries[n], done[n]);
      BS.SuccessesGrow(done[..n], done[n]);
    }
  }

  /** One step of a loop that is alive, not disturbed, and not refused by its ring. */
  lemma StaysLive(cfg: Config, s: State, input: Input)
    requires Tables(s) && Live(s) && cfg.budget > MC.HEADER_LEN && Calm(input)
    requires Attempt(s, input) ==> !input.SendFailed?
    requires s.mode.Sending? ==> s.rest != []
    ensures Live(Step(cfg, s, input))
  {
    hide Request, Finish, Settle, FC.Validate, FC.Has, Tables;
    match input
    case Select => if s.done != [] { FinishLive(cfg, s); }
    case PollEvent(event, now) => RequestLive(cfg, s, event, now);
    case _ =>
  }

  lemma FinishLive(cfg: Config, s: State)
    requires Tables(s) && s.done != [] && cfg.budget > MC.HEADER_LEN
    ensures Live(Finish(cfg, s))
  {
    hide ReplyTrain, DoneKeys, Distinct;
    TakeDone(s);
  }

  lemma RequestLive(cfg: Config, s: State, event: BC.Event, now: u64)
    requires cfg.budget > MC.HEADER_LEN
    ensures Live(Request(cfg, s, event, now))
  {
    hide ReplyTrain, StageOf, MC.Decode, FC.Has, PartOf, MC.DeadlineExpired, Matches;
    PartKind(event.frame.eventKind, MC.Decode(event.payload), event.payload);
  }

  /** A loop whose ring refuses nothing goes on until the end of the run. */
  lemma {:induction false} UndisturbedIsSmooth(cfg: Config, x: Exchange, s: State, inputs: seq<Input>, k: nat)
    requires ExchangeOk(cfg, x) && Sane(cfg, s) && Live(s) && Undisturbed(cfg, x, x.deadlineNs, s, inputs, k)
    requires forall a :: a in Attempts(cfg, s, inputs) ==> !a.input.SendFailed?
    ensures Smooth(cfg, x, s, inputs, k)
    decreases |inputs|
  {
    hide Step, Tables, RH.TrainsOk, RH.Assembled, ExchangeOk, Settle, PartsOf, FC.Validate, MC.DeadlineExpired;
    Budgets(cfg, x);
    if inputs != [] {
      var next := Step(cfg, s, inputs[0]);
      var later := Attempts(cfg, next, inputs[1..]);
      if Attempt(s, inputs[0]) {
        assert Attempts(cfg, s, inputs)[0] == Try(s.rest[0], inputs[0]);
        assert Attempts(cfg, s, inputs)[0] in Attempts(cfg, s, inputs);
      }
      forall a | a in later ensures !a.input.SendFailed? { assert a in Attempts(cfg, s, inputs); }
      if s.mode.Sending? { SendingHasRest(cfg, s); }
      StaysLive(cfg, s, inputs[0]);
      StepSane(cfg, s, inputs[0]);
      UndisturbedIsSmooth(cfg, x, next, inputs[1..], if Takes(s, inputs[0], x.c) then k + 1 else k);
    }
  }

  lemma Budgets(cfg: Config, x: Exchange)
    requires ExchangeOk(cfg, x)
    ensures cfg.budget > MC.HEADER_LEN && x.callerBudget > MC.HEADER_LEN
  {}

  lemma SendingHasRest(cfg: Config, s: State)
    requires RH.TrainsOk(cfg, s) && s.mode.Sending?
    ensures s.rest != []
  {}

  // ------------------------------------------------------------------ the whole call

  /** One call and everything around it: the runtime before it and its inputs from then on, the polls of the caller,
      the four rings (request to the host, request to the server, reply to the host, reply to the caller), and the
      two clients' handles. */
  datatype Setting = Setting(
    cfg: Config, x: Exchange, s: State, inputs: seq<Input>, inbox: seq<CA.Polled>, expires: bool,
    ask: Wire, bring: Wire, reply: Wire, back: Wire, callerHandle: u32, serverHandle: u32)
  {
    function CallerSide(): TD.Side { TD.Side(FC.F_REQUEST, x.callerBudget, callerHandle) }
    function ServerSide(): TD.Side { TD.Side(FC.F_REPLY, cfg.budget, serverHandle) }
    function End(): State { Run(cfg, s, inputs) }
  }

  /** The rings are sound, each client knows its slot size, and on both sides a full fragment and its frame header fit
      a slot and the payload limit. */
  ghost predicate Fitted(p: Setting) {
    && WireOk(p.ask, p.x.c) && WireOk(p.bring, p.x.c) && WireOk(p.reply, p.x.c) && WireOk(p.back, p.x.c)
    && Roomy(p.CallerSide(), p.ask) && Roomy(p.ServerSide(), p.reply)
  }

  lemma FittedRooms(p: Setting)
    requires Fitted(p)
    ensures p.ask.first.ring.shared.capacity > 0 && p.bring.first.ring.shared.capacity > 0
    ensures p.reply.first.ring.shared.capacity > 0 && p.back.first.ring.shared.capacity > 0
  {}

  /** The caller offers each request fragment once, and its ring is not full. */
  ghost predicate CallerActs(p: Setting)
    requires Fitted(p) && p.x.callerBudget > MC.HEADER_LEN
  {
    FittedRooms(p);
    OfferedOnce(p.CallerSide(), Last(p.ask).done, RequestOf(p.x), p.x.c)
  }

  /** The server polls its inbound ring and tries its fragments on its outbound one; nothing disturbs it; the request
      finds room in its tables before it is due; and its handler settles on (status, response). */
  ghost predicate ServerActs(p: Setting, due: nat)
    requires Fitted(p) && p.x.callerBudget > MC.HEADER_LEN
  {
    FittedRooms(p);
    && Sane(p.cfg, p.s) && NonZero(p.s) && Live(p.s) && Idle(p.s, p.x.c)
    && Undisturbed(p.cfg, p.x, due, p.s, p.inputs, 0)
    && PolledEvents(p.cfg, p.s, p.inputs) == Last(p.bring).delivered
    && AllMatched(p.ServerSide(), Attempts(p.cfg, p.s, p.inputs), Last(p.reply).done)
  }

  /** The host forwards the messages of the call, in order, and changes no message. */
  ghost predicate HostRelays(p: Setting)
    requires Fitted(p)
  {
    FittedRooms(p);
    Forwarded(Read(p.ask, p.x.c), Written(p.bring, p.x.c)) && Forwarded(Read(p.reply, p.x.c), Written(p.back, p.x.c))
  }

  /** Nothing of the call is on its way any more. */
  ghost predicate AllArrived(p: Setting)
    requires Fitted(p)
  {
    FittedRooms(p);
    var c := p.x.c;
    && |Read(p.ask, c)| == |Written(p.ask, c)| && |Read(p.bring, c)| == |Written(p.bring, c)|
    && |Read(p.reply, c)| == |Written(p.reply, c)| && |Read(p.back, c)| == |Written(p.back, c)|
    && c !in p.End().jobs && Of(p.End().rest, c) == []
  }

  /** The events among the caller's polls. */
  function EventsIn(inbox: seq<CA.Polled>): seq<BC.Event> {
    if inbox == [] then [] else (if inbox[0].Received? then [inbox[0].event] else []) + EventsIn(inbox[1..])
  }

  /** The caller's polls return what its ring delivers, and neither an error, the context nor the deadline ends them. */
  ghost predicate CallerPolls(p: Setting)
    requires Fitted(p)
  {
    FittedRooms(p);
    EventsIn(p.inbox) == Last(p.back).delivered
    && forall q :: q in p.inbox && !q.Received? ==> !CA.Own(q, p.x.kind, p.x.c, p.expires)
  }

  lemma RequestSendable(p: Setting)
    requires p.x.callerBudget > MC.HEADER_LEN && p.x.c != 0
    ensures forall f :: f in RequestOf(p.x) ==> Sendable(p.CallerSide(), f) && f.correlation == p.x.c
  {
    hide MC.Bytes, Chunks;
    var x := p.x;
    TrainShape(x.kind, x.c, CA.InvokeHeader(x.stage, x.deadlineNs, x.trace), x.request, x.callerBudget - MC.HEADER_LEN);
  }

  /** What arrives at the server under the correlation is the request. */
  lemma RequestArrives(p: Setting)
    requires Fitted(p) && ExchangeOk(p.cfg, p.x) && p.x.c != 0
    requires CallerActs(p) && ServerActs(p, p.x.deadlineNs) && HostRelays(p) && AllArrived(p)
    ensures CA.CarriedAll(Arrivals(p.cfg, p.s, p.inputs, p.x.c), RequestOf(p.x), FC.F_REQUEST)
  {
    hide WireOk, Roomy, Sendable, OfferedOnce, CA.CarriedAll, Written, Read, Forwarded, RequestOf, AllMatched,
         Undisturbed, Sane, NonZero, Idle, BS.Run, OfEvents, Run, ExchangeOk;
    FittedRooms(p);
    Budgets(p.cfg, p.x);
    var c, t := p.x.c, RequestOf(p.x);
    RequestSendable(p);
    CallerWrites(p.CallerSide(), p.ask, t, c);
    ReadIsWritten(p.ask, c);
    ForwardedCarries(Read(p.ask, c), Written(p.bring, c), t, FC.F_REQUEST);
    ReadIsWritten(p.bring, c);
    ArrivalsAreRead(p.cfg, p.s, p.inputs, c);
    ReadOff(p.bring, c);
  }

  lemma ReadOff(w: Wire, c: u64)
    requires w.first.ring.shared.capacity > 0
    ensures Read(w, c) == OfEvents(Last(w).delivered, c)
  {}

  /** In the geometry given no attempt of the server to send is refused, so its loop goes on. */
  lemma ServerGoesOn(p: Setting)
    requires Fitted(p) && ExchangeOk(p.cfg, p.x) && ServerActs(p, p.x.deadlineNs)
    ensures Smooth(p.cfg, p.x, p.s, p.inputs, 0)
    ensures forall a :: a in Attempts(p.cfg, p.s, p.inputs) ==> Sendable(p.ServerSide(), a.f)
  {
    hide WireOk, Roomy, Sendable, CA.CarriedAll, Undisturbed, Smooth, Sane, NonZero, Idle, BS.Run, OfEvents, OrderOf,
         BS.Answer, Attempts, PolledEvents, ExchangeOk;
    var side, tries := p.ServerSide(), Attempts(p.cfg, p.s, p.inputs);
    FittedRooms(p);
    Budgets(p.cfg, p.x);
    AttemptsSendable(side, p.cfg, p.s, p.inputs);
    WireAnswers(p.reply, p.x.c);
    var done := Last(p.reply).done;
    forall a | a in tries ensures !a.input.SendFailed? {
      var i :| 0 <= i < |tries| && tries[i] == a;
      assert Matched(side, tries[i], done[i]) && done[i] in done;
      NeverRefused(side, p.reply, a.f, done[i]);
      assert a.input.SendAccepted? || a.input.SendBlocked?;
    }
    UndisturbedIsSmooth(p.cfg, p.x, p.s, p.inputs, 0);
  }

  /** What leaves the server under the correlation carries what its loop sent under it. */
  lemma ReplyLeaves(p: Setting)
    requires Fitted(p) && ExchangeOk(p.cfg, p.x) && ServerActs(p, p.x.deadlineNs)
    ensures p.reply.first.ring.shared.capacity > 0
    ensures Of(p.End().out, p.x.c) == Of(p.s.out, p.x.c) + Of(Accepted(Attempts(p.cfg, p.s, p.inputs)), p.x.c)
    ensures CA.CarriedAll(Written(p.reply, p.x.c), Of(Accepted(Attempts(p.cfg, p.s, p.inputs)), p.x.c), FC.F_REPLY)
  {
    hide WireOk, Sendable, CA.CarriedAll, Undisturbed, Smooth, Sane, NonZero, Idle, BS.Run, OfEvents, OrderOf,
         BS.Answer, AllMatched, Attempts, PolledEvents, ExchangeOk, Accepted, Of, AreOrders, BS.Successes,
         BS.EventsOf, Run;
    var tries := Attempts(p.cfg, p.s, p.inputs);
    FittedRooms(p);
    ServerGoesOn(p);
    MatchedOrders(p.ServerSide(), tries, Last(p.reply).done);
    OrdersCarry(p.ServerSide(), BS.Successes(Last(p.reply).done), Accepted(tries), p.x.c);
    OutIsAccepted(p.cfg, p.s, p.inputs);
    OfAppend(p.s.out, Accepted(tries), p.x.c);
  }

  /** Every fragment of a reply train is the caller's own. */
  lemma ReplyIsCallers(x: Exchange, cfg: Config, e: BC.Event, i: nat, expires: bool)
    requires ExchangeOk(cfg, x) && x.kind != FC.KIND_ERROR && x.kind != FC.KIND_CAPABILITY_ABSENT
    requires i < |ReplyOf(cfg, x)| && CA.Carried(e, ReplyOf(cfg, x)[i], FC.F_REPLY)
    ensures CA.Own(CA.Received(e), x.kind, x.c, expires)
  {
    hide MC.Bytes, CA.Carried, CA.Own, CA.React, Chunks;
    var chunk := cfg.budget - MC.HEADER_LEN;
    var parts := Chunks(x.response, chunk);
    ChunkShape(x.response, chunk);
    CA.ReactToFragment(e, x.kind, x.c, expires, ResultHeader(x.status, x.stage, x.trace), parts[i], i + 1 < |parts|,
      []);
  }

  /** The caller's own polls are the events of its correlation. */
  lemma {:induction false} OwnPolls(inbox: seq<CA.Polled>, kind: u32, c: u64, expires: bool)
    requires forall q :: q in inbox && !q.Received? ==> !CA.Own(q, kind, c, expires)
    requires forall e :: e in EventsIn(inbox) && e.frame.correlationId == c ==> CA.Own(CA.Received(e), kind, c, expires)
    ensures CA.OwnOf(inbox, kind, c, expires) == CA.ReceivedAll(OfEvents(EventsIn(inbox), c))
  {
    hide OfEvents, CA.Control, CA.Reply;
    if inbox == [] {
      NoEventsOf(c);
    } else {
      var q, rest := inbox[0], inbox[1..];
      assert q in inbox && forall r :: r in rest ==> r in inbox;
      assert EventsIn(inbox) == (if q.Received? then [q.event] else []) + EventsIn(rest);
      assert forall e :: e in EventsIn(rest) ==> e in EventsIn(inbox);
      OwnPolls(rest, kind, c, expires);
      if q.Received? {
        assert q.event in EventsIn(inbox);
        OfEventsAppend([q.event], EventsIn(rest), c);
        OneEvent(q.event, c);
        ForeignIsNotOwn(q.event, kind, c, expires);
        ReceivedCons(q.event, OfEvents(EventsIn(rest), c));
      } else {
        assert [] + EventsIn(rest) == EventsIn(rest);
      }
    }
  }

  lemma ForeignIsNotOwn(e: BC.Event, kind: u32, c: u64, expires: bool)
    ensures e.frame.correlationId != c ==> !CA.Own(CA.Received(e), kind, c, expires)
  {
    hide MC.Decode;
  }

  lemma ReceivedCons(e: BC.Event, events: seq<BC.Event>)
    ensures CA.ReceivedAll([e] + events) == [CA.Received(e)] + CA.ReceivedAll(events)
    ensures CA.ReceivedAll([] + events) == CA.ReceivedAll(events)
  {
    assert [] + events == events;
  }

  /** The reply reaches the caller: its own polls are the events that carry it. */
  lemma ReplyArrives(p: Setting, sent: seq<Fragment>)
    requires Fitted(p) && ExchangeOk(p.cfg, p.x) && HostRelays(p) && AllArrived(p) && CallerPolls(p)
    requires p.x.kind != FC.KIND_ERROR && p.x.kind != FC.KIND_CAPABILITY_ABSENT
    requires p.reply.first.ring.shared.capacity > 0 && p.back.first.ring.shared.capacity > 0
    requires CA.CarriedAll(Written(p.reply, p.x.c), sent, FC.F_REPLY)
    requires p.cfg.budget > MC.HEADER_LEN && sent == ReplyOf(p.cfg, p.x)
    ensures CA.CarriedAll(Read(p.back, p.x.c), sent, FC.F_REPLY)
    ensures CA.OwnOf(p.inbox, p.x.kind, p.x.c, p.expires) == CA.ReceivedAll(Read(p.back, p.x.c))
  {
    hide WireOk, Roomy, CA.Carried, CA.Own, Written, Forwarded, BS.Run, OfEvents, Run, ExchangeOk, ReplyOf, CA.OwnOf,
         CA.ReceivedAll, EventsIn, Read, Of;
    var c := p.x.c;
    FittedRooms(p);
    ReadIsWritten(p.reply, c);
    ForwardedCarries(Read(p.reply, c), Written(p.back, c), sent, FC.F_REPLY);
    ReadIsWritten(p.back, c);
    ReadOff(p.back, c);
    var events := EventsIn(p.inbox);
    forall e | e in events && e.frame.correlationId == c ensures CA.Own(CA.Received(e), p.x.kind, c, p.expires) {
      OfEventsHas(events, e, c);
      var i :| 0 <= i < |Read(p.back, c)| && Read(p.back, c)[i] == e;
      assert CA.Carried(Read(p.back, c)[i], sent[i], FC.F_REPLY);
      ReplyIsCallers(p.x, p.cfg, e, i, p.expires);
    }
    OwnPolls(p.inbox, p.x.kind, c, p.expires);
  }

  lemma {:induction false} OfEventsHas(events: seq<BC.Event>, e: BC.Event, c: u64)
    requires e in events && e.frame.correlationId == c
    ensures e in OfEvents(events, c)
  {
    var n := |events| - 1;
    if e != events[n] {
      assert e in events[..n];
      OfEventsHas(events[..n], e, c);
    }
  }

  /** The premises: everyone plays their part, the last fragment arriving before `due` (0: whenever), and the call is
      one whose reply is not taken for a control frame. */
  ghost predicate Premises(p: Setting, due: nat) {
    && Fitted(p) && ExchangeOk(p.cfg, p.x) && p.x.c != 0
    && p.x.kind != FC.KIND_ERROR && p.x.kind != FC.KIND_CAPABILITY_ABSENT
    && CallerActs(p) && ServerActs(p, due) && HostRelays(p) && AllArrived(p) && CallerPolls(p)
  }

  /** A remote call over four rings. For every request and response of up to 16 MiB, any two inline budgets above 40
      whose full fragments fit a slot and the payload limit, any interleaving of the atomic steps of all clients on all
      rings, and any other traffic: if the caller's ring had room for the request, the server admitted it, was not
      disturbed, and its handler settled on a status and a response, and if the host forwarded the messages of the
      call in order, then, with nothing of the call on its way any more, the answer of the call is exactly that
      response, or the failure that names the status if it is not OK.
      `CallerLoops.ModuleCaller.Call` answers `Await` of its polls, once its train is sent. */
  lemma CallOverRings(p: Setting)
    requires Premises(p, p.x.deadlineNs)
    ensures CA.Await(p.inbox, p.x.kind, p.x.c, p.expires, MC.MAX_BODY, []) == CA.AnswerTo(p.x.status, p.x.response)
    ensures Launches(p.End().log, p.x.c) == Launches(p.s.log, p.x.c) + 1
    ensures RH.Body(RH.Requested(p.End().log, p.x.c)) == p.x.request
  {
    hide WireOk, Roomy, CA.Carried, CA.Own, Written, Read, Forwarded, BS.Run, OfEvents, Run, ReplyOf, RequestOf,
         CA.OwnOf, CA.ReceivedAll, EventsIn, Of, Accepted, Attempts, Smooth, Undisturbed, AllMatched, OfferedOnce,
         NonZero, CA.Await, Launches, RH.Body, RH.Requested, ExchangeOk, Sane, Arrivals;
    var c := p.x.c;
    FittedRooms(p);
    Budgets(p.cfg, p.x);
    RequestArrives(p);
    ServerGoesOn(p);
    ServesExactly(p.cfg, p.x, p.s, p.inputs);
    ReplyLeaves(p);
    var sent := Of(Accepted(Attempts(p.cfg, p.s, p.inputs)), c);
    SameTail(Of(p.s.out, c), sent, ReplyOf(p.cfg, p.x));
    ReplyArrives(p, sent);
    var events := Read(p.back, c);
    assert CA.ReceivedAll(events) + [] == CA.ReceivedAll(events);
    assert Of(p.End().out, c)[|Of(p.s.out, c)|..] == sent;
    CallReturnsResponse(p.cfg, p.x, p.s, p.inputs, p.inbox, p.expires, events, []);
  }

  lemma SameTail(a: seq<Fragment>, b: seq<Fragment>, c: seq<Fragment>)
    requires a + b == a + c
    ensures b == c && (a + b)[|a|..] == b
  {
    assert (a + b)[|a|..] == b && (a + c)[|a|..] == c;
  }

  /** The call of `line` that `p` is about, its sends answered as on its ring and its polls those of `p`. */
  ghost predicate PlacedBy(p: Setting, line: CA.Line, ask: CA.Ask)
    requires Fitted(p)
  {
    FittedRooms(p);
    var x, tries := p.x, Tries(Last(p.ask).done, p.x.c);
    && x.kind == ask.kind && x.stage == ask.stage && x.trace == ask.trace && x.request == ask.request
    && x.deadlineNs == (if ask.deadline > 0 then (ask.now + ask.deadline) % TWO64 else 0)
    && p.expires == (ask.deadline > 0)
    && x.c == (line.correlation + 1) % TWO64 && line.inbox == p.inbox
    && |tries| <= |line.fates| && forall i :: 0 <= i < |tries| ==> line.fates[i] == tries[i].err
  }

  lemma {:induction false} AllSent(k: nat, fates: seq<BC.Err>)
    requires k <= |fates| && forall i :: 0 <= i < k ==> fates[i] == BC.NoError
    ensures CA.SendsOf(k, fates).1 == BC.NoError
  {
    if k > 0 { AllSent(k - 1, fates[1..]); }
  }

  lemma TriesSucceed(side: TD.Side, w: Wire, t: seq<Fragment>, c: u64)
    requires WireOk(w, c) && Roomy(side, w) && w.first.ring.shared.capacity > 0
    requires OfferedOnce(side, Last(w).done, t, c)
    requires forall f :: f in t ==> Sendable(side, f)
    ensures forall i :: 0 <= i < |t| ==> Tries(Last(w).done, c)[i].err == BC.NoError
  {
    hide WireOk, Roomy, OrderOf, Sendable, BS.Answer, Tries, BS.Run;
    RoomyFacts(side, w);
    var tries := Tries(Last(w).done, c);
    TriesAreDone(Last(w).done, c);
    WireAnswers(w, c);
    forall i | 0 <= i < |t| ensures tries[i].err == BC.NoError {
      assert tries[i] in tries && t[i] in t;
      NeverRefused(side, w, t[i], tries[i]);
    }
  }

  /** So `Call` sends exactly the request that is on the ring, and answers with the response or the status. */
  lemma CallReturns(p: Setting, line: CA.Line, ask: CA.Ask)
    requires Premises(p, p.x.deadlineNs) && PlacedBy(p, line, ask)
    ensures CA.Place(p.x.callerBudget, line, ask).1.answer == CA.AnswerTo(p.x.status, p.x.response)
    ensures CA.Place(p.x.callerBudget, line, ask).0.sent == line.sent + RequestOf(p.x)
  {
    hide Premises, PlacedBy, CA.Place, CA.Await, CA.AnswerTo, CA.TrainOf, RequestOf, Chunks, Launches, RH.Body,
         RH.Requested, Run;
    SameCall(p, line, ask);
    NoRefusal(p, line, ask);
    SentWhole(p.x.callerBudget, line, ask);
    CallOverRings(p);
  }

  /** What the call is given is what the exchange is about. */
  lemma SameCall(p: Setting, line: CA.Line, ask: CA.Ask)
    requires Premises(p, p.x.deadlineNs) && PlacedBy(p, line, ask)
    ensures p.x.callerBudget > MC.HEADER_LEN && ask.stage != 0 && (line.correlation + 1) % TWO64 == p.x.c != 0
    ensures |ask.request| <= MC.MAX_BODY && |ask.request| % TWO32 == |ask.request|
    ensures p.inbox == line.inbox && p.x.kind == ask.kind && p.expires == (ask.deadline > 0)
    ensures CA.TrainOf(p.x.callerBudget, p.x.c, ask) == RequestOf(p.x)
  {
    hide Fitted, CallerActs, HostRelays, AllArrived, ServerActs, CallerPolls, Tries, CA.RequestTrain;
    ModUnique(|ask.request|, TWO32, 0, |ask.request|);
  }

  /** None of its sends is refused. */
  lemma NoRefusal(p: Setting, line: CA.Line, ask: CA.Ask)
    requires Premises(p, p.x.deadlineNs) && PlacedBy(p, line, ask) && p.x.callerBudget > MC.HEADER_LEN
    ensures var n := |Chunks(ask.request, p.x.callerBudget - MC.HEADER_LEN)|;
      n <= |line.fates| && forall i :: 0 <= i < n ==> line.fates[i] == BC.NoError
  {
    hide WireOk, Roomy, Sendable, HostRelays, AllArrived, ServerActs, CallerPolls, CA.TrainOf, Tries, BS.Run,
         CA.RequestTrain, Chunks;
    SameCall(p, line, ask);
    FittedRooms(p);
    RequestSendable(p);
    TriesSucceed(p.CallerSide(), p.ask, RequestOf(p.x), p.x.c);
  }

  /** A call none of whose sends is refused sends its whole request and awaits. */
  lemma SentWhole(budget: u32, line: CA.Line, ask: CA.Ask)
    requires budget > MC.HEADER_LEN && ask.stage != 0 && (line.correlation + 1) % TWO64 != 0
    requires |ask.request| <= MC.MAX_BODY && |ask.request| % TWO32 == |ask.request|
    requires var n := |Chunks(ask.request, budget - MC.HEADER_LEN)|;
      n <= |line.fates| && forall i :: 0 <= i < n ==> line.fates[i] == BC.NoError
    ensures var (line', o) := CA.Place(budget, line, ask);
      var c := (line.correlation + 1) % TWO64;
      line'.sent == line.sent + CA.TrainOf(budget, c, ask)
      && o.answer == CA.Await(line.inbox, ask.kind, c, ask.deadline > 0, MC.MAX_BODY, [])
  {
    hide CA.Await, CA.AwaitRest, CA.Used, CA.RequestTrain, CA.SendsOf, Chunks;
    var t := CA.TrainOf(budget, (line.correlation + 1) % TWO64, ask);
    AllSent(|t|, line.fates);
    assert t[..|t|] == t;
  }

  /** In the caller's own terms: with a deadline whose instant fits 64 bits it is enough that the last fragment arrives
      before the caller's clock at the call plus the deadline. */
  lemma CallReturnsInTime(p: Setting, line: CA.Line, ask: CA.Ask)
    requires ask.deadline > 0 && ask.now + ask.deadline < TWO64
    requires Premises(p, ask.now + ask.deadline) && PlacedBy(p, line, ask)
    ensures CA.Place(p.x.callerBudget, line, ask).1.answer == CA.AnswerTo(p.x.status, p.x.response)
  {
    hide Premises, CA.Place, PlacedBy;
    PremisesFit(p, ask.now + ask.deadline);
    SmallDeadline(p, line, ask);
    CallReturns(p, line, ask);
  }

  lemma PremisesFit(p: Setting, due: nat)
    requires Premises(p, due)
    ensures Fitted(p)
  {}

  lemma SmallDeadline(p: Setting, line: CA.Line, ask: CA.Ask)
    requires ask.deadline > 0 && ask.now + ask.deadline < TWO64
    requires Fitted(p) && PlacedBy(p, line, ask)
    ensures p.x.deadlineNs == ask.now + ask.deadline
  {
    hide WireOk, Roomy, Tries, BS.Run;
    ModUnique(ask.now + ask.deadline, TWO64, 0, ask.now + ask.deadline);
  }
}
