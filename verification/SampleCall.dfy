/** A call that meets every premise of `RemoteCall.CallOverRings`: one fragment each way, on empty rings of two
    128-byte slots with inline budgets of 64. */
module SampleCall {
  import opened Words
  import FC = FrameCodec
  import MC = ModuleCodec
  import BC = BusClient
  import BS = BusSteps
  import BP = BusProgress
  import TD = TrainDelivery
  import CA = Caller
  import RH = RuntimeHistory
  import opened Fragments
  import opened Runtime
  import opened RuntimeSafety
  import opened EndToEnd
  import opened RemoteCall

  const BUDGET: u32 := 64
  const KIND: u32 := 256

  // ---------------------------------------------------------------------- turns

  function Repeat(turn: BS.Turn, n: nat): seq<BS.Turn> { if n == 0 then [] else [turn] + Repeat(turn, n - 1) }

  lemma {:induction false} RepeatCounts(turn: BS.Turn, n: nat)
    ensures turn.Emits? ==> BP.EmitTurns(Repeat(turn, n)) == n
    ensures turn.Polls? ==> BP.PollTurns(Repeat(turn, n)) == n
  {
    if n > 0 {
      RepeatCounts(turn, n - 1);
      assert Repeat(turn, n)[1..] == Repeat(turn, n - 1);
    }
  }

  // ------------------------------------------------------------------- one wire

  /** A fresh ring on which one order is emitted and then polled. */
  function WireFor(o: BS.Order): Wire {
    Wire(BP.Fresh(TD.SmallRing(), 0, 128, 128, o), Repeat(BS.Emits, 196) + Repeat(BS.Polls(0), 600))
  }

  /** A fragment that fits these rings. */
  predicate Small(side: TD.Side, f: Fragment) {
    (side.pattern == FC.F_REQUEST || side.pattern == FC.F_REPLY) && side.budget == BUDGET && Sendable(side, f)
  }

  /** The event of the emit of a fragment. */
  function EventFor(side: TD.Side, f: Fragment): BC.Event
    requires side.pattern <= FC.F_CANCEL
  {
    BC.Event(BS.FrameOf(OrderOf(side, f)), f.payload)
  }

  lemma SmallOrder(side: TD.Side, f: Fragment)
    requires Small(side, f)
    ensures var o := OrderOf(side, f);
      BS.Refusal(128, 128, o) == BC.NoError && BS.Encodable(o, 128) && FC.Validate(BS.FrameOf(o)) == FC.OK
      && BS.EventOf(o) == [EventFor(side, f)]
      && CA.Carried(EventFor(side, f), f, side.pattern)
  {
    hide FC.Validate;
    BC.FragmentFrameIsValid(side.pattern, f.kind, f.correlation, |f.payload|, f.more, side.handle);
    ModUnique(|f.payload|, TWO32, 0, |f.payload|);
    OrderCarries(side, f);
  }

  lemma FreshWire(o: BS.Order)
    requires o.Emit?
    ensures var x := WireFor(o).first;
      BS.Quiet(x) && BS.SameSlots(x) && BS.Harmless(x) && x.delivered == [] && x.todo == [o]
      && x.ring.published == [] && BS.Consumed(x) == 0
  {
    hide BS.Quiet, Repeat, And, SingleBit, BC.PollSlot;
    TD.SmallRingIsEmpty();
    BS.FreshIsQuiet(TD.SmallRing(), 0, 128, 128, [o]);
  }

  /** The fragment is sent, and what is polled carries it. */
  lemma WireDelivers(side: TD.Side, f: Fragment)
    requires Small(side, f)
    ensures var w := WireFor(OrderOf(side, f));
      && w.first.ring.shared.capacity > 0
      && Last(w).done == [BS.Done(OrderOf(side, f), BC.NoError)] && BS.Successes(Last(w).done) == [OrderOf(side, f)]
      && Last(w).delivered == [EventFor(side, f)]
  {
    hide BS.Quiet, BS.Harmless, BS.Run, BS.Refusal, BS.Encodable, BS.Placed, BS.Shown, Repeat;
    var o := OrderOf(side, f);
    var w, a, b := WireFor(o), Repeat(BS.Emits, 196), Repeat(BS.Polls(0), 600);
    TD.SmallRingIsEmpty();
    SmallOrder(side, f);
    FreshWire(o);
    RepeatCounts(BS.Emits, 196);
    RepeatCounts(BS.Polls(0), 600);
    BS.DeliveredAreAccepted(w.first, a + b);
    BP.OneOrder(TD.SmallRing(), 0, 128, 128, o, a, b);
    OneEventOf(o);
    BS.NoEvents();
    var none: seq<BC.Event> := [];
    assert w.first.ring.published[0..] == [];
    assert none + none + BS.EventsOf([o]) == BS.EventsOf([o]);
  }

  lemma OneEventOf(o: BS.Order)
    ensures BS.EventsOf([o]) == BS.EventOf(o)
  {
    hide BS.EventOf;
    assert [o][..0] == [];
    assert [] + BS.EventOf(o) == BS.EventOf(o);
  }

  lemma WireIsOk(side: TD.Side, f: Fragment, c: u64)
    requires Small(side, f)
    ensures WireOk(WireFor(OrderOf(side, f)), c) && Roomy(side, WireFor(OrderOf(side, f)))
  {
    hide BS.Quiet, BS.Harmless, BS.Run, Repeat;
    var x := WireFor(OrderOf(side, f)).first;
    FreshWire(OrderOf(side, f));
    BS.NoEvents();
    NoEventsOf(c);
    assert x.ring.published[0..] == [];
  }

  /** What is written and read under the correlation of the fragment. */
  lemma WireCarries(side: TD.Side, f: Fragment)
    requires Small(side, f)
    ensures var w := WireFor(OrderOf(side, f));
      && w.first.ring.shared.capacity > 0
      && Written(w, f.correlation) == [EventFor(side, f)] == Read(w, f.correlation)
      && Tries(Last(w).done, f.correlation) == [BS.Done(OrderOf(side, f), BC.NoError)]
  {
    hide BS.Run, BS.Refusal, BS.Encodable, CA.Carried, Repeat, FC.Validate, BS.EventOf, OfEvents;
    var o, w := OrderOf(side, f), WireFor(OrderOf(side, f));
    WireDelivers(side, f);
    SmallOrder(side, f);
    OneEventOf(o);
    OneEvent(EventFor(side, f), f.correlation);
    LastTry([], BS.Done(o, BC.NoError), f.correlation);
    NoTries(f.correlation);
    var none: seq<BS.Done> := [];
    assert none + [BS.Done(o, BC.NoError)] == [BS.Done(o, BC.NoError)];
  }

  // ------------------------------------------------------------------ the server

  /** One more input. */
  lemma Onward(cfg: Config, x: Exchange, s: State, i: Input, rest: seq<Input>, k: nat)
    requires x.callerBudget > MC.HEADER_LEN
    ensures var s1 := Step(cfg, s, i);
      && Run(cfg, s, [i] + rest) == Run(cfg, s1, rest)
      && PolledEvents(cfg, s, [i] + rest) ==
         (if s.mode.AtPoll? && i.PollEvent? && FC.Validate(i.event.frame) == FC.OK
          then [i.event] + PolledEvents(cfg, s1, rest) else PolledEvents(cfg, s1, rest))
      && Attempts(cfg, s, [i] + rest) ==
         (if Attempt(s, i) then [Try(s.rest[0], i)] + Attempts(cfg, s1, rest) else Attempts(cfg, s1, rest))
      && (Calm(i) && Undisturbed(cfg, x, x.deadlineNs, s1, rest, if Takes(s, i, x.c) then k + 1 else k)
          && (Takes(s, i, x.c) ==> |s.assemblies| == 0 == |s.jobs| && x.deadlineNs == 0)
          && (i.HandlerReturns? && x.c in s.jobs ==>
                Settle(s.jobs[x.c], i.response, i.status, i.clock) == (x.status, x.response)) ==>
            Undisturbed(cfg, x, x.deadlineNs, s, [i] + rest, k))
  {
    hide Step, FC.Validate, Settle, PartsOf;
    assert ([i] + rest)[0] == i && ([i] + rest)[1..] == rest;
    var events, tries := PolledEvents(cfg, Step(cfg, s, i), rest), Attempts(cfg, Step(cfg, s, i), rest);
    assert [] + events == events && [] + tries == tries;
  }

  /** The call: these bytes, this outcome. */
  function Sample(request: seq<byte>, status: u16, response: seq<byte>): Exchange {
    Exchange(KIND, 1, 0, 0, 1, BUDGET, request, status, response)
  }

  function Serving(): Config { Config(map[KIND := 1], true, BUDGET) }

  predicate Short(request: seq<byte>, status: u16, response: seq<byte>) {
    |request| <= 24 && |response| <= 24 && Normal(status, response) == (status, response)
  }

  /** The states the serving loop passes. */
  function Asked(e: BC.Event): State { Step(Serving(), Start().(mode := AtPoll), PollEvent(e, 0)) }

  lemma AskedIs(e: BC.Event, x: Exchange)
    requires x == Sample(x.request, x.status, x.response) && Short(x.request, x.status, x.response)
    requires |RequestOf(x)| == 1 && CA.Carried(e, RequestOf(x)[0], FC.F_REQUEST)
    ensures var s := Asked(e);
      && s.mode.AtSelect? && s.done == [] && s.rest == [] && s.out == []
      && s.jobs == map[1 := Work(KIND, 1, 1, 0, 0, false)] && s.workers == map[1 := Running(x.request)]
  {
    hide MC.Bytes, MC.Decode, FC.Validate, FC.Has;
    FragmentReads(KIND, 1, CA.InvokeHeader(1, 0, 0), x.request, false);
    assert [] + x.request == x.request;
    assert RequestOf(x)[0] == FragmentOf(KIND, 1, CA.InvokeHeader(1, 0, 0), x.request, false);
  }

  /** The fragment of its request, and that of its reply. */
  function Question(x: Exchange): Fragment
    requires x.callerBudget > MC.HEADER_LEN
  {
    RequestOf(x)[0]
  }

  function Response(x: Exchange): Fragment { ReplyOf(Serving(), x)[0] }

  lemma OneEach(request: seq<byte>, status: u16, response: seq<byte>)
    requires Short(request, status, response)
    ensures var x := Sample(request, status, response);
      && ExchangeOk(Serving(), x) && RequestOf(x) == [Question(x)] && ReplyOf(Serving(), x) == [Response(x)]
      && |PartsOf(x)| == 1 && Question(x).correlation == 1 == Response(x).correlation
      && 0 < |Question(x).payload| <= BUDGET && 0 < |Response(x).payload| <= BUDGET
  {
    hide MC.Bytes;
  }

  /** Asked, answered by its handler, the result sent on the channel, and the reply begun. */
  function Settled(x: Exchange, e: BC.Event): State {
    Asked(e).(workers := map[1 := Checked(x.status, x.response)])
  }
  function Finished(x: Exchange, e: BC.Event): State {
    Asked(e).(workers := map[], done := [Result(1, x.status, x.response)])
  }

  function Inputs(x: Exchange, e: BC.Event): seq<Input> {
    [Select] + ([PollEvent(e, 0)] + ([HandlerReturns(1, x.response, x.status, 0)]
    + ([HandlerSends(1)] + ([Select] + ([SendAccepted] + [])))))
  }

  lemma Handles(x: Exchange, e: BC.Event)
    requires x == Sample(x.request, x.status, x.response) && Short(x.request, x.status, x.response)
    requires |RequestOf(x)| == 1 && CA.Carried(e, RequestOf(x)[0], FC.F_REQUEST)
    ensures Step(Serving(), Asked(e), HandlerReturns(1, x.response, x.status, 0)) == Settled(x, e)
    ensures Step(Serving(), Settled(x, e), HandlerSends(1)) == Finished(x, e)
  {
    hide Asked, RequestOf, CA.Carried, HandleEvent, Finish;
    AskedIs(e, x);
  }

  lemma Replies(x: Exchange, e: BC.Event)
    requires x == Sample(x.request, x.status, x.response) && Short(x.request, x.status, x.response)
    requires |RequestOf(x)| == 1 && CA.Carried(e, RequestOf(x)[0], FC.F_REQUEST)
    requires ReplyOf(Serving(), x) == [Response(x)]
    ensures var s := Step(Serving(), Finished(x, e), Select);
      && s.mode.Sending?
      && s.rest == [Response(x)]
      && s.out == []
      && s.jobs == map[]
      && var s' := Step(Serving(), s, SendAccepted);
         s'.rest == [] && s'.out == [Response(x)] && s'.jobs == map[]
  {
    hide Asked, ReplyTrain;
    AskedIs(e, x);
  }

  /** A run of the server from `s` on: what it polls and what it tries to send, with nothing of the call left. */
  ghost predicate Serves(x: Exchange, s: State, inputs: seq<Input>, k: nat, polled: seq<BC.Event>, tries: seq<Try>)
    requires x.callerBudget > MC.HEADER_LEN
  {
    && PolledEvents(Serving(), s, inputs) == polled && Attempts(Serving(), s, inputs) == tries
    && Undisturbed(Serving(), x, x.deadlineNs, s, inputs, k)
    && Run(Serving(), s, inputs).jobs == map[] && Run(Serving(), s, inputs).rest == []
  }

  lemma OneEarlier(x: Exchange, s: State, i: Input, s1: State, rest: seq<Input>, k: nat, polled: seq<BC.Event>,
      tries: seq<Try>)
    requires x.callerBudget > MC.HEADER_LEN && s1 == Step(Serving(), s, i) && Calm(i)
    requires Serves(x, s1, rest, if Takes(s, i, x.c) then k + 1 else k, polled, tries)
    requires Takes(s, i, x.c) ==> |s.assemblies| == 0 == |s.jobs| && x.deadlineNs == 0
    requires i.HandlerReturns? && x.c in s.jobs ==>
               Settle(s.jobs[x.c], i.response, i.status, i.clock) == (x.status, x.response)
    ensures Serves(x, s, [i] + rest, k,
                   if s.mode.AtPoll? && i.PollEvent? && FC.Validate(i.event.frame) == FC.OK then [i.event] + polled
                   else polled,
                   if Attempt(s, i) then [Try(s.rest[0], i)] + tries else tries)
  {
    hide Step, FC.Validate, Settle, Undisturbed, PolledEvents, Attempts, Run, Takes;
    Onward(Serving(), x, s, i, rest, k);
  }

  /** What the lemmas below assume of the call and of the event that carries its request. */
  ghost predicate Plain(x: Exchange, e: BC.Event) {
    && x == Sample(x.request, x.status, x.response) && Short(x.request, x.status, x.response)
    && RequestOf(x) == [Question(x)] && CA.Carried(e, RequestOf(x)[0], FC.F_REQUEST)
    && ReplyOf(Serving(), x) == [Response(x)] && Question(x).correlation == 1
  }

  /** From the handler's result on. */
  lemma ServesLate(x: Exchange, e: BC.Event)
    requires Plain(x, e)
    ensures Serves(x, Finished(x, e), [Select] + ([SendAccepted] + []), 1, [], [Try(Response(x), SendAccepted)])
  {
    hide Step, Finished, Serves, FC.Validate, Question, Response, RequestOf, ReplyOf;
    Replies(x, e);
    var s5 := Step(Serving(), Finished(x, e), Select);
    var s6 := Step(Serving(), s5, SendAccepted);
    AtRest(x, s6);
    OneEarlier(x, s5, SendAccepted, s6, [], 1, [], []);
    assert [Try(Response(x), SendAccepted)] + [] == [Try(Response(x), SendAccepted)];
    OneEarlier(x, Finished(x, e), Select, s5, [SendAccepted] + [], 1, [], [Try(Response(x), SendAccepted)]);
  }

  lemma AtRest(x: Exchange, s: State)
    requires x.callerBudget > MC.HEADER_LEN && s.jobs == map[] && s.rest == []
    ensures Serves(x, s, [], 1, [], [])
  {}

  /** From the launch on. */
  lemma ServesMiddle(x: Exchange, e: BC.Event)
    requires Plain(x, e)
    ensures Serves(x, Asked(e), Inputs(x, e)[2..], 1, [], [Try(Response(x), SendAccepted)])
  {
    hide Step, Asked, Serves, FC.Validate, Question, Response, RequestOf, ReplyOf;
    AskedIs(e, x);
    Handles(x, e);
    ServesLate(x, e);
    var late := [Select] + ([SendAccepted] + []);
    var tries := [Try(Response(x), SendAccepted)];
    OneEarlier(x, Settled(x, e), HandlerSends(1), Finished(x, e), late, 1, [], tries);
    var i3 := [HandlerSends(1)] + late;
    OneEarlier(x, Asked(e), HandlerReturns(1, x.response, x.status, 0), Settled(x, e), i3, 1, [], tries);
    assert Inputs(x, e)[2..] == [HandlerReturns(1, x.response, x.status, 0)] + i3;
  }

  /** The whole run of the server. */
  lemma ServesAll(x: Exchange, e: BC.Event)
    requires Plain(x, e)
    ensures Serves(x, Start(), Inputs(x, e), 0, [e], [Try(Response(x), SendAccepted)])
  {
    hide Step, Serves, FC.Validate, Question, Response, RequestOf, ReplyOf, Settled, Finished;
    Starts(Serving());
    Valid(e, x);
    ServesMiddle(x, e);
    var s1, i2 := Start().(mode := AtPoll), Inputs(x, e)[2..];
    var tries := [Try(Response(x), SendAccepted)];
    OneEarlier(x, s1, PollEvent(e, 0), Asked(e), i2, 0, [], tries);
    var i1 := [PollEvent(e, 0)] + i2;
    assert [e] + [] == [e];
    OneEarlier(x, Start(), Select, s1, i1, 0, [e], tries);
    assert Inputs(x, e) == [Select] + i1;
  }

  lemma Valid(e: BC.Event, x: Exchange)
    requires x.callerBudget > MC.HEADER_LEN
    requires |RequestOf(x)| > 0 && CA.Carried(e, RequestOf(x)[0], FC.F_REQUEST)
    ensures FC.Validate(e.frame) == FC.OK && e.frame.correlationId == RequestOf(x)[0].correlation
  {
    hide FC.Validate, FC.Has;
  }

  lemma Starts(cfg: Config)
    ensures Step(cfg, Start(), Select) == Start().(mode := AtPoll)
  {}

  // -------------------------------------------------------------- the whole call

  const CALLER: TD.Side := TD.Side(FC.F_REQUEST, BUDGET, 1)
  const SERVER: TD.Side := TD.Side(FC.F_REPLY, BUDGET, 2)

  /** Caller, server, and a host that repeats on one ring what it read on another. */
  function Whole(x: Exchange): Setting
    requires x.callerBudget > MC.HEADER_LEN
  {
    var ask, reply := OrderOf(CALLER, Question(x)), OrderOf(SERVER, Response(x));
    Setting(Serving(), x, Start(), Inputs(x, EventFor(CALLER, Question(x))),
            [CA.Received(EventFor(SERVER, Response(x)))], false,
            WireFor(ask), WireFor(ask), WireFor(reply), WireFor(reply), 1, 2)
  }

  lemma IsFitted(x: Exchange)
    requires x.callerBudget == BUDGET
    requires Small(CALLER, Question(x)) && Small(SERVER, Response(x))
    ensures Fitted(Whole(x))
  {
    hide WireOk, Roomy, Question, Response, OrderOf, WireFor, Small, Inputs;
    WireIsOk(CALLER, Question(x), x.c);
    WireIsOk(SERVER, Response(x), x.c);
  }

  lemma Relays(side: TD.Side, f: Fragment)
    requires Small(side, f)
    ensures Forwarded([EventFor(side, f)], [EventFor(side, f)])
  {
    hide FC.Validate, FC.Has, OrderOf;
    SmallOrder(side, f);
  }

  /** A sample whose two fragments fit. */
  ghost predicate Ready(x: Exchange) {
    && x == Sample(x.request, x.status, x.response) && Short(x.request, x.status, x.response)
    && Small(CALLER, Question(x)) && Small(SERVER, Response(x)) && Fitted(Whole(x))
    && RequestOf(x) == [Question(x)] && ReplyOf(Serving(), x) == [Response(x)] && |PartsOf(x)| == 1
    && Question(x).correlation == 1 == Response(x).correlation
  }

  lemma Asks(x: Exchange)
    requires Ready(x)
    ensures CallerActs(Whole(x))
  {
    hide Fitted, OrderOf, WireFor, Inputs, Question, Response, RequestOf, ReplyOf, Tries, BS.Run, Small;
    var f := Question(x);
    WireCarries(CALLER, f);
  }

  lemma Plainly(x: Exchange)
    requires Ready(x)
    ensures Plain(x, EventFor(CALLER, Question(x)))
  {
    hide Fitted, OrderOf, Question, Response, RequestOf, ReplyOf, FC.Validate, CA.Carried, Small;
    SmallOrder(CALLER, Question(x));
  }

  lemma Acts(x: Exchange)
    requires Ready(x)
    ensures ServerActs(Whole(x), x.deadlineNs)
  {
    hide Fitted, OrderOf, WireFor, Inputs, Question, Response, RequestOf, ReplyOf, BS.Run, Small, Plain, Undisturbed,
         PolledEvents, Attempts, Run, Sane, FC.Validate, PartsOf;
    var f, g := Question(x), Response(x);
    Plainly(x);
    ServesAll(x, EventFor(CALLER, f));
    FittedRooms(Whole(x));
    WireDelivers(CALLER, f);
    WireDelivers(SERVER, g);
    AtStart(x.c);
  }

  lemma AtStart(c: u64)
    ensures Sane(Serving(), Start()) && NonZero(Start()) && Live(Start()) && Idle(Start(), c)
  {
    hide RH.TrainsOk, RH.Assembled, RH.Balanced, Tables;
    RH.StartIsFine(Serving());
  }

  lemma Forwards(x: Exchange)
    requires Ready(x)
    ensures HostRelays(Whole(x))
  {
    hide Fitted, OrderOf, WireFor, Inputs, Question, Response, RequestOf, ReplyOf, Written, Read, Small, Forwarded;
    FittedRooms(Whole(x));
    WireCarries(CALLER, Question(x));
    WireCarries(SERVER, Response(x));
    Relays(CALLER, Question(x));
    Relays(SERVER, Response(x));
  }

  lemma Arrives(x: Exchange)
    requires Ready(x)
    ensures AllArrived(Whole(x))
  {
    hide Fitted, OrderOf, WireFor, Inputs, Question, Response, RequestOf, ReplyOf, Written, Read, Small, Plain,
         Undisturbed, PolledEvents, Attempts, Run;
    FittedRooms(Whole(x));
    WireCarries(CALLER, Question(x));
    WireCarries(SERVER, Response(x));
    Plainly(x);
    ServesAll(x, EventFor(CALLER, Question(x)));
  }

  lemma Polls(x: Exchange)
    requires Ready(x)
    ensures CallerPolls(Whole(x))
  {
    hide Fitted, OrderOf, WireFor, Inputs, Question, Response, RequestOf, ReplyOf, BS.Run, Small, CA.Own;
    FittedRooms(Whole(x));
    WireDelivers(SERVER, Response(x));
    OnePoll(EventFor(SERVER, Response(x)));
  }

  lemma OnePoll(e: BC.Event)
    ensures EventsIn([CA.Received(e)]) == [e]
  {
    assert [CA.Received(e)][1..] == [];
    assert [e] + EventsIn([]) == [e];
  }

  lemma IsReady(request: seq<byte>, status: u16, response: seq<byte>)
    requires Short(request, status, response)
    ensures Ready(Sample(request, status, response)) && ExchangeOk(Serving(), Sample(request, status, response))
  {
    hide Fitted, OrderOf, WireFor, Inputs, Question, Response, RequestOf, ReplyOf;
    OneEach(request, status, response);
    IsFitted(Sample(request, status, response));
  }

  /** The premises of `RemoteCall.CallOverRings` can be met, whatever the bytes and the status; so with these clients,
      rings and turns the call is answered with the response or the status. */
  lemma PremisesMeet(request: seq<byte>, status: u16, response: seq<byte>)
    requires Short(request, status, response)
    ensures var p := Whole(Sample(request, status, response));
      Premises(p, 0) && CA.Await(p.inbox, KIND, 1, false, MC.MAX_BODY, []) == CA.AnswerTo(status, response)
  {
    hide WireFor, Inputs, Ready, Fitted, CallerActs, ServerActs, HostRelays, AllArrived, CallerPolls, ExchangeOk,
         CA.Await, Question, Response;
    var x := Sample(request, status, response);
    IsReady(request, status, response);
    ReadyIsFitted(x);
    Asks(x);
    Acts(x);
    Forwards(x);
    Arrives(x);
    Polls(x);
    CallOverRings(Whole(x));
  }

  lemma ReadyIsFitted(x: Exchange)
    requires Ready(x)
    ensures Fitted(Whole(x))
  {}
}
