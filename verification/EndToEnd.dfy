/** A call across the bus: the request fragments of one correlation, interleaved with any other traffic,
    reach the handler as exactly the request, and the caller reassembles exactly the handler's answer. */
module EndToEnd {
  import opened Options
  import opened Words
  import FC = FrameCodec
  import MC = ModuleCodec
  import BC = BusClient
  import opened Fragments
  import opened Runtime
  import opened RuntimeSafety
  import RH = RuntimeHistory
  import CA = Caller

  /** One request and the settled outcome of its handler. */
  datatype Exchange = Exchange(
    kind: u32, stage: u32, trace: u64, deadlineNs: u64, c: u64, callerBudget: u32, request: seq<byte>,
    status: u16, response: seq<byte>)

  ghost predicate ExchangeOk(cfg: Config, x: Exchange) {
    && x.stage != 0 && StageOf(cfg, x.kind) == x.stage && cfg.budget > MC.HEADER_LEN && cfg.hasHandler
    && x.callerBudget > MC.HEADER_LEN && |x.request| <= MC.MAX_BODY
    && Normal(x.status, x.response) == (x.status, x.response)
  }

  function RequestOf(x: Exchange): (t: seq<Fragment>)
    requires x.callerBudget > MC.HEADER_LEN
  {
    CA.RequestTrain(x.callerBudget, x.kind, x.c, x.stage, x.deadlineNs, x.trace, x.request)
  }

  function PartsOf(x: Exchange): (parts: seq<seq<byte>>)
    requires x.callerBudget > MC.HEADER_LEN
    ensures |parts| > 0
  {
    Chunks(x.request, x.callerBudget - MC.HEADER_LEN)
  }

  function ReplyOf(cfg: Config, x: Exchange): seq<Fragment>
    requires cfg.budget > MC.HEADER_LEN
  {
    ReplyTrain(cfg, x.kind, x.c, x.stage, x.trace, x.status, x.response)
  }

  // ---------------------------------------------------- one correlation's view

  /** What the runtime holds for one correlation. */
  datatype Slice = Slice(assembly: Option<Assembly>, job: Option<Work>, worker: Option<Worker>, results: set<Result>)

  function Get<T>(m: map<u64, T>, c: u64): Option<T> { if c in m then Some(m[c]) else None }

  function SliceOf(s: State, c: u64): Slice {
    Slice(Get(s.assemblies, c), Get(s.jobs, c), Get(s.workers, c), set r | r in s.done && r.correlation == c)
  }

  /** How often a job was launched under `c`, and the request the last one was given. */
  datatype Ledger = Ledger(launches: nat, asked: seq<byte>)

  function Launches(log: seq<Entry>, c: u64): nat {
    if log == [] then 0
    else
      Launches(log[..|log| - 1], c)
      + (if log[|log| - 1].correlation == c && log[|log| - 1].verdict.Launched? then 1 else 0)
  }

  function LedgerOf(log: seq<Entry>, c: u64): Ledger { Ledger(Launches(log, c), RH.Body(RH.Requested(log, c))) }

  lemma LedgerRecords(log: seq<Entry>, e: Entry, c: u64)
    ensures LedgerOf(log + [e], c) ==
            if e.correlation == c && e.verdict.Launched?
            then Ledger(Launches(log, c) + 1, RH.Body(RH.Pending(log, c)) + e.part.chunk)
            else LedgerOf(log, c)
  {
    assert (log + [e])[..|log|] == log;
    RH.Recorded(log, e, c);
    RH.BodyAppend(RH.Pending(log, c), e.part);
  }

  /** What preceded the exchange under its correlation. */
  datatype Base = Base(out: seq<Fragment>, launches: nat)

  /** The serving loop is alive: it has not exited and is not shutting down. */
  predicate Live(s: State) { s.mode.AtSelect? || s.mode.AtPoll? || s.mode.Sending? }

  ghost predicate Sane(cfg: Config, s: State) { Tables(s) && RH.TrainsOk(cfg, s) && RH.Assembled(s) }

  /** The exchange after its first `k` fragments arrived: being assembled, with the handler, or being answered.
      `base` is what had been sent and launched under this correlation before: exactly one job is launched for
      the exchange, and it is given the request. */
  ghost predicate Tracks(cfg: Config, x: Exchange, base: Base, v: Slice, ledger: Ledger, out: seq<Fragment>,
      rest: seq<Fragment>, k: nat)
    requires cfg.budget > MC.HEADER_LEN && x.callerBudget > MC.HEADER_LEN
  {
    var parts := PartsOf(x);
    if k < |parts| then
      v.job.None? && v.worker.None? && v.results == {} && out == base.out && rest == []
        && ledger.launches == base.launches
      && (if k == 0 then v.assembly.None? else v.assembly.Some? && Assembling(x, v.assembly.value, Join(parts[..k])))
    else
      k == |parts| && v.assembly.None? && ledger == Ledger(base.launches + 1, x.request)
      && (if v.job.Some? then out == base.out && rest == [] && Working(x, v)
          else v.worker.None? && v.results == {} && out + rest == base.out + ReplyOf(cfg, x))
  }

  predicate Assembling(x: Exchange, a: Assembly, body: seq<byte>) {
    a.kind == x.kind && a.message.stageId == x.stage && a.message.deadlineNs == x.deadlineNs
      && a.message.traceId == x.trace
    && a.body == body
  }

  /** The job carries the whole request, or its settled result. */
  predicate Working(x: Exchange, v: Slice)
    requires v.job.Some?
  {
    v.job.value == Work(x.kind, x.c, x.stage, x.deadlineNs, x.trace, false)
    && ((v.worker == Some(Running(x.request)) && v.results == {})
        || (v.worker == Some(Checked(x.status, x.response)) && v.results == {})
        || (v.worker.None? && v.results == {Result(x.c, x.status, x.response)}))
  }

  ghost predicate TracksState(cfg: Config, x: Exchange, base: Base, s: State, k: nat)
    requires cfg.budget > MC.HEADER_LEN && x.callerBudget > MC.HEADER_LEN
  {
    Tracks(cfg, x, base, SliceOf(s, x.c), LedgerOf(s.log, x.c), Of(s.out, x.c), Of(s.rest, x.c), k)
  }

  /** The event this step takes from the bus, if it concerns `c`. */
  predicate Takes(s: State, input: Input, c: u64) {
    s.mode.AtPoll? && input.PollEvent? && FC.Validate(input.event.frame) == FC.OK
      && input.event.frame.correlationId == c
  }

  /** The premises on one step: if it takes an event of this correlation it is the next request fragment, and
      there is room for it; a handler that returns settles on the outcome of the exchange. */
  ghost predicate Allowed(cfg: Config, x: Exchange, s: State, input: Input, k: nat)
    requires x.callerBudget > MC.HEADER_LEN
  {
    && (Takes(s, input, x.c) ==>
          k < |RequestOf(x)| && CA.Carried(input.event, RequestOf(x)[k], FC.F_REQUEST)
          && (x.c in s.assemblies || |s.assemblies| < MAX_IN_FLIGHT)
          && (k + 1 == |RequestOf(x)| ==> |s.jobs| < MAX_IN_FLIGHT && (x.deadlineNs == 0 || input.now < x.deadlineNs)))
    && (input.HandlerReturns? && input.correlation == x.c
        && x.c in s.workers && s.workers[x.c].Running? && x.c in s.jobs ==>
          Settle(s.jobs[x.c], input.response, input.status, input.clock) == (x.status, x.response))
  }

  // -------------------------------------------------------------- single steps

  /** A step that leaves this correlation alone. */
  ghost predicate Untouched(s: State, s': State, c: u64) {
    SliceOf(s', c) == SliceOf(s, c) && LedgerOf(s'.log, c) == LedgerOf(s.log, c) && Of(s'.out, c) == Of(s.out, c)
      && Of(s'.rest, c) == Of(s.rest, c)
  }

  lemma UntouchedTracks(cfg: Config, x: Exchange, base: Base, s: State, s': State, k: nat)
    requires cfg.budget > MC.HEADER_LEN && x.callerBudget > MC.HEADER_LEN
    requires TracksState(cfg, x, base, s, k) && Untouched(s, s', x.c)
    ensures TracksState(cfg, x, base, s', k)
  {
    hide Tracks, Of, SliceOf, LedgerOf;
  }

  /** A reply of another correlation. */
  lemma OtherReply(cfg: Config, s: State, kind: u32, e: u64, stage: u32, trace: u64, status: u16, body: seq<byte>,
      c: u64)
    requires e != c && cfg.budget > MC.HEADER_LEN && stage != 0
    ensures Of(Reply(cfg, s, kind, e, stage, trace, status, body).rest, c) == []
  {
    hide MC.Bytes, Of;
    var (st, b) := Normal(status, body);
    TrainShape(kind, e, ResultHeader(st, stage, trace), b, cfg.budget - MC.HEADER_LEN);
    OfAll(ReplyTrain(cfg, kind, e, stage, trace, status, body), c);
  }

  lemma OtherRefuse(cfg: Config, s: State, e: u64, part: Part, stage: u32, trace: u64, status: u16, c: u64)
    requires e != c && cfg.budget > MC.HEADER_LEN && stage != 0 && s.rest == []
    ensures Untouched(s, Refuse(cfg, s, e, part, stage, trace, status), c)
  {
    hide Reply, LedgerOf;
    LedgerRecords(s.log, Entry(e, Refused(status), part), c);
    var s1 := Record(s, e, Refused(status), part).(
                assemblies := s.assemblies - {e},
                tally := s.tally.(immediate := s.tally.immediate + 1));
    ReplyFrame(cfg, s1, part.kind, e, stage, trace, status, []);
    OtherReply(cfg, s1, part.kind, e, stage, trace, status, [], c);
  }

  lemma OtherAccept(cfg: Config, s: State, e: u64, m: MC.Message, part: Part, more: bool, now: u64, c: u64)
    requires e != c && cfg.budget > MC.HEADER_LEN && StageOf(cfg, part.kind) != 0 && s.rest == []
    ensures Untouched(s, Accept(cfg, s, e, m, part, more, now), c)
  {
    hide Refuse, StageOf, MC.DeadlineExpired, Of, LedgerOf;
    var stage := StageOf(cfg, part.kind);
    LedgerRecords(s.log, Entry(e, Absorbed, part), c);
    LedgerRecords(s.log, Entry(e, Launched, part), c);
    OtherRefuse(cfg, s, e, part, stage, m.traceId, MC.STATUS_INTERNAL, c);
    OtherRefuse(cfg, s, e, part, stage, m.traceId, MC.STATUS_DEADLINE_EXCEEDED, c);
    OtherRefuse(cfg, s, e, part, stage, m.traceId, MC.STATUS_CAPABILITY_ABSENT, c);
  }

  lemma OtherEvent(cfg: Config, s: State, event: BC.Event, now: u64, c: u64)
    requires event.frame.correlationId != c && cfg.budget > MC.HEADER_LEN && s.rest == []
    ensures Untouched(s, HandleEvent(cfg, s, event, now), c)
  {
    hide Refuse, Accept, StageOf, MC.Decode, FC.Has, PartOf, Of, LedgerOf;
    LedgerRecords(s.log, Entry(event.frame.correlationId, Dropped, Part(0, 0, 0, 0, [])), c);
    var kind, e := event.frame.eventKind, event.frame.correlationId;
    var d := MC.Decode(event.payload);
    var part := PartOf(kind, d, event.payload);
    PartKind(kind, d, event.payload);
    var s1 := s.(tally := s.tally.(requests := s.tally.requests + 1));
    var stage := StageOf(cfg, kind);
    OtherRefuse(cfg, s1, e, part, if stage == 0 then 1 else stage, 0, MC.STATUS_INVALID_REQUEST, c);
    if stage != 0 && d.Decoded? {
      OtherAccept(cfg, s1, e, d.message, part, FC.Has(event.frame.hdrFlags, FC.F_MORE), now, c);
    }
  }

  lemma OtherFinish(cfg: Config, s: State, c: u64)
    requires Tables(s) && cfg.budget > MC.HEADER_LEN && s.rest == [] && s.done != [] && s.done[0].correlation != c
    ensures Untouched(s, Finish(cfg, s), c)
  {
    hide Reply, Of, TablesOk, LedgerOf, SliceOf;
    HeadJob(s);
    var r := s.done[0];
    var w := s.jobs[r.correlation];
    var s1 := s.(done := s.done[1..], jobs := s.jobs - {r.correlation},
                 tally := s.tally.(finished := s.tally.finished + 1));
    ReplyFrame(cfg, s1, w.kind, r.correlation, w.stageId, w.traceId, r.status, r.body);
    OtherReply(cfg, s1, w.kind, r.correlation, w.stageId, w.traceId, r.status, r.body, c);
    OfAll([], c);
    SameSlice(s, Finish(cfg, s), c);
  }

  lemma SameSlice(s: State, s': State, c: u64)
    requires s.done != [] && s.done[0].correlation != c && s'.done == s.done[1..]
    requires s'.assemblies == s.assemblies && s'.workers == s.workers && s'.jobs == s.jobs - {s.done[0].correlation}
    ensures SliceOf(s', c) == SliceOf(s, c)
  {
    FewerResults(s.done, c);
  }

  lemma HeadJob(s: State)
    requires Tables(s) && s.done != []
    ensures s.done[0].correlation in s.jobs && s.jobs[s.done[0].correlation].stageId != 0
  {
    hide DoneKeys, Distinct;
    TakeDone(s);
  }

  lemma FewerResults(done: seq<Result>, c: u64)
    requires done != []
    ensures (set q | q in done && q.correlation == c)
            == (set q | q in done[1..] && q.correlation == c) + (if done[0].correlation == c then {done[0]} else {})
  {
    assert done == [done[0]] + done[1..];
  }

  /** The next fragment of the request arrives. */
  lemma Arrives(cfg: Config, x: Exchange, base: Base, s: State, input: Input, k: nat)
    requires ExchangeOk(cfg, x) && Sane(cfg, s) && s.mode.AtPoll? && TracksState(cfg, x, base, s, k)
    requires Takes(s, input, x.c) && Allowed(cfg, x, s, input, k)
    ensures TracksState(cfg, x, base, Step(cfg, s, input), k + 1)
  {
    hide MC.Decode, MC.Bytes, FC.Has, FC.Validate, Of, TablesOk, RH.TrainsOk, CA.RequestTrain, LedgerOf, Accept, Step;
    RequestLength(x);
    AssemblySoFar(s, x.c);
    var part := PartsOf(x)[k];
    JoinNext(x, k);
    var s1 := s.(tally := s.tally.(requests := s.tally.requests + 1));
    var m := CA.InvokeHeader(x.stage, x.deadlineNs, x.trace).(bodyLen := |part|);
    StepAccepts(cfg, x, base, s, input, k);
    AcceptNext(cfg, x, base, s1, m, Part(x.kind, x.stage, x.deadlineNs, x.trace, part), k, input.now);
  }

  /** It passes the checks. */
  lemma StepAccepts(cfg: Config, x: Exchange, base: Base, s: State, input: Input, k: nat)
    requires ExchangeOk(cfg, x) && s.mode.AtPoll? && TracksState(cfg, x, base, s, k)
    requires Takes(s, input, x.c) && Allowed(cfg, x, s, input, k)
    ensures k < |PartsOf(x)| && |PartsOf(x)[k]| <= MC.MAX_BODY
    ensures var s1 := s.(tally := s.tally.(requests := s.tally.requests + 1));
      var part := PartsOf(x)[k];
      var m := CA.InvokeHeader(x.stage, x.deadlineNs, x.trace).(bodyLen := |part|);
      Step(cfg, s, input)
      == Accept(cfg, s1, x.c, m, Part(x.kind, x.stage, x.deadlineNs, x.trace, part), k + 1 < |PartsOf(x)|, input.now)
  {
    hide MC.Decode, MC.Bytes, FC.Has, FC.Validate, Of, CA.RequestTrain, LedgerOf, Accept, Chunks, Join;
    RequestLength(x);
    var parts := PartsOf(x);
    var part := parts[k];
    RequestAt(x, k);
    FragmentReads(x.kind, x.c, CA.InvokeHeader(x.stage, x.deadlineNs, x.trace), part, k + 1 < |parts|);
    var s1 := s.(tally := s.tally.(requests := s.tally.requests + 1));
    var p := Part(x.kind, x.stage, x.deadlineNs, x.trace, part);
    assert PartOf(x.kind, MC.Decode(input.event.payload), input.event.payload) == p;
    assert !Invalid(cfg, s1, x.kind, x.c, MC.Decode(input.event.payload));
  }

  lemma AcceptNext(cfg: Config, x: Exchange, base: Base, s: State, m: MC.Message, p: Part, k: nat, now: u64)
    requires ExchangeOk(cfg, x) && TracksState(cfg, x, base, s, k) && k < |PartsOf(x)|
    requires m.stageId == x.stage && m.deadlineNs == x.deadlineNs && m.traceId == x.trace
    requires p == Part(x.kind, x.stage, x.deadlineNs, x.trace, PartsOf(x)[k])
    requires Join(PartsOf(x)[..k + 1]) == Join(PartsOf(x)[..k]) + PartsOf(x)[k]
    requires |Join(PartsOf(x)[..k + 1])| <= MC.MAX_BODY && Join(PartsOf(x)[..0]) == []
    requires k + 1 == |PartsOf(x)| ==> Join(PartsOf(x)[..k + 1]) == x.request
    requires RH.Body(RH.Pending(s.log, x.c)) == if x.c in s.assemblies then s.assemblies[x.c].body else []
    requires x.c in s.assemblies || |s.assemblies| < MAX_IN_FLIGHT
    requires k + 1 == |PartsOf(x)| ==> |s.jobs| < MAX_IN_FLIGHT && (x.deadlineNs == 0 || now < x.deadlineNs)
    ensures TracksState(cfg, x, base, Accept(cfg, s, x.c, m, p, k + 1 < |PartsOf(x)|, now), k + 1)
  {
    hide Of, Refuse, Chunks, Join, ReplyTrain, RH.Pending, RH.Requested, RH.Body, Launches;
    LedgerRecords(s.log, Entry(x.c, Absorbed, p), x.c);
    LedgerRecords(s.log, Entry(x.c, Launched, p), x.c);
  }

  lemma AssemblySoFar(s: State, c: u64)
    requires RH.Assembled(s)
    ensures RH.Body(RH.Pending(s.log, c)) == if c in s.assemblies then s.assemblies[c].body else []
  {
    hide RH.Pending;
    assert RH.AssemblyOk(s.assemblies, s.log, c);
  }

  lemma RequestLength(x: Exchange)
    requires x.callerBudget > MC.HEADER_LEN
    ensures |RequestOf(x)| == |PartsOf(x)|
  {
    hide MC.Bytes;
  }

  /** The fragments of the request train and its pieces. */
  lemma RequestAt(x: Exchange, k: nat)
    requires x.callerBudget > MC.HEADER_LEN && k < |PartsOf(x)| && |x.request| <= MC.MAX_BODY
    ensures |RequestOf(x)| == |PartsOf(x)| && |PartsOf(x)[k]| <= MC.MAX_BODY
    ensures RequestOf(x)[k] == FragmentOf(x.kind, x.c, CA.InvokeHeader(x.stage, x.deadlineNs, x.trace), PartsOf(x)[k],
            k + 1 < |PartsOf(x)|)
  {
    hide MC.Bytes;
    ChunkShape(x.request, x.callerBudget - MC.HEADER_LEN);
  }

  lemma JoinNext(x: Exchange, k: nat)
    requires x.callerBudget > MC.HEADER_LEN && k < |PartsOf(x)| && |x.request| <= MC.MAX_BODY
    ensures var parts := PartsOf(x);
      Join(parts[..k + 1]) == Join(parts[..k]) + parts[k] && |Join(parts[..k + 1])| <= MC.MAX_BODY
        && Join(parts[..0]) == []
      && (k + 1 == |parts| ==> Join(parts[..k + 1]) == x.request)
  {
    var parts := PartsOf(x);
    assert parts[..k + 1][..k] == parts[..k];
    JoinOfChunks(x.request, x.callerBudget - MC.HEADER_LEN);
    CA.JoinPrefix(parts, k + 1);
    if k + 1 == |parts| { assert parts[..k + 1] == parts; }
  }

  lemma ReplyGives(cfg: Config, s: State, kind: u32, c: u64, stage: u32, trace: u64, status: u16, body: seq<byte>)
    requires cfg.budget > MC.HEADER_LEN && stage != 0
    ensures Reply(cfg, s, kind, c, stage, trace, status, body).rest
            == ReplyTrain(cfg, kind, c, stage, trace, status, body)
  {
    hide ReplyTrain;
  }

  /** Every fragment of the answer is this correlation's. */
  lemma ReplyIsOwn(cfg: Config, x: Exchange)
    requires ExchangeOk(cfg, x)
    ensures Of(ReplyOf(cfg, x), x.c) == ReplyOf(cfg, x)
  {
    hide MC.Bytes, Of, StageOf;
    TrainShape(x.kind, x.c, ResultHeader(x.status, x.stage, x.trace), x.response, cfg.budget - MC.HEADER_LEN);
    OfAll(ReplyOf(cfg, x), x.c);
  }

  /** The handler's result is taken from `done` and answered. */
  lemma Answers(cfg: Config, x: Exchange, base: Base, s: State, k: nat)
    requires ExchangeOk(cfg, x) && Sane(cfg, s) && s.rest == [] && TracksState(cfg, x, base, s, k)
    requires s.done != [] && s.done[0].correlation == x.c
    ensures TracksState(cfg, x, base, Finish(cfg, s), k)
  {
    hide Of, RH.TrainsOk, RH.Assembled, StageOf, ReplyTrain, Chunks, Join, Assembling, Reply, TablesOk, LedgerOf;
    HeadIsGone(s);
    var r, w := s.done[0], s.jobs[x.c];
    assert r in SliceOf(s, x.c).results;
    var s1 := s.(done := s.done[1..], jobs := s.jobs - {x.c}, tally := s.tally.(finished := s.tally.finished + 1));
    ReplyFrame(cfg, s1, w.kind, x.c, w.stageId, w.traceId, r.status, r.body);
    ReplyGives(cfg, s1, w.kind, x.c, w.stageId, w.traceId, r.status, r.body);
    ReplyIsOwn(cfg, x);
  }

  lemma HeadIsGone(s: State)
    requires Tables(s) && s.done != []
    ensures var c := s.done[0].correlation;
      c in s.jobs && c !in s.workers && (set q | q in s.done[1..] && q.correlation == c) == {}
  {
    TakeDone(s);
    DoneTail(s.done);
    NoMore(s.done[1..], s.done[0].correlation);
  }

  lemma NoMore(done: seq<Result>, c: u64)
    requires c !in DoneKeys(done)
    ensures (set q | q in done && q.correlation == c) == {}
  {
    forall q | q in done ensures q.correlation != c { assert q.correlation in DoneKeys(done); }
  }

  /** A fragment the bus accepts moves from the unsent part to the sent one. */
  lemma SendsOne(s: State, c: u64)
    requires s.rest != []
    ensures Of(s.out + [s.rest[0]], c) + Of(s.rest[1..], c) == Of(s.out, c) + Of(s.rest, c)
    ensures Of(s.rest, c) == [] ==> Of(s.out + [s.rest[0]], c) == Of(s.out, c) && Of(s.rest[1..], c) == []
  {
    hide Of;
    OfAppend(s.out, [s.rest[0]], c);
    OfAppend([s.rest[0]], s.rest[1..], c);
    assert s.rest == [s.rest[0]] + s.rest[1..];
  }

  lemma SendTracks(cfg: Config, x: Exchange, base: Base, s: State, k: nat)
    requires ExchangeOk(cfg, x) && TracksState(cfg, x, base, s, k)
    ensures TracksState(cfg, x, base, Step(cfg, s, SendAccepted), k)
  {
    hide Of, Chunks, Join, ReplyTrain, Working, Assembling, LedgerOf;
    if s.mode.Sending? && s.rest != [] { SendsOne(s, x.c); }
  }

  lemma ReturnTracks(cfg: Config, x: Exchange, base: Base, s: State, input: Input, k: nat)
    requires ExchangeOk(cfg, x) && Tables(s) && TracksState(cfg, x, base, s, k) && Allowed(cfg, x, s, input, k)
    requires input.HandlerReturns?
    ensures TracksState(cfg, x, base, Step(cfg, s, input), k)
  {
    hide Of, Chunks, Join, ReplyTrain, Assembling, Settle, TablesOk, LedgerOf;
    var s' := Step(cfg, s, input);
    assert SliceOf(s', x.c).results == SliceOf(s, x.c).results;
  }

  lemma SendResultTracks(cfg: Config, x: Exchange, base: Base, s: State, input: Input, k: nat)
    requires ExchangeOk(cfg, x) && TracksState(cfg, x, base, s, k) && input.HandlerSends?
    ensures TracksState(cfg, x, base, Step(cfg, s, input), k)
  {
    hide Of, Chunks, Join, ReplyTrain, Assembling, LedgerOf;
    var s' := Step(cfg, s, input);
    if s' != s {
      var e := input.sender;
      var r := Result(e, s.workers[e].status, s.workers[e].body);
      MoreResults(s.done, r, x.c);
    }
  }

  lemma MoreResults(done: seq<Result>, r: Result, c: u64)
    ensures (set q | q in done + [r] && q.correlation == c)
            == (set q | q in done && q.correlation == c) + (if r.correlation == c then {r} else {})
  {}

  /** One step of a live run keeps the exchange on track. */
  lemma TrackStep(cfg: Config, x: Exchange, base: Base, s: State, input: Input, k: nat)
    requires ExchangeOk(cfg, x) && Sane(cfg, s) && Live(s) && TracksState(cfg, x, base, s, k)
             && Allowed(cfg, x, s, input, k)
    requires Live(Step(cfg, s, input))
    ensures TracksState(cfg, x, base, Step(cfg, s, input), if Takes(s, input, x.c) then k + 1 else k)
  {
    hide TracksState, HandleEvent, Finish, TablesOk, RH.Assembled, FC.Validate, Settle, RequestOf, Of, SliceOf,
         LedgerOf;
    match input
    case Select => SelectTracks(cfg, x, base, s, k);
    case PollEvent(_, _) => PollTracks(cfg, x, base, s, input, k);
    case SendAccepted => SendTracks(cfg, x, base, s, k);
    case HandlerReturns(_, _, _, _) => ReturnTracks(cfg, x, base, s, input, k);
    case HandlerSends(_) => SendResultTracks(cfg, x, base, s, input, k);
    case _ => SameState(cfg, x, base, s, Step(cfg, s, input), k);
  }

  lemma SelectTracks(cfg: Config, x: Exchange, base: Base, s: State, k: nat)
    requires ExchangeOk(cfg, x) && Sane(cfg, s) && Live(s) && TracksState(cfg, x, base, s, k)
    requires Live(Step(cfg, s, Select))
    ensures TracksState(cfg, x, base, Step(cfg, s, Select), k)
  {
    hide TracksState, Finish, TablesOk, RH.Assembled, RequestOf, Of, SliceOf, LedgerOf;
    var s' := Step(cfg, s, Select);
    if s.mode.AtSelect? && s.done != [] {
      RH.NothingUnsent(cfg, s);
      if s.done[0].correlation == x.c {
        Answers(cfg, x, base, s, k);
      } else {
        OtherFinish(cfg, s, x.c);
        UntouchedTracks(cfg, x, base, s, s', k);
      }
    } else {
      SameState(cfg, x, base, s, s', k);
    }
  }

  lemma PollTracks(cfg: Config, x: Exchange, base: Base, s: State, input: Input, k: nat)
    requires ExchangeOk(cfg, x) && Sane(cfg, s) && Live(s) && TracksState(cfg, x, base, s, k)
             && Allowed(cfg, x, s, input, k)
    requires input.PollEvent? && Live(Step(cfg, s, input))
    ensures TracksState(cfg, x, base, Step(cfg, s, input), if Takes(s, input, x.c) then k + 1 else k)
  {
    hide TracksState, HandleEvent, TablesOk, RH.Assembled, FC.Validate, RequestOf, Of, SliceOf, LedgerOf;
    var s' := Step(cfg, s, input);
    if Takes(s, input, x.c) {
      Arrives(cfg, x, base, s, input, k);
    } else if s' != s {
      RH.NothingUnsent(cfg, s);
      OtherEvent(cfg, s, input.event, input.now, x.c);
      UntouchedTracks(cfg, x, base, s, s', k);
    }
  }

  lemma SameState(cfg: Config, x: Exchange, base: Base, s: State, s': State, k: nat)
    requires cfg.budget > MC.HEADER_LEN && x.callerBudget > MC.HEADER_LEN && TracksState(cfg, x, base, s, k)
    requires s'.assemblies == s.assemblies && s'.jobs == s.jobs && s'.workers == s.workers && s'.done == s.done
    requires s'.out == s.out && s'.rest == s.rest && s'.log == s.log
    ensures TracksState(cfg, x, base, s', k)
  {
    hide Tracks, Of, LedgerOf;
  }

  // -------------------------------------------------------------------- runs

  /** The events of correlation `c` the serving loop takes from the bus during a run. */
  function Arrivals(cfg: Config, s: State, inputs: seq<Input>, c: u64): seq<BC.Event>
    decreases |inputs|
  {
    if inputs == [] then []
    else
      (if Takes(s, inputs[0], c) then [inputs[0].event] else [])
      + Arrivals(cfg, Step(cfg, s, inputs[0]), inputs[1..], c)
  }

  /** The run stays live, and at every step: an arriving fragment finds room, the last one before its
      deadline; and a returning handler settles on the outcome of the exchange. */
  ghost predicate Smooth(cfg: Config, x: Exchange, s: State, inputs: seq<Input>, k: nat)
    requires x.callerBudget > MC.HEADER_LEN
    decreases |inputs|
  {
    Live(s)
    && (inputs != [] ==>
          (Takes(s, inputs[0], x.c) ==>
             (x.c in s.assemblies || |s.assemblies| < MAX_IN_FLIGHT)
             && (k + 1 == |PartsOf(x)| ==>
                   |s.jobs| < MAX_IN_FLIGHT && (x.deadlineNs == 0 || inputs[0].now < x.deadlineNs)))
          && (inputs[0].HandlerReturns? && inputs[0].correlation == x.c
              && x.c in s.workers && s.workers[x.c].Running? && x.c in s.jobs ==>
                Settle(s.jobs[x.c], inputs[0].response, inputs[0].status, inputs[0].clock) == (x.status, x.response))
          && Smooth(cfg, x, Step(cfg, s, inputs[0]), inputs[1..], if Takes(s, inputs[0], x.c) then k + 1 else k))
  }

  lemma StepSane(cfg: Config, s: State, input: Input)
    requires Sane(cfg, s) && cfg.budget > MC.HEADER_LEN
    ensures Sane(cfg, Step(cfg, s, input))
  {
    hide Tables, RH.TrainsOk, RH.Assembled, Step;
    StepTables(cfg, s, input);
    RH.StepTrains(cfg, s, input);
    RH.StepAssembled(cfg, s, input);
  }

  /** Along every smooth run whose arrivals are, in order, fragments of the request from the `k`-th on. */
  lemma {:induction false} TrackRun(cfg: Config, x: Exchange, base: Base, s: State, inputs: seq<Input>, k: nat)
    requires ExchangeOk(cfg, x) && Sane(cfg, s) && TracksState(cfg, x, base, s, k) && Smooth(cfg, x, s, inputs, k)
    requires k + |Arrivals(cfg, s, inputs, x.c)| <= |RequestOf(x)|
    requires forall i :: 0 <= i < |Arrivals(cfg, s, inputs, x.c)| ==>
               CA.Carried(Arrivals(cfg, s, inputs, x.c)[i], RequestOf(x)[k + i], FC.F_REQUEST)
    ensures var s' := Run(cfg, s, inputs);
      Sane(cfg, s') && Live(s') && TracksState(cfg, x, base, s', k + |Arrivals(cfg, s, inputs, x.c)|)
    decreases |inputs|
  {
    hide TracksState, Step, Sane, CA.Carried, RequestOf, FC.Validate, PartsOf, Settle, MC.DeadlineExpired;
    if inputs != [] {
      var input := inputs[0];
      var next := Step(cfg, s, input);
      var taken := if Takes(s, input, x.c) then 1 else 0;
      var all, later := Arrivals(cfg, s, inputs, x.c), Arrivals(cfg, next, inputs[1..], x.c);
      assert all == (if Takes(s, input, x.c) then [input.event] else []) + later;
      if Takes(s, input, x.c) { assert CA.Carried(all[0], RequestOf(x)[k + 0], FC.F_REQUEST); }
      AllowedHere(cfg, x, s, inputs, k);
      LiveHead(cfg, x, s, inputs, k);
      TrackStep(cfg, x, base, s, input, k);
      StepSane(cfg, s, input);
      forall i | 0 <= i < |later| ensures CA.Carried(later[i], RequestOf(x)[k + taken + i], FC.F_REQUEST) {
        assert later[i] == all[taken + i];
        assert CA.Carried(all[taken + i], RequestOf(x)[k + (taken + i)], FC.F_REQUEST);
      }
      TrackRun(cfg, x, base, next, inputs[1..], k + taken);
    }
  }

  lemma LiveHead(cfg: Config, x: Exchange, s: State, inputs: seq<Input>, k: nat)
    requires x.callerBudget > MC.HEADER_LEN && Smooth(cfg, x, s, inputs, k) && inputs != []
    ensures Live(s) && Live(Step(cfg, s, inputs[0]))
    ensures Smooth(cfg, x, Step(cfg, s, inputs[0]), inputs[1..], if Takes(s, inputs[0], x.c) then k + 1 else k)
  {
    hide Step, Takes, Settle, PartsOf;
  }

  lemma AllowedHere(cfg: Config, x: Exchange, s: State, inputs: seq<Input>, k: nat)
    requires x.callerBudget > MC.HEADER_LEN && Smooth(cfg, x, s, inputs, k) && inputs != []
    requires Takes(s, inputs[0], x.c) ==>
               k < |RequestOf(x)| && CA.Carried(inputs[0].event, RequestOf(x)[k], FC.F_REQUEST)
    ensures Allowed(cfg, x, s, inputs[0], k)
  {
    hide Step, CA.Carried, Settle, MC.DeadlineExpired, FC.Validate;
    RequestLength(x);
  }

  /** Nothing of this correlation is in the runtime. */
  ghost predicate Idle(s: State, c: u64) { c !in s.assemblies && c !in s.jobs && Of(s.rest, c) == [] }

  lemma IdleTracks(cfg: Config, x: Exchange, s: State)
    requires ExchangeOk(cfg, x) && Tables(s) && Idle(s, x.c)
    ensures TracksState(cfg, x, Base(Of(s.out, x.c), Launches(s.log, x.c)), s, 0)
  {
    hide Of, Chunks, ReplyTrain, Launches;
    assert x.c !in DoneKeys(s.done);
    NoMore(s.done, x.c);
  }

  /** The server's half. Start from any sane state in which the correlation is idle, and let any run follow,
      with any other traffic, in which exactly the fragments of one request arrive under it, each finding
      room, and the handler settles on (status, response). Then exactly one job is launched for it, given
      exactly the request bytes; and once the job has ended and nothing of it waits to be sent, what was sent
      under the correlation is exactly the reply train. */
  lemma ServesExactly(cfg: Config, x: Exchange, s: State, inputs: seq<Input>)
    requires ExchangeOk(cfg, x) && Sane(cfg, s) && Idle(s, x.c) && Smooth(cfg, x, s, inputs, 0)
    requires CA.CarriedAll(Arrivals(cfg, s, inputs, x.c), RequestOf(x), FC.F_REQUEST)
    ensures var s' := Run(cfg, s, inputs);
      && Launches(s'.log, x.c) == Launches(s.log, x.c) + 1
      && RH.Body(RH.Requested(s'.log, x.c)) == x.request
      && (x.c in s'.workers && s'.workers[x.c].Running? ==> s'.workers[x.c].body == x.request)
      && (x.c !in s'.jobs && Of(s'.rest, x.c) == [] ==> Of(s'.out, x.c) == Of(s.out, x.c) + ReplyOf(cfg, x))
  {
    hide Of, Chunks, ReplyTrain, RH.TrainsOk, RH.Assembled, Step, Run, Smooth, CA.Carried, RH.Body, RH.Requested,
         TablesOk, Launches;
    IdleTracks(cfg, x, s);
    RequestLength(x);
    TrackRun(cfg, x, Base(Of(s.out, x.c), Launches(s.log, x.c)), s, inputs, 0);
    JobOfWorker(Run(cfg, s, inputs), x.c);
  }

  lemma JobOfWorker(s: State, c: u64)
    requires Tables(s)
    ensures c in s.workers ==> c in s.jobs
  {}

  /** End to end. If the caller's own polls begin with the events that carry what the server sent
      (`RemoteCall.CallOverRings` shows that they do), then whatever else the caller polls, its call returns exactly
      the handler's response, or fails with the status settled on. */
  lemma CallReturnsResponse(cfg: Config, x: Exchange, s: State, inputs: seq<Input>, inbox: seq<CA.Polled>,
      expires: bool, events: seq<BC.Event>, later: seq<CA.Polled>)
    requires ExchangeOk(cfg, x) && Sane(cfg, s) && Idle(s, x.c) && Smooth(cfg, x, s, inputs, 0)
    requires CA.CarriedAll(Arrivals(cfg, s, inputs, x.c), RequestOf(x), FC.F_REQUEST)
    requires var s' := Run(cfg, s, inputs); x.c !in s'.jobs && Of(s'.rest, x.c) == []
    requires x.kind != FC.KIND_ERROR && x.kind != FC.KIND_CAPABILITY_ABSENT
    requires |Of(s.out, x.c)| <= |Of(Run(cfg, s, inputs).out, x.c)|
    requires CA.CarriedAll(events, Of(Run(cfg, s, inputs).out, x.c)[|Of(s.out, x.c)|..], FC.F_REPLY)
    requires CA.OwnOf(inbox, x.kind, x.c, expires) == CA.ReceivedAll(events) + later
    ensures CA.Await(inbox, x.kind, x.c, expires, MC.MAX_BODY, []) == CA.AnswerTo(x.status, x.response)
  {
    hide Of, Chunks, Step, Run, Smooth, CA.Carried, CA.Own, CA.React, MC.Bytes, Sane, RequestOf;
    ServesExactly(cfg, x, s, inputs);
    assert Of(Run(cfg, s, inputs).out, x.c)[|Of(s.out, x.c)|..] == ReplyOf(cfg, x);
    CA.AwaitTrain(inbox, x.kind, x.c, expires, ResultHeader(x.status, x.stage, x.trace), x.response,
                  cfg.budget - MC.HEADER_LEN, events, later);
  }
}
