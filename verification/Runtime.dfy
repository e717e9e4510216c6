/** The module process runtime (server-go/bus/module_runtime.go) as a transition system. The serving
    loop, the handler goroutines and the environment take turns in any order; a step is one `select`,
    one `Poll`, one attempt to send a fragment, one half of a handler's work, or one drain receive. */
module Runtime {
  import opened Words
  import FC = FrameCodec
  import MC = ModuleCodec
  import BC = BusClient
  import opened Fragments

  const MAX_IN_FLIGHT: nat := 16

  /** The configured stages (kind to stage), whether a handler is set, and the client's inline budget. */
  datatype Config = Config(stages: map<u32, u32>, hasHandler: bool, budget: u32)

  datatype Assembly = Assembly(kind: u32, message: MC.Message, body: seq<byte>)

  datatype Work = Work(kind: u32, correlation: u64, stageId: u32, deadlineNs: u64, traceId: u64, cancelled: bool)

  /** A handler goroutine: still in the handler with its request body, or past the checks and about to
      send its result on `done`. */
  datatype Worker = Running(body: seq<byte>) | Checked(status: u16, body: seq<byte>)

  datatype Result = Result(correlation: u64, status: u16, body: seq<byte>)

  datatype Mode = AtSelect | AtPoll | Sending | Draining | Exited

  /** What one request fragment contributed, and what became of it. */
  datatype Part = Part(kind: u32, stageId: u32, deadlineNs: u64, traceId: u64, chunk: seq<byte>)
  datatype Verdict = Absorbed | Launched | Refused(status: u16) | Dropped
  datatype Entry = Entry(correlation: u64, verdict: Verdict, part: Part)

  datatype Tally = Tally(requests: nat, absorbed: nat, immediate: nat, launched: nat, finished: nat, drained: nat)

  datatype State = State(
    assemblies: map<u64, Assembly>, jobs: map<u64, Work>, workers: map<u64, Worker>, done: seq<Result>,
    mode: Mode,
    rest: seq<Fragment>,         // the part of the current reply not yet accepted by the bus
    out: seq<Fragment>,          // every fragment the bus accepted
    trains: seq<seq<Fragment>>,  // every reply begun
    log: seq<Entry>,             // every request fragment and cancellation handled
    tally: Tally)

  datatype Input =
    | Select
    | ContextDone | EpochSeen | PollFailed | PollNothing | PollEvent(event: BC.Event, now: u64)
    | SendAccepted | SendBlocked(contextDone: bool, epochChanged: bool) | SendFailed
    | HandlerReturns(correlation: u64, response: seq<byte>, status: u16, clock: u64)
    | HandlerSends(sender: u64)
    | DrainReceives

  function Start(): State {
    State(map[], map[], map[], [], AtSelect, [], [], [], [], Tally(0, 0, 0, 0, 0, 0))
  }

  function StageOf(cfg: Config, kind: u32): u32 { if kind in cfg.stages then cfg.stages[kind] else 0 }

  // ------------------------------------------------------------------ replies

  /** `replyModuleResult`'s first test, and `runHandler`'s: only an OK result keeps its body. */
  function Normal(status: u16, body: seq<byte>): (u16, seq<byte>) {
    if status > MC.STATUS_INTERNAL || |body| > MC.MAX_BODY then (MC.STATUS_INTERNAL, [])
    else if status != MC.STATUS_OK then (status, [])
    else (status, body)
  }

  function ResultHeader(status: u16, stage: u32, trace: u64): MC.Message {
    MC.Message(MC.OP_RESULT, status, stage, 0, 0, 0, trace)
  }

  /** The fragments of one reply. */
  function ReplyTrain(cfg: Config, kind: u32, c: u64, stage: u32, trace: u64, status: u16,
      body: seq<byte>): seq<Fragment>
    requires cfg.budget > MC.HEADER_LEN
  {
    var (st, b) := Normal(status, body);
    Train(kind, c, ResultHeader(st, stage, trace), b, cfg.budget - MC.HEADER_LEN)
  }

  /** Begins a reply; without room for a byte beside the header, or for stage 0, the loop exits with an error. */
  function Reply(cfg: Config, s: State, kind: u32, c: u64, stage: u32, trace: u64, status: u16,
      body: seq<byte>): State {
    if cfg.budget <= MC.HEADER_LEN || stage == 0 then s.(mode := Exited)
    else
      var train := ReplyTrain(cfg, kind, c, stage, trace, status, body);
      s.(mode := Sending, rest := train, trains := s.trains + [train])
  }

  // ----------------------------------------------------------- the event loop

  function Record(s: State, c: u64, verdict: Verdict, part: Part): State {
    s.(log := s.log + [Entry(c, verdict, part)])
  }

  /** Refuses a request fragment: any assembly is forgotten and a one-fragment reply begins. */
  function Refuse(cfg: Config, s: State, c: u64, part: Part, stage: u32, trace: u64, status: u16): State {
    var s1 := Record(s, c, Refused(status), part).(
                assemblies := s.assemblies - {c},
                tally := s.tally.(immediate := s.tally.immediate + 1));
    Reply(cfg, s1, part.kind, c, stage, trace, status, [])
  }

  predicate Matches(a: Assembly, kind: u32, m: MC.Message) {
    a.kind == kind && a.message.stageId == m.stageId && a.message.deadlineNs == m.deadlineNs
      && a.message.traceId == m.traceId
  }

  /** The test that makes a request fragment invalid. */
  predicate Invalid(cfg: Config, s: State, kind: u32, c: u64, d: MC.Decoded) {
    StageOf(cfg, kind) == 0 || d.Rejected? || d.message.operation != MC.OP_INVOKE
    || d.message.stageId != StageOf(cfg, kind) || c in s.jobs
    || (c in s.assemblies && !Matches(s.assemblies[c], kind, d.message))
  }

  function PartOf(kind: u32, d: MC.Decoded, payload: seq<byte>): Part {
    if d.Decoded? && MC.HEADER_LEN + d.message.bodyLen <= |payload|
    then Part(kind, d.message.stageId, d.message.deadlineNs, d.message.traceId,
              payload[MC.HEADER_LEN..MC.HEADER_LEN + d.message.bodyLen])
    else Part(kind, 0, 0, 0, [])
  }

  /** A request fragment that passed the checks, from the assembly table on. */
  function Accept(cfg: Config, s: State, c: u64, m: MC.Message, part: Part, more: bool, now: u64): State {
    var stage := StageOf(cfg, part.kind);
    if c !in s.assemblies && |s.assemblies| >= MAX_IN_FLIGHT then
      Refuse(cfg, s, c, part, stage, m.traceId, MC.STATUS_INTERNAL)
    else
      var a := if c in s.assemblies then s.assemblies[c] else Assembly(part.kind, m, []);
      if |a.body| + |part.chunk| > MC.MAX_BODY then Refuse(cfg, s, c, part, stage, m.traceId, MC.STATUS_INTERNAL)
      else if more then
        Record(s, c, Absorbed, part).(
          assemblies := s.assemblies[c := a.(body := a.body + part.chunk)],
          tally := s.tally.(absorbed := s.tally.absorbed + 1),
          mode := AtSelect)
      else if MC.DeadlineExpired(m.deadlineNs, now) then
        Refuse(cfg, s, c, part, stage, m.traceId, MC.STATUS_DEADLINE_EXCEEDED)
      else if !cfg.hasHandler then Refuse(cfg, s, c, part, stage, m.traceId, MC.STATUS_CAPABILITY_ABSENT)
      else if |s.jobs| >= MAX_IN_FLIGHT then Refuse(cfg, s, c, part, stage, m.traceId, MC.STATUS_INTERNAL)
      else
        Record(s, c, Launched, part).(
          assemblies := s.assemblies - {c},
          jobs := s.jobs[c := Work(part.kind, c, stage, m.deadlineNs, m.traceId, false)],
          workers := s.workers[c := Running(a.body + part.chunk)],
          tally := s.tally.(launched := s.tally.launched + 1),
          mode := AtSelect)
  }

  function Request(cfg: Config, s: State, event: BC.Event, now: u64): State {
    var kind, c := event.frame.eventKind, event.frame.correlationId;
    var d := MC.Decode(event.payload);
    var part := PartOf(kind, d, event.payload);
    var s1 := s.(tally := s.tally.(requests := s.tally.requests + 1));
    if Invalid(cfg, s, kind, c, d) then
      Refuse(cfg, s1, c, part, if StageOf(cfg, kind) == 0 then 1 else StageOf(cfg, kind), 0, MC.STATUS_INVALID_REQUEST)
    else Accept(cfg, s1, c, d.message, part, FC.Has(event.frame.hdrFlags, FC.F_MORE), now)
  }

  /** A cancellation marks the running job, if any, and drops the assembly, if any. */
  function Cancel(s: State, c: u64): State {
    Record(s, c, Dropped, Part(0, 0, 0, 0, [])).(
      jobs := if c in s.jobs then s.jobs[c := s.jobs[c].(cancelled := true)] else s.jobs,
      assemblies := s.assemblies - {c},
      mode := AtSelect)
  }

  function HandleEvent(cfg: Config, s: State, event: BC.Event, now: u64): State {
    if FC.Has(event.frame.hdrFlags, FC.F_CANCEL) then Cancel(s, event.frame.correlationId)
    else if !FC.Has(event.frame.hdrFlags, FC.F_REQUEST) then s.(mode := AtSelect)
    else Request(cfg, s, event, now)
  }

  // ------------------------------------------------------------- the handlers

  /** The status and body `runHandler` settles on: cancellation ahead of the deadline ahead of the handler. */
  function Settle(w: Work, response: seq<byte>, status: u16, clock: u64): (u16, seq<byte>) {
    if w.cancelled then (MC.STATUS_CANCELLED, [])
    else if w.deadlineNs != 0 && clock != 0 && clock >= w.deadlineNs then (MC.STATUS_DEADLINE_EXCEEDED, [])
    else Normal(status, response)
  }

  function CancelAll(jobs: map<u64, Work>): map<u64, Work> { map c | c in jobs :: jobs[c].(cancelled := true) }

  /** A result leaves `done`: its job ends and its reply begins. */
  function Finish(cfg: Config, s: State): State
    requires s.done != []
  {
    var r := s.done[0];
    var s1 := s.(done := s.done[1..], jobs := s.jobs - {r.correlation},
                 tally := s.tally.(finished := s.tally.finished + 1));
    if r.correlation !in s.jobs then s1.(mode := Exited)
    else
      var w := s.jobs[r.correlation];
      Reply(cfg, s1, w.kind, r.correlation, w.stageId, w.traceId, r.status, r.body)
  }

  /** The room in the buffered channel. */
  predicate DoneHasRoom(s: State) { |s.done| < MAX_IN_FLIGHT }

  /** One step of the system; an input that does not apply in the current state changes nothing. */
  function Step(cfg: Config, s: State, input: Input): State {
    match input
    case Select =>
      if !s.mode.AtSelect? then s else if s.done == [] then s.(mode := AtPoll) else Finish(cfg, s)
    case ContextDone =>
      if !s.mode.AtPoll? then s
      else s.(jobs := CancelAll(s.jobs), mode := if s.jobs == map[] then Exited else Draining)
    case EpochSeen => if s.mode.AtPoll? then s.(mode := Exited) else s
    case PollFailed => if s.mode.AtPoll? then s.(mode := Exited) else s
    case PollNothing => if s.mode.AtPoll? then s.(mode := AtSelect) else s
    case PollEvent(event, now) =>
      if s.mode.AtPoll? && FC.Validate(event.frame) == FC.OK then HandleEvent(cfg, s, event, now) else s
    case SendAccepted =>
      if !s.mode.Sending? || s.rest == [] then s
      else s.(out := s.out + [s.rest[0]], rest := s.rest[1..], mode := if |s.rest| == 1 then AtSelect else Sending)
    case SendBlocked(contextDone, epochChanged) =>
      if s.mode.Sending? && (contextDone || epochChanged) then s.(mode := Exited) else s
    case SendFailed => if s.mode.Sending? then s.(mode := Exited) else s
    case HandlerReturns(c, response, status, clock) =>
      if c in s.workers && s.workers[c].Running? && c in s.jobs then
        var (st, b) := Settle(s.jobs[c], response, status, clock);
        s.(workers := s.workers[c := Checked(st, b)])
      else s
    case HandlerSends(c) =>
      if c in s.workers && s.workers[c].Checked? && DoneHasRoom(s) then
        s.(workers := s.workers - {c}, done := s.done + [Result(c, s.workers[c].status, s.workers[c].body)])
      else s
    case DrainReceives =>
      if !s.mode.Draining? || s.done == [] then s
      else
        var jobs := s.jobs - {s.done[0].correlation};
        s.(done := s.done[1..], jobs := jobs, mode := if jobs == map[] then Exited else Draining,
           tally := s.tally.(drained := s.tally.drained + 1))
  }

  function Run(cfg: Config, s: State, inputs: seq<Input>): State
    decreases |inputs|
  {
    if inputs == [] then s else Run(cfg, Step(cfg, s, inputs[0]), inputs[1..])
  }

  lemma RunNothing(cfg: Config, s: State)
    ensures forall inputs :: |inputs| == 0 ==> Run(cfg, s, inputs) == s
  {}

  lemma {:induction false} RunAppend(cfg: Config, s: State, a: seq<Input>, b: seq<Input>)
    ensures Run(cfg, s, a + b) == Run(cfg, Run(cfg, s, a), b)
    decreases |a|
  {
    hide Step;
    if a == [] {
      assert a + b == b;
    } else {
      assert (a + b)[0] == a[0] && (a + b)[1..] == a[1..] + b;
      RunAppend(cfg, Step(cfg, s, a[0]), a[1..], b);
    }
  }

  lemma RunOneMore(cfg: Config, s: State, inputs: seq<Input>, i: nat)
    requires i < |inputs|
    ensures Run(cfg, s, inputs[..i + 1]) == Step(cfg, Run(cfg, s, inputs[..i]), inputs[i])
  {
    hide Step;
    assert inputs[..i + 1] == inputs[..i] + [inputs[i]];
    RunAppend(cfg, s, inputs[..i], [inputs[i]]);
    var mid := Run(cfg, s, inputs[..i]);
    assert [inputs[i]][1..] == [];
    assert Run(cfg, mid, [inputs[i]]) == Run(cfg, Step(cfg, mid, inputs[i]), []);
  }
}
