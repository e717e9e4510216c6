/** What a run of the module runtime leaves behind: request bodies assembled in order, outbound replies
    that never interleave, nothing unanswered, and a shutdown that drains exactly the jobs it found. */
module RuntimeHistory {
  import opened Words
  import FC = FrameCodec
  import MC = ModuleCodec
  import BC = BusClient
  import opened Fragments
  import opened Runtime
  import opened RuntimeSafety

  // -------------------------------------------------------- request assembly

  /** The fragments of `c` accepted since the last time its assembly was reset or completed. */
  function Pending(log: seq<Entry>, c: u64): seq<Part> {
    if log == [] then []
    else
      var e := log[|log| - 1];
      var before := Pending(log[..|log| - 1], c);
      if e.correlation != c then before else if e.verdict.Absorbed? then before + [e.part] else []
  }

  /** The fragments of the request last handed to a handler under `c`. */
  function Requested(log: seq<Entry>, c: u64): seq<Part> {
    if log == [] then []
    else
      var e := log[|log| - 1];
      if e.correlation == c && e.verdict.Launched? then Pending(log[..|log| - 1], c) + [e.part]
      else Requested(log[..|log| - 1], c)
  }

  function Body(parts: seq<Part>): seq<byte> {
    if parts == [] then [] else Body(parts[..|parts| - 1]) + parts[|parts| - 1].chunk
  }

  predicate Agrees(p: Part, kind: u32, stage: u32, deadline: u64, trace: u64) {
    p.kind == kind && p.stageId == stage && p.deadlineNs == deadline && p.traceId == trace
  }

  ghost predicate AllAgree(parts: seq<Part>, kind: u32, stage: u32, deadline: u64, trace: u64) {
    forall p :: p in parts ==> Agrees(p, kind, stage, deadline, trace)
  }

  /** An assembly exists exactly while fragments are pending, and holds their concatenation. */
  ghost predicate AssemblyOk(assemblies: map<u64, Assembly>, log: seq<Entry>, c: u64) {
    var parts := Pending(log, c);
    && (c in assemblies <==> parts != [])
    && (c in assemblies ==>
          var a := assemblies[c];
          a.body == Body(parts) && |a.body| <= MC.MAX_BODY
          && AllAgree(parts, a.kind, a.message.stageId, a.message.deadlineNs, a.message.traceId))
  }

  /** A running handler was given the concatenation of the fragments of its request, all of one kind,
      stage, deadline and trace. */
  ghost predicate HandlerOk(jobs: map<u64, Work>, workers: map<u64, Worker>, log: seq<Entry>, c: u64) {
    c in workers && c in jobs ==>
      var parts := Requested(log, c);
      AllAgree(parts, jobs[c].kind, jobs[c].stageId, jobs[c].deadlineNs, jobs[c].traceId) && parts != []
      && (workers[c].Running? ==> workers[c].body == Body(parts) && |workers[c].body| <= MC.MAX_BODY)
  }

  ghost predicate Assembled(s: State) {
    && (forall c: u64 :: AssemblyOk(s.assemblies, s.log, c))
    && (forall c: u64 :: HandlerOk(s.jobs, s.workers, s.log, c))
  }

  lemma Recorded(log: seq<Entry>, e: Entry, c: u64)
    ensures var log' := log + [e];
      Pending(log', c) == (if e.correlation != c then Pending(log, c)
                           else if e.verdict.Absorbed? then Pending(log, c) + [e.part] else [])
      && Requested(log', c)
         == (if e.correlation == c && e.verdict.Launched? then Pending(log, c) + [e.part] else Requested(log, c))
  {
    assert (log + [e])[..|log|] == log;
  }

  lemma BodyAppend(parts: seq<Part>, p: Part)
    ensures Body(parts + [p]) == Body(parts) + p.chunk
  {
    assert (parts + [p])[..|parts|] == parts;
  }

  lemma ResetAssembled(s: State, e: Entry, jobs: map<u64, Work>)
    requires Assembled(s) && !e.verdict.Absorbed? && !e.verdict.Launched?
    requires jobs.Keys == s.jobs.Keys
    requires forall c :: c in jobs ==> jobs[c] == s.jobs[c].(cancelled := jobs[c].cancelled)
    ensures Assembled(s.(assemblies := s.assemblies - {e.correlation}, jobs := jobs, log := s.log + [e]))
  {
    hide Pending, Requested, AllAgree;
    forall c: u64 ensures AssemblyOk(s.assemblies - {e.correlation}, s.log + [e], c) {
      Recorded(s.log, e, c);
      assert AssemblyOk(s.assemblies, s.log, c);
    }
    forall c: u64 ensures HandlerOk(jobs, s.workers, s.log + [e], c) {
      Recorded(s.log, e, c);
      assert HandlerOk(s.jobs, s.workers, s.log, c);
    }
  }

  lemma NoBody()
    ensures Body([]) == []
  {}

  lemma AbsorbOne(s: State, e: Entry, a: Assembly, c: u64)
    requires AssemblyOk(s.assemblies, s.log, c) && e.verdict.Absorbed?
    requires a == if e.correlation in s.assemblies then s.assemblies[e.correlation] else a.(body := [])
    requires Agrees(e.part, a.kind, a.message.stageId, a.message.deadlineNs, a.message.traceId)
    requires |a.body| + |e.part.chunk| <= MC.MAX_BODY
    ensures AssemblyOk(s.assemblies[e.correlation := a.(body := a.body + e.part.chunk)], s.log + [e], c)
  {
    hide Pending, Requested, Body;
    Recorded(s.log, e, c);
    BodyAppend(Pending(s.log, c), e.part);
    NoBody();
  }

  lemma AbsorbAssembled(s: State, e: Entry, a: Assembly)
    requires Assembled(s) && e.verdict.Absorbed?
    requires a == if e.correlation in s.assemblies then s.assemblies[e.correlation] else a.(body := [])
    requires Agrees(e.part, a.kind, a.message.stageId, a.message.deadlineNs, a.message.traceId)
    requires |a.body| + |e.part.chunk| <= MC.MAX_BODY
    ensures Assembled(s.(assemblies := s.assemblies[e.correlation := a.(body := a.body + e.part.chunk)],
            log := s.log + [e]))
  {
    hide Pending, Requested, AssemblyOk, AllAgree, Body;
    var assemblies := s.assemblies[e.correlation := a.(body := a.body + e.part.chunk)];
    forall c: u64 ensures AssemblyOk(assemblies, s.log + [e], c) {
      assert AssemblyOk(s.assemblies, s.log, c);
      AbsorbOne(s, e, a, c);
    }
    forall c: u64 ensures HandlerOk(s.jobs, s.workers, s.log + [e], c) {
      Recorded(s.log, e, c);
      assert HandlerOk(s.jobs, s.workers, s.log, c);
    }
  }

  lemma LaunchAssembled(s: State, e: Entry, a: Assembly, w: Work)
    requires Assembled(s) && e.verdict.Launched?
    requires a == if e.correlation in s.assemblies then s.assemblies[e.correlation] else a.(body := [])
    requires Agrees(e.part, a.kind, a.message.stageId, a.message.deadlineNs, a.message.traceId)
    requires Agrees(e.part, w.kind, w.stageId, w.deadlineNs, w.traceId)
    requires |a.body| + |e.part.chunk| <= MC.MAX_BODY
    ensures Assembled(s.(assemblies := s.assemblies - {e.correlation}, jobs := s.jobs[e.correlation := w],
                         workers := s.workers[e.correlation := Running(a.body + e.part.chunk)], log := s.log + [e]))
  {
    hide Pending, Requested;
    var assemblies, log := s.assemblies - {e.correlation}, s.log + [e];
    forall c: u64 ensures AssemblyOk(assemblies, log, c) {
      Recorded(s.log, e, c);
      assert AssemblyOk(s.assemblies, s.log, c);
    }
    var jobs, workers := s.jobs[e.correlation := w], s.workers[e.correlation := Running(a.body + e.part.chunk)];
    forall c: u64 ensures HandlerOk(jobs, workers, log, c) {
      Recorded(s.log, e, c);
      assert HandlerOk(s.jobs, s.workers, s.log, c);
      if c == e.correlation { LaunchedHandler(s, e, a, w); }
    }
  }

  lemma LaunchedHandler(s: State, e: Entry, a: Assembly, w: Work)
    requires AssemblyOk(s.assemblies, s.log, e.correlation) && e.verdict.Launched?
    requires a == if e.correlation in s.assemblies then s.assemblies[e.correlation] else a.(body := [])
    requires Agrees(e.part, a.kind, a.message.stageId, a.message.deadlineNs, a.message.traceId)
    requires Agrees(e.part, w.kind, w.stageId, w.deadlineNs, w.traceId)
    requires |a.body| + |e.part.chunk| <= MC.MAX_BODY
    ensures HandlerOk(s.jobs[e.correlation := w], s.workers[e.correlation := Running(a.body + e.part.chunk)],
            s.log + [e], e.correlation)
  {
    hide Pending, Requested;
    Recorded(s.log, e, e.correlation);
    BodyAppend(Pending(s.log, e.correlation), e.part);
  }

  lemma RefuseAssembled(cfg: Config, s: State, c: u64, part: Part, stage: u32, trace: u64, status: u16)
    requires Assembled(s)
    ensures Assembled(Refuse(cfg, s, c, part, stage, trace, status))
  {
    hide AssemblyOk, HandlerOk, Reply;
    var s1 := Record(s, c, Refused(status), part).(
                assemblies := s.assemblies - {c},
                tally := s.tally.(immediate := s.tally.immediate + 1));
    ResetAssembled(s, Entry(c, Refused(status), part), s.jobs);
    ReplyFrame(cfg, s1, part.kind, c, stage, trace, status, []);
  }

  lemma AcceptAssembled(cfg: Config, s: State, c: u64, m: MC.Message, part: Part, more: bool, now: u64)
    requires Assembled(s) && m.stageId == StageOf(cfg, part.kind)
    requires Agrees(part, part.kind, m.stageId, m.deadlineNs, m.traceId)
    requires c in s.assemblies ==> Matches(s.assemblies[c], part.kind, m)
    ensures Assembled(Accept(cfg, s, c, m, part, more, now))
  {
    hide AssemblyOk, HandlerOk, Refuse, StageOf, MC.DeadlineExpired;
    var stage := StageOf(cfg, part.kind);
    RefuseAssembled(cfg, s, c, part, stage, m.traceId, MC.STATUS_INTERNAL);
    RefuseAssembled(cfg, s, c, part, stage, m.traceId, MC.STATUS_DEADLINE_EXCEEDED);
    RefuseAssembled(cfg, s, c, part, stage, m.traceId, MC.STATUS_CAPABILITY_ABSENT);
    var a := if c in s.assemblies then s.assemblies[c] else Assembly(part.kind, m, []);
    if |a.body| + |part.chunk| <= MC.MAX_BODY {
      AbsorbAssembled(s, Entry(c, Absorbed, part), a);
      LaunchAssembled(s, Entry(c, Launched, part), a, Work(part.kind, c, stage, m.deadlineNs, m.traceId, false));
    }
  }

  lemma RequestAssembled(cfg: Config, s: State, event: BC.Event, now: u64)
    requires Assembled(s)
    ensures Assembled(Request(cfg, s, event, now))
  {
    hide AssemblyOk, HandlerOk, Refuse, Accept, StageOf, MC.Decode, FC.Has;
    var kind, c := event.frame.eventKind, event.frame.correlationId;
    var d := MC.Decode(event.payload);
    var part := PartOf(kind, d, event.payload);
    var s1 := s.(tally := s.tally.(requests := s.tally.requests + 1));
    RefuseAssembled(cfg, s1, c, part, if StageOf(cfg, kind) == 0 then 1 else StageOf(cfg, kind), 0,
      MC.STATUS_INVALID_REQUEST);
    if !Invalid(cfg, s, kind, c, d) {
      DecodedPart(kind, event.payload);
      AcceptAssembled(cfg, s1, c, d.message, part, FC.Has(event.frame.hdrFlags, FC.F_MORE), now);
    }
  }

  lemma DecodedPart(kind: u32, payload: seq<byte>)
    requires MC.Decode(payload).Decoded?
    ensures var m := MC.Decode(payload).message;
      MC.Valid(m) && MC.HEADER_LEN + m.bodyLen <= |payload|
      && PartOf(kind, MC.Decode(payload), payload) ==
         Part(kind, m.stageId, m.deadlineNs, m.traceId, payload[MC.HEADER_LEN..MC.HEADER_LEN + m.bodyLen])
  {
    hide MC.Parse;
  }

  lemma CancelAssembled(s: State, c: u64)
    requires Assembled(s)
    ensures Assembled(Cancel(s, c))
  {
    hide AssemblyOk, HandlerOk;
    var jobs := if c in s.jobs then s.jobs[c := s.jobs[c].(cancelled := true)] else s.jobs;
    assert jobs.Keys == s.jobs.Keys;
    ResetAssembled(s, Entry(c, Dropped, Part(0, 0, 0, 0, [])), jobs);
  }

  lemma JobsAssembled(s: State, jobs: map<u64, Work>, workers: map<u64, Worker>)
    requires Assembled(s)
    requires forall c :: c in jobs ==> c in s.jobs && jobs[c] == s.jobs[c].(cancelled := jobs[c].cancelled)
    requires forall c :: c in workers ==> c in s.workers && (workers[c].Running? ==> workers[c] == s.workers[c])
    ensures Assembled(s.(jobs := jobs, workers := workers))
  {
    hide Pending, Requested, AllAgree, AssemblyOk;
    forall c: u64 ensures HandlerOk(jobs, workers, s.log, c) {
      assert HandlerOk(s.jobs, s.workers, s.log, c);
    }
  }

  lemma StepAssembled(cfg: Config, s: State, input: Input)
    requires Assembled(s)
    ensures Assembled(Step(cfg, s, input))
  {
    hide AssemblyOk, HandlerOk, Request, Cancel, Reply, Settle, FC.Validate, FC.Has;
    match input
    case PollEvent(event, now) =>
      CancelAssembled(s, event.frame.correlationId);
      RequestAssembled(cfg, s, event, now);
    case Select =>
      if s.done != [] {
        var r := s.done[0];
        var s1 := s.(done := s.done[1..], jobs := s.jobs - {r.correlation},
                     tally := s.tally.(finished := s.tally.finished + 1));
        JobsAssembled(s, s.jobs - {r.correlation}, s.workers);
        if r.correlation in s.jobs {
          var w := s.jobs[r.correlation];
          ReplyFrame(cfg, s1, w.kind, r.correlation, w.stageId, w.traceId, r.status, r.body);
        }
      }
    case ContextDone => JobsAssembled(s, CancelAll(s.jobs), s.workers);
    case HandlerReturns(c, response, status, clock) =>
      if c in s.workers && c in s.jobs {
        var (st, b) := Settle(s.jobs[c], response, status, clock);
        JobsAssembled(s, s.jobs, s.workers[c := Checked(st, b)]);
      }
    case HandlerSends(c) => JobsAssembled(s, s.jobs, s.workers - {c});
    case DrainReceives => if s.done != [] { JobsAssembled(s, s.jobs - {s.done[0].correlation}, s.workers); }
    case _ =>
  }

  lemma {:induction false} RunAssembled(cfg: Config, s: State, inputs: seq<Input>)
    requires Assembled(s)
    ensures Assembled(Run(cfg, s, inputs))
    decreases |inputs|
  {
    hide Step, Assembled;
    if inputs != [] {
      StepAssembled(cfg, s, inputs[0]);
      RunAssembled(cfg, Step(cfg, s, inputs[0]), inputs[1..]);
    }
  }

  /** In every run from the start, every running handler holds exactly the concatenation of the fragments of
      its request, and every assembly exactly its pending ones. */
  lemma BodiesAreConcatenations(cfg: Config, inputs: seq<Input>, c: u64)
    ensures var s := Run(cfg, Start(), inputs);
      && (c in s.assemblies ==> s.assemblies[c].body == Body(Pending(s.log, c)))
      && (c in s.workers && s.workers[c].Running? ==> s.workers[c].body == Body(Requested(s.log, c)))
      && (c in s.assemblies ==> c !in s.jobs)
  {
    StartOk();
    RunAssembled(cfg, Start(), inputs);
    RunTables(cfg, Start(), inputs);
    hide Pending, Requested, Body, Run, Start;
    var s := Run(cfg, Start(), inputs);
    assert AssemblyOk(s.assemblies, s.log, c) && HandlerOk(s.jobs, s.workers, s.log, c);
  }

  lemma StartOk()
    ensures Assembled(Start()) && Tables(Start())
  {
    assert DoneKeys([]) == {};
  }

  // ---------------------------------------------------------- outbound trains

  /** A whole reply: one kind and correlation throughout, FMore on all fragments but the last, each within
      the budget and readable as a result header of one status, and no body unless the status is OK. */
  ghost predicate CompleteTrain(cfg: Config, t: seq<Fragment>) {
    && t != []
    && (forall i :: 0 <= i < |t| ==>
          t[i].kind == t[0].kind && t[i].correlation == t[0].correlation && (t[i].more <==> i + 1 < |t|)
          && ResultFragment(cfg, t[i], MC.Decode(t[0].payload)))
    && (MC.Decode(t[0].payload).message.status != MC.STATUS_OK ==> |t| == 1 && |t[0].payload| == MC.HEADER_LEN)
  }

  ghost predicate ResultFragment(cfg: Config, f: Fragment, first: MC.Decoded) {
    && |f.payload| <= cfg.budget && first.Decoded?
    && var d := MC.Decode(f.payload);
       d.Decoded? && d.message.operation == MC.OP_RESULT && d.message.status == first.message.status
       && MC.HEADER_LEN + d.message.bodyLen == |f.payload|
  }

  lemma ReplyTrainComplete(cfg: Config, kind: u32, c: u64, stage: u32, trace: u64, status: u16, body: seq<byte>)
    requires cfg.budget > MC.HEADER_LEN && stage != 0
    ensures CompleteTrain(cfg, ReplyTrain(cfg, kind, c, stage, trace, status, body))
  {
    hide MC.Decode, MC.Bytes;
    var (st, b) := Normal(status, body);
    var chunk := cfg.budget - MC.HEADER_LEN;
    var m := ResultHeader(st, stage, trace);
    var t, parts := ReplyTrain(cfg, kind, c, stage, trace, status, body), Chunks(b, chunk);
    ChunkShape(b, chunk);
    TrainShape(kind, c, m, b, chunk);
    forall i | 0 <= i < |t| ensures ResultFragment(cfg, t[i], MC.Decode(t[0].payload)) {
      FragmentReads(kind, c, m, parts[0], 0 + 1 < |parts|);
      FragmentReads(kind, c, m, parts[i], i + 1 < |parts|);
    }
    FragmentReads(kind, c, m, parts[0], 0 + 1 < |parts|);
  }

  /** Everything the bus accepted, followed by what is still to be sent, is the replies begun, one whole
      train after another: fragments of different replies never interleave. */
  ghost predicate TrainsOk(cfg: Config, s: State) {
    && Flatten(s.trains) == s.out + s.rest
    && (s.mode.Sending? ==> s.rest != []) && (s.mode.AtSelect? || s.mode.AtPoll? || s.mode.Draining? ==> s.rest == [])
    && (forall t :: t in s.trains ==> CompleteTrain(cfg, t))
    && (s.rest != [] ==> s.trains != [] && |s.rest| <= |s.trains[|s.trains| - 1]|
                         && s.rest == s.trains[|s.trains| - 1][|s.trains[|s.trains| - 1]| - |s.rest|..])
  }

  lemma ReplyTrains(cfg: Config, s: State, kind: u32, c: u64, stage: u32, trace: u64, status: u16, body: seq<byte>)
    requires TrainsOk(cfg, s) && s.rest == [] && cfg.budget > MC.HEADER_LEN && stage != 0
    ensures TrainsOk(cfg, Reply(cfg, s, kind, c, stage, trace, status, body))
  {
    hide CompleteTrain, ReplyTrain, Flatten;
    ReplyTrainComplete(cfg, kind, c, stage, trace, status, body);
    var train := ReplyTrain(cfg, kind, c, stage, trace, status, body);
    TrainNotEmpty(cfg, train);
    OneMoreTrain(s.trains, train);
    assert s.out + [] == s.out;
  }

  lemma OneMoreTrain(trains: seq<seq<Fragment>>, train: seq<Fragment>)
    ensures Flatten(trains + [train]) == Flatten(trains) + train
  {
    assert (trains + [train])[..|trains|] == trains;
  }

  lemma TrainNotEmpty(cfg: Config, t: seq<Fragment>)
    requires CompleteTrain(cfg, t)
    ensures t != []
  {}

  /** Changes on the inbound side leave the outbound side alone. */
  lemma SameTrains(cfg: Config, s: State, s': State)
    requires TrainsOk(cfg, s) && s'.trains == s.trains && s'.out == s.out && s'.rest == s.rest == []
    requires !s'.mode.Sending?
    ensures TrainsOk(cfg, s')
  {
    hide CompleteTrain, Flatten;
  }

  lemma RefuseTrains(cfg: Config, s: State, c: u64, part: Part, stage: u32, trace: u64, status: u16)
    requires TrainsOk(cfg, s) && s.mode.AtPoll? && cfg.budget > MC.HEADER_LEN && stage != 0
    ensures TrainsOk(cfg, Refuse(cfg, s, c, part, stage, trace, status))
  {
    hide Reply, CompleteTrain, Flatten;
    var s1 := Record(s, c, Refused(status), part).(
                assemblies := s.assemblies - {c},
                tally := s.tally.(immediate := s.tally.immediate + 1));
    SameTrains(cfg, s, s1);
    ReplyTrains(cfg, s1, part.kind, c, stage, trace, status, []);
  }

  lemma RequestTrains(cfg: Config, s: State, event: BC.Event, now: u64)
    requires TrainsOk(cfg, s) && s.mode.AtPoll? && cfg.budget > MC.HEADER_LEN
    ensures TrainsOk(cfg, Request(cfg, s, event, now))
  {
    hide Refuse, TrainsOk, StageOf, MC.Decode, FC.Has, PartOf;
    var kind, c := event.frame.eventKind, event.frame.correlationId;
    var d := MC.Decode(event.payload);
    var part := PartOf(kind, d, event.payload);
    PartKind(kind, d, event.payload);
    var s1 := s.(tally := s.tally.(requests := s.tally.requests + 1));
    PollTrains(cfg, s, s1);
    var stage := StageOf(cfg, kind);
    if Invalid(cfg, s, kind, c, d) {
      RefuseTrains(cfg, s1, c, part, if stage == 0 then 1 else stage, 0, MC.STATUS_INVALID_REQUEST);
    } else {
      AcceptTrains(cfg, s1, c, d.message, part, FC.Has(event.frame.hdrFlags, FC.F_MORE), now);
    }
  }

  /** A change at the poll that keeps the outbound side and ends at the poll or the select. */
  lemma PollTrains(cfg: Config, s: State, s': State)
    requires TrainsOk(cfg, s) && s.mode.AtPoll? && s'.trains == s.trains && s'.out == s.out && s'.rest == s.rest
    requires !s'.mode.Sending?
    ensures TrainsOk(cfg, s')
  {
    SameTrains(cfg, s, s');
  }

  lemma AcceptTrains(cfg: Config, s: State, c: u64, m: MC.Message, part: Part, more: bool, now: u64)
    requires TrainsOk(cfg, s) && s.mode.AtPoll? && cfg.budget > MC.HEADER_LEN && StageOf(cfg, part.kind) != 0
    ensures TrainsOk(cfg, Accept(cfg, s, c, m, part, more, now))
  {
    hide Refuse, TrainsOk, StageOf, MC.DeadlineExpired;
    var stage := StageOf(cfg, part.kind);
    RefuseTrains(cfg, s, c, part, stage, m.traceId, MC.STATUS_INTERNAL);
    RefuseTrains(cfg, s, c, part, stage, m.traceId, MC.STATUS_DEADLINE_EXCEEDED);
    RefuseTrains(cfg, s, c, part, stage, m.traceId, MC.STATUS_CAPABILITY_ABSENT);
    var s' := Accept(cfg, s, c, m, part, more, now);
    if s'.mode.AtSelect? && s'.trains == s.trains && s'.out == s.out && s'.rest == s.rest { PollTrains(cfg, s, s'); }
  }

  lemma FinishTrains(cfg: Config, s: State)
    requires Tables(s) && TrainsOk(cfg, s) && s.mode.AtSelect? && s.done != [] && cfg.budget > MC.HEADER_LEN
    ensures TrainsOk(cfg, Finish(cfg, s))
  {
    hide Reply, TrainsOk, DoneKeys, Distinct;
    TakeDone(s);
    var r := s.done[0];
    var w := s.jobs[r.correlation];
    var s1 := s.(done := s.done[1..], jobs := s.jobs - {r.correlation},
                 tally := s.tally.(finished := s.tally.finished + 1));
    NothingUnsent(cfg, s);
    SameTrains(cfg, s, s1);
    ReplyTrains(cfg, s1, w.kind, r.correlation, w.stageId, w.traceId, r.status, r.body);
  }

  lemma NothingUnsent(cfg: Config, s: State)
    requires TrainsOk(cfg, s) && (s.mode.AtSelect? || s.mode.AtPoll? || s.mode.Draining?)
    ensures s.rest == []
  {}

  lemma SendTrains(cfg: Config, s: State)
    requires TrainsOk(cfg, s)
    ensures TrainsOk(cfg, Step(cfg, s, SendAccepted))
  {
    hide CompleteTrain, Flatten;
    if s.mode.Sending? {
      assert s.out + s.rest == (s.out + [s.rest[0]]) + s.rest[1..];
    }
  }

  /** The same outbound side in a mode that allows it. */
  lemma OtherTrains(cfg: Config, s: State, s': State)
    requires TrainsOk(cfg, s) && s'.trains == s.trains && s'.out == s.out && s'.rest == s.rest
    requires s'.mode == s.mode || s'.mode.Exited? || (s.rest == [] && !s'.mode.Sending?)
    ensures TrainsOk(cfg, s')
  {
    hide CompleteTrain, Flatten;
  }

  lemma EventTrains(cfg: Config, s: State, event: BC.Event, now: u64)
    requires TrainsOk(cfg, s) && s.mode.AtPoll? && cfg.budget > MC.HEADER_LEN
    ensures TrainsOk(cfg, HandleEvent(cfg, s, event, now))
  {
    hide Request, FC.Has, TrainsOk;
    NothingUnsent(cfg, s);
    RequestTrains(cfg, s, event, now);
    OtherTrains(cfg, s, Cancel(s, event.frame.correlationId));
    OtherTrains(cfg, s, s.(mode := AtSelect));
  }

  lemma StepTrains(cfg: Config, s: State, input: Input)
    requires Tables(s) && TrainsOk(cfg, s) && cfg.budget > MC.HEADER_LEN
    ensures TrainsOk(cfg, Step(cfg, s, input))
  {
    hide HandleEvent, Finish, Settle, FC.Validate, CancelAll, TrainsOk, Tables;
    var s' := Step(cfg, s, input);
    if s.mode.AtPoll? || s.mode.AtSelect? || s.mode.Draining? { NothingUnsent(cfg, s); }
    match input
    case PollEvent(event, now) => if s.mode.AtPoll? { EventTrains(cfg, s, event, now); }
    case Select =>
      if s.mode.AtSelect? && s.done != [] { FinishTrains(cfg, s); } else { OtherTrains(cfg, s, s'); }
    case SendAccepted => SendTrains(cfg, s);
    case _ => OtherTrains(cfg, s, s');
  }

  lemma {:induction false} RunTrains(cfg: Config, s: State, inputs: seq<Input>)
    requires Tables(s) && TrainsOk(cfg, s) && cfg.budget > MC.HEADER_LEN
    ensures TrainsOk(cfg, Run(cfg, s, inputs))
    decreases |inputs|
  {
    hide Step, Tables, TrainsOk;
    if inputs != [] {
      StepTables(cfg, s, inputs[0]);
      StepTrains(cfg, s, inputs[0]);
      RunTrains(cfg, Step(cfg, s, inputs[0]), inputs[1..]);
    }
  }

  // ------------------------------------------------------------- conservation

  /** Every request fragment was absorbed, answered at once or launched a job; every job launched was
      answered, drained at shutdown or is still there; every answer began exactly one reply. */
  ghost predicate Balanced(s: State) { BalancedBut(s, 0) }

  /** `Balanced`, with `open` requests counted but not yet classified. */
  ghost predicate BalancedBut(s: State, open: nat) {
    && s.tally.requests == s.tally.absorbed + s.tally.immediate + s.tally.launched + open
    && s.tally.launched == s.tally.finished + s.tally.drained + |s.jobs|
    && |s.trains| == s.tally.immediate + s.tally.finished
  }

  lemma ReplyBegins(cfg: Config, s: State, kind: u32, c: u64, stage: u32, trace: u64, status: u16, body: seq<byte>)
    requires cfg.budget > MC.HEADER_LEN && stage != 0
    ensures var s' := Reply(cfg, s, kind, c, stage, trace, status, body);
      |s'.trains| == |s.trains| + 1 && s'.tally == s.tally && s'.jobs == s.jobs
  {
    hide ReplyTrain;
  }

  lemma RefuseBalanced(cfg: Config, s: State, c: u64, part: Part, stage: u32, trace: u64, status: u16)
    requires BalancedBut(s, 1) && cfg.budget > MC.HEADER_LEN && stage != 0
    ensures Balanced(Refuse(cfg, s, c, part, stage, trace, status))
  {
    hide Reply;
    var s1 := Record(s, c, Refused(status), part).(
                assemblies := s.assemblies - {c},
                tally := s.tally.(immediate := s.tally.immediate + 1));
    ReplyBegins(cfg, s1, part.kind, c, stage, trace, status, []);
  }

  lemma AcceptBalanced(cfg: Config, s: State, c: u64, m: MC.Message, part: Part, more: bool, now: u64)
    requires BalancedBut(s, 1) && c !in s.jobs && cfg.budget > MC.HEADER_LEN && StageOf(cfg, part.kind) != 0
    ensures Balanced(Accept(cfg, s, c, m, part, more, now))
  {
    hide Refuse, StageOf, MC.DeadlineExpired;
    var stage := StageOf(cfg, part.kind);
    RefuseBalanced(cfg, s, c, part, stage, m.traceId, MC.STATUS_INTERNAL);
    RefuseBalanced(cfg, s, c, part, stage, m.traceId, MC.STATUS_DEADLINE_EXCEEDED);
    RefuseBalanced(cfg, s, c, part, stage, m.traceId, MC.STATUS_CAPABILITY_ABSENT);
    MapSizes(s.jobs, c, Work(part.kind, c, stage, m.deadlineNs, m.traceId, false));
  }

  lemma RequestBalanced(cfg: Config, s: State, event: BC.Event, now: u64)
    requires Balanced(s) && cfg.budget > MC.HEADER_LEN
    ensures Balanced(Request(cfg, s, event, now))
  {
    hide Refuse, Accept, StageOf, MC.Decode, FC.Has, PartOf;
    var kind, c := event.frame.eventKind, event.frame.correlationId;
    var d := MC.Decode(event.payload);
    var part := PartOf(kind, d, event.payload);
    PartKind(kind, d, event.payload);
    var s1 := s.(tally := s.tally.(requests := s.tally.requests + 1));
    var stage := StageOf(cfg, kind);
    if Invalid(cfg, s, kind, c, d) {
      RefuseBalanced(cfg, s1, c, part, if stage == 0 then 1 else stage, 0, MC.STATUS_INVALID_REQUEST);
    } else {
      AcceptBalanced(cfg, s1, c, d.message, part, FC.Has(event.frame.hdrFlags, FC.F_MORE), now);
    }
  }

  lemma CancelBalanced(s: State, c: u64)
    requires Balanced(s)
    ensures Balanced(Cancel(s, c))
  {
    if c in s.jobs { MapSizes(s.jobs, c, s.jobs[c].(cancelled := true)); }
  }

  lemma FinishBalanced(cfg: Config, s: State)
    requires Tables(s) && Balanced(s) && s.done != [] && cfg.budget > MC.HEADER_LEN
    ensures Balanced(Finish(cfg, s))
  {
    hide Reply, DoneKeys, Distinct;
    TakeDone(s);
    var r := s.done[0];
    var w := s.jobs[r.correlation];
    MapSizes(s.jobs, r.correlation, w);
    var s1 := s.(done := s.done[1..], jobs := s.jobs - {r.correlation},
                 tally := s.tally.(finished := s.tally.finished + 1));
    ReplyBegins(cfg, s1, w.kind, r.correlation, w.stageId, w.traceId, r.status, r.body);
  }

  lemma SameBalanced(s: State, s': State)
    requires Balanced(s) && s'.tally == s.tally && s'.trains == s.trains && s'.jobs.Keys == s.jobs.Keys
    ensures Balanced(s')
  {
    assert |s'.jobs| == |s'.jobs.Keys| == |s.jobs|;
  }

  lemma DrainBalanced(cfg: Config, s: State)
    requires Tables(s) && Balanced(s)
    ensures Balanced(Step(cfg, s, DrainReceives))
  {
    hide DoneKeys, Distinct, TablesOk;
    if s.done != [] {
      TakeDone(s);
      MapSizes(s.jobs, s.done[0].correlation, s.jobs[s.done[0].correlation]);
    }
  }

  lemma EventBalanced(cfg: Config, s: State, event: BC.Event, now: u64)
    requires Balanced(s) && cfg.budget > MC.HEADER_LEN
    ensures Balanced(HandleEvent(cfg, s, event, now))
  {
    hide Request, Cancel, FC.Has, Balanced;
    RequestBalanced(cfg, s, event, now);
    CancelBalanced(s, event.frame.correlationId);
    SameBalanced(s, s.(mode := AtSelect));
  }

  lemma StepBalanced(cfg: Config, s: State, input: Input)
    requires Tables(s) && Balanced(s) && cfg.budget > MC.HEADER_LEN
    ensures Balanced(Step(cfg, s, input))
  {
    hide HandleEvent, Finish, Settle, FC.Validate, Tables, Balanced;
    var s' := Step(cfg, s, input);
    match input
    case PollEvent(event, now) => EventBalanced(cfg, s, event, now);
    case ContextDone =>
      assert CancelAll(s.jobs).Keys == s.jobs.Keys;
      SameBalanced(s, s');
    case Select => if s.done != [] { FinishBalanced(cfg, s); } else { SameBalanced(s, s'); }
    case DrainReceives => DrainBalanced(cfg, s);
    case _ => SameBalanced(s, s');
  }

  lemma {:induction false} RunBalanced(cfg: Config, s: State, inputs: seq<Input>)
    requires Tables(s) && Balanced(s) && cfg.budget > MC.HEADER_LEN
    ensures Balanced(Run(cfg, s, inputs))
    decreases |inputs|
  {
    hide Step, Tables, Balanced;
    if inputs != [] {
      StepTables(cfg, s, inputs[0]);
      StepBalanced(cfg, s, inputs[0]);
      RunBalanced(cfg, Step(cfg, s, inputs[0]), inputs[1..]);
    }
  }

  // ------------------------------------------------------------------ shutdown

  /** How many results the shutdown loop takes from `done` during a run. */
  function Receives(cfg: Config, s: State, inputs: seq<Input>): nat
    decreases |inputs|
  {
    if inputs == [] then 0
    else (if inputs[0].DrainReceives? && s.mode.Draining? && s.done != [] then 1 else 0)
         + Receives(cfg, Step(cfg, s, inputs[0]), inputs[1..])
  }

  /** The shutdown loop has work, and every job in it has been told to stop. */
  ghost predicate DrainOk(s: State) {
    s.mode.Draining? && s.jobs != map[] && forall c :: c in s.jobs ==> s.jobs[c].cancelled
  }

  /** Context cancellation either exits at once, without jobs, or drains all of them, all cancelled. */
  lemma ShutdownBegins(cfg: Config, s: State)
    requires s.mode.AtPoll?
    ensures var s' := Step(cfg, s, ContextDone);
      s'.jobs.Keys == s.jobs.Keys && (if s.jobs == map[] then s'.mode.Exited? else DrainOk(s') && Shutdown(s'))
  {
    if s.jobs != map[] {
      var c :| c in s.jobs;
      assert c in CancelAll(s.jobs);
      JobsLeft(Step(cfg, s, ContextDone));
    }
  }

  /** The loop is never stuck: a result waits in `done`, or a handler is still due to send one, and its
      send finds room. */
  lemma DrainProgress(s: State)
    requires Tables(s) && DrainOk(s)
    ensures s.done != [] || exists c :: c in s.workers && DoneHasRoom(s)
  {
    var c :| c in s.jobs;
    if s.done == [] {
      assert DoneKeys(s.done) == {};
      SendNeverBlocks(s, c);
    }
  }

  /** Either the loop is still draining, or it has ended with no job, no handler and an empty channel. */
  ghost predicate Shutdown(s: State) {
    if s.mode.Exited? then s.jobs == map[] && s.workers == map[] && s.done == []
    else DrainOk(s) && |s.jobs| > 0
  }

  /** From `s` to `s'` the loop took `n` results, ending one job each, and sent nothing. */
  ghost predicate Took(s: State, s': State, n: nat) {
    |s'.jobs| + n == |s.jobs| && s'.out == s.out
  }

  lemma DrainOne(cfg: Config, s: State)
    requires Tables(s) && DrainOk(s) && s.done != []
    ensures var s' := Step(cfg, s, DrainReceives); Shutdown(s') && Took(s, s', 1)
  {
    hide TablesOk;
    StepTables(cfg, s, DrainReceives);
    TakeDone(s);
    MapSizes(s.jobs, s.done[0].correlation, s.jobs[s.done[0].correlation]);
    var s' := Step(cfg, s, DrainReceives);
    if s'.jobs == map[] { NothingLeft(s'); } else { JobsLeft(s'); }
  }

  lemma JobsLeft(s: State)
    requires s.jobs != map[]
    ensures |s.jobs| > 0
  {
    assert |s.jobs| == |s.jobs.Keys|;
    assert s.jobs.Keys != {};
  }

  lemma NothingLeft(s: State)
    requires Tables(s) && s.jobs == map[]
    ensures s.workers == map[] && s.done == []
  {
    assert DoneKeys(s.done) == {} && s.workers.Keys == {};
    DoneKeysCount(s.done);
  }

  lemma ShutdownStep(cfg: Config, s: State, input: Input)
    requires Tables(s) && Shutdown(s)
    ensures var s' := Step(cfg, s, input);
      Shutdown(s') && Took(s, s', if input.DrainReceives? && s.mode.Draining? && s.done != [] then 1 else 0)
  {
    hide Settle, HandleEvent, Finish, TablesOk;
    if input.DrainReceives? && s.mode.Draining? && s.done != [] { DrainOne(cfg, s); }
  }

  /** The shutdown loop ends after exactly as many receives as there were jobs; then no handler is left,
      nothing is left in the channel, and no further fragment was sent. */
  lemma {:induction false} DrainCounts(cfg: Config, s: State, inputs: seq<Input>)
    requires Tables(s) && Shutdown(s)
    ensures var s' := Run(cfg, s, inputs);
      Shutdown(s') && Took(s, s', Receives(cfg, s, inputs))
    ensures Run(cfg, s, inputs).mode.Exited? <==> Receives(cfg, s, inputs) == |s.jobs|
    decreases |inputs|
  {
    hide Step, DrainOk, TablesOk;
    if inputs != [] {
      StepTables(cfg, s, inputs[0]);
      ShutdownStep(cfg, s, inputs[0]);
      DrainCounts(cfg, Step(cfg, s, inputs[0]), inputs[1..]);
    }
  }

  // -------------------------------------------------------------- from the start

  lemma StartIsFine(cfg: Config)
    ensures Tables(Start()) && Assembled(Start()) && TrainsOk(cfg, Start()) && Balanced(Start())
  {
    StartOk();
  }

  /** Every state a runtime reaches from its start satisfies all of it. */
  lemma FromStart(cfg: Config, inputs: seq<Input>)
    requires cfg.budget > MC.HEADER_LEN
    ensures var s := Run(cfg, Start(), inputs);
      Tables(s) && Assembled(s) && TrainsOk(cfg, s) && Balanced(s)
  {
    hide Tables, Assembled, TrainsOk, Balanced, Run, Start;
    StartIsFine(cfg);
    RunTables(cfg, Start(), inputs);
    RunAssembled(cfg, Start(), inputs);
    RunTrains(cfg, Start(), inputs);
    RunBalanced(cfg, Start(), inputs);
  }
}
