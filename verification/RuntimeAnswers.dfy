/** What the serving loop (server-go/bus/module_runtime.go) answers to a request fragment, in the numbers on the wire:
    which are launched, which only added to their assembly, and what each refusal says. */
module RuntimeAnswers {
  import opened Words
  import FC = FrameCodec
  import MC = ModuleCodec
  import BC = BusClient
  import opened Fragments
  import opened Runtime

  /** The one reply begun: a single empty fragment that decodes to this status, stage and trace. */
  ghost predicate Refuses(s: State, s': State, kind: u32, c: u64, status: u16, stage: u32, trace: u64) {
    && s'.mode.Sending? && |s'.rest| == 1 && s'.trains == s.trains + [s'.rest] && s'.out == s.out
    && s'.jobs == s.jobs && s'.workers == s.workers && s'.done == s.done
    && s'.assemblies == s.assemblies - {c}
    && var f := s'.rest[0];
       f.kind == kind && f.correlation == c && !f.more && |f.payload| == 40
       && MC.Decode(f.payload) == MC.Decoded(MC.Message(2, status, stage, 0, 0, 0, trace))
  }

  lemma RefusalReads(cfg: Config, s: State, c: u64, part: Part, stage: u32, trace: u64, status: u16)
    requires cfg.budget > 40 && stage != 0 && 0 < status <= 5
    ensures Refuses(s, Refuse(cfg, s, c, part, stage, trace, status), part.kind, c, status, stage, trace)
  {
    hide MC.Bytes, MC.Decode;
    FragmentReads(part.kind, c, ResultHeader(status, stage, trace), [], false);
  }

  // ------------------------------------------------------------------ what is asked

  /** The event is a request fragment: valid, with the request bit (3) and not the cancel bit (5). */
  ghost predicate IsRequest(s: State, e: BC.Event) {
    s.mode.AtPoll? && FC.Validate(e.frame) == FC.OK && e.frame.hdrFlags / 8 % 2 == 1 && e.frame.hdrFlags / 32 % 2 == 0
  }

  /** The stage configured for the kind of an event; 0 without one. */
  function Stage(cfg: Config, e: BC.Event): u32 {
    if e.frame.eventKind in cfg.stages then cfg.stages[e.frame.eventKind] else 0
  }

  /** An invocation `m` of the stage configured for its kind, not of a running correlation, and in agreement with what
      is already assembled under it. */
  ghost predicate Sound(cfg: Config, s: State, e: BC.Event, m: MC.Message) {
    var c := e.frame.correlationId;
    && Stage(cfg, e) != 0 && MC.Decode(e.payload) == MC.Decoded(m) && m.operation == 1 && m.stageId == Stage(cfg, e)
    && c !in s.jobs
    && (c in s.assemblies ==>
          var a := s.assemblies[c];
          a.kind == e.frame.eventKind && a.message.stageId == m.stageId && a.message.deadlineNs == m.deadlineNs
          && a.message.traceId == m.traceId)
  }

  /** The bytes the fragment adds, and those assembled before. */
  function Chunk(e: BC.Event, m: MC.Message): seq<byte> {
    if 40 + m.bodyLen <= |e.payload| then e.payload[40..40 + m.bodyLen] else []
  }

  function Before(s: State, c: u64): seq<byte> { if c in s.assemblies then s.assemblies[c].body else [] }

  /** There is an assembly for it or room for one, and the body stays within 16 MiB. */
  ghost predicate FitsIn(s: State, e: BC.Event, m: MC.Message) {
    var c := e.frame.correlationId;
    (c in s.assemblies || |s.assemblies| < 16) && |Before(s, c)| + m.bodyLen <= 16_777_216
  }

  /** Bit 7 of the flags announces another fragment. */
  predicate More(e: BC.Event) { e.frame.hdrFlags / 128 % 2 == 1 }

  lemma FlagTests(h: u16)
    ensures FC.Has(h, FC.F_REQUEST) <==> h / 8 % 2 == 1
    ensures FC.Has(h, FC.F_CANCEL) <==> h / 32 % 2 == 1
    ensures FC.Has(h, FC.F_MORE) <==> h / 128 % 2 == 1
  {
    FC.FlagBits(h);
    assert Pow2(7) == 128;
    FC.FlagBit(h, 7);
  }

  lemma DecodedFits(b: seq<byte>)
    ensures MC.Decode(b).Decoded? ==>
              40 + MC.Decode(b).message.bodyLen <= |b| && MC.Decode(b).message.bodyLen <= 16_777_216
  {}

  /** The step that takes a sound request fragment, from the assembly table on. */
  lemma SoundIsAccepted(cfg: Config, s: State, e: BC.Event, now: u64, m: MC.Message)
    requires IsRequest(s, e) && Sound(cfg, s, e, m)
    ensures Step(cfg, s, PollEvent(e, now)) ==
            Accept(cfg, s.(tally := s.tally.(requests := s.tally.requests + 1)), e.frame.correlationId, m,
                   Part(e.frame.eventKind, m.stageId, m.deadlineNs, m.traceId, Chunk(e, m)), More(e), now)
    ensures |Chunk(e, m)| == m.bodyLen
  {
    hide MC.Decode, FC.Has, FC.Validate, Accept;
    FlagTests(e.frame.hdrFlags);
    DecodedFits(e.payload);
  }

  // --------------------------------------------------------------------- refusals

  /** A request fragment that is not sound is answered INVALID_REQUEST (4), under its stage, or 1 if it has none. */
  lemma UnsoundIsInvalid(cfg: Config, s: State, e: BC.Event, now: u64)
    requires cfg.budget > 40 && IsRequest(s, e) && (forall m :: !Sound(cfg, s, e, m))
    ensures Refuses(s, Step(cfg, s, PollEvent(e, now)), e.frame.eventKind, e.frame.correlationId, 4,
                    if Stage(cfg, e) == 0 then 1 else Stage(cfg, e), 0)
  {
    hide MC.Decode, FC.Has, FC.Validate, Refuse, Accept;
    FlagTests(e.frame.hdrFlags);
    var kind, c, d := e.frame.eventKind, e.frame.correlationId, MC.Decode(e.payload);
    if d.Decoded? { assert !Sound(cfg, s, e, d.message); }
    assert Invalid(cfg, s, kind, c, d);
    var s1 := s.(tally := s.tally.(requests := s.tally.requests + 1));
    var part := PartOf(kind, d, e.payload);
    RefusalReads(cfg, s1, c, part, if Stage(cfg, e) == 0 then 1 else Stage(cfg, e), 0, 4);
  }

  /** A sound fragment without room for its assembly or its bytes is answered INTERNAL (5). */
  lemma NoRoomIsInternal(cfg: Config, s: State, e: BC.Event, now: u64, m: MC.Message)
    requires cfg.budget > 40 && IsRequest(s, e) && Sound(cfg, s, e, m) && !FitsIn(s, e, m)
    ensures Refuses(s, Step(cfg, s, PollEvent(e, now)), e.frame.eventKind, e.frame.correlationId, 5, m.stageId,
                    m.traceId)
  {
    hide MC.Decode, FC.Validate, Refuse, Step;
    SoundIsAccepted(cfg, s, e, now, m);
    RefusalOf(cfg, s, e, m, 5);
  }

  /** The refusal of a sound fragment. */
  lemma RefusalOf(cfg: Config, s: State, e: BC.Event, m: MC.Message, status: u16)
    requires cfg.budget > 40 && Sound(cfg, s, e, m) && 0 < status <= 5
    ensures var s1 := s.(tally := s.tally.(requests := s.tally.requests + 1));
      var part := Part(e.frame.eventKind, m.stageId, m.deadlineNs, m.traceId, Chunk(e, m));
      Refuses(s, Refuse(cfg, s1, e.frame.correlationId, part, m.stageId, m.traceId, status),
              e.frame.eventKind, e.frame.correlationId, status, m.stageId, m.traceId)
      && StageOf(cfg, part.kind) == m.stageId
  {
    hide MC.Decode, FC.Validate, Refuse;
    RefusalReads(cfg, s.(tally := s.tally.(requests := s.tally.requests + 1)), e.frame.correlationId,
                 Part(e.frame.eventKind, m.stageId, m.deadlineNs, m.traceId, Chunk(e, m)), m.stageId, m.traceId,
                 status);
  }

  /** A fragment that announces another one is added to its assembly, and nothing is answered. */
  lemma MoreIsAbsorbed(cfg: Config, s: State, e: BC.Event, now: u64, m: MC.Message)
    requires IsRequest(s, e) && Sound(cfg, s, e, m) && FitsIn(s, e, m) && More(e)
    ensures var s', c := Step(cfg, s, PollEvent(e, now)), e.frame.correlationId;
      && s'.mode.AtSelect? && s'.trains == s.trains && s'.rest == s.rest && s'.out == s.out
      && s'.jobs == s.jobs && s'.workers == s.workers && s'.done == s.done
      && s'.assemblies == s.assemblies[c := if c in s.assemblies
                                             then s.assemblies[c].(body := s.assemblies[c].body + Chunk(e, m))
                                             else Assembly(e.frame.eventKind, m, Chunk(e, m))]
  {
    hide MC.Decode, FC.Validate, Refuse, Step;
    SoundIsAccepted(cfg, s, e, now, m);
    assert [] + Chunk(e, m) == Chunk(e, m);
  }

  /** The last fragment of a request whose deadline has passed is answered DEADLINE_EXCEEDED (3); no job begins. */
  lemma ExpiredIsRefused(cfg: Config, s: State, e: BC.Event, now: u64, m: MC.Message)
    requires cfg.budget > 40 && IsRequest(s, e) && Sound(cfg, s, e, m) && FitsIn(s, e, m) && !More(e)
    requires m.deadlineNs != 0 && now >= m.deadlineNs
    ensures Refuses(s, Step(cfg, s, PollEvent(e, now)), e.frame.eventKind, e.frame.correlationId, 3, m.stageId,
                    m.traceId)
  {
    hide MC.Decode, FC.Validate, Refuse, Step;
    SoundIsAccepted(cfg, s, e, now, m);
    RefusalOf(cfg, s, e, m, 3);
  }

  /** One in time without a handler is answered CAPABILITY_ABSENT (1). */
  lemma NoHandlerIsAbsent(cfg: Config, s: State, e: BC.Event, now: u64, m: MC.Message)
    requires cfg.budget > 40 && IsRequest(s, e) && Sound(cfg, s, e, m) && FitsIn(s, e, m) && !More(e)
    requires (m.deadlineNs == 0 || now < m.deadlineNs) && !cfg.hasHandler
    ensures Refuses(s, Step(cfg, s, PollEvent(e, now)), e.frame.eventKind, e.frame.correlationId, 1, m.stageId,
                    m.traceId)
  {
    hide MC.Decode, FC.Validate, Refuse, Step;
    SoundIsAccepted(cfg, s, e, now, m);
    RefusalOf(cfg, s, e, m, 1);
  }

  /** One in time that finds 16 jobs is answered INTERNAL (5). */
  lemma FullIsInternal(cfg: Config, s: State, e: BC.Event, now: u64, m: MC.Message)
    requires cfg.budget > 40 && IsRequest(s, e) && Sound(cfg, s, e, m) && FitsIn(s, e, m) && !More(e)
    requires (m.deadlineNs == 0 || now < m.deadlineNs) && cfg.hasHandler && |s.jobs| >= 16
    ensures Refuses(s, Step(cfg, s, PollEvent(e, now)), e.frame.eventKind, e.frame.correlationId, 5, m.stageId,
                    m.traceId)
  {
    hide MC.Decode, FC.Validate, Refuse, Step;
    SoundIsAccepted(cfg, s, e, now, m);
    RefusalOf(cfg, s, e, m, 5);
  }

  /** One in time, with a handler and room, is launched on the whole body, and nothing is answered yet. */
  lemma LiveIsLaunched(cfg: Config, s: State, e: BC.Event, now: u64, m: MC.Message)
    requires IsRequest(s, e) && Sound(cfg, s, e, m) && FitsIn(s, e, m) && !More(e)
    requires (m.deadlineNs == 0 || now < m.deadlineNs) && cfg.hasHandler && |s.jobs| < 16
    ensures var s', c := Step(cfg, s, PollEvent(e, now)), e.frame.correlationId;
      && s'.mode.AtSelect? && s'.trains == s.trains && s'.rest == s.rest && s'.out == s.out && s'.done == s.done
      && s'.assemblies == s.assemblies - {c}
      && s'.jobs == s.jobs[c := Work(e.frame.eventKind, c, m.stageId, m.deadlineNs, m.traceId, false)]
      && s'.workers == s.workers[c := Running(Before(s, c) + Chunk(e, m))]
  {
    hide MC.Decode, FC.Validate, Refuse, Step;
    SoundIsAccepted(cfg, s, e, now, m);
  }

  // ------------------------------------------------------------------ other events

  /** A cancellation (bit 5) marks the running job and drops the assembly of its correlation; nothing is answered. */
  lemma CancelMarks(cfg: Config, s: State, e: BC.Event, now: u64)
    requires s.mode.AtPoll? && FC.Validate(e.frame) == FC.OK && e.frame.hdrFlags / 32 % 2 == 1
    ensures var s', c := Step(cfg, s, PollEvent(e, now)), e.frame.correlationId;
      && s'.mode.AtSelect? && s'.assemblies == s.assemblies - {c} && s'.workers == s.workers && s'.done == s.done
      && s'.jobs == (if c in s.jobs then s.jobs[c := s.jobs[c].(cancelled := true)] else s.jobs)
      && s'.trains == s.trains && s'.rest == s.rest && s'.out == s.out
  {
    hide FC.Validate, FC.Has, Request;
    FlagTests(e.frame.hdrFlags);
  }

  /** An event with neither bit is skipped. */
  lemma OthersAreSkipped(cfg: Config, s: State, e: BC.Event, now: u64)
    requires s.mode.AtPoll? && FC.Validate(e.frame) == FC.OK
    requires e.frame.hdrFlags / 8 % 2 == 0 && e.frame.hdrFlags / 32 % 2 == 0
    ensures Step(cfg, s, PollEvent(e, now)) == s.(mode := AtSelect)
  {
    hide FC.Validate, FC.Has, Request, Cancel;
    FlagTests(e.frame.hdrFlags);
  }

  // ----------------------------------------------------------------- finished work

  /** What `replyModuleResult` makes of a result: no body but with status OK (0), and INTERNAL (5) for a status above 5
      or a body above 16 MiB. */
  lemma NormalExactly(status: u16, body: seq<byte>)
    ensures Normal(status, body) ==
            if status > 5 || |body| > 16_777_216 then (5, []) else if status == 0 then (0, body) else (status, [])
  {}

  /** Every fragment of a reply decodes to this status, stage and trace, and together they hold the body. */
  lemma ReplyReads(cfg: Config, kind: u32, c: u64, stage: u32, trace: u64, status: u16, body: seq<byte>)
    requires cfg.budget > 40 && stage != 0
    ensures var t := ReplyTrain(cfg, kind, c, stage, trace, status, body);
      var (st, b) :=
        if status > 5 || |body| > 16_777_216 then (5, []) else if status == 0 then (0, body) else (status, []);
      var parts := Chunks(b, cfg.budget - 40);
      && |t| == |parts| && Join(parts) == b
      && forall i :: 0 <= i < |t| ==>
           && t[i].kind == kind && t[i].correlation == c && (t[i].more <==> i + 1 < |t|)
           && |t[i].payload| == 40 + |parts[i]| && t[i].payload[40..] == parts[i]
           && |parts[i]| <= 16_777_216
           && MC.Decode(t[i].payload) == MC.Decoded(MC.Message(2, st, stage, 0, |parts[i]|, 0, trace))
  {
    hide MC.Bytes, MC.Decode, Normal, Chunks, Join;
    NormalExactly(status, body);
    var (st, b) := Normal(status, body);
    var parts := Chunks(b, cfg.budget - 40);
    JoinOfChunks(b, cfg.budget - 40);
    ChunkShape(b, cfg.budget - 40);
    var t := ReplyTrain(cfg, kind, c, stage, trace, status, body);
    forall i | 0 <= i < |t|
      ensures |parts[i]| <= 16_777_216 && |t[i].payload| == 40 + |parts[i]| && t[i].payload[40..] == parts[i]
      ensures MC.Decode(t[i].payload) == MC.Decoded(MC.Message(2, st, stage, 0, |parts[i]|, 0, trace))
    {
      FragmentReads(kind, c, ResultHeader(st, stage, trace), parts[i], i + 1 < |parts|);
    }
  }

  /** The loop takes the oldest result: its job ends, and its reply begins. */
  lemma FinishedIsAnswered(cfg: Config, s: State)
    requires s.mode.AtSelect? && s.done != [] && s.done[0].correlation in s.jobs && cfg.budget > 40
    requires s.jobs[s.done[0].correlation].stageId != 0
    ensures var s', r := Step(cfg, s, Select), s.done[0];
      var w := s.jobs[r.correlation];
      && s'.mode.Sending? && s'.done == s.done[1..] && s'.jobs == s.jobs - {r.correlation}
      && s'.workers == s.workers && s'.assemblies == s.assemblies && s'.out == s.out
      && s'.rest == ReplyTrain(cfg, w.kind, r.correlation, w.stageId, w.traceId, r.status, r.body)
      && s'.trains == s.trains + [s'.rest]
  {
    hide ReplyTrain;
  }

  /** What a handler's outcome is settled on: cancelled (2) goes ahead of a deadline passed on a running clock (3), and
      that ahead of what the handler returned. */
  lemma SettlesOn(w: Work, response: seq<byte>, status: u16, clock: u64)
    ensures Settle(w, response, status, clock) ==
            if w.cancelled then (2, [])
            else if w.deadlineNs > 0 && clock > 0 && w.deadlineNs <= clock then (3, [])
            else if status > 5 || |response| > 16_777_216 then (5, [])
            else if status == 0 then (0, response) else (status, [])
  {}

  // ------------------------------------------------------------------ the end of it

  /** Exactly these inputs end the serving of a loop that knows the jobs of its results: the context's end, a new epoch
      or a failed poll at the poll; a send refused, or blocked with the context's end or a new epoch, while sending. */
  lemma EndsExactly(cfg: Config, s: State, input: Input)
    requires cfg.budget > 40 && (s.mode.AtSelect? || s.mode.AtPoll? || s.mode.Sending?)
    requires s.done != [] ==> s.done[0].correlation in s.jobs && s.jobs[s.done[0].correlation].stageId != 0
    ensures var s' := Step(cfg, s, input);
      && (s'.mode.Exited? || s'.mode.Draining? <==>
            (s.mode.AtPoll? && (input.ContextDone? || input.EpochSeen? || input.PollFailed?))
            || (s.mode.Sending? && (input.SendFailed?
                                    || (input.SendBlocked? && (input.contextDone || input.epochChanged)))))
      && (s'.mode.Draining? <==> s.mode.AtPoll? && input.ContextDone? && s.jobs != map[])
  {
    hide HandleEvent, Settle, FC.Validate;
    match input
    case PollEvent(event, now) => EventGoesOn(cfg, s, event, now);
    case Select => if s.mode.AtSelect? && s.done != [] { FinishedIsAnswered(cfg, s); }
    case _ =>
  }

  lemma EventGoesOn(cfg: Config, s: State, event: BC.Event, now: u64)
    requires cfg.budget > 40
    ensures var s' := HandleEvent(cfg, s, event, now); s'.mode.AtSelect? || s'.mode.Sending?
  {
    hide MC.Decode, FC.Has, MC.DeadlineExpired, Matches, ReplyTrain, Normal;
    var d := MC.Decode(event.payload);
    if !Invalid(cfg, s, event.frame.eventKind, event.frame.correlationId, d) { assert d.Decoded?; }
  }

  /** A handler's outcome is settled for its own job, and goes to the channel while fewer than 16 results wait there. */
  lemma HandlersExactly(cfg: Config, s: State, c: u64, response: seq<byte>, status: u16, clock: u64)
    ensures c in s.workers && s.workers[c].Running? && c in s.jobs ==>
              var (st, b) := Settle(s.jobs[c], response, status, clock);
              Step(cfg, s, HandlerReturns(c, response, status, clock)) == s.(workers := s.workers[c := Checked(st, b)])
    ensures c in s.workers && s.workers[c].Checked? && |s.done| < 16 ==>
              Step(cfg, s, HandlerSends(c)) ==
              s.(workers := s.workers - {c}, done := s.done + [Result(c, s.workers[c].status, s.workers[c].body)])
    ensures |s.done| >= 16 ==> Step(cfg, s, HandlerSends(c)) == s
  {
    hide Settle;
  }

  /** An accepted fragment is sent; one that met a full ring stays, and so does the loop, unless its context ended or
      the epoch changed. */
  lemma SendsExactly(cfg: Config, s: State)
    requires s.mode.Sending? && s.rest != []
    ensures var s' := Step(cfg, s, SendAccepted);
      s' == s.(out := s.out + [s.rest[0]], rest := s.rest[1..], mode := if |s.rest| == 1 then AtSelect else Sending)
    ensures Step(cfg, s, SendBlocked(false, false)) == s
  {}
}
