/** A cancelled job is answered as cancelled: what happens, over any run, to a job whose cancel flag was
    set before its handler's result was checked. */
module RuntimeCancel {
  import opened Words
  import FC = FrameCodec
  import MC = ModuleCodec
  import BC = BusClient
  import opened Runtime
  import opened RuntimeSafety

  /** The handler of `c` can only report a cancellation now. */
  ghost predicate WorkerDoomed(workers: map<u64, Worker>, done: seq<Result>, c: u64) {
    if c in workers then workers[c].Running? || workers[c] == Checked(MC.STATUS_CANCELLED, [])
    else Result(c, MC.STATUS_CANCELLED, []) in done
  }

  /** The job `w` of `c` is cancelled and still owes its one reply. */
  ghost predicate Doomed(s: State, c: u64, w: Work) {
    c in s.jobs && s.jobs[c] == w && w.cancelled && WorkerDoomed(s.workers, s.done, c)
  }

  /** The step that ends the job: the loop takes its result and either begins exactly one cancelled reply
      without a body, or is already shutting down and discards it. */
  ghost predicate EndsCancelled(cfg: Config, s: State, input: Input, c: u64, w: Work)
    requires cfg.budget > MC.HEADER_LEN
  {
    var s' := Step(cfg, s, input);
    && c in s.jobs && c !in s'.jobs
    && ((input.Select?
       && s'.trains == s.trains + [ReplyTrain(cfg, w.kind, c, w.stageId, w.traceId, MC.STATUS_CANCELLED, [])])
        || (input.DrainReceives? && s.mode.Draining? && s'.trains == s.trains))
  }

  /** A cancellation that finds the handler still running dooms the job. */
  lemma CancelDooms(cfg: Config, s: State, event: BC.Event, now: u64)
    requires s.mode.AtPoll? && FC.Validate(event.frame) == FC.OK && FC.Has(event.frame.hdrFlags, FC.F_CANCEL)
    requires var c := event.frame.correlationId; c in s.jobs && c in s.workers && s.workers[c].Running?
    ensures var c := event.frame.correlationId;
      Doomed(Step(cfg, s, PollEvent(event, now)), c, s.jobs[c].(cancelled := true))
  {}

  /** A second request under a running correlation is refused and leaves the job alone. */
  lemma DoomedRequest(cfg: Config, s: State, event: BC.Event, now: u64, c: u64)
    requires c in s.jobs
    ensures KeepsJob(s, Request(cfg, s, event, now), c)
  {
    hide MC.Decode, FC.Has, StageOf, Refuse, Accept, PartOf, KeepsJob;
    var kind, d := event.frame.eventKind, MC.Decode(event.payload);
    var part := PartOf(kind, d, event.payload);
    var s1 := s.(tally := s.tally.(requests := s.tally.requests + 1));
    KeepRefuse(cfg, s1, event.frame.correlationId, part,
               if StageOf(cfg, kind) == 0 then 1 else StageOf(cfg, kind), 0, MC.STATUS_INVALID_REQUEST, c);
    KeepAccept(cfg, s1, event.frame.correlationId, d, part, FC.Has(event.frame.hdrFlags, FC.F_MORE), now, c);
    KeepsSame(s, s1, Request(cfg, s, event, now), c);
  }

  ghost predicate KeepsJob(s: State, s': State, c: u64) {
    && c in s.jobs && c in s'.jobs && s'.jobs[c] == s.jobs[c] && s'.done == s.done
    && (c in s.workers <==> c in s'.workers) && (c in s.workers ==> s'.workers[c] == s.workers[c])
  }

  lemma KeepsSame(s: State, s1: State, s': State, c: u64)
    requires s1.jobs == s.jobs && s1.workers == s.workers && s1.done == s.done && KeepsJob(s1, s', c)
    ensures KeepsJob(s, s', c)
  {}

  lemma KeepRefuse(cfg: Config, s: State, d: u64, part: Part, stage: u32, trace: u64, status: u16, c: u64)
    requires c in s.jobs
    ensures KeepsJob(s, Refuse(cfg, s, d, part, stage, trace, status), c)
  {
    hide Reply;
    var s1 := Record(s, d, Refused(status), part).(
                assemblies := s.assemblies - {d},
                tally := s.tally.(immediate := s.tally.immediate + 1));
    ReplyFrame(cfg, s1, part.kind, d, stage, trace, status, []);
  }

  lemma KeepAccept(cfg: Config, s: State, e: u64, d: MC.Decoded, part: Part, more: bool, now: u64, c: u64)
    requires c in s.jobs
    ensures d.Decoded? && e !in s.jobs ==> KeepsJob(s, Accept(cfg, s, e, d.message, part, more, now), c)
  {
    hide Refuse, StageOf, MC.DeadlineExpired;
    if d.Decoded? {
      var stage := StageOf(cfg, part.kind);
      KeepRefuse(cfg, s, e, part, stage, d.message.traceId, MC.STATUS_INTERNAL, c);
      KeepRefuse(cfg, s, e, part, stage, d.message.traceId, MC.STATUS_DEADLINE_EXCEEDED, c);
      KeepRefuse(cfg, s, e, part, stage, d.message.traceId, MC.STATUS_CAPABILITY_ABSENT, c);
    }
  }

  lemma DoomedFinish(cfg: Config, s: State, c: u64, w: Work)
    requires Tables(s) && Doomed(s, c, w) && s.mode.AtSelect? && s.done != [] && cfg.budget > MC.HEADER_LEN
    ensures Doomed(Finish(cfg, s), c, w) || EndsCancelled(cfg, s, Select, c, w)
  {
    hide ReplyTrain, DoneKeys, Distinct;
    TakeDone(s);
    HeadOrTail(s, c);
  }

  /** A doomed result at the head of `done` is the cancelled one; elsewhere it stays. */
  lemma HeadOrTail(s: State, c: u64)
    requires Tables(s) && s.done != [] && WorkerDoomed(s.workers, s.done, c)
    ensures if s.done[0].correlation == c then s.done[0] == Result(c, MC.STATUS_CANCELLED, []) && c !in s.workers
            else WorkerDoomed(s.workers, s.done[1..], c)
  {
    hide WorksOk;
    assert s.done[0].correlation in DoneKeys(s.done);
    if c !in s.workers {
      var i :| 0 <= i < |s.done| && s.done[i] == Result(c, MC.STATUS_CANCELLED, []);
      if i > 0 { assert s.done[1..][i - 1] == s.done[i]; }
    }
  }

  lemma DoomedStep(cfg: Config, s: State, input: Input, c: u64, w: Work)
    requires Tables(s) && Doomed(s, c, w) && cfg.budget > MC.HEADER_LEN
    ensures Doomed(Step(cfg, s, input), c, w) || EndsCancelled(cfg, s, input, c, w)
  {
    hide Request, Reply, Tables, FC.Validate, FC.Has, ReplyTrain;
    match input
    case Select => if s.mode.AtSelect? && s.done != [] { DoomedFinish(cfg, s, c, w); }
    case PollEvent(event, now) => DoomedRequest(cfg, s, event, now, c);
    case DrainReceives => if s.done != [] { HeadOrTail(s, c); }
    case HandlerSends(h) =>
      if c !in s.workers && h in s.workers && s.workers[h].Checked? {
        assert Result(c, MC.STATUS_CANCELLED, []) in s.done + [Result(h, s.workers[h].status, s.workers[h].body)];
      }
    case _ =>
  }

  /** In every run a doomed job either still owes its reply, or was ended by exactly such a step: no OK
      result, no deadline result and no second reply can take its place. */
  lemma {:induction false} CancelledIsAnswered(cfg: Config, s: State, inputs: seq<Input>, c: u64, w: Work)
        returns (i: nat)
    requires Tables(s) && Doomed(s, c, w) && cfg.budget > MC.HEADER_LEN
    ensures i <= |inputs| && Doomed(Run(cfg, s, inputs[..i]), c, w)
    ensures i < |inputs| ==> EndsCancelled(cfg, Run(cfg, s, inputs[..i]), inputs[i], c, w)
    decreases |inputs|
  {
    hide Step, Tables, Doomed, EndsCancelled;
    if inputs == [] {
      i := 0;
    } else {
      var s1 := Step(cfg, s, inputs[0]);
      DoomedStep(cfg, s, inputs[0], c, w);
      StepTables(cfg, s, inputs[0]);
      if Doomed(s1, c, w) {
        var j := CancelledIsAnswered(cfg, s1, inputs[1..], c, w);
        i := j + 1;
        assert inputs[..i][0] == inputs[0] && inputs[..i][1..] == inputs[1..][..j];
      } else {
        i := 0;
        assert Run(cfg, s, inputs[..0]) == s;
      }
    }
  }

  /** A result is OK only when the job was not cancelled, its deadline had not passed, and the handler itself
      was content; only then does it carry a body, the handler's own. */
  lemma OkIsEarned(w: Work, response: seq<byte>, status: u16, clock: u64)
    ensures var (st, body) := Settle(w, response, status, clock);
      && (st == MC.STATUS_OK <==>
            !w.cancelled && (w.deadlineNs == 0 || clock == 0 || clock < w.deadlineNs)
            && status == MC.STATUS_OK && |response| <= MC.MAX_BODY)
      && body == (if st == MC.STATUS_OK then response else [])
      && st <= MC.STATUS_INTERNAL
  {}
}
