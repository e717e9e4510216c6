/** What every reachable state of the module runtime satisfies, whatever the interleaving of the serving
    loop, the handlers, cancellations and shutdown. */
module RuntimeSafety {
  import opened Words
  import FC = FrameCodec
  import MC = ModuleCodec
  import BC = BusClient
  import opened Runtime

  // ------------------------------------------------------- jobs and handlers

  function DoneKeys(done: seq<Result>): set<u64> { set r | r in done :: r.correlation }

  ghost predicate Distinct(done: seq<Result>) {
    forall i, j :: 0 <= i < j < |done| ==> done[i].correlation != done[j].correlation
  }

  /** The jobs are in bijection with the handlers still running and the results queued in `done`; both
      tables are bounded and no correlation is in both. */
  ghost predicate TablesOk(assemblies: map<u64, Assembly>, jobs: map<u64, Work>, workers: map<u64, Worker>,
      done: seq<Result>) {
    && jobs.Keys == workers.Keys + DoneKeys(done) && workers.Keys !! DoneKeys(done) && Distinct(done)
    && |jobs| <= MAX_IN_FLIGHT && |assemblies| <= MAX_IN_FLIGHT
    && assemblies.Keys !! jobs.Keys
    && WorksOk(jobs)
  }

  ghost predicate WorksOk(jobs: map<u64, Work>) {
    forall c :: c in jobs ==> jobs[c].stageId != 0 && jobs[c].correlation == c
  }

  ghost predicate Tables(s: State) { TablesOk(s.assemblies, s.jobs, s.workers, s.done) }

  lemma {:induction false} DoneKeysCount(done: seq<Result>)
    requires Distinct(done)
    ensures |DoneKeys(done)| == |done|
  {
    if done != [] {
      var front, last := done[..|done| - 1], done[|done| - 1];
      DoneKeysCount(front);
      assert done == front + [last];
      assert DoneKeys(done) == DoneKeys(front) + {last.correlation};
      assert last.correlation !in DoneKeys(front);
    }
  }

  /** A running handler always finds room in the 16-slot channel: its send cannot block. */
  lemma SendNeverBlocks(s: State, c: u64)
    requires Tables(s) && c in s.workers
    ensures DoneHasRoom(s)
  {
    DoneKeysCount(s.done);
    assert |s.workers.Keys + DoneKeys(s.done)| == |s.workers.Keys| + |DoneKeys(s.done)|;
    assert |s.jobs| == |s.jobs.Keys|;
    assert |s.workers.Keys| > 0;
  }

  /** Removing the head of `done` removes exactly its correlation. */
  lemma DoneTail(done: seq<Result>)
    requires done != [] && Distinct(done)
    ensures Distinct(done[1..]) && DoneKeys(done[1..]) == DoneKeys(done) - {done[0].correlation}
    ensures done[0].correlation in DoneKeys(done)
  {
    var rest := done[1..];
    assert done == [done[0]] + rest;
    forall i, j | 0 <= i < j < |rest| ensures rest[i].correlation != rest[j].correlation {
      assert done[i + 1].correlation != done[j + 1].correlation;
    }
    forall r | r in rest ensures r.correlation != done[0].correlation {
      var i :| 0 <= i < |rest| && rest[i] == r;
      assert done[i + 1] == r;
    }
  }

  lemma DoneAppend(done: seq<Result>, r: Result)
    requires Distinct(done) && r.correlation !in DoneKeys(done)
    ensures Distinct(done + [r]) && DoneKeys(done + [r]) == DoneKeys(done) + {r.correlation}
  {
    forall i | 0 <= i < |done| ensures done[i].correlation != r.correlation {
      assert done[i] in done && done[i].correlation in DoneKeys(done);
    }
  }

  /** Beginning a reply touches nothing but the outbound side. */
  lemma ReplyFrame(cfg: Config, s: State, kind: u32, c: u64, stage: u32, trace: u64, status: u16, body: seq<byte>)
    ensures var s' := Reply(cfg, s, kind, c, stage, trace, status, body);
      s' == s.(mode := s'.mode, rest := s'.rest, trains := s'.trains)
  {
    hide ReplyTrain;
  }

  lemma MapSizes<T>(m: map<u64, T>, c: u64, v: T)
    ensures |m - {c}| <= |m|
    ensures |m[c := v]| == if c in m then |m| else |m| + 1
    ensures c in m ==> |m - {c}| == |m| - 1
    ensures m[c := v].Keys == m.Keys + {c}
  {
    assert (m - {c}).Keys == m.Keys - {c};
    assert m[c := v].Keys == m.Keys + {c};
    assert |m| == |m.Keys| && |m - {c}| == |(m - {c}).Keys| && |m[c := v]| == |m[c := v].Keys|;
  }

  lemma KeysMinus<T>(m: map<u64, T>, c: u64)
    ensures (m - {c}).Keys == m.Keys - {c} && |m - {c}| <= |m|
  {
    if c in m { MapSizes(m, c, m[c]); } else { assert m - {c} == m; }
  }

  lemma DropAssembly(s: State, c: u64)
    requires Tables(s)
    ensures TablesOk(s.assemblies - {c}, s.jobs, s.workers, s.done)
  {
    KeysMinus(s.assemblies, c);
  }

  lemma GrowAssembly(s: State, c: u64, a: Assembly)
    requires Tables(s) && c !in s.jobs && (c in s.assemblies || |s.assemblies| < MAX_IN_FLIGHT)
    ensures TablesOk(s.assemblies[c := a], s.jobs, s.workers, s.done)
  {
    MapSizes(s.assemblies, c, a);
  }

  lemma WorkAdded(jobs: map<u64, Work>, c: u64, w: Work)
    requires WorksOk(jobs) && w.stageId != 0 && w.correlation == c
    ensures WorksOk(jobs[c := w])
  {}

  lemma LaunchKeys(assemblies: set<u64>, jobs: set<u64>, workers: set<u64>, done: set<u64>, c: u64)
    requires jobs == workers + done && workers !! done && assemblies !! jobs && c !in jobs
    ensures jobs + {c} == (workers + {c}) + done && (workers + {c}) !! done && (assemblies - {c}) !! (jobs + {c})
  {}

  lemma Launch(s: State, c: u64, w: Work, body: seq<byte>)
    requires Tables(s) && c !in s.jobs && |s.jobs| < MAX_IN_FLIGHT && w.stageId != 0 && w.correlation == c
    ensures TablesOk(s.assemblies - {c}, s.jobs[c := w], s.workers[c := Running(body)], s.done)
  {
    hide DoneKeys, Distinct;
    KeysMinus(s.assemblies, c);
    MapSizes(s.jobs, c, w);
    MapSizes(s.workers, c, Running(body));
    WorkAdded(s.jobs, c, w);
    hide WorksOk;
    LaunchKeys(s.assemblies.Keys, s.jobs.Keys, s.workers.Keys, DoneKeys(s.done), c);
  }

  /** Only the cancel flags of the jobs changed. */
  lemma MarkJobs(s: State, jobs: map<u64, Work>)
    requires Tables(s) && jobs.Keys == s.jobs.Keys
    requires forall c :: c in jobs ==>
             jobs[c].stageId == s.jobs[c].stageId && jobs[c].correlation == s.jobs[c].correlation
    ensures TablesOk(s.assemblies, jobs, s.workers, s.done)
  {
    assert |jobs| == |jobs.Keys| == |s.jobs|;
  }

  lemma TakeKeys(assemblies: set<u64>, jobs: set<u64>, workers: set<u64>, done: set<u64>, c: u64)
    requires jobs == workers + done && workers !! done && assemblies !! jobs && c in done
    ensures jobs - {c} == workers + (done - {c}) && workers !! (done - {c}) && assemblies !! (jobs - {c})
  {}

  lemma TakeDone(s: State)
    requires Tables(s) && s.done != []
    ensures s.done[0].correlation in s.jobs
    ensures TablesOk(s.assemblies, s.jobs - {s.done[0].correlation}, s.workers, s.done[1..])
  {
    hide DoneKeys, Distinct;
    var c := s.done[0].correlation;
    DoneTail(s.done);
    KeysMinus(s.jobs, c);
    TakeKeys(s.assemblies.Keys, s.jobs.Keys, s.workers.Keys, DoneKeys(s.done), c);
  }

  lemma RefuseTables(cfg: Config, s: State, c: u64, part: Part, stage: u32, trace: u64, status: u16)
    requires Tables(s)
    ensures Tables(Refuse(cfg, s, c, part, stage, trace, status))
  {
    hide Reply, TablesOk;
    DropAssembly(s, c);
    var s1 := Record(s, c, Refused(status), part).(
                assemblies := s.assemblies - {c},
                tally := s.tally.(immediate := s.tally.immediate + 1));
    ReplyFrame(cfg, s1, part.kind, c, stage, trace, status, []);
  }

  lemma AcceptTables(cfg: Config, s: State, c: u64, m: MC.Message, part: Part, more: bool, now: u64)
    requires Tables(s) && c !in s.jobs && StageOf(cfg, part.kind) != 0
    ensures Tables(Accept(cfg, s, c, m, part, more, now))
  {
    hide Refuse, TablesOk, StageOf, MC.DeadlineExpired;
    var stage := StageOf(cfg, part.kind);
    var a := if c in s.assemblies then s.assemblies[c] else Assembly(part.kind, m, []);
    RefuseTables(cfg, s, c, part, stage, m.traceId, MC.STATUS_INTERNAL);
    RefuseTables(cfg, s, c, part, stage, m.traceId, MC.STATUS_DEADLINE_EXCEEDED);
    RefuseTables(cfg, s, c, part, stage, m.traceId, MC.STATUS_CAPABILITY_ABSENT);
    if c in s.assemblies || |s.assemblies| < MAX_IN_FLIGHT { GrowAssembly(s, c, a.(body := a.body + part.chunk)); }
    if |s.jobs| < MAX_IN_FLIGHT {
      Launch(s, c, Work(part.kind, c, stage, m.deadlineNs, m.traceId, false), a.body + part.chunk);
    }
  }

  lemma RequestTables(cfg: Config, s: State, event: BC.Event, now: u64)
    requires Tables(s)
    ensures Tables(Request(cfg, s, event, now))
  {
    hide MC.Decode, FC.Has, Accept, Refuse, TablesOk, PartOf;
    var kind, c := event.frame.eventKind, event.frame.correlationId;
    var d := MC.Decode(event.payload);
    var part := PartOf(kind, d, event.payload);
    PartKind(kind, d, event.payload);
    var s1 := s.(tally := s.tally.(requests := s.tally.requests + 1));
    RefuseTables(cfg, s1, c, part, if StageOf(cfg, kind) == 0 then 1 else StageOf(cfg, kind), 0,
      MC.STATUS_INVALID_REQUEST);
    if !Invalid(cfg, s, kind, c, d) {
      AcceptTables(cfg, s1, c, d.message, part, FC.Has(event.frame.hdrFlags, FC.F_MORE), now);
    }
  }

  lemma PartKind(kind: u32, d: MC.Decoded, payload: seq<byte>)
    ensures PartOf(kind, d, payload).kind == kind
  {}

  lemma CancelTables(s: State, c: u64)
    requires Tables(s)
    ensures Tables(Cancel(s, c))
  {
    hide DoneKeys, Distinct;
    var jobs := if c in s.jobs then s.jobs[c := s.jobs[c].(cancelled := true)] else s.jobs;
    assert jobs.Keys == s.jobs.Keys;
    MarkJobs(s, jobs);
    DropAssembly(s.(jobs := jobs), c);
    hide TablesOk;
  }

  lemma EventTables(cfg: Config, s: State, event: BC.Event, now: u64)
    requires Tables(s)
    ensures Tables(HandleEvent(cfg, s, event, now))
  {
    hide Request, Cancel, FC.Has, TablesOk;
    CancelTables(s, event.frame.correlationId);
    RequestTables(cfg, s, event, now);
  }

  lemma FinishTables(cfg: Config, s: State)
    requires Tables(s) && s.done != []
    ensures Tables(Finish(cfg, s)) && s.done[0].correlation in s.jobs
  {
    hide Reply, TablesOk, DoneKeys, Distinct;
    TakeDone(s);
    var r := s.done[0];
    var w := s.jobs[r.correlation];
    var s1 := s.(done := s.done[1..], jobs := s.jobs - {r.correlation},
                 tally := s.tally.(finished := s.tally.finished + 1));
    ReplyFrame(cfg, s1, w.kind, r.correlation, w.stageId, w.traceId, r.status, r.body);
  }

  lemma ReturnTables(s: State, c: u64, w: Worker)
    requires Tables(s) && c in s.workers
    ensures TablesOk(s.assemblies, s.jobs, s.workers[c := w], s.done)
  {
    assert s.workers[c := w].Keys == s.workers.Keys;
  }

  lemma SendTables(s: State, c: u64, r: Result)
    requires Tables(s) && c in s.workers && r.correlation == c
    ensures TablesOk(s.assemblies, s.jobs, s.workers - {c}, s.done + [r])
  {
    hide DoneKeys, Distinct;
    DoneAppend(s.done, r);
    KeysMinus(s.workers, c);
  }

  lemma StepTables(cfg: Config, s: State, input: Input)
    requires Tables(s)
    ensures Tables(Step(cfg, s, input))
  {
    hide HandleEvent, Finish, Settle, FC.Validate, TablesOk, DoneKeys, Distinct, CancelAll;
    match input
    case Select => if s.done != [] { FinishTables(cfg, s); }
    case PollEvent(event, now) => EventTables(cfg, s, event, now);
    case ContextDone => ShutdownTables(s);
    case HandlerReturns(_, _, _, _) => HandlerTables(cfg, s, input);
    case HandlerSends(_) => HandlerTables(cfg, s, input);
    case DrainReceives => if s.done != [] { TakeDone(s); }
    case _ =>
  }

  lemma ShutdownTables(s: State)
    requires Tables(s)
    ensures TablesOk(s.assemblies, CancelAll(s.jobs), s.workers, s.done)
  {
    hide TablesOk;
    assert CancelAll(s.jobs).Keys == s.jobs.Keys;
    MarkJobs(s, CancelAll(s.jobs));
  }

  lemma HandlerTables(cfg: Config, s: State, input: Input)
    requires Tables(s) && (input.HandlerReturns? || input.HandlerSends?)
    ensures Tables(Step(cfg, s, input))
  {
    hide Settle, TablesOk;
    match input
    case HandlerReturns(c, response, status, clock) =>
      if c in s.workers && c in s.jobs {
        var (st, b) := Settle(s.jobs[c], response, status, clock);
        ReturnTables(s, c, Checked(st, b));
      }
    case HandlerSends(c) =>
      if c in s.workers && s.workers[c].Checked? {
        SendTables(s, c, Result(c, s.workers[c].status, s.workers[c].body));
      }
  }

  /** ... and therefore in every reachable state, after the loop has exited too. */
  lemma {:induction false} RunTables(cfg: Config, s: State, inputs: seq<Input>)
    requires Tables(s)
    ensures Tables(Run(cfg, s, inputs))
    decreases |inputs|
  {
    hide Step;
    if inputs != [] {
      StepTables(cfg, s, inputs[0]);
      RunTables(cfg, Step(cfg, s, inputs[0]), inputs[1..]);
    }
  }
}
