/** The serving side's imperative code (server-go/bus/module_runtime.go): the loop that sends a reply, and
    the runtime object whose methods are the steps of `Runtime`. */
module RuntimeLoop {
  import opened Words
  import FC = FrameCodec
  import MC = ModuleCodec
  import BC = BusClient
  import opened Fragments
  import RT = Runtime
  import CL = CallerLoops

  // --------------------------------------------------------- sending one reply

  /** What one attempt to send a fragment meets. */
  datatype Attempt = Accepted | Full(contextDone: bool, epochChanged: bool) | Broken(err: BC.Err)

  datatype ReplyError = None | RuntimeError | MessageError | BusError(err: BC.Err) | ContextError | EpochError

  /** The runtime's bus: what it sent, and a script of attempts. Once the script is used up every attempt is
      accepted. */
  class ReplyBus {
    const inlineBudget: u32
    var sent: seq<Fragment>
    var attempts: seq<Attempt>

    constructor (inlineBudget: u32, attempts: seq<Attempt>)
      ensures this.inlineBudget == inlineBudget && sent == [] && this.attempts == attempts
    {
      this.inlineBudget, this.attempts, sent := inlineBudget, attempts, [];
    }

    /** Accepts the fragment or leaves everything sent as it was; refuses correlation 0. */
    method ReplyFragment(kind: u32, c: u64, payload: seq<byte>, more: bool) returns (a: Attempt)
      modifies this
      ensures if c == 0 || (more && payload == []) then a == Broken(BC.ErrProtocol) && attempts == old(attempts)
              else if old(attempts) == [] then a == Accepted && attempts == []
              else a == old(attempts)[0] && attempts == old(attempts)[1..]
      ensures sent == if a.Accepted? then old(sent) + [Fragment(kind, c, payload, more)] else old(sent)
    {
      if c == 0 || (more && payload == []) { return Broken(BC.ErrProtocol); }
      a := Accepted;
      if attempts != [] { a, attempts := attempts[0], attempts[1..]; }
      if a.Accepted? { sent := sent + [Fragment(kind, c, payload, more)]; }
    }
  }

  /** What a script of attempts makes of one fragment: refused attempts are repeated until one is accepted, the
      bus fails, or waiting is given up. */
  function RetryOf(attempts: seq<Attempt>): (ReplyError, seq<Attempt>) {
    if attempts == [] then (None, [])
    else match attempts[0]
      case Accepted => (None, attempts[1..])
      case Broken(e) => (BusError(e), attempts[1..])
      case Full(contextDone, epochChanged) =>
        if contextDone then (ContextError, attempts[1..])
        else if epochChanged then (EpochError, attempts[1..])
        else RetryOf(attempts[1..])
  }

  /** The same for `n` fragments in turn: the error, and how many were sent. */
  function SendAll(n: nat, attempts: seq<Attempt>): (ReplyError, nat) {
    if n == 0 then (None, 0)
    else
      var (err, rest) := RetryOf(attempts);
      if err != None then (err, 0)
      else
        var (last, sent) := SendAll(n - 1, rest);
        (last, sent + 1)
  }

  /** The attempt that decides a fragment, if any: those before it met a ring that was merely full; and it was accepted,
      or says why not, the end of the context going ahead of a new epoch. */
  lemma {:induction false} RetryExactly(attempts: seq<Attempt>) returns (k: nat)
    ensures k <= |attempts| && forall i :: 0 <= i < k ==> attempts[i] == Full(false, false)
    ensures k == |attempts| ==> RetryOf(attempts) == (None, [])
    ensures k < |attempts| ==>
              && RetryOf(attempts).1 == attempts[k + 1..]
              && (attempts[k].Accepted? ==> RetryOf(attempts).0 == None)
              && (attempts[k].Broken? ==> RetryOf(attempts).0 == BusError(attempts[k].err))
              && (attempts[k].Full? && attempts[k].contextDone ==> RetryOf(attempts).0 == ContextError)
              && (attempts[k].Full? && !attempts[k].contextDone ==>
                    attempts[k].epochChanged && RetryOf(attempts).0 == EpochError)
  {
    if attempts == [] || attempts[0] != Full(false, false) {
      k := 0;
    } else {
      k := RetryExactly(attempts[1..]);
      k := k + 1;
      assert forall i :: 0 <= i < k ==> attempts[i] == (if i == 0 then attempts[0] else attempts[1..][i - 1]);
    }
  }

  predicate Patient(a: Attempt) { a == Accepted || a == Full(false, false) }

  lemma {:induction false} RetryIsPatient(attempts: seq<Attempt>)
    requires forall a :: a in attempts ==> Patient(a)
    ensures RetryOf(attempts).0 == None && forall a :: a in RetryOf(attempts).1 ==> Patient(a)
  {
    if attempts != [] {
      assert Patient(attempts[0]) && forall a :: a in attempts[1..] ==> a in attempts;
      RetryIsPatient(attempts[1..]);
    }
  }

  /** A ring that is merely full now and then never costs a fragment: the whole train goes out. */
  lemma {:induction false} PatientSend(n: nat, attempts: seq<Attempt>)
    requires forall a :: a in attempts ==> Patient(a)
    ensures SendAll(n, attempts) == (None, n)
  {
    if n > 0 {
      RetryIsPatient(attempts);
      PatientSend(n - 1, RetryOf(attempts).1);
    }
  }

  /** `replyModuleResult`: sends a prefix of the reply train, the whole train exactly when it reports no
      error. A full ring is retried, and a retried fragment is never sent twice; a reply with a stage and a
      correlation never fails to encode. */
  method ReplyModuleResult(bus: ReplyBus, kind: u32, c: u64, stage: u32, trace: u64, status: u16, body: seq<byte>)
      returns (err: ReplyError, n: nat)
    modifies bus
    ensures bus.inlineBudget <= MC.HEADER_LEN ==> err == RuntimeError && n == 0 && bus.sent == old(bus.sent)
    ensures bus.inlineBudget > MC.HEADER_LEN ==>
              var t := RT.ReplyTrain(RT.Config(map[], true, bus.inlineBudget), kind, c, stage, trace, status, body);
              n <= |t| && bus.sent == old(bus.sent) + t[..n] && (err == None <==> n == |t|)
    ensures bus.inlineBudget > MC.HEADER_LEN && stage != 0 && c != 0 ==>
              var t := RT.ReplyTrain(RT.Config(map[], true, bus.inlineBudget), kind, c, stage, trace, status, body);
              (err, n) == SendAll(|t|, old(bus.attempts))
    ensures bus.inlineBudget > MC.HEADER_LEN && stage == 0 ==> err == MessageError && n == 0
    ensures bus.inlineBudget > MC.HEADER_LEN && stage != 0 && c == 0 ==> err == BusError(BC.ErrProtocol) && n == 0
    ensures stage != 0 ==> err != MessageError
  {
    hide MC.Bytes, And, LE, Chunks, RT.ReplyTrain, MC.Valid, RT.ResultHeader, SendAll, RetryOf, CL.Cutting, Replying;
    n := 0;
    var st, b := status, body;
    if status > MC.STATUS_INTERNAL || |body| > MC.MAX_BODY {
      st, b := MC.STATUS_INTERNAL, [];
    } else if status != MC.STATUS_OK {
      b := [];
    }
    assert (st, b) == RT.Normal(status, body) && |b| <= MC.MAX_BODY && st <= MC.STATUS_INTERNAL;
    hide RT.Normal;
    var budget := bus.inlineBudget;
    if budget <= MC.HEADER_LEN { return RuntimeError, 0; }
    var chunk := budget - MC.HEADER_LEN;
    var first, offset := true, 0;
    ghost var cfg := RT.Config(map[], true, budget);
    ghost var t, parts := RT.ReplyTrain(cfg, kind, c, stage, trace, status, body), Chunks(b, chunk);
    ReplyLength(cfg, kind, c, stage, trace, status, body);
    CL.CutStart(b, chunk);
    ReplyBegins(t, bus.sent, bus.attempts, c);
    while first || offset < |b|
      invariant 0 <= offset <= |b| && n <= |t| && |t| == |parts|
      invariant CL.Cutting(b, chunk, parts, n, offset, first)
      invariant (n == 0 <==> first) && (stage == 0 || c == 0 ==> first)
      invariant Replying(t, n, c, old(bus.sent), bus.sent, old(bus.attempts), bus.attempts)
      decreases if first then 1 else 0, |b| - offset
    {
      CL.Cut(b, chunk, parts, n, offset, first);
      first := false;
      var part := |b| - offset;
      if part > chunk { part := chunk; }
      var more := offset + part < |b|;
      var payload := new byte[MC.HEADER_LEN + part];
      var message := RT.ResultHeader(st, stage, trace).(bodyLen := part);
      var ok, bytes := BuildPayload(payload, message, b[offset..offset + part]);
      ValidResult(st, stage, trace, part);
      if !ok {
        ReplySoFar(t, n, c, old(bus.sent), bus.sent, old(bus.attempts), bus.attempts);
        return MessageError, n;
      }
      ReplyAt(cfg, kind, c, stage, trace, status, body, n);
      var fragment := Fragment(kind, c, bytes, more);
      assert t[n] == fragment && fragment.payload != [];
      ghost var sent, attempts := bus.sent, bus.attempts;
      err := SendRetrying(bus, fragment);
      ReplyGoesOn(t, n, c, old(bus.sent), sent, bus.sent, old(bus.attempts), attempts, bus.attempts, err);
      if err != None { return err, n; }
      n := n + 1;
      offset := offset + part;
    }
    CL.CutEnd(b, chunk, parts, n, offset);
    ReplyEnds(t, c, old(bus.sent), bus.sent, old(bus.attempts), bus.attempts);
    err := None;
  }

  /** `n` fragments of the train are out, and what the attempts left say of the others is what they say of all. */
  ghost predicate Replying(t: seq<Fragment>, n: nat, c: u64, sent0: seq<Fragment>, sent: seq<Fragment>,
      attempts0: seq<Attempt>, attempts: seq<Attempt>)
  {
    && n <= |t| && sent == sent0 + t[..n]
    && (c != 0 ==> Shifted(SendAll(|t| - n, attempts), n) == SendAll(|t|, attempts0))
  }

  lemma ReplyBegins(t: seq<Fragment>, sent: seq<Fragment>, attempts: seq<Attempt>, c: u64)
    ensures Replying(t, 0, c, sent, sent, attempts, attempts)
  {
    hide SendAll;
    SendNone(|t|, attempts);
  }

  lemma ReplyGoesOn(t: seq<Fragment>, n: nat, c: u64, sent0: seq<Fragment>, sent: seq<Fragment>, sent1: seq<Fragment>,
      attempts0: seq<Attempt>, attempts: seq<Attempt>, attempts1: seq<Attempt>, err: ReplyError)
    requires Replying(t, n, c, sent0, sent, attempts0, attempts) && n < |t|
    requires sent1 == if err == None then sent + [t[n]] else sent
    requires c != 0 ==> (err, attempts1) == RetryOf(attempts)
    ensures err == None ==> Replying(t, n + 1, c, sent0, sent1, attempts0, attempts1)
    ensures err != None ==> sent1 == sent0 + t[..n] && (c != 0 ==> (err, n) == SendAll(|t|, attempts0))
  {
    hide SendAll, RetryOf;
    SendNext(|t| - n, attempts, n);
    assert t[..n + 1] == t[..n] + [t[n]];
  }

  lemma ReplySoFar(t: seq<Fragment>, n: nat, c: u64, sent0: seq<Fragment>, sent: seq<Fragment>,
      attempts0: seq<Attempt>, attempts: seq<Attempt>)
    requires Replying(t, n, c, sent0, sent, attempts0, attempts)
    ensures n <= |t| && sent == sent0 + t[..n]
  {}

  lemma ReplyEnds(t: seq<Fragment>, c: u64, sent0: seq<Fragment>, sent: seq<Fragment>, attempts0: seq<Attempt>,
      attempts: seq<Attempt>)
    requires Replying(t, |t|, c, sent0, sent, attempts0, attempts)
    ensures sent == sent0 + t[..|t|] && (c != 0 ==> (None, |t|) == SendAll(|t|, attempts0))
  {
    SendNone(0, attempts);
  }

  function Shifted(r: (ReplyError, nat), n: nat): (ReplyError, nat) { (r.0, r.1 + n) }

  lemma SendNext(k: nat, attempts: seq<Attempt>, n: nat)
    requires k > 0
    ensures var (err, rest) := RetryOf(attempts);
      Shifted(SendAll(k, attempts), n) == if err != None then (err, n) else Shifted(SendAll(k - 1, rest), n + 1)
  {}

  lemma SendNone(n: nat, attempts: seq<Attempt>)
    ensures SendAll(0, attempts) == (None, 0) && Shifted(SendAll(n, attempts), 0) == SendAll(n, attempts)
  {}

  /** Sends one fragment, waiting while the ring is full: once sent it is sent exactly once, and it is given up
      only for the reasons its attempts give. */
  method SendRetrying(bus: ReplyBus, f: Fragment) returns (err: ReplyError)
    modifies bus
    ensures bus.sent == if err == None then old(bus.sent) + [f] else old(bus.sent)
    ensures if f.correlation == 0 || (f.more && f.payload == []) then err == BusError(BC.ErrProtocol)
            else (err, bus.attempts) == RetryOf(old(bus.attempts))
    ensures err != MessageError
  {
    while true
      invariant bus.sent == old(bus.sent)
      invariant f.correlation != 0 && !(f.more && f.payload == []) ==>
                RetryOf(bus.attempts) == RetryOf(old(bus.attempts))
      invariant f.correlation == 0 || (f.more && f.payload == []) ==> bus.attempts == old(bus.attempts)
      decreases |bus.attempts|
    {
      var a := bus.ReplyFragment(f.kind, f.correlation, f.payload, f.more);
      match a {
        case Accepted => return None;
        case Broken(e) => return BusError(e);
        case Full(contextDone, epochChanged) =>
          if contextDone { return ContextError; }
          if epochChanged { return EpochError; }
      }
    }
  }

  method BuildPayload(payload: array<byte>, message: MC.Message, part: seq<byte>) returns (ok: bool, bytes: seq<byte>)
    requires payload.Length == MC.HEADER_LEN + |part|
    modifies payload
    ensures ok <==> MC.Valid(message)
    ensures ok ==> bytes == MC.Bytes(message) + part
  {
    hide MC.Bytes, And, LE, MC.Valid;
    bytes := [];
    ok := MC.Encode(message, payload);
    if !ok { return; }
    ghost var header := payload[..];
    Copy(payload, MC.HEADER_LEN, part);
    CL.SplicedFrame(header, payload[..], MC.Bytes(message), part);
    bytes := payload[..];
  }

  lemma ReplyLength(cfg: RT.Config, kind: u32, c: u64, stage: u32, trace: u64, status: u16, body: seq<byte>)
    requires cfg.budget > MC.HEADER_LEN
    ensures |RT.ReplyTrain(cfg, kind, c, stage, trace, status, body)|
            == |Chunks(RT.Normal(status, body).1, cfg.budget - MC.HEADER_LEN)|
  {
    hide MC.Bytes;
  }

  lemma ReplyAt(cfg: RT.Config, kind: u32, c: u64, stage: u32, trace: u64, status: u16, body: seq<byte>, n: nat)
    requires cfg.budget > MC.HEADER_LEN && n < |Chunks(RT.Normal(status, body).1, cfg.budget - MC.HEADER_LEN)|
    ensures var t, parts := RT.ReplyTrain(cfg, kind, c, stage, trace, status, body),
            Chunks(RT.Normal(status, body).1, cfg.budget - MC.HEADER_LEN);
      |t| == |parts| && |parts[n]| < TWO32
      && t[n] == Fragment(kind, c, MC.Bytes(RT.ResultHeader(RT.Normal(status, body).0, stage,
         trace).(bodyLen := |parts[n]|)) + parts[n], n + 1 < |parts|)
  {
    hide MC.Bytes;
    ChunkShape(RT.Normal(status, body).1, cfg.budget - MC.HEADER_LEN);
  }

  lemma ValidResult(st: u16, stage: u32, trace: u64, part: u32)
    requires st <= MC.STATUS_INTERNAL && part <= MC.MAX_BODY
    ensures MC.Valid(RT.ResultHeader(st, stage, trace).(bodyLen := part)) <==> stage != 0
  {}

  // ------------------------------------------------------------- the runtime

  /** The runtime's tables and channel. Each method is one step of `Runtime.Step`; `rest` is what the reply
      loop above has not yet sent. The ghost fields are the history that specification keeps. */
  class ModuleRuntime {
    const cfg: RT.Config
    var assemblies: map<u64, RT.Assembly>
    var jobs: map<u64, RT.Work>
    var workers: map<u64, RT.Worker>
    var done: seq<RT.Result>
    var mode: RT.Mode
    var rest: seq<Fragment>
    var out: seq<Fragment>
    ghost var trains: seq<seq<Fragment>>
    ghost var log: seq<RT.Entry>
    ghost var tally: RT.Tally

    constructor (cfg: RT.Config)
      ensures this.cfg == cfg && View() == RT.Start()
    {
      this.cfg := cfg;
      assemblies, jobs, workers, done := map[], map[], map[], [];
      mode, rest, out, trains, log, tally := RT.AtSelect, [], [], [], [], RT.Tally(0, 0, 0, 0, 0, 0);
    }

    ghost function View(): RT.State
      reads this
    {
      RT.State(assemblies, jobs, workers, done, mode, rest, out, trains, log, tally)
    }

    /** Begins a reply, or ends the loop when it cannot be cut. */
    method Reply(kind: u32, c: u64, stage: u32, trace: u64, status: u16, body: seq<byte>)
      modifies this`mode, this`rest, this`trains
      ensures View() == RT.Reply(cfg, old(View()), kind, c, stage, trace, status, body)
    {
      hide RT.ReplyTrain;
      if cfg.budget <= MC.HEADER_LEN || stage == 0 {
        mode := RT.Exited;
      } else {
        rest := RT.ReplyTrain(cfg, kind, c, stage, trace, status, body);
        trains := trains + [rest];
        mode := RT.Sending;
      }
    }

    method Refuse(c: u64, ghost part: RT.Part, kind: u32, stage: u32, trace: u64, status: u16)
      requires part.kind == kind
      modifies this
      ensures View() == RT.Refuse(cfg, old(View()), c, part, stage, trace, status)
    {
      hide RT.Reply;
      assemblies := assemblies - {c};
      log := log + [RT.Entry(c, RT.Refused(status), part)];
      tally := tally.(immediate := tally.immediate + 1);
      Reply(kind, c, stage, trace, status, []);
    }

    /** The body of the event loop: what one polled event does. */
    method HandleEvent(event: BC.Event, now: u64)
      modifies this
      ensures View() == RT.HandleEvent(cfg, old(View()), event, now)
    {
      hide FC.Has, MC.Decode, RT.Refuse, RT.Accept;
      var c := event.frame.correlationId;
      if FC.Has(event.frame.hdrFlags, FC.F_CANCEL) {
        if c in jobs { jobs := jobs[c := jobs[c].(cancelled := true)]; }
        assemblies := assemblies - {c};
        log := log + [RT.Entry(c, RT.Dropped, RT.Part(0, 0, 0, 0, []))];
        mode := RT.AtSelect;
        return;
      }
      if !FC.Has(event.frame.hdrFlags, FC.F_REQUEST) { mode := RT.AtSelect; return; }
      tally := tally.(requests := tally.requests + 1);
      var kind := event.frame.eventKind;
      var expected := RT.StageOf(cfg, kind);
      var d := MC.Decode(event.payload);
      ghost var part := RT.PartOf(kind, d, event.payload);
      var invalid := expected == 0 || d.Rejected? || d.message.operation != MC.OP_INVOKE
                     || d.message.stageId != expected || c in jobs;
      if !invalid && c in assemblies { invalid := !RT.Matches(assemblies[c], kind, d.message); }
      if invalid {
        Refuse(c, part, kind, if expected == 0 then 1 else expected, 0, MC.STATUS_INVALID_REQUEST);
        return;
      }
      DecodedFits(event.payload);
      Accept(c, d.message, part, kind, event.payload[MC.HEADER_LEN..MC.HEADER_LEN + d.message.bodyLen],
             FC.Has(event.frame.hdrFlags, FC.F_MORE), now);
    }

    /** A request fragment that passed the checks: assemble, refuse or launch. */
    method Accept(c: u64, m: MC.Message, ghost part: RT.Part, kind: u32, chunk: seq<byte>, more: bool, now: u64)
      requires part.kind == kind && part.chunk == chunk
      modifies this
      ensures View() == RT.Accept(cfg, old(View()), c, m, part, more, now)
    {
      hide RT.Refuse, RT.StageOf, MC.DeadlineExpired;
      var stage := RT.StageOf(cfg, kind);
      if c !in assemblies && |assemblies| >= RT.MAX_IN_FLIGHT {
        Refuse(c, part, kind, stage, m.traceId, MC.STATUS_INTERNAL);
        return;
      }
      var assembly := if c in assemblies then assemblies[c] else RT.Assembly(kind, m, []);
      if |assembly.body| + |chunk| > MC.MAX_BODY {
        Refuse(c, part, kind, stage, m.traceId, MC.STATUS_INTERNAL);
        return;
      }
      assembly := assembly.(body := assembly.body + chunk);
      if more {
        Absorb(c, assembly, part);
      } else if MC.DeadlineExpired(m.deadlineNs, now) {
        Refuse(c, part, kind, stage, m.traceId, MC.STATUS_DEADLINE_EXCEEDED);
      } else if !cfg.hasHandler {
        Refuse(c, part, kind, stage, m.traceId, MC.STATUS_CAPABILITY_ABSENT);
      } else if |jobs| >= RT.MAX_IN_FLIGHT {
        Refuse(c, part, kind, stage, m.traceId, MC.STATUS_INTERNAL);
      } else {
        Launch(c, RT.Work(kind, c, stage, m.deadlineNs, m.traceId, false), assembly.body, part);
      }
    }

    /** Keeps the assembly for the next fragment. */
    method Absorb(c: u64, assembly: RT.Assembly, ghost part: RT.Part)
      modifies this
      ensures var s := old(View());
        View() == RT.Record(s, c, RT.Absorbed, part).(
                    assemblies := s.assemblies[c := assembly], tally := s.tally.(absorbed := s.tally.absorbed + 1),
                    mode := RT.AtSelect)
    {
      assemblies := assemblies[c := assembly];
      log := log + [RT.Entry(c, RT.Absorbed, part)];
      tally := tally.(absorbed := tally.absorbed + 1);
      mode := RT.AtSelect;
    }

    /** Registers the job and starts its handler on the whole body. */
    method Launch(c: u64, work: RT.Work, body: seq<byte>, ghost part: RT.Part)
      modifies this
      ensures var s := old(View());
        View() == RT.Record(s, c, RT.Launched, part).(
                    assemblies := s.assemblies - {c}, jobs := s.jobs[c := work],
                    workers := s.workers[c := RT.Running(body)],
                    tally := s.tally.(launched := s.tally.launched + 1), mode := RT.AtSelect)
    {
      assemblies := assemblies - {c};
      jobs := jobs[c := work];
      workers := workers[c := RT.Running(body)];
      log := log + [RT.Entry(c, RT.Launched, part)];
      tally := tally.(launched := tally.launched + 1);
      mode := RT.AtSelect;
    }

    /** `finishModuleWork`, or the `default` branch of the inner select when nothing is done. */
    method SelectDone()
      requires mode.AtSelect?
      modifies this
      ensures View() == RT.Step(cfg, old(View()), RT.Select)
    {
      hide RT.Reply;
      if done == [] { mode := RT.AtPoll; return; }
      var r := done[0];
      done := done[1..];
      tally := tally.(finished := tally.finished + 1);
      if r.correlation !in jobs { mode := RT.Exited; return; }
      var w := jobs[r.correlation];
      jobs := jobs - {r.correlation};
      Reply(w.kind, r.correlation, w.stageId, w.traceId, r.status, r.body);
    }

    /** Shutdown: every job is told to stop, one after another, before the drain begins. */
    method Stop()
      requires mode.AtPoll?
      modifies this`jobs, this`mode
      ensures View() == RT.Step(cfg, old(View()), RT.ContextDone)
    {
      var todo := jobs.Keys;
      ghost var before := jobs;
      while todo != {}
        invariant todo <= before.Keys && jobs.Keys == before.Keys
        invariant forall c :: c in before ==> jobs[c] == if c in todo then before[c] else before[c].(cancelled := true)
        decreases |todo|
      {
        var c :| c in todo;
        jobs := jobs[c := jobs[c].(cancelled := true)];
        todo := todo - {c};
      }
      assert jobs == RT.CancelAll(before);
      mode := if jobs == map[] then RT.Exited else RT.Draining;
    }

    /** One receive of the drain loop. */
    method DrainOne()
      requires mode.Draining? && done != []
      modifies this`jobs, this`done, this`mode, this`tally
      ensures View() == RT.Step(cfg, old(View()), RT.DrainReceives)
    {
      jobs := jobs - {done[0].correlation};
      done := done[1..];
      tally := tally.(drained := tally.drained + 1);
      if jobs == map[] { mode := RT.Exited; }
    }

    /** A handler returns: `runHandler` settles its status and body. */
    method HandlerReturns(c: u64, response: seq<byte>, status: u16, clock: u64)
      requires c in workers && workers[c].Running? && c in jobs
      modifies this`workers
      ensures View() == RT.Step(cfg, old(View()), RT.HandlerReturns(c, response, status, clock))
    {
      var w := jobs[c];
      var st, body := status, response;
      if status > MC.STATUS_INTERNAL || |response| > MC.MAX_BODY {
        st, body := MC.STATUS_INTERNAL, [];
      } else if status != MC.STATUS_OK {
        body := [];
      }
      if w.cancelled {
        st, body := MC.STATUS_CANCELLED, [];
      } else if w.deadlineNs != 0 {
        if clock != 0 && clock >= w.deadlineNs { st, body := MC.STATUS_DEADLINE_EXCEEDED, []; }
      }
      workers := workers[c := RT.Checked(st, body)];
    }

    /** Its send on the buffered channel; it would block without room. */
    method HandlerSends(c: u64)
      requires c in workers && workers[c].Checked? && |done| < RT.MAX_IN_FLIGHT
      modifies this`workers, this`done
      ensures View() == RT.Step(cfg, old(View()), RT.HandlerSends(c))
    {
      done := done + [RT.Result(c, workers[c].status, workers[c].body)];
      workers := workers - {c};
    }

    /** The bus accepts the next fragment of the reply in progress. */
    method SendNext()
      requires mode.Sending? && rest != []
      modifies this`out, this`rest, this`mode
      ensures View() == RT.Step(cfg, old(View()), RT.SendAccepted)
    {
      out := out + [rest[0]];
      rest := rest[1..];
      if rest == [] { mode := RT.AtSelect; }
    }

    /** The whole system over a schedule of steps: the object goes through exactly the states of `Runtime.Run`. */
    method Serve(inputs: seq<RT.Input>)
      modifies this
      ensures View() == RT.Run(cfg, old(View()), inputs)
    {
      hide RT.Step, RT.Run;
      ghost var start := View();
      RT.RunNothing(cfg, start);
      for i := 0 to |inputs|
        invariant View() == RT.Run(cfg, start, inputs[..i])
      {
        RT.RunOneMore(cfg, start, inputs, i);
        Take(inputs[i]);
      }
      assert inputs[..|inputs|] == inputs;
    }

    method Take(input: RT.Input)
      modifies this
      ensures View() == RT.Step(cfg, old(View()), input)
    {
      hide RT.HandleEvent, RT.Finish, RT.Settle, FC.Validate, RT.CancelAll;
      match input {
        case Select => if mode.AtSelect? { SelectDone(); }
        case ContextDone => if mode.AtPoll? { Stop(); }
        case EpochSeen => if mode.AtPoll? { mode := RT.Exited; }
        case PollFailed => if mode.AtPoll? { mode := RT.Exited; }
        case PollNothing => if mode.AtPoll? { mode := RT.AtSelect; }
        case PollEvent(event, now) => if mode.AtPoll? && FC.Validate(event.frame) == FC.OK { HandleEvent(event, now); }
        case SendAccepted => if mode.Sending? && rest != [] { SendNext(); }
        case SendBlocked(contextDone, epochChanged) =>
          if mode.Sending? && (contextDone || epochChanged) { mode := RT.Exited; }
        case SendFailed => if mode.Sending? { mode := RT.Exited; }
        case HandlerReturns(c, response, status, clock) =>
          if c in workers && workers[c].Running? && c in jobs { HandlerReturns(c, response, status, clock); }
        case HandlerSends(c) => if c in workers && workers[c].Checked? && |done| < RT.MAX_IN_FLIGHT { HandlerSends(c); }
        case DrainReceives => if mode.Draining? && done != [] { DrainOne(); }
      }
    }
  }

  lemma DecodedFits(payload: seq<byte>)
    requires MC.Decode(payload).Decoded?
    ensures MC.HEADER_LEN + MC.Decode(payload).message.bodyLen <= |payload|
  {}
}
