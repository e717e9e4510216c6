/** The caller's loops (server-go/bus/module_caller.go), against the specification in `Caller`. */
module CallerLoops {
  import opened Words
  import FC = FrameCodec
  import MC = ModuleCodec
  import BC = BusClient
  import opened Fragments
  import opened Caller

  /** The caller's bus: what it has sent, and the script of what will happen. Once `fates` is used up every
      send succeeds. */
  class CallerBus {
    const inlineBudget: u32
    var sent: seq<Fragment>
    var cancels: seq<(u32, u64)>
    var fates: seq<BC.Err>
    var inbox: seq<Polled>

    constructor (inlineBudget: u32, fates: seq<BC.Err>, inbox: seq<Polled>)
      ensures this.inlineBudget == inlineBudget && sent == [] && cancels == [] && this.fates == fates
              && this.inbox == inbox
    {
      this.inlineBudget, this.fates, this.inbox, sent, cancels := inlineBudget, fates, inbox, [], [];
    }

    method RequestFragment(kind: u32, c: u64, payload: seq<byte>, more: bool) returns (err: BC.Err)
      modifies this`sent, this`fates
      ensures c == 0 || (more && payload == []) ==> err == BC.ErrProtocol
      ensures c != 0 && !(more && payload == []) ==> err == if old(fates) == [] then BC.NoError else old(fates)[0]
      ensures sent == if err == BC.NoError then old(sent) + [Fragment(kind, c, payload, more)] else old(sent)
      ensures fates == if c == 0 || (more && payload == []) || old(fates) == [] then old(fates) else old(fates)[1..]
    {
      if c == 0 || (more && payload == []) { return BC.ErrProtocol; }
      err := BC.NoError;
      if fates != [] { err, fates := fates[0], fates[1..]; }
      if err == BC.NoError { sent := sent + [Fragment(kind, c, payload, more)]; }
    }

    method Cancel(kind: u32, c: u64)
      modifies this`cancels
      ensures cancels == old(cancels) + [(kind, c)]
    {
      cancels := cancels + [(kind, c)];
    }

    method Poll() returns (p: Polled)
      requires inbox != []
      modifies this`inbox
      ensures p == old(inbox)[0] && inbox == old(inbox)[1..]
    {
      p, inbox := inbox[0], inbox[1..];
    }
  }

  class ModuleCaller {
    const bus: CallerBus
    const responseLimit: u32 := MC.MAX_BODY
    var correlation: u64

    constructor (bus: CallerBus)
      ensures this.bus == bus && correlation == 0
    {
      this.bus, correlation := bus, 0;
    }

    function View(): Line
      reads this, bus
    {
      Line(correlation, bus.fates, bus.inbox, bus.sent, bus.cancels)
    }

    /** Encodes one fragment into the reused buffer. */
    method BuildFrame(frame: array<byte>, message: MC.Message, part: seq<byte>) returns (ok: bool, payload: seq<byte>)
      requires MC.HEADER_LEN + |part| <= frame.Length
      modifies frame
      ensures ok <==> MC.Valid(message)
      ensures ok ==> payload == MC.Bytes(message) + part
    {
      hide MC.Bytes, And, LE, MC.Valid;
      payload := [];
      ok := MC.Encode(message, frame);
      if !ok { return; }
      ghost var header := frame[..];
      Copy(frame, MC.HEADER_LEN, part);
      SplicedFrame(header, frame[..], MC.Bytes(message), part);
      payload := frame[..MC.HEADER_LEN + |part|];
    }

    /** Fragments the request: it sends a prefix of the request train, all of it exactly when it reports
        success, and gives up at the first refusal. */
    method Send(kind: u32, stage: u32, trace: u64, c: u64, deadlineNs: u64, request: seq<byte>)
          returns (r: SendResult, n: nat)
      modifies bus`sent, bus`fates
      ensures bus.inlineBudget <= MC.HEADER_LEN ==> r == NotSent(RuntimeError) && n == 0 && bus.sent == old(bus.sent)
      ensures bus.inlineBudget > MC.HEADER_LEN ==>
                var t := RequestTrain(bus.inlineBudget, kind, c, stage, deadlineNs, trace, request);
                n <= |t| && bus.sent == old(bus.sent) + t[..n] && (r == Sent <==> n == |t|)
      ensures (r, n, bus.fates) == SendOf(bus.inlineBudget, c, stage, request, old(bus.fates))
    {
      hide MC.Bytes, And, LE, Chunks, RequestTrain, MC.Valid, SendsOf, Shifted, Cutting;
      var budget := bus.inlineBudget;
      if budget <= MC.HEADER_LEN { return NotSent(RuntimeError), 0; }
      var chunk := budget - MC.HEADER_LEN;
      var frame := new byte[budget];
      var first, offset := true, 0;
      n := 0;
      ghost var t := RequestTrain(budget, kind, c, stage, deadlineNs, trace, request);
      ghost var parts := Chunks(request, chunk);
      TrainLength(budget, kind, c, stage, deadlineNs, trace, request);
      CutStart(request, chunk);
      NoShift(|t|, bus.fates);
      while first || offset < |request|
        invariant 0 <= offset <= |request| && n <= |t| && |t| == |parts| && (first <==> n == 0)
        invariant first ==> offset == 0
        invariant Cutting(request, chunk, parts, n, offset, first)
        invariant bus.sent == old(bus.sent) + t[..n]
        invariant n == 0 ==> bus.fates == old(bus.fates)
        invariant n > 0 ==> stage != 0 && Min(|request|, chunk) <= MC.MAX_BODY && c != 0
        invariant Shifted(SendsOf(|t| - n, bus.fates), n) == SendsOf(|t|, old(bus.fates))
        invariant fresh(frame)
        decreases if first then 1 else 0, |request| - offset
      {
        Cut(request, chunk, parts, n, offset, first);
        first := false;
        var part := |request| - offset;
        if part > chunk { part := chunk; }
        var more := offset + part < |request|;
        var message := InvokeHeader(stage, deadlineNs, trace).(bodyLen := part);
        var ok, payload := BuildFrame(frame, message, request[offset..offset + part]);
        InvalidInvoke(message);
        if !ok { return NotSent(MessageError), n; }
        TrainAt(budget, kind, c, stage, deadlineNs, trace, request, n);
        NextSend(|t| - n, bus.fates, n);
        var err := bus.RequestFragment(kind, c, payload, more);
        if err != BC.NoError { return NotSent(BusError(err)), n; }
        assert t[..n + 1] == t[..n] + [t[n]];
        n := n + 1;
        offset := offset + part;
      }
      CutEnd(request, chunk, parts, n, offset);
      NextSend(0, bus.fates, n);
      r := Sent;
    }

    /** Consumes the bus until this call is answered. The answer is the one the script determines; the polls
        consumed are a prefix of the script, all of it only while still waiting. */
    method AwaitReply(kind: u32, c: u64, expires: bool) returns (answer: Answer)
      modifies bus`inbox
      ensures answer == Await(old(bus.inbox), kind, c, expires, responseLimit, [])
      ensures bus.inbox == AwaitRest(old(bus.inbox), kind, c, expires, responseLimit, [])
    {
      hide MC.Decode, FC.Has, Control, Reply, Await, AwaitRest, Used;
      NothingUsed(kind, c, expires, responseLimit, []);
      var body: seq<byte> := [];
      ghost var script := bus.inbox;
      ghost var n := 0;
      while bus.inbox != []
        invariant n <= |script| && bus.inbox == script[n..]
        invariant Await(bus.inbox, kind, c, expires, responseLimit, body)
                  == Await(script, kind, c, expires, responseLimit, [])
        invariant AwaitRest(bus.inbox, kind, c, expires, responseLimit, body)
                  == AwaitRest(script, kind, c, expires, responseLimit, [])
        decreases |bus.inbox|
      {
        n := n + 1;
        AwaitStep(bus.inbox, kind, c, expires, responseLimit, body);
        var p := bus.Poll();
        match p {
          case Failed => return Fails(PollError);
          case Nothing(contextDone, expired) =>
            if contextDone { return Fails(Cancelled); }
            if expires && expired { return Fails(DeadlineExceeded); }
          case Received(event) =>
            if event.frame.correlationId == c {
              if event.frame.eventKind == FC.KIND_CAPABILITY_ABSENT {
                OneControl(event, c);
                return Fails(CapabilityAbsent);
              }
              if event.frame.eventKind == FC.KIND_ERROR { OneControl(event, c); return Fails(RejectedByHost); }
            }
            NoControl(event, kind, c);
            if event.frame.eventKind != kind || event.frame.correlationId != c { continue; }
            var d := MC.Decode(event.payload);
            if d.Rejected? || d.message.operation != MC.OP_RESULT { continue; }
            if d.message.status != MC.STATUS_OK { return Fails(BadStatus(d.message.status)); }
            var end := MC.HEADER_LEN + d.message.bodyLen;
            if end > |event.payload| { return Fails(RuntimeError); }
            if (|body| % TWO32 + d.message.bodyLen) % TWO32 > responseLimit { return Fails(RuntimeError); }
            body := body + event.payload[MC.HEADER_LEN..end];
            if FC.Has(event.frame.hdrFlags, FC.F_MORE) { continue; }
            return Body(body);
        }
      }
      NothingUsed(kind, c, expires, responseLimit, body);
      return Waiting;
    }

    /** One call. It takes the next correlation, sends, awaits, and issues exactly one cancellation, for its
        own kind and correlation, when awaiting failed; none when sending failed or the call succeeded. */
    method Call(kind: u32, stage: u32, trace: u64, deadline: int, now: u64, request: seq<byte>) returns (answer: Answer)
      modifies this`correlation, bus`sent, bus`fates, bus`inbox, bus`cancels
      ensures var (line, outcome) := Place(bus.inlineBudget, old(View()),
              Ask(kind, stage, trace, deadline, now, request));
        View() == line && answer == outcome.answer
      ensures bus.inlineBudget <= MC.HEADER_LEN ==>
                answer.Fails? && bus.sent == old(bus.sent) && bus.inbox == old(bus.inbox)
                  && bus.cancels == old(bus.cancels)
      ensures |bus.cancels| <= |old(bus.cancels)| + 1
    {
      hide Await, AwaitRest, RequestTrain, MC.Bytes, SendOf, Used;
      if |request| % TWO32 > MC.MAX_BODY { return Fails(ConfigError); }
      correlation := (correlation + 1) % TWO64;
      var c := correlation;
      var r, n := Send(kind, stage, trace, c, DeadlineOf(deadline, now), request);
      if r.NotSent? { return Fails(r.failure); }
      answer := AwaitReply(kind, c, deadline > 0);
      if answer.Fails? { bus.Cancel(kind, c); }
    }

    /** Calls in turn, up to one that is still waiting when the script ends. */
    method CallAll(asks: seq<Ask>) returns (answers: seq<Answer>)
      modifies this`correlation, bus`sent, bus`fates, bus`inbox, bus`cancels
      ensures var (line, outcomes) := Session(bus.inlineBudget, old(View()), asks);
        View() == line && Answers(answers, outcomes)
    {
      hide Place, Session;
      answers := [];
      ghost var outcomes, line0 := [], View();
      var i := 0;
      SessionStarts(bus.inlineBudget, line0, asks);
      while i < |asks|
        invariant 0 <= i <= |asks| && Answers(answers, outcomes)
        invariant Resumed(outcomes, Session(bus.inlineBudget, View(), asks[i..]))
                  == Session(bus.inlineBudget, line0, asks)
      {
        var ask := asks[i];
        SessionStep(bus.inlineBudget, View(), asks, i, outcomes);
        outcomes := outcomes + [Place(bus.inlineBudget, View(), ask).1];
        var answer := Call(ask.kind, ask.stage, ask.trace, ask.deadline, ask.now, ask.request);
        answers := answers + [answer];
        i := i + 1;
        if answer.Waiting? { return; }
      }
      SessionEnds(bus.inlineBudget, View(), asks, outcomes);
    }
  }

  function Resumed(before: seq<Outcome>, r: (Line, seq<Outcome>)): (Line, seq<Outcome>) { (r.0, before + r.1) }

  lemma SessionStarts(budget: u32, line: Line, asks: seq<Ask>)
    ensures Resumed([], Session(budget, line, asks[0..])) == Session(budget, line, asks)
  {
    hide Place, Session;
    assert asks[0..] == asks;
    assert [] + Session(budget, line, asks).1 == Session(budget, line, asks).1;
  }

  lemma SessionStep(budget: u32, line: Line, asks: seq<Ask>, i: nat, before: seq<Outcome>)
    requires i < |asks|
    ensures var (line1, outcome) := Place(budget, line, asks[i]);
      Resumed(before, Session(budget, line, asks[i..])) ==
      if outcome.answer.Waiting? then (line1, before + [outcome])
      else Resumed(before + [outcome], Session(budget, line1, asks[i + 1..]))
  {
    hide Place;
    var (line1, outcome) := Place(budget, line, asks[i]);
    assert asks[i..][0] == asks[i] && asks[i..][1..] == asks[i + 1..];
    var more := Session(budget, line1, asks[i + 1..]).1;
    assert before + ([outcome] + more) == before + [outcome] + more;
  }

  lemma SessionEnds(budget: u32, line: Line, asks: seq<Ask>, before: seq<Outcome>)
    ensures Resumed(before, Session(budget, line, asks[|asks|..])) == (line, before)
  {
    assert asks[|asks|..] == [];
    var none: seq<Outcome> := [];
    assert before + none == before;
  }

  ghost predicate Answers(answers: seq<Answer>, outcomes: seq<Outcome>) {
    |answers| == |outcomes| && forall i :: 0 <= i < |answers| ==> answers[i] == outcomes[i].answer
  }

  function Shifted(r: (nat, BC.Err, seq<BC.Err>), n: nat): (nat, BC.Err, seq<BC.Err>) { (r.0 + n, r.1, r.2) }

  lemma NoShift(k: nat, fates: seq<BC.Err>)
    ensures Shifted(SendsOf(k, fates), 0) == SendsOf(k, fates)
  {}

  lemma NextSend(k: nat, fates: seq<BC.Err>, n: nat)
    ensures k == 0 ==> Shifted(SendsOf(k, fates), n) == (n, BC.NoError, fates)
    ensures k > 0 && fates == [] ==> Shifted(SendsOf(k, fates), n) == Shifted(SendsOf(k - 1, []), n + 1)
    ensures k > 0 && fates != [] ==>
              Shifted(SendsOf(k, fates), n) ==
              if fates[0] != BC.NoError then (n, fates[0], fates[1..]) else Shifted(SendsOf(k - 1, fates[1..]), n + 1)
  {}

  /** `n` pieces of the body are cut off, and `offset` is where the rest begins. */
  ghost predicate Cutting(body: seq<byte>, chunk: nat, parts: seq<seq<byte>>, n: nat, offset: nat, first: bool) {
    && chunk > 0 && offset <= |body| && n <= |parts| && (first ==> offset == 0)
    && if first || offset < |body| then n < |parts| && parts[n..] == Chunks(body[offset..], chunk) else n == |parts|
  }

  lemma CutStart(body: seq<byte>, chunk: nat)
    requires chunk > 0
    ensures Cutting(body, chunk, Chunks(body, chunk), 0, 0, true)
  {
    hide Chunks;
    assert body[0..] == body;
  }

  lemma CutEnd(body: seq<byte>, chunk: nat, parts: seq<seq<byte>>, n: nat, offset: nat)
    requires Cutting(body, chunk, parts, n, offset, false) && offset >= |body|
    ensures n == |parts|
  {}

  /** Cutting the next piece off the rest of a body. */
  lemma Cut(body: seq<byte>, chunk: nat, parts: seq<seq<byte>>, n: nat, offset: nat, first: bool)
    requires Cutting(body, chunk, parts, n, offset, first) && (first || offset < |body|)
    ensures n < |parts| && offset <= |body|
    ensures var part := Min(|body| - offset, chunk);
      parts[n] == body[offset..offset + part] && (offset + part < |body| <==> n + 1 < |parts|)
      && Cutting(body, chunk, parts, n + 1, offset + part, false)
  {
    var rest := body[offset..];
    assert parts[n] == parts[n..][0] && parts[n + 1..] == parts[n..][1..];
    if |rest| > chunk {
      assert rest[chunk..] == body[offset + chunk..] && rest[..chunk] == body[offset..offset + chunk];
    }
  }

  lemma TrainAt(budget: u32, kind: u32, c: u64, stage: u32, deadlineNs: u64, trace: u64, request: seq<byte>, n: nat)
    requires budget > MC.HEADER_LEN && n < |Chunks(request, budget - MC.HEADER_LEN)|
    ensures var t, parts := RequestTrain(budget, kind, c, stage, deadlineNs, trace, request),
            Chunks(request, budget - MC.HEADER_LEN);
      |t| == |parts| && |parts[n]| < TWO32
      && t[n] == Fragment(kind, c, MC.Bytes(InvokeHeader(stage, deadlineNs, trace).(bodyLen := |parts[n]|)) + parts[n],
         n + 1 < |parts|)
  {
    hide MC.Bytes;
    ChunkShape(request, budget - MC.HEADER_LEN);
  }

  lemma TrainLength(budget: u32, kind: u32, c: u64, stage: u32, deadlineNs: u64, trace: u64, request: seq<byte>)
    requires budget > MC.HEADER_LEN
    ensures |RequestTrain(budget, kind, c, stage, deadlineNs, trace, request)|
            == |Chunks(request, budget - MC.HEADER_LEN)|
  {
    hide MC.Bytes;
  }

  /** An invocation is encodable unless its stage is 0 or its piece exceeds the body limit. */
  lemma InvalidInvoke(m: MC.Message)
    requires m.operation == MC.OP_INVOKE && m.status == MC.STATUS_OK && m.flags == 0
    ensures MC.Valid(m) <==> m.stageId != 0 && m.bodyLen <= MC.MAX_BODY
  {}

  lemma SplicedFrame(header: seq<byte>, frame: seq<byte>, bytes: seq<byte>, part: seq<byte>)
    requires MC.HEADER_LEN + |part| <= |header| && |bytes| == MC.HEADER_LEN
    requires header[..MC.HEADER_LEN] == bytes && frame == Splice(header, MC.HEADER_LEN, part)
    ensures |frame| == |header| && frame[..MC.HEADER_LEN + |part|] == bytes + part
  {}

  lemma OneControl(e: BC.Event, c: u64)
    requires e.frame.correlationId == c
    ensures Control(e, c) <==> e.frame.eventKind == FC.KIND_CAPABILITY_ABSENT || e.frame.eventKind == FC.KIND_ERROR
  {}

  lemma NoControl(e: BC.Event, kind: u32, c: u64)
    ensures Control(e, c) <==> e.frame.correlationId == c
                               && (e.frame.eventKind == FC.KIND_CAPABILITY_ABSENT || e.frame.eventKind == FC.KIND_ERROR)
    ensures Reply(e, kind, c) <==> e.frame.eventKind == kind && e.frame.correlationId == c
                                   && MC.Decode(e.payload).Decoded?
                                      && MC.Decode(e.payload).message.operation == MC.OP_RESULT
  {
    hide MC.Decode;
  }
}
