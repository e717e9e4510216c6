/** Calling a module stage (server-go/bus/module_caller.go). The bus a caller owns is scripted: `inbox`
    is what successive polls return and `fates` what successive sends return. */
module Caller {
  import opened Words
  import FC = FrameCodec
  import MC = ModuleCodec
  import BC = BusClient
  import opened Fragments

  /** One poll: an error, nothing (with what the clock and the context then say), or an event. */
  datatype Polled = Failed | Nothing(contextDone: bool, expired: bool) | Received(event: BC.Event)

  datatype Failure =
    | ConfigError | RuntimeError | MessageError | BusError(err: BC.Err) | PollError
    | Cancelled | DeadlineExceeded | CapabilityAbsent | RejectedByHost | BadStatus(status: u16)

  /** `Waiting` means the script ended before the call did. */
  datatype Answer = Body(bytes: seq<byte>) | Fails(failure: Failure) | Waiting

  function InvokeHeader(stage: u32, deadlineNs: u64, trace: u64): MC.Message {
    MC.Message(MC.OP_INVOKE, MC.STATUS_OK, stage, 0, 0, deadlineNs, trace)
  }

  /** The fragments of one request. */
  function RequestTrain(budget: u32, kind: u32, c: u64, stage: u32, deadlineNs: u64, trace: u64, request: seq<byte>)
      : (t: seq<Fragment>)
    requires budget > MC.HEADER_LEN
    ensures |t| == |Chunks(request, budget - MC.HEADER_LEN)|
  {
    Train(kind, c, InvokeHeader(stage, deadlineNs, trace), request, budget - MC.HEADER_LEN)
  }

  // ------------------------------------------------------------ awaiting a reply

  /** A control frame of the host for this correlation. */
  predicate Control(e: BC.Event, c: u64) {
    e.frame.correlationId == c && (e.frame.eventKind == FC.KIND_CAPABILITY_ABSENT || e.frame.eventKind == FC.KIND_ERROR)
  }

  /** A result fragment of this call. */
  predicate Reply(e: BC.Event, kind: u32, c: u64) {
    e.frame.eventKind == kind && e.frame.correlationId == c
    && MC.Decode(e.payload).Decoded? && MC.Decode(e.payload).message.operation == MC.OP_RESULT
  }

  /** What a call looks at; everything else on the bus is skipped. */
  predicate Own(p: Polled, kind: u32, c: u64, expires: bool) {
    match p
    case Failed => true
    case Nothing(contextDone, expired) => contextDone || (expires && expired)
    case Received(e) => Control(e, c) || Reply(e, kind, c)
  }

  /** The reaction to one poll that is the call's own: an answer, or the body so far. */
  function React(p: Polled, kind: u32, c: u64, limit: u32, body: seq<byte>): (Answer, seq<byte>) {
    match p
    case Failed => (Fails(PollError), body)
    case Nothing(contextDone, _) => (Fails(if contextDone then Cancelled else DeadlineExceeded), body)
    case Received(e) =>
      if Control(e, c) then
        (Fails(if e.frame.eventKind == FC.KIND_CAPABILITY_ABSENT then CapabilityAbsent else RejectedByHost), body)
      else
        var d := MC.Decode(e.payload);
        if d.Rejected? then (Waiting, body)
        else if d.message.status != MC.STATUS_OK then (Fails(BadStatus(d.message.status)), body)
        else if MC.HEADER_LEN + d.message.bodyLen > |e.payload| then (Fails(RuntimeError), body)
        else if (|body| % TWO32 + d.message.bodyLen) % TWO32 > limit then (Fails(RuntimeError), body)
        else
          var whole := body + e.payload[MC.HEADER_LEN..MC.HEADER_LEN + d.message.bodyLen];
          (if FC.Has(e.frame.hdrFlags, FC.F_MORE) then Waiting else Body(whole), whole)
  }

  /** `awaitReply` over a script of polls. */
  function Await(inbox: seq<Polled>, kind: u32, c: u64, expires: bool, limit: u32, body: seq<byte>): Answer {
    if inbox == [] then Waiting
    else if !Own(inbox[0], kind, c, expires) then Await(inbox[1..], kind, c, expires, limit, body)
    else
      var (answer, whole) := React(inbox[0], kind, c, limit, body);
      if answer.Waiting? then Await(inbox[1..], kind, c, expires, limit, whole) else answer
  }

  /** What `awaitReply` leaves of the script. */
  function AwaitRest(inbox: seq<Polled>, kind: u32, c: u64, expires: bool, limit: u32,
      body: seq<byte>): (rest: seq<Polled>)
    ensures |rest| <= |inbox|
  {
    if inbox == [] then []
    else if !Own(inbox[0], kind, c, expires) then AwaitRest(inbox[1..], kind, c, expires, limit, body)
    else
      var (answer, whole) := React(inbox[0], kind, c, limit, body);
      if answer.Waiting? then AwaitRest(inbox[1..], kind, c, expires, limit, whole) else inbox[1..]
  }

  /** The polls it consumes. */
  function Used(inbox: seq<Polled>, kind: u32, c: u64, expires: bool, limit: u32, body: seq<byte>): seq<Polled> {
    inbox[..|inbox| - |AwaitRest(inbox, kind, c, expires, limit, body)|]
  }

  /** What is left of a script once foreign traffic is taken out. */
  function OwnOf(inbox: seq<Polled>, kind: u32, c: u64, expires: bool): (own: seq<Polled>)
    ensures forall p :: p in own ==> p in inbox && Own(p, kind, c, expires)
  {
    if inbox == [] then []
    else if Own(inbox[0], kind, c, expires) then [inbox[0]] + OwnOf(inbox[1..], kind, c, expires)
    else OwnOf(inbox[1..], kind, c, expires)
  }

  /** Stale replies, other calls' trains and unrelated traffic have no influence on the answer: two scripts
      that agree on this call's own polls give the same answer. */
  lemma {:induction false} AwaitDependsOnOwn(inbox: seq<Polled>, kind: u32, c: u64, expires: bool, limit: u32,
      body: seq<byte>)
    ensures Await(inbox, kind, c, expires, limit, body)
            == Await(OwnOf(inbox, kind, c, expires), kind, c, expires, limit, body)
  {
    hide Own, React;
    if inbox != [] {
      var rest := OwnOf(inbox[1..], kind, c, expires);
      if !Own(inbox[0], kind, c, expires) {
        AwaitDependsOnOwn(inbox[1..], kind, c, expires, limit, body);
      } else {
        var (answer, whole) := React(inbox[0], kind, c, limit, body);
        AwaitDependsOnOwn(inbox[1..], kind, c, expires, limit, whole);
        assert ([inbox[0]] + rest)[1..] == rest;
      }
    }
  }

  /** The body bytes of this call's result fragments, in arrival order. */
  function ReplyBytes(inbox: seq<Polled>, kind: u32, c: u64): seq<byte> {
    if inbox == [] then []
    else
      ReplyBytes(inbox[..|inbox| - 1], kind, c) + ReplyPiece(inbox[|inbox| - 1], kind, c)
  }

  function ReplyPiece(p: Polled, kind: u32, c: u64): seq<byte> {
    if p.Received? && Reply(p.event, kind, c) && !Control(p.event, c)
       && MC.HEADER_LEN + MC.Decode(p.event.payload).message.bodyLen <= |p.event.payload|
    then p.event.payload[MC.HEADER_LEN..MC.HEADER_LEN + MC.Decode(p.event.payload).message.bodyLen]
    else []
  }

  lemma OnePiece(p: Polled, kind: u32, c: u64)
    ensures ReplyBytes([p], kind, c) == ReplyPiece(p, kind, c)
  {
    hide ReplyPiece;
    assert [p][..0] == [];
    assert [] + ReplyPiece(p, kind, c) == ReplyPiece(p, kind, c);
  }

  lemma {:induction false} ReplyBytesPrepend(p: Polled, inbox: seq<Polled>, kind: u32, c: u64)
    ensures ReplyBytes([p] + inbox, kind, c) == ReplyBytes([p], kind, c) + ReplyBytes(inbox, kind, c)
  {
    hide ReplyPiece;
    if inbox == [] {
      assert [p] + inbox == [p];
    } else {
      assert ([p] + inbox)[..|inbox|] == [p] + inbox[..|inbox| - 1];
      ReplyBytesPrepend(p, inbox[..|inbox| - 1], kind, c);
    }
  }

  /** One poll of the loop. */
  lemma AwaitStep(inbox: seq<Polled>, kind: u32, c: u64, expires: bool, limit: u32, body: seq<byte>)
    requires inbox != []
    ensures var rest, (answer, whole) := inbox[1..], React(inbox[0], kind, c, limit, body);
      if !Own(inbox[0], kind, c, expires) then
        Await(inbox, kind, c, expires, limit, body) == Await(rest, kind, c, expires, limit, body)
        && AwaitRest(inbox, kind, c, expires, limit, body) == AwaitRest(rest, kind, c, expires, limit, body)
        && Used(inbox, kind, c, expires, limit, body) == [inbox[0]] + Used(rest, kind, c, expires, limit, body)
      else if answer.Waiting? then
        Await(inbox, kind, c, expires, limit, body) == Await(rest, kind, c, expires, limit, whole)
        && AwaitRest(inbox, kind, c, expires, limit, body) == AwaitRest(rest, kind, c, expires, limit, whole)
        && Used(inbox, kind, c, expires, limit, body) == [inbox[0]] + Used(rest, kind, c, expires, limit, whole)
      else
        Await(inbox, kind, c, expires, limit, body) == answer && AwaitRest(inbox, kind, c, expires, limit, body) == rest
        && Used(inbox, kind, c, expires, limit, body) == [inbox[0]]
  {
    hide Own, React, Await, AwaitRest, Used;
    AwaitUnfolds(inbox, kind, c, expires, limit, body);
    var (answer, whole) := React(inbox[0], kind, c, limit, body);
    if !Own(inbox[0], kind, c, expires) {
      UsedLonger(inbox, kind, c, expires, limit, body, body);
    } else if answer.Waiting? {
      UsedLonger(inbox, kind, c, expires, limit, body, whole);
    } else {
      UsedOne(inbox, kind, c, expires, limit, body);
    }
  }

  lemma UsedLonger(inbox: seq<Polled>, kind: u32, c: u64, expires: bool, limit: u32, body: seq<byte>, whole: seq<byte>)
    requires inbox != []
    requires AwaitRest(inbox, kind, c, expires, limit, body) == AwaitRest(inbox[1..], kind, c, expires, limit, whole)
    ensures Used(inbox, kind, c, expires, limit, body)
            == [inbox[0]] + Used(inbox[1..], kind, c, expires, limit, whole)
  {
    hide AwaitRest;
  }

  lemma UsedOne(inbox: seq<Polled>, kind: u32, c: u64, expires: bool, limit: u32, body: seq<byte>)
    requires inbox != [] && AwaitRest(inbox, kind, c, expires, limit, body) == inbox[1..]
    ensures Used(inbox, kind, c, expires, limit, body) == [inbox[0]]
  {
    hide AwaitRest;
  }

  lemma AwaitUnfolds(inbox: seq<Polled>, kind: u32, c: u64, expires: bool, limit: u32, body: seq<byte>)
    requires inbox != []
    ensures var rest, (answer, whole) := inbox[1..], React(inbox[0], kind, c, limit, body);
      var own := Own(inbox[0], kind, c, expires);
      && Await(inbox, kind, c, expires, limit, body) ==
         (if !own then Await(rest, kind, c, expires, limit, body)
          else if answer.Waiting? then Await(rest, kind, c, expires, limit, whole) else answer)
      && AwaitRest(inbox, kind, c, expires, limit, body) ==
         (if !own then AwaitRest(rest, kind, c, expires, limit, body)
          else if answer.Waiting? then AwaitRest(rest, kind, c, expires, limit, whole) else rest)
  {
    hide Own, React;
  }

  /** What is used and what is left are together the script. */
  lemma {:induction false} UsedAndRest(inbox: seq<Polled>, kind: u32, c: u64, expires: bool, limit: u32,
      body: seq<byte>)
    ensures Used(inbox, kind, c, expires, limit, body) + AwaitRest(inbox, kind, c, expires, limit, body) == inbox
  {
    hide Own, React, Used, AwaitRest, Await;
    if inbox == [] {
      NothingUsed(kind, c, expires, limit, body);
    } else {
      AwaitStep(inbox, kind, c, expires, limit, body);
      UsedAndRest(inbox[1..], kind, c, expires, limit, body);
      UsedAndRest(inbox[1..], kind, c, expires, limit, React(inbox[0], kind, c, limit, body).1);
      assert inbox == [inbox[0]] + inbox[1..];
    }
  }

  lemma NothingUsed(kind: u32, c: u64, expires: bool, limit: u32, body: seq<byte>)
    ensures Used([], kind, c, expires, limit, body) == [] == AwaitRest([], kind, c, expires, limit, body)
    ensures Await([], kind, c, expires, limit, body) == Waiting
  {}

  /** A returned body consists of the bytes of the result fragments of this very kind and correlation among the
      polls consumed, all of them, in order. */
  lemma {:induction false} AnswerIsOwnBytes(inbox: seq<Polled>, kind: u32, c: u64, expires: bool, limit: u32,
      body: seq<byte>)
    requires Await(inbox, kind, c, expires, limit, body).Body?
    ensures Await(inbox, kind, c, expires, limit, body).bytes
            == body + ReplyBytes(Used(inbox, kind, c, expires, limit, body), kind, c)
  {
    hide Own, React, ReplyBytes, Used, AwaitRest, Await;
    NothingUsed(kind, c, expires, limit, body);
    var first, rest := inbox[0], inbox[1..];
    AwaitStep(inbox, kind, c, expires, limit, body);
    if !Own(first, kind, c, expires) {
      AnswerIsOwnBytes(rest, kind, c, expires, limit, body);
      ForeignBytes(first, kind, c, expires);
      ReplyBytesPrepend(first, Used(rest, kind, c, expires, limit, body), kind, c);
    } else {
      var (answer, whole) := React(first, kind, c, limit, body);
      ReactBytes(first, kind, c, expires, limit, body);
      if answer.Waiting? {
        AnswerIsOwnBytes(rest, kind, c, expires, limit, whole);
        ReplyBytesPrepend(first, Used(rest, kind, c, expires, limit, whole), kind, c);
      }
    }
  }

  lemma ForeignBytes(p: Polled, kind: u32, c: u64, expires: bool)
    requires !Own(p, kind, c, expires)
    ensures ReplyBytes([p], kind, c) == []
  {
    hide Reply, Control, MC.Decode;
    OnePiece(p, kind, c);
  }

  lemma ReactBytes(p: Polled, kind: u32, c: u64, expires: bool, limit: u32, body: seq<byte>)
    requires Own(p, kind, c, expires) && !React(p, kind, c, limit, body).0.Fails?
    ensures React(p, kind, c, limit, body).1 == body + ReplyBytes([p], kind, c)
    ensures React(p, kind, c, limit, body).0.Body? ==>
            React(p, kind, c, limit, body).0.bytes == React(p, kind, c, limit, body).1
  {
    hide Control, MC.Decode, FC.Has;
    OnePiece(p, kind, c);
    if p.Received? && Reply(p.event, kind, c) {}
  }

  // ------------------------------------------------------------------ a whole reply

  /** `e` is how fragment `f` arrives after any relay that keeps its kind, correlation, pattern, FMore flag
      and payload. */
  ghost predicate Carried(e: BC.Event, f: Fragment, pattern: u16) {
    && FC.Validate(e.frame) == FC.OK
    && e.frame.eventKind == f.kind && e.frame.correlationId == f.correlation && e.payload == f.payload
    && (FC.Has(e.frame.hdrFlags, FC.F_MORE) <==> f.more)
    && FC.Has(e.frame.hdrFlags, pattern)
    && (pattern != FC.F_CANCEL ==> !FC.Has(e.frame.hdrFlags, FC.F_CANCEL))
  }

  /** Events that carry a train, fragment by fragment. */
  ghost predicate CarriedAll(events: seq<BC.Event>, t: seq<Fragment>, pattern: u16) {
    |events| == |t| && forall i :: 0 <= i < |t| ==> Carried(events[i], t[i], pattern)
  }

  /** What `emit` and `Poll` deliver for a fragment carries it. */
  lemma EmittedIsCarried(f: Fragment, pattern: u16, handle: u32)
    requires pattern == FC.F_REQUEST || pattern == FC.F_REPLY
    requires f.correlation != 0 && 0 < |f.payload| <= FC.MAX_PAYLOAD
    ensures Carried(BC.Event(BC.EmitFrame(BC.FragmentFlags(pattern, f.more), f.kind, f.correlation, |f.payload|,
            handle), f.payload), f, pattern)
  {
    hide FC.Validate, And;
    BC.FragmentFrameIsValid(pattern, f.kind, f.correlation, |f.payload|, f.more, handle);
  }

  /** The polls that are a call's own, when they are the events of its reply train. */
  function ReceivedAll(events: seq<BC.Event>): seq<Polled> {
    seq(|events|, i requires 0 <= i < |events| => Received(events[i]))
  }

  /** What a call answers to a whole reply. */
  function AnswerTo(status: u16, body: seq<byte>): Answer {
    if status == MC.STATUS_OK then Body(body) else Fails(BadStatus(status))
  }

  /** Awaiting a whole train returns its body, or fails with its status, for every body within the limit and every
      chunk size, whatever the bus delivers in between and after. */
  lemma AwaitTrain(inbox: seq<Polled>, kind: u32, c: u64, expires: bool, m: MC.Message, body: seq<byte>, chunk: nat,
                   events: seq<BC.Event>, later: seq<Polled>)
    requires 0 < chunk < TWO32 && |body| <= MC.MAX_BODY && kind != FC.KIND_ERROR && kind != FC.KIND_CAPABILITY_ABSENT
    requires m.operation == MC.OP_RESULT && MC.Valid(m)
    requires CarriedAll(events, Train(kind, c, m, body, chunk), FC.F_REPLY)
    requires OwnOf(inbox, kind, c, expires) == ReceivedAll(events) + later
    ensures Await(inbox, kind, c, expires, MC.MAX_BODY, []) == AnswerTo(m.status, body)
  {
    hide Await, OwnOf, Own, Carried, MC.Bytes;
    AwaitDependsOnOwn(inbox, kind, c, expires, MC.MAX_BODY, []);
    JoinOfChunks(body, chunk);
    ChunkShape(body, chunk);
    assert Chunks(body, chunk)[..0] == [];
    AwaitFrom(ReceivedAll(events), later, kind, c, expires, m, body, chunk, events, 0);
    assert ReceivedAll(events)[0..] == ReceivedAll(events);
  }

  /** One fragment of the train: it is the call's own and extends the body by its piece. */
  lemma ReactToFragment(e: BC.Event, kind: u32, c: u64, expires: bool, m: MC.Message, part: seq<byte>, more: bool,
      body: seq<byte>)
    requires kind != FC.KIND_ERROR && kind != FC.KIND_CAPABILITY_ABSENT
    requires m.operation == MC.OP_RESULT && MC.Valid(m)
    requires |body| + |part| <= MC.MAX_BODY && Carried(e, FragmentOf(kind, c, m, part, more), FC.F_REPLY)
    ensures Own(Received(e), kind, c, expires)
    ensures React(Received(e), kind, c, MC.MAX_BODY, body) ==
            if m.status != MC.STATUS_OK then (AnswerTo(m.status, body), body)
            else (if more then Waiting else Body(body + part), body + part)
  {
    hide MC.Decode, FC.Has, FC.Validate, MC.Bytes;
    FragmentReads(kind, c, m, part, more);
    ModUnique(|body|, TWO32, 0, |body|);
    ModUnique(|body| + |part|, TWO32, 0, |body| + |part|);
  }

  lemma {:induction false} AwaitFrom(polls: seq<Polled>, later: seq<Polled>, kind: u32, c: u64, expires: bool,
      m: MC.Message, body: seq<byte>, chunk: nat, events: seq<BC.Event>, i: nat)
    requires 0 < chunk < TWO32 && |body| <= MC.MAX_BODY && kind != FC.KIND_ERROR && kind != FC.KIND_CAPABILITY_ABSENT
    requires m.operation == MC.OP_RESULT && MC.Valid(m)
    requires CarriedAll(events, Train(kind, c, m, body, chunk), FC.F_REPLY) && polls == ReceivedAll(events)
    requires i < |events|
    ensures Await(polls[i..] + later, kind, c, expires, MC.MAX_BODY, Join(Chunks(body, chunk)[..i]))
            == AnswerTo(m.status, body)
    decreases |events| - i
  {
    hide Own, React, MC.Bytes, Carried;
    var parts := Chunks(body, chunk);
    var soFar := Join(parts[..i]);
    JoinOfChunks(body, chunk);
    JoinPrefix(parts, i);
    JoinPrefix(parts, i + 1);
    assert parts[..i + 1][..i] == parts[..i];
    assert Carried(events[i], Train(kind, c, m, body, chunk)[i], FC.F_REPLY);
    ReactToFragment(events[i], kind, c, expires, m, parts[i], i + 1 < |parts|, soFar);
    var rest := polls[i..] + later;
    assert rest[0] == Received(events[i]) && rest[1..] == polls[i + 1..] + later;
    if m.status == MC.STATUS_OK && i + 1 < |parts| {
      AwaitFrom(polls, later, kind, c, expires, m, body, chunk, events, i + 1);
    } else if i + 1 == |parts| {
      assert parts[..i + 1] == parts;
    }
  }

  lemma {:induction false} JoinPrefix(parts: seq<seq<byte>>, i: nat)
    requires i <= |parts|
    ensures |Join(parts[..i])| <= |Join(parts)|
  {
    if i < |parts| {
      assert parts[..|parts| - 1][..i] == parts[..i];
      JoinPrefix(parts[..|parts| - 1], i);
    } else {
      assert parts[..i] == parts;
    }
  }

  // --------------------------------------------------------------- one call after another

  /** A caller and its bus: the last correlation, what will happen to the next sends and polls, and what was sent
      and cancelled. Once `fates` is used up every send succeeds. */
  datatype Line = Line(correlation: u64, fates: seq<BC.Err>, inbox: seq<Polled>, sent: seq<Fragment>,
    cancels: seq<(u32, u64)>)

  /** The arguments of one call, with the clock at its start. */
  datatype Ask = Ask(kind: u32, stage: u32, trace: u64, deadline: int, now: u64, request: seq<byte>)

  datatype SendResult = Sent | NotSent(failure: Failure)

  /** The absolute deadline sent along; the sum is a uint64. */
  function DeadlineOf(deadline: int, now: u64): u64 { if deadline > 0 then (now + deadline) % TWO64 else 0 }

  /** How many of `k` sends succeed before one fails, with what, and what is left of the script. */
  function SendsOf(k: nat, fates: seq<BC.Err>): (r: (nat, BC.Err, seq<BC.Err>))
    ensures r.0 <= k && (r.0 == k <==> r.1 == BC.NoError)
  {
    if k == 0 then (0, BC.NoError, fates)
    else if fates == [] then (k, BC.NoError, [])
    else if fates[0] != BC.NoError then (0, fates[0], fates[1..])
    else
      var (n, err, rest) := SendsOf(k - 1, fates[1..]);
      (n + 1, err, rest)
  }

  /** `send`: its result, how many fragments went out, and the rest of the script. */
  function SendOf(budget: u32, c: u64, stage: u32, request: seq<byte>,
      fates: seq<BC.Err>): (r: (SendResult, nat, seq<BC.Err>))
    ensures budget > MC.HEADER_LEN ==> r.1 <= |Chunks(request, budget - MC.HEADER_LEN)|
    ensures budget <= MC.HEADER_LEN ==> r.0.NotSent?
  {
    if budget <= MC.HEADER_LEN then (NotSent(RuntimeError), 0, fates)
    else if stage == 0 || Min(|request|, budget - MC.HEADER_LEN) > MC.MAX_BODY then (NotSent(MessageError), 0, fates)
    else if c == 0 then (NotSent(BusError(BC.ErrProtocol)), 0, fates)
    else
      var (n, err, rest) := SendsOf(|Chunks(request, budget - MC.HEADER_LEN)|, fates);
      (if err == BC.NoError then Sent else NotSent(BusError(err)), n, rest)
  }

  function TrainOf(budget: u32, c: u64, ask: Ask): (t: seq<Fragment>)
    requires budget > MC.HEADER_LEN
    ensures |t| == |Chunks(ask.request, budget - MC.HEADER_LEN)|
  {
    RequestTrain(budget, ask.kind, c, ask.stage, DeadlineOf(ask.deadline, ask.now), ask.trace, ask.request)
  }

  /** What one call came to: its correlation if it took one, whether it got as far as awaiting, its answer, and the
      polls it consumed. */
  datatype Outcome = Outcome(taken: bool, correlation: u64, awaited: bool, answer: Answer, polls: seq<Polled>)

  /** `Call`. */
  function Place(budget: u32, line: Line, ask: Ask): (Line, Outcome) {
    if |ask.request| % TWO32 > MC.MAX_BODY then (line, Outcome(false, 0, false, Fails(ConfigError), []))
    else
      var c := (line.correlation + 1) % TWO64;
      var (r, n, fates) := SendOf(budget, c, ask.stage, ask.request, line.fates);
      var line1 := line.(correlation := c, fates := fates,
                         sent := if budget > MC.HEADER_LEN then line.sent + TrainOf(budget, c, ask)[..n]
                                 else line.sent);
      if r.NotSent? then (line1, Outcome(true, c, false, Fails(r.failure), []))
      else
        var answer := Await(line.inbox, ask.kind, c, ask.deadline > 0, MC.MAX_BODY, []);
        (line1.(inbox := AwaitRest(line.inbox, ask.kind, c, ask.deadline > 0, MC.MAX_BODY, []),
                cancels := line.cancels + (if answer.Fails? then [(ask.kind, c)] else [])),
         Outcome(true, c, true, answer, Used(line.inbox, ask.kind, c, ask.deadline > 0, MC.MAX_BODY, [])))
  }

  /** Calls in turn on one caller, up to one that still waits when the script ends. */
  function Session(budget: u32, line: Line, asks: seq<Ask>): (r: (Line, seq<Outcome>))
    ensures |r.1| <= |asks|
    decreases |asks|
  {
    if asks == [] then (line, [])
    else
      var (line1, outcome) := Place(budget, line, asks[0]);
      if outcome.answer.Waiting? then (line1, [outcome])
      else
        var (line2, more) := Session(budget, line1, asks[1..]);
        (line2, [outcome] + more)
  }
}
