/** What a call (server-go/bus/module_caller.go) puts on the bus and what each poll means to it, in the numbers on the
    wire. */
module CallerAnswers {
  import opened Words
  import FC = FrameCodec
  import MC = ModuleCodec
  import BC = BusClient
  import opened Fragments
  import opened Caller

  // -------------------------------------------------------------------- what is sent

  /** The fragment is an invocation (1) of the stage asked for, with its trace, with the caller's clock plus the
      deadline as a uint64, or no deadline, and with these bytes behind its header. */
  ghost predicate Invokes(f: Fragment, ask: Ask, c: u64, part: seq<byte>, more: bool) {
    && |part| <= 16_777_216
    && f.kind == ask.kind && f.correlation == c && f.more == more
    && |f.payload| == 40 + |part| && f.payload[40..] == part
    && MC.Decode(f.payload) == MC.Decoded(
         MC.Message(1, 0, ask.stage, 0, |part|,
                    if ask.deadline > 0 then (ask.now + ask.deadline) % 0x1_0000_0000_0000_0000 else 0, ask.trace))
  }

  /** Everything a call adds to the bus: invocations of its own, in order, the first pieces of its request. */
  lemma SentReads(budget: u32, line: Line, ask: Ask)
    requires budget > 40
    ensures var (line', o) := Place(budget, line, ask);
      var parts := Chunks(ask.request, budget - 40);
      var n := |line'.sent| - |line.sent|;
      && line.sent <= line'.sent && n <= |parts| && Join(parts) == ask.request
      && forall i :: 0 <= i < n ==>
           Invokes(line'.sent[|line.sent| + i], ask, o.correlation, parts[i], i + 1 < |parts|)
  {
    hide Chunks, Join, SendOf, Await, AwaitRest, Used, TrainOf, Invokes;
    var (line', o) := Place(budget, line, ask);
    var parts := Chunks(ask.request, budget - 40);
    JoinOfChunks(ask.request, budget - 40);
    var n := |line'.sent| - |line.sent|;
    if o.taken && n > 0 {
      PiecesFit(budget, ask.request, n, o.correlation, ask.stage, line.fates);
      forall i | 0 <= i < n
        ensures Invokes(line'.sent[|line.sent| + i], ask, o.correlation, parts[i], i + 1 < |parts|)
      {
        SentAt(budget, o.correlation, ask, i);
        assert line'.sent[|line.sent| + i] == TrainOf(budget, o.correlation, ask)[i];
      }
    }
  }

  /** A call that sends anything has a stage, and pieces within the body limit. */
  lemma PiecesFit(budget: u32, request: seq<byte>, n: nat, c: u64, stage: u32, fates: seq<BC.Err>)
    requires budget > 40 && 0 < n <= SendOf(budget, c, stage, request, fates).1
    ensures stage != 0
    ensures var parts := Chunks(request, budget - 40); forall i :: 0 <= i < |parts| ==> |parts[i]| <= 16_777_216
  {
    hide SendsOf;
    ChunkShape(request, budget - 40);
  }

  lemma SentAt(budget: u32, c: u64, ask: Ask, i: nat)
    requires budget > 40 && ask.stage != 0 && i < |Chunks(ask.request, budget - 40)|
    requires |Chunks(ask.request, budget - 40)[i]| <= 16_777_216
    ensures var parts := Chunks(ask.request, budget - 40);
      Invokes(TrainOf(budget, c, ask)[i], ask, c, parts[i], i + 1 < |parts|)
  {
    hide MC.Bytes, MC.Decode, Chunks;
    var parts := Chunks(ask.request, budget - 40);
    FragmentReads(ask.kind, c, InvokeHeader(ask.stage, DeadlineOf(ask.deadline, ask.now), ask.trace), parts[i],
                  i + 1 < |parts|);
  }

  /** With a clock that has not run near 2^64 the deadline sent is the instant meant. */
  lemma DeadlineIsInstant(ask: Ask)
    requires ask.now + ask.deadline < 0x1_0000_0000_0000_0000
    ensures ask.deadline > 0 ==> DeadlineOf(ask.deadline, ask.now) == ask.now + ask.deadline
    ensures ask.deadline <= 0 ==> DeadlineOf(ask.deadline, ask.now) == 0
  {
    if ask.deadline > 0 { ModUnique(ask.now + ask.deadline, TWO64, 0, ask.now + ask.deadline); }
  }

  /** When a call fails without awaiting, why, and that nobody is told to stop. */
  lemma SendFailures(budget: u32, line: Line, ask: Ask)
    ensures var (line', o) := Place(budget, line, ask);
      var c := (line.correlation + 1) % 0x1_0000_0000_0000_0000;
      && (|ask.request| % 0x1_0000_0000 > 16_777_216 ==> line' == line && o.answer == Fails(ConfigError) && !o.taken)
      && (|ask.request| % 0x1_0000_0000 <= 16_777_216 ==>
            && o.taken && o.correlation == c == line'.correlation
            && (budget <= 40 ==> o.answer == Fails(RuntimeError) && line'.sent == line.sent)
            && (budget > 40 && (ask.stage == 0 || Min(|ask.request|, budget - 40) > 16_777_216) ==>
                  o.answer == Fails(MessageError) && line'.sent == line.sent)
            && (budget > 40 && ask.stage != 0 && Min(|ask.request|, budget - 40) <= 16_777_216 && c == 0 ==>
                  o.answer == Fails(BusError(BC.ErrProtocol)) && line'.sent == line.sent))
      && (!o.awaited ==> o.answer.Fails? && line'.cancels == line.cancels && line'.inbox == line.inbox)
  {
    hide Await, AwaitRest, Used, SendsOf, Chunks, RequestTrain, MC.Bytes;
    if budget > 40 && |ask.request| % TWO32 <= MC.MAX_BODY {
      var t := TrainOf(budget, (line.correlation + 1) % TWO64, ask);
      assert line.sent + t[..0] == line.sent;
    }
  }

  /** A bus error ends the sending at the fragment that met it. */
  lemma {:induction false} SendsStop(k: nat, fates: seq<BC.Err>)
    ensures var (n, err, rest) := SendsOf(k, fates);
      && n <= k && (err == BC.NoError <==> n == k)
      && (forall i :: 0 <= i < n && i < |fates| ==> fates[i] == BC.NoError)
      && (n < k ==> n < |fates| && fates[n] == err && rest == fates[n + 1..])
      && (n == k ==> rest == fates[Min(k, |fates|)..])
  {
    if k > 0 && fates != [] && fates[0] == BC.NoError {
      SendsStop(k - 1, fates[1..]);
      var (n, err, rest) := SendsOf(k - 1, fates[1..]);
      assert forall i :: 0 <= i < n + 1 && i < |fates| ==>
                           fates[i] == (if i == 0 then BC.NoError else fates[1..][i - 1]);
    }
  }

  // ------------------------------------------------------------------ what is polled

  /** A poll that is no event: an error ends the call; the end of its context goes ahead of its deadline, which counts
      only if one was set; otherwise it goes on polling. */
  lemma NoEvent(inbox: seq<Polled>, kind: u32, c: u64, expires: bool, limit: u32, body: seq<byte>)
    requires inbox != [] && !inbox[0].Received?
    ensures Await(inbox, kind, c, expires, limit, body) ==
            if inbox[0].Failed? then Fails(PollError)
            else if inbox[0].contextDone then Fails(Cancelled)
            else if expires && inbox[0].expired then Fails(DeadlineExceeded)
            else Await(inbox[1..], kind, c, expires, limit, body)
  {}

  /** A control frame of its correlation ends the call, whatever its kind asked for: 4 says that the capability is
      absent, 3 that the host refused. */
  lemma ControlEnds(inbox: seq<Polled>, kind: u32, c: u64, expires: bool, limit: u32, body: seq<byte>)
    requires inbox != [] && inbox[0].Received? && inbox[0].event.frame.correlationId == c
    ensures inbox[0].event.frame.eventKind == 4 ==>
              Await(inbox, kind, c, expires, limit, body) == Fails(CapabilityAbsent)
    ensures inbox[0].event.frame.eventKind == 3 ==>
              Await(inbox, kind, c, expires, limit, body) == Fails(RejectedByHost)
  {
    hide MC.Decode;
  }

  /** What is of another correlation or kind, unreadable, or no result (2), is passed over. */
  lemma ForeignIsPassed(inbox: seq<Polled>, kind: u32, c: u64, expires: bool, limit: u32, body: seq<byte>)
    requires inbox != [] && inbox[0].Received?
    requires var e := inbox[0].event;
      e.frame.correlationId != c
      || (e.frame.eventKind != 3 && e.frame.eventKind != 4
          && (e.frame.eventKind != kind || MC.Decode(e.payload).Rejected?
              || MC.Decode(e.payload).message.operation != 2))
    ensures Await(inbox, kind, c, expires, limit, body) == Await(inbox[1..], kind, c, expires, limit, body)
  {
    hide MC.Decode;
  }

  /** A result of the call: a status other than 0 ends it; so does a body beyond the limit, the sum being a uint32;
      otherwise its bytes are added, and FMore (bit 7) says whether to go on. */
  lemma ResultIsTaken(inbox: seq<Polled>, kind: u32, c: u64, expires: bool, limit: u32, body: seq<byte>, m: MC.Message)
    requires inbox != [] && inbox[0].Received? && kind != 3 && kind != 4
    requires var e := inbox[0].event;
      e.frame.correlationId == c && e.frame.eventKind == kind
      && MC.Decode(e.payload) == MC.Decoded(m) && m.operation == 2
    ensures 40 + m.bodyLen <= |inbox[0].event.payload|
    ensures var e := inbox[0].event;
      var whole := body + e.payload[40..40 + m.bodyLen];
      Await(inbox, kind, c, expires, limit, body) ==
      if m.status != 0 then Fails(BadStatus(m.status))
      else if (|body| % 0x1_0000_0000 + m.bodyLen) % 0x1_0000_0000 > limit then Fails(RuntimeError)
      else if e.frame.hdrFlags / 128 % 2 == 1 then Await(inbox[1..], kind, c, expires, limit, whole)
      else Body(whole)
  {
    DecodedFits(inbox[0].event.payload);
    MoreBit(inbox[0].event.frame.hdrFlags);
    hide MC.Decode, FC.Has;
  }

  lemma DecodedFits(b: seq<byte>)
    ensures MC.Decode(b).Decoded? ==> 40 + MC.Decode(b).message.bodyLen <= |b|
  {}

  lemma MoreBit(h: u16)
    ensures FC.Has(h, FC.F_MORE) <==> h / 128 % 2 == 1
  {
    hide And;
    assert Pow2(7) == 128;
    FC.FlagBit(h, 7);
  }

  /** The end of a script leaves the call waiting. */
  lemma NothingMore(kind: u32, c: u64, expires: bool, limit: u32, body: seq<byte>)
    ensures Await([], kind, c, expires, limit, body) == Waiting
  {}

  /** What a call that got its request out is answered: what its polls come to, under its own correlation, with a body
      of up to 16 MiB, and with an expiry exactly if it has a deadline; without one it never fails of it. */
  lemma AnswerOfPolls(budget: u32, line: Line, ask: Ask)
    ensures var (line', o) := Place(budget, line, ask);
      && (o.awaited ==> o.answer == Await(line.inbox, ask.kind, o.correlation, ask.deadline > 0, 16_777_216, []))
      && (ask.deadline <= 0 ==> o.answer != Fails(DeadlineExceeded))
      && (o.awaited && ask.deadline > 0 && line.inbox != [] && line.inbox[0] == Nothing(false, true) ==>
            o.answer == Fails(DeadlineExceeded))
  {
    hide Await, AwaitRest, Used, SendOf, TrainOf;
    NeverExpires(line.inbox, ask.kind, (line.correlation + 1) % TWO64, 16_777_216, []);
    if line.inbox != [] && line.inbox[0] == Nothing(false, true) {
      NoEvent(line.inbox, ask.kind, (line.correlation + 1) % TWO64, ask.deadline > 0, 16_777_216, []);
    }
    NotOfSending(budget, (line.correlation + 1) % TWO64, ask.stage, ask.request, line.fates);
  }

  lemma NotOfSending(budget: u32, c: u64, stage: u32, request: seq<byte>, fates: seq<BC.Err>)
    ensures SendOf(budget, c, stage, request, fates).0 != NotSent(DeadlineExceeded)
  {
    hide SendsOf, Chunks;
  }

  lemma {:induction false} NeverExpires(inbox: seq<Polled>, kind: u32, c: u64, limit: u32, body: seq<byte>)
    ensures Await(inbox, kind, c, false, limit, body) != Fails(DeadlineExceeded)
  {
    hide React;
    if inbox != [] {
      if Own(inbox[0], kind, c, false) { ReactsOtherwise(inbox[0], kind, c, limit, body); }
      NeverExpires(inbox[1..], kind, c, limit, body);
      NeverExpires(inbox[1..], kind, c, limit, React(inbox[0], kind, c, limit, body).1);
    }
  }

  lemma ReactsOtherwise(p: Polled, kind: u32, c: u64, limit: u32, body: seq<byte>)
    requires Own(p, kind, c, false)
    ensures React(p, kind, c, limit, body).0 != Fails(DeadlineExceeded)
  {
    hide MC.Decode, FC.Has;
  }
}
