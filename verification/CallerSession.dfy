/** Successive calls on one caller (server-go/bus/module_caller.go): whatever earlier ones left behind, a call is
    answered from its own correlation only. `CallerLoops.ModuleCaller.CallAll` runs such a session. */
module CallerSession {
  import opened Words
  import MC = ModuleCodec
  import opened Fragments
  import opened Caller

  /** The polls the calls of a session consumed, call after call. */
  function Polls(outcomes: seq<Outcome>): seq<Polled> {
    if outcomes == [] then [] else outcomes[0].polls + Polls(outcomes[1..])
  }

  /** One cancellation for every call that failed while awaiting. */
  function Cancels(asks: seq<Ask>, outcomes: seq<Outcome>): seq<(u32, u64)>
    requires |outcomes| <= |asks|
  {
    if outcomes == [] then []
    else
      (if outcomes[0].awaited && outcomes[0].answer.Fails? then [(asks[0].kind, outcomes[0].correlation)] else [])
      + Cancels(asks[1..], outcomes[1..])
  }

  /** How many of the calls took a correlation. */
  function Takers(outcomes: seq<Outcome>): nat {
    if outcomes == [] then 0 else (if outcomes[0].taken then 1 else 0) + Takers(outcomes[1..])
  }

  /** A returned body is the result fragments of the call's own kind and correlation among the polls it consumed. */
  ghost predicate OwnBytes(ask: Ask, outcome: Outcome) {
    outcome.answer.Body? ==>
      outcome.awaited && outcome.taken
        && outcome.answer.bytes == ReplyBytes(outcome.polls, ask.kind, outcome.correlation)
  }

  lemma PlaceFacts(budget: u32, line: Line, ask: Ask)
    ensures var (line1, o) := Place(budget, line, ask);
      && OwnBytes(ask, o)
      && o.polls + line1.inbox == line.inbox
      && line1.cancels == line.cancels + (if o.awaited && o.answer.Fails? then [(ask.kind, o.correlation)] else [])
      && line1.correlation == (line.correlation + (if o.taken then 1 else 0)) % TWO64
      && (o.taken ==> o.correlation == line1.correlation)
  {
    hide Await, AwaitRest, Used, ReplyBytes, RequestTrain, SendOf;
    ModUnique(line.correlation, TWO64, 0, line.correlation);
    if |ask.request| % TWO32 <= MC.MAX_BODY {
      var c := (line.correlation + 1) % TWO64;
      UsedAndRest(line.inbox, ask.kind, c, ask.deadline > 0, MC.MAX_BODY, []);
      if Await(line.inbox, ask.kind, c, ask.deadline > 0, MC.MAX_BODY, []).Body? {
        AnswerIsOwnBytes(line.inbox, ask.kind, c, ask.deadline > 0, MC.MAX_BODY, []);
      }
    }
  }

  lemma {:induction false} SessionAccounts(budget: u32, line: Line, asks: seq<Ask>)
    ensures var (line', outcomes) := Session(budget, line, asks);
      && Polls(outcomes) + line'.inbox == line.inbox
      && line'.cancels == line.cancels + Cancels(asks, outcomes)
      && line'.correlation == (line.correlation + Takers(outcomes)) % TWO64
    decreases |asks|
  {
    hide Place, Session, Polls, Cancels, Takers;
    NoOutcomes(asks);
    SessionCons(budget, line, asks);
    if asks == [] {
      ModUnique(line.correlation, TWO64, 0, line.correlation);
    } else {
      var (line1, o) := Place(budget, line, asks[0]);
      PlaceFacts(budget, line, asks[0]);
      if o.answer.Waiting? {
        MoreOutcomes(asks, o, []);
        NoOutcomes(asks[1..]);
        assert [o] + [] == [o];
      } else {
        SessionAccounts(budget, line1, asks[1..]);
        var more := Session(budget, line1, asks[1..]).1;
        MoreOutcomes(asks, o, more);
        NextCount(line.correlation, if o.taken then 1 else 0, Takers(more));
      }
    }
  }

  lemma SessionCons(budget: u32, line: Line, asks: seq<Ask>)
    ensures asks == [] ==> Session(budget, line, asks) == (line, [])
    ensures asks != [] ==>
              var (line1, o) := Place(budget, line, asks[0]);
              Session(budget, line, asks) ==
              if o.answer.Waiting? then (line1, [o])
              else (Session(budget, line1, asks[1..]).0, [o] + Session(budget, line1, asks[1..]).1)
  {
    hide Place;
  }

  lemma NoOutcomes(asks: seq<Ask>)
    ensures Polls([]) == [] && Takers([]) == 0 && Cancels(asks, []) == []
  {}

  lemma MoreOutcomes(asks: seq<Ask>, o: Outcome, more: seq<Outcome>)
    requires |more| < |asks|
    ensures Polls([o] + more) == o.polls + Polls(more)
    ensures Takers([o] + more) == (if o.taken then 1 else 0) + Takers(more)
    ensures Cancels(asks, [o] + more) ==
            (if o.awaited && o.answer.Fails? then [(asks[0].kind, o.correlation)] else []) + Cancels(asks[1..], more)
  {
    assert ([o] + more)[1..] == more;
  }

  lemma NextCount(x: nat, a: nat, b: nat)
    ensures ((x + a) % TWO64 + b) % TWO64 == (x + (a + b)) % TWO64
  {
    var q, m := (x + a) / TWO64, (x + a) % TWO64;
    var d := (m + b) / TWO64;
    assert x + a + b == TWO64 * (q + d) + (m + b) % TWO64;
    ModUnique(x + a + b, TWO64, q + d, (m + b) % TWO64);
  }

  /** The session up to its `i`-th call, and that call. */
  lemma {:induction false} OutcomeAt(budget: u32, line: Line, asks: seq<Ask>, i: nat) returns (before: Line)
    requires i < |Session(budget, line, asks).1|
    ensures i < |asks| && Session(budget, line, asks).1[i] == Place(budget, before, asks[i]).1
    ensures before.correlation == (line.correlation + Takers(Session(budget, line, asks).1[..i])) % TWO64
    decreases |asks|
  {
    hide Place, Session, Takers;
    SessionCons(budget, line, asks);
    var (line1, o) := Place(budget, line, asks[0]);
    var outcomes := Session(budget, line, asks).1;
    NoOutcomes([]);
    if i == 0 {
      before := line;
      ModUnique(line.correlation, TWO64, 0, line.correlation);
    } else {
      PlaceFacts(budget, line, asks[0]);
      before := OutcomeAt(budget, line1, asks[1..], i - 1);
      var more := Session(budget, line1, asks[1..]).1;
      TakersCons(outcomes, o, more, i);
      NextCount(line.correlation, if o.taken then 1 else 0, Takers(more[..i - 1]));
    }
  }

  lemma TakersCons(outcomes: seq<Outcome>, o: Outcome, more: seq<Outcome>, i: nat)
    requires outcomes == [o] + more && 0 < i <= |outcomes|
    ensures Takers(outcomes[..i]) == (if o.taken then 1 else 0) + Takers(more[..i - 1])
  {
    assert outcomes[..i][1..] == more[..i - 1] && outcomes[..i][0] == o;
  }

  lemma {:induction false} TakersBounds(outcomes: seq<Outcome>, i: nat, j: nat)
    requires i < j <= |outcomes|
    ensures Takers(outcomes[..i]) + (if outcomes[i].taken then 1 else 0)
            <= Takers(outcomes[..j])
            <= Takers(outcomes[..i]) + (j - i)
  {
    if i > 0 {
      assert outcomes[..i][1..] == outcomes[1..][..i - 1] && outcomes[..j][1..] == outcomes[1..][..j - 1];
      TakersBounds(outcomes[1..], i - 1, j - 1);
    } else {
      assert outcomes[..j][1..] == outcomes[1..][..j - 1];
      TakersAtMost(outcomes[1..][..j - 1]);
    }
  }

  lemma {:induction false} TakersAtMost(outcomes: seq<Outcome>)
    ensures Takers(outcomes) <= |outcomes|
  {
    if outcomes != [] { TakersAtMost(outcomes[1..]); }
  }

  /** Two calls of a session use different correlations. */
  lemma CorrelationsDiffer(budget: u32, line: Line, asks: seq<Ask>, i: nat, j: nat)
    requires |asks| <= TWO64
    requires var outcomes := Session(budget, line, asks).1;
      i < j < |outcomes| && outcomes[i].taken && outcomes[j].taken
    ensures Session(budget, line, asks).1[i].correlation != Session(budget, line, asks).1[j].correlation
  {
    hide Place, Session;
    var outcomes := Session(budget, line, asks).1;
    var bi := OutcomeAt(budget, line, asks, i);
    var bj := OutcomeAt(budget, line, asks, j);
    PlaceFacts(budget, bi, asks[i]);
    PlaceFacts(budget, bj, asks[j]);
    var ti, tj := Takers(outcomes[..i]), Takers(outcomes[..j]);
    NextCount(line.correlation, ti, 1);
    NextCount(line.correlation, tj, 1);
    TakersBounds(outcomes, i, j);
    DistinctSlots(line.correlation + ti + 1, line.correlation + tj + 1, TWO64);
  }

  /** No cross-talk. On one caller, for up to 2^64 calls and whatever the bus holds, stale replies, partial trains and
      control frames of earlier calls included: the correlations are pairwise distinct; every returned body is made of
      the result fragments of its own kind and correlation among the polls its call consumed; each poll is consumed by
      one call, in order; and there is exactly one cancellation, of its own kind and correlation, for every call that
      failed while awaiting, and no other. */
  lemma NoCrossTalk(budget: u32, line: Line, asks: seq<Ask>)
    requires |asks| <= TWO64
    ensures var (line', outcomes) := Session(budget, line, asks);
      && (forall i, j :: 0 <= i < j < |outcomes| && outcomes[i].taken && outcomes[j].taken ==>
            outcomes[i].correlation != outcomes[j].correlation)
      && (forall i :: 0 <= i < |outcomes| ==> OwnBytes(asks[i], outcomes[i]))
      && Polls(outcomes) + line'.inbox == line.inbox
      && line'.cancels == line.cancels + Cancels(asks, outcomes)
  {
    hide Place, Session, OwnBytes, Polls, Cancels;
    var outcomes := Session(budget, line, asks).1;
    SessionAccounts(budget, line, asks);
    forall i, j | 0 <= i < j < |outcomes| && outcomes[i].taken && outcomes[j].taken
      ensures outcomes[i].correlation != outcomes[j].correlation
    {
      CorrelationsDiffer(budget, line, asks, i, j);
    }
    forall i | 0 <= i < |outcomes| ensures OwnBytes(asks[i], outcomes[i]) {
      var before := OutcomeAt(budget, line, asks, i);
      PlaceFacts(budget, before, asks[i]);
    }
  }

  /** A call goes ahead exactly when the length of its request, cut to 32 bits, is within the limit. */
  lemma GuardIsModular(budget: u32, line: Line, ask: Ask)
    ensures Place(budget, line, ask).1.taken <==> |ask.request| % TWO32 <= MC.MAX_BODY
  {
    hide Await, AwaitRest, Used, SendOf, TrainOf;
  }

  /** The guard on the size of a request looks at its length modulo 2^32: one of 2^32 bytes passes it, and on a bus
      that takes everything the whole of it is sent, although the limit is 16 MiB. */
  lemma LongRequestPasses(budget: u32, line: Line, ask: Ask)
    requires |ask.request| == TWO32 && MC.HEADER_LEN < budget <= MC.MAX_BODY && ask.stage != 0
    requires line.fates == [] && line.correlation + 1 < TWO64
    ensures |ask.request| > MC.MAX_BODY
    ensures var (line', o) := Place(budget, line, ask);
      o.taken && o.awaited && line'.sent == line.sent + TrainOf(budget, o.correlation, ask)
  {
    hide Await, AwaitRest, Used, RequestTrain, TrainOf, Chunks;
    ModUnique(TWO32, TWO32, 1, 0);
    ModUnique(line.correlation + 1, TWO64, 0, line.correlation + 1);
    var t := TrainOf(budget, line.correlation + 1, ask);
    assert t[..|t|] == t;
  }
}
