/** What the proposal lifecycle achieves when its calls succeed at once: second signals commit, first ones
    wait, acceptance decides, rejection archives. */
module LearningProgress {
  import opened LearningStore
  import opened Options
  import opened LearningRouter
  import LS = LearningSafety

  /** The table after sweeping out what has expired by now. */
  function Swept(w: World): World { w.(rows := map id | id in w.rows :: Expire(w.rows[id], w.now)) }

  predicate Live(p: Proposal, now: int) { p.status.Pending? && p.expiresAt >= now }

  lemma SweepAndGet(w: World, id: int)
    requires w.fates == []
    ensures ArchiveExpired(w) == Swept(w) && Swept(Swept(w)) == Swept(w)
    ensures Get(w, id) == (Swept(w), if id in w.rows then Some(Expire(w.rows[id], w.now)) else None)
  {
    var rows, again := Swept(w).rows, Swept(Swept(w)).rows;
    forall i | i in rows ensures again[i] == rows[i] {
      assert rows[i] == Expire(w.rows[i], w.now);
    }
    assert again == rows;
  }

  lemma SweepKeepsCommits(w: World, sink: string, t: int)
    ensures Committed7(Swept(w).rows, sink, t) == Committed7(w.rows, sink, t)
  {
    var rows := Swept(w).rows;
    forall id | id in w.rows
      ensures id in rows && (id in Committed7(rows, sink, t) <==> id in Committed7(w.rows, sink, t))
    {
      assert rows[id] == Expire(w.rows[id], w.now);
    }
  }

  /** The sweep of a table in which one proposal was settled. */
  lemma SweepSettled(w: World, id: int, p: Proposal)
    requires id in w.rows && !p.status.Pending? && w.rows == Swept(w).rows
    ensures Swept(w.(rows := w.rows[id := p])) == w.(rows := w.rows[id := p])
  {
    var w' := w.(rows := w.rows[id := p]);
    forall i | i in w'.rows ensures Expire(w'.rows[i], w'.now) == w'.rows[i] {
      assert i != id ==> Swept(w).rows[i] == w.rows[i];
    }
    assert Swept(w').rows == w'.rows;
  }

  /** How a live proposal is settled: committed now if fewer than `cap` of its sink were committed in the last
      seven days, archived as over the cap otherwise. */
  function Settled(cfg: Config, w: World, id: int): Proposal
    requires id in w.rows
  {
    if |Committed7(w.rows, w.rows[id].sink, w.now)| >= cfg.cap then
      w.rows[id].(status := Archived, archiveReason := "weekly_cap")
    else w.rows[id].(status := Committed, committedAt := w.now)
  }

  ghost predicate SettledIn(cfg: Config, w: World, id: int, w': World, answer: Answer)
    requires id in w.rows
  {
    var p := Settled(cfg, w, id);
    && w'.rows == Swept(w).rows[id := p] && answer == Some(p) && w'.lostMarks == w.lostMarks
    && w'.applied == (if p.status.Committed? then w.applied + multiset{(id, p.action)} else w.applied)
  }

  lemma CommitDecides(cfg: Config, w: World, id: int)
    requires w.fates == [] && id in w.rows && Live(w.rows[id], w.now)
    ensures var (w', answer) := Commit(cfg, w, id); SettledIn(cfg, w, id, w', answer)
  {
    hide ArchiveExpired;
    var s := Swept(w);
    SweepAndGet(w, id);
    SweepKeepsCommits(w, w.rows[id].sink, w.now);
    var p := Settled(cfg, w, id);
    SweepSettled(s, id, p);
    hide Swept;
    var applied := if p.status.Committed? then w.applied + multiset{(id, p.action)} else w.applied;
    var marked := s.(rows := s.rows[id := p], applied := applied);
    assert s.rows[id] == w.rows[id];
    SweepAndGet(marked, id);
    SweptRows(s.(rows := s.rows[id := p]), marked);
  }

  lemma SweptRows(a: World, b: World)
    requires a.rows == b.rows && a.now == b.now
    ensures Swept(a).rows == Swept(b).rows && Swept(b) == b.(rows := Swept(a).rows)
  {}

  /** Accepting a live proposal settles it; nothing else changes but what expired. */
  lemma AcceptDecides(cfg: Config, w: World, id: int)
    requires w.fates == [] && id > 0 && id in w.rows && Live(w.rows[id], w.now)
    ensures var (w', answer) := Accept(cfg, w, id); SettledIn(cfg, w, id, w', answer) && id in w'.accepted
  {
    hide Commit, ArchiveExpired, Swept;
    var wa := w.(accepted := w.accepted + {id});
    SweepAndGet(wa, id);
    var s := Swept(wa);
    SweptRows(w, wa);
    SweepAndGet(w, id);
    SweepKeepsCommits(w, w.rows[id].sink, w.now);
    SweptRow(wa, id);
    CommitDecides(cfg, s, id);
    SweptRows(s, s);
    CommitKeepsAccepted(cfg, s, id);
  }

  lemma SweptRow(w: World, id: int)
    requires id in w.rows && Live(w.rows[id], w.now)
    ensures id in Swept(w).rows && Swept(w).rows[id] == w.rows[id] && Swept(w).now == w.now
  {}

  lemma CommitKeepsAccepted(cfg: Config, w: World, id: int)
    ensures Commit(cfg, w, id).0.accepted == w.accepted
  {
    hide Committed7, Get, Archive, Mark, Apply;
    var (w1, found) := Get(w, id);
    SameAccepted(w, id);
    if found.Some? && found.value.status.Pending? {
      var w2 := Tick(w1);
      var (w3, _) := Apply(w2, id, found.value.action);
      OthersAccepted(w2, id, found.value.action);
      SameAccepted(Archive(w2, id, "weekly_cap"), id);
      OthersAccepted(w3, id, found.value.action);
      SameAccepted(Mark(w3, id), id);
    }
  }

  lemma SameAccepted(w: World, id: int)
    ensures Get(w, id).0.accepted == w.accepted
  {}

  lemma OthersAccepted(w: World, id: int, action: Action)
    ensures Archive(w, id, "weekly_cap").accepted == Mark(w, id).accepted == Apply(w, id, action).0.accepted
            == w.accepted
  {}

  /** The second signal for a live proposal settles it, and reports it when it committed. */
  lemma SecondSignalDecides(cfg: Config, w: World, out: Dispatch, signal: int, sink: string, key: string, memory: int,
                            action: Action, confident: bool)
    requires w.fates == [] && out.committedIds == []
    requires var id := FindPending(w.rows, sink, key, memory);
      id > 0 && Live(w.rows[id], w.now) && w.rows[id].corroboration >= 1
    ensures var id := FindPending(w.rows, sink, key, memory);
      var (w', out') := QueueSink(cfg, w, out, signal, sink, key, memory, action, confident);
      var bumped := w.(rows := w.rows[id := w.rows[id].(corroboration := w.rows[id].corroboration + 1)]);
      var p := Settled(cfg, bumped, id);
      SettledIn(cfg, bumped, id, w', Some(p)) && out'.committedIds == (if p.status.Committed? then [id] else [])
  {
    hide Corroborate, SettledIn, Settled, Matches;
    CorroborateDecides(cfg, w, out, FindPending(w.rows, sink, key, memory));
  }

  lemma CorroborateDecides(cfg: Config, w: World, out: Dispatch, id: int)
    requires w.fates == [] && out.committedIds == []
    requires id in w.rows && Live(w.rows[id], w.now) && w.rows[id].corroboration >= 1
    ensures var (w', out') := Corroborate(cfg, w, out, id);
      var bumped := w.(rows := w.rows[id := w.rows[id].(corroboration := w.rows[id].corroboration + 1)]);
      var p := Settled(cfg, bumped, id);
      SettledIn(cfg, bumped, id, w', Some(p)) && out'.committedIds == (if p.status.Committed? then [id] else [])
  {
    hide Commit, ArchiveExpired, Committed7, Swept, ListCommitted;
    var bumped := w.(rows := w.rows[id := w.rows[id].(corroboration := w.rows[id].corroboration + 1)]);
    assert Bump(w, id) == bumped;
    SweepAndGet(bumped, id);
    SweptRow(bumped, id);
    var s := Swept(bumped);
    assert Get(bumped, id) == (s, Some(bumped.rows[id]));
    SweepKeepsCommits(bumped, bumped.rows[id].sink, bumped.now);
    SweptFields(bumped);
    CommitDecides(cfg, s, id);
    assert Settled(cfg, s, id) == Settled(cfg, bumped, id);
    hide Settled;
    OneListed(out.(proposalIds := Listed(out.proposalIds, id)), id, Some(Settled(cfg, bumped, id)));
  }

  lemma SweptFields(w: World)
    ensures Swept(w) == w.(rows := Swept(w).rows)
  {}

  lemma OneListed(out: Dispatch, id: int, answer: Answer)
    requires out.committedIds == []
    ensures ListCommitted(out, id, answer).committedIds
            == if answer.Some? && answer.value.status.Committed? then [id] else []
  {}

  /** The first signal for a target only queues a proposal, unless its sender is sure of it. */
  lemma FirstSignalWaits(cfg: Config, w: World, out: Dispatch, signal: int, sink: string, key: string, memory: int,
      action: Action)
    requires w.fates == [] && w.nextId > 0 && FindPending(w.rows, sink, key, memory) == 0
    ensures var (w', out') := QueueSink(cfg, w, out, signal, sink, key, memory, action, false);
      && w'.rows
         == w.rows[w.nextId := Proposal(signal, sink, key, memory, action, Pending, 1, w.now + cfg.ttl * DAY, 0, "")]
      && out'.committedIds == out.committedIds && w'.applied == w.applied
  {
    hide Commit, Corroborate;
  }

  /** Rejecting a live proposal archives it and nothing more. */
  lemma RejectArchives(w: World, id: int)
    requires w.fates == [] && id > 0 && id in w.rows && Live(w.rows[id], w.now)
    ensures var (w', answer) := Reject(w, id);
      var p := w.rows[id].(status := Archived, archiveReason := "rejected");
      w' == Swept(w).(rows := Swept(w).rows[id := p]) && answer == Some(p)
  {
    hide ArchiveExpired;
    SweepAndGet(w, id);
    var p := w.rows[id].(status := Archived, archiveReason := "rejected");
    var s := Swept(w);
    SweepSettled(s, id, p);
    SweptRow(w, id);
    hide Swept;
    SweepAndGet(s.(rows := s.rows[id := p]), id);
  }

  // ------------------------------------------------------------------ routing

  predicate Quick(w: World) { w.fates == [] }

  lemma CommitIsQuick(cfg: Config, w: World, id: int)
    requires Quick(w)
    ensures Quick(Commit(cfg, w, id).0)
  {
    hide Committed7, Get, Archive, Mark, Apply;
    var (w1, found) := Get(w, id);
    GetIsQuick(w, id);
    if found.Some? && found.value.status.Pending? {
      var w2 := Tick(w1);
      var (w3, _) := Apply(w2, id, found.value.action);
      OthersAreQuick(w2, id, found.value.action);
      OthersAreQuick(w3, id, found.value.action);
      GetIsQuick(Archive(w2, id, "weekly_cap"), id);
      GetIsQuick(Mark(w3, id), id);
    }
  }

  lemma GetIsQuick(w: World, id: int)
    requires Quick(w)
    ensures Quick(Get(w, id).0)
  {}

  lemma OthersAreQuick(w: World, id: int, action: Action)
    requires Quick(w)
    ensures Quick(Archive(w, id, "weekly_cap")) && Quick(Mark(w, id)) && Quick(Apply(w, id, action).0)
            && Quick(Bump(w, id))
  {}

  /** One queued sink adds one id to the report: that of a proposal for exactly this sink and target. */
  ghost predicate Queued(out: Dispatch, out': Dispatch, rows: map<int, Proposal>, sink: string, key: string,
      memory: int) {
    |out'.proposalIds| == |out.proposalIds| + 1 && out'.proposalIds[..|out.proposalIds|] == out.proposalIds
    && For(out'.proposalIds[|out.proposalIds|], rows, sink, key, memory)
  }

  ghost predicate For(id: int, rows: map<int, Proposal>, sink: string, key: string, memory: int) {
    id in rows && rows[id].sink == sink && rows[id].targetKey == key && rows[id].targetMemory == memory
  }

  lemma CorroborateReports(cfg: Config, w: World, out: Dispatch, id: int)
    requires Quick(w) && |out.proposalIds| < MAX_PROPOSAL_IDS
    ensures var (w', out') := Corroborate(cfg, w, out, id); Quick(w') && out'.proposalIds == out.proposalIds + [id]
  {
    hide Commit, Get, Bump;
    OthersAreQuick(w, id, Rule("", ""));
    var (w1, found) := Get(Bump(w, id), id);
    GetIsQuick(Bump(w, id), id);
    CommitIsQuick(cfg, w1, id);
  }

  /** The effect on the table does not depend on what was reported before. */
  lemma SameWorld(cfg: Config, w: World, out: Dispatch, other: Dispatch, id: int)
    ensures Corroborate(cfg, w, out, id).0 == Corroborate(cfg, w, other, id).0
  {
    hide Commit, Get, Bump;
  }

  lemma MatchStays(cfg: Config, w: World, out: Dispatch, id: int, sink: string, key: string, memory: int)
    requires LS.Inv(cfg.cap, w) && id in w.rows && Matches(w.rows[id], sink, key, memory)
    ensures For(id, Corroborate(cfg, w, out, id).0.rows, sink, key, memory)
  {
    hide LS.Inv, Corroborate;
    LS.Unchanged(w);
    LS.QuietEvolves(w, w);
    LS.CorroborateSafe(cfg, w, w, Dispatch([], []), id);
    SameWorld(cfg, w, out, Dispatch([], []), id);
    assert LS.Later(w.rows[id], Corroborate(cfg, w, out, id).0.rows[id]);
  }

  lemma NextIsPositive(cap: nat, w: World)
    requires LS.Inv(cap, w)
    ensures w.nextId > 0
  {}

  lemma ProposeReports(cfg: Config, w: World, out: Dispatch, p: Proposal, confident: bool)
    requires LS.Inv(cfg.cap, w) && Quick(w) && |out.proposalIds| < MAX_PROPOSAL_IDS
    requires p.status.Pending? && (confident ==> p.sink == "rule")
    requires forall id :: id in w.rows ==> !Matches(w.rows[id], p.sink, p.targetKey, p.targetMemory)
    ensures var (w', out') := Propose(cfg, w, out, p, confident);
      Quick(w') && Queued(out, out', w'.rows, p.sink, p.targetKey, p.targetMemory)
  {
    var (w2, added) := Insert(w, p, confident);
    NextIsPositive(cfg.cap, w);
    LS.InsertInv(cfg.cap, w, p, confident);
    if confident {
      CommitIsQuick(cfg, w2, added);
      LS.CommitSafe(cfg, w2, added);
      hide LS.Inv, Commit;
      assert LS.Later(w2.rows[added], Commit(cfg, w2, added).0.rows[added]);
    }
  }

  /** Queueing for one sink reports exactly one id, that of a proposal for this sink and target. */
  lemma SinkReports(cfg: Config, w: World, out: Dispatch, signal: int, sink: string, key: string, memory: int,
                    action: Action, confident: bool)
    requires LS.Inv(cfg.cap, w) && Quick(w) && |out.proposalIds| < MAX_PROPOSAL_IDS && (confident ==> sink == "rule")
    ensures var (w', out') := QueueSink(cfg, w, out, signal, sink, key, memory, action, confident);
      Quick(w') && Queued(out, out', w'.rows, sink, key, memory)
  {
    hide LS.Inv, Corroborate, Propose, Matches, For;
    var id := FindPending(w.rows, sink, key, memory);
    if id > 0 {
      CorroborateReports(cfg, w, out, id);
      MatchStays(cfg, w, out, id, sink, key, memory);
    } else {
      LS.NoMatch(cfg.cap, w, sink, key, memory);
      KeysArePositive(cfg.cap, w);
      ProposeReports(cfg, w, out, Fresh(w, cfg.ttl, signal, sink, key, memory, action), confident);
    }
  }

  lemma KeysArePositive(cap: nat, w: World)
    requires LS.Inv(cap, w)
    ensures forall id :: id in w.rows ==> id > 0
  {}

  function Count(b: bool): nat { if b then 1 else 0 }

  lemma QueueReports(cfg: Config, w0: World, wo: (World, Dispatch), wanted: bool, signal: int, sink: string,
      key: string, memory: int, action: Action, confident: bool)
    requires LS.Safe(cfg.cap, w0, wo.0, wo.1) && Quick(wo.0) && |wo.1.proposalIds| < MAX_PROPOSAL_IDS
    requires confident ==> sink == "rule"
    ensures var r := Queue(cfg, wo, wanted, signal, sink, key, memory, action, confident);
      && LS.Safe(cfg.cap, w0, r.0, r.1) && Quick(r.0)
      && |r.1.proposalIds| == |wo.1.proposalIds| + Count(wanted)
  {
    hide LS.Inv, LS.Evolves, LS.Reported, QueueSink, For;
    LS.QueueSafe(cfg, w0, wo, wanted, signal, sink, key, memory, action, confident);
    if wanted { SinkReports(cfg, wo.0, wo.1, signal, sink, key, memory, action, confident); }
  }

  lemma WantsInFields(s: Signal, mask: Sinks)
    ensures WantsReranker(s, mask) <==>
            mask.reranker && (s.signalType != "correction" || s.targetMemory > 0 || s.evidence != "")
    ensures WantsSupersede(s, mask) <==> mask.supersede && s.targetMemory > 0 && s.correctionText != ""
    ensures WantsRule(s, mask) <==>
            mask.rule && ((s.signalType == "correction"
                           && (s.correctionText != "" || s.title != "" || s.description != ""))
                          || s.signalType == "preference_statement" || s.signalType == "mark_rule")
    ensures WantsWorkflow(s, mask) <==>
            mask.workflow && s.workflowProject != "" && s.workflowSignalType != "" && s.description != ""
  {}

  lemma RouteCounts(cfg: Config, w: World, signal: int, s: Signal, mask: Sinks)
    requires LS.Inv(cfg.cap, w) && Quick(w)
    ensures |Route(cfg, w, signal, s, mask).1.proposalIds|
            == Count(WantsReranker(s, mask)) + Count(WantsSupersede(s, mask))
               + Count(WantsRule(s, mask)) + Count(WantsWorkflow(s, mask))
  {
    var none := (w, Dispatch([], []));
    LS.Unchanged(w);
    LS.QuietEvolves(w, w);
    hide LS.Inv, LS.Evolves, Queue, WantsReranker, WantsSupersede, WantsRule, WantsWorkflow, RuleAction, IsConfident;
    assert LS.Safe(cfg.cap, w, w, none.1);
    hide LS.Safe;
    QueueReports(cfg, w, none, WantsReranker(s, mask), signal, "reranker", s.targetKey, s.targetMemory,
                 Rerank(s.signalType == "thumb_up", s.targetMemory, s.evidence), false);
    var a := Queue(cfg, none, WantsReranker(s, mask), signal, "reranker", s.targetKey, s.targetMemory,
                   Rerank(s.signalType == "thumb_up", s.targetMemory, s.evidence), false);
    QueueReports(cfg, w, a, WantsSupersede(s, mask), signal, "supersede", s.targetKey, s.targetMemory,
                 Supersede(s.targetMemory, s.correctionText), false);
    var b := Queue(cfg, a, WantsSupersede(s, mask), signal, "supersede", s.targetKey, s.targetMemory,
                   Supersede(s.targetMemory, s.correctionText), false);
    QueueReports(cfg, w, b, WantsRule(s, mask), signal, "rule", s.targetKey, s.targetMemory, RuleAction(cfg, s),
      IsConfident(s));
    var c := Queue(cfg, b, WantsRule(s, mask), signal, "rule", s.targetKey, s.targetMemory, RuleAction(cfg, s),
      IsConfident(s));
    QueueReports(cfg, w, c, WantsWorkflow(s, mask), signal, "workflow", s.workflowProject, 0,
                 Workflow(s.workflowProject, s.workflowSignalType, s.description), false);
  }

  /** A routed signal reports one proposal for every sink that wants it; four sinks never fill the eight
      places, so none is dropped. */
  lemma RouteReports(cfg: Config, w: World, signal: int, s: Signal, mask: Sinks)
    requires LS.Inv(cfg.cap, w) && Quick(w)
    ensures |Route(cfg, w, signal, s, mask).1.proposalIds|
            == Count(mask.reranker && (s.signalType != "correction" || s.targetMemory > 0 || s.evidence != ""))
               + Count(mask.supersede && s.targetMemory > 0 && s.correctionText != "")
               + Count(mask.rule && ((s.signalType == "correction"
                                      && (s.correctionText != "" || s.title != "" || s.description != ""))
                                     || s.signalType == "preference_statement" || s.signalType == "mark_rule"))
               + Count(mask.workflow && s.workflowProject != "" && s.workflowSignalType != "" && s.description != "")
  {
    hide Route, LS.Inv, Count, WantsReranker, WantsSupersede, WantsRule, WantsWorkflow;
    RouteCounts(cfg, w, signal, s, mask);
    WantsInFields(s, mask);
  }

  // --------------------------------------------------------------- a lost mark

  /** One pending proposal, and a script in which the mark of the first acceptance is lost. */
  function OneProposal(action: Action): World {
    World(map[1 := Proposal(1, "workflow", "key", 0, action, Pending, 1, 1, 0, "")], 2, 2, 0,
          [Fate(0, true), Fate(0, true), Fate(0, true), Fate(0, true), Fate(0, true), Fate(0, false)],
          multiset{}, multiset{}, {}, {})
  }

  /** Accepting it twice applies its sink twice: a lost mark leaves an applied proposal pending. */
  lemma AppliedTwice(cfg: Config, action: Action)
    requires cfg.cap > 0
    ensures LS.Inv(cfg.cap, OneProposal(action))
    ensures var w := Run(cfg, OneProposal(action), [AcceptOp(1), AcceptOp(1)]);
      w.applied[(1, action)] == 2 && w.lostMarks[1] == 1 && 1 in w.rows && w.rows[1].status.Committed?
  {
    hide LS.Inv, Committed7;
    var w := OneProposal(action);
    OneProposalInv(cfg.cap, action);
    var w1 := Accept(cfg, w, 1).0;
    FirstMarkIsLost(cfg, action);
    AcceptDecides(cfg, w1, 1);
    NothingCommitted(w1);
    var ops := [AcceptOp(1), AcceptOp(1)];
    assert ops[1..] == [AcceptOp(1)] && ops[1..][1..] == [];
    assert Run(cfg, w, ops) == Run(cfg, w1, ops[1..]) == Accept(cfg, w1, 1).0;
  }

  lemma OneProposalInv(cap: nat, action: Action)
    ensures LS.Inv(cap, OneProposal(action))
  {
    var rows := OneProposal(action).rows;
    forall sink: string, t: int ensures |Committed7(rows, sink, t)| <= cap { assert Committed7(rows, sink, t) == {}; }
  }

  lemma NothingCommitted(w: World)
    requires w.rows.Keys == {1} && w.rows[1].status.Pending?
    ensures forall sink: string, t: int :: |Committed7(w.rows, sink, t)| == 0
  {
    forall sink: string, t: int ensures |Committed7(w.rows, sink, t)| == 0 { assert Committed7(w.rows, sink, t) == {}; }
  }

  /** A call that takes no time and works, on a table in which nothing has expired. */
  lemma SwiftCall(w: World)
    requires w.fates != [] && w.fates[0] == Fate(0, true) && forall i :: i in w.rows ==> w.rows[i].expiresAt >= w.now
    ensures Works(w) && Tick(w) == w.(fates := w.fates[1..]) == ArchiveExpired(w)
  {
    forall i | i in w.rows ensures Expire(w.rows[i], w.now) == w.rows[i] {}
    assert ArchiveExpired(w).rows == w.rows;
  }

  lemma SwiftGet(w: World, id: int)
    requires |w.fates| >= 2 && w.fates[0] == Fate(0, true) == w.fates[1] && id in w.rows
    requires forall i :: i in w.rows ==> w.rows[i].expiresAt >= w.now
    ensures Get(w, id) == (w.(fates := w.fates[2..]), Some(w.rows[id]))
  {
    hide ArchiveExpired, Tick, Works;
    SwiftCall(w);
    SwiftCall(w.(fates := w.fates[1..]));
    assert w.fates[1..][1..] == w.fates[2..];
  }

  lemma FirstMarkIsLost(cfg: Config, action: Action)
    requires cfg.cap > 0
    ensures var w, w1 := OneProposal(action), Accept(cfg, OneProposal(action), 1).0;
      w1.rows == w.rows && w1.now == w.now && w1.fates == []
      && w1.applied == multiset{(1, action)} && w1.lostMarks == multiset{1}
  {
    hide Get, Tick, Works, ArchiveExpired, Mark, Apply, Committed7;
    var w := OneProposal(action);
    var wa := w.(accepted := w.accepted + {1});
    SwiftCall(wa);
    var wb := wa.(fates := w.fates[1..]);
    SwiftGet(wb, 1);
    var wc := wb.(fates := w.fates[3..]);
    assert wb.fates[2..] == wc.fates;
    SwiftCall(wc);
    var wd := wc.(fates := w.fates[4..]);
    assert wc.fates[1..] == wd.fates;
    NothingCommitted(wd);
    LastTwo(wd, action);
    var we := wd.(fates := [], applied := multiset{(1, action)}, lostMarks := multiset{1});
    SweepAndGet(we, 1);
    assert Swept(we).rows == we.rows;
  }

  lemma LastTwo(w: World, action: Action)
    requires w.fates == [Fate(0, true), Fate(0, false)] && w.applied == multiset{} && w.lostMarks == multiset{}
    ensures Apply(w, 1, action) == (w.(fates := [Fate(0, false)], applied := multiset{(1, action)}), true)
    ensures Mark(Apply(w, 1, action).0, 1)
            == w.(fates := [], applied := multiset{(1, action)}, lostMarks := multiset{1})
  {
    assert w.fates[1..] == [Fate(0, false)];
    var one := [Fate(0, false)];
    assert one[1..] == [];
    assert w.lostMarks + multiset{1} == multiset{1} && w.applied + multiset{(1, action)} == multiset{(1, action)};
  }
}
