/** What a recorded signal does (src/modules/learning/learning_router.c), in the signal's own fields: which proposals it
    adds, with which action and target; when it commits anything; and whom a commit can be traced to. */
module LearningSignals {
  import opened LearningStore
  import opened LearningRouter
  import opened Options
  import opened Strings
  import LS = LearningSafety
  import LP = LearningProgress

  // ------------------------------------------------------------- in the signal's fields

  /** The rule a signal proposes: a correction names its target or title if it can, a preference or explicit rule is
      taken from its description, or else its title; the text is cut to its limit. */
  ghost predicate RuleFits(cfg: Config, s: Signal, key: string, a: Action) {
    a.Rule?
    && if s.signalType == "correction" then
         && (s.correctionText != "" || s.title != "" || s.description != "")
         && a.reason == "Repeated correction captured by learning router"
         && (s.correctionText != "" && key != "" ==>
               a.text == Cut("For " + key + ", use " + s.correctionText, cfg.ruleText))
         && (s.correctionText != "" && key == "" && s.title != "" ==>
               a.text == Cut("For " + s.title + ", use " + s.correctionText, cfg.ruleText))
         && (s.correctionText != "" && key == "" && s.title == "" ==> a.text == Cut(s.correctionText, cfg.ruleText))
         && (s.correctionText == "" ==> a.text == Cut(s.description, cfg.ruleText))
       else
         && (s.signalType == "preference_statement" || s.signalType == "mark_rule")
         && (s.signalType == "mark_rule" ==> a.reason == "Explicit rule capture")
         && (s.signalType == "preference_statement" ==> a.reason == "Explicit user preference")
         && (s.description != "" ==> a.text == Cut(s.description, cfg.ruleText))
         && (s.description == "" ==> a.text == Cut(s.title, cfg.ruleText))
  }

  /** A proposal this signal may add, its target key being `key`. */
  ghost predicate Fits(cfg: Config, s: Signal, key: string, mask: Sinks, signal: int, p: Proposal) {
    && p.signalId == signal
    && (p.sink != "workflow" ==> p.targetKey == key && p.targetMemory == s.targetMemory)
    && ((p.sink == "reranker" && mask.reranker
         && (s.signalType != "correction" || s.targetMemory > 0 || s.evidence != "")
         && p.action == Rerank(s.signalType == "thumb_up", s.targetMemory, s.evidence))
        || (p.sink == "supersede" && mask.supersede && s.targetMemory > 0 && s.correctionText != ""
            && p.action == Supersede(s.targetMemory, s.correctionText))
        || (p.sink == "rule" && mask.rule && RuleFits(cfg, s, key, p.action))
        || (p.sink == "workflow" && mask.workflow
            && s.workflowProject != "" && s.workflowSignalType != "" && s.description != ""
            && p.targetKey == s.workflowProject && p.targetMemory == 0
            && p.action == Workflow(s.workflowProject, s.workflowSignalType, s.description)))
  }

  /** The sender is sure: an explicit rule, or a preference stated with high confidence. */
  predicate Sure(s: Signal) {
    s.signalType == "mark_rule" || (s.signalType == "preference_statement" && s.highConfidence)
  }

  /** The target key a signal is filed under: its own, or that of its target memory when it has none and it is known. */
  function KeyOf(s: Signal, memoryKey: Option<string>): string {
    if s.targetKey == "" && s.targetMemory > 0 && memoryKey.Some? then memoryKey.value else s.targetKey
  }

  // ------------------------------------------------------------------- what calls add

  /** No row is added, and nobody becomes sure. */
  ghost predicate Adds0(w: World, w': World) {
    w'.rows.Keys == w.rows.Keys && w'.confident == w.confident && w'.accepted == w.accepted && w'.nextId == w.nextId
  }

  lemma CallsAdd(w: World, id: int, reason: string, action: Action)
    ensures Adds0(w, Tick(w)) && Adds0(w, ArchiveExpired(w)) && Adds0(w, Get(w, id).0) && Adds0(w, Bump(w, id))
    ensures Adds0(w, Archive(w, id, reason)) && Adds0(w, Mark(w, id)) && Adds0(w, Apply(w, id, action).0)
    ensures Adds0(w, InsertSignal(w).0)
  {
    var a := ArchiveExpired(w);
    assert a.rows.Keys == w.rows.Keys;
    assert Tick(a).rows.Keys == a.rows.Keys;
  }

  lemma Adds0Steps(u: World, v: World, w: World)
    requires Adds0(u, v) && Adds0(v, w)
    ensures Adds0(u, w)
  {}

  lemma GetAdds(u: World, w: World, id: int)
    requires Adds0(u, w)
    ensures Adds0(u, Get(w, id).0)
  {
    hide Adds0, Get;
    CallsAdd(w, id, "", Rule("", ""));
    Adds0Steps(u, w, Get(w, id).0);
  }

  lemma CommitAdds(cfg: Config, w: World, id: int)
    ensures Adds0(w, Commit(cfg, w, id).0)
  {
    hide Get, Archive, Mark, Apply, Tick, Committed7, Adds0;
    var (w1, found) := Get(w, id);
    CallsAdd(w, id, "", Rule("", ""));
    if found.Some? && found.value.status.Pending? {
      var w2 := Tick(w1);
      CallsAdd(w1, id, "", Rule("", ""));
      Adds0Steps(w, w1, w2);
      var action := found.value.action;
      CallsAdd(w2, id, "weekly_cap", action);
      Adds0Steps(w, w2, Archive(w2, id, "weekly_cap"));
      GetAdds(w, Archive(w2, id, "weekly_cap"), id);
      var w3 := Apply(w2, id, action).0;
      Adds0Steps(w, w2, w3);
      CallsAdd(w3, id, "", Rule("", ""));
      Adds0Steps(w, w3, Mark(w3, id));
      GetAdds(w, Mark(w3, id), id);
    }
  }

  lemma CorroborateAdds(cfg: Config, w: World, out: Dispatch, id: int)
    ensures Adds0(w, Corroborate(cfg, w, out, id).0)
  {
    hide Get, Bump, Commit, Adds0;
    CallsAdd(w, id, "", Rule("", ""));
    GetAdds(w, Bump(w, id), id);
    var w1 := Get(Bump(w, id), id).0;
    CommitAdds(cfg, w1, id);
    Adds0Steps(w, w1, Commit(cfg, w1, id).0);
  }

  predicate IsFor(p: Proposal, signal: int, sink: string, key: string, memory: int, action: Action) {
    p.signalId == signal && p.sink == sink && p.targetKey == key && p.targetMemory == memory && p.action == action
  }

  /** Every row added is a later state of `p`, and only with `confident` is it marked as sure. */
  ghost predicate Adds1(w: World, w': World, wanted: bool, signal: int, sink: string, key: string, memory: int,
      action: Action, confident: bool)
  {
    && LS.RowsLater(w.rows, w'.rows) && w'.accepted == w.accepted && w.confident <= w'.confident
    && (forall id :: id in w'.rows && id !in w.rows ==>
          wanted && IsFor(w'.rows[id], signal, sink, key, memory, action))
    && (forall id :: id in w'.confident && id !in w.confident ==> confident && id in w'.rows && id !in w.rows)
  }

  lemma ProposeAdds(cfg: Config, w: World, out: Dispatch, p: Proposal, confident: bool)
    requires LS.Inv(cfg.cap, w) && p.status.Pending? && (confident ==> p.sink == "rule")
    requires forall id :: id in w.rows ==> !Matches(w.rows[id], p.sink, p.targetKey, p.targetMemory)
    ensures Adds1(w, Propose(cfg, w, out, p, confident).0, true, p.signalId, p.sink, p.targetKey, p.targetMemory,
                  p.action, confident)
  {
    hide Commit, LS.OnePending, LS.Windows, LS.AppliedOnce, LS.Earned, LS.Stamped;
    var (w2, added) := Insert(w, p, confident);
    InsertAdds(cfg, w, p, confident);
    hide LS.Ids, Insert;
    if added > 0 && confident {
      LS.InsertInv(cfg.cap, w, p, confident);
      LS.CommitSafe(cfg, w2, added);
      CommitAdds(cfg, w2, added);
      CommitAfter(w, w2, Commit(cfg, w2, added).0, p, confident);
    }
  }

  lemma InsertAdds(cfg: Config, w: World, p: Proposal, confident: bool)
    requires LS.Inv(cfg.cap, w) && p.status.Pending? && (confident ==> p.sink == "rule")
    requires forall id :: id in w.rows ==> !Matches(w.rows[id], p.sink, p.targetKey, p.targetMemory)
    ensures Adds1(w, Insert(w, p, confident).0, true, p.signalId, p.sink, p.targetKey, p.targetMemory, p.action,
                  confident)
  {
    hide LS.OnePending, LS.Windows, LS.AppliedOnce, LS.Earned, LS.Stamped;
    LS.InsertInv(cfg.cap, w, p, confident);
    CallsAdd(w, 0, "", Rule("", ""));
  }

  lemma CommitAfter(w: World, w2: World, w': World, p: Proposal, confident: bool)
    requires Adds1(w, w2, true, p.signalId, p.sink, p.targetKey, p.targetMemory, p.action, confident)
    requires Adds0(w2, w') && LS.Evolves(w2, w')
    ensures Adds1(w, w', true, p.signalId, p.sink, p.targetKey, p.targetMemory, p.action, confident)
  {
    forall id | id in w.rows ensures id in w'.rows && LS.Later(w.rows[id], w'.rows[id]) {
      assert LS.Later(w.rows[id], w2.rows[id]) && LS.Later(w2.rows[id], w'.rows[id]);
    }
    forall id | id in w'.rows && id !in w.rows
      ensures IsFor(w'.rows[id], p.signalId, p.sink, p.targetKey, p.targetMemory, p.action)
    {
      assert LS.Later(w2.rows[id], w'.rows[id]);
    }
  }

  lemma Adds1From(w: World, w1: World, w': World, wanted: bool, signal: int, sink: string, key: string, memory: int,
      action: Action, confident: bool)
    requires Adds0(w, w1) && LS.Evolves(w, w1)
    requires Adds1(w1, w', wanted, signal, sink, key, memory, action, confident)
    ensures Adds1(w, w', wanted, signal, sink, key, memory, action, confident)
  {
    forall id | id in w.rows ensures id in w'.rows && LS.Later(w.rows[id], w'.rows[id]) {
      assert LS.Later(w.rows[id], w1.rows[id]) && LS.Later(w1.rows[id], w'.rows[id]);
    }
  }

  lemma Nothing1(w: World, w': World, wanted: bool, signal: int, sink: string, key: string, memory: int,
      action: Action, confident: bool)
    requires Adds0(w, w') && LS.Evolves(w, w')
    ensures Adds1(w, w', wanted, signal, sink, key, memory, action, confident)
  {
    hide LS.Later;
  }

  lemma TickAdds(cap: nat, w: World)
    requires LS.Inv(cap, w)
    ensures Adds0(w, Tick(w)) && LS.Evolves(w, Tick(w)) && LS.Inv(cap, Tick(w))
  {
    hide LS.Inv, LS.Evolves, LS.Quiet, Tick;
    LS.TickQuiet(w);
    LS.QuietInv(cap, w, Tick(w));
    LS.QuietEvolves(w, Tick(w));
    CallsAdd(w, 0, "", Rule("", ""));
  }

  lemma QueueSinkAdds(cfg: Config, w: World, out: Dispatch, signal: int, sink: string, key: string, memory: int,
      action: Action, confident: bool)
    requires LS.Inv(cfg.cap, w) && (confident ==> sink == "rule")
    ensures Adds1(w, QueueSink(cfg, w, out, signal, sink, key, memory, action, confident).0, true, signal, sink, key,
                  memory, action, confident)
  {
    hide LS.Inv, LS.Evolves, Adds0, Adds1, Corroborate, Propose, Matches, Tick;
    var w1 := Tick(w);
    TickAdds(cfg.cap, w);
    var id := FindPending(w1.rows, sink, key, memory);
    if id > 0 {
      CorroborateAdds(cfg, w1, out, id);
      LS.MatchIsPending(w1.rows[id], sink, key, memory);
      SafeStart(cfg.cap, w1);
      LS.CorroborateSafe(cfg, w1, w1, Dispatch([], []), id);
      LP.SameWorld(cfg, w1, out, Dispatch([], []), id);
      Nothing1(w1, Corroborate(cfg, w1, out, id).0, true, signal, sink, key, memory, action, confident);
    } else {
      LS.NoMatch(cfg.cap, w1, sink, key, memory);
      LP.KeysArePositive(cfg.cap, w1);
      ProposeAdds(cfg, w1, out, Fresh(w1, cfg.ttl, signal, sink, key, memory, action), confident);
    }
    Adds1From(w, w1, QueueSink(cfg, w, out, signal, sink, key, memory, action, confident).0, true, signal, sink, key,
              memory, action, confident);
  }

  lemma QueueAdds(cfg: Config, wo: (World, Dispatch), wanted: bool, signal: int, sink: string, key: string, memory: int,
      action: Action, confident: bool)
    requires LS.Inv(cfg.cap, wo.0) && (confident ==> sink == "rule")
    ensures var w' := Queue(cfg, wo, wanted, signal, sink, key, memory, action, confident).0;
      LS.Inv(cfg.cap, w') && Adds1(wo.0, w', wanted, signal, sink, key, memory, action, confident)
  {
    hide LS.Inv, LS.Evolves, Adds0, Adds1, QueueSink, Tick;
    var w := wo.0;
    SafeStart(cfg.cap, w);
    QueueWorld(cfg, wo, (w, Dispatch([], [])), wanted, signal, sink, key, memory, action, confident);
    LS.QueueSafe(cfg, w, (w, Dispatch([], [])), wanted, signal, sink, key, memory, action, confident);
    TickAdds(cfg.cap, w);
    if !wanted {
      Same0(w);
      Nothing1(w, w, wanted, signal, sink, key, memory, action, confident);
    } else if !Works(w) {
      Nothing1(w, Tick(w), wanted, signal, sink, key, memory, action, confident);
    } else {
      QueueSinkAdds(cfg, Tick(w), wo.1, signal, sink, key, memory, action, confident);
      Adds1From(w, Tick(w), QueueSink(cfg, Tick(w), wo.1, signal, sink, key, memory, action, confident).0, true, signal,
                sink, key, memory, action, confident);
    }
  }

  lemma Same0(w: World)
    ensures Adds0(w, w)
  {}

  lemma SafeStart(cap: nat, w: World)
    requires LS.Inv(cap, w)
    ensures LS.Safe(cap, w, w, Dispatch([], []))
  {
    hide LS.Inv;
    LS.Unchanged(w);
    LS.QuietEvolves(w, w);
  }

  /** The effect on the table does not depend on what was reported before. */
  lemma QueueWorld(cfg: Config, wo: (World, Dispatch), other: (World, Dispatch), wanted: bool, signal: int,
      sink: string, key: string, memory: int, action: Action, confident: bool)
    requires wo.0 == other.0
    ensures Queue(cfg, wo, wanted, signal, sink, key, memory, action, confident).0
            == Queue(cfg, other, wanted, signal, sink, key, memory, action, confident).0
  {
    hide Commit, Get, Bump, Insert, Tick, Matches;
  }

  // ------------------------------------------------------------------------ routing

  /** Everything added since `w` fits the signal, and whoever is newly marked as sure is a rule of a sure sender. */
  ghost predicate AllFit(cfg: Config, s: Signal, key: string, mask: Sinks, signal: int, w: World, w': World) {
    && LS.RowsLater(w.rows, w'.rows) && w'.accepted == w.accepted && w.confident <= w'.confident
    && (forall id :: id in w'.rows && id !in w.rows ==> Fits(cfg, s, key, mask, signal, w'.rows[id]))
    && (forall id :: id in w'.confident && id !in w.confident ==> Sure(s) && id in w'.rows && id !in w.rows)
  }

  lemma FitsLater(cfg: Config, s: Signal, key: string, mask: Sinks, signal: int, p: Proposal, q: Proposal)
    requires LS.Later(p, q) && Fits(cfg, s, key, mask, signal, p)
    ensures Fits(cfg, s, key, mask, signal, q)
  {
    hide RuleFits;
  }

  lemma FitStep(cfg: Config, s: Signal, key: string, mask: Sinks, signal: int, w: World, w1: World, w2: World,
      wanted: bool, sink: string, itsKey: string, memory: int, action: Action, confident: bool)
    requires AllFit(cfg, s, key, mask, signal, w, w1)
    requires Adds1(w1, w2, wanted, signal, sink, itsKey, memory, action, confident)
    requires wanted ==>
               forall p :: IsFor(p, signal, sink, itsKey, memory, action) ==> Fits(cfg, s, key, mask, signal, p)
    requires confident ==> Sure(s)
    ensures AllFit(cfg, s, key, mask, signal, w, w2)
  {
    hide Fits, Sure;
    forall id | id in w.rows ensures id in w2.rows && LS.Later(w.rows[id], w2.rows[id]) {
      assert LS.Later(w.rows[id], w1.rows[id]) && LS.Later(w1.rows[id], w2.rows[id]);
    }
    forall id | id in w2.rows && id !in w.rows ensures Fits(cfg, s, key, mask, signal, w2.rows[id]) {
      if id in w1.rows {
        assert LS.Later(w1.rows[id], w2.rows[id]);
        FitsLater(cfg, s, key, mask, signal, w1.rows[id], w2.rows[id]);
      }
    }
  }

  lemma ConfidentIsSure(s: Signal)
    ensures IsConfident(s) <==> Sure(s)
  {}

  /** Whatever is pending already and whichever calls fail: a routed signal adds only what fits it. */
  lemma RouteAdds(cfg: Config, w: World, signal: int, s: Signal, mask: Sinks)
    requires LS.Inv(cfg.cap, w)
    ensures AllFit(cfg, s, s.targetKey, mask, signal, w, Route(cfg, w, signal, s, mask).0)
  {
    hide LS.Inv, Queue, WantsReranker, WantsSupersede, WantsRule, WantsWorkflow, RuleAction, IsConfident, Sure, Adds1,
         AllFit, Fits;
    var key := s.targetKey;
    var rerank := Rerank(s.signalType == "thumb_up", s.targetMemory, s.evidence);
    var supersede := Supersede(s.targetMemory, s.correctionText);
    var flow := Workflow(s.workflowProject, s.workflowSignalType, s.description);
    ConfidentIsSure(s);
    SameFit(cfg, s, key, mask, signal, w);
    var none := (w, Dispatch([], []));
    var a := Queue(cfg, none, WantsReranker(s, mask), signal, "reranker", key, s.targetMemory, rerank, false);
    QueueAdds(cfg, none, WantsReranker(s, mask), signal, "reranker", key, s.targetMemory, rerank, false);
    AllRerank(cfg, s, mask, signal);
    FitStep(cfg, s, key, mask, signal, w, w, a.0, WantsReranker(s, mask), "reranker", key, s.targetMemory, rerank,
            false);
    var b := Queue(cfg, a, WantsSupersede(s, mask), signal, "supersede", key, s.targetMemory, supersede, false);
    QueueAdds(cfg, a, WantsSupersede(s, mask), signal, "supersede", key, s.targetMemory, supersede, false);
    AllSupersede(cfg, s, mask, signal);
    FitStep(cfg, s, key, mask, signal, w, a.0, b.0, WantsSupersede(s, mask), "supersede", key, s.targetMemory,
            supersede, false);
    var c := Queue(cfg, b, WantsRule(s, mask), signal, "rule", key, s.targetMemory, RuleAction(cfg, s), IsConfident(s));
    QueueAdds(cfg, b, WantsRule(s, mask), signal, "rule", key, s.targetMemory, RuleAction(cfg, s), IsConfident(s));
    AllRules(cfg, s, mask, signal);
    FitStep(cfg, s, key, mask, signal, w, b.0, c.0, WantsRule(s, mask), "rule", key, s.targetMemory, RuleAction(cfg, s),
            IsConfident(s));
    var d := Queue(cfg, c, WantsWorkflow(s, mask), signal, "workflow", s.workflowProject, 0, flow, false);
    QueueAdds(cfg, c, WantsWorkflow(s, mask), signal, "workflow", s.workflowProject, 0, flow, false);
    AllWorkflows(cfg, s, mask, signal);
    FitStep(cfg, s, key, mask, signal, w, c.0, d.0, WantsWorkflow(s, mask), "workflow", s.workflowProject, 0, flow,
            false);
  }

  lemma SameFit(cfg: Config, s: Signal, key: string, mask: Sinks, signal: int, w: World)
    ensures AllFit(cfg, s, key, mask, signal, w, w)
  {
    hide Fits, Sure;
  }

  lemma AllRerank(cfg: Config, s: Signal, mask: Sinks, signal: int)
    ensures WantsReranker(s, mask) ==>
              var action := Rerank(s.signalType == "thumb_up", s.targetMemory, s.evidence);
              forall p :: IsFor(p, signal, "reranker", s.targetKey, s.targetMemory, action) ==>
                            Fits(cfg, s, s.targetKey, mask, signal, p)
  {
    hide RuleFits;
  }

  lemma AllSupersede(cfg: Config, s: Signal, mask: Sinks, signal: int)
    ensures WantsSupersede(s, mask) ==>
              var action := Supersede(s.targetMemory, s.correctionText);
              forall p :: IsFor(p, signal, "supersede", s.targetKey, s.targetMemory, action) ==>
                            Fits(cfg, s, s.targetKey, mask, signal, p)
  {
    hide RuleFits;
  }

  lemma AllRules(cfg: Config, s: Signal, mask: Sinks, signal: int)
    ensures WantsRule(s, mask) ==>
              forall p :: IsFor(p, signal, "rule", s.targetKey, s.targetMemory, RuleAction(cfg, s)) ==>
                            Fits(cfg, s, s.targetKey, mask, signal, p)
  {
    if WantsRule(s, mask) { RuleIsRight(cfg, s, mask); }
    hide RuleFits, RuleAction, WantsRule;
    MaskOfRule(s, mask);
  }

  lemma MaskOfRule(s: Signal, mask: Sinks)
    ensures WantsRule(s, mask) ==> mask.rule
  {}

  lemma RuleIsRight(cfg: Config, s: Signal, mask: Sinks)
    requires WantsRule(s, mask)
    ensures RuleFits(cfg, s, s.targetKey, RuleAction(cfg, s))
  {
    hide Cut;
  }

  lemma AllWorkflows(cfg: Config, s: Signal, mask: Sinks, signal: int)
    ensures WantsWorkflow(s, mask) ==>
              var action := Workflow(s.workflowProject, s.workflowSignalType, s.description);
              forall p :: IsFor(p, signal, "workflow", s.workflowProject, 0, action) ==>
                            Fits(cfg, s, s.targetKey, mask, signal, p)
  {
    hide RuleFits;
  }

  /** What a recorded signal adds, and under which id; nothing at all when it has no type, is not admitted or cannot be
      classified. */
  lemma RecordAdds(cfg: Config, w: World, s: Signal, admitted: bool, mask: Option<Sinks>, memoryKey: Option<string>)
    requires LS.Inv(cfg.cap, w)
    ensures var (w', signal, out) := Record(cfg, w, s, admitted, mask, memoryKey);
      && (s.signalType == "" || !admitted || mask.None? ==> w' == w && signal == -1 && out == Dispatch([], []))
      && (mask.Some? ==> AllFit(cfg, s, KeyOf(s, memoryKey), mask.value, signal, w, w'))
      && (mask.None? ==> w' == w)
  {
    hide LS.Inv, LS.Quiet, Route, Fits, Sure, ArchiveExpired, InsertSignal, AllFit;
    if mask.Some? { SameFit(cfg, s, KeyOf(s, memoryKey), mask.value, -1, w); }
    if s.signalType != "" && admitted && mask.Some? {
      var w0 := ArchiveExpired(w);
      var (w1, signal) := InsertSignal(w0);
      LS.ArchiveExpiredQuiet(w);
      LS.InsertSignalQuiet(w0);
      LS.QuietSteps(w, w0, w1);
      LS.QuietInv(cfg.cap, w, w1);
      CallsAdd(w, 0, "", Rule("", ""));
      CallsAdd(w0, 0, "", Rule("", ""));
      QuietFit(cfg, s, KeyOf(s, memoryKey), mask.value, signal, w, w1);
      QuietFit(cfg, s, KeyOf(s, memoryKey), mask.value, -1, w, w1);
      if signal > 0 {
        var filled := FillKey(s, memoryKey);
        RouteAdds(cfg, w1, signal, filled, mask.value);
        FilledFits(cfg, s, memoryKey, mask.value, signal, w, w1, Route(cfg, w1, signal, filled, mask.value).0);
      }
    }
  }

  lemma QuietFit(cfg: Config, s: Signal, key: string, mask: Sinks, signal: int, w: World, w1: World)
    requires Adds0(w, w1) && LS.Quiet(w, w1)
    ensures AllFit(cfg, s, key, mask, signal, w, w1)
  {
    hide Fits, Sure, LS.Later;
  }

  lemma FilledFits(cfg: Config, s: Signal, memoryKey: Option<string>, mask: Sinks, signal: int, w: World, w1: World,
      w': World)
    requires Adds0(w, w1) && LS.Quiet(w, w1)
    requires AllFit(cfg, FillKey(s, memoryKey), FillKey(s, memoryKey).targetKey, mask, signal, w1, w')
    ensures AllFit(cfg, s, KeyOf(s, memoryKey), mask, signal, w, w')
  {
    var filled, key := FillKey(s, memoryKey), KeyOf(s, memoryKey);
    assert filled.targetKey == key && Sure(filled) == Sure(s);
    forall id | id in w.rows ensures id in w'.rows && LS.Later(w.rows[id], w'.rows[id]) {
      assert LS.Later(w.rows[id], w1.rows[id]) && LS.Later(w1.rows[id], w'.rows[id]);
    }
    forall p: Proposal ensures Fits(cfg, filled, key, mask, signal, p) == Fits(cfg, s, key, mask, signal, p) {
      SameFits(cfg, s, filled, key, mask, signal, p);
    }
    hide Fits, Sure;
  }

  lemma SameFits(cfg: Config, s: Signal, t: Signal, key: string, mask: Sinks, signal: int, p: Proposal)
    requires t == s.(targetKey := t.targetKey)
    ensures Fits(cfg, s, key, mask, signal, p) == Fits(cfg, t, key, mask, signal, p)
  {}

  // -------------------------------------------------------- nothing pending for its targets

  /** Nothing is pending for this target. */
  ghost predicate NonePending(rows: map<int, Proposal>, sink: string, key: string, memory: int) {
    forall id :: id in rows && rows[id].status.Pending? ==>
                   rows[id].sink != sink || rows[id].targetKey != key || rows[id].targetMemory != memory
  }

  /** Nothing is pending for the four targets of this signal. */
  ghost predicate AllNew(rows: map<int, Proposal>, s: Signal) {
    && NonePending(rows, "reranker", s.targetKey, s.targetMemory)
    && NonePending(rows, "supersede", s.targetKey, s.targetMemory)
    && NonePending(rows, "rule", s.targetKey, s.targetMemory) && NonePending(rows, "workflow", s.workflowProject, 0)
  }

  lemma NothingFound(w: World, sink: string, key: string, memory: int)
    requires NonePending(w.rows, sink, key, memory)
    ensures FindPending(w.rows, sink, key, memory) == 0
  {}

  /** All that happened since `w` is that pending proposals of corroboration 1 were added. */
  ghost predicate OnlyWaits(w: World, w': World) {
    && w'.applied == w.applied
    && (forall id :: id in w.rows ==> id in w'.rows && w'.rows[id] == w.rows[id])
    && (forall id :: id in w'.rows && id !in w.rows ==> w'.rows[id].status.Pending? && w'.rows[id].corroboration == 1)
  }

  /** A first signal its sender is not sure of only adds its proposal, when that works at all. */
  lemma QueueWaits(cfg: Config, wo: (World, Dispatch), wanted: bool, signal: int, sink: string, key: string,
      memory: int, action: Action)
    requires LS.Inv(cfg.cap, wo.0) && NonePending(wo.0.rows, sink, key, memory)
    ensures var w, (w', out') := wo.0, Queue(cfg, wo, wanted, signal, sink, key, memory, action, false);
      && out'.committedIds == wo.1.committedIds && OnlyWaits(w, w')
      && (forall id :: id in w'.rows && id !in w.rows ==> w'.rows[id].sink == sink)
      && (LP.Quick(w) ==>
            && LP.Quick(w') && w'.now == w.now
            && w'.rows == if wanted
                          then w.rows[w.nextId := Proposal(signal, sink, key, memory, action, Pending, 1,
                                                           w.now + cfg.ttl * 86_400, 0, "")]
                          else w.rows)
  {
    hide Commit, Corroborate, Insert, LS.Inv, OnlyWaits, Tick;
    var w := wo.0;
    var w1 := Tick(w);
    var w2 := Tick(w1);
    TicksOnly(w);
    TicksOnly(w1);
    NothingFound(w2, sink, key, memory);
    NextIsNew(cfg.cap, w);
    LP.NextIsPositive(cfg.cap, w);
    var p := Fresh(w2, cfg.ttl, signal, sink, key, memory, action);
    InsertWaits(w, w2, p);
    SameWaits(w, w);
    SameWaits(w, w1);
  }

  lemma TicksOnly(w: World)
    ensures var t := Tick(w);
      t.rows == w.rows && t.applied == w.applied && t.nextId == w.nextId && (LP.Quick(w) ==> t == w && Works(w))
  {}

  lemma SameWaits(w: World, w': World)
    requires w'.rows == w.rows && w'.applied == w.applied
    ensures OnlyWaits(w, w')
  {}

  lemma InsertWaits(w: World, w2: World, p: Proposal)
    requires w2.rows == w.rows && w2.applied == w.applied && w2.nextId == w.nextId && w.nextId !in w.rows
    requires p.status.Pending? && p.corroboration == 1
    ensures var w' := Insert(w2, p, false).0;
      && OnlyWaits(w, w') && (forall id :: id in w'.rows && id !in w.rows ==> w'.rows[id].sink == p.sink)
      && (LP.Quick(w2) ==> LP.Quick(w') && w'.now == w2.now && w'.rows == w.rows[w.nextId := p])
  {}

  /** What is still new for another sink. */
  lemma StillNew(w: World, w': World, added: string, sink: string, key: string, memory: int)
    requires OnlyWaits(w, w') && added != sink && NonePending(w.rows, sink, key, memory)
    requires forall id :: id in w'.rows && id !in w.rows ==> w'.rows[id].sink == added
    ensures NonePending(w'.rows, sink, key, memory)
  {}

  lemma WaitSteps(u: World, v: World, w: World)
    requires OnlyWaits(u, v) && OnlyWaits(v, w)
    ensures OnlyWaits(u, w)
  {}

  /** A routed signal whose sender is not sure commits nothing, applies nothing and reports nothing as committed; it
      leaves what is there as it is and adds proposals of corroboration 1 that wait for a second one. */
  lemma UnsureWaits(cfg: Config, w: World, signal: int, s: Signal, mask: Sinks)
    requires LS.Inv(cfg.cap, w) && AllNew(w.rows, s)
    requires s.signalType != "mark_rule" && (s.signalType == "preference_statement" ==> !s.highConfidence)
    ensures var (w', out) := Route(cfg, w, signal, s, mask); OnlyWaits(w, w') && out.committedIds == []
  {
    hide LS.Inv, Queue, WantsReranker, WantsSupersede, WantsRule, WantsWorkflow, RuleAction, IsConfident, NonePending,
         OnlyWaits, Adds1;
    var key, memory := s.targetKey, s.targetMemory;
    var rerank := Rerank(s.signalType == "thumb_up", memory, s.evidence);
    var supersede := Supersede(memory, s.correctionText);
    var flow := Workflow(s.workflowProject, s.workflowSignalType, s.description);
    ConfidentIsSure(s);
    var none := (w, Dispatch([], []));
    var a := Queue(cfg, none, WantsReranker(s, mask), signal, "reranker", key, memory, rerank, false);
    QueueWaits(cfg, none, WantsReranker(s, mask), signal, "reranker", key, memory, rerank);
    QueueAdds(cfg, none, WantsReranker(s, mask), signal, "reranker", key, memory, rerank, false);
    StillNew(w, a.0, "reranker", "supersede", key, memory);
    StillNew(w, a.0, "reranker", "rule", key, memory);
    StillNew(w, a.0, "reranker", "workflow", s.workflowProject, 0);
    var b := Queue(cfg, a, WantsSupersede(s, mask), signal, "supersede", key, memory, supersede, false);
    QueueWaits(cfg, a, WantsSupersede(s, mask), signal, "supersede", key, memory, supersede);
    QueueAdds(cfg, a, WantsSupersede(s, mask), signal, "supersede", key, memory, supersede, false);
    StillNew(a.0, b.0, "supersede", "rule", key, memory);
    StillNew(a.0, b.0, "supersede", "workflow", s.workflowProject, 0);
    WaitSteps(w, a.0, b.0);
    var c := Queue(cfg, b, WantsRule(s, mask), signal, "rule", key, memory, RuleAction(cfg, s), false);
    QueueWaits(cfg, b, WantsRule(s, mask), signal, "rule", key, memory, RuleAction(cfg, s));
    QueueAdds(cfg, b, WantsRule(s, mask), signal, "rule", key, memory, RuleAction(cfg, s), false);
    StillNew(b.0, c.0, "rule", "workflow", s.workflowProject, 0);
    WaitSteps(w, b.0, c.0);
    var d := Queue(cfg, c, WantsWorkflow(s, mask), signal, "workflow", s.workflowProject, 0, flow, false);
    QueueWaits(cfg, c, WantsWorkflow(s, mask), signal, "workflow", s.workflowProject, 0, flow);
    WaitSteps(w, c.0, d.0);
  }

  // ----------------------------------------------------------------- a sure sender

  /** The commits of a sink in the seven days (604800 seconds) up to `t`. */
  function Recent(rows: map<int, Proposal>, sink: string, t: int): set<int> {
    set id |
      id in rows && rows[id].status.Committed? && rows[id].sink == sink && 0 <= t - rows[id].committedAt < 604_800
  }

  lemma RecentIsWeek(rows: map<int, Proposal>, sink: string, t: int)
    ensures Recent(rows, sink, t) == Committed7(rows, sink, t)
  {}

  lemma RecentStays(w: World, w': World, sink: string, t: int)
    requires OnlyWaits(w, w')
    ensures Recent(w'.rows, sink, t) == Recent(w.rows, sink, t)
  {
    forall id ensures id in Recent(w'.rows, sink, t) <==> id in Recent(w.rows, sink, t) {
      assert id in w.rows ==> w'.rows[id] == w.rows[id];
    }
  }

  /** A first proposal of a sure sender, below the cap and with calls that work: it is committed at once. */
  lemma QueueCommits(cfg: Config, wo: (World, Dispatch), signal: int, key: string, memory: int, action: Action)
    requires LS.Inv(cfg.cap, wo.0) && LP.Quick(wo.0) && NonePending(wo.0.rows, "rule", key, memory)
    requires |Recent(wo.0.rows, "rule", wo.0.now)| < cfg.cap && wo.1.committedIds == []
    ensures var w, (w', out') := wo.0, Queue(cfg, wo, true, signal, "rule", key, memory, action, true);
      && LP.Quick(w') && w'.now == w.now && out'.committedIds == [w.nextId] && w.nextId !in w.rows
      && w'.rows == LP.Swept(w).rows[w.nextId := Proposal(signal, "rule", key, memory, action, Committed, 1,
                                                          w.now + cfg.ttl * 86_400, w.now, "")]
      && w'.applied == w.applied + multiset{(w.nextId, action)}
  {
    hide LS.Inv, Corroborate, Committed7, Recent, Commit, Matches, ListCommitted, Listed;
    var w := wo.0;
    NothingFound(w, "rule", key, memory);
    LP.NextIsPositive(cfg.cap, w);
    NextIsNew(cfg.cap, w);
    var p := Fresh(w, cfg.ttl, signal, "rule", key, memory, action);
    var w2 := Insert(w, p, true).0;
    assert Queue(cfg, wo, true, signal, "rule", key, memory, action, true) == Propose(cfg, w, wo.1, p, true);
    SameRecent(w, w2, w.nextId);
    RecentIsWeek(w2.rows, "rule", w.now);
    LP.CommitDecides(cfg, w2, w.nextId);
    LP.CommitIsQuick(cfg, w2, w.nextId);
    CommitClock(cfg, w2, w.nextId);
    hide LP.Swept;
    SweptWith(w, w2, w.nextId, LP.Settled(cfg, w2, w.nextId));
    var out1 := wo.1.(proposalIds := Listed(wo.1.proposalIds, w.nextId));
    LP.OneListed(out1, w.nextId, Commit(cfg, w2, w.nextId).1);
  }

  lemma NextIsNew(cap: nat, w: World)
    requires LS.Inv(cap, w)
    ensures w.nextId !in w.rows
  {}

  lemma SameRecent(w: World, w2: World, id: int)
    requires id !in w.rows && id in w2.rows && w2.rows == w.rows[id := w2.rows[id]] && w2.rows[id].status.Pending?
    ensures Recent(w2.rows, "rule", w.now) == Recent(w.rows, "rule", w.now)
  {}

  lemma CommitClock(cfg: Config, w: World, id: int)
    requires LP.Quick(w)
    ensures Commit(cfg, w, id).0.now == w.now
  {
    hide Committed7, Get, Archive, Mark, Apply, Tick, LP.Quick;
    Clocks(w, id, Rule("", ""));
    var (w1, found) := Get(w, id);
    if found.Some? && found.value.status.Pending? {
      Clocks(w1, id, found.value.action);
      var w3 := Apply(w1, id, found.value.action).0;
      Clocks(w3, id, Rule("", ""));
      Clocks(Archive(w1, id, "weekly_cap"), id, Rule("", ""));
      Clocks(Mark(w3, id), id, Rule("", ""));
      assert Tick(w1) == w1;
      assert Get(Archive(w1, id, "weekly_cap"), id).0.now == Get(Mark(w3, id), id).0.now == w.now;
    }
  }

  lemma Clocks(w: World, id: int, action: Action)
    requires LP.Quick(w)
    ensures Get(w, id).0.now == w.now && Archive(w, id, "weekly_cap").now == w.now && Mark(w, id).now == w.now
    ensures Apply(w, id, action).0.now == w.now && Tick(w) == w
    ensures LP.Quick(Get(w, id).0) && LP.Quick(Archive(w, id, "weekly_cap")) && LP.Quick(Mark(w, id))
    ensures LP.Quick(Apply(w, id, action).0)
  {}

  /** The sweep of a table with one proposal more. */
  lemma SweptWith(w: World, w2: World, id: int, p: Proposal)
    requires id !in w.rows && id in w2.rows && w2.rows == w.rows[id := w2.rows[id]] && w2.now == w.now
    ensures LP.Swept(w2).rows[id := p] == LP.Swept(w).rows[id := p]
  {
    var a, b := LP.Swept(w2).rows[id := p], LP.Swept(w).rows[id := p];
    assert a.Keys == b.Keys;
  }

  /** A routed signal of a sure sender whose targets are new commits its rule at once, below the cap and with calls that
      work: one new proposal of the rule sink, fitting the signal, committed now and the only one reported so. */
  lemma SureCommits(cfg: Config, w: World, signal: int, s: Signal, mask: Sinks)
    requires LS.Inv(cfg.cap, w) && LP.Quick(w) && AllNew(w.rows, s) && mask.rule
    requires s.signalType == "mark_rule" || (s.signalType == "preference_statement" && s.highConfidence)
    requires |Recent(w.rows, "rule", w.now)| < cfg.cap
    ensures var (w', out) := Route(cfg, w, signal, s, mask);
      exists id ::
        && id !in w.rows && id in w'.rows && out.committedIds == [id]
        && w'.rows[id].sink == "rule" && w'.rows[id].status.Committed? && w'.rows[id].committedAt == w.now
        && RuleFits(cfg, s, s.targetKey, w'.rows[id].action)
  {
    hide LS.Inv, Queue, WantsReranker, WantsSupersede, WantsRule, WantsWorkflow, RuleAction, IsConfident, NonePending,
         OnlyWaits, Adds1, Recent, RuleFits, LP.Swept;
    var key, memory := s.targetKey, s.targetMemory;
    var rerank := Rerank(s.signalType == "thumb_up", memory, s.evidence);
    var supersede := Supersede(memory, s.correctionText);
    var flow := Workflow(s.workflowProject, s.workflowSignalType, s.description);
    var action := RuleAction(cfg, s);
    ConfidentIsSure(s);
    SureIsWanted(s, mask);
    RuleIsRight(cfg, s, mask);
    var none := (w, Dispatch([], []));
    var a := Queue(cfg, none, WantsReranker(s, mask), signal, "reranker", key, memory, rerank, false);
    QueueWaits(cfg, none, WantsReranker(s, mask), signal, "reranker", key, memory, rerank);
    QueueAdds(cfg, none, WantsReranker(s, mask), signal, "reranker", key, memory, rerank, false);
    StillNew(w, a.0, "reranker", "supersede", key, memory);
    StillNew(w, a.0, "reranker", "rule", key, memory);
    StillNew(w, a.0, "reranker", "workflow", s.workflowProject, 0);
    RecentStays(w, a.0, "rule", w.now);
    var b := Queue(cfg, a, WantsSupersede(s, mask), signal, "supersede", key, memory, supersede, false);
    QueueWaits(cfg, a, WantsSupersede(s, mask), signal, "supersede", key, memory, supersede);
    QueueAdds(cfg, a, WantsSupersede(s, mask), signal, "supersede", key, memory, supersede, false);
    StillNew(a.0, b.0, "supersede", "rule", key, memory);
    StillNew(a.0, b.0, "supersede", "workflow", s.workflowProject, 0);
    RecentStays(a.0, b.0, "rule", w.now);
    WaitSteps(w, a.0, b.0);
    var c := Queue(cfg, b, true, signal, "rule", key, memory, action, true);
    QueueCommits(cfg, b, signal, key, memory, action);
    QueueAdds(cfg, b, true, signal, "rule", key, memory, action, true);
    SweptStillNew(b.0, c.0, "workflow", s.workflowProject, 0);
    var d := Queue(cfg, c, WantsWorkflow(s, mask), signal, "workflow", s.workflowProject, 0, flow, false);
    QueueWaits(cfg, c, WantsWorkflow(s, mask), signal, "workflow", s.workflowProject, 0, flow);
    var id := b.0.nextId;
    NotThere(w, b.0, id);
    Kept(c.0, d.0, id);
    assert d == Route(cfg, w, signal, s, mask);
    assert id !in w.rows && id in d.0.rows;
  }

  lemma SureIsWanted(s: Signal, mask: Sinks)
    ensures Sure(s) && mask.rule ==> WantsRule(s, mask)
  {}

  lemma NotThere(w: World, w': World, id: int)
    requires OnlyWaits(w, w') && id !in w'.rows
    ensures id !in w.rows
  {}

  lemma Kept(w: World, w': World, id: int)
    requires OnlyWaits(w, w') && id in w.rows
    ensures id in w'.rows && w'.rows[id] == w.rows[id]
  {}

  lemma SweptStillNew(w: World, w': World, sink: string, key: string, memory: int)
    requires NonePending(w.rows, sink, key, memory) && w.nextId in w'.rows && !w'.rows[w.nextId].status.Pending?
    requires w'.rows == LP.Swept(w).rows[w.nextId := w'.rows[w.nextId]]
    ensures NonePending(w'.rows, sink, key, memory)
  {}

  // ------------------------------------------------------------------------- over runs

  /** Whoever one operation marks as sure was inserted by it, from a recorded signal of a sure sender; whoever it
      marks as accepted, it accepts. */
  ghost predicate Traced(w: World, op: Op, w': World) {
    && w.confident <= w'.confident && w.accepted <= w'.accepted
    && (forall id :: id in w'.confident && id !in w.confident ==>
          op.RecordOp? && Sure(op.signal) && id !in w.rows && id in w'.rows)
    && (forall id :: id in w'.accepted && id !in w.accepted ==> op == AcceptOp(id))
  }

  lemma QuietTraced(w: World, op: Op, w': World)
    requires Adds0(w, w')
    ensures Traced(w, op, w')
  {
    hide Sure;
  }

  lemma DoTraces(cfg: Config, w: World, op: Op)
    requires LS.Inv(cfg.cap, w)
    ensures Traced(w, op, Do(cfg, w, op))
  {
    hide LS.Inv, Record, Accept, Reject, Get, ArchiveExpired, Tick, Traced, Adds0;
    match op
    case RecordOp(s, admitted, mask, key) => RecordTraces(cfg, w, s, admitted, mask, key);
    case AcceptOp(id) => AcceptTraces(cfg, w, id);
    case RejectOp(id) =>
      RejectAdds(w, id);
      QuietTraced(w, op, Reject(w, id).0);
    case GetOp(id) =>
      CallsAdd(w, id, "", Rule("", ""));
      QuietTraced(w, op, Get(w, id).0);
    case ListOp =>
      CallsAdd(w, 0, "", Rule("", ""));
      CallsAdd(ArchiveExpired(w), 0, "", Rule("", ""));
      Adds0Steps(w, ArchiveExpired(w), Tick(ArchiveExpired(w)));
      QuietTraced(w, op, Tick(ArchiveExpired(w)));
  }

  lemma RecordTraces(cfg: Config, w: World, s: Signal, admitted: bool, mask: Option<Sinks>, memoryKey: Option<string>)
    requires LS.Inv(cfg.cap, w)
    ensures Traced(w, RecordOp(s, admitted, mask, memoryKey), Record(cfg, w, s, admitted, mask, memoryKey).0)
  {
    hide LS.Inv, Record, Fits, Sure;
    RecordAdds(cfg, w, s, admitted, mask, memoryKey);
  }

  lemma AcceptTraces(cfg: Config, w: World, id: int)
    ensures Traced(w, AcceptOp(id), Accept(cfg, w, id).0)
  {
    hide Commit, ArchiveExpired, Sure, Adds0;
    var wa := if id in w.rows then w.(accepted := w.accepted + {id}) else w;
    CallsAdd(wa, id, "", Rule("", ""));
    CommitAdds(cfg, ArchiveExpired(wa), id);
    Adds0Steps(wa, ArchiveExpired(wa), Commit(cfg, ArchiveExpired(wa), id).0);
    AddsKeepMarks(wa, Commit(cfg, ArchiveExpired(wa), id).0);
    AddsKeepMarks(wa, ArchiveExpired(wa));
  }

  lemma AddsKeepMarks(w: World, w': World)
    requires Adds0(w, w')
    ensures w'.confident == w.confident && w'.accepted == w.accepted
  {
    hide Sure;
  }

  lemma RejectAdds(w: World, id: int)
    ensures Adds0(w, Reject(w, id).0)
  {
    hide Get, Archive, Adds0;
    var (w1, found) := Get(w, id);
    Same0(w);
    CallsAdd(w, id, "", Rule("", ""));
    CallsAdd(w1, id, "rejected", Rule("", ""));
    Adds0Steps(w, w1, Archive(w1, id, "rejected"));
    GetAdds(w, w1, id);
    GetAdds(w, Archive(w1, id, "rejected"), id);
  }

  /** The `k`-th operation recorded a signal of a sure sender and inserted `id`. */
  ghost predicate InsertedSure(cfg: Config, w: World, ops: seq<Op>, k: nat, id: int) {
    && k < |ops| && ops[k].RecordOp? && Sure(ops[k].signal)
    && id !in Run(cfg, w, ops[..k]).rows && id in Run(cfg, w, ops[..k + 1]).rows
  }

  lemma {:induction false} RunTraces(cfg: Config, w: World, ops: seq<Op>, id: int)
    requires LS.Inv(cfg.cap, w)
    ensures id in Run(cfg, w, ops).confident ==> id in w.confident || exists k :: InsertedSure(cfg, w, ops, k, id)
    ensures id in Run(cfg, w, ops).accepted ==> id in w.accepted || AcceptOp(id) in ops
    decreases |ops|
  {
    hide LS.Inv, LS.Evolves, Do, Sure;
    if ops != [] {
      var w1, rest := Do(cfg, w, ops[0]), ops[1..];
      LS.DoSafe(cfg, w, ops[0]);
      DoTraces(cfg, w, ops[0]);
      RunTraces(cfg, w1, rest, id);
      if id in Run(cfg, w, ops).confident && id !in w.confident {
        if id in w1.confident {
          FirstIsSure(cfg, w, ops, id);
        } else {
          var k :| InsertedSure(cfg, w1, rest, k, id);
          LaterIsSure(cfg, w, ops, k, id);
        }
      }
    }
  }

  lemma FirstIsSure(cfg: Config, w: World, ops: seq<Op>, id: int)
    requires ops != [] && ops[0].RecordOp? && Sure(ops[0].signal) && id !in w.rows && id in Do(cfg, w, ops[0]).rows
    ensures InsertedSure(cfg, w, ops, 0, id)
  {
    hide Do, Sure;
    assert ops[..0] == [] && ops[..1] == [ops[0]] && [ops[0]][1..] == [];
    assert Run(cfg, w, ops[..1]) == Run(cfg, Do(cfg, w, ops[0]), []);
  }

  lemma LaterIsSure(cfg: Config, w: World, ops: seq<Op>, k: nat, id: int)
    requires ops != [] && InsertedSure(cfg, Do(cfg, w, ops[0]), ops[1..], k, id)
    ensures InsertedSure(cfg, w, ops, k + 1, id)
  {
    hide Do, Sure;
    assert ops[..k + 1][1..] == ops[1..][..k] && ops[..k + 2][1..] == ops[1..][..k + 1];
  }

  /** Every commit of every run from an empty table can be traced: to an acceptance of the proposal, to a second signal,
      or, for the rule sink, to the recorded signal that inserted it, an explicit rule or a preference stated with high
      confidence. */
  lemma CommitsAreTraced(cfg: Config, w: World, ops: seq<Op>, id: int)
    requires w.rows == map[] && w.nextId == 1 && w.applied == multiset{} && w.lostMarks == multiset{}
    requires w.accepted == {} && w.confident == {}
    requires var w' := Run(cfg, w, ops); id in w'.rows && w'.rows[id].status.Committed?
    ensures AcceptOp(id) in ops || Run(cfg, w, ops).rows[id].corroboration >= 2
            || (Run(cfg, w, ops).rows[id].sink == "rule" && exists k :: InsertedSure(cfg, w, ops, k, id))
  {
    hide LS.Inv, Run, InsertedSure;
    LS.EmptyInv(cfg.cap, w);
    LS.CommitsAreEarned(cfg, w, ops, id);
    RunTraces(cfg, w, ops, id);
  }

  /** A report takes eight ids of each kind and drops any more. */
  lemma ReportsEight(ids: seq<int>, id: int)
    ensures Listed(ids, id) == if |ids| < 8 then ids + [id] else ids
  {}

  /** Ids that no proposal can have are refused at once; those of no proposal commit nothing. */
  lemma UnknownIsRefused(cfg: Config, w: World, id: int)
    ensures id <= 0 ==> Accept(cfg, w, id) == (w, None) && Reject(w, id) == (w, None)
    ensures id !in w.rows ==>
              Accept(cfg, w, id).1 == None && Reject(w, id).1 == None && Adds0(w, Accept(cfg, w, id).0)
              && Accept(cfg, w, id).0.applied == w.applied
  {
    hide Mark, Apply, Archive, Tick;
    if id > 0 {
      CallsAdd(w, id, "", Rule("", ""));
      CommitAdds(cfg, ArchiveExpired(w), id);
      Adds0Steps(w, ArchiveExpired(w), Commit(cfg, ArchiveExpired(w), id).0);
      TickApplies(w);
      TickApplies(ArchiveExpired(w));
      TickApplies(ArchiveExpired(ArchiveExpired(w)));
    }
  }

  lemma TickApplies(w: World)
    ensures Tick(w).applied == w.applied && Tick(w).rows == w.rows
    ensures ArchiveExpired(w).applied == w.applied
  {}

  // ------------------------------------------------------------------------ the sweep

  /** The sweep archives exactly the pending proposals whose time is over, with that reason. */
  lemma SweepExactly(w: World, id: int)
    requires w.fates == [] || w.fates[0].ok
    ensures var w' := ArchiveExpired(w);
      && w'.rows.Keys == w.rows.Keys && w'.applied == w.applied && w'.now == Tick(w).now
      && (id in w.rows ==>
            w'.rows[id] == if w.rows[id].status.Pending? && w.rows[id].expiresAt < w'.now
                           then w.rows[id].(status := Archived, archiveReason := "expired") else w.rows[id])
  {
    assert ArchiveExpired(w).rows.Keys == w.rows.Keys;
  }

  /** Accepting sweeps first: a proposal whose time is over when that call works is not committed any more. */
  lemma ExpiredIsNotAccepted(cfg: Config, w: World, id: int)
    requires w.fates == [] || w.fates[0].ok
    requires id > 0 && id in w.rows && w.rows[id].status.Pending? && w.rows[id].expiresAt < Tick(w).now
    ensures var (w', answer) := Accept(cfg, w, id);
      && id in w'.rows && w'.rows[id] == w.rows[id].(status := Archived, archiveReason := "expired")
      && w'.applied == w.applied && (answer.Some? ==> answer.value == w'.rows[id])
  {
    hide Mark, Apply, Archive, Committed7;
    var wa := w.(accepted := w.accepted + {id});
    SweepExactly(wa, id);
    var w1 := ArchiveExpired(wa);
    LS.GetQuiet(w1, id);
    assert LS.Later(w1.rows[id], Get(w1, id).0.rows[id]);
  }

  /** So does recording: what is over when that call works is archived, whatever becomes of the signal. */
  lemma RecordSweeps(cfg: Config, w: World, s: Signal, mask: Sinks, memoryKey: Option<string>, id: int)
    requires LS.Inv(cfg.cap, w) && (w.fates == [] || w.fates[0].ok) && s.signalType != ""
    requires id in w.rows && w.rows[id].status.Pending? && w.rows[id].expiresAt < Tick(w).now
    ensures var w' := Record(cfg, w, s, true, Some(mask), memoryKey).0;
      id in w'.rows && w'.rows[id] == w.rows[id].(status := Archived, archiveReason := "expired")
  {
    hide LS.Inv, LS.Quiet, Route, FillKey, InsertSignal, ArchiveExpired;
    SweepExactly(w, id);
    var w0 := ArchiveExpired(w);
    var (w1, signal) := InsertSignal(w0);
    LS.ArchiveExpiredQuiet(w);
    LS.InsertSignalQuiet(w0);
    LS.QuietInv(cfg.cap, w, w0);
    LS.QuietInv(cfg.cap, w0, w1);
    SettledStays(w0, w1, id);
    if signal > 0 {
      var filled := FillKey(s, memoryKey);
      SafeStart(cfg.cap, w1);
      LS.RouteSafe(cfg, w1, w1, signal, filled, mask);
      StillSettled(w1, Route(cfg, w1, signal, filled, mask).0, id);
    }
  }

  lemma SettledStays(w: World, w': World, id: int)
    requires LS.Quiet(w, w') && id in w.rows && !w.rows[id].status.Pending?
    ensures id in w'.rows && w'.rows[id] == w.rows[id]
  {
    assert LS.Later(w.rows[id], w'.rows[id]);
  }

  lemma StillSettled(w: World, w': World, id: int)
    requires LS.Evolves(w, w') && id in w.rows && !w.rows[id].status.Pending?
    ensures id in w'.rows && w'.rows[id] == w.rows[id]
  {
    assert LS.Later(w.rows[id], w'.rows[id]);
  }

  /** And reading: the answer is the row after the sweep, when both calls work. */
  lemma GetExactly(w: World, id: int)
    requires w.fates == []
    ensures var (w', answer) := Get(w, id);
      && (answer.Some? <==> id in w.rows) && w'.applied == w.applied && w'.rows.Keys == w.rows.Keys
      && (id in w.rows ==>
            answer.value == w'.rows[id]
            && w'.rows[id] == if w.rows[id].status.Pending? && w.rows[id].expiresAt < w.now
                              then w.rows[id].(status := Archived, archiveReason := "expired") else w.rows[id])
  {
    SweepExactly(w, id);
  }
}
