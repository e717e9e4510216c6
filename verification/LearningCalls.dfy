/** The router's code (src/modules/learning/learning_router.c) over a table object that changes in place,
    against the specification in `LearningRouter`. */
module LearningCalls {
  import opened LearningStore
  import opened Options
  import opened LearningRouter
  import LS = LearningSafety

  /** The table behind `db2_learning_*`: each call takes its time and may fail, as its script says. */
  class Store {
    var rows: map<int, Proposal>
    var nextId: int
    var nextSignal: int
    var now: int
    var fates: seq<Fate>
    ghost var applied: multiset<(int, Action)>
    ghost var lostMarks: multiset<int>
    ghost var accepted: set<int>
    ghost var confident: set<int>

    ghost function View(): World
      reads this
    {
      World(rows, nextId, nextSignal, now, fates, applied, lostMarks, accepted, confident)
    }

    /** The time a call takes, and whether it works. */
    method Call() returns (ok: bool)
      modifies this`now, this`fates
      ensures View() == Tick(old(View())) && ok == Works(old(View()))
    {
      ok := true;
      if fates != [] { ok, now, fates := fates[0].ok, now + fates[0].delay, fates[1..]; }
    }

    /** Archives what has expired; only pending proposals can. */
    method ProposalsArchiveExpired()
      modifies this
      ensures View() == ArchiveExpired(old(View()))
      ensures forall id :: id in old(rows) && !old(rows)[id].status.Pending? ==> id in rows && rows[id] == old(rows)[id]
    {
      var ok := Call();
      if ok { rows := map id | id in rows :: Expire(rows[id], now); }
    }

    method ProposalGet(id: int) returns (p: Option<Proposal>)
      modifies this`now, this`fates
      ensures View() == Tick(old(View()))
      ensures p.Some? <==> Works(old(View())) && id in rows
      ensures p.Some? ==> p.value == rows[id]
    {
      var ok := Call();
      p := if ok && id in rows then Some(rows[id]) else None;
    }

    /** The pending proposal for a target; 0 exactly when there is none. */
    method ProposalFindPending(sink: string, key: string, memory: int) returns (id: int)
      requires LS.OnePending(rows) && LS.Ids(rows, nextId)
      modifies this`now, this`fates
      ensures View() == Tick(old(View())) && id == FindPending(rows, sink, key, memory)
      ensures id != 0 <==> exists i :: i in rows && Matches(rows[i], sink, key, memory)
      ensures id != 0 ==> id in rows && Matches(rows[id], sink, key, memory)
    {
      var _ := Call();
      ghost var found := FindPending(rows, sink, key, memory);
      if i :| i in rows && Matches(rows[i], sink, key, memory) {
        assert found != 0;
        assert LS.Alike(rows[i], rows[found]);
        return i;
      }
      return 0;
    }

    method ProposalBumpCorroboration(id: int)
      modifies this`now, this`fates, this`rows
      ensures View() == Bump(old(View()), id)
    {
      var ok := Call();
      if ok && id in rows { rows := rows[id := rows[id].(corroboration := rows[id].corroboration + 1)]; }
    }

    /** Starts a pending proposal at one corroboration. */
    method ProposalInsert(signal: int, sink: string, key: string, memory: int, action: Action, expiresAt: int,
        ghost sure: bool)
        returns (id: int)
      modifies this
      ensures var p := Proposal(signal, sink, key, memory, action, Pending, 1, expiresAt, 0, "");
        View() == Insert(old(View()), p, sure).0 && id == Insert(old(View()), p, sure).1
    {
      var ok := Call();
      if !ok { return -1; }
      id := nextId;
      rows := rows[id := Proposal(signal, sink, key, memory, action, Pending, 1, expiresAt, 0, "")];
      nextId := nextId + 1;
      if sure { confident := confident + {id}; }
    }

    /** How many proposals of a sink were committed in the seven days up to now. */
    method CommitsInLast7Days(sink: string) returns (n: nat)
      modifies this`now, this`fates
      ensures View() == Tick(old(View())) && n == |Committed7(rows, sink, now)|
    {
      var _ := Call();
      n := |Committed7(rows, sink, now)|;
    }

    method ProposalArchive(id: int, reason: string)
      modifies this`now, this`fates, this`rows
      ensures View() == Archive(old(View()), id, reason)
    {
      var ok := Call();
      if ok && id in rows { rows := rows[id := rows[id].(status := Archived, archiveReason := reason)]; }
    }

    /** Stamps the proposal with the time of the call. */
    method ProposalMarkCommitted(id: int)
      modifies this
      ensures View() == Mark(old(View()), id)
    {
      var ok := Call();
      if ok && id in rows {
        rows := rows[id := rows[id].(status := Committed, committedAt := now)];
      } else {
        lostMarks := lostMarks + multiset{id};
      }
    }

    method SignalInsert() returns (id: int)
      modifies this
      ensures View() == InsertSignal(old(View())).0 && id == InsertSignal(old(View())).1
    {
      var ok := Call();
      if !ok { return -1; }
      id := nextSignal;
      nextSignal := nextSignal + 1;
    }

    /** The sinks; what they do lies outside the table. */
    method ApplySink(id: int, action: Action) returns (ok: bool)
      modifies this
      ensures View() == Apply(old(View()), id, action).0 && ok == Apply(old(View()), id, action).1
    {
      ok := Call();
      if ok { applied := applied + multiset{(id, action)}; }
    }
  }

  class Router {
    const store: Store
    const cfg: Config

    constructor (store: Store, cfg: Config)
      ensures this.store == store && this.cfg == cfg
    {
      this.store, this.cfg := store, cfg;
    }

    ghost predicate Valid()
      reads store
    {
      LS.Inv(cfg.cap, store.View())
    }

    method GetProposal(id: int) returns (answer: Answer)
      requires Valid()
      modifies store
      ensures Valid() && store.View() == Get(old(store.View()), id).0 && answer == Get(old(store.View()), id).1
    {
      LS.GetQuiet(store.View(), id);
      LS.QuietInv(cfg.cap, store.View(), Get(store.View(), id).0);
      hide LS.Inv, Works, Tick;
      store.ProposalsArchiveExpired();
      answer := store.ProposalGet(id);
    }

    /** Commits an entitled proposal, archives it over the cap, or reports a settled one as it is. */
    method CommitProposal(id: int) returns (answer: Answer)
      requires Valid() && LS.Entitled(store.rows, store.accepted, store.confident, id)
      modifies store
      ensures Valid() && store.View() == Commit(cfg, old(store.View()), id).0
              && answer == Commit(cfg, old(store.View()), id).1
    {
      LS.CommitSafe(cfg, store.View(), id);
      LS.GetQuiet(store.View(), id);
      LS.QuietInv(cfg.cap, store.View(), Get(store.View(), id).0);
      hide LS.Inv, LS.Entitled, LS.Evolves, LS.Quiet, Get, Archive, Mark, Apply, Tick, Committed7;
      var proposal := GetProposal(id);
      if proposal.None? { return None; }
      if proposal.value.status.Committed? { return proposal; }
      if !proposal.value.status.Pending? { return proposal; }
      var n := store.CommitsInLast7Days(proposal.value.sink);
      if n >= cfg.cap {
        store.ProposalArchive(id, "weekly_cap");
        answer := Reread(id);
        return;
      }
      var ok := store.ApplySink(id, proposal.value.action);
      if !ok { return None; }
      store.ProposalMarkCommitted(id);
      answer := Reread(id);
    }

    /** `learning_get_proposal` at the end of a call. */
    method Reread(id: int) returns (answer: Answer)
      modifies store
      ensures store.View() == Get(old(store.View()), id).0 && answer == Get(old(store.View()), id).1
    {
      hide Works, Tick;
      store.ProposalsArchiveExpired();
      answer := store.ProposalGet(id);
    }

    static method List(ids: seq<int>, id: int) returns (r: seq<int>)
      ensures r == Listed(ids, id) && |r| <= if |ids| < MAX_PROPOSAL_IDS then MAX_PROPOSAL_IDS else |ids|
    {
      r := if |ids| < MAX_PROPOSAL_IDS then ids + [id] else ids;
    }

    /** One signal for one sink. */
    method QueueForSink(out: Dispatch, signal: int, sink: string, key: string, memory: int, action: Action, sure: bool)
        returns (r: Dispatch)
      requires Valid() && (sure ==> sink == "rule")
      modifies store
      ensures Valid()
      ensures (store.View(), r) == QueueSink(cfg, old(store.View()), out, signal, sink, key, memory, action, sure)
    {
      ghost var w := store.View();
      Ready();
      hide LS.Inv, LS.Ids, LS.OnePending, LS.Alike, Tick, Works, Propose, Corroborate, Matches, FindPending;
      var id := store.ProposalFindPending(sink, key, memory);
      ghost var w1 := store.View();
      assert w1 == Tick(w) && id == FindPending(w1.rows, sink, key, memory);
      if id > 0 {
        LS.MatchIsPending(store.rows[id], sink, key, memory);
        r := CorroborateProposal(out, id);
      } else {
        NothingPending(sink, key, memory);
        r := ProposeNew(out, signal, sink, key, memory, action, store.now + cfg.ttl * DAY, sure);
      }
    }

    method ProposeNew(out: Dispatch, signal: int, sink: string, key: string, memory: int, action: Action,
        expiresAt: int, sure: bool)
        returns (r: Dispatch)
      requires Valid() && (sure ==> sink == "rule")
      requires forall id :: id in store.rows ==> !Matches(store.rows[id], sink, key, memory)
      modifies store
      ensures Valid()
      ensures var p := Proposal(signal, sink, key, memory, action, Pending, 1, expiresAt, 0, "");
        (store.View(), r) == Propose(cfg, old(store.View()), out, p, sure)
    {
      LS.InsertInv(cfg.cap, store.View(), Proposal(signal, sink, key, memory, action, Pending, 1, expiresAt, 0, ""),
        sure);
      hide LS.Inv, LS.Entitled, LS.Evolves, Insert, Commit, Matches;
      r := out;
      var added := store.ProposalInsert(signal, sink, key, memory, action, expiresAt, sure);
      if added <= 0 { return; }
      var ids := List(r.proposalIds, added);
      r := r.(proposalIds := ids);
      if sure {
        SureIsEntitled(added);
        var answer := CommitProposal(added);
        if answer.Some? && answer.value.status.Committed? {
          var committed := List(r.committedIds, added);
          r := r.(committedIds := committed);
        }
      }
    }

    lemma Ready()
      requires Valid()
      ensures LS.OnePending(store.rows) && LS.Ids(store.rows, store.nextId) && LS.Inv(cfg.cap, Tick(store.View()))
    {
      LS.TickQuiet(store.View());
      LS.QuietInv(cfg.cap, store.View(), Tick(store.View()));
    }

    lemma NothingPending(sink: string, key: string, memory: int)
      requires Valid() && FindPending(store.rows, sink, key, memory) <= 0
      ensures forall id :: id in store.rows ==> !Matches(store.rows[id], sink, key, memory)
    {
      LS.NoMatch(cfg.cap, store.View(), sink, key, memory);
    }

    lemma SureIsEntitled(id: int)
      requires id in store.confident && id in store.rows && store.rows[id].sink == "rule"
      ensures LS.Entitled(store.rows, store.accepted, store.confident, id)
    {}

    method CorroborateProposal(out: Dispatch, id: int) returns (r: Dispatch)
      requires Valid() && id in store.rows && store.rows[id].status.Pending?
      modifies store
      ensures Valid()
      ensures store.View() == Corroborate(cfg, old(store.View()), out, id).0
              && r == Corroborate(cfg, old(store.View()), out, id).1
    {
      ghost var w := store.View();
      LS.BumpQuiet(w, id);
      LS.QuietInv(cfg.cap, w, Bump(w, id));
      LS.GetQuiet(Bump(w, id), id);
      hide LS.Inv, LS.Evolves, LS.Quiet, Get, Bump, Commit;
      store.ProposalBumpCorroboration(id);
      var ids := List(out.proposalIds, id);
      r := out.(proposalIds := ids);
      var proposal := GetProposal(id);
      if proposal.Some? && proposal.value.corroboration >= 2 {
        var answer := CommitProposal(id);
        if answer.Some? && answer.value.status.Committed? {
          var committed := List(r.committedIds, id);
          r := r.(committedIds := committed);
        }
      }
    }

    /** Renders the action, which may fail, and queues it. */
    method QueueWanted(out: Dispatch, wanted: bool, signal: int, sink: string, key: string, memory: int,
        action: Action, sure: bool)
        returns (r: Dispatch)
      requires Valid() && (sure ==> sink == "rule")
      modifies store
      ensures Valid()
      ensures (store.View(), r) == Queue(cfg, (old(store.View()), out), wanted, signal, sink, key, memory, action, sure)
    {
      r := out;
      if !wanted { return; }
      LS.TickQuiet(store.View());
      LS.QuietInv(cfg.cap, store.View(), Tick(store.View()));
      hide LS.Inv, LS.Quiet, QueueSink, Tick, Works;
      var ok := store.Call();
      if ok { r := QueueForSink(out, signal, sink, key, memory, action, sure); }
    }

    /** Records a signal behind the integrity gate and the classifier, and routes it to its sinks. */
    method RecordSignal(s: Signal, admitted: bool, mask: Option<Sinks>, memoryKey: Option<string>)
        returns (signal: int, out: Dispatch)
      requires Valid()
      modifies store
      ensures Valid()
      ensures (store.View(), signal, out) == Record(cfg, old(store.View()), s, admitted, mask, memoryKey)
    {
      out := Dispatch([], []);
      if s.signalType == "" || !admitted || mask.None? { return -1, out; }
      ghost var w := store.View();
      LS.ArchiveExpiredQuiet(w);
      LS.InsertSignalQuiet(ArchiveExpired(w));
      LS.QuietSteps(w, ArchiveExpired(w), InsertSignal(ArchiveExpired(w)).0);
      LS.QuietInv(cfg.cap, w, InsertSignal(ArchiveExpired(w)).0);
      hide LS.Inv, LS.Quiet, LS.Evolves, Route, ArchiveExpired, InsertSignal;
      store.ProposalsArchiveExpired();
      signal := store.SignalInsert();
      if signal <= 0 { return -1, out; }
      var key :=
        if s.targetKey != "" || s.targetMemory <= 0 || memoryKey.None? then s
        else s.(targetKey := memoryKey.value);
      out := RouteSignal(signal, key, mask.value);
    }

    method RouteSignal(signal: int, s: Signal, mask: Sinks) returns (out: Dispatch)
      requires Valid()
      modifies store
      ensures Valid() && (store.View(), out) == Route(cfg, old(store.View()), signal, s, mask)
    {
      hide LS.Inv, Queue, WantsReranker, WantsSupersede, WantsRule, WantsWorkflow, RuleAction, IsConfident;
      out := QueueWanted(Dispatch([], []), WantsReranker(s, mask), signal, "reranker", s.targetKey, s.targetMemory,
                         Rerank(s.signalType == "thumb_up", s.targetMemory, s.evidence), false);
      out := QueueWanted(out, WantsSupersede(s, mask), signal, "supersede", s.targetKey, s.targetMemory,
                         Supersede(s.targetMemory, s.correctionText), false);
      out := QueueWanted(out, WantsRule(s, mask), signal, "rule", s.targetKey, s.targetMemory, RuleAction(cfg, s),
        IsConfident(s));
      out := QueueWanted(out, WantsWorkflow(s, mask), signal, "workflow", s.workflowProject, 0,
                         Workflow(s.workflowProject, s.workflowSignalType, s.description), false);
    }

    method AcceptProposal(id: int) returns (answer: Answer)
      requires Valid()
      modifies store
      ensures Valid() && (store.View(), answer) == Accept(cfg, old(store.View()), id)
    {
      if id <= 0 { return None; }
      ghost var w := store.View();
      ghost var wa := if id in w.rows then w.(accepted := w.accepted + {id}) else w;
      LS.NowAccepted(w, id);
      LS.ArchiveExpiredQuiet(wa);
      LS.QuietSteps(w, wa, ArchiveExpired(wa));
      LS.QuietInv(cfg.cap, w, ArchiveExpired(wa));
      LS.StillEntitled(wa, ArchiveExpired(wa), id);
      hide LS.Inv, LS.Quiet, LS.Evolves, LS.Entitled, Commit, ArchiveExpired;
      if id in store.rows { store.accepted := store.accepted + {id}; }
      assert store.View() == wa;
      store.ProposalsArchiveExpired();
      answer := CommitProposal(id);
    }

    method RejectProposal(id: int) returns (answer: Answer)
      requires Valid()
      modifies store
      ensures Valid() && (store.View(), answer) == Reject(old(store.View()), id)
    {
      LS.RejectSafe(cfg.cap, store.View(), id);
      hide LS.Inv, LS.Quiet, Get, Archive;
      if id <= 0 { return None; }
      var proposal := GetProposal(id);
      if proposal.None? { return None; }
      if !proposal.value.status.Committed? && !proposal.value.status.Archived? {
        store.ProposalArchive(id, "rejected");
      }
      answer := Reread(id);
    }
  }
}
