/** What the proposal lifecycle guarantees over every run: the weekly cap as a true sliding window, settled
    proposals that never change, sinks applied once per commit, and commits that were earned. */
module LearningSafety {
  import opened LearningStore
  import opened Options
  import opened LearningRouter

  // --------------------------------------------------------------- invariants

  ghost predicate Ids(rows: map<int, Proposal>, nextId: int) {
    nextId > 0 && forall id :: id in rows ==> 0 < id < nextId
  }

  /** At most one pending proposal per sink, target key and target memory. */
  ghost predicate OnePending(rows: map<int, Proposal>) {
    forall i, j :: i in rows && j in rows && Alike(rows[i], rows[j]) ==> i == j
  }

  /** Both pending for the same target: `find_pending` would not tell them apart. */
  ghost predicate Alike(p: Proposal, q: Proposal) {
    q.status.Pending? && Matches(p, q.sink, q.targetKey, q.targetMemory)
  }

  ghost predicate Stamped(rows: map<int, Proposal>, now: int) {
    forall id :: id in rows && rows[id].status.Committed? ==> rows[id].committedAt <= now
  }

  /** For every sink and every instant `t`, not only those at which something commits: at most `cap`
      proposals were committed in the seven days up to `t`. */
  ghost predicate Windows(rows: map<int, Proposal>, cap: nat) {
    forall sink: string, t: int :: |Committed7(rows, sink, t)| <= cap
  }

  /** A sink was applied once for each commit and once more for each commit mark that was lost, always with
      the action stored when the proposal was inserted. */
  ghost predicate AppliedOnce(rows: map<int, Proposal>, applied: multiset<(int, Action)>, lost: multiset<int>) {
    && (forall id :: id in rows ==>
       applied[(id, rows[id].action)] == lost[id] + (if rows[id].status.Committed? then 1 else 0))
    && (forall id, a :: (id, a) in applied ==> id in rows && rows[id].action == a)
    && (forall id :: id in lost ==> id in rows)
  }

  /** This proposal may commit: it was accepted, or seen twice, or is a rule its sender was sure of. */
  ghost predicate Entitled(rows: map<int, Proposal>, accepted: set<int>, confident: set<int>, id: int) {
    id in rows ==> id in accepted || rows[id].corroboration >= 2 || (id in confident && rows[id].sink == "rule")
  }

  ghost predicate Earned(rows: map<int, Proposal>, accepted: set<int>, confident: set<int>) {
    forall id :: id in rows && rows[id].status.Committed? ==> Entitled(rows, accepted, confident, id)
  }

  ghost predicate Inv(cap: nat, w: World) {
    && Ids(w.rows, w.nextId) && OnePending(w.rows) && Stamped(w.rows, w.now) && Windows(w.rows, cap)
    && AppliedOnce(w.rows, w.applied, w.lostMarks) && Earned(w.rows, w.accepted, w.confident)
  }

  // ---------------------------------------------------------------- evolution

  /** A proposal only moves forward: its identity and action never change, and once settled nothing does. */
  ghost predicate Later(p: Proposal, q: Proposal) {
    && q.signalId == p.signalId && q.sink == p.sink && q.targetKey == p.targetKey && q.targetMemory == p.targetMemory
    && q.action == p.action && q.expiresAt == p.expiresAt && q.corroboration >= p.corroboration
    && (!p.status.Pending? ==> q == p)
  }

  ghost predicate RowsLater(rows: map<int, Proposal>, rows': map<int, Proposal>) {
    forall id :: id in rows ==> id in rows' && Later(rows[id], rows'[id])
  }

  ghost predicate Evolves(w: World, w': World) {
    && RowsLater(w.rows, w'.rows) && w.now <= w'.now && w.accepted <= w'.accepted && w.confident <= w'.confident
  }

  /** Nothing commits and nothing is added. */
  ghost predicate RowsQuiet(rows: map<int, Proposal>, rows': map<int, Proposal>) {
    && rows'.Keys == rows.Keys
    && forall id :: id in rows ==>
       Later(rows[id], rows'[id]) && (rows'[id].status.Committed? ==> rows[id].status.Committed?)
  }

  ghost predicate Quiet(w: World, w': World) {
    && RowsQuiet(w.rows, w'.rows) && w.now <= w'.now && w'.nextId == w.nextId && w'.applied == w.applied
    && w'.lostMarks == w.lostMarks && w.accepted <= w'.accepted && w.confident <= w'.confident
  }

  lemma QuietSteps(u: World, v: World, w: World)
    ensures Quiet(u, v) && Quiet(v, w) ==> Quiet(u, w)
    ensures Evolves(u, v) && Evolves(v, w) ==> Evolves(u, w)
  {
    if RowsLater(u.rows, v.rows) && RowsLater(v.rows, w.rows) {
      forall id | id in u.rows ensures id in w.rows && Later(u.rows[id], w.rows[id]) {
        assert Later(u.rows[id], v.rows[id]) && Later(v.rows[id], w.rows[id]);
      }
    }
  }

  lemma QuietEvolves(w: World, w': World)
    requires Quiet(w, w')
    ensures Evolves(w, w')
  {}

  lemma QuietRows(cap: nat, rows: map<int, Proposal>, rows': map<int, Proposal>)
    requires RowsQuiet(rows, rows') && OnePending(rows) && Windows(rows, cap)
    ensures OnePending(rows') && Windows(rows', cap)
  {
    forall sink: string, t: int ensures |Committed7(rows', sink, t)| <= cap {
      forall id | id in rows
        ensures id in rows' && (id in Committed7(rows', sink, t) <==> id in Committed7(rows, sink, t))
      {
        assert Later(rows[id], rows'[id]);
      }
      assert Committed7(rows', sink, t) == Committed7(rows, sink, t);
    }
    forall i, j | i in rows' && j in rows' && Alike(rows'[i], rows'[j]) ensures i == j {
      assert Later(rows[i], rows'[i]) && Later(rows[j], rows'[j]);
      assert Alike(rows[i], rows[j]);
    }
  }

  lemma QuietEarned(w: World, w': World)
    requires Quiet(w, w') && Earned(w.rows, w.accepted, w.confident)
    ensures Earned(w'.rows, w'.accepted, w'.confident)
  {
    forall id | id in w'.rows && w'.rows[id].status.Committed?
      ensures Entitled(w'.rows, w'.accepted, w'.confident, id)
    {
      assert Later(w.rows[id], w'.rows[id]);
      assert Entitled(w.rows, w.accepted, w.confident, id);
    }
  }

  lemma QuietStamped(w: World, w': World)
    requires Quiet(w, w') && Stamped(w.rows, w.now)
    ensures Stamped(w'.rows, w'.now)
  {
    forall id | id in w'.rows && w'.rows[id].status.Committed? ensures w'.rows[id].committedAt <= w'.now {
      assert Later(w.rows[id], w'.rows[id]);
    }
  }

  lemma QuietApplied(rows: map<int, Proposal>, rows': map<int, Proposal>, applied: multiset<(int, Action)>,
      lost: multiset<int>)
    requires RowsQuiet(rows, rows') && AppliedOnce(rows, applied, lost)
    ensures AppliedOnce(rows', applied, lost)
  {
    forall id | id in rows'
      ensures applied[(id, rows'[id].action)] == lost[id] + (if rows'[id].status.Committed? then 1 else 0)
    {
      assert Later(rows[id], rows'[id]);
    }
    forall id, a | (id, a) in applied ensures id in rows' && rows'[id].action == a {
      assert id in rows && Later(rows[id], rows'[id]);
    }
  }

  lemma QuietInv(cap: nat, w: World, w': World)
    requires Inv(cap, w) && Quiet(w, w')
    ensures Inv(cap, w')
  {
    QuietRows(cap, w.rows, w'.rows);
    QuietEarned(w, w');
    QuietStamped(w, w');
    QuietApplied(w.rows, w'.rows, w.applied, w.lostMarks);
    hide OnePending, Windows, Earned, Stamped, AppliedOnce;
  }

  // -------------------------------------------------------------- store calls

  lemma TickQuiet(w: World)
    ensures Quiet(w, Tick(w)) && Tick(w) == w.(now := Tick(w).now, fates := Tick(w).fates)
  {}

  lemma ArchiveExpiredQuiet(w: World)
    ensures Quiet(w, ArchiveExpired(w))
  {
    assert ArchiveExpired(w).rows.Keys == w.rows.Keys;
  }

  lemma GetQuiet(w: World, id: int)
    ensures var (w', answer) := Get(w, id);
      Quiet(w, w') && (answer.Some? ==> id in w'.rows && answer.value == w'.rows[id])
  {
    ArchiveExpiredQuiet(w);
    TickQuiet(ArchiveExpired(w));
    QuietSteps(w, ArchiveExpired(w), Tick(ArchiveExpired(w)));
  }

  lemma ArchiveQuiet(w: World, id: int, reason: string)
    requires id in w.rows ==> w.rows[id].status.Pending?
    ensures Quiet(w, Archive(w, id, reason))
  {}

  lemma BumpQuiet(w: World, id: int)
    requires id in w.rows ==> w.rows[id].status.Pending?
    ensures Quiet(w, Bump(w, id))
  {}

  lemma InsertInv(cap: nat, w: World, p: Proposal, confident: bool)
    requires Inv(cap, w) && p.status.Pending? && (confident ==> p.sink == "rule")
    requires forall id :: id in w.rows ==> !Matches(w.rows[id], p.sink, p.targetKey, p.targetMemory)
    ensures var (w', id) := Insert(w, p, confident);
      Inv(cap, w') && Evolves(w, w') && (id > 0 ==> id in w'.rows && id !in w.rows && w'.rows[id] == p)
      && (id > 0 && confident ==> id in w'.confident)
  {
    var (w', id) := Insert(w, p, confident);
    TickQuiet(w);
    QuietInv(cap, w, Tick(w));
    if Works(w) { AddedRow(cap, w.rows, w.nextId, p, w.applied, w.lostMarks); AddedEarned(w, w', w.nextId, p); }
  }

  lemma AddedRow(cap: nat, rows: map<int, Proposal>, id: int, p: Proposal, applied: multiset<(int, Action)>,
      lost: multiset<int>)
    requires id !in rows && p.status.Pending? && OnePending(rows) && Windows(rows, cap)
             && AppliedOnce(rows, applied, lost)
    requires forall i :: i in rows ==> !Matches(rows[i], p.sink, p.targetKey, p.targetMemory)
    ensures OnePending(rows[id := p]) && Windows(rows[id := p], cap) && AppliedOnce(rows[id := p], applied, lost)
  {
    var rows' := rows[id := p];
    forall sink: string, t: int ensures |Committed7(rows', sink, t)| <= cap {
      assert Committed7(rows', sink, t) == Committed7(rows, sink, t);
    }
    assert (id, p.action) !in applied && id !in lost;
  }

  lemma AddedEarned(w: World, w': World, id: int, p: Proposal)
    requires Earned(w.rows, w.accepted, w.confident) && id !in w.rows && p.status.Pending?
    requires w'.rows == w.rows[id := p] && w'.accepted == w.accepted && w.confident <= w'.confident
    ensures Earned(w'.rows, w'.accepted, w'.confident)
  {
    forall i | i in w'.rows && w'.rows[i].status.Committed? ensures Entitled(w'.rows, w'.accepted, w'.confident, i) {
      assert Entitled(w.rows, w.accepted, w.confident, i);
    }
  }

  // -------------------------------------------------------------- committing

  /** The cap is looked at only when something commits, at `t0`; the commit is stamped later, at `t1`. That
      keeps the bound for every window there is. */
  lemma MarkWindows(cap: nat, rows: map<int, Proposal>, id: int, p: Proposal, t0: int)
    requires Windows(rows, cap) && Stamped(rows, t0)
    requires id in rows && rows[id].status.Pending? && |Committed7(rows, rows[id].sink, t0)| < cap
    requires p == rows[id].(status := Committed, committedAt := p.committedAt) && t0 <= p.committedAt
    ensures Windows(rows[id := p], cap)
  {
    var rows' := rows[id := p];
    forall sink: string, t: int ensures |Committed7(rows', sink, t)| <= cap {
      var was, at0 := Committed7(rows, sink, t), Committed7(rows, sink, t0);
      if p.sink == sink && t - WEEK < p.committedAt <= t {
        assert Committed7(rows', sink, t) == was + {id};
        forall i | i in was ensures i in at0 { assert rows[i].committedAt <= t0; }
        Subset(was, at0);
      } else {
        assert Committed7(rows', sink, t) == was;
      }
    }
  }

  lemma Subset(a: set<int>, b: set<int>)
    requires a <= b
    ensures |a| <= |b|
  {
    assert |b| == |a| + |b - a| by { assert b == a + (b - a); }
  }

  /** Applying the sink and then marking the proposal, whether or not the mark is lost. */
  lemma ApplyMarkInv(cap: nat, w: World, id: int, t0: int)
    requires Inv(cap, w) && Stamped(w.rows, t0) && t0 <= w.now
    requires id in w.rows && w.rows[id].status.Pending? && |Committed7(w.rows, w.rows[id].sink, t0)| < cap
    requires Entitled(w.rows, w.accepted, w.confident, id) && Works(w)
    ensures var w' := Mark(Apply(w, id, w.rows[id].action).0, id); Inv(cap, w') && Evolves(w, w')
  {
    var action := w.rows[id].action;
    var a := Apply(w, id, action).0;
    var w' := Mark(a, id);
    TickQuiet(w);
    TickQuiet(a);
    if Works(a) {
      MarkWindows(cap, w.rows, id, w'.rows[id], t0);
      MarkOne(w.rows, id, w'.rows[id]);
      MarkEarned(w, w', id);
    }
    MarkApplied(w.rows, w'.rows, w.applied, w.lostMarks, id, Works(a));
    hide OnePending, Windows, AppliedOnce, Earned;
  }

  lemma MarkOne(rows: map<int, Proposal>, id: int, p: Proposal)
    requires OnePending(rows) && id in rows && p.status.Committed?
    ensures OnePending(rows[id := p])
  {}

  lemma MarkEarned(w: World, w': World, id: int)
    requires Earned(w.rows, w.accepted, w.confident) && id in w.rows && Entitled(w.rows, w.accepted, w.confident, id)
    requires w'.accepted == w.accepted && w'.confident == w.confident
    requires id in w'.rows
             && w'.rows == w.rows[id := w.rows[id].(status := Committed, committedAt := w'.rows[id].committedAt)]
    ensures Earned(w'.rows, w'.accepted, w'.confident)
  {
    forall i | i in w'.rows && w'.rows[i].status.Committed? ensures Entitled(w'.rows, w'.accepted, w'.confident, i) {
      assert Entitled(w.rows, w.accepted, w.confident, i);
    }
  }

  lemma MarkApplied(rows: map<int, Proposal>, rows': map<int, Proposal>, applied: multiset<(int, Action)>,
      lost: multiset<int>, id: int, marked: bool)
    requires AppliedOnce(rows, applied, lost) && id in rows && rows[id].status.Pending?
    requires rows'.Keys == rows.Keys && forall i :: i in rows ==>
             rows'[i].action == rows[i].action && (i != id ==> rows'[i] == rows[i])
    requires rows'[id].status.Committed? <==> marked
    ensures AppliedOnce(rows', applied + multiset{(id, rows[id].action)}, if marked then lost else lost + multiset{id})
  {
    var applied', lost' := applied + multiset{(id, rows[id].action)}, if marked then lost else lost + multiset{id};
    forall i, a | (i, a) in applied' ensures i in rows' && rows'[i].action == a {
      assert (i, a) in applied || (i, a) == (id, rows[id].action);
    }
    forall i | i in lost' ensures i in rows' { assert i in lost || i == id; }
    forall i | i in rows'
      ensures applied'[(i, rows'[i].action)] == lost'[i] + (if rows'[i].status.Committed? then 1 else 0)
    {
      assert applied[(i, rows[i].action)] == lost[i] + (if rows[i].status.Committed? then 1 else 0);
    }
  }

  /** `learning_commit_proposal` keeps everything, for a proposal entitled to commit; it touches no other
      proposal's commit, and what it reports is what the table holds. */
  lemma CommitSafe(cfg: Config, w: World, id: int)
    requires Inv(cfg.cap, w) && Entitled(w.rows, w.accepted, w.confident, id)
    ensures var (w', answer) := Commit(cfg, w, id);
      Inv(cfg.cap, w') && Evolves(w, w') && (answer.Some? ==> id in w'.rows && answer.value == w'.rows[id])
  {
    hide Inv, Evolves, Quiet, Get, Archive, Mark, Tick;
    var (w1, found) := Get(w, id);
    GetQuiet(w, id);
    QuietInv(cfg.cap, w, w1);
    QuietEvolves(w, w1);
    if found.Some? && found.value.status.Pending? {
      var w2 := Tick(w1);
      TickQuiet(w1);
      QuietInv(cfg.cap, w1, w2);
      StillEntitled(w, w1, id);
      QuietSteps(w, w1, w2);
      QuietEvolves(w, w2);
      if |Committed7(w2.rows, found.value.sink, w2.now)| >= cfg.cap {
        ArchiveQuiet(w2, id, "weekly_cap");
        ThenGet(cfg.cap, w, w2, Archive(w2, id, "weekly_cap"), id);
      } else {
        CommitSecondHalf(cfg, w, w2, id);
      }
    }
  }

  lemma StillEntitled(w: World, w1: World, id: int)
    requires Quiet(w, w1) && Entitled(w.rows, w.accepted, w.confident, id)
    ensures Entitled(w1.rows, w1.accepted, w1.confident, id)
  {
    if id in w1.rows { assert Later(w.rows[id], w1.rows[id]); }
  }

  lemma ThenGet(cap: nat, w: World, w2: World, w3: World, id: int)
    requires Inv(cap, w2) && Evolves(w, w2) && Quiet(w2, w3)
    ensures var (w', answer) := Get(w3, id);
      Inv(cap, w') && Evolves(w, w') && Quiet(w2, w') && (answer.Some? ==> id in w'.rows && answer.value == w'.rows[id])
  {
    hide Inv, Evolves, Quiet, Get;
    var w' := Get(w3, id).0;
    GetQuiet(w3, id);
    QuietSteps(w2, w3, w');
    QuietInv(cap, w2, w');
    QuietEvolves(w2, w');
    QuietSteps(w, w2, w');
  }

  lemma CommitSecondHalf(cfg: Config, w: World, w2: World, id: int)
    requires Inv(cfg.cap, w2) && Evolves(w, w2)
    requires id in w2.rows && w2.rows[id].status.Pending? && Entitled(w2.rows, w2.accepted, w2.confident, id)
    requires |Committed7(w2.rows, w2.rows[id].sink, w2.now)| < cfg.cap
    ensures var (w3, applied) := Apply(w2, id, w2.rows[id].action);
      if !applied then Inv(cfg.cap, w3) && Evolves(w, w3)
      else var (w', answer) := Get(Mark(w3, id), id);
           Inv(cfg.cap, w') && Evolves(w, w') && (answer.Some? ==> id in w'.rows && answer.value == w'.rows[id])
  {
    var (w3, applied) := Apply(w2, id, w2.rows[id].action);
    if applied {
      ApplyMarkInv(cfg.cap, w2, id, w2.now);
      var w4 := Mark(w3, id);
      hide Inv, Evolves, Mark, Get, Apply, Committed7, Entitled;
      QuietSteps(w, w2, w4);
      Unchanged(w4);
      ThenGet(cfg.cap, w, w4, w4, id);
    } else {
      TickQuiet(w2);
      QuietInv(cfg.cap, w2, w3);
      QuietEvolves(w2, w3);
      QuietSteps(w, w2, w3);
    }
  }

  lemma Unchanged(w: World)
    ensures Quiet(w, w)
  {}

  // ----------------------------------------------------------------- routing

  /** What a dispatch reports as committed was committed by this very call: pending or unknown in `w0`, when
      the call began, and committed in `w`. */
  ghost predicate Reported(w0: World, w: World, out: Dispatch) {
    forall id :: id in out.committedIds ==>
      id in w.rows && w.rows[id].status.Committed? && (id in w0.rows ==> w0.rows[id].status.Pending?)
  }

  ghost predicate Safe(cap: nat, w0: World, w: World, out: Dispatch) {
    Inv(cap, w) && Evolves(w0, w) && Reported(w0, w, out)
  }

  lemma SafeLater(cap: nat, w0: World, w: World, out: Dispatch, w': World)
    requires Safe(cap, w0, w, out) && Inv(cap, w') && Evolves(w, w')
    ensures Safe(cap, w0, w', out)
  {
    QuietSteps(w0, w, w');
    hide Inv;
    forall id | id in out.committedIds
      ensures id in w'.rows && w'.rows[id].status.Committed? && (id in w0.rows ==> w0.rows[id].status.Pending?)
    {
      assert id in w.rows && Later(w.rows[id], w'.rows[id]);
    }
  }

  /** A proposal pending now was pending, or not there, when the call began. */
  lemma WasPending(w0: World, w: World, id: int)
    requires Evolves(w0, w) && id in w.rows && w.rows[id].status.Pending?
    ensures id in w0.rows ==> w0.rows[id].status.Pending?
  {
    if id in w0.rows { assert Later(w0.rows[id], w.rows[id]); }
  }

  lemma ListedSafe(cap: nat, w0: World, w: World, out: Dispatch, id: int, answer: Answer)
    requires Safe(cap, w0, w, out) && (answer.Some? ==> id in w.rows && answer.value == w.rows[id])
    requires id in w0.rows ==> w0.rows[id].status.Pending?
    ensures Safe(cap, w0, w, ListCommitted(out, id, answer))
  {
    hide Inv, Evolves;
  }

  lemma CommitListed(cfg: Config, w0: World, w: World, out: Dispatch, id: int)
    requires Safe(cfg.cap, w0, w, out) && Entitled(w.rows, w.accepted, w.confident, id)
    requires id in w0.rows ==> w0.rows[id].status.Pending?
    ensures var (w', answer) := Commit(cfg, w, id); Safe(cfg.cap, w0, w', ListCommitted(out, id, answer))
  {
    var (w', answer) := Commit(cfg, w, id);
    CommitSafe(cfg, w, id);
    hide Commit, Inv, Evolves;
    SafeLater(cfg.cap, w0, w, out, w');
    ListedSafe(cfg.cap, w0, w', out, id, answer);
  }

  lemma CorroborateSafe(cfg: Config, w0: World, w: World, out: Dispatch, id: int)
    requires Safe(cfg.cap, w0, w, out) && id in w.rows && w.rows[id].status.Pending?
    ensures var (w', out') := Corroborate(cfg, w, out, id); Safe(cfg.cap, w0, w', out')
  {
    hide Inv, Evolves, Quiet, Get, Bump, Commit;
    var (w1, found) := Get(Bump(w, id), id);
    var out1 := out.(proposalIds := Listed(out.proposalIds, id));
    BumpQuiet(w, id);
    GetQuiet(Bump(w, id), id);
    QuietSteps(w, Bump(w, id), w1);
    QuietInv(cfg.cap, w, w1);
    QuietEvolves(w, w1);
    SafeLater(cfg.cap, w0, w, out1, w1);
    WasPending(w0, w, id);
    if found.Some? && found.value.corroboration >= 2 { CommitListed(cfg, w0, w1, out1, id); }
  }

  lemma ProposeSafe(cfg: Config, w0: World, w: World, out: Dispatch, p: Proposal, confident: bool)
    requires Safe(cfg.cap, w0, w, out) && p.status.Pending? && (confident ==> p.sink == "rule")
    requires forall id :: id in w.rows && id > 0 ==> !Matches(w.rows[id], p.sink, p.targetKey, p.targetMemory)
    ensures var (w', out') := Propose(cfg, w, out, p, confident); Safe(cfg.cap, w0, w', out')
  {
    hide Evolves, Insert, Commit, OnePending, Windows, AppliedOnce, Earned, Stamped, Matches;
    var (w2, added) := Insert(w, p, confident);
    var out1 := out.(proposalIds := Listed(out.proposalIds, added));
    InsertInv(cfg.cap, w, p, confident);
    SafeLater(cfg.cap, w0, w, out, w2);
    SafeLater(cfg.cap, w0, w, out1, w2);
    if added > 0 && confident {
      WasPending(w0, w2, added);
      CommitListed(cfg, w0, w2, out1, added);
    }
  }

  lemma QueueSinkSafe(cfg: Config, w0: World, w: World, out: Dispatch, signal: int, sink: string, key: string,
      memory: int, action: Action, confident: bool)
    requires Safe(cfg.cap, w0, w, out) && (confident ==> sink == "rule")
    ensures var (w', out') := QueueSink(cfg, w, out, signal, sink, key, memory, action, confident);
            Safe(cfg.cap, w0, w', out')
  {
    hide Inv, Evolves, Quiet, Corroborate, Propose, Matches;
    var w1 := Tick(w);
    TickQuiet(w);
    QuietInv(cfg.cap, w, w1);
    QuietEvolves(w, w1);
    SafeLater(cfg.cap, w0, w, out, w1);
    var id := FindPending(w1.rows, sink, key, memory);
    if id > 0 {
      MatchIsPending(w1.rows[id], sink, key, memory);
      CorroborateSafe(cfg, w0, w1, out, id);
    } else {
      NoMatch(cfg.cap, w1, sink, key, memory);
      ProposeSafe(cfg, w0, w1, out, Fresh(w1, cfg.ttl, signal, sink, key, memory, action), confident);
    }
  }

  lemma MatchIsPending(p: Proposal, sink: string, key: string, memory: int)
    requires Matches(p, sink, key, memory)
    ensures p.status.Pending?
  {}

  lemma NoMatch(cap: nat, w: World, sink: string, key: string, memory: int)
    requires Inv(cap, w) && FindPending(w.rows, sink, key, memory) <= 0
    ensures forall id :: id in w.rows && id > 0 ==> !Matches(w.rows[id], sink, key, memory)
  {
    hide OnePending, Windows, AppliedOnce, Earned, Stamped, Matches;
  }

  lemma QueueSafe(cfg: Config, w0: World, wo: (World, Dispatch), wanted: bool, signal: int, sink: string, key: string,
                  memory: int, action: Action, confident: bool)
    requires Safe(cfg.cap, w0, wo.0, wo.1) && (confident ==> sink == "rule")
    ensures var r := Queue(cfg, wo, wanted, signal, sink, key, memory, action, confident); Safe(cfg.cap, w0, r.0, r.1)
  {
    hide Inv, Evolves, Quiet, QueueSink, Reported;
    TickQuiet(wo.0);
    QuietInv(cfg.cap, wo.0, Tick(wo.0));
    QuietEvolves(wo.0, Tick(wo.0));
    SafeLater(cfg.cap, w0, wo.0, wo.1, Tick(wo.0));
    QueueSinkSafe(cfg, w0, Tick(wo.0), wo.1, signal, sink, key, memory, action, confident);
  }

  lemma RouteSafe(cfg: Config, w0: World, w: World, signal: int, s: Signal, mask: Sinks)
    requires Safe(cfg.cap, w0, w, Dispatch([], []))
    ensures var (w', out) := Route(cfg, w, signal, s, mask); Safe(cfg.cap, w0, w', out)
  {
    hide Safe, Queue, WantsReranker, WantsSupersede, WantsRule, WantsWorkflow, RuleAction, IsConfident;
    var none := (w, Dispatch([], []));
    QueueSafe(cfg, w0, none, WantsReranker(s, mask), signal, "reranker", s.targetKey, s.targetMemory,
              Rerank(s.signalType == "thumb_up", s.targetMemory, s.evidence), false);
    var a := Queue(cfg, none, WantsReranker(s, mask), signal, "reranker", s.targetKey, s.targetMemory,
                   Rerank(s.signalType == "thumb_up", s.targetMemory, s.evidence), false);
    QueueSafe(cfg, w0, a, WantsSupersede(s, mask), signal, "supersede", s.targetKey, s.targetMemory,
              Supersede(s.targetMemory, s.correctionText), false);
    var b := Queue(cfg, a, WantsSupersede(s, mask), signal, "supersede", s.targetKey, s.targetMemory,
                   Supersede(s.targetMemory, s.correctionText), false);
    QueueSafe(cfg, w0, b, WantsRule(s, mask), signal, "rule", s.targetKey, s.targetMemory, RuleAction(cfg, s),
      IsConfident(s));
    var c := Queue(cfg, b, WantsRule(s, mask), signal, "rule", s.targetKey, s.targetMemory, RuleAction(cfg, s),
      IsConfident(s));
    QueueSafe(cfg, w0, c, WantsWorkflow(s, mask), signal, "workflow", s.workflowProject, 0,
              Workflow(s.workflowProject, s.workflowSignalType, s.description), false);
  }

  lemma InsertSignalQuiet(w: World)
    ensures Quiet(w, InsertSignal(w).0)
  {
    TickQuiet(w);
  }

  lemma RecordSafe(cfg: Config, w: World, s: Signal, admitted: bool, mask: Option<Sinks>, memoryKey: Option<string>)
    requires Inv(cfg.cap, w)
    ensures var (w', signal, out) := Record(cfg, w, s, admitted, mask, memoryKey); Safe(cfg.cap, w, w', out)
  {
    hide Inv, Evolves, Quiet, Route, FillKey, ArchiveExpired, InsertSignal;
    Unchanged(w);
    QuietEvolves(w, w);
    if s.signalType != "" && admitted && mask.Some? {
      var (w1, signal) := InsertSignal(ArchiveExpired(w));
      ArchiveExpiredQuiet(w);
      InsertSignalQuiet(ArchiveExpired(w));
      QuietSteps(w, ArchiveExpired(w), w1);
      QuietInv(cfg.cap, w, w1);
      QuietEvolves(w, w1);
      RouteSafe(cfg, w, w1, signal, FillKey(s, memoryKey), mask.value);
    }
  }

  // ---------------------------------------------------------------- the rest

  lemma AcceptSafe(cfg: Config, w: World, id: int)
    requires Inv(cfg.cap, w)
    ensures var (w', answer) := Accept(cfg, w, id);
      Inv(cfg.cap, w') && Evolves(w, w') && (answer.Some? ==> id in w'.rows && answer.value == w'.rows[id])
  {
    hide Inv, Evolves, Quiet, Commit, ArchiveExpired;
    Unchanged(w);
    QuietEvolves(w, w);
    if id > 0 {
      var wa := if id in w.rows then w.(accepted := w.accepted + {id}) else w;
      NowAccepted(w, id);
      var w1 := ArchiveExpired(wa);
      ArchiveExpiredQuiet(wa);
      QuietSteps(w, wa, w1);
      QuietInv(cfg.cap, w, w1);
      QuietEvolves(w, w1);
      StillEntitled(wa, w1, id);
      CommitSafe(cfg, w1, id);
      QuietSteps(w, w1, Commit(cfg, w1, id).0);
    }
  }

  lemma NowAccepted(w: World, id: int)
    ensures var wa := if id in w.rows then w.(accepted := w.accepted + {id}) else w;
      Quiet(w, wa) && Entitled(wa.rows, wa.accepted, wa.confident, id)
  {}

  /** Rejecting commits nothing; it archives a pending proposal and leaves a settled one exactly as it was. */
  lemma RejectSafe(cap: nat, w: World, id: int)
    requires Inv(cap, w)
    ensures var (w', answer) := Reject(w, id);
      Inv(cap, w') && Quiet(w, w') && (answer.Some? ==> id in w'.rows && answer.value == w'.rows[id])
  {
    hide Inv, Evolves, Quiet, Get, Archive;
    Unchanged(w);
    QuietEvolves(w, w);
    if id > 0 {
      var (w1, found) := Get(w, id);
      GetQuiet(w, id);
      QuietInv(cap, w, w1);
      QuietEvolves(w, w1);
      if found.Some? {
        Unchanged(w1);
        if found.value.status.Pending? { ArchiveQuiet(w1, id, "rejected"); }
        var w2 := if found.value.status.Pending? then Archive(w1, id, "rejected") else w1;
        ThenGet(cap, w, w1, w2, id);
        QuietSteps(w, w1, Get(w2, id).0);
      }
    }
  }

  lemma DoSafe(cfg: Config, w: World, op: Op)
    requires Inv(cfg.cap, w)
    ensures Inv(cfg.cap, Do(cfg, w, op)) && Evolves(w, Do(cfg, w, op))
  {
    hide Inv, Evolves, Quiet, Record, Accept, Reject, Get, ArchiveExpired, Tick, Reported;
    match op
    case RecordOp(s, admitted, mask, key) => RecordSafe(cfg, w, s, admitted, mask, key);
    case AcceptOp(id) => AcceptSafe(cfg, w, id);
    case RejectOp(id) =>
      RejectSafe(cfg.cap, w, id);
      QuietEvolves(w, Reject(w, id).0);
    case GetOp(id) =>
      GetQuiet(w, id);
      QuietInv(cfg.cap, w, Get(w, id).0);
      QuietEvolves(w, Get(w, id).0);
    case ListOp =>
      ArchiveExpiredQuiet(w);
      TickQuiet(ArchiveExpired(w));
      QuietSteps(w, ArchiveExpired(w), Tick(ArchiveExpired(w)));
      QuietInv(cfg.cap, w, Tick(ArchiveExpired(w)));
      QuietEvolves(w, Tick(ArchiveExpired(w)));
  }

  lemma {:induction false} RunSafe(cfg: Config, w: World, ops: seq<Op>)
    requires Inv(cfg.cap, w)
    ensures Inv(cfg.cap, Run(cfg, w, ops)) && Evolves(w, Run(cfg, w, ops))
    decreases |ops|
  {
    hide Inv, Evolves, Do;
    if ops == [] {
      Unchanged(w);
      QuietEvolves(w, w);
    } else {
      var w1 := Do(cfg, w, ops[0]);
      DoSafe(cfg, w, ops[0]);
      RunSafe(cfg, w1, ops[1..]);
      QuietSteps(w, w1, Run(cfg, w1, ops[1..]));
    }
  }

  lemma EmptyInv(cap: nat, w: World)
    requires w.rows == map[] && w.nextId == 1 && w.applied == multiset{} && w.lostMarks == multiset{}
    ensures Inv(cap, w)
  {
    forall sink: string, t: int ensures |Committed7(w.rows, sink, t)| <= cap {
      assert Committed7(w.rows, sink, t) == {};
    }
  }

  // ------------------------------------------------------------- main results

  /** A true sliding window: whatever is recorded, accepted, rejected, read or listed, in whatever order, with
      whatever delays, and whichever calls fail among those that can (counting commits and finding a pending
      proposal cannot), no seven days ever see more than `cap` commits to one sink. */
  lemma SlidingWindow(cfg: Config, w: World, ops: seq<Op>, sink: string, t: int)
    requires Inv(cfg.cap, w)
    ensures |Committed7(Run(cfg, w, ops).rows, sink, t)| <= cfg.cap
  {
    hide Run, Committed7;
    RunSafe(cfg, w, ops);
  }

  /** In the commits themselves: however they are chosen, commits of one sink whose stamps lie within seven days (604800
      seconds) of one another are at most `cap`. */
  lemma SevenDays(cfg: Config, w: World, ops: seq<Op>, sink: string, ids: set<int>)
    requires Inv(cfg.cap, w)
    requires var rows := Run(cfg, w, ops).rows;
      && (forall id :: id in ids ==> id in rows && rows[id].status.Committed? && rows[id].sink == sink)
      && (forall i, j :: i in ids && j in ids ==> rows[i].committedAt - rows[j].committedAt < 604_800)
    ensures |ids| <= cfg.cap
  {
    hide Inv, Run;
    var rows := Run(cfg, w, ops).rows;
    if ids != {} {
      var last := Latest(rows, ids);
      var t := rows[last].committedAt;
      SlidingWindow(cfg, w, ops, sink, t);
      forall id | id in ids ensures id in Committed7(rows, sink, t) {
        assert rows[last].committedAt - rows[id].committedAt < 604_800;
      }
      Subset(ids, Committed7(rows, sink, t));
    }
  }

  lemma HasOne(ids: set<int>)
    ensures ids == {} || exists id :: id in ids
  {
    if !(exists id :: id in ids) { assert ids == {}; }
  }

  lemma {:induction false} Latest(rows: map<int, Proposal>, ids: set<int>) returns (last: int)
    requires |ids| > 0 && forall id :: id in ids ==> id in rows
    ensures last in ids && forall id :: id in ids ==> rows[id].committedAt <= rows[last].committedAt
    decreases |ids|
  {
    HasOne(ids);
    var one :| one in ids;
    last := one;
    var others := ids - {one};
    assert |others| == |ids| - 1;
    if |others| > 0 {
      var best := Latest(rows, others);
      if rows[best].committedAt > rows[one].committedAt { last := best; }
      forall id | id in ids ensures rows[id].committedAt <= rows[last].committedAt { assert id == one || id in others; }
    }
  }

  /** Committed and archived are final, and a pending proposal keeps its target and its action. */
  lemma SettledIsFinal(cfg: Config, w: World, ops: seq<Op>, id: int)
    requires Inv(cfg.cap, w) && id in w.rows
    ensures id in Run(cfg, w, ops).rows
    ensures var p, q := w.rows[id], Run(cfg, w, ops).rows[id];
      && (!p.status.Pending? ==> q == p)
      && q.sink == p.sink && q.targetKey == p.targetKey && q.targetMemory == p.targetMemory && q.action == p.action
  {
    hide Run, Inv;
    RunSafe(cfg, w, ops);
    assert Later(w.rows[id], Run(cfg, w, ops).rows[id]);
  }

  /** How often the sink of a proposal was successfully applied, always with the action stored at insert: at
      most once exactly when at most one of "its mark was lost" and "it committed" ever happened. */
  lemma AppliedAtMostOnce(cfg: Config, w: World, ops: seq<Op>, id: int, action: Action)
    requires Inv(cfg.cap, w) && id in Run(cfg, w, ops).rows
    ensures var w' := Run(cfg, w, ops);
      && (w'.applied[(id, action)] > 0 ==> action == w'.rows[id].action)
      && (w'.lostMarks[id] == 0 ==> w'.applied[(id, action)] <= 1)
      && (action == w'.rows[id].action ==>
            (w'.applied[(id, action)] <= 1 <==>
              w'.lostMarks[id] == 0 || (w'.lostMarks[id] == 1 && !w'.rows[id].status.Committed?)))
      && (w'.rows[id].status.Committed? ==> w'.applied[(id, w'.rows[id].action)] > 0)
  {
    hide Run, OnePending, Windows, Earned, Stamped, Ids;
    RunSafe(cfg, w, ops);
    hide Evolves;
    var w' := Run(cfg, w, ops);
    if (id, action) in w'.applied { assert w'.rows[id].action == action; }
  }

  /** Without an explicit acceptance, a single signal commits only a rule whose sender was sure of it. */
  lemma CommitsAreEarned(cfg: Config, w: World, ops: seq<Op>, id: int)
    requires Inv(cfg.cap, w)
    ensures var w' := Run(cfg, w, ops);
      id in w'.rows && w'.rows[id].status.Committed? && id !in w'.accepted ==>
        w'.rows[id].corroboration >= 2 || (w'.rows[id].sink == "rule" && id in w'.confident)
  {
    hide Run, OnePending, Windows, AppliedOnce, Stamped, Ids;
    RunSafe(cfg, w, ops);
    hide Evolves;
  }

  /** No two pending proposals for one target: the one a signal corroborates is the only candidate. */
  lemma PendingIsUnique(cfg: Config, w: World, ops: seq<Op>, i: int, j: int, sink: string, key: string, memory: int)
    requires Inv(cfg.cap, w)
    ensures var rows := Run(cfg, w, ops).rows;
      i in rows && j in rows && Matches(rows[i], sink, key, memory) && Matches(rows[j], sink, key, memory) ==> i == j
  {
    hide Run, Windows, AppliedOnce, Earned, Stamped, Ids;
    RunSafe(cfg, w, ops);
    hide Evolves;
  }

  /** From an empty table, whatever the clock and the script: every run keeps every invariant and every window. */
  lemma FromEmpty(cfg: Config, w: World, ops: seq<Op>, sink: string, t: int)
    requires w.rows == map[] && w.nextId == 1 && w.applied == multiset{} && w.lostMarks == multiset{}
    ensures Inv(cfg.cap, Run(cfg, w, ops)) && |Committed7(Run(cfg, w, ops).rows, sink, t)| <= cfg.cap
  {
    hide Inv, Run, Committed7;
    EmptyInv(cfg.cap, w);
    RunSafe(cfg, w, ops);
    SlidingWindow(cfg, w, ops, sink, t);
  }
}
