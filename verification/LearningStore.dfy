/** The proposal table behind the learning router, as far as src/modules/learning/learning_router.c relies
    on it. Every call takes time and may fail; `fates` scripts both, and once it is used up calls succeed
    at once. A failed call changes nothing. */
module LearningStore {
  import opened Options

  datatype Status = Pending | Committed | Archived

  /** What a sink is asked to do when its proposal commits. */
  datatype Action =
    | Rerank(success: bool, memory: int, evidence: string)
    | Supersede(memory: int, content: string)
    | Rule(text: string, reason: string)
    | Workflow(project: string, signalType: string, rule: string)

  datatype Proposal = Proposal(signalId: int, sink: string, targetKey: string, targetMemory: int, action: Action,
                               status: Status, corroboration: nat, expiresAt: int, committedAt: int,
                               archiveReason: string)

  datatype Fate = Fate(delay: nat, ok: bool)

  /** The table, the clock and the script; then what the sinks were successfully asked, per proposal, which
      commit marks were lost, which proposals were ever accepted explicitly and which inserted as highly
      confident. */
  datatype World = World(rows: map<int, Proposal>, nextId: int, nextSignal: int, now: int, fates: seq<Fate>,
                         applied: multiset<(int, Action)>, lostMarks: multiset<int>, accepted: set<int>,
                         confident: set<int>)

  const DAY: int := 86400
  const WEEK: int := 7 * DAY

  /** The next call takes its time. */
  function Tick(w: World): World {
    if w.fates == [] then w else w.(now := w.now + w.fates[0].delay, fates := w.fates[1..])
  }

  predicate Works(w: World) { w.fates == [] || w.fates[0].ok }

  function Expire(p: Proposal, now: int): Proposal {
    if p.status.Pending? && p.expiresAt < now then p.(status := Archived, archiveReason := "expired") else p
  }

  function ArchiveExpired(w: World): World {
    var t := Tick(w);
    if Works(w) then t.(rows := map id | id in t.rows :: Expire(t.rows[id], t.now)) else t
  }

  /** `learning_get_proposal`: expired proposals are archived first. */
  function Get(w: World, id: int): (World, Option<Proposal>) {
    var a := ArchiveExpired(w);
    var t := Tick(a);
    (t, if Works(a) && id in t.rows then Some(t.rows[id]) else None)
  }

  predicate Matches(p: Proposal, sink: string, key: string, memory: int) {
    p.status.Pending? && p.sink == sink && p.targetKey == key && p.targetMemory == memory
  }

  /** A pending proposal for this target; 0 exactly when there is none. */
  ghost function FindPending(rows: map<int, Proposal>, sink: string, key: string, memory: int): (id: int)
    ensures id != 0 ==> id in rows && Matches(rows[id], sink, key, memory)
    ensures id == 0 ==> forall i :: i in rows && i > 0 ==> !Matches(rows[i], sink, key, memory)
  {
    if i :| i in rows && i > 0 && Matches(rows[i], sink, key, memory) then i else 0
  }

  function Committed7(rows: map<int, Proposal>, sink: string, t: int): set<int> {
    set id | id in rows && rows[id].status.Committed? && rows[id].sink == sink && t - WEEK < rows[id].committedAt <= t
  }

  function Insert(w: World, p: Proposal, confident: bool): (World, int) {
    var t := Tick(w);
    if !Works(w) then (t, -1)
    else (t.(rows := t.rows[t.nextId := p], nextId := t.nextId + 1,
             confident := if confident then t.confident + {t.nextId} else t.confident), t.nextId)
  }

  function Bump(w: World, id: int): World {
    var t := Tick(w);
    if Works(w) && id in t.rows then
      t.(rows := t.rows[id := t.rows[id].(corroboration := t.rows[id].corroboration + 1)])
    else t
  }

  function Archive(w: World, id: int, reason: string): World {
    var t := Tick(w);
    if Works(w) && id in t.rows then
      t.(rows := t.rows[id := t.rows[id].(status := Archived, archiveReason := reason)])
    else t
  }

  /** Stamps the current time; a lost mark leaves the proposal pending. */
  function Mark(w: World, id: int): World {
    var t := Tick(w);
    if Works(w) && id in t.rows then t.(rows := t.rows[id := t.rows[id].(status := Committed, committedAt := t.now)])
    else t.(lostMarks := t.lostMarks + multiset{id})
  }

  /** `learning_apply_sink`: outside effects only. */
  function Apply(w: World, id: int, action: Action): (World, bool) {
    var t := Tick(w);
    if Works(w) then (t.(applied := t.applied + multiset{(id, action)}), true) else (t, false)
  }

  function InsertSignal(w: World): (World, int) {
    var t := Tick(w);
    if Works(w) then (t.(nextSignal := t.nextSignal + 1), t.nextSignal) else (t, -1)
  }
}
