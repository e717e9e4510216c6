/** The proposal lifecycle (src/modules/learning/learning_router.c): what recording, accepting, rejecting,
    reading and listing do to the table. */
module LearningRouter {
  import opened LearningStore
  import opened Options
  import opened Strings

  /** What one recorded signal reports back. */
  datatype Dispatch = Dispatch(proposalIds: seq<int>, committedIds: seq<int>)

  const MAX_PROPOSAL_IDS: nat := 8

  /** The weekly cap per sink, the days a proposal stays pending, and the longest rule text. */
  datatype Config = Config(cap: nat, ttl: nat, ruleText: nat)

  datatype Sinks = Sinks(reranker: bool, supersede: bool, rule: bool, workflow: bool)

  datatype Signal = Signal(signalType: string, title: string, description: string, targetKey: string, targetMemory: int,
                           correctionText: string, workflowProject: string, workflowSignalType: string,
                           evidence: string, highConfidence: bool)

  /** The answer of a call: -1, or a proposal as read last. */
  type Answer = Option<Proposal>

  /** `learning_commit_proposal`. */
  function Commit(cfg: Config, w: World, id: int): (World, Answer) {
    var (w1, found) := Get(w, id);
    if found.None? || !found.value.status.Pending? then (w1, found)
    else
      var w2 := Tick(w1);
      if |Committed7(w2.rows, found.value.sink, w2.now)| >= cfg.cap then Get(Archive(w2, id, "weekly_cap"), id)
      else
        var (w3, applied) := Apply(w2, id, found.value.action);
        if !applied then (w3, None) else Get(Mark(w3, id), id)
  }

  function Listed(ids: seq<int>, id: int): seq<int> { if |ids| < MAX_PROPOSAL_IDS then ids + [id] else ids }

  function ListCommitted(out: Dispatch, id: int, answer: Answer): Dispatch {
    if answer.Some? && answer.value.status.Committed? then out.(committedIds := Listed(out.committedIds, id)) else out
  }

  /** A second signal for a pending proposal: it is corroborated, and committed from two signals on. */
  function Corroborate(cfg: Config, w: World, out: Dispatch, id: int): (World, Dispatch) {
    var (w1, found) := Get(Bump(w, id), id);
    var out1 := out.(proposalIds := Listed(out.proposalIds, id));
    if found.None? || found.value.corroboration < 2 then (w1, out1)
    else
      var (w2, answer) := Commit(cfg, w1, id);
      (w2, ListCommitted(out1, id, answer))
  }

  function Fresh(w: World, ttl: nat, signal: int, sink: string, key: string, memory: int, action: Action): Proposal {
    Proposal(signal, sink, key, memory, action, Pending, 1, w.now + ttl * DAY, 0, "")
  }

  /** The first signal for a target: a new proposal, committed at once when its sender is sure. */
  function Propose(cfg: Config, w: World, out: Dispatch, p: Proposal, confident: bool): (World, Dispatch) {
    var (w1, added) := Insert(w, p, confident);
    if added <= 0 then (w1, out)
    else
      var out1 := out.(proposalIds := Listed(out.proposalIds, added));
      if !confident then (w1, out1)
      else
        var (w2, answer) := Commit(cfg, w1, added);
        (w2, ListCommitted(out1, added, answer))
  }

  /** `learning_queue_sink`. */
  ghost function QueueSink(cfg: Config, w: World, out: Dispatch, signal: int, sink: string, key: string, memory: int,
                           action: Action, confident: bool): (World, Dispatch) {
    var w1 := Tick(w);
    var id := FindPending(w1.rows, sink, key, memory);
    if id > 0 then Corroborate(cfg, w1, out, id)
    else Propose(cfg, w1, out, Fresh(w1, cfg.ttl, signal, sink, key, memory, action), confident)
  }

  /** Rendering an action may fail; only then is nothing queued. */
  ghost function Queue(cfg: Config, wo: (World, Dispatch), wanted: bool, signal: int, sink: string, key: string,
                       memory: int, action: Action, confident: bool): (World, Dispatch) {
    if !wanted then wo
    else if !Works(wo.0) then (Tick(wo.0), wo.1)
    else QueueSink(cfg, Tick(wo.0), wo.1, signal, sink, key, memory, action, confident)
  }

  /** The text of the rule a correction proposes. */
  function CorrectionRule(cfg: Config, s: Signal): string {
    Cut(if s.targetKey != "" && s.correctionText != "" then "For " + s.targetKey + ", use " + s.correctionText
        else if s.title != "" && s.correctionText != "" then "For " + s.title + ", use " + s.correctionText
        else if s.correctionText != "" then s.correctionText else s.description,
        cfg.ruleText)
  }

  predicate IsPreference(s: Signal) { s.signalType == "preference_statement" || s.signalType == "mark_rule" }

  function RuleAction(cfg: Config, s: Signal): Action {
    if s.signalType == "correction" then Rule(CorrectionRule(cfg, s), "Repeated correction captured by learning router")
    else Rule(Cut(if s.description != "" then s.description else s.title, cfg.ruleText),
              if s.signalType == "mark_rule" then "Explicit rule capture" else "Explicit user preference")
  }

  predicate WantsReranker(s: Signal, mask: Sinks) {
    mask.reranker && (s.signalType != "correction" || s.targetMemory > 0 || s.evidence != "")
  }

  predicate WantsSupersede(s: Signal, mask: Sinks) { mask.supersede && s.targetMemory > 0 && s.correctionText != "" }

  predicate WantsRule(s: Signal, mask: Sinks) {
    mask.rule && (if s.signalType == "correction" then s.correctionText != "" || s.title != "" || s.description != ""
                  else IsPreference(s))
  }

  predicate WantsWorkflow(s: Signal, mask: Sinks) {
    mask.workflow && s.workflowProject != "" && s.workflowSignalType != "" && s.description != ""
  }

  /** Only an explicit rule, or a preference its sender is sure of, commits on one signal. */
  predicate IsConfident(s: Signal) { IsPreference(s) && (s.highConfidence || s.signalType == "mark_rule") }

  ghost function Route(cfg: Config, w: World, signal: int, s: Signal, mask: Sinks): (World, Dispatch) {
    var a := Queue(cfg, (w, Dispatch([], [])), WantsReranker(s, mask), signal, "reranker", s.targetKey, s.targetMemory,
                   Rerank(s.signalType == "thumb_up", s.targetMemory, s.evidence), false);
    var b := Queue(cfg, a, WantsSupersede(s, mask), signal, "supersede", s.targetKey, s.targetMemory,
                   Supersede(s.targetMemory, s.correctionText), false);
    var c := Queue(cfg, b, WantsRule(s, mask), signal, "rule", s.targetKey, s.targetMemory, RuleAction(cfg, s),
      IsConfident(s));
    Queue(cfg, c, WantsWorkflow(s, mask), signal, "workflow", s.workflowProject, 0,
          Workflow(s.workflowProject, s.workflowSignalType, s.description), false)
  }

  /** A missing target key is taken from the target memory, when that can be read. */
  function FillKey(s: Signal, memoryKey: Option<string>): Signal {
    if s.targetKey != "" || s.targetMemory <= 0 || memoryKey.None? then s else s.(targetKey := memoryKey.value)
  }

  /** `learning_router_record_signal`, behind the integrity gate (`admitted`) and the classifier (`mask`). */
  ghost function Record(cfg: Config, w: World, s: Signal, admitted: bool, mask: Option<Sinks>,
      memoryKey: Option<string>)
      : (World, int, Dispatch) {
    if s.signalType == "" || !admitted || mask.None? then (w, -1, Dispatch([], []))
    else
      var (w1, signal) := InsertSignal(ArchiveExpired(w));
      if signal <= 0 then (w1, -1, Dispatch([], []))
      else
        var (w2, out) := Route(cfg, w1, signal, FillKey(s, memoryKey), mask.value);
        (w2, signal, out)
  }

  function Accept(cfg: Config, w: World, id: int): (World, Answer) {
    if id <= 0 then (w, None)
    else
      var w1 := ArchiveExpired(if id in w.rows then w.(accepted := w.accepted + {id}) else w);
      Commit(cfg, w1, id)
  }

  function Reject(w: World, id: int): (World, Answer) {
    if id <= 0 then (w, None)
    else
      var (w1, found) := Get(w, id);
      if found.None? then (w1, None)
      else Get(if found.value.status.Pending? then Archive(w1, id, "rejected") else w1, id)
  }

  datatype Op =
    | RecordOp(signal: Signal, admitted: bool, mask: Option<Sinks>, memoryKey: Option<string>)
    | AcceptOp(id: int)
    | RejectOp(id: int)
    | GetOp(id: int)
    | ListOp

  ghost function Do(cfg: Config, w: World, op: Op): World {
    match op
    case RecordOp(s, admitted, mask, key) => Record(cfg, w, s, admitted, mask, key).0
    case AcceptOp(id) => Accept(cfg, w, id).0
    case RejectOp(id) => Reject(w, id).0
    case GetOp(id) => Get(w, id).0
    case ListOp => Tick(ArchiveExpired(w))
  }

  ghost function Run(cfg: Config, w: World, ops: seq<Op>): World
    decreases |ops|
  {
    if ops == [] then w else Run(cfg, Do(cfg, w, ops[0]), ops[1..])
  }
}
