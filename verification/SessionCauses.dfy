/** Cause before effect in every run, and what a delivered settlement therefore rests on. */
module SessionCauses {
  import opened Prelude
  import opened SettlementTypes
  import opened Pipeline
  import opened Sessions
  import opened SessionHistory
  import opened SessionEvidence
  import Oracle
  import opened Signer

  ghost predicate InsertedIn(past: seq<Event>, id: SessionId) { exists assetId :: SessionInserted(id, assetId) in past }

  ghost predicate PublishedIn(past: seq<Event>, id: SessionId, outcome: Outcome) {
    exists t :: OutcomePublished(t, id, outcome) in past
  }

  /** What the session's claimant met leads to this outcome for the session's asset. */
  ghost predicate EarnedBy(cfg: Config, past: seq<Event>, t: TaskId, id: SessionId, outcome: Outcome, assetId: u64,
                           evidence: Evidence)
  {
    && SessionInserted(id, assetId) in past && EvidenceMet(t, id, evidence) in past
    && cfg.notarize(assetId, evidence) == Some(outcome)
  }

  ghost predicate EarnedIn(cfg: Config, past: seq<Event>, t: TaskId, id: SessionId, outcome: Outcome) {
    VerifierClaimed(t, id) in past && exists assetId, evidence :: EarnedBy(cfg, past, t, id, outcome, assetId, evidence)
  }

  /** The session's claimant panics over this evidence. */
  ghost predicate BroughtDownIn(cfg: Config, past: seq<Event>, t: TaskId, id: SessionId, evidence: Evidence) {
    && VerifierClaimed(t, id) in past
    && exists assetId :: SessionInserted(id, assetId) in past && cfg.notarize(assetId, evidence) == None
  }

  /** What must already have happened when an event happens. */
  ghost predicate CausedBy(cfg: Config, e: Event, past: seq<Event>) {
    match e
    case SessionInserted(_, _) => true
    case SessionRejected => true
    case SessionExpired(id) => InsertedIn(past, id)
    case SessionConsumed(id) => InsertedIn(past, id)
    case VerifierClaimed(_, id) => InsertedIn(past, id)
    case EvidenceMet(t, id, _) => VerifierClaimed(t, id) in past
    case NotarizationUnwound(t, id, evidence) => BroughtDownIn(cfg, past, t, id, evidence)
    case OutcomePublished(t, id, outcome) => EarnedIn(cfg, past, t, id, outcome)
    case ReplySent(_, id, reply) =>
      reply != ChannelClosed && (reply.Delivered? ==> PublishedIn(past, id, reply.outcome))
  }

  ghost predicate Ordered(cfg: Config, trace: seq<Event>) {
    forall k :: 0 <= k < |trace| ==> CausedBy(cfg, trace[k], trace[..k])
  }

  lemma CausesRemain(cfg: Config, e: Event, past: seq<Event>, more: seq<Event>)
    requires CausedBy(cfg, e, past)
    ensures CausedBy(cfg, e, past + more)
  {
    match e
    case SessionExpired(id) => InsertedRemains(past, more, id);
    case SessionConsumed(id) => InsertedRemains(past, more, id);
    case VerifierClaimed(_, id) => InsertedRemains(past, more, id);
    case NotarizationUnwound(t, id, evidence) =>
      var assetId :| SessionInserted(id, assetId) in past && cfg.notarize(assetId, evidence) == None;
      assert SessionInserted(id, assetId) in past + more;
    case OutcomePublished(t, id, outcome) =>
      var assetId, evidence :| EarnedBy(cfg, past, t, id, outcome, assetId, evidence);
      assert EarnedBy(cfg, past + more, t, id, outcome, assetId, evidence);
    case ReplySent(_, id, reply) =>
      if reply.Delivered? {
        var t :| OutcomePublished(t, id, reply.outcome) in past;
        assert OutcomePublished(t, id, reply.outcome) in past + more;
      }
    case _ =>
  }

  lemma InsertedRemains(past: seq<Event>, more: seq<Event>, id: SessionId)
    requires InsertedIn(past, id)
    ensures InsertedIn(past + more, id)
  {
    var assetId :| SessionInserted(id, assetId) in past;
    assert SessionInserted(id, assetId) in past + more;
  }

  // What the state remembers of the past ----------------------------------------------------

  ghost predicate CellLinked(g: Shared, id: SessionId, trace: seq<Event>)
    requires id in g.cells
  {
    && SessionInserted(id, g.cells[id].assetId) in trace
    && (g.cells[id].slot.Some? ==> PublishedIn(trace, id, g.cells[id].slot.value))
  }

  ghost predicate MetFor(cfg: Config, trace: seq<Event>, t: TaskId, id: SessionId, assetId: u64, outcome: Outcome) {
    exists evidence :: EvidenceMet(t, id, evidence) in trace && cfg.notarize(assetId, evidence) == Some(outcome)
  }

  ghost predicate TaskLinked(cfg: Config, g: Shared, t: TaskId, task: Task, trace: seq<Event>) {
    && (!task.Admitted? && !task.Leaving? && Owns(task, task.id) ==> VerifierClaimed(t, task.id) in trace)
    && (task.Finished? || task.Publishing? ==>
          task.id in g.cells && MetFor(cfg, trace, t, task.id, g.cells[task.id].assetId, task.outcome))
  }

  ghost predicate Linked(cfg: Config, s: State, trace: seq<Event>) {
    && (forall id :: id in s.shared.cells ==> CellLinked(s.shared, id, trace))
    && (forall t :: t in s.tasks ==> TaskLinked(cfg, s.shared, t, s.tasks[t], trace))
  }

  lemma PublishedRemains(trace: seq<Event>, events: seq<Event>, id: SessionId, outcome: Outcome)
    requires PublishedIn(trace, id, outcome)
    ensures PublishedIn(trace + events, id, outcome)
  {
    var t :| OutcomePublished(t, id, outcome) in trace;
    assert OutcomePublished(t, id, outcome) in trace + events;
  }

  /** What one move writes into a cell is in its events. */
  lemma CellWritten(cfg: Config, g: Shared, t: TaskId, task: Option<Task>, move: Move, id: SessionId)
    ensures var (g', _, events) := Perform(cfg, g, t, task, move);
      id in g'.cells ==>
        && (id in g.cells ==> g'.cells[id].assetId == g.cells[id].assetId)
        && (id !in g.cells ==> SessionInserted(id, g'.cells[id].assetId) in events && g'.cells[id].slot.None?)
        && (id in g.cells && g'.cells[id].slot != g.cells[id].slot && g'.cells[id].slot.Some? ==>
              OutcomePublished(t, id, g'.cells[id].slot.value) in events)
  {}

  lemma MetRemains(cfg: Config, trace: seq<Event>, events: seq<Event>, t: TaskId, id: SessionId, assetId: u64, outcome: Outcome)
    requires MetFor(cfg, trace, t, id, assetId, outcome)
    ensures MetFor(cfg, trace + events, t, id, assetId, outcome)
  {
    var evidence :| EvidenceMet(t, id, evidence) in trace && cfg.notarize(assetId, evidence) == Some(outcome);
    assert EvidenceMet(t, id, evidence) in trace + events;
  }

  lemma MoverLinked(cfg: Config, g: Shared, t: TaskId, task: Option<Task>, move: Move, trace: seq<Event>)
    requires task.Some? ==> TaskLinked(cfg, g, t, task.value, trace)
    ensures var (g', task', events) := Perform(cfg, g, t, task, move);
      task'.Some? ==> TaskLinked(cfg, g', t, task'.value, trace + events)
  {
    var (g', task', events) := Perform(cfg, g, t, task, move);
    if task.Some? && task.value.Finished? {
      MetRemains(cfg, trace, events, t, task.value.id, g.cells[task.value.id].assetId, task.value.outcome);
    }
    if task.Some? && task.value.Publishing? {
      MetRemains(cfg, trace, events, t, task.value.id, g.cells[task.value.id].assetId, task.value.outcome);
    }
    if task.Some? && task.value.Running? && move.End? && task'.Some? && task'.value.Finished? {
      assert EvidenceMet(t, task.value.id, move.evidence) in trace + events;
    }
  }

  lemma StepLinked(cfg: Config, s: State, a: Action, trace: seq<Event>)
    requires Linked(cfg, s, trace)
    ensures var (s', events) := Step(cfg, s, a); Linked(cfg, s', trace + events)
  {
    var (s', events) := Step(cfg, s, a);
    if a.Act? {
      var g, t, task := s.shared, a.task, At(s.tasks, a.task);
      MoverLinked(cfg, g, t, task, a.move, trace);
      forall id | id in s'.shared.cells
        ensures CellLinked(s'.shared, id, trace + events)
      {
        CellWritten(cfg, g, t, task, a.move, id);
        if id in g.cells && g.cells[id].slot.Some? {
          PublishedRemains(trace, events, id, g.cells[id].slot.value);
        }
      }
      forall u | u in s'.tasks && u != t
        ensures TaskLinked(cfg, s'.shared, u, s'.tasks[u], trace + events)
      {
        assert TaskLinked(cfg, g, u, s.tasks[u], trace);
        if !s.tasks[u].Admitted? && !s.tasks[u].Leaving? { CellWritten(cfg, g, t, task, a.move, s.tasks[u].id); }
        PerformGuarantees(cfg, g, t, task, a.move);
        if s.tasks[u].Finished? || s.tasks[u].Publishing? {
          MetRemains(cfg, trace, events, u, s.tasks[u].id, g.cells[s.tasks[u].id].assetId, s.tasks[u].outcome);
        }
      }
    } else {
      forall id | id in s'.shared.cells
        ensures CellLinked(s'.shared, id, trace + events)
      {
        if s.shared.cells[id].slot.Some? { PublishedRemains(trace, events, id, s.shared.cells[id].slot.value); }
      }
    }
  }

  ghost predicate AllCaused(cfg: Config, events: seq<Event>, past: seq<Event>) {
    forall i :: 0 <= i < |events| ==> CausedBy(cfg, events[i], past)
  }

  lemma NotarizeMoveCaused(cfg: Config, g: Shared, t: TaskId, task: Option<Task>, move: Move, trace: seq<Event>)
    requires forall id :: id in g.cells ==> CellLinked(g, id, trace)
    ensures AllCaused(cfg, NotarizeMove(g, t, task, move).2, trace)
  {
    if move.Claim? && task.Some? && task.value.Found? && task.value.id in g.cells {
      assert CellLinked(g, task.value.id, trace);
      assert InsertedIn(trace, task.value.id);
    }
  }

  lemma SocketMoveCaused(cfg: Config, g: Shared, t: TaskId, task: Option<Task>, move: Move, trace: seq<Event>)
    requires forall id :: id in g.cells ==> CellLinked(g, id, trace)
    requires task.Some? ==> TaskLinked(cfg, g, t, task.value, trace)
    ensures AllCaused(cfg, SocketMove(cfg, g, t, task, move).2, trace)
  {
    if move.Publish? && task.Some? && task.value.Publishing? && task.value.id in g.cells {
      assert CellLinked(g, task.value.id, trace);
      var id, assetId := task.value.id, g.cells[task.value.id].assetId;
      var evidence :| EvidenceMet(t, id, evidence) in trace && cfg.notarize(assetId, evidence) == Some(task.value.outcome);
      assert EarnedBy(cfg, trace, t, id, task.value.outcome, assetId, evidence);
    }
    if move.End? && task.Some? && task.value.Running? && task.value.id in g.cells {
      assert CellLinked(g, task.value.id, trace);
      assert cfg.notarize(g.cells[task.value.id].assetId, move.evidence) == None ==>
          BroughtDownIn(cfg, trace, t, task.value.id, move.evidence);
    }
  }

  lemma ResultMoveCaused(cfg: Config, g: Shared, t: TaskId, task: Option<Task>, move: Move, trace: seq<Event>)
    requires forall id :: id in g.cells ==> CellLinked(g, id, trace)
    requires task.Some? ==> TaskOk(g, task.value)
    ensures AllCaused(cfg, ResultMove(g, t, task, move).2, trace)
  {
    if move.Close? && task.Some? && task.value.Closing? {
      assert CellLinked(g, task.value.id, trace);
      assert InsertedIn(trace, task.value.id);
    }
  }

  lemma EventsCaused(cfg: Config, s: State, a: Action, trace: seq<Event>)
    requires Inv(cfg, s) && Linked(cfg, s, trace)
    ensures AllCaused(cfg, Step(cfg, s, a).1, trace)
  {
    if a.Act? {
      var g, t, task := s.shared, a.task, At(s.tasks, a.task);
      NotarizeMoveCaused(cfg, g, t, task, a.move, trace);
      SocketMoveCaused(cfg, g, t, task, a.move, trace);
      ResultMoveCaused(cfg, g, t, task, a.move, trace);
    } else if a.FireTimer? && a.id in s.shared.sessions {
      assert CellLinked(s.shared, a.id, trace);
      assert InsertedIn(trace, a.id);
    }
  }

  lemma OrderExtends(cfg: Config, trace: seq<Event>, events: seq<Event>)
    requires Ordered(cfg, trace) && AllCaused(cfg, events, trace)
    ensures Ordered(cfg, trace + events)
  {
    var longer := trace + events;
    forall k | 0 <= k < |longer|
      ensures CausedBy(cfg, longer[k], longer[..k])
    {
      if k < |trace| {
        assert longer[..k] == trace[..k];
      } else {
        assert longer[..k] == trace + events[..k - |trace|];
        CausesRemain(cfg, events[k - |trace|], trace, events[..k - |trace|]);
      }
    }
  }

  lemma {:induction false} CausalOrder(cfg: Config, actions: seq<Action>)
    ensures var h := Run(cfg, actions); Linked(cfg, h.state, h.trace) && Ordered(cfg, h.trace)
  {
    if actions != [] {
      var before, a := actions[..|actions| - 1], actions[|actions| - 1];
      var h := Run(cfg, before);
      CausalOrder(cfg, before);
      Reachable(cfg, before);
      StepLinked(cfg, h.state, a, h.trace);
      EventsCaused(cfg, h.state, a, h.trace);
      OrderExtends(cfg, h.trace, Step(cfg, h.state, a).1);
    }
  }

  // The main results ------------------------------------------------------------------------

  /** Claimed, notarized over this evidence, published, in this order and by one handler. */
  ghost predicate EarnedBefore(cfg: Config, trace: seq<Event>, i: int, m: int, j: int, k: int, id: SessionId, outcome: Outcome,
                               assetId: u64, evidence: Evidence)
  {
    && 0 <= i < m < j < k <= |trace|
    && trace[i].VerifierClaimed? && trace[i].id == id
    && trace[m] == EvidenceMet(trace[i].task, id, evidence)
    && trace[j] == OutcomePublished(trace[i].task, id, outcome)
    && SessionInserted(id, assetId) in trace[..j] && cfg.notarize(assetId, evidence) == Some(outcome)
  }

  /** A delivered outcome was published before, by the session's claimant, who claimed before that, and it is what that
      session's asset and the evidence this claimant met in between lead to. */
  lemma Delivery(cfg: Config, actions: seq<Action>, k: nat)
    requires k < |Run(cfg, actions).trace|
    requires Run(cfg, actions).trace[k].ReplySent? && Run(cfg, actions).trace[k].reply.Delivered?
    ensures exists i, m, j, assetId, evidence ::
      var trace := Run(cfg, actions).trace;
      EarnedBefore(cfg, trace, i, m, j, k, trace[k].id, trace[k].reply.outcome, assetId, evidence)
  {
    CausalOrder(cfg, actions);
    var trace := Run(cfg, actions).trace;
    var i, m, j, assetId, evidence := EarnedIfDelivered(cfg, trace, k);
  }

  lemma EarnedIfDelivered(cfg: Config, trace: seq<Event>, k: nat)
    returns (i: nat, m: nat, j: nat, assetId: u64, evidence: Evidence)
    requires Ordered(cfg, trace) && k < |trace| && trace[k].ReplySent? && trace[k].reply.Delivered?
    ensures EarnedBefore(cfg, trace, i, m, j, k, trace[k].id, trace[k].reply.outcome, assetId, evidence)
  {
    var id, outcome := trace[k].id, trace[k].reply.outcome;
    assert CausedBy(cfg, trace[k], trace[..k]);
    var t :| OutcomePublished(t, id, outcome) in trace[..k];
    j := IndexIn(trace, k, OutcomePublished(t, id, outcome));
    i, m, assetId, evidence := EarnedIfPublished(cfg, trace, j, t, id, outcome);
  }

  lemma EarnedIfPublished(cfg: Config, trace: seq<Event>, j: nat, t: TaskId, id: SessionId, outcome: Outcome)
    returns (i: nat, m: nat, assetId: u64, evidence: Evidence)
    requires Ordered(cfg, trace) && j < |trace| && trace[j] == OutcomePublished(t, id, outcome)
    ensures i < m < j && trace[i] == VerifierClaimed(t, id) && trace[m] == EvidenceMet(t, id, evidence)
    ensures EarnedBy(cfg, trace[..j], t, id, outcome, assetId, evidence)
  {
    assert CausedBy(cfg, trace[j], trace[..j]);
    assetId, evidence :| EarnedBy(cfg, trace[..j], t, id, outcome, assetId, evidence);
    m := IndexIn(trace, j, EvidenceMet(t, id, evidence));
    assert CausedBy(cfg, trace[m], trace[..m]);
    i := IndexIn(trace, m, VerifierClaimed(t, id));
  }

  lemma IndexIn(trace: seq<Event>, k: nat, e: Event) returns (i: nat)
    requires k <= |trace| && e in trace[..k]
    ensures i < k && trace[i] == e
  {
    i :| 0 <= i < k && trace[..k][i] == e;
  }

  /** The reply "settlement result channel closed" cannot be observed: a waiting handler keeps the session's `Arc`
      alive, and with it a sender that is not dropped unsent. */
  lemma ChannelNeverCloses(cfg: Config, actions: seq<Action>, k: nat)
    requires k < |Run(cfg, actions).trace| && Run(cfg, actions).trace[k].ReplySent?
    ensures Run(cfg, actions).trace[k].reply != ChannelClosed
  {
    CausalOrder(cfg, actions);
    assert CausedBy(cfg, Run(cfg, actions).trace[k], Run(cfg, actions).trace[..k]);
  }

  /** A session is inserted for one asset only. */
  lemma OneAssetPerSession(cfg: Config, actions: seq<Action>, id: SessionId, assetId: u64, assetId': u64)
    requires SessionInserted(id, assetId) in Run(cfg, actions).trace
    requires SessionInserted(id, assetId') in Run(cfg, actions).trace
    ensures assetId == assetId'
  {
    AtMostOnce(cfg, actions);
    var trace := Run(cfg, actions).trace;
    var i :| 0 <= i < |trace| && trace[i] == SessionInserted(id, assetId);
    var j :| 0 <= j < |trace| && trace[j] == SessionInserted(id, assetId');
    assert KeyOf(trace[i]) == KeyOf(trace[j]);
  }

  /** The server as configured: notarization is the pipeline. */
  function Serving(maxPending: nat, maxActive: nat, env: Oracle.Env, key: Signing): Config {
    Config(maxPending, maxActive, (assetId: u64, evidence: Evidence) => Notarize(assetId, evidence, env, key))
  }

  /** In this run session `id` was notarized once: by handler `t`, its claimant, over this evidence. */
  ghost predicate NotarizedOnce(cfg: Config, actions: seq<Action>, t: TaskId, id: SessionId, evidence: Evidence) {
    var trace := Run(cfg, actions).trace;
    && VerifierClaimed(t, id) in trace && EvidenceMet(t, id, evidence) in trace && Ended(cfg, actions, t, id, evidence)
    && forall u, other | EvidenceMet(u, id, other) in trace :: u == t && other == evidence
  }

  lemma DeliveredOnEvidence(cfg: Config, actions: seq<Action>, k: nat, assetId: u64) returns (t: TaskId, evidence: Evidence)
    requires var trace := Run(cfg, actions).trace;
      && k < |trace| && trace[k].ReplySent? && trace[k].reply.Delivered? && SessionInserted(trace[k].id, assetId) in trace
    ensures var e := Run(cfg, actions).trace[k];
      NotarizedOnce(cfg, actions, t, e.id, evidence) && cfg.notarize(assetId, evidence) == Some(e.reply.outcome)
  {
    var trace := Run(cfg, actions).trace;
    var id := trace[k].id;
    CausalOrder(cfg, actions);
    var i, m, j, a;
    i, m, j, a, evidence := EarnedIfDelivered(cfg, trace, k);
    t := trace[i].task;
    assert SessionInserted(id, a) in trace;
    OneAssetPerSession(cfg, actions, id, assetId, a);
    assert trace[m] == EvidenceMet(t, id, evidence);
    MetIffEnded(cfg, actions, t, id, evidence);
    forall u, other | EvidenceMet(u, id, other) in trace ensures u == t && other == evidence {
      OneNotarization(cfg, actions, u, t, id, other, evidence);
    }
  }

  /** End to end: whatever settlement a client receives for its session is about the asset the session was created for.
      The session was notarized once, and all of it follows from what its claimant met then: decided on that transcript
      and on the escrow read then for that asset, signed over the trade offer committed in it. */
  lemma AssetBinding(maxPending: nat, maxActive: nat, env: Oracle.Env, key: Signing, actions: seq<Action>, k: nat, assetId: u64)
    requires var trace := Run(Serving(maxPending, maxActive, env, key), actions).trace;
      && k < |trace| && trace[k].ReplySent? && trace[k].reply.Delivered? && trace[k].reply.outcome.Settled?
      && SessionInserted(trace[k].id, assetId) in trace
    ensures var cfg := Serving(maxPending, maxActive, env, key); var e := Run(cfg, actions).trace[k];
      exists t, evidence ::
        NotarizedOnce(cfg, actions, t, e.id, evidence) && Justified(assetId, e.reply.outcome.result, evidence, env, key)
  {
    var t, evidence := DeliveredOnEvidence(Serving(maxPending, maxActive, env, key), actions, k, assetId);
    SettledIsJustified(assetId, evidence, env, key);
  }

  // Panics ----------------------------------------------------------------------------------

  /** Everything is in place for a decision, and the response is a gzip body cut in its trailer. */
  ghost predicate CutIn(assetId: u64, evidence: Evidence) {
    && evidence.Gathered? && InEscrow(assetId, evidence.chain)
    && Oracle.Route(ServerOf(evidence.mpc), evidence.mpc.sent).Ok? && CutResponse(evidence.mpc.recv)
  }

  /** A handler that unwinds does so over evidence that is cut like that: the very evidence it met. */
  lemma UnwindingNeedsCutResponse(maxPending: nat, maxActive: nat, env: Oracle.Env, key: Signing, actions: seq<Action>,
                                  t: TaskId, id: SessionId, evidence: Evidence, assetId: u64)
    requires NotarizationUnwound(t, id, evidence) in Run(Serving(maxPending, maxActive, env, key), actions).trace
    requires SessionInserted(id, assetId) in Run(Serving(maxPending, maxActive, env, key), actions).trace
    ensures CutIn(assetId, evidence)
    ensures Unwound(Serving(maxPending, maxActive, env, key), actions, t, id, evidence)
  {
    var cfg := Serving(maxPending, maxActive, env, key);
    var trace := Run(cfg, actions).trace;
    CausalOrder(cfg, actions);
    var k :| 0 <= k < |trace| && trace[k] == NotarizationUnwound(t, id, evidence);
    assert CausedBy(cfg, trace[k], trace[..k]);
    var a :| SessionInserted(id, a) in trace[..k] && cfg.notarize(a, evidence) == None;
    OneAssetPerSession(cfg, actions, id, a, assetId);
    UnwindsIff(a, evidence, env, key);
    MetIffEnded(cfg, actions, t, id, evidence);
  }

  /** The gauge tells the notarizations under way exactly if no action of the run ended one over such evidence. */
  lemma GaugeIffNoneCut(maxPending: nat, maxActive: nat, env: Oracle.Env, key: Signing, actions: seq<Action>)
    ensures var cfg := Serving(maxPending, maxActive, env, key); var s := Run(cfg, actions).state;
      s.shared.active == |Members(s.tasks, Active)| <==> forall t, id, evidence :: !EndedCut(cfg, actions, t, id, evidence)
  {
    var cfg := Serving(maxPending, maxActive, env, key);
    GaugeIff(cfg, actions);
    forall t, id, evidence
      ensures Unwound(cfg, actions, t, id, evidence) <==> EndedCut(cfg, actions, t, id, evidence)
    {
      forall m: nat
        ensures UnwindsAt(cfg, actions, m, t, id, evidence) <==> EndsCutAt(cfg, actions, m, t, id, evidence)
      {
        CutIsPanic(maxPending, maxActive, env, key, actions, m, t, id, evidence);
      }
    }
  }

  ghost predicate EndsCutAt(cfg: Config, actions: seq<Action>, m: nat, t: TaskId, id: SessionId, evidence: Evidence) {
    && EndsAt(cfg, actions, m, t, id, evidence) && AssetAt(cfg, actions, m, id).Some?
    && CutIn(AssetAt(cfg, actions, m, id).value, evidence)
  }

  ghost predicate EndedCut(cfg: Config, actions: seq<Action>, t: TaskId, id: SessionId, evidence: Evidence) {
    exists m :: EndsCutAt(cfg, actions, m, t, id, evidence)
  }

  lemma CutIsPanic(maxPending: nat, maxActive: nat, env: Oracle.Env, key: Signing, actions: seq<Action>, m: nat, t: TaskId,
                   id: SessionId, evidence: Evidence)
    ensures var cfg := Serving(maxPending, maxActive, env, key);
      UnwindsAt(cfg, actions, m, t, id, evidence) <==> EndsCutAt(cfg, actions, m, t, id, evidence)
  {
    var cfg := Serving(maxPending, maxActive, env, key);
    if EndsAt(cfg, actions, m, t, id, evidence) && AssetAt(cfg, actions, m, id).Some? {
      UnwindsIff(AssetAt(cfg, actions, m, id).value, evidence, env, key);
    }
  }

  /** And such a response does it: after one run the gauge counts a notarization that is over. */
  lemma CutResponseLeaksGauge(maxPending: nat, maxActive: nat, env: Oracle.Env, key: Signing, assetId: u64, evidence: Evidence)
    requires maxPending > 0 && maxActive > 0 && CutIn(assetId, evidence)
    ensures var s := Run(Serving(maxPending, maxActive, env, key), PanickingRun(assetId, evidence)).state;
      s.tasks == map[] && s.shared.available == maxActive && s.shared.active == 1
  {
    UnwindsIff(assetId, evidence, env, key);
    GaugeLeaks(Serving(maxPending, maxActive, env, key), assetId, evidence);
  }
}
