/** The one-time session protocol of main.rs as a transition system: one step per atomic action, handlers of
    `/session`, `/notarize` and `/session/result` and the TTL timers interleaved in every possible way. */
module Sessions {
  import opened Prelude
  import opened SettlementTypes

  type SessionId = nat

  type TaskId = nat

  /** `notarize` is what a session's asset and evidence lead to; None if the handler panics over them. */
  datatype Config = Config(maxPending: nat, maxActive: nat, notarize: (u64, Evidence) -> Option<Outcome>)

  /** `SessionData`. It lives in an `Arc`: leaving the map does not end it, losing the last reference does. */
  datatype Cell = Cell(
    assetId: u64,
    claimed: bool,          // verifier_claimed
    sender: bool,           // result_sender is Some
    receiver: bool,         // result_receiver is Some
    slot: Option<Outcome>,  // sent through the oneshot channel
    freed: bool)            // last reference gone; an unsent sender is dropped with it

  datatype Reply = Delivered(outcome: Outcome) | TimedOut | ChannelClosed

  /** Where a handler instance stands: the action it performs next. */
  datatype Task =
    // POST /session
    | Inserted(id: SessionId)                       // to bump `created`
    | Counted(id: SessionId)                        // to spawn the timer
    // GET /notarize; from here to Leaving a permit is held
    | Admitted(id: SessionId)                       // to look the session up
    | Found(id: SessionId)                          // to compare-exchange the claim flag
    | Claimant(id: SessionId)                       // to bump `upgraded`
    | Upgrading(id: SessionId)                      // waiting for the WebSocket
    | Running(id: SessionId)                        // gauge incremented, notarization under way
    | Finished(id: SessionId, outcome: Outcome)     // to decrement the gauge
    | Publishing(id: SessionId, outcome: Outcome)   // to take the sender
    | Leaving                                       // to give the permit back
    // GET /session/result
    | Located(id: SessionId)                        // to take the receiver
    | Waiting(id: SessionId)                        // on the receiver
    | Closing(id: SessionId, reply: Reply)          // to remove the session and answer

  datatype Shared = Shared(
    sessions: set<SessionId>,
    cells: map<SessionId, Cell>,
    timers: set<SessionId>,
    available: nat,
    active: int,
    created: nat,
    expired: nat,
    upgraded: nat,
    rejected: nat)

  datatype State = State(shared: Shared, tasks: map<TaskId, Task>)

  datatype Event =
    | SessionInserted(id: SessionId, assetId: u64)
    | SessionRejected
    | SessionExpired(id: SessionId)
    | SessionConsumed(id: SessionId)
    | VerifierClaimed(task: TaskId, id: SessionId)
    | EvidenceMet(task: TaskId, id: SessionId, evidence: Evidence)
    | NotarizationUnwound(task: TaskId, id: SessionId, evidence: Evidence)
    | OutcomePublished(task: TaskId, id: SessionId, outcome: Outcome)
    | ReplySent(task: TaskId, id: SessionId, reply: Reply)

  datatype Move =
    | Create(id: SessionId, assetId: u64) | CountCreated | SpawnTimer
    | Admit(id: SessionId) | Lookup | CancelNotarize | Claim | CountUpgrade | AbandonUpgrade | Start
    | End(evidence: Evidence) | Decrement | Publish | GiveBack
    | Locate(id: SessionId) | TakeReceiver | Receive | TimeOut | SeeClosed | CancelResult | Close

  datatype Action = Act(task: TaskId, move: Move) | FireTimer(id: SessionId) | FreeCell(id: SessionId)

  // One step --------------------------------------------------------------------------------

  type Effect = (Shared, Option<Task>, seq<Event>)

  /** `session_handler`. The check and the insertion share one lock section. */
  function SessionMove(cfg: Config, g: Shared, task: Option<Task>, move: Move): Effect {
    match (move, task)
    case (Create(id, assetId), None) =>
      if id in g.cells then (g, None, [])
      else if |g.sessions| >= cfg.maxPending then (g.(rejected := g.rejected + 1), None, [SessionRejected])
      else
        (g.(sessions := g.sessions + {id}, cells := g.cells[id := Cell(assetId, false, true, true, None, false)]),
         Some(Inserted(id)), [SessionInserted(id, assetId)])
    case (CountCreated, Some(Inserted(id))) => (g.(created := g.created + 1), Some(Counted(id)), [])
    case (SpawnTimer, Some(Counted(id))) => (g.(timers := g.timers + {id}), None, [])
    case _ => (g, task, [])
  }

  /** `notarize_ws_handler`: permit first, then the session, then the claim. */
  function NotarizeMove(g: Shared, t: TaskId, task: Option<Task>, move: Move): Effect {
    match (move, task)
    case (Admit(id), None) =>
      if g.available == 0 then (g, None, []) else (g.(available := g.available - 1), Some(Admitted(id)), [])
    case (CancelNotarize, Some(Admitted(id))) => (g, Some(Leaving), [])
    case (Lookup, Some(Admitted(id))) => (g, Some(if id in g.sessions then Found(id) else Leaving), [])
    case (Claim, Some(Found(id))) =>
      if id !in g.cells || g.cells[id].claimed then (g, Some(Leaving), [])
      else (g.(cells := g.cells[id := g.cells[id].(claimed := true)]), Some(Claimant(id)), [VerifierClaimed(t, id)])
    case (CountUpgrade, Some(Claimant(id))) => (g.(upgraded := g.upgraded + 1), Some(Upgrading(id)), [])
    case (AbandonUpgrade, Some(Upgrading(id))) => (g, Some(Leaving), [])
    case (GiveBack, Some(Leaving)) => (g.(available := g.available + 1), None, [])
    case _ => (g, task, [])
  }

  /** `handle_notarize_websocket` and `publish_settlement_outcome`. A panic in between drops the permit, but neither
      lowers the gauge nor publishes. */
  function SocketMove(cfg: Config, g: Shared, t: TaskId, task: Option<Task>, move: Move): Effect {
    match (move, task)
    case (Start, Some(Upgrading(id))) => (g.(active := g.active + 1), Some(Running(id)), [])
    case (End(evidence), Some(Running(id))) =>
      if id !in g.cells then (g, task, [])
      else
        (match cfg.notarize(g.cells[id].assetId, evidence)
         case Some(outcome) => (g, Some(Finished(id, outcome)), [EvidenceMet(t, id, evidence)])
         case None => (g, Some(Leaving), [EvidenceMet(t, id, evidence), NotarizationUnwound(t, id, evidence)]))
    case (Decrement, Some(Finished(id, outcome))) => (g.(active := g.active - 1), Some(Publishing(id, outcome)), [])
    case (Publish, Some(Publishing(id, outcome))) =>
      if id !in g.cells || !g.cells[id].sender then (g, Some(Leaving), [])
      else (g.(cells := g.cells[id := g.cells[id].(sender := false, slot := Some(outcome))]), Some(Leaving),
            [OutcomePublished(t, id, outcome)])
    case _ => (g, task, [])
  }

  /** `session_result_handler`. The client may go away at every await. */
  function ResultMove(g: Shared, t: TaskId, task: Option<Task>, move: Move): Effect {
    match (move, task)
    case (Locate(id), None) => (g, if id in g.sessions then Some(Located(id)) else None, [])
    case (TakeReceiver, Some(Located(id))) =>
      if id !in g.cells || !g.cells[id].receiver then (g, None, [])
      else (g.(cells := g.cells[id := g.cells[id].(receiver := false)]), Some(Waiting(id)), [])
    case (Receive, Some(Waiting(id))) =>
      if id in g.cells && g.cells[id].slot.Some? then (g, Some(Closing(id, Delivered(g.cells[id].slot.value))), [])
      else (g, task, [])
    case (TimeOut, Some(Waiting(id))) => (g, Some(Closing(id, TimedOut)), [])
    case (SeeClosed, Some(Waiting(id))) =>
      if id in g.cells && g.cells[id].freed && g.cells[id].slot.None? then (g, Some(Closing(id, ChannelClosed)), [])
      else (g, task, [])
    case (Close, Some(Closing(id, reply))) =>
      (g.(sessions := g.sessions - {id}), None,
       (if id in g.sessions then [SessionConsumed(id)] else []) + [ReplySent(t, id, reply)])
    case (CancelResult, Some(Located(id))) => (g, None, [])
    case (CancelResult, Some(Waiting(id))) => (g, None, [])
    case (CancelResult, Some(Closing(id, reply))) => (g, None, [])
    case _ => (g, task, [])
  }

  /** One atomic action of one handler: new shared state, where the handler stands next, and what was observed.
      A move that does not fit where the handler stands changes nothing. */
  function Perform(cfg: Config, g: Shared, t: TaskId, task: Option<Task>, move: Move): Effect {
    if move.Create? || move.CountCreated? || move.SpawnTimer? then SessionMove(cfg, g, task, move)
    else if move.Start? || move.End? || move.Decrement? || move.Publish? then SocketMove(cfg, g, t, task, move)
    else if move.Locate? || move.TakeReceiver? || move.Receive? || move.TimeOut? || move.SeeClosed? || move.CancelResult?
            || move.Close? then ResultMove(g, t, task, move)
    else NotarizeMove(g, t, task, move)
  }

  function At(tasks: map<TaskId, Task>, t: TaskId): Option<Task> { if t in tasks then Some(tasks[t]) else None }

  function Put(tasks: map<TaskId, Task>, t: TaskId, task: Option<Task>): map<TaskId, Task> {
    if task.None? then tasks - {t} else tasks[t := task.value]
  }

  /** Handlers that hold the session's `Arc`. */
  predicate Refers(task: Task, id: SessionId) {
    Owns(task, id) || Receives(task, id) || task == Found(id) || task == Located(id)
  }

  predicate Referenced(s: State, id: SessionId) {
    id in s.shared.sessions || exists t :: t in s.tasks && Refers(s.tasks[t], id)
  }

  function Step(cfg: Config, s: State, a: Action): (State, seq<Event>) {
    var g := s.shared;
    match a
    case Act(t, move) =>
      var (g', task, events) := Perform(cfg, g, t, At(s.tasks, t), move);
      (State(g', Put(s.tasks, t, task)), events)
    case FireTimer(id) =>
      if id !in g.timers then (s, [])
      else if id !in g.sessions then (s.(shared := g.(timers := g.timers - {id})), [])
      else (s.(shared := g.(timers := g.timers - {id}, sessions := g.sessions - {id}, expired := g.expired + 1)),
            [SessionExpired(id)])
    case FreeCell(id) =>
      if id !in g.cells || Referenced(s, id) then (s, [])
      else (s.(shared := g.(cells := g.cells[id := g.cells[id].(freed := true)])), [])
  }

  datatype History = History(state: State, trace: seq<Event>)

  function Init(cfg: Config): State {
    State(Shared({}, map[], {}, cfg.maxActive, 0, 0, 0, 0, 0), map[])
  }

  /** Every sequence of actions is a run. */
  function Run(cfg: Config, actions: seq<Action>): History {
    if actions == [] then History(Init(cfg), [])
    else
      var h := Run(cfg, actions[..|actions| - 1]);
      var (s, events) := Step(cfg, h.state, actions[|actions| - 1]);
      History(s, h.trace + events)
  }

  // Runs state by state

  ghost predicate Leads(cfg: Config, s: State, a: Action, s': State) { s' == Step(cfg, s, a).0 }

  ghost predicate Path(cfg: Config, states: seq<State>, actions: seq<Action>) {
    && |states| == |actions| + 1 && states[0] == Init(cfg)
    && forall k {:trigger Leads(cfg, states[k], actions[k], states[k + 1])} ::
         0 <= k < |actions| ==> Leads(cfg, states[k], actions[k], states[k + 1])
  }

  lemma {:induction false} PathIsRun(cfg: Config, states: seq<State>, actions: seq<Action>)
    requires Path(cfg, states, actions)
    ensures Run(cfg, actions).state == states[|actions|]
  {
    if actions != [] {
      var n := |actions| - 1;
      PathFront(cfg, states, actions);
      PathIsRun(cfg, states[..n + 1], actions[..n]);
      assert Leads(cfg, states[n], actions[n], states[n + 1]);
    }
  }

  lemma PathFront(cfg: Config, states: seq<State>, actions: seq<Action>)
    requires Path(cfg, states, actions) && actions != []
    ensures Path(cfg, states[..|actions|], actions[..|actions| - 1])
  {
    var n := |actions| - 1;
    forall k | 0 <= k < n ensures Leads(cfg, states[..n + 1][k], actions[..n][k], states[..n + 1][k + 1]) {
      assert Leads(cfg, states[k], actions[k], states[k + 1]);
    }
  }

  lemma PathExtends(cfg: Config, states: seq<State>, actions: seq<Action>, a: Action, s': State)
    requires Path(cfg, states, actions) && Leads(cfg, states[|actions|], a, s')
    ensures Path(cfg, states + [s'], actions + [a])
  {
    var longer, more := states + [s'], actions + [a];
    forall k | 0 <= k < |more| ensures Leads(cfg, longer[k], more[k], longer[k + 1]) {
      if k < |actions| { assert Leads(cfg, states[k], actions[k], states[k + 1]); }
    }
  }

  // Counting handlers -----------------------------------------------------------------------

  datatype Kind = PermitHolder | Active | UncountedSession | UncountedUpgrade

  predicate Is(task: Task, kind: Kind) {
    match kind
    case PermitHolder =>
      task.Admitted? || task.Found? || task.Claimant? || task.Upgrading? || task.Running? || task.Finished?
      || task.Publishing? || task.Leaving?
    case Active => task.Running? || task.Finished?
    case UncountedSession => task.Inserted?
    case UncountedUpgrade => task.Claimant?
  }

  predicate Spawning(task: Task, id: SessionId) { task == Inserted(id) || task == Counted(id) }

  predicate Owns(task: Task, id: SessionId) {
    (task.Claimant? || task.Upgrading? || task.Running? || task.Finished? || task.Publishing?) && task.id == id
  }

  /** The claimant, as long as its notarization has not ended. */
  predicate Pending(task: Task, id: SessionId) { (task.Claimant? || task.Upgrading? || task.Running?) && task.id == id }

  predicate Receives(task: Task, id: SessionId) { (task.Waiting? || task.Closing?) && task.id == id }

  function Members(tasks: map<TaskId, Task>, kind: Kind): set<TaskId> { set t | t in tasks && Is(tasks[t], kind) }

  function Number(task: Option<Task>, kind: Kind): nat { if task.Some? && Is(task.value, kind) then 1 else 0 }

  /** Only the moving handler can change how many handlers a class has. */
  lemma CountMoved(tasks: map<TaskId, Task>, t: TaskId, task: Option<Task>, kind: Kind)
    ensures |Members(Put(tasks, t, task), kind)| + Number(At(tasks, t), kind) == |Members(tasks, kind)| + Number(task, kind)
  {
    CountWithout(tasks, t, kind);
    CountWithout(Put(tasks, t, task), t, kind);
    assert Put(tasks, t, task) - {t} == tasks - {t};
  }

  lemma CountWithout(tasks: map<TaskId, Task>, t: TaskId, kind: Kind)
    ensures |Members(tasks, kind)| == |Members(tasks - {t}, kind)| + Number(At(tasks, t), kind)
  {
    assert Members(tasks - {t}, kind) == Members(tasks, kind) - {t};
  }

  // The invariant ---------------------------------------------------------------------------

  ghost predicate CellOk(g: Shared, id: SessionId)
    requires id in g.cells
  {
    var c := g.cells[id];
    && (!c.sender ==> c.claimed)
    && (c.slot.Some? <==> !c.sender)
    && (c.freed ==> id !in g.sessions)
  }

  ghost predicate SharedOk(cfg: Config, g: Shared) {
    && g.sessions <= g.cells.Keys && g.timers <= g.cells.Keys
    && |g.sessions| <= cfg.maxPending
    && forall id :: id in g.cells ==> CellOk(g, id)
  }

  /** What a handler relies on where it stands. */
  ghost predicate TaskOk(g: Shared, task: Task) {
    task.Admitted? || task.Leaving? ||
    (task.id in g.cells &&
     var c := g.cells[task.id];
     && (Refers(task, task.id) ==> !c.freed)
     && (Owns(task, task.id) ==> c.claimed && c.sender)
     && (Receives(task, task.id) ==> !c.receiver)
     && (task.Closing? ==> task.reply != ChannelClosed)
     && (task.Closing? && task.reply.Delivered? ==> c.slot == Some(task.reply.outcome)))
  }

  ghost predicate Exclusive(a: Task, b: Task) {
    forall id :: !(Owns(a, id) && Owns(b, id)) && !(Receives(a, id) && Receives(b, id))
  }

  ghost predicate TasksOk(s: State) {
    && (forall t :: t in s.tasks ==> TaskOk(s.shared, s.tasks[t]))
    && (forall t, t' :: t in s.tasks && t' in s.tasks && t != t' ==> Exclusive(s.tasks[t], s.tasks[t']))
  }

  ghost predicate HasSpawner(s: State, id: SessionId) { exists t :: t in s.tasks && Spawning(s.tasks[t], id) }

  /** A live session has its timer, or a handler about to spawn it. */
  ghost predicate TimersOk(s: State) {
    forall id :: id in s.shared.sessions ==> id in s.shared.timers || HasSpawner(s, id)
  }

  ghost predicate PermitsOk(cfg: Config, s: State) {
    s.shared.available + |Members(s.tasks, PermitHolder)| == cfg.maxActive
  }

  ghost predicate Inv(cfg: Config, s: State) {
    SharedOk(cfg, s.shared) && TasksOk(s) && TimersOk(s) && PermitsOk(cfg, s)
  }

  // Rely and guarantee ----------------------------------------------------------------------

  /** What the handler at `task` may do to a cell while it moves. */
  ghost predicate CellGuarantee(c: Cell, c': Cell, owned: bool) {
    && c'.assetId == c.assetId && c'.freed == c.freed
    && (c.claimed ==> c'.claimed) && (c'.receiver ==> c.receiver)
    && (!owned || !c.sender ==> c'.sender == c.sender && c'.slot == c.slot)
  }

  ghost predicate Guarantee(g: Shared, g': Shared, task: Option<Task>) {
    && g.cells.Keys <= g'.cells.Keys
    && (forall id :: id in g.cells ==> CellGuarantee(g.cells[id], g'.cells[id], task.Some? && Owns(task.value, id)))
  }

  lemma PerformGuarantees(cfg: Config, g: Shared, t: TaskId, task: Option<Task>, move: Move)
    ensures Guarantee(g, Perform(cfg, g, t, task, move).0, task)
  {}

  lemma OthersKeep(cfg: Config, g: Shared, g': Shared, task: Option<Task>, other: Task)
    requires SharedOk(cfg, g) && Guarantee(g, g', task) && TaskOk(g, other)
    requires task.Some? ==> Exclusive(task.value, other)
    ensures TaskOk(g', other)
  {}

  /** A handler's own move keeps the shared state sound and leaves the handler where it may rely on it. */
  ghost predicate Sound(cfg: Config, e: Effect) {
    SharedOk(cfg, e.0) && (e.1.Some? ==> TaskOk(e.0, e.1.value))
  }

  lemma SessionMoveSound(cfg: Config, g: Shared, task: Option<Task>, move: Move)
    requires Sound(cfg, (g, task, []))
    ensures Sound(cfg, SessionMove(cfg, g, task, move))
  {
    if move.Create? && task.None? && move.id !in g.cells && |g.sessions| < cfg.maxPending {
      var g' := SessionMove(cfg, g, task, move).0;
      assert |g'.sessions| == |g.sessions| + 1 && g'.sessions <= g'.cells.Keys;
      assert forall id :: id in g'.cells ==> CellOk(g', id);
    }
  }

  lemma NotarizeMoveSound(cfg: Config, g: Shared, t: TaskId, task: Option<Task>, move: Move)
    requires Sound(cfg, (g, task, []))
    ensures Sound(cfg, NotarizeMove(g, t, task, move))
  {}

  lemma SocketMoveSound(cfg: Config, g: Shared, t: TaskId, task: Option<Task>, move: Move)
    requires Sound(cfg, (g, task, []))
    ensures Sound(cfg, SocketMove(cfg, g, t, task, move))
  {}

  lemma ResultMoveSound(cfg: Config, g: Shared, t: TaskId, task: Option<Task>, move: Move)
    requires Sound(cfg, (g, task, []))
    ensures Sound(cfg, ResultMove(g, t, task, move))
  {}

  lemma PerformSound(cfg: Config, g: Shared, t: TaskId, task: Option<Task>, move: Move)
    requires Sound(cfg, (g, task, []))
    ensures Sound(cfg, Perform(cfg, g, t, task, move))
  {
    SessionMoveSound(cfg, g, task, move);
    NotarizeMoveSound(cfg, g, t, task, move);
    SocketMoveSound(cfg, g, t, task, move);
    ResultMoveSound(cfg, g, t, task, move);
  }

  /** Where an effect leaves its handler, it is exclusive with another one. */
  ghost predicate Apart(e: Effect, other: Task) {
    e.1.Some? ==> Exclusive(e.1.value, other) && Exclusive(other, e.1.value)
  }

  lemma MoveStaysApart(cfg: Config, g: Shared, t: TaskId, task: Option<Task>, move: Move, other: Task)
    requires Apart((g, task, []), other)
    ensures Apart(SessionMove(cfg, g, task, move), other) && Apart(SocketMove(cfg, g, t, task, move), other)
  {}

  lemma ClaimStaysApart(g: Shared, t: TaskId, task: Option<Task>, move: Move, other: Task)
    requires TaskOk(g, other) && Apart((g, task, []), other)
    ensures Apart(NotarizeMove(g, t, task, move), other)
  {}

  lemma TakeStaysApart(g: Shared, t: TaskId, task: Option<Task>, move: Move, other: Task)
    requires TaskOk(g, other) && Apart((g, task, []), other)
    ensures Apart(ResultMove(g, t, task, move), other)
  {}

  lemma MoverStaysExclusive(cfg: Config, g: Shared, t: TaskId, task: Option<Task>, move: Move, other: Task)
    requires TaskOk(g, other) && (task.Some? ==> Exclusive(task.value, other))
    ensures Apart(Perform(cfg, g, t, task, move), other)
  {
    MoveStaysApart(cfg, g, t, task, move, other);
    ClaimStaysApart(g, t, task, move, other);
    TakeStaysApart(g, t, task, move, other);
  }

  /** A permit changes hands with the handler that holds it. */
  lemma PermitsConserved(cfg: Config, g: Shared, t: TaskId, task: Option<Task>, move: Move)
    ensures var (g', task', _) := Perform(cfg, g, t, task, move);
      g'.available + Number(task', PermitHolder) == g.available + Number(task, PermitHolder)
  {}

  lemma StepKeepsPermits(cfg: Config, s: State, a: Action)
    requires PermitsOk(cfg, s)
    ensures PermitsOk(cfg, Step(cfg, s, a).0)
  {
    if a.Act? {
      var t, task := a.task, At(s.tasks, a.task);
      PermitsConserved(cfg, s.shared, t, task, a.move);
      var task' := Perform(cfg, s.shared, t, task, a.move).1;
      CountMoved(s.tasks, t, task', PermitHolder);
    }
  }

  lemma StepKeepsTimers(cfg: Config, s: State, a: Action)
    requires TimersOk(s)
    ensures TimersOk(Step(cfg, s, a).0)
  {
    var s' := Step(cfg, s, a).0;
    forall id | id in s'.shared.sessions && id !in s'.shared.timers
      ensures HasSpawner(s', id)
    {
      if id in s.shared.sessions {
        var t :| t in s.tasks && Spawning(s.tasks[t], id);
        assert t in s'.tasks && Spawning(s'.tasks[t], id);
      } else {
        assert Spawning(s'.tasks[a.task], id);
      }
    }
  }

  lemma StepKeepsShared(cfg: Config, s: State, a: Action)
    requires SharedOk(cfg, s.shared) && TasksOk(s)
    ensures SharedOk(cfg, Step(cfg, s, a).0.shared)
  {
    if a.Act? { PerformSound(cfg, s.shared, a.task, At(s.tasks, a.task), a.move); }
  }

  lemma StepKeepsTasks(cfg: Config, s: State, a: Action)
    requires SharedOk(cfg, s.shared) && TasksOk(s)
    ensures TasksOk(Step(cfg, s, a).0)
  {
    if a.Act? {
      ActKeepsTasks(cfg, s, a.task, a.move);
    }
  }

  lemma ActKeepsTasks(cfg: Config, s: State, t: TaskId, move: Move)
    requires SharedOk(cfg, s.shared) && TasksOk(s)
    ensures TasksOk(Step(cfg, s, Act(t, move)).0)
  {
    var g, task := s.shared, At(s.tasks, t);
    var (g', task', _) := Perform(cfg, g, t, task, move);
    var tasks' := Put(s.tasks, t, task');
    PerformGuarantees(cfg, g, t, task, move);
    PerformSound(cfg, g, t, task, move);
    forall u | u in tasks'
      ensures TaskOk(g', tasks'[u])
    {
      if u != t { OthersKeep(cfg, g, g', task, s.tasks[u]); }
    }
    forall u, v | u in tasks' && v in tasks' && u != v
      ensures Exclusive(tasks'[u], tasks'[v])
    {
      if u == t {
        MoverStaysExclusive(cfg, g, t, task, move, s.tasks[v]);
      } else if v == t {
        MoverStaysExclusive(cfg, g, t, task, move, s.tasks[u]);
      }
    }
  }

  lemma StepKeepsInv(cfg: Config, s: State, a: Action)
    requires Inv(cfg, s)
    ensures Inv(cfg, Step(cfg, s, a).0)
  {
    StepKeepsShared(cfg, s, a);
    StepKeepsTasks(cfg, s, a);
    StepKeepsTimers(cfg, s, a);
    StepKeepsPermits(cfg, s, a);
  }

  /** Every reachable state satisfies the invariant. */
  lemma {:induction false} Reachable(cfg: Config, actions: seq<Action>)
    ensures Inv(cfg, Run(cfg, actions).state)
  {
    if actions != [] {
      var before := actions[..|actions| - 1];
      Reachable(cfg, before);
      StepKeepsInv(cfg, Run(cfg, before).state, actions[|actions| - 1]);
    }
  }
}
