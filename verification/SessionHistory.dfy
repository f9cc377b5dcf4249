/** What every run of the session protocol shows to the outside: at most once, nothing lost, cause before effect. */
module SessionHistory {
  import opened Prelude
  import opened SettlementTypes
  import opened Sessions

  // At most once ----------------------------------------------------------------------------

  datatype Key = InsertKey(id: SessionId) | RemoveKey(id: SessionId) | ClaimKey(id: SessionId) | MeetKey(id: SessionId)
    | EndKey(id: SessionId) | ReplyKey(id: SessionId)

  /** Events that share a key may happen only once between them: removal by timer and by reply, publishing and unwinding. */
  function KeyOf(e: Event): Option<Key> {
    match e
    case SessionInserted(id, _) => Some(InsertKey(id))
    case SessionRejected => None
    case SessionExpired(id) => Some(RemoveKey(id))
    case SessionConsumed(id) => Some(RemoveKey(id))
    case VerifierClaimed(_, id) => Some(ClaimKey(id))
    case EvidenceMet(_, id, _) => Some(MeetKey(id))
    case NotarizationUnwound(_, id, _) => Some(EndKey(id))
    case OutcomePublished(_, id, _) => Some(EndKey(id))
    case ReplySent(_, id, _) => Some(ReplyKey(id))
  }

  /** The state in which a key can never be used again. */
  ghost predicate Spent(s: State, k: Key) {
    k.id in s.shared.cells &&
    var c := s.shared.cells[k.id];
    match k
    case InsertKey(_) => true
    case RemoveKey(id) => id !in s.shared.sessions
    case ClaimKey(_) => c.claimed
    case MeetKey(id) => c.claimed && forall t :: t in s.tasks ==> !Pending(s.tasks[t], id)
    case EndKey(id) => c.claimed && forall t :: t in s.tasks ==> !Owns(s.tasks[t], id)
    case ReplyKey(id) => !c.receiver && forall t :: t in s.tasks ==> !Receives(s.tasks[t], id)
  }

  lemma NoNewReceiver(cfg: Config, g: Shared, t: TaskId, task: Option<Task>, move: Move, id: SessionId)
    requires id in g.cells && !g.cells[id].receiver && (task.Some? ==> !Receives(task.value, id))
    ensures var task' := Perform(cfg, g, t, task, move).1;
      task'.Some? ==> !Receives(task'.value, id)
  {}

  lemma NoNewOwner(cfg: Config, g: Shared, t: TaskId, task: Option<Task>, move: Move, id: SessionId)
    requires id in g.cells && g.cells[id].claimed && (task.Some? ==> !Owns(task.value, id))
    ensures var task' := Perform(cfg, g, t, task, move).1;
      task'.Some? ==> !Owns(task'.value, id)
  {}

  lemma NoNewPending(cfg: Config, g: Shared, t: TaskId, task: Option<Task>, move: Move, id: SessionId)
    requires id in g.cells && g.cells[id].claimed && (task.Some? ==> !Pending(task.value, id))
    ensures var task' := Perform(cfg, g, t, task, move).1;
      task'.Some? ==> !Pending(task'.value, id)
  {}

  lemma CellsOnlyAdvance(cfg: Config, g: Shared, t: TaskId, task: Option<Task>, move: Move, id: SessionId)
    requires id in g.cells
    ensures var g' := Perform(cfg, g, t, task, move).0;
      && id in g'.cells && (id in g'.sessions ==> id in g.sessions)
      && (g.cells[id].claimed ==> g'.cells[id].claimed)
      && (g'.cells[id].sender ==> g.cells[id].sender) && (g'.cells[id].receiver ==> g.cells[id].receiver)
  {}

  lemma SpentStable(cfg: Config, s: State, a: Action, k: Key)
    requires Spent(s, k)
    ensures Spent(Step(cfg, s, a).0, k)
  {
    if a.Act? {
      CellsOnlyAdvance(cfg, s.shared, a.task, At(s.tasks, a.task), a.move, k.id);
      if k.ReplyKey? { NoNewReceiver(cfg, s.shared, a.task, At(s.tasks, a.task), a.move, k.id); }
      if k.MeetKey? { NoNewPending(cfg, s.shared, a.task, At(s.tasks, a.task), a.move, k.id); }
      if k.EndKey? { NoNewOwner(cfg, s.shared, a.task, At(s.tasks, a.task), a.move, k.id); }
    }
  }

  ghost predicate Spends(s: State, s': State, e: Event) {
    KeyOf(e).Some? ==> !Spent(s, KeyOf(e).value) && Spent(s', KeyOf(e).value)
  }

  lemma SessionEventsSpend(cfg: Config, s: State, t: TaskId, move: Move)
    requires Inv(cfg, s)
    ensures var (g', task', events) := SessionMove(cfg, s.shared, At(s.tasks, t), move);
      |events| <= 1 && (events != [] ==> Spends(s, State(g', Put(s.tasks, t, task')), events[0]))
  {}

  lemma NotarizeEventsSpend(cfg: Config, s: State, t: TaskId, move: Move)
    requires Inv(cfg, s)
    ensures var (g', task', events) := NotarizeMove(s.shared, t, At(s.tasks, t), move);
      |events| <= 1 && (events != [] ==> Spends(s, State(g', Put(s.tasks, t, task')), events[0]))
  {}

  lemma SocketEventsSpend(cfg: Config, s: State, t: TaskId, move: Move)
    requires Inv(cfg, s)
    ensures var (g', task', events) := SocketMove(cfg, s.shared, t, At(s.tasks, t), move);
      && |events| <= 2
      && (forall i :: 0 <= i < |events| ==> Spends(s, State(g', Put(s.tasks, t, task')), events[i]))
      && (|events| == 2 ==> KeyOf(events[0]) != KeyOf(events[1]))
  {
    var task := At(s.tasks, t);
    if (move.Publish? || move.End?) && task.Some? && (task.value.Publishing? || task.value.Running?) {
      var id := task.value.id;
      assert Owns(s.tasks[t], id) && TaskOk(s.shared, s.tasks[t]);
      assert task.value.Running? ==> Pending(s.tasks[t], id);
      forall u | u in s.tasks && u != t
        ensures !Owns(s.tasks[u], id) && !Pending(s.tasks[u], id)
      {
        assert Exclusive(s.tasks[t], s.tasks[u]);
      }
    }
  }

  lemma ResultEventsSpend(cfg: Config, s: State, t: TaskId, move: Move)
    requires Inv(cfg, s)
    ensures var (g', task', events) := ResultMove(s.shared, t, At(s.tasks, t), move);
      && |events| <= 2
      && (forall i :: 0 <= i < |events| ==> Spends(s, State(g', Put(s.tasks, t, task')), events[i]))
      && (|events| == 2 ==> KeyOf(events[0]) != KeyOf(events[1]))
  {
    var task := At(s.tasks, t);
    if move.Close? && task.Some? && task.value.Closing? {
      assert Receives(s.tasks[t], task.value.id);
      forall u | u in s.tasks && u != t
        ensures !Receives(s.tasks[u], task.value.id)
      {
        assert Exclusive(s.tasks[t], s.tasks[u]);
      }
    }
  }

  /** Each event of a step spends its key, and no two events of a step have the same. */
  ghost predicate SpendEach(s: State, s': State, events: seq<Event>) {
    && (forall i :: 0 <= i < |events| ==> Spends(s, s', events[i]))
    && (forall i, j :: 0 <= i < j < |events| && KeyOf(events[i]).Some? ==> KeyOf(events[i]) != KeyOf(events[j]))
  }

  lemma PerformEventsSpend(cfg: Config, s: State, t: TaskId, move: Move)
    requires Inv(cfg, s)
    ensures var (g', task', events) := Perform(cfg, s.shared, t, At(s.tasks, t), move);
      SpendEach(s, State(g', Put(s.tasks, t, task')), events)
  {
    SessionEventsSpend(cfg, s, t, move);
    NotarizeEventsSpend(cfg, s, t, move);
    SocketEventsSpend(cfg, s, t, move);
    ResultEventsSpend(cfg, s, t, move);
  }

  lemma EventsSpend(cfg: Config, s: State, a: Action)
    requires Inv(cfg, s)
    ensures SpendEach(s, Step(cfg, s, a).0, Step(cfg, s, a).1)
  {
    if a.Act? { PerformEventsSpend(cfg, s, a.task, a.move); }
  }

  ghost predicate NoKeyTwice(trace: seq<Event>) {
    forall i, j :: 0 <= i < j < |trace| && KeyOf(trace[i]).Some? ==> KeyOf(trace[i]) != KeyOf(trace[j])
  }

  ghost predicate AllSpent(s: State, trace: seq<Event>) {
    forall i :: 0 <= i < |trace| && KeyOf(trace[i]).Some? ==> Spent(s, KeyOf(trace[i]).value)
  }

  /** In no run is a session inserted, claimed, published, answered or removed twice. */
  lemma {:induction false} AtMostOnce(cfg: Config, actions: seq<Action>)
    ensures NoKeyTwice(Run(cfg, actions).trace)
    ensures AllSpent(Run(cfg, actions).state, Run(cfg, actions).trace)
  {
    if actions != [] {
      var before, a := actions[..|actions| - 1], actions[|actions| - 1];
      var h := Run(cfg, before);
      var (s', events) := Step(cfg, h.state, a);
      AtMostOnce(cfg, before);
      Reachable(cfg, before);
      EventsSpend(cfg, h.state, a);
      forall i | 0 <= i < |h.trace| && KeyOf(h.trace[i]).Some?
        ensures Spent(s', KeyOf(h.trace[i]).value)
      {
        SpentStable(cfg, h.state, a, KeyOf(h.trace[i]).value);
      }
      var trace := h.trace + events;
      forall i | 0 <= i < |trace| && KeyOf(trace[i]).Some?
        ensures Spent(s', KeyOf(trace[i]).value)
      {
        if i >= |h.trace| { assert Spends(h.state, s', events[i - |h.trace|]); }
      }
      forall i, j | 0 <= i < j < |trace| && KeyOf(trace[i]).Some?
        ensures KeyOf(trace[i]) != KeyOf(trace[j])
      {
        if i < |h.trace| <= j { assert Spends(h.state, s', events[j - |h.trace|]); }
      }
    }
  }

  // Nothing lost ----------------------------------------------------------------------------

  datatype EventKind = Insertion | Rejection | Expiry | Consumption | ClaimMade | Unwinding

  function Is1(e: Event, kind: EventKind): nat {
    match kind
    case Insertion => if e.SessionInserted? then 1 else 0
    case Rejection => if e.SessionRejected? then 1 else 0
    case Expiry => if e.SessionExpired? then 1 else 0
    case Consumption => if e.SessionConsumed? then 1 else 0
    case ClaimMade => if e.VerifierClaimed? then 1 else 0
    case Unwinding => if e.NotarizationUnwound? then 1 else 0
  }

  /** How often a kind of event occurs in a trace. */
  function Count(trace: seq<Event>, kind: EventKind): nat {
    if trace == [] then 0 else Is1(trace[0], kind) + Count(trace[1..], kind)
  }

  lemma {:induction false} CountAdds(trace: seq<Event>, events: seq<Event>, kind: EventKind)
    ensures Count(trace + events, kind) == Count(trace, kind) + Count(events, kind)
  {
    if trace == [] {
      assert trace + events == events;
    } else {
      CountAdds(trace[1..], events, kind);
      assert (trace + events)[1..] == trace[1..] + events;
    }
  }

  /** The same for the at most two events of one step. */
  function Adds(events: seq<Event>, kind: EventKind): nat
    requires |events| <= 2
  {
    if events == [] then 0
    else if |events| == 1 then Is1(events[0], kind)
    else Is1(events[0], kind) + Is1(events[1], kind)
  }

  lemma CountShort(events: seq<Event>, kind: EventKind)
    requires |events| <= 2
    ensures Count(events, kind) == Adds(events, kind)
  {
    if |events| == 2 { assert events[1..][1..] == []; }
  }

  lemma CountExtends(trace: seq<Event>, events: seq<Event>)
    requires |events| <= 2
    ensures forall kind :: Count(trace + events, kind) == Count(trace, kind) + Adds(events, kind)
  {
    forall kind
      ensures Count(trace + events, kind) == Count(trace, kind) + Adds(events, kind)
    {
      CountAdds(trace, events, kind);
      CountShort(events, kind);
    }
  }

  /** The counters against the events they count. `created` and `upgraded` lag by the handlers that have acted
      and not yet counted. */
  ghost predicate Balanced(s: State, trace: seq<Event>) {
    && |s.shared.sessions| + Count(trace, Expiry) + Count(trace, Consumption) == Count(trace, Insertion)
    && s.shared.expired == Count(trace, Expiry)
    && s.shared.rejected == Count(trace, Rejection)
    && s.shared.created + |Members(s.tasks, UncountedSession)| == Count(trace, Insertion)
    && s.shared.upgraded + |Members(s.tasks, UncountedUpgrade)| == Count(trace, ClaimMade)
  }

  /** The same for one move. */
  ghost predicate Balances(g: Shared, task: Option<Task>, e: Effect) {
    |e.2| <= 2 &&
    var (g', task', events) := e;
    && |g'.sessions| + Adds(events, Expiry) + Adds(events, Consumption) == |g.sessions| + Adds(events, Insertion)
    && g'.expired == g.expired + Adds(events, Expiry)
    && g'.rejected == g.rejected + Adds(events, Rejection)
    && g'.created + Number(task', UncountedSession) == g.created + Number(task, UncountedSession) + Adds(events, Insertion)
    && g'.upgraded + Number(task', UncountedUpgrade) == g.upgraded + Number(task, UncountedUpgrade) + Adds(events, ClaimMade)
  }

  lemma SessionMoveBalances(cfg: Config, g: Shared, task: Option<Task>, move: Move)
    requires g.sessions <= g.cells.Keys
    ensures Balances(g, task, SessionMove(cfg, g, task, move))
  {
    if move.Create? && task.None? && move.id !in g.cells {
      assert |g.sessions + {move.id}| == |g.sessions| + 1;
    }
  }

  lemma ResultMoveBalances(g: Shared, t: TaskId, task: Option<Task>, move: Move)
    ensures Balances(g, task, ResultMove(g, t, task, move))
  {
    if move.Close? && task.Some? && task.value.Closing? {
      var id := task.value.id;
      assert id in g.sessions ==> |g.sessions - {id}| == |g.sessions| - 1;
      assert id !in g.sessions ==> g.sessions - {id} == g.sessions;
    }
  }

  lemma NotarizeMoveBalances(g: Shared, t: TaskId, task: Option<Task>, move: Move)
    ensures Balances(g, task, NotarizeMove(g, t, task, move))
  {}

  lemma SocketMoveBalances(cfg: Config, g: Shared, t: TaskId, task: Option<Task>, move: Move)
    ensures Balances(g, task, SocketMove(cfg, g, t, task, move))
  {}

  lemma PerformBalances(cfg: Config, g: Shared, t: TaskId, task: Option<Task>, move: Move)
    requires g.sessions <= g.cells.Keys
    ensures Balances(g, task, Perform(cfg, g, t, task, move))
  {
    SessionMoveBalances(cfg, g, task, move);
    NotarizeMoveBalances(g, t, task, move);
    SocketMoveBalances(cfg, g, t, task, move);
    ResultMoveBalances(g, t, task, move);
  }

  lemma BalanceCarries(s: State, t: TaskId, e: Effect, trace: seq<Event>)
    requires Balanced(s, trace) && Balances(s.shared, At(s.tasks, t), e)
    ensures Balanced(State(e.0, Put(s.tasks, t, e.1)), trace + e.2)
  {
    CountMoved(s.tasks, t, e.1, UncountedSession);
    CountMoved(s.tasks, t, e.1, UncountedUpgrade);
    CountExtends(trace, e.2);
  }

  lemma TimerBalances(cfg: Config, s: State, a: Action, trace: seq<Event>)
    requires !a.Act? && Balanced(s, trace)
    ensures Balanced(Step(cfg, s, a).0, trace + Step(cfg, s, a).1)
  {
    if a.FireTimer? && a.id in s.shared.sessions { assert |s.shared.sessions - {a.id}| == |s.shared.sessions| - 1; }
    CountExtends(trace, Step(cfg, s, a).1);
  }

  lemma StepBalances(cfg: Config, s: State, a: Action, trace: seq<Event>)
    requires s.shared.sessions <= s.shared.cells.Keys && Balanced(s, trace)
    ensures Balanced(Step(cfg, s, a).0, trace + Step(cfg, s, a).1)
  {
    if a.Act? {
      var task := At(s.tasks, a.task);
      PerformBalances(cfg, s.shared, a.task, task, a.move);
      BalanceCarries(s, a.task, Perform(cfg, s.shared, a.task, task, a.move), trace);
    } else {
      TimerBalances(cfg, s, a, trace);
    }
  }

  /** The gauge runs ahead by the notarizations that have unwound. */
  ghost predicate GaugeExact(s: State, trace: seq<Event>) {
    s.shared.active == |Members(s.tasks, Active)| + Count(trace, Unwinding)
  }

  lemma GaugeMoves(cfg: Config, g: Shared, t: TaskId, task: Option<Task>, move: Move)
    ensures var (g', task', events) := Perform(cfg, g, t, task, move);
      && |events| <= 2
      && g'.active - Number(task', Active) == g.active - Number(task, Active) + Adds(events, Unwinding)
  {}

  lemma StepKeepsGauge(cfg: Config, s: State, a: Action, trace: seq<Event>)
    requires GaugeExact(s, trace)
    ensures GaugeExact(Step(cfg, s, a).0, trace + Step(cfg, s, a).1)
  {
    if a.Act? {
      var t, task := a.task, At(s.tasks, a.task);
      GaugeMoves(cfg, s.shared, t, task, a.move);
      CountMoved(s.tasks, t, Perform(cfg, s.shared, t, task, a.move).1, Active);
    }
    CountExtends(trace, Step(cfg, s, a).1);
  }

  /** Conservation, at every moment of every run. */
  lemma {:induction false} Conservation(cfg: Config, actions: seq<Action>)
    ensures var h := Run(cfg, actions);
      Balanced(h.state, h.trace) && GaugeExact(h.state, h.trace) && |h.state.shared.sessions| <= cfg.maxPending
  {
    Reachable(cfg, actions);
    if actions != [] {
      var before := actions[..|actions| - 1];
      Conservation(cfg, before);
      Reachable(cfg, before);
      StepBalances(cfg, Run(cfg, before).state, actions[|actions| - 1], Run(cfg, before).trace);
      StepKeepsGauge(cfg, Run(cfg, before).state, actions[|actions| - 1], Run(cfg, before).trace);
    }
  }

  /** Once every timer has fired and no handler is about to start one, no session is left. */
  lemma AllTimersFired(cfg: Config, actions: seq<Action>)
    requires var s := Run(cfg, actions).state;
      s.shared.timers == {} && forall t, id :: t in s.tasks ==> !Spawning(s.tasks[t], id)
    ensures Run(cfg, actions).state.shared.sessions == {}
  {
    Reachable(cfg, actions);
  }

  /** Permits in use are exactly those in handlers' hands. The gauge is the number of notarizations under way, and with
      it at most the permits held, exactly if none has ever unwound; each that has is counted for good. */
  lemma PermitAccounting(cfg: Config, actions: seq<Action>)
    ensures var s, trace := Run(cfg, actions).state, Run(cfg, actions).trace;
      var held, running := |Members(s.tasks, PermitHolder)|, |Members(s.tasks, Active)|;
      && s.shared.available + held == cfg.maxActive && running <= held
      && s.shared.active == running + Count(trace, Unwinding)
      && (s.shared.active == running <==> Count(trace, Unwinding) == 0)
  {
    Reachable(cfg, actions);
    Conservation(cfg, actions);
    var s := Run(cfg, actions).state;
    var active, holders := Members(s.tasks, Active), Members(s.tasks, PermitHolder);
    assert active <= holders;
    assert holders == active + (holders - active);
  }

  /** One handler creates a session, another notarizes it on evidence that makes it panic. */
  function PanickingRun(assetId: u64, evidence: Evidence): seq<Action> {
    PanickingStart(assetId, 8) + [Act(1, End(evidence))] + [Act(1, GiveBack)]
  }

  /** The stages up to the notarization, by how many actions they take. */
  function PanickingStart(assetId: u64, k: nat): seq<Action> {
    match k
    case 1 => [Act(0, Create(0, assetId))]
    case 3 => PanickingStart(assetId, 1) + [Act(0, CountCreated)] + [Act(0, SpawnTimer)]
    case 5 => PanickingStart(assetId, 3) + [Act(1, Admit(0))] + [Act(1, Lookup)]
    case 7 => PanickingStart(assetId, 5) + [Act(1, Claim)] + [Act(1, CountUpgrade)]
    case 8 => PanickingStart(assetId, 7) + [Act(1, Start)]
    case _ => []
  }

  /** Shared state on the way there, with one session. */
  function OneSession(assetId: u64, claimed: bool, timers: set<SessionId>, available: nat, active: int, created: nat, upgraded: nat)
    : Shared
  {
    Shared({0}, map[0 := Cell(assetId, claimed, true, true, None, false)], timers, available, active, created, 0, upgraded, 0)
  }

  lemma CreationPath(cfg: Config, a: u64) returns (states: seq<State>)
    requires cfg.maxPending > 0
    ensures Path(cfg, states, [Act(0, Create(0, a))])
    ensures states[1] == State(OneSession(a, false, {}, cfg.maxActive, 0, 0, 0), map[0 := Inserted(0)])
  {
    var s1 := State(OneSession(a, false, {}, cfg.maxActive, 0, 0, 0), map[0 := Inserted(0)]);
    PathExtends(cfg, [Init(cfg)], [], Act(0, Create(0, a)), s1);
    states := [Init(cfg), s1];
    assert [] + [Act(0, Create(0, a))] == [Act(0, Create(0, a))];
  }

  lemma TimerPath(cfg: Config, states: seq<State>, actions: seq<Action>, a: u64, n: nat) returns (longer: seq<State>)
    requires Path(cfg, states, actions)
    requires states[|actions|] == State(OneSession(a, false, {}, n, 0, 0, 0), map[0 := Inserted(0)])
    ensures Path(cfg, longer, actions + [Act(0, CountCreated)] + [Act(0, SpawnTimer)])
    ensures longer[|actions| + 2] == State(OneSession(a, false, {0}, n, 0, 1, 0), map[])
  {
    var s1 := State(OneSession(a, false, {}, n, 0, 1, 0), map[0 := Counted(0)]);
    var s2 := State(OneSession(a, false, {0}, n, 0, 1, 0), map[]);
    PathExtends(cfg, states, actions, Act(0, CountCreated), s1);
    PathExtends(cfg, states + [s1], actions + [Act(0, CountCreated)], Act(0, SpawnTimer), s2);
    longer := states + [s1] + [s2];
  }

  lemma LookupPath(cfg: Config, states: seq<State>, actions: seq<Action>, a: u64, n: nat) returns (longer: seq<State>)
    requires Path(cfg, states, actions)
    requires states[|actions|] == State(OneSession(a, false, {0}, n + 1, 0, 1, 0), map[])
    ensures Path(cfg, longer, actions + [Act(1, Admit(0))] + [Act(1, Lookup)])
    ensures longer[|actions| + 2] == State(OneSession(a, false, {0}, n, 0, 1, 0), map[1 := Found(0)])
  {
    var s1 := State(OneSession(a, false, {0}, n, 0, 1, 0), map[1 := Admitted(0)]);
    var s2 := State(OneSession(a, false, {0}, n, 0, 1, 0), map[1 := Found(0)]);
    PathExtends(cfg, states, actions, Act(1, Admit(0)), s1);
    PathExtends(cfg, states + [s1], actions + [Act(1, Admit(0))], Act(1, Lookup), s2);
    longer := states + [s1] + [s2];
  }

  lemma ClaimPath(cfg: Config, states: seq<State>, actions: seq<Action>, a: u64, n: nat) returns (longer: seq<State>)
    requires Path(cfg, states, actions)
    requires states[|actions|] == State(OneSession(a, false, {0}, n, 0, 1, 0), map[1 := Found(0)])
    ensures Path(cfg, longer, actions + [Act(1, Claim)] + [Act(1, CountUpgrade)])
    ensures longer[|actions| + 2] == State(OneSession(a, true, {0}, n, 0, 1, 1), map[1 := Upgrading(0)])
  {
    var s1 := State(OneSession(a, true, {0}, n, 0, 1, 0), map[1 := Claimant(0)]);
    var s2 := State(OneSession(a, true, {0}, n, 0, 1, 1), map[1 := Upgrading(0)]);
    PathExtends(cfg, states, actions, Act(1, Claim), s1);
    PathExtends(cfg, states + [s1], actions + [Act(1, Claim)], Act(1, CountUpgrade), s2);
    longer := states + [s1] + [s2];
  }

  lemma StartPath(cfg: Config, states: seq<State>, actions: seq<Action>, a: u64, n: nat) returns (longer: seq<State>)
    requires Path(cfg, states, actions)
    requires states[|actions|] == State(OneSession(a, true, {0}, n, 0, 1, 1), map[1 := Upgrading(0)])
    ensures Path(cfg, longer, actions + [Act(1, Start)])
    ensures longer[|actions| + 1] == State(OneSession(a, true, {0}, n, 1, 1, 1), map[1 := Running(0)])
  {
    var s1 := State(OneSession(a, true, {0}, n, 1, 1, 1), map[1 := Running(0)]);
    PathExtends(cfg, states, actions, Act(1, Start), s1);
    longer := states + [s1];
  }

  lemma UnwindingPath(cfg: Config, states: seq<State>, actions: seq<Action>, a: u64, n: nat, evidence: Evidence) returns (longer: seq<State>)
    requires Path(cfg, states, actions)
    requires states[|actions|] == State(OneSession(a, true, {0}, n, 1, 1, 1), map[1 := Running(0)])
    requires cfg.notarize(a, evidence) == None
    ensures Path(cfg, longer, actions + [Act(1, End(evidence))] + [Act(1, GiveBack)])
    ensures longer[|actions| + 2] == State(OneSession(a, true, {0}, n + 1, 1, 1, 1), map[])
  {
    var s1 := State(OneSession(a, true, {0}, n, 1, 1, 1), map[1 := Leaving]);
    var s2 := State(OneSession(a, true, {0}, n + 1, 1, 1, 1), map[]);
    PathExtends(cfg, states, actions, Act(1, End(evidence)), s1);
    PathExtends(cfg, states + [s1], actions + [Act(1, End(evidence))], Act(1, GiveBack), s2);
    longer := states + [s1] + [s2];
  }

  /** After it every permit is back and no handler is left, but the gauge still counts one. */
  lemma GaugeLeaks(cfg: Config, assetId: u64, evidence: Evidence)
    requires cfg.maxPending > 0 && cfg.maxActive > 0 && cfg.notarize(assetId, evidence) == None
    ensures var s := Run(cfg, PanickingRun(assetId, evidence)).state;
      s.tasks == map[] && s.shared.available == cfg.maxActive && s.shared.active == 1
  {
    var a, n := assetId, cfg.maxActive - 1;
    var states := CreationPath(cfg, a);
    states := TimerPath(cfg, states, PanickingStart(a, 1), a, n + 1);
    states := LookupPath(cfg, states, PanickingStart(a, 3), a, n);
    states := ClaimPath(cfg, states, PanickingStart(a, 5), a, n);
    states := StartPath(cfg, states, PanickingStart(a, 7), a, n);
    states := UnwindingPath(cfg, states, PanickingStart(a, 8), a, n, evidence);
    PathIsRun(cfg, states, PanickingRun(assetId, evidence));
  }

  /** A claimant still finds the sender when it comes to publish. */
  lemma ClaimantHoldsSender(cfg: Config, actions: seq<Action>, t: TaskId, id: SessionId)
    requires var s := Run(cfg, actions).state; t in s.tasks && Owns(s.tasks[t], id)
    ensures var g := Run(cfg, actions).state.shared;
      id in g.cells && g.cells[id].claimed && g.cells[id].sender && g.cells[id].slot.None?
  {
    Reachable(cfg, actions);
    var s := Run(cfg, actions).state;
    assert TaskOk(s.shared, s.tasks[t]) && CellOk(s.shared, id);
  }

  // No handler is stuck ---------------------------------------------------------------------

  /** An upper bound on the moves a handler still makes. */
  function Rank(task: Task): nat {
    match task
    case Inserted(_) => 2
    case Counted(_) => 1
    case Admitted(_) => 8
    case Found(_) => 7
    case Claimant(_) => 6
    case Upgrading(_) => 5
    case Running(_) => 4
    case Finished(_, _) => 3
    case Publishing(_, _) => 2
    case Leaving => 1
    case Located(_) => 3
    case Waiting(_) => 2
    case Closing(_, _) => 1
  }

  lemma MovesDescend(cfg: Config, g: Shared, t: TaskId, task: Task, move: Move)
    ensures var task' := Perform(cfg, g, t, Some(task), move).1;
      task'.None? || task' == Some(task) || Rank(task'.value) < Rank(task)
  {}

  function NextMove(task: Task): Move {
    match task
    case Inserted(_) => CountCreated
    case Counted(_) => SpawnTimer
    case Admitted(_) => Lookup
    case Found(_) => Claim
    case Claimant(_) => CountUpgrade
    case Upgrading(_) => Start
    case Running(_) => End(Interrupted)
    case Finished(_, _) => Decrement
    case Publishing(_, _) => Publish
    case Leaving => GiveBack
    case Located(_) => TakeReceiver
    case Waiting(_) => TimeOut
    case Closing(_, _) => Close
  }

  lemma CanAlwaysMove(cfg: Config, g: Shared, t: TaskId, task: Task)
    requires TaskOk(g, task)
    ensures Perform(cfg, g, t, Some(task), NextMove(task)).1 != Some(task)
  {}

  /** A step in which only handler `t` moves, and moves on. */
  ghost predicate MovesAlone(cfg: Config, s: State, t: TaskId, s': State) {
    t in s.tasks && s' == Step(cfg, s, Act(t, NextMove(s.tasks[t]))).0
  }

  lemma AloneStep(cfg: Config, s: State, t: TaskId, s': State)
    requires Inv(cfg, s) && MovesAlone(cfg, s, t, s')
    ensures Inv(cfg, s') && (t in s'.tasks ==> Rank(s'.tasks[t]) < Rank(s.tasks[t]))
    ensures s'.shared.available + Number(At(s'.tasks, t), PermitHolder) == s.shared.available + Number(At(s.tasks, t), PermitHolder)
  {
    var task := s.tasks[t];
    assert TaskOk(s.shared, task);
    MovesDescend(cfg, s.shared, t, task, NextMove(task));
    CanAlwaysMove(cfg, s.shared, t, task);
    PermitsConserved(cfg, s.shared, t, Some(task), NextMove(task));
    StepKeepsInv(cfg, s, Act(t, NextMove(task)));
  }

  /** From any reachable state a handler left to itself finishes within eight of its own moves, and by then its permit
      is back: a stretch of its moves from `path[0]` has at most eight, and one that cannot be continued ends like this. */
  lemma {:induction false} EveryHandlerFinishes(cfg: Config, path: seq<State>, t: TaskId)
    requires path != [] && Inv(cfg, path[0]) && t in path[0].tasks
    requires forall k :: 0 <= k < |path| - 1 ==> MovesAlone(cfg, path[k], t, path[k + 1])
    ensures |path| - 1 <= Rank(path[0].tasks[t]) <= 8
    ensures var s' := path[|path| - 1];
      t !in s'.tasks ==> s'.shared.available == path[0].shared.available + Number(At(path[0].tasks, t), PermitHolder)
    decreases |path|
  {
    if |path| > 1 {
      AloneStep(cfg, path[0], t, path[1]);
      if |path| > 2 {
        assert MovesAlone(cfg, path[1], t, path[2]);
        EveryHandlerFinishes(cfg, path[1..], t);
      }
    }
  }
}
