/** The shared objects of main.rs, updated in place. Each method is one atomic action of a handler (a lock section, a
    compare-exchange, a `take`, a counter update) and is proved to be the step of the protocol that the handler, where
    it stands, performs. */
module Server {
  import opened Prelude
  import opened SettlementTypes
  import opened Sessions
  import opened SessionHistory

  class SessionData {
    ghost const id: SessionId
    const assetId: u64
    var verifierClaimed: bool
    var resultSender: bool
    var resultReceiver: bool
    var slot: Option<Outcome>

    constructor (ghost id: SessionId, assetId: u64)
      ensures this.id == id && this.assetId == assetId && !verifierClaimed && resultSender && resultReceiver && slot == None
    {
      this.id, this.assetId := id, assetId;
      verifierClaimed, resultSender, resultReceiver, slot := false, true, true, None;
    }

    ghost predicate Reflects(c: Cell)
      reads this
    {
      c.assetId == assetId && c.claimed == verifierClaimed && c.sender == resultSender && c.receiver == resultReceiver
      && c.slot == slot
    }
  }

  // What the actions do to the shared state -------------------------------------------------

  ghost function AfterCreation(g: Shared, id: SessionId, assetId: u64): Shared {
    g.(sessions := g.sessions + {id}, cells := g.cells[id := Cell(assetId, false, true, true, None, false)])
  }

  /** What `session_handler` does to the shared state under its lock. */
  lemma Created(cfg: Config, s: State, t: TaskId, id: SessionId, assetId: u64)
    requires At(s.tasks, t) == None && id !in s.shared.cells
    ensures var g, g' := s.shared, Step(cfg, s, Act(t, Create(id, assetId))).0.shared;
      g' == if |g.sessions| >= cfg.maxPending then g.(rejected := g.rejected + 1) else AfterCreation(g, id, assetId)
  {}

  ghost function WithCell(g: Shared, id: SessionId, c: Cell): Shared { g.(cells := g.cells[id := c]) }

  lemma Claimed(cfg: Config, s: State, t: TaskId, id: SessionId)
    requires At(s.tasks, t) == Some(Found(id)) && id in s.shared.cells
    ensures var g, s' := s.shared, Step(cfg, s, Act(t, Claim)).0;
      && s'.shared == WithCell(g, id, g.cells[id].(claimed := true))
      && At(s'.tasks, t) == Some(if g.cells[id].claimed then Leaving else Claimant(id))
  {}

  lemma Published(cfg: Config, s: State, t: TaskId, id: SessionId, outcome: Outcome)
    requires At(s.tasks, t) == Some(Publishing(id, outcome)) && id in s.shared.cells
    ensures var g, g' := s.shared, Step(cfg, s, Act(t, Publish)).0.shared;
      g' == if g.cells[id].sender then WithCell(g, id, g.cells[id].(sender := false, slot := Some(outcome))) else g
  {}

  lemma ReceiverTaken(cfg: Config, s: State, t: TaskId, id: SessionId)
    requires At(s.tasks, t) == Some(Located(id)) && id in s.shared.cells
    ensures var g, s' := s.shared, Step(cfg, s, Act(t, TakeReceiver)).0;
      && s'.shared == WithCell(g, id, g.cells[id].(receiver := false))
      && At(s'.tasks, t) == if g.cells[id].receiver then Some(Waiting(id)) else None
  {}

  lemma Closed(cfg: Config, s: State, t: TaskId, id: SessionId, reply: Reply)
    requires At(s.tasks, t) == Some(Closing(id, reply))
    ensures Step(cfg, s, Act(t, Close)).0.shared == s.shared.(sessions := s.shared.sessions - {id})
  {}

  /** Actions that change none of the objects: spawning a timer, waiting, going away, the notarization itself. */
  predicate Silent(a: Action) {
    match a
    case FireTimer(_) => false
    case FreeCell(_) => true
    case Act(_, move) =>
      move.SpawnTimer? || move.CancelNotarize? || move.AbandonUpgrade? || move.End? || move.Receive? || move.TimeOut?
      || move.SeeClosed? || move.CancelResult?
  }

  /** Equal in all that the objects hold. */
  ghost predicate SameObjects(g: Shared, g': Shared) {
    && g'.sessions == g.sessions && g'.cells.Keys == g.cells.Keys
    && (forall id :: id in g.cells ==> g'.cells[id].(freed := g.cells[id].freed) == g.cells[id])
    && g'.available == g.available && g'.active == g.active && g'.created == g.created && g'.expired == g.expired
    && g'.upgraded == g.upgraded && g'.rejected == g.rejected
  }

  lemma SilentKeepsObjects(cfg: Config, s: State, a: Action)
    requires Silent(a)
    ensures SameObjects(s.shared, Step(cfg, s, a).0.shared)
  {}

  class AppState {
    const cfg: Config
    var sessions: map<SessionId, SessionData>
    var availablePermits: nat
    var activeNotarizations: int
    var created: nat
    var expired: nat
    var upgraded: nat
    var rejectedAtCapacity: nat

    ghost var model: State                       // the protocol state these objects are in
    ghost var actions: seq<Action>               // how it came to it
    ghost var states: seq<State>                 // through which states
    ghost var arcs: map<SessionId, SessionData>  // every session ever created

    /** The objects spell out a state that a run of the protocol leads to. */
    ghost predicate Valid()
      reads this, arcs.Values
    {
      Traced() && Indexed() && Coupled(model.shared)
    }

    ghost predicate Traced()
      reads this
    {
      Path(cfg, states, actions) && states[|actions|] == model
    }

    ghost predicate Indexed()
      reads this, arcs.Values
    {
      && (forall id :: id in sessions ==> id in arcs && sessions[id] == arcs[id])
      && (forall id :: id in arcs ==> arcs[id].id == id)
    }

    ghost predicate Coupled(g: Shared)
      reads this, arcs.Values
    {
      && sessions.Keys == g.sessions && arcs.Keys == g.cells.Keys
      && (forall id :: id in arcs ==> arcs[id].Reflects(g.cells[id]))
      && availablePermits == g.available && activeNotarizations == g.active
      && created == g.created && expired == g.expired && upgraded == g.upgraded && rejectedAtCapacity == g.rejected
    }

    ghost predicate Stands(t: TaskId, task: Task)
      reads this
    {
      At(model.tasks, t) == Some(task)
    }

    /** What was done is this one action of the protocol. */
    twostate predicate Did(a: Action)
      reads this
    {
      model == Step(cfg, old(model), a).0 && actions == old(actions) + [a]
    }

    constructor (cfg: Config)
      ensures Valid() && this.cfg == cfg && model == Init(cfg) && actions == [] && arcs == map[]
    {
      this.cfg := cfg;
      sessions, arcs := map[], map[];
      availablePermits, activeNotarizations := cfg.maxActive, 0;
      created, expired, upgraded, rejectedAtCapacity := 0, 0, 0, 0;
      model, actions, states := Init(cfg), [], [Init(cfg)];
    }

    ghost method Record(a: Action)
      requires Traced()
      modifies this`model, this`actions, this`states
      ensures Traced() && Did(a)
    {
      var after := Step(cfg, model, a).0;
      PathExtends(cfg, states, actions, a, after);
      model, actions, states := after, actions + [a], states + [after];
    }

    /** An action that leaves all objects as they are. */
    ghost method Pass(a: Action)
      requires Valid() && Silent(a)
      modifies this`model, this`actions, this`states
      ensures Valid() && Did(a)
    {
      SilentKeepsObjects(cfg, model, a);
      Record(a);
    }

    // POST /session -------------------------------------------------------------------------

    method InsertSession(ghost t: TaskId, id: SessionId, data: SessionData) returns (admitted: bool)
      requires Valid() && At(model.tasks, t) == None && id !in arcs && data.id == id
      requires data.Reflects(Cell(data.assetId, false, true, true, None, false))
      modifies this`sessions, this`rejectedAtCapacity, this`model, this`actions, this`states, this`arcs
      ensures Valid() && Did(Act(t, Create(id, data.assetId)))
      ensures admitted <==> old(|sessions|) < cfg.maxPending
      ensures arcs == if admitted then old(arcs)[id := data] else old(arcs)
    {
      ghost var g := model.shared;
      assert |sessions| == |g.sessions|;
      Created(cfg, model, t, id, data.assetId);
      Record(Act(t, Create(id, data.assetId)));
      if |sessions| >= cfg.maxPending {
        rejectedAtCapacity := rejectedAtCapacity + 1;
        return false;
      }
      Enter(g, id, data);
      return true;
    }

    /** The insertion, where there is room. */
    method Enter(ghost g: Shared, id: SessionId, data: SessionData)
      requires Traced() && Indexed() && Coupled(g) && model.shared == AfterCreation(g, id, data.assetId)
      requires id !in arcs && data.id == id && data.Reflects(Cell(data.assetId, false, true, true, None, false))
      modifies this`sessions, this`arcs
      ensures Valid() && arcs == old(arcs)[id := data]
    {
      sessions := sessions[id := data];
      arcs := arcs[id := data];
    }

    method CountCreated(ghost t: TaskId, ghost id: SessionId)
      requires Valid() && Stands(t, Inserted(id))
      modifies this`created, this`model, this`actions, this`states
      ensures Valid() && Did(Act(t, Move.CountCreated))
    {
      Record(Act(t, Move.CountCreated));
      created := created + 1;
    }

    method ExpireSession(id: SessionId) returns (removed: bool)
      requires Valid() && id in model.shared.timers
      modifies this`sessions, this`expired, this`model, this`actions, this`states
      ensures Valid() && Did(FireTimer(id))
      ensures removed <==> id in old(sessions)
    {
      Record(FireTimer(id));
      removed := id in sessions;
      if removed {
        sessions := sessions - {id};
        expired := expired + 1;
      }
    }

    // GET /notarize -------------------------------------------------------------------------

    method TryAcquirePermit(ghost t: TaskId, ghost id: SessionId) returns (acquired: bool)
      requires Valid() && At(model.tasks, t) == None
      modifies this`availablePermits, this`model, this`actions, this`states
      ensures Valid() && Did(Act(t, Admit(id)))
      ensures acquired <==> old(availablePermits) > 0
    {
      Record(Act(t, Admit(id)));
      acquired := availablePermits > 0;
      if acquired { availablePermits := availablePermits - 1; }
    }

    method LookUp(ghost t: TaskId, id: SessionId) returns (data: SessionData?)
      requires Valid() && Stands(t, Admitted(id))
      modifies this`model, this`actions, this`states
      ensures Valid() && Did(Act(t, Lookup))
      ensures if data == null then Stands(t, Leaving) else Stands(t, Found(id)) && id in arcs && data == arcs[id]
    {
      Record(Act(t, Lookup));
      data := if id in sessions then sessions[id] else null;
    }

    method ClaimVerifier(ghost t: TaskId, ghost id: SessionId, data: SessionData) returns (won: bool)
      requires Valid() && Stands(t, Found(id)) && id in arcs && arcs[id] == data
      modifies this`model, this`actions, this`states, data`verifierClaimed
      ensures Valid() && Did(Act(t, Claim))
      ensures won <==> !old(data.verifierClaimed)
      ensures Stands(t, if won then Claimant(id) else Leaving)
    {
      ghost var g := model.shared;
      assert data.Reflects(g.cells[id]);
      Claimed(cfg, model, t, id);
      Record(Act(t, Claim));
      won := CompareExchange(g, id, data);
    }

    method CompareExchange(ghost g: Shared, ghost id: SessionId, data: SessionData) returns (won: bool)
      requires Traced() && Indexed() && Coupled(g) && id in arcs && arcs[id] == data
      requires model.shared == WithCell(g, id, g.cells[id].(claimed := true))
      modifies data`verifierClaimed
      ensures Valid() && won == !old(data.verifierClaimed) && data.verifierClaimed
    {
      assert forall k :: k in arcs && k != id ==> arcs[k].id != data.id;
      won := !data.verifierClaimed;
      if won { data.verifierClaimed := true; }
      OnlyThisCell(g, id, data);
    }

    /** One session's object changed with its cell; all others reflect theirs as before. */
    lemma OnlyThisCell(g: Shared, id: SessionId, data: SessionData)
      requires id in arcs && arcs[id] == data && arcs.Keys == g.cells.Keys
      requires model.shared.cells.Keys == g.cells.Keys && data.Reflects(model.shared.cells[id])
      requires forall k :: k in arcs && k != id ==> model.shared.cells[k] == g.cells[k] && arcs[k].Reflects(g.cells[k])
      ensures forall k :: k in arcs ==> arcs[k].Reflects(model.shared.cells[k])
    {}

    method CountUpgraded(ghost t: TaskId, ghost id: SessionId)
      requires Valid() && Stands(t, Claimant(id))
      modifies this`upgraded, this`model, this`actions, this`states
      ensures Valid() && Did(Act(t, CountUpgrade))
    {
      Record(Act(t, CountUpgrade));
      upgraded := upgraded + 1;
    }

    method IncrementActive(ghost t: TaskId, ghost id: SessionId)
      requires Valid() && Stands(t, Upgrading(id))
      modifies this`activeNotarizations, this`model, this`actions, this`states
      ensures Valid() && Did(Act(t, Start))
    {
      Record(Act(t, Start));
      activeNotarizations := activeNotarizations + 1;
    }

    method DecrementActive(ghost t: TaskId, ghost id: SessionId, ghost outcome: Outcome)
      requires Valid() && Stands(t, Finished(id, outcome))
      modifies this`activeNotarizations, this`model, this`actions, this`states
      ensures Valid() && Did(Act(t, Decrement))
    {
      Record(Act(t, Decrement));
      activeNotarizations := activeNotarizations - 1;
    }

    /** `publish_settlement_outcome`. */
    method PublishOutcome(ghost t: TaskId, ghost id: SessionId, data: SessionData, outcome: Outcome)
      requires Valid() && Stands(t, Publishing(id, outcome)) && id in arcs && arcs[id] == data
      modifies this`model, this`actions, this`states, data`resultSender, data`slot
      ensures Valid() && Did(Act(t, Publish))
      ensures !data.resultSender && data.slot == if old(data.resultSender) then Some(outcome) else old(data.slot)
    {
      ghost var g := model.shared;
      assert data.Reflects(g.cells[id]);
      Published(cfg, model, t, id, outcome);
      Record(Act(t, Publish));
      if data.resultSender { Send(g, id, data, outcome); }
    }

    method Send(ghost g: Shared, ghost id: SessionId, data: SessionData, outcome: Outcome)
      requires Traced() && Indexed() && Coupled(g) && id in arcs && arcs[id] == data
      requires model.shared == WithCell(g, id, g.cells[id].(sender := false, slot := Some(outcome)))
      modifies data`resultSender, data`slot
      ensures Valid() && !data.resultSender && data.slot == Some(outcome)
    {
      assert forall k :: k in arcs && k != id ==> arcs[k].id != data.id;
      data.resultSender := false;
      data.slot := Some(outcome);
      OnlyThisCell(g, id, data);
    }

    method ReleasePermit(ghost t: TaskId)
      requires Valid() && Stands(t, Leaving)
      modifies this`availablePermits, this`model, this`actions, this`states
      ensures Valid() && Did(Act(t, GiveBack))
    {
      Record(Act(t, GiveBack));
      availablePermits := availablePermits + 1;
    }

    // GET /session/result -------------------------------------------------------------------

    method LocateSession(ghost t: TaskId, id: SessionId) returns (data: SessionData?)
      requires Valid() && At(model.tasks, t) == None
      modifies this`model, this`actions, this`states
      ensures Valid() && Did(Act(t, Locate(id)))
      ensures if data == null then At(model.tasks, t) == None else Stands(t, Located(id)) && id in arcs && data == arcs[id]
    {
      Record(Act(t, Locate(id)));
      data := if id in sessions then sessions[id] else null;
    }

    method TakeResultReceiver(ghost t: TaskId, ghost id: SessionId, data: SessionData) returns (taken: bool)
      requires Valid() && Stands(t, Located(id)) && id in arcs && arcs[id] == data
      modifies this`model, this`actions, this`states, data`resultReceiver
      ensures Valid() && Did(Act(t, TakeReceiver))
      ensures taken <==> old(data.resultReceiver)
      ensures if taken then Stands(t, Waiting(id)) else At(model.tasks, t) == None
    {
      ghost var g := model.shared;
      assert data.Reflects(g.cells[id]);
      ReceiverTaken(cfg, model, t, id);
      Record(Act(t, TakeReceiver));
      taken := Take(g, id, data);
    }

    method Take(ghost g: Shared, ghost id: SessionId, data: SessionData) returns (taken: bool)
      requires Traced() && Indexed() && Coupled(g) && id in arcs && arcs[id] == data
      requires model.shared == WithCell(g, id, g.cells[id].(receiver := false))
      modifies data`resultReceiver
      ensures Valid() && taken == old(data.resultReceiver) && !data.resultReceiver
    {
      assert forall k :: k in arcs && k != id ==> arcs[k].id != data.id;
      taken := data.resultReceiver;
      data.resultReceiver := false;
      OnlyThisCell(g, id, data);
    }

    method RemoveSession(ghost t: TaskId, id: SessionId, ghost reply: Reply)
      requires Valid() && Stands(t, Closing(id, reply))
      modifies this`sessions, this`model, this`actions, this`states
      ensures Valid() && Did(Act(t, Close))
    {
      Closed(cfg, model, t, id, reply);
      Record(Act(t, Close));
      sessions := sessions - {id};
      assert sessions.Keys == model.shared.sessions;
    }
  }

  /** What holds of every run holds of the objects: at most once, nothing lost, permits and gauge accounted for. */
  lemma ObjectsKeepHistory(app: AppState)
    requires app.Valid()
    ensures var trace := Run(app.cfg, app.actions).trace; var tasks := app.model.tasks;
      && NoKeyTwice(trace)
      && |app.sessions| <= app.cfg.maxPending
      && |app.sessions| + Count(trace, Expiry) + Count(trace, Consumption) == Count(trace, Insertion)
      && app.expired == Count(trace, Expiry) && app.rejectedAtCapacity == Count(trace, Rejection)
      && app.created + |Members(tasks, UncountedSession)| == Count(trace, Insertion)
      && app.upgraded + |Members(tasks, UncountedUpgrade)| == Count(trace, ClaimMade)
      && app.availablePermits + |Members(tasks, PermitHolder)| == app.cfg.maxActive
      && app.activeNotarizations == |Members(tasks, Active)| + Count(trace, Unwinding)
  {
    PathIsRun(app.cfg, app.states, app.actions);
    AtMostOnce(app.cfg, app.actions);
    Conservation(app.cfg, app.actions);
    PermitAccounting(app.cfg, app.actions);
    assert |app.sessions.Keys| == |app.sessions|;
  }
}
