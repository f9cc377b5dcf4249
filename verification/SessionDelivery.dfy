/** What can still happen to a session, over all continuations of a run: what is spent stays spent, and a published
    outcome is deliverable exactly while someone can take it. */
module SessionDelivery {
  import opened Prelude
  import opened SettlementTypes
  import opened Sessions
  import opened SessionHistory

  lemma RunAppend(cfg: Config, actions: seq<Action>, a: Action)
    ensures var h := Run(cfg, actions); var e := Step(cfg, h.state, a);
      Run(cfg, actions + [a]) == History(e.0, h.trace + e.1)
  {
    assert (actions + [a])[..|actions|] == actions;
  }

  // Spent is spent --------------------------------------------------------------------------

  /** No event from the `from`-th on has this key. */
  ghost predicate NeverFrom(trace: seq<Event>, from: nat, key: Key) {
    forall k :: from <= k < |trace| ==> KeyOf(trace[k]) != Some(key)
  }

  /** However a run goes on, an event whose key is spent does not happen. */
  lemma {:induction false} SpentForGood(cfg: Config, actions: seq<Action>, more: seq<Action>, key: Key)
    requires Spent(Run(cfg, actions).state, key)
    ensures Spent(Run(cfg, actions + more).state, key)
    ensures |Run(cfg, actions).trace| <= |Run(cfg, actions + more).trace|
    ensures NeverFrom(Run(cfg, actions + more).trace, |Run(cfg, actions).trace|, key)
  {
    if more == [] {
      assert actions + more == actions;
    } else {
      var front, a := more[..|more| - 1], more[|more| - 1];
      SpentForGood(cfg, actions, front, key);
      assert actions + more == actions + front + [a];
      RunAppend(cfg, actions + front, a);
      Reachable(cfg, actions + front);
      SpentStep(cfg, Run(cfg, actions + front).state, a, key);
    }
  }

  lemma SpentStep(cfg: Config, s: State, a: Action, key: Key)
    requires Inv(cfg, s) && Spent(s, key)
    ensures Spent(Step(cfg, s, a).0, key) && NeverFrom(Step(cfg, s, a).1, 0, key)
  {
    SpentStable(cfg, s, a, key);
    EventsSpend(cfg, s, a);
  }

  /** A client that goes away while it waits takes the receiver with it: no reply is sent for its session any more. */
  lemma LeavingEndsReplies(cfg: Config, actions: seq<Action>, t: TaskId, id: SessionId, more: seq<Action>)
    requires At(Run(cfg, actions).state.tasks, t) == Some(Waiting(id))
    ensures var gone := actions + [Act(t, CancelResult)];
      && |Run(cfg, gone).trace| <= |Run(cfg, gone + more).trace|
      && NeverFrom(Run(cfg, gone + more).trace, |Run(cfg, gone).trace|, ReplyKey(id))
  {
    var s := Run(cfg, actions).state;
    Reachable(cfg, actions);
    RunAppend(cfg, actions, Act(t, CancelResult));
    LeavingSpends(cfg, s, t, id);
    SpentForGood(cfg, actions + [Act(t, CancelResult)], more, ReplyKey(id));
  }

  lemma LeavingSpends(cfg: Config, s: State, t: TaskId, id: SessionId)
    requires Inv(cfg, s) && At(s.tasks, t) == Some(Waiting(id))
    ensures Spent(Step(cfg, s, Act(t, CancelResult)).0, ReplyKey(id))
  {
    assert TaskOk(s.shared, s.tasks[t]);
    forall u | u in s.tasks && u != t ensures !Receives(s.tasks[u], id) {
      assert Exclusive(s.tasks[t], s.tasks[u]);
    }
  }

  // Delivery --------------------------------------------------------------------------------

  /** A handler that may still answer with the session's outcome. */
  ghost predicate Awaits(c: Cell, task: Task, id: SessionId) {
    (c.receiver && task == Located(id)) || task == Waiting(id)
    || (task.Closing? && task.id == id && task.reply.Delivered?)
  }

  /** The receiver can still be taken, or is in the hands of a handler that has not given up. */
  ghost predicate Deliverable(s: State, id: SessionId) {
    id in s.shared.cells &&
    ((s.shared.cells[id].receiver && id in s.shared.sessions)
     || exists t :: t in s.tasks && Awaits(s.shared.cells[id], s.tasks[t], id))
  }

  ghost predicate Delivers(e: Event, id: SessionId) { e.ReplySent? && e.id == id && e.reply.Delivered? }

  /** No handler turns into one that awaits the outcome, and none delivers it. */
  ghost predicate StaysLost(g: Shared, e: Effect, id: SessionId)
    requires id in g.cells
  {
    && id in e.0.cells && !(e.0.cells[id].receiver && id in e.0.sessions)
    && (e.0.cells[id].receiver ==> g.cells[id].receiver)
    && (e.1.Some? ==> !Awaits(e.0.cells[id], e.1.value, id))
    && forall k :: 0 <= k < |e.2| ==> !Delivers(e.2[k], id)
  }

  ghost predicate LostTo(g: Shared, task: Option<Task>, id: SessionId) {
    && id in g.cells && !(g.cells[id].receiver && id in g.sessions)
    && (task.Some? ==> !Awaits(g.cells[id], task.value, id))
  }

  lemma SessionMoveLoses(cfg: Config, g: Shared, t: TaskId, task: Option<Task>, move: Move, id: SessionId)
    requires LostTo(g, task, id)
    ensures StaysLost(g, SessionMove(cfg, g, task, move), id) && StaysLost(g, NotarizeMove(g, t, task, move), id)
  {}

  lemma SocketMoveLoses(cfg: Config, g: Shared, t: TaskId, task: Option<Task>, move: Move, id: SessionId)
    requires LostTo(g, task, id)
    ensures StaysLost(g, SocketMove(cfg, g, t, task, move), id)
  {}

  lemma ResultMoveLoses(g: Shared, t: TaskId, task: Option<Task>, move: Move, id: SessionId)
    requires LostTo(g, task, id)
    ensures StaysLost(g, ResultMove(g, t, task, move), id)
  {}

  lemma PerformLoses(cfg: Config, g: Shared, t: TaskId, task: Option<Task>, move: Move, id: SessionId)
    requires LostTo(g, task, id)
    ensures StaysLost(g, Perform(cfg, g, t, task, move), id)
  {
    SessionMoveLoses(cfg, g, t, task, move, id);
    SocketMoveLoses(cfg, g, t, task, move, id);
    ResultMoveLoses(g, t, task, move, id);
  }

  ghost predicate NoDelivery(trace: seq<Event>, from: nat, id: SessionId) {
    forall k :: from <= k < |trace| ==> !Delivers(trace[k], id)
  }

  lemma LostStep(cfg: Config, s: State, a: Action, id: SessionId)
    requires id in s.shared.cells && !Deliverable(s, id)
    ensures id in Step(cfg, s, a).0.shared.cells && !Deliverable(Step(cfg, s, a).0, id) && NoDelivery(Step(cfg, s, a).1, 0, id)
  {
    if a.Act? {
      var g, task := s.shared, At(s.tasks, a.task);
      PerformLoses(cfg, g, a.task, task, a.move, id);
      var e := Perform(cfg, g, a.task, task, a.move);
      forall u | u in Put(s.tasks, a.task, e.1) ensures !Awaits(e.0.cells[id], Put(s.tasks, a.task, e.1)[u], id) {
        if u != a.task { assert !Awaits(g.cells[id], s.tasks[u], id); }
      }
    } else {
      forall u | u in s.tasks ensures !Awaits(s.shared.cells[id], s.tasks[u], id) {}
    }
  }

  lemma {:induction false} LostForGood(cfg: Config, actions: seq<Action>, more: seq<Action>, id: SessionId)
    requires id in Run(cfg, actions).state.shared.cells && !Deliverable(Run(cfg, actions).state, id)
    ensures id in Run(cfg, actions + more).state.shared.cells && !Deliverable(Run(cfg, actions + more).state, id)
    ensures |Run(cfg, actions).trace| <= |Run(cfg, actions + more).trace|
    ensures NoDelivery(Run(cfg, actions + more).trace, |Run(cfg, actions).trace|, id)
  {
    if more == [] {
      assert actions + more == actions;
    } else {
      var front, a := more[..|more| - 1], more[|more| - 1];
      LostForGood(cfg, actions, front, id);
      assert actions + more == actions + front + [a];
      RunAppend(cfg, actions + front, a);
      LostStep(cfg, Run(cfg, actions + front).state, a, id);
    }
  }

  /** Some continuation delivers this outcome to the session's client. */
  ghost predicate CanDeliver(cfg: Config, actions: seq<Action>, id: SessionId, outcome: Outcome) {
    exists more, t :: DeliveredIn(cfg, actions, actions + more, t, id, outcome)
  }

  /** In this longer run, and after these actions. */
  ghost predicate DeliveredIn(cfg: Config, actions: seq<Action>, whole: seq<Action>, t: TaskId, id: SessionId, outcome: Outcome) {
    var from, trace := |Run(cfg, actions).trace|, Run(cfg, whole).trace;
    from <= |trace| && ReplySent(t, id, Delivered(outcome)) in trace[from..]
  }

  lemma DeliverEarlier(cfg: Config, actions: seq<Action>, a: Action, id: SessionId, outcome: Outcome)
    requires CanDeliver(cfg, actions + [a], id, outcome)
    ensures CanDeliver(cfg, actions, id, outcome)
  {
    var more, t :| DeliveredIn(cfg, actions + [a], actions + [a] + more, t, id, outcome);
    DeliveredEarlier(cfg, actions, a, actions + [a] + more, t, id, outcome);
    assert actions + [a] + more == actions + ([a] + more);
  }

  lemma DeliveredEarlier(cfg: Config, actions: seq<Action>, a: Action, whole: seq<Action>, t: TaskId, id: SessionId,
                         outcome: Outcome)
    requires DeliveredIn(cfg, actions + [a], whole, t, id, outcome)
    ensures DeliveredIn(cfg, actions, whole, t, id, outcome)
  {
    TraceGrows(cfg, actions, a);
    TailInTail(Run(cfg, whole).trace, |Run(cfg, actions).trace|, |Run(cfg, actions + [a]).trace|,
               ReplySent(t, id, Delivered(outcome)));
  }

  lemma TraceGrows(cfg: Config, actions: seq<Action>, a: Action)
    ensures |Run(cfg, actions).trace| <= |Run(cfg, actions + [a]).trace|
  {
    RunAppend(cfg, actions, a);
  }

  lemma TailInTail(trace: seq<Event>, from: nat, later: nat, e: Event)
    requires from <= later <= |trace| && e in trace[later..]
    ensures e in trace[from..]
  {
    assert trace[later..] == trace[from..][later - from..];
  }

  lemma DeliverFromClosing(cfg: Config, actions: seq<Action>, t: TaskId, id: SessionId, outcome: Outcome)
    requires At(Run(cfg, actions).state.tasks, t) == Some(Closing(id, Delivered(outcome)))
    ensures CanDeliver(cfg, actions, id, outcome)
  {
    var h := Run(cfg, actions);
    RunAppend(cfg, actions, Act(t, Close));
    CloseReplies(cfg, h.state, t, id, outcome);
    assert (h.trace + Step(cfg, h.state, Act(t, Close)).1)[|h.trace|..] == Step(cfg, h.state, Act(t, Close)).1;
    assert DeliveredIn(cfg, actions, actions + [Act(t, Close)], t, id, outcome);
  }

  lemma CloseReplies(cfg: Config, s: State, t: TaskId, id: SessionId, outcome: Outcome)
    requires At(s.tasks, t) == Some(Closing(id, Delivered(outcome)))
    ensures ReplySent(t, id, Delivered(outcome)) in Step(cfg, s, Act(t, Close)).1
  {}

  /** Where a published outcome waits. */
  ghost predicate Sent(s: State, id: SessionId, outcome: Outcome) {
    id in s.shared.cells && s.shared.cells[id].slot == Some(outcome)
  }

  lemma DeliverFromWaiting(cfg: Config, actions: seq<Action>, t: TaskId, id: SessionId, outcome: Outcome)
    requires Sent(Run(cfg, actions).state, id, outcome) && At(Run(cfg, actions).state.tasks, t) == Some(Waiting(id))
    ensures CanDeliver(cfg, actions, id, outcome)
  {
    RunAppend(cfg, actions, Act(t, Receive));
    ReceiveCloses(cfg, Run(cfg, actions).state, t, id, outcome);
    DeliverFromClosing(cfg, actions + [Act(t, Receive)], t, id, outcome);
    DeliverEarlier(cfg, actions, Act(t, Receive), id, outcome);
  }

  lemma ReceiveCloses(cfg: Config, s: State, t: TaskId, id: SessionId, outcome: Outcome)
    requires Sent(s, id, outcome) && At(s.tasks, t) == Some(Waiting(id))
    ensures At(Step(cfg, s, Act(t, Receive)).0.tasks, t) == Some(Closing(id, Delivered(outcome)))
  {}

  lemma DeliverFromLocated(cfg: Config, actions: seq<Action>, t: TaskId, id: SessionId, outcome: Outcome)
    requires Sent(Run(cfg, actions).state, id, outcome) && Run(cfg, actions).state.shared.cells[id].receiver
    requires At(Run(cfg, actions).state.tasks, t) == Some(Located(id))
    ensures CanDeliver(cfg, actions, id, outcome)
  {
    RunAppend(cfg, actions, Act(t, TakeReceiver));
    TakingWaits(cfg, Run(cfg, actions).state, t, id, outcome);
    DeliverFromWaiting(cfg, actions + [Act(t, TakeReceiver)], t, id, outcome);
    DeliverEarlier(cfg, actions, Act(t, TakeReceiver), id, outcome);
  }

  lemma TakingWaits(cfg: Config, s: State, t: TaskId, id: SessionId, outcome: Outcome)
    requires Sent(s, id, outcome) && s.shared.cells[id].receiver && At(s.tasks, t) == Some(Located(id))
    ensures var s' := Step(cfg, s, Act(t, TakeReceiver)).0;
      Sent(s', id, outcome) && At(s'.tasks, t) == Some(Waiting(id))
  {}

  lemma DeliverFromMap(cfg: Config, actions: seq<Action>, id: SessionId, outcome: Outcome)
    requires Sent(Run(cfg, actions).state, id, outcome) && Run(cfg, actions).state.shared.cells[id].receiver
    requires id in Run(cfg, actions).state.shared.sessions
    ensures CanDeliver(cfg, actions, id, outcome)
  {
    var u := Unused(Run(cfg, actions).state.tasks.Keys);
    RunAppend(cfg, actions, Act(u, Locate(id)));
    LocatingFinds(cfg, Run(cfg, actions).state, u, id, outcome);
    DeliverFromLocated(cfg, actions + [Act(u, Locate(id))], u, id, outcome);
    DeliverEarlier(cfg, actions, Act(u, Locate(id)), id, outcome);
  }

  lemma LocatingFinds(cfg: Config, s: State, u: TaskId, id: SessionId, outcome: Outcome)
    requires Sent(s, id, outcome) && s.shared.cells[id].receiver && id in s.shared.sessions && At(s.tasks, u) == None
    ensures var s' := Step(cfg, s, Act(u, Locate(id))).0;
      Sent(s', id, outcome) && s'.shared.cells[id].receiver && At(s'.tasks, u) == Some(Located(id))
  {}

  /** A task id not in use. */
  ghost function Unused(ts: set<TaskId>): (u: TaskId)
    ensures u !in ts && forall t | t in ts :: t < u
  {
    if ts == {} then 0
    else
      var t :| t in ts;
      var u := Unused(ts - {t});
      assert forall x | x in ts :: x == t || x in ts - {t};
      if t < u then u else t + 1
  }

  /** A published outcome can still reach the session's client exactly if it is deliverable. */
  lemma DeliverableIff(cfg: Config, actions: seq<Action>, id: SessionId, outcome: Outcome)
    requires Sent(Run(cfg, actions).state, id, outcome)
    ensures CanDeliver(cfg, actions, id, outcome) <==> Deliverable(Run(cfg, actions).state, id)
  {
    var s := Run(cfg, actions).state;
    if Deliverable(s, id) {
      if s.shared.cells[id].receiver && id in s.shared.sessions {
        DeliverFromMap(cfg, actions, id, outcome);
      } else {
        var t :| t in s.tasks && Awaits(s.shared.cells[id], s.tasks[t], id);
        DeliverFromTask(cfg, actions, t, id, outcome);
      }
    } else {
      forall more, t ensures !DeliveredIn(cfg, actions, actions + more, t, id, outcome) {
        LostNotDelivered(cfg, actions, more, t, id, outcome);
      }
    }
  }

  lemma LostNotDelivered(cfg: Config, actions: seq<Action>, more: seq<Action>, t: TaskId, id: SessionId, outcome: Outcome)
    requires id in Run(cfg, actions).state.shared.cells && !Deliverable(Run(cfg, actions).state, id)
    ensures !DeliveredIn(cfg, actions, actions + more, t, id, outcome)
  {
    LostForGood(cfg, actions, more, id);
    NotAmong(Run(cfg, actions + more).trace, |Run(cfg, actions).trace|, t, id, outcome);
  }

  lemma NotAmong(trace: seq<Event>, from: nat, t: TaskId, id: SessionId, outcome: Outcome)
    requires from <= |trace| && NoDelivery(trace, from, id)
    ensures ReplySent(t, id, Delivered(outcome)) !in trace[from..]
  {
    forall k | 0 <= k < |trace[from..]| ensures trace[from..][k] != ReplySent(t, id, Delivered(outcome)) {
      assert !Delivers(trace[from + k], id);
    }
  }

  lemma DeliverFromTask(cfg: Config, actions: seq<Action>, t: TaskId, id: SessionId, outcome: Outcome)
    requires Sent(Run(cfg, actions).state, id, outcome) && t in Run(cfg, actions).state.tasks
    requires Awaits(Run(cfg, actions).state.shared.cells[id], Run(cfg, actions).state.tasks[t], id)
    ensures CanDeliver(cfg, actions, id, outcome)
  {
    var s := Run(cfg, actions).state;
    Reachable(cfg, actions);
    assert TaskOk(s.shared, s.tasks[t]);
    match s.tasks[t]
    case Located(_) => DeliverFromLocated(cfg, actions, t, id, outcome);
    case Waiting(_) => DeliverFromWaiting(cfg, actions, t, id, outcome);
    case Closing(_, _) => DeliverFromClosing(cfg, actions, t, id, outcome);
  }
}
