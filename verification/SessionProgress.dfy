/** What handlers achieve: a waiting client is answered, a claimed session is published or its handler has unwound. */
module SessionProgress {
  import opened Prelude
  import opened SettlementTypes
  import opened Sessions
  import opened SessionHistory
  import opened SessionDelivery

  // The result handler ----------------------------------------------------------------------

  /** A handler that still owes its client an answer. */
  ghost predicate Answering(s: State, t: TaskId, id: SessionId) { t in s.tasks && Receives(s.tasks[t], id) }

  ghost predicate Answered(events: seq<Event>, t: TaskId, id: SessionId) { exists reply :: ReplySent(t, id, reply) in events }

  lemma PerformAnswers(cfg: Config, g: Shared, t: TaskId, task: Task, move: Move, id: SessionId)
    requires Receives(task, id) && !move.CancelResult?
    ensures var (g', task', events) := Perform(cfg, g, t, Some(task), move);
      (task'.Some? && Receives(task'.value, id)) || Answered(events, t, id)
  {
    var events := Perform(cfg, g, t, Some(task), move).2;
    if task.Closing? && move.Close? { assert ReplySent(t, id, task.reply) in events; }
  }

  lemma AnsweringStep(cfg: Config, s: State, a: Action, t: TaskId, id: SessionId)
    requires Answering(s, t, id) && a != Act(t, CancelResult)
    ensures Answering(Step(cfg, s, a).0, t, id) || Answered(Step(cfg, s, a).1, t, id)
  {
    if a.Act? && a.task == t { PerformAnswers(cfg, s.shared, t, s.tasks[t], a.move, id); }
  }

  /** Since the `from`-th event the handler has answered, or it still owes the answer. */
  ghost predicate OnItsWay(h: History, from: nat, t: TaskId, id: SessionId) {
    from <= |h.trace| && (Answering(h.state, t, id) || Answered(h.trace[from..], t, id))
  }

  /** However a run goes on, a handler that waits on its session's outcome and is not cancelled either still owes its
      client the answer or has sent it. */
  lemma {:induction false} WaitingIsAnswered(cfg: Config, actions: seq<Action>, more: seq<Action>, t: TaskId, id: SessionId)
    requires Answering(Run(cfg, actions).state, t, id) && Act(t, CancelResult) !in more
    ensures OnItsWay(Run(cfg, actions + more), |Run(cfg, actions).trace|, t, id)
  {
    if more == [] {
      assert actions + more == actions;
    } else {
      var front, a := more[..|more| - 1], more[|more| - 1];
      WaitingIsAnswered(cfg, actions, front, t, id);
      assert actions + more == actions + front + [a];
      RunAppend(cfg, actions + front, a);
      AnswerCarries(cfg, Run(cfg, actions + front), a, |Run(cfg, actions).trace|, t, id);
    }
  }

  lemma AnswerCarries(cfg: Config, h: History, a: Action, from: nat, t: TaskId, id: SessionId)
    requires OnItsWay(h, from, t, id) && a != Act(t, CancelResult)
    ensures var e := Step(cfg, h.state, a); OnItsWay(History(e.0, h.trace + e.1), from, t, id)
  {
    var events := Step(cfg, h.state, a).1;
    if Answering(h.state, t, id) { AnsweringStep(cfg, h.state, a, t, id); }
    TailGrows(h.trace, events, from);
    AnsweredWithin(h.trace[from..], events, t, id);
  }

  lemma TailGrows(trace: seq<Event>, events: seq<Event>, from: nat)
    requires from <= |trace|
    ensures (trace + events)[from..] == trace[from..] + events
  {}

  lemma AnsweredWithin(trace: seq<Event>, events: seq<Event>, t: TaskId, id: SessionId)
    ensures Answered(trace, t, id) || Answered(events, t, id) ==> Answered(trace + events, t, id)
  {
    if reply :| ReplySent(t, id, reply) in trace { assert ReplySent(t, id, reply) in trace + events; }
    if reply :| ReplySent(t, id, reply) in events { assert ReplySent(t, id, reply) in trace + events; }
  }

  /** A session that has been answered for is out of the map, for good. */
  lemma {:induction false} AnsweredLeavesMap(cfg: Config, actions: seq<Action>, t: TaskId, id: SessionId, reply: Reply)
    requires ReplySent(t, id, reply) in Run(cfg, actions).trace
    ensures Spent(Run(cfg, actions).state, RemoveKey(id)) && id !in Run(cfg, actions).state.shared.sessions
  {
    var n := |actions| - 1;
    var h := Run(cfg, actions[..n]);
    Reachable(cfg, actions[..n]);
    if ReplySent(t, id, reply) in h.trace {
      AnsweredLeavesMap(cfg, actions[..n], t, id, reply);
      SpentStable(cfg, h.state, actions[n], RemoveKey(id));
    } else {
      ReplyRemoves(cfg, h.state, actions[n], t, id, reply);
    }
  }

  /** Replies come of closing only. */
  ghost predicate ClosesIn(events: seq<Event>, u: TaskId, task: Option<Task>, move: Move, t: TaskId, id: SessionId, reply: Reply) {
    ReplySent(t, id, reply) in events ==> u == t && move == Close && task == Some(Closing(id, reply))
  }

  lemma OthersSendNoReply(cfg: Config, g: Shared, u: TaskId, task: Option<Task>, move: Move, t: TaskId, id: SessionId, reply: Reply)
    ensures ClosesIn(SessionMove(cfg, g, task, move).2, u, task, move, t, id, reply)
    ensures ClosesIn(NotarizeMove(g, u, task, move).2, u, task, move, t, id, reply)
    ensures ClosesIn(SocketMove(cfg, g, u, task, move).2, u, task, move, t, id, reply)
  {}

  lemma CloseSendsReply(g: Shared, u: TaskId, task: Option<Task>, move: Move, t: TaskId, id: SessionId, reply: Reply)
    ensures ClosesIn(ResultMove(g, u, task, move).2, u, task, move, t, id, reply)
  {}

  lemma PerformReplies(cfg: Config, g: Shared, u: TaskId, task: Option<Task>, move: Move, t: TaskId, id: SessionId, reply: Reply)
    ensures ClosesIn(Perform(cfg, g, u, task, move).2, u, task, move, t, id, reply)
  {
    OthersSendNoReply(cfg, g, u, task, move, t, id, reply);
    CloseSendsReply(g, u, task, move, t, id, reply);
  }

  lemma ReplyRemoves(cfg: Config, s: State, a: Action, t: TaskId, id: SessionId, reply: Reply)
    requires Inv(cfg, s) && ReplySent(t, id, reply) in Step(cfg, s, a).1
    ensures Spent(Step(cfg, s, a).0, RemoveKey(id))
  {
    if a.Act? {
      PerformReplies(cfg, s.shared, a.task, At(s.tasks, a.task), a.move, t, id, reply);
      ClosingRemoves(cfg, s, t, id, reply);
    }
  }

  lemma ClosingRemoves(cfg: Config, s: State, t: TaskId, id: SessionId, reply: Reply)
    requires Inv(cfg, s) && At(s.tasks, t) == Some(Closing(id, reply))
    ensures Spent(Step(cfg, s, Act(t, Close)).0, RemoveKey(id))
  {
    assert TaskOk(s.shared, s.tasks[t]);
  }

  /** Left to itself, a handler whose wait has run out removes the session and answers so. */
  lemma TimeOutAnswers(cfg: Config, s: State, t: TaskId, id: SessionId)
    requires At(s.tasks, t) == Some(Waiting(id))
    ensures var s1 := Step(cfg, s, Act(t, TimeOut)).0; var (s2, events) := Step(cfg, s1, Act(t, Close));
      && At(s1.tasks, t) == Some(Closing(id, TimedOut)) && s1.shared == s.shared
      && ReplySent(t, id, TimedOut) in events && id !in s2.shared.sessions && At(s2.tasks, t) == None
  {
    var s1 := Step(cfg, s, Act(t, TimeOut)).0;
    TimeOutCloses(cfg, s, t, id);
    CloseAnswers(cfg, s1, t, id, TimedOut);
  }

  lemma TimeOutCloses(cfg: Config, s: State, t: TaskId, id: SessionId)
    requires At(s.tasks, t) == Some(Waiting(id))
    ensures var s1 := Step(cfg, s, Act(t, TimeOut)).0; At(s1.tasks, t) == Some(Closing(id, TimedOut)) && s1.shared == s.shared
  {}

  lemma CloseAnswers(cfg: Config, s: State, t: TaskId, id: SessionId, reply: Reply)
    requires At(s.tasks, t) == Some(Closing(id, reply))
    ensures var (s', events) := Step(cfg, s, Act(t, Close));
      ReplySent(t, id, reply) in events && id !in s'.shared.sessions && At(s'.tasks, t) == None
  {}

  /** And one that finds an outcome answers with it. */
  lemma ReceiveAnswers(cfg: Config, s: State, t: TaskId, id: SessionId, outcome: Outcome)
    requires At(s.tasks, t) == Some(Waiting(id)) && Sent(s, id, outcome)
    ensures var s1 := Step(cfg, s, Act(t, Receive)).0; var (s2, events) := Step(cfg, s1, Act(t, Close));
      ReplySent(t, id, Delivered(outcome)) in events && id !in s2.shared.sessions && At(s2.tasks, t) == None
  {
    ReceiveCloses(cfg, s, t, id, outcome);
    CloseAnswers(cfg, Step(cfg, s, Act(t, Receive)).0, t, id, Delivered(outcome));
  }

  // The claimant ----------------------------------------------------------------------------

  ghost predicate Claiming(s: State, t: TaskId, id: SessionId) { t in s.tasks && Owns(s.tasks[t], id) }

  /** The session's notarization has been published, or has brought its handler down. */
  ghost predicate Concluded(events: seq<Event>, t: TaskId, id: SessionId) {
    (exists outcome :: OutcomePublished(t, id, outcome) in events)
    || (exists evidence :: NotarizationUnwound(t, id, evidence) in events)
  }

  lemma PerformConcludes(cfg: Config, g: Shared, t: TaskId, task: Task, move: Move, id: SessionId)
    requires Owns(task, id) && !move.AbandonUpgrade? && id in g.cells && g.cells[id].sender
    ensures var (g', task', events) := Perform(cfg, g, t, Some(task), move);
      (task'.Some? && Owns(task'.value, id)) || Concluded(events, t, id)
  {
    var events := Perform(cfg, g, t, Some(task), move).2;
    if task.Publishing? && move.Publish? { assert OutcomePublished(t, id, task.outcome) in events; }
    if task.Running? && move.End? && cfg.notarize(g.cells[id].assetId, move.evidence) == None {
      assert NotarizationUnwound(t, id, move.evidence) in events;
    }
  }

  lemma ClaimingStep(cfg: Config, s: State, a: Action, t: TaskId, id: SessionId)
    requires Inv(cfg, s) && Claiming(s, t, id) && a != Act(t, AbandonUpgrade)
    ensures Claiming(Step(cfg, s, a).0, t, id) || Concluded(Step(cfg, s, a).1, t, id)
  {
    assert TaskOk(s.shared, s.tasks[t]);
    if a.Act? && a.task == t { PerformConcludes(cfg, s.shared, t, s.tasks[t], a.move, id); }
  }

  /** Since the `from`-th event the notarization has been concluded, or its claimant is still at it. */
  ghost predicate UnderWay(h: History, from: nat, t: TaskId, id: SessionId) {
    from <= |h.trace| && (Claiming(h.state, t, id) || Concluded(h.trace[from..], t, id))
  }

  /** However a run goes on, a session's claimant that gets its WebSocket either is still at it, has published an
      outcome, or has unwound. */
  lemma {:induction false} ClaimIsConcluded(cfg: Config, actions: seq<Action>, more: seq<Action>, t: TaskId, id: SessionId)
    requires Claiming(Run(cfg, actions).state, t, id) && Act(t, AbandonUpgrade) !in more
    ensures UnderWay(Run(cfg, actions + more), |Run(cfg, actions).trace|, t, id)
  {
    if more == [] {
      assert actions + more == actions;
    } else {
      var front, a := more[..|more| - 1], more[|more| - 1];
      ClaimIsConcluded(cfg, actions, front, t, id);
      assert actions + more == actions + front + [a];
      RunAppend(cfg, actions + front, a);
      Reachable(cfg, actions + front);
      ConclusionCarries(cfg, Run(cfg, actions + front), a, |Run(cfg, actions).trace|, t, id);
    }
  }

  lemma ConclusionCarries(cfg: Config, h: History, a: Action, from: nat, t: TaskId, id: SessionId)
    requires Inv(cfg, h.state) && UnderWay(h, from, t, id) && a != Act(t, AbandonUpgrade)
    ensures var e := Step(cfg, h.state, a); UnderWay(History(e.0, h.trace + e.1), from, t, id)
  {
    var events := Step(cfg, h.state, a).1;
    if Claiming(h.state, t, id) { ClaimingStep(cfg, h.state, a, t, id); }
    TailGrows(h.trace, events, from);
    ConcludedWithin(h.trace[from..], events, t, id);
  }

  lemma ConcludedWithin(trace: seq<Event>, events: seq<Event>, t: TaskId, id: SessionId)
    ensures Concluded(trace, t, id) || Concluded(events, t, id) ==> Concluded(trace + events, t, id)
  {
    if outcome :| OutcomePublished(t, id, outcome) in trace { assert OutcomePublished(t, id, outcome) in trace + events; }
    if outcome :| OutcomePublished(t, id, outcome) in events { assert OutcomePublished(t, id, outcome) in trace + events; }
    if evidence :| NotarizationUnwound(t, id, evidence) in trace {
      assert NotarizationUnwound(t, id, evidence) in trace + events;
    }
    if evidence :| NotarizationUnwound(t, id, evidence) in events {
      assert NotarizationUnwound(t, id, evidence) in trace + events;
    }
  }

  /** A claimant's own moves, from the claim to the published outcome: what its evidence leads to is what is sent. */
  lemma ClaimantPublishes(cfg: Config, s: State, t: TaskId, id: SessionId, evidence: Evidence, outcome: Outcome)
    requires Inv(cfg, s) && At(s.tasks, t) == Some(Claimant(id))
    requires id in s.shared.cells && cfg.notarize(s.shared.cells[id].assetId, evidence) == Some(outcome)
    ensures var s1 := Step(cfg, s, Act(t, CountUpgrade)).0;
      var s2 := Step(cfg, s1, Act(t, Start)).0;
      var s3 := Step(cfg, s2, Act(t, End(evidence))).0;
      var s4 := Step(cfg, s3, Act(t, Decrement)).0;
      var (s5, events) := Step(cfg, s4, Act(t, Publish));
      Sent(s5, id, outcome) && OutcomePublished(t, id, outcome) in events && At(s5.tasks, t) == Some(Leaving)
  {
    assert TaskOk(s.shared, s.tasks[t]);
    var s1 := Step(cfg, s, Act(t, CountUpgrade)).0;
    UpgradeCounted(cfg, s, t, id);
    var s2 := Step(cfg, s1, Act(t, Start)).0;
    Started(cfg, s1, t, id);
    var s3 := Step(cfg, s2, Act(t, End(evidence))).0;
    EndedWith(cfg, s2, t, id, evidence, outcome);
    var s4 := Step(cfg, s3, Act(t, Decrement)).0;
    Decremented(cfg, s3, t, id, outcome);
    PublishedWith(cfg, s4, t, id, outcome);
  }

  lemma UpgradeCounted(cfg: Config, s: State, t: TaskId, id: SessionId)
    requires At(s.tasks, t) == Some(Claimant(id))
    ensures var s' := Step(cfg, s, Act(t, CountUpgrade)).0;
      At(s'.tasks, t) == Some(Upgrading(id)) && s'.shared.cells == s.shared.cells
  {}

  lemma Started(cfg: Config, s: State, t: TaskId, id: SessionId)
    requires At(s.tasks, t) == Some(Upgrading(id))
    ensures var s' := Step(cfg, s, Act(t, Start)).0; At(s'.tasks, t) == Some(Running(id)) && s'.shared.cells == s.shared.cells
  {}

  lemma EndedWith(cfg: Config, s: State, t: TaskId, id: SessionId, evidence: Evidence, outcome: Outcome)
    requires At(s.tasks, t) == Some(Running(id)) && id in s.shared.cells
    requires cfg.notarize(s.shared.cells[id].assetId, evidence) == Some(outcome)
    ensures var s' := Step(cfg, s, Act(t, End(evidence))).0;
      At(s'.tasks, t) == Some(Finished(id, outcome)) && s'.shared.cells == s.shared.cells
  {}

  lemma Decremented(cfg: Config, s: State, t: TaskId, id: SessionId, outcome: Outcome)
    requires At(s.tasks, t) == Some(Finished(id, outcome))
    ensures var s' := Step(cfg, s, Act(t, Decrement)).0;
      At(s'.tasks, t) == Some(Publishing(id, outcome)) && s'.shared.cells == s.shared.cells
  {}

  lemma PublishedWith(cfg: Config, s: State, t: TaskId, id: SessionId, outcome: Outcome)
    requires At(s.tasks, t) == Some(Publishing(id, outcome)) && id in s.shared.cells && s.shared.cells[id].sender
    ensures var (s', events) := Step(cfg, s, Act(t, Publish));
      Sent(s', id, outcome) && OutcomePublished(t, id, outcome) in events && At(s'.tasks, t) == Some(Leaving)
  {}

  // Clients that go away --------------------------------------------------------------------

  /** A client lost before its WebSocket is up costs the server nothing: the handler ends and its permit is back. */
  lemma LostClientReturnsPermit(cfg: Config, s: State, t: TaskId, id: SessionId, cut: Move)
    requires (At(s.tasks, t) == Some(Admitted(id)) && cut == CancelNotarize)
      || (At(s.tasks, t) == Some(Upgrading(id)) && cut == AbandonUpgrade)
    ensures var (s1, events) := Step(cfg, s, Act(t, cut)); var (s2, events') := Step(cfg, s1, Act(t, GiveBack));
      && s2 == State(s.shared.(available := s.shared.available + 1), s.tasks - {t}) && events == events' == []
  {
    assert (s.tasks[t := Leaving]) - {t} == s.tasks - {t};
  }

  /** A result handler whose client is lost ends at once, and neither answers nor removes its session: that is left to
      the timer. */
  lemma LostClientLeavesSession(cfg: Config, s: State, t: TaskId, id: SessionId)
    requires t in s.tasks && (s.tasks[t] == Located(id) || Receives(s.tasks[t], id))
    ensures Step(cfg, s, Act(t, CancelResult)) == (State(s.shared, s.tasks - {t}), [])
  {}

  /** A session's shared half is freed exactly when neither the map nor a handler holds it. */
  lemma FreedIffUnheld(cfg: Config, s: State, id: SessionId)
    requires Inv(cfg, s) && id in s.shared.cells
    ensures Step(cfg, s, FreeCell(id)).0.shared.cells[id].freed
      <==> id !in s.shared.sessions && forall t :: t in s.tasks ==> !Refers(s.tasks[t], id)
  {
    if s.shared.cells[id].freed {
      forall t | t in s.tasks ensures !Refers(s.tasks[t], id) { assert TaskOk(s.shared, s.tasks[t]); }
    }
  }

  // Timers ----------------------------------------------------------------------------------

  /** A timer fires once, and leaves no session of its own behind. */
  lemma TimerFires(cfg: Config, s: State, id: SessionId)
    requires id in s.shared.timers
    ensures var g := Step(cfg, s, FireTimer(id)).0.shared; g.timers == s.shared.timers - {id} && g.sessions == s.shared.sessions - {id}
  {}
}
