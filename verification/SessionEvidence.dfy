/** What the notarizations of a run met: events tied to the actions that caused them, one notarization a session. */
module SessionEvidence {
  import opened Prelude
  import opened SettlementTypes
  import opened Sessions
  import opened SessionHistory

  /** The `m`-th action ends handler `t`'s notarization of session `id` over this evidence. */
  ghost predicate EndsAt(cfg: Config, actions: seq<Action>, m: nat, t: TaskId, id: SessionId, evidence: Evidence) {
    && m < |actions| && actions[m] == Act(t, End(evidence))
    && At(Run(cfg, actions[..m]).state.tasks, t) == Some(Running(id))
  }

  /** The asset a session was created for, as the `m`-th action finds it. */
  ghost function AssetAt(cfg: Config, actions: seq<Action>, m: nat, id: SessionId): Option<u64>
    requires m <= |actions|
  {
    var g := Run(cfg, actions[..m]).state.shared;
    if id in g.cells then Some(g.cells[id].assetId) else None
  }

  /** And the handler panics over it. */
  ghost predicate UnwindsAt(cfg: Config, actions: seq<Action>, m: nat, t: TaskId, id: SessionId, evidence: Evidence) {
    && EndsAt(cfg, actions, m, t, id, evidence) && AssetAt(cfg, actions, m, id).Some?
    && cfg.notarize(AssetAt(cfg, actions, m, id).value, evidence) == None
  }

  ghost predicate Ended(cfg: Config, actions: seq<Action>, t: TaskId, id: SessionId, evidence: Evidence) {
    exists m :: EndsAt(cfg, actions, m, t, id, evidence)
  }

  ghost predicate Unwound(cfg: Config, actions: seq<Action>, t: TaskId, id: SessionId, evidence: Evidence) {
    exists m :: UnwindsAt(cfg, actions, m, t, id, evidence)
  }

  // One step

  ghost predicate Tells(events: seq<Event>, t: TaskId, id: SessionId, evidence: Evidence, met: bool, unwound: bool) {
    (EvidenceMet(t, id, evidence) in events <==> met) && (NotarizationUnwound(t, id, evidence) in events <==> unwound)
  }

  lemma OthersTellNothing(cfg: Config, g: Shared, u: TaskId, task: Option<Task>, move: Move, t: TaskId, id: SessionId,
                          evidence: Evidence)
    ensures Tells(SessionMove(cfg, g, task, move).2, t, id, evidence, false, false)
    ensures Tells(NotarizeMove(g, u, task, move).2, t, id, evidence, false, false)
    ensures Tells(ResultMove(g, u, task, move).2, t, id, evidence, false, false)
  {}

  lemma EndTells(cfg: Config, g: Shared, u: TaskId, task: Option<Task>, move: Move, t: TaskId, id: SessionId,
                 evidence: Evidence)
    requires task == Some(Running(id)) ==> id in g.cells
    ensures var ends := u == t && move == End(evidence) && task == Some(Running(id));
      Tells(SocketMove(cfg, g, u, task, move).2, t, id, evidence, ends,
            ends && cfg.notarize(g.cells[id].assetId, evidence) == None)
  {}

  lemma PerformTells(cfg: Config, g: Shared, u: TaskId, task: Option<Task>, move: Move, t: TaskId, id: SessionId,
                     evidence: Evidence)
    requires task == Some(Running(id)) ==> id in g.cells
    ensures var ends := u == t && move == End(evidence) && task == Some(Running(id));
      Tells(Perform(cfg, g, u, task, move).2, t, id, evidence, ends,
            ends && cfg.notarize(g.cells[id].assetId, evidence) == None)
  {
    OthersTellNothing(cfg, g, u, task, move, t, id, evidence);
    EndTells(cfg, g, u, task, move, t, id, evidence);
  }

  lemma StepTells(cfg: Config, s: State, a: Action, t: TaskId, id: SessionId, evidence: Evidence)
    requires Inv(cfg, s)
    ensures var ends := a == Act(t, End(evidence)) && At(s.tasks, t) == Some(Running(id));
      && (ends ==> id in s.shared.cells)
      && Tells(Step(cfg, s, a).1, t, id, evidence, ends, ends && cfg.notarize(s.shared.cells[id].assetId, evidence) == None)
  {
    if a.Act? {
      var task := At(s.tasks, a.task);
      if task.Some? { assert TaskOk(s.shared, s.tasks[a.task]); }
      PerformTells(cfg, s.shared, a.task, task, a.move, t, id, evidence);
    }
  }

  // Whole runs

  /** The last action ends this notarization. */
  ghost predicate EndsLast(cfg: Config, s: State, a: Action, t: TaskId, id: SessionId, evidence: Evidence) {
    a == Act(t, End(evidence)) && At(s.tasks, t) == Some(Running(id))
  }

  ghost predicate UnwindsLast(cfg: Config, s: State, a: Action, t: TaskId, id: SessionId, evidence: Evidence) {
    && EndsLast(cfg, s, a, t, id, evidence) && id in s.shared.cells
    && cfg.notarize(s.shared.cells[id].assetId, evidence) == None
  }

  lemma LastOrBefore(cfg: Config, actions: seq<Action>, m: nat, t: TaskId, id: SessionId, evidence: Evidence)
    requires m < |actions|
    ensures var n := |actions| - 1; var s := Run(cfg, actions[..n]).state;
      && (EndsAt(cfg, actions, m, t, id, evidence)
          <==> if m < n then EndsAt(cfg, actions[..n], m, t, id, evidence) else EndsLast(cfg, s, actions[n], t, id, evidence))
      && (UnwindsAt(cfg, actions, m, t, id, evidence)
          <==> if m < n then UnwindsAt(cfg, actions[..n], m, t, id, evidence) else UnwindsLast(cfg, s, actions[n], t, id, evidence))
  {
    if m < |actions| - 1 { assert actions[..|actions| - 1][..m] == actions[..m]; }
  }

  lemma EndedSplits(cfg: Config, actions: seq<Action>, t: TaskId, id: SessionId, evidence: Evidence)
    requires actions != []
    ensures var n := |actions| - 1;
      Ended(cfg, actions, t, id, evidence) <==>
        Ended(cfg, actions[..n], t, id, evidence) || EndsLast(cfg, Run(cfg, actions[..n]).state, actions[n], t, id, evidence)
  {
    var n := |actions| - 1;
    if Ended(cfg, actions, t, id, evidence) {
      var m: nat :| EndsAt(cfg, actions, m, t, id, evidence);
      LastOrBefore(cfg, actions, m, t, id, evidence);
    }
    if Ended(cfg, actions[..n], t, id, evidence) {
      var m: nat :| EndsAt(cfg, actions[..n], m, t, id, evidence);
      LastOrBefore(cfg, actions, m, t, id, evidence);
    }
    LastOrBefore(cfg, actions, n, t, id, evidence);
  }

  lemma UnwoundSplits(cfg: Config, actions: seq<Action>, t: TaskId, id: SessionId, evidence: Evidence)
    requires actions != []
    ensures var n := |actions| - 1;
      Unwound(cfg, actions, t, id, evidence) <==>
        Unwound(cfg, actions[..n], t, id, evidence) || UnwindsLast(cfg, Run(cfg, actions[..n]).state, actions[n], t, id, evidence)
  {
    var n := |actions| - 1;
    if Unwound(cfg, actions, t, id, evidence) {
      var m: nat :| UnwindsAt(cfg, actions, m, t, id, evidence);
      LastOrBefore(cfg, actions, m, t, id, evidence);
    }
    if Unwound(cfg, actions[..n], t, id, evidence) {
      var m: nat :| UnwindsAt(cfg, actions[..n], m, t, id, evidence);
      LastOrBefore(cfg, actions, m, t, id, evidence);
    }
    LastOrBefore(cfg, actions, n, t, id, evidence);
  }

  /** The events of a run tell exactly the actions that ended a notarization, and those over which a handler unwound. */
  lemma {:induction false} MetIffEnded(cfg: Config, actions: seq<Action>, t: TaskId, id: SessionId, evidence: Evidence)
    ensures Tells(Run(cfg, actions).trace, t, id, evidence, Ended(cfg, actions, t, id, evidence), Unwound(cfg, actions, t, id, evidence))
  {
    if actions != [] {
      var n := |actions| - 1;
      var h := Run(cfg, actions[..n]);
      MetIffEnded(cfg, actions[..n], t, id, evidence);
      Reachable(cfg, actions[..n]);
      StepTells(cfg, h.state, actions[n], t, id, evidence);
      EndedSplits(cfg, actions, t, id, evidence);
      UnwoundSplits(cfg, actions, t, id, evidence);
      TellsBoth(h.trace, Step(cfg, h.state, actions[n]).1, t, id, evidence);
    }
  }

  lemma TellsBoth(trace: seq<Event>, events: seq<Event>, t: TaskId, id: SessionId, evidence: Evidence)
    ensures Tells(trace + events, t, id, evidence,
                  EvidenceMet(t, id, evidence) in trace || EvidenceMet(t, id, evidence) in events,
                  NotarizationUnwound(t, id, evidence) in trace || NotarizationUnwound(t, id, evidence) in events)
  {}

  lemma {:induction false} NoneUnwoundIff(trace: seq<Event>)
    ensures Count(trace, Unwinding) == 0 <==> forall t, id, evidence :: NotarizationUnwound(t, id, evidence) !in trace
  {
    if trace != [] {
      NoneUnwoundIff(trace[1..]);
      if trace[0].NotarizationUnwound? {
        assert NotarizationUnwound(trace[0].task, trace[0].id, trace[0].evidence) in trace;
      } else {
        forall t, id, evidence
          ensures NotarizationUnwound(t, id, evidence) in trace <==> NotarizationUnwound(t, id, evidence) in trace[1..]
        {
          assert trace == [trace[0]] + trace[1..];
        }
      }
    }
  }

  /** The gauge is the number of notarizations under way exactly if no action of the run ended one over evidence that
      makes its handler panic. */
  lemma GaugeIff(cfg: Config, actions: seq<Action>)
    ensures var s := Run(cfg, actions).state;
      s.shared.active == |Members(s.tasks, Active)| <==> forall t, id, evidence :: !Unwound(cfg, actions, t, id, evidence)
  {
    PermitAccounting(cfg, actions);
    var trace := Run(cfg, actions).trace;
    NoneUnwoundIff(trace);
    forall t, id, evidence
      ensures NotarizationUnwound(t, id, evidence) in trace <==> Unwound(cfg, actions, t, id, evidence)
    {
      MetIffEnded(cfg, actions, t, id, evidence);
    }
  }

  /** A session is notarized once in any run: there is one claimant and one evidence. */
  lemma OneNotarization(cfg: Config, actions: seq<Action>, t: TaskId, t': TaskId, id: SessionId, evidence: Evidence, evidence': Evidence)
    requires EvidenceMet(t, id, evidence) in Run(cfg, actions).trace
    requires EvidenceMet(t', id, evidence') in Run(cfg, actions).trace
    ensures t == t' && evidence == evidence'
  {
    AtMostOnce(cfg, actions);
    var trace := Run(cfg, actions).trace;
    var i :| 0 <= i < |trace| && trace[i] == EvidenceMet(t, id, evidence);
    var j :| 0 <= j < |trace| && trace[j] == EvidenceMet(t', id, evidence');
    assert KeyOf(trace[i]) == KeyOf(trace[j]);
  }
}
