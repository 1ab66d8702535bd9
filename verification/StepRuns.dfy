/** Whole runs of the step protocol: what holds at every moment, delegated and cooperative. */
module StepRuns {
  import opened Prelude
  import opened Decimal
  import opened StepStore
  import opened StepProtocol
  import opened StepProofs
  import Graph

  function Start(sessions: nat): World {
    World(Shelf(map[], [], map[]), seq(sessions, _ => Session(None, Idle)), {})
  }

  ghost predicate IsRun(worlds: seq<World>, actions: seq<Action>) {
    && |worlds| == |actions| + 1 && worlds[0] == Start(|worlds[0].sessions|)
    && forall i | 0 <= i < |actions| :: Enabled(worlds[i], actions[i]) && worlds[i + 1] == Apply(worlds[i], actions[i])
  }

  lemma {:induction false} EveryRunIsSafe(worlds: seq<World>, actions: seq<Action>, k: nat)
    requires IsRun(worlds, actions) && k < |worlds|
    ensures Inv(worlds[k])
  {
    hide Enabled, Apply, Inv;
    if k == 0 {
      StartIsSafe(|worlds[0].sessions|);
    } else {
      EveryRunIsSafe(worlds, actions, k - 1);
      StepKeeps(worlds[k - 1], actions[k - 1]);
    }
  }

  lemma StartIsSafe(sessions: nat)
    ensures Inv(Start(sessions))
  {
  }

  // ---- delegated runs --------------------------------------------------------------------------

  ghost function InFlight(w: World, id: string, step: string): set<int> {
    set i | 0 <= i < |w.sessions| && HoldsStep(w.sessions[i], id, step)
  }

  ghost function Results(events: seq<Event>, step: string): set<int> {
    set k | 0 <= k < |events| && events[k].StepResult? && events[k].step == step
  }

  /** At most one execution of a step is in flight, at most one terminal result is recorded, and not both while the limb runs. */
  lemma DelegatedAtMostOnce(worlds: seq<World>, actions: seq<Action>, k: nat, id: string, step: string)
    requires IsRun(worlds, actions) && k < |worlds|
    ensures |InFlight(worlds[k], id, step)| <= 1
    ensures id in worlds[k].shelf.runs && worlds[k].shelf.runs[id].delegated ==>
      && |Results(worlds[k].shelf.runs[id].events, step)| <= 1
      && forall i | i in InFlight(worlds[k], id, step) && !worlds[k].sessions[i].phase.Finished? ::
           Results(worlds[k].shelf.runs[id].events, step) == {}
  {
    hide Enabled, Apply, HoldsStep;
    EveryRunIsSafe(worlds, actions, k);
    var w := worlds[k];
    forall i, j | i in InFlight(w, id, step) && j in InFlight(w, id, step) ensures i == j {
      if i != j {
        OneHolder(w, i, j, id, step);
      }
    }
    Graph.AtMostOne(InFlight(w, id, step));
    if id in w.shelf.runs && w.shelf.runs[id].delegated {
      var run := w.shelf.runs[id];
      Graph.AtMostOne(Results(run.events, step));
      forall i | i in InFlight(w, id, step) && !w.sessions[i].phase.Finished? ensures Results(run.events, step) == {} {
        NoResultYet(w, i, id, step);
      }
    }
  }

  lemma NoResultYet(w: World, i: nat, id: string, step: string)
    requires Inv(w) && i < |w.sessions| && HoldsStep(w.sessions[i], id, step) && !w.sessions[i].phase.Finished?
    requires id in w.shelf.runs
    ensures Results(w.shelf.runs[id].events, step) == {}
  {
    assert SessionOk(w, w.sessions[i]);
    var events := w.shelf.runs[id].events;
    forall k: nat | k < |events| && events[k].StepResult? ensures events[k].step != step {
      SeenAt(events, k);
    }
  }

  /** A step can be claimed exactly when it has no terminal result and nobody is at it: a refused step stays retryable. */
  lemma ClaimableWhenFree(worlds: seq<World>, actions: seq<Action>, k: nat, id: string, step: string)
    requires IsRun(worlds, actions) && k < |worlds| && id in worlds[k].shelf.runs
    ensures Claimable(worlds[k].shelf, id, step) <==>
      !Recorded(worlds[k].shelf.runs[id].events, step) && InFlight(worlds[k], id, step) == {}
  {
    hide Enabled, Apply, HoldsStep, Recorded;
    EveryRunIsSafe(worlds, actions, k);
    var w := worlds[k];
    if step in Held(w.shelf, id) {
      assert Reserved(w, id, step);
      var i :| 0 <= i < |w.sessions| && HoldsStep(w.sessions[i], id, step);
      assert i in InFlight(w, id, step);
    } else {
      assert forall i | 0 <= i < |w.sessions| :: !HoldsStep(w.sessions[i], id, step);
    }
  }

  // ---- order -----------------------------------------------------------------------------------

  /** In either mode a result for a step stands behind an ok result of every earlier step. */
  lemma ResultsFollowUpstream(worlds: seq<World>, actions: seq<Action>, k: nat, id: string, m: nat, j: nat)
    requires IsRun(worlds, actions) && k < |worlds| && id in worlds[k].shelf.runs
    requires m < |worlds[k].shelf.runs[id].events| && worlds[k].shelf.runs[id].events[m].StepResult?
    requires 1 <= j < StepNumber(worlds[k].shelf.runs[id].events[m].step)
    ensures StepResult(DigitsOf(j), true) in worlds[k].shelf.runs[id].events[..m]
  {
    hide Enabled, Apply, ClaimsOk, SessionOk, DigitsOf;
    EveryRunIsSafe(worlds, actions, k);
    var run := worlds[k].shelf.runs[id];
    assert Justified(run, m);
    assert RanOk(run.events[..m], DigitsOf(j));
  }

  /** In cooperative mode it also stands behind a grant of the same step under the pinned plan. */
  lemma ResultsFollowGrants(worlds: seq<World>, actions: seq<Action>, k: nat, id: string, m: nat)
    requires IsRun(worlds, actions) && k < |worlds| && id in worlds[k].shelf.runs && !worlds[k].shelf.runs[id].delegated
    requires m < |worlds[k].shelf.runs[id].events| && worlds[k].shelf.runs[id].events[m].StepResult?
    ensures Granted(worlds[k].shelf.runs[id].events[m].step, worlds[k].shelf.runs[id].planSha) in worlds[k].shelf.runs[id].events[..m]
  {
    hide Enabled, Apply, ClaimsOk, SessionOk, Clear;
    EveryRunIsSafe(worlds, actions, k);
    var run := worlds[k].shelf.runs[id];
    assert Justified(run, m);
  }

  /** A run's events are only ever appended to, until it is evicted; its id does not come back. */
  lemma EventsOnlyGrow(w: World, a: Action, id: string)
    requires Inv(w) && Enabled(w, a) && id in w.used
    ensures id in Apply(w, a).used
    ensures id in Apply(w, a).shelf.runs ==>
      id in w.shelf.runs && w.shelf.runs[id].events <= Apply(w, a).shelf.runs[id].events
  {
    hide ClaimsOk, SessionOk, RunOk, Shelved;
    if a.Create? {
      CreatedHolds(w.shelf, a.id, a.run, a.cap);
    }
  }

  // ---- cooperative runs ------------------------------------------------------------------------

  /** No two sessions are bound to the run. */
  predicate Solo(w: World, id: string) {
    forall i, j | 0 <= i < j < |w.sessions| && w.sessions[i].bound == Some(id) :: w.sessions[j].bound != Some(id)
  }

  ghost predicate SoloOk(w: World, id: string) {
    id in w.shelf.runs && !w.shelf.runs[id].delegated ==>
      && OncePerStep(w.shelf.runs[id].events)
      && forall i | 0 <= i < |w.sessions| && w.sessions[i].bound == Some(id) && w.sessions[i].phase.Accepting? ::
           !Recorded(w.shelf.runs[id].events, w.sessions[i].phase.step)
  }

  lemma OnceAppends(events: seq<Event>, e: Event)
    requires OncePerStep(events) && (e.StepResult? ==> !Recorded(events, e.step))
    ensures OncePerStep(events + [e])
  {
    forall i: nat | i < |events| && events[i].StepResult? ensures e.StepResult? ==> events[i].step != e.step {
      SeenAt(events, i);
    }
  }

  /** An append by a session that is alone on the run, or of no result. */
  lemma SoloAppends(w: World, s: nat, e: Event, phase: Phase, id: string)
    requires s < |w.sessions| && w.sessions[s].bound.Some? && Solo(w, id) && SoloOk(w, id) && !phase.Accepting?
    requires e.StepResult? && w.sessions[s].bound.value == id && id in w.shelf.runs && !w.shelf.runs[id].delegated ==>
      !Recorded(w.shelf.runs[id].events, e.step)
    ensures SoloOk(Set(Append(w, s, e), s, phase), id)
  {
    hide Recorded, OncePerStep;
    if id in w.shelf.runs && !w.shelf.runs[id].delegated && w.sessions[s].bound.value == id {
      OnceAppends(w.shelf.runs[id].events, e);
      SeenGrow(w.shelf.runs[id].events, e);
    }
  }

  lemma SoloKeeps(w: World, a: Action, id: string)
    requires Inv(w) && Enabled(w, a) && Solo(w, id) && SoloOk(w, id)
    ensures SoloOk(Apply(w, a), id)
  {
    hide ClaimsOk, RunOk, Shelved, Recorded, OncePerStep, Clear;
    if a.Create? {
      CreatedHolds(w.shelf, a.id, a.run, a.cap);
      assert OncePerStep([]) by { NoneTwice(); }
      forall i | 0 <= i < |w.sessions| ensures SessionOk(w, w.sessions[i]) {
      }
    } else {
      var me := w.sessions[a.s];
      assert SessionOk(w, me);
      match a {
        case Refuse(s, step) => SoloAppends(w, s, StepRefused(step), Idle, id);
        case Grant(s) => SoloAppends(w, s, Granted(me.phase.step, me.phase.planSha), Idle, id);
        case Report(s) => SoloAppends(w, s, StepResult(me.phase.step, me.phase.ok), Idle, id);
        case Record(s) =>
          if me.phase.event.Some? {
            SoloAppends(w, s, me.phase.event.value, Finished(me.phase.step), id);
          }
        case _ =>
      }
    }
  }

  lemma NoneTwice()
    ensures OncePerStep([])
  {
  }

  /** With one session at a time on a cooperative run, no step is recorded twice. */
  lemma {:induction false} CooperativeOnceWhenSolo(worlds: seq<World>, actions: seq<Action>, k: nat, id: string)
    requires IsRun(worlds, actions) && k < |worlds| && forall i | 0 <= i < k :: Solo(worlds[i], id)
    ensures SoloOk(worlds[k], id)
  {
    hide Enabled, Apply, Inv, Solo, SoloOk;
    if k == 0 {
      assert SoloOk(worlds[0], id) by { StartIsSolo(|worlds[0].sessions|, id); }
    } else {
      CooperativeOnceWhenSolo(worlds, actions, k - 1, id);
      EveryRunIsSafe(worlds, actions, k - 1);
      SoloKeeps(worlds[k - 1], actions[k - 1], id);
    }
  }

  lemma StartIsSolo(sessions: nat, id: string)
    ensures SoloOk(Start(sessions), id)
  {
  }
}
