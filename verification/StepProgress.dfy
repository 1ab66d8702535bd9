/** When a run can still be finished: from which worlds some continuation records an ok result for every step. */
module StepProgress {
  import opened Prelude
  import opened Decimal
  import opened StepStore
  import opened StepProtocol
  import opened StepProofs
  import opened StepRuns
  import opened StepTwice

  /** Every step of the plan has an ok result. */
  ghost predicate AllRan(run: Run) {
    forall j: nat | 1 <= j <= run.steps :: StepResult(DigitsOf(j), true) in run.events
  }

  /** Ok results of the steps 1 to n, one behind the other. */
  ghost predicate RanInOrder(events: seq<Event>, n: nat) {
    exists at: seq<nat> ::
      && |at| == n && (forall i, j | 0 <= i < j < n :: at[i] < at[j])
      && forall j | 0 <= j < n :: at[j] < |events| && events[at[j]] == StepResult(DigitsOf(j + 1), true)
  }

  /** Some continuation records ok results for all steps of the run, in order. */
  ghost predicate CanFinish(w: World, id: string) {
    exists actions, w' :: Leads(w, actions, w') && id in w'.shelf.runs
                          && RanInOrder(w'.shelf.runs[id].events, w'.shelf.runs[id].steps)
  }

  ghost predicate FailurePending(w: World, id: string, step: string) {
    exists i :: 0 <= i < |w.sessions| && w.sessions[i] == Session(Some(id), Returned(step, Some(StepResult(step, false))))
  }

  ghost predicate SuccessPending(w: World, id: string, step: string) {
    exists i :: 0 <= i < |w.sessions| && w.sessions[i] == Session(Some(id), Accepting(step, true))
  }

  /**
    A step is open if it ran, or has no result and its limb has not come back with a failure, or its success was accepted
    and is about to be recorded.
   */
  ghost predicate Open(w: World, id: string, step: string)
    requires id in w.shelf.runs
  {
    var events := w.shelf.runs[id].events;
    || RanOk(events, step)
    || (!Recorded(events, step) && !FailurePending(w, id, step))
    || SuccessPending(w, id, step)
  }

  ghost predicate AllOpen(w: World, id: string)
    requires id in w.shelf.runs
  {
    forall j: nat | 1 <= j <= w.shelf.runs[id].steps :: Open(w, id, DigitsOf(j))
  }

  // ---- results stand in order ------------------------------------------------------------------

  lemma {:induction false} OrderedUpTo(run: Run, m: nat, n: nat)
    requires RunOk(run) && m <= |run.events| && UpstreamRan(run.events[..m], n + 1)
    ensures RanInOrder(run.events[..m], n)
    decreases n
  {
    hide DigitsOf;
    if n == 0 {
      var at: seq<nat> := [];
      assert RanInOrder(run.events[..m], 0) by {
        assert |at| == 0;
      }
    } else {
      assert RanOk(run.events[..m], DigitsOf(n));
      var k: nat :| k < m && run.events[..m][k] == StepResult(DigitsOf(n), true);
      assert run.events[k] == StepResult(DigitsOf(n), true);
      assert Justified(run, k);
      assert UpstreamRan(run.events[..k], n) by {
        NumberOfDigits(n);
      }
      OrderedUpTo(run, k, n - 1);
      OneMore(run.events, k, m, n);
    }
  }

  lemma NumberOfDigits(n: nat)
    requires n >= 1
    ensures StepNumber(DigitsOf(n)) == n
  {
  }

  lemma OneMore(events: seq<Event>, k: nat, m: nat, n: nat)
    requires k < m <= |events| && n >= 1 && events[k] == StepResult(DigitsOf(n), true) && RanInOrder(events[..k], n - 1)
    ensures RanInOrder(events[..m], n)
  {
    hide DigitsOf;
    var at: seq<nat> :| |at| == n - 1 && (forall i, j | 0 <= i < j < n - 1 :: at[i] < at[j])
      && forall j | 0 <= j < n - 1 :: at[j] < k && events[..k][at[j]] == StepResult(DigitsOf(j + 1), true);
    var more := at + [k];
    forall j | 0 <= j < n ensures more[j] < m && events[..m][more[j]] == StepResult(DigitsOf(j + 1), true) {
      if j < n - 1 {
        assert more[j] == at[j] && events[..k][at[j]] == events[..m][at[j]];
      }
    }
    assert |more| == n && forall i, j | 0 <= i < j < n :: more[i] < more[j];
  }

  lemma AllRanInOrder(run: Run)
    requires RunOk(run)
    ensures AllRan(run) <==> RanInOrder(run.events, run.steps)
  {
    hide DigitsOf, RunOk;
    if AllRan(run) {
      assert run.events[..|run.events|] == run.events;
      assert UpstreamRan(run.events, run.steps + 1);
      OrderedUpTo(run, |run.events|, run.steps);
    }
    if RanInOrder(run.events, run.steps) {
      var n := run.steps;
      var at: seq<nat> :| |at| == n && (forall i, j | 0 <= i < j < n :: at[i] < at[j])
        && forall j | 0 <= j < n :: at[j] < |run.events| && run.events[at[j]] == StepResult(DigitsOf(j + 1), true);
      forall j: nat | 1 <= j <= n ensures StepResult(DigitsOf(j), true) in run.events {
        assert run.events[at[j - 1]] == StepResult(DigitsOf(j - 1 + 1), true);
      }
    }
  }

  // ---- a step that is not open stays so --------------------------------------------------------

  /** What a step that cannot run any more shows. */
  ghost predicate Lost(w: World, id: string, step: string) {
    id in w.shelf.runs ==> !Open(w, id, step)
  }

  lemma LostStays(w: World, a: Action, id: string, step: string)
    requires Inv(w) && Enabled(w, a) && id in w.used && Lost(w, id, step)
    ensures Lost(Apply(w, a), id, step)
  {
    hide Open;
    if a.Create? {
      LostByCreate(w, a, id, step);
    } else if id in w.shelf.runs {
      LostBySession(w, a, id, step);
    } else {
      PlanKept(w, a, id);
    }
  }

  lemma LostByCreate(w: World, a: Action, id: string, step: string)
    requires Inv(w) && Enabled(w, a) && a.Create? && id in w.used && Lost(w, id, step)
    ensures Lost(Apply(w, a), id, step)
  {
    hide ClaimsOk, SessionOk, RunOk, Shelved, Recorded;
    CreatedHolds(w.shelf, a.id, a.run, a.cap);
    var w' := Apply(w, a);
    assert w'.sessions == w.sessions;
  }

  /** A result is new: it was the one that the acting session had at hand. */
  lemma NewEvent(w: World, a: Action, id: string, e: Event)
    requires Inv(w) && Enabled(w, a) && !a.Create? && id in w.shelf.runs && e.StepResult?
    requires e in Apply(w, a).shelf.runs[id].events && e !in w.shelf.runs[id].events
    ensures w.sessions[a.s].bound == Some(id)
    ensures w.sessions[a.s].phase == Returned(e.step, Some(e)) || w.sessions[a.s].phase == Accepting(e.step, e.ok)
  {
    hide Gate, Acceptable, Claimable, ClaimsOk, RunOk, Clear, Recorded;
    assert SessionOk(w, w.sessions[a.s]);
  }

  lemma OnlyRecords(w: World, a: Action, id: string, e: Event)
    requires Enabled(w, a) && !a.Create? && id in w.shelf.runs && e.StepResult?
    requires w.sessions[a.s] == Session(Some(id), Returned(e.step, Some(e)))
    ensures e in Apply(w, a).shelf.runs[id].events
  {
    hide Gate, Acceptable, Claimable;
    var run := Apply(w, a).shelf.runs[id];
    assert run.events[|run.events| - 1] == e;
  }

  lemma NewAcceptance(w: World, a: Action, id: string, step: string, i: nat)
    requires Enabled(w, a) && !a.Create? && i < |w.sessions| && id in w.shelf.runs
    requires Apply(w, a).sessions[i] == Session(Some(id), Accepting(step, true)) && w.sessions[i] != Session(Some(id), Accepting(step, true))
    ensures !Recorded(w.shelf.runs[id].events, step) && !w.shelf.runs[id].delegated
  {
    hide Gate, Claimable;
  }

  lemma ResidentAfter(w: World, a: Action, id: string)
    requires Enabled(w, a) && !a.Create? && id in w.shelf.runs
    ensures id in Apply(w, a).shelf.runs && w.shelf.runs[id].events <= Apply(w, a).shelf.runs[id].events
    ensures |Apply(w, a).sessions| == |w.sessions|
    ensures forall i | 0 <= i < |w.sessions| && i != a.s :: Apply(w, a).sessions[i] == w.sessions[i]
  {
    hide Gate, Acceptable, Claimable;
  }

  /** Of two sessions that stand at one step of one run, only one can hold it. */
  lemma FailureBlocks(w: World, id: string, step: string, i: nat, j: nat)
    requires Inv(w) && i < |w.sessions| && j < |w.sessions| && id in w.shelf.runs
    requires w.sessions[i] == Session(Some(id), Returned(step, Some(StepResult(step, false))))
    ensures w.sessions[j] != Session(Some(id), Returned(step, Some(StepResult(step, true))))
  {
    if i != j && HoldsStep(w.sessions[j], id, step) {
      OneHolder(w, i, j, id, step);
    }
  }

  lemma DelegatedReturns(w: World, id: string, step: string, i: nat)
    requires Inv(w) && i < |w.sessions| && id in w.shelf.runs
    requires w.sessions[i].bound == Some(id) && w.sessions[i].phase.Returned? && w.sessions[i].phase.step == step
    ensures w.shelf.runs[id].delegated && !Recorded(w.shelf.runs[id].events, step)
  {
    assert SessionOk(w, w.sessions[i]);
  }

  lemma NoNewSuccess(w: World, a: Action, id: string, step: string)
    requires Inv(w) && Enabled(w, a) && !a.Create? && id in w.shelf.runs && !Open(w, id, step)
    requires id in Apply(w, a).shelf.runs
    ensures StepResult(step, true) !in Apply(w, a).shelf.runs[id].events
  {
    hide Enabled, Apply, Inv, Recorded;
    var e := StepResult(step, true);
    NotOpen(w, id, step);
    if e in Apply(w, a).shelf.runs[id].events {
      NewEvent(w, a, id, e);
      ActorExists(w, a);
      if w.sessions[a.s].phase.Returned? {
        DelegatedReturns(w, id, step, a.s);
        var i :| 0 <= i < |w.sessions| && w.sessions[i] == Session(Some(id), Returned(step, Some(StepResult(step, false))));
        FailureBlocks(w, id, step, i, a.s);
      }
    }
  }

  lemma NotOpen(w: World, id: string, step: string)
    requires id in w.shelf.runs && !Open(w, id, step)
    ensures StepResult(step, true) !in w.shelf.runs[id].events
    ensures forall i | 0 <= i < |w.sessions| :: w.sessions[i] != Session(Some(id), Accepting(step, true))
    ensures !Recorded(w.shelf.runs[id].events, step) ==> FailurePending(w, id, step)
  {
    hide Recorded;
    assert !SuccessPending(w, id, step);
  }

  lemma ActorExists(w: World, a: Action)
    requires Enabled(w, a) && !a.Create?
    ensures a.s < |w.sessions|
  {
  }

  lemma LostBySession(w: World, a: Action, id: string, step: string)
    requires Inv(w) && Enabled(w, a) && !a.Create? && id in w.shelf.runs && !Open(w, id, step)
    ensures id in Apply(w, a).shelf.runs && !Open(Apply(w, a), id, step)
  {
    hide Enabled, Apply, Inv;
    var w' := Apply(w, a);
    ResidentAfter(w, a, id);
    NoNewSuccess(w, a, id, step);
    NotOpen(w, id, step);
    if SuccessPending(w', id, step) {
      var i :| 0 <= i < |w'.sessions| && w'.sessions[i] == Session(Some(id), Accepting(step, true));
      NewAcceptance(w, a, id, step, i);
      var j :| 0 <= j < |w.sessions| && w.sessions[j] == Session(Some(id), Returned(step, Some(StepResult(step, false))));
      DelegatedReturns(w, id, step, j);
    }
    if !Recorded(w'.shelf.runs[id].events, step) {
      StillUnrecorded(w.shelf.runs[id].events, w'.shelf.runs[id].events, step);
      var i :| 0 <= i < |w.sessions| && w.sessions[i] == Session(Some(id), Returned(step, Some(StepResult(step, false))));
      if a.s == i {
        OnlyRecords(w, a, id, StepResult(step, false));
      }
      assert FailurePending(w', id, step);
    }
  }

  lemma StillUnrecorded(events: seq<Event>, more: seq<Event>, step: string)
    requires events <= more && !Recorded(more, step)
    ensures !Recorded(events, step)
  {
    assert forall e | e in events :: e in more;
  }

  lemma {:induction false} LostForGood(w: World, actions: seq<Action>, w': World, id: string, step: string)
    requires Inv(w) && Leads(w, actions, w') && id in w.used && Lost(w, id, step)
    ensures Lost(w', id, step)
    decreases |actions|
  {
    hide Enabled, Apply, Inv, Lost;
    if actions != [] {
      StepKeeps(w, actions[0]);
      PlanKept(w, actions[0], id);
      LostStays(w, actions[0], id, step);
      LostForGood(Apply(w, actions[0]), actions[1..], w', id, step);
    }
  }

  // ---- quieting the other sessions -------------------------------------------------------------

  /** Idle, or about to report a failure, which is left for later. */
  predicate Quiet(phase: Phase) {
    phase.Idle? || (phase.Accepting? && !phase.ok)
  }

  lemma OpenStays(w: World, s: nat, id: string, step: string)
    requires Inv(w) && s < |w.sessions| && !Quiet(w.sessions[s].phase) && Enabled(w, NextAction(s, w.sessions[s].phase))
    requires id in w.shelf.runs && Open(w, id, step)
    ensures id in Apply(w, NextAction(s, w.sessions[s].phase)).shelf.runs
    ensures Open(Apply(w, NextAction(s, w.sessions[s].phase)), id, step)
  {
    hide Enabled, Apply, Inv;
    var a := NextAction(s, w.sessions[s].phase);
    var w' := Apply(w, a);
    ResidentAfter(w, a, id);
    var before, events := w.shelf.runs[id].events, w'.shelf.runs[id].events;
    assert forall e | e in before :: e in events;
    if SuccessPending(w, id, step) {
      var k :| 0 <= k < |w.sessions| && w.sessions[k] == Session(Some(id), Accepting(step, true));
      if k == s {
        ReportsSuccess(w, s, id, step);
      } else {
        assert w'.sessions[k] == Session(Some(id), Accepting(step, true));
      }
    } else if !RanOk(before, step) {
      NoNewFailure(w, s, id, step);
      ReturnsNothing(w, s, id, step);
      var failure := Session(Some(id), Returned(step, Some(StepResult(step, false))));
      assert forall k | 0 <= k < |w.sessions| :: w.sessions[k] != failure;
      assert forall k | 0 <= k < |w'.sessions| :: w'.sessions[k] != failure;
    }
  }

  lemma ReportsSuccess(w: World, s: nat, id: string, step: string)
    requires s < |w.sessions| && id in w.shelf.runs && w.sessions[s] == Session(Some(id), Accepting(step, true))
    ensures Enabled(w, Report(s)) && id in Apply(w, Report(s)).shelf.runs
    ensures RanOk(Apply(w, Report(s)).shelf.runs[id].events, step)
  {
    var events := Apply(w, Report(s)).shelf.runs[id].events;
    assert events[|events| - 1] == StepResult(step, true);
  }

  lemma ReturnsNothing(w: World, s: nat, id: string, step: string)
    requires s < |w.sessions| && Enabled(w, NextAction(s, w.sessions[s].phase)) && !w.sessions[s].phase.Idle?
    ensures Apply(w, NextAction(s, w.sessions[s].phase)).sessions[s] != Session(Some(id), Returned(step, Some(StepResult(step, false))))
  {
  }

  /** The next action of such a session records a failure only where one was pending. */
  lemma NoNewFailure(w: World, s: nat, id: string, step: string)
    requires Inv(w) && s < |w.sessions| && !Quiet(w.sessions[s].phase) && Enabled(w, NextAction(s, w.sessions[s].phase))
    requires id in w.shelf.runs && !FailurePending(w, id, step) && !Recorded(w.shelf.runs[id].events, step)
    ensures id in Apply(w, NextAction(s, w.sessions[s].phase)).shelf.runs
    ensures var events := Apply(w, NextAction(s, w.sessions[s].phase)).shelf.runs[id].events;
            Recorded(events, step) ==> RanOk(events, step)
  {
    hide Enabled, Apply, Inv;
    var a := NextAction(s, w.sessions[s].phase);
    ResidentAfter(w, a, id);
    assert forall i | 0 <= i < |w.sessions| :: w.sessions[i] != Session(Some(id), Returned(step, Some(StepResult(step, false))));
    var e := StepResult(step, false);
    if e in Apply(w, a).shelf.runs[id].events {
      NewEvent(w, a, id, e);
    }
  }

  lemma NextIsEnabled(w: World, s: nat)
    requires Inv(w) && s < |w.sessions| && !w.sessions[s].phase.Idle?
    ensures var a := NextAction(s, w.sessions[s].phase);
            && Enabled(w, a) && !a.Create? && a.s == s && |Apply(w, a).sessions| == |w.sessions|
            && Distance(Apply(w, a).sessions[s].phase) < Distance(w.sessions[s].phase)
  {
    assert SessionOk(w, w.sessions[s]);
  }

  lemma OnwardTwice(w: World, w1: World, w2: World, s: nat)
    requires Onward(w, w1, s) && Onward(w1, w2, s)
    ensures Onward(w, w2, s)
  {
  }

  lemma {:induction false} Calm(w: World, s: nat, id: string) returns (actions: seq<Action>, w': World)
    requires Inv(w) && s < |w.sessions| && id in w.shelf.runs && AllOpen(w, id)
    ensures Inv(w') && Onward(w, w', s) && Leads(w, actions, w') && Quiet(w'.sessions[s].phase) && AllOpen(w', id)
    ensures w.sessions[s].phase.Idle? ==> w' == w
    decreases Distance(w.sessions[s].phase)
  {
    hide Enabled, Apply, Inv, Open;
    if Quiet(w.sessions[s].phase) {
      actions, w' := [], w;
    } else {
      var a := NextAction(s, w.sessions[s].phase);
      NextIsEnabled(w, s);
      var w1 := Apply(w, a);
      OneMoves(w, a);
      LeadsOne(w, a);
      StepKeeps(w, a);
      forall j: nat | 1 <= j <= w.shelf.runs[id].steps ensures Open(w1, id, DigitsOf(j)) {
        OpenStays(w, s, id, DigitsOf(j));
      }
      var more;
      more, w' := Calm(w1, s, id);
      LeadsOn(w, [a], w1, more, w');
      OnwardTwice(w, w1, w', s);
      actions := [a] + more;
    }
  }

  /** The first n sessions quiet; one that is idle is left alone. */
  lemma {:induction false} CalmAll(w: World, n: nat, id: string) returns (actions: seq<Action>, w': World)
    requires Inv(w) && n <= |w.sessions| && id in w.shelf.runs && AllOpen(w, id)
    ensures Inv(w') && Leads(w, actions, w') && |w'.sessions| == |w.sessions|
    ensures id in w'.shelf.runs && SamePlan(w.shelf.runs[id], w'.shelf.runs[id]) && AllOpen(w', id)
    ensures forall s | 0 <= s < n :: Quiet(w'.sessions[s].phase)
    ensures forall s | 0 <= s < |w.sessions| && (n <= s || w.sessions[s].phase.Idle?) :: w'.sessions[s] == w.sessions[s]
    decreases n
  {
    hide Enabled, Apply, Inv, Open;
    if n == 0 {
      actions, w' := [], w;
    } else {
      var first, w1 := CalmAll(w, n - 1, id);
      var more;
      more, w' := Calm(w1, n - 1, id);
      LeadsOn(w, first, w1, more, w');
      actions := first + more;
    }
  }

  // ---- running the steps -----------------------------------------------------------------------

  /** Session i is free for the run, nobody else is at it, and no step of the plan has failed. */
  ghost predicate Ready(w: World, i: nat, id: string) {
    && Inv(w) && i < |w.sessions| && w.sessions[i] == Session(Some(id), Idle)
    && (forall s | 0 <= s < |w.sessions| :: Quiet(w.sessions[s].phase))
    && id in w.shelf.runs && Runnable(w.shelf.runs[id])
    && forall j: nat | 1 <= j <= w.shelf.runs[id].steps ::
         RanOk(w.shelf.runs[id].events, DigitsOf(j)) || !Recorded(w.shelf.runs[id].events, DigitsOf(j))
  }

  lemma NobodyHolds(w: World, id: string, step: string)
    requires Inv(w) && forall s | 0 <= s < |w.sessions| :: Quiet(w.sessions[s].phase)
    ensures step !in Held(w.shelf, id)
  {
    assert forall s | 0 <= s < |w.sessions| :: !HoldsStep(w.sessions[s], id, step);
    assert step in Held(w.shelf, id) ==> Reserved(w, id, step);
  }

  /** One cooperative step from the gate to its result. */
  lemma CooperateStep(w: World, i: nat, id: string, step: string) returns (actions: seq<Action>, w': World)
    requires i < |w.sessions| && w.sessions[i] == Session(Some(id), Idle)
    requires id in w.shelf.runs && !w.shelf.runs[id].delegated && !Recorded(w.shelf.runs[id].events, step)
    requires Gate(Some(w.shelf.runs[id]), step, w.shelf.runs[id].planSha).None?
    ensures Leads(w, actions, w') && w'.sessions == w.sessions && id in w'.shelf.runs
    ensures var run := w.shelf.runs[id];
            w'.shelf.runs[id] == run.(events := run.events + [Granted(step, run.planSha)] + [StepResult(step, true)])
  {
    var run := w.shelf.runs[id];
    GateOpens(Some(run), step, run.planSha);
    hide Gate;
    var a, b, c, d := Authorize(i, step, run.planSha), Grant(i), Accept(i, step, run.planSha, true), Report(i);
    var w1 := Apply(w, a);
    var w2 := Apply(w1, b);
    assert w2.sessions == w.sessions;
    assert w2.shelf.runs[id] == run.(events := run.events + [Granted(step, run.planSha)]);
    SeenGrow(run.events, Granted(step, run.planSha));
    var w3 := Apply(w2, c);
    w' := Apply(w3, d);
    assert w'.sessions == w.sessions;
    LeadsOne(w, a);
    LeadsOne(w1, b);
    LeadsOne(w2, c);
    LeadsOne(w3, d);
    hide Enabled, Apply, Leads;
    LeadsOn(w, [a], w1, [b], w2);
    LeadsOn(w, [a] + [b], w2, [c], w3);
    LeadsOn(w, [a] + [b] + [c], w3, [d], w');
    actions := [a] + [b] + [c] + [d];
  }

  lemma GateForNext(run: Run, k: nat)
    requires Runnable(run) && 1 <= k <= run.steps && forall j: nat | 1 <= j < k :: RanOk(run.events, DigitsOf(j))
    ensures Gate(Some(run), DigitsOf(k), run.planSha).None?
  {
    hide DigitsOf;
    NumberOfDigits(k);
  }

  /** What a step's ok result, with or without its grant, does to the results of all. */
  lemma AfterStep(events: seq<Event>, more: seq<Event>, step: string)
    requires events <= more && StepResult(step, true) in more
    requires forall e | e in more && e.StepResult? :: e in events || e == StepResult(step, true)
    ensures RanOk(more, step)
    ensures forall t | RanOk(events, t) :: RanOk(more, t)
    ensures forall t | t != step && !Recorded(events, t) :: !Recorded(more, t)
  {
    assert forall e | e in events :: e in more;
  }

  lemma RunStep(w: World, i: nat, id: string, k: nat) returns (actions: seq<Action>, w': World)
    requires Ready(w, i, id) && 1 <= k <= w.shelf.runs[id].steps
    requires forall j: nat | 1 <= j < k :: RanOk(w.shelf.runs[id].events, DigitsOf(j))
    ensures Leads(w, actions, w') && Ready(w', i, id) && SamePlan(w.shelf.runs[id], w'.shelf.runs[id])
    ensures forall j: nat | 1 <= j <= k :: RanOk(w'.shelf.runs[id].events, DigitsOf(j))
  {
    hide Gate, Inv, Leads, DigitsOf, Recorded, RanOk;
    var run, step := w.shelf.runs[id], DigitsOf(k);
    if RanOk(run.events, step) {
      actions, w' := [], w;
      assert Leads(w, [], w) by { NoMove(w); }
    } else {
      GateForNext(run, k);
      NobodyHolds(w, id, step);
      if run.delegated {
        assert Claimable(w.shelf, id, step);
        actions, w' := ExecuteStep(w, i, id, step, true);
      } else {
        actions, w' := CooperateStep(w, i, id, step);
      }
      var more := w'.shelf.runs[id].events;
      assert more[|more| - 1] == StepResult(step, true);
      AfterStep(run.events, more, step);
      LeadsKeeps(w, actions, w');
    }
  }

  lemma NoMove(w: World)
    ensures Leads(w, [], w)
  {
  }

  lemma {:induction false} RunUpTo(w: World, i: nat, id: string, k: nat) returns (actions: seq<Action>, w': World)
    requires Ready(w, i, id) && k <= w.shelf.runs[id].steps
    ensures Leads(w, actions, w') && Ready(w', i, id) && SamePlan(w.shelf.runs[id], w'.shelf.runs[id])
    ensures forall j: nat | 1 <= j <= k :: RanOk(w'.shelf.runs[id].events, DigitsOf(j))
    decreases k
  {
    hide Ready, Leads, RanOk, DigitsOf;
    if k == 0 {
      actions, w' := [], w;
      NoMove(w);
    } else {
      var first, w1 := RunUpTo(w, i, id, k - 1);
      var more;
      more, w' := RunStep(w1, i, id, k);
      LeadsOn(w, first, w1, more, w');
      actions := first + more;
    }
  }

  lemma QuietIsReady(w: World, i: nat, id: string)
    requires Inv(w) && i < |w.sessions| && w.sessions[i] == Session(Some(id), Idle)
    requires (forall s | 0 <= s < |w.sessions| :: Quiet(w.sessions[s].phase)) && id in w.shelf.runs
    requires Runnable(w.shelf.runs[id]) && AllOpen(w, id)
    ensures Ready(w, i, id)
  {
    hide Inv, Recorded, RanOk, DigitsOf;
    forall j: nat | 1 <= j <= w.shelf.runs[id].steps
      ensures RanOk(w.shelf.runs[id].events, DigitsOf(j)) || !Recorded(w.shelf.runs[id].events, DigitsOf(j))
    {
      assert Open(w, id, DigitsOf(j));
      assert !SuccessPending(w, id, DigitsOf(j));
    }
  }

  /**
    In every reachable world with an idle session bound to a runnable run, in either mode: some continuation records ok
    results for all its steps, in order, exactly if every step is open.
   */
  lemma CanFinishIff(sessions: nat, before: seq<Action>, w: World, i: nat, id: string)
    requires Leads(Start(sessions), before, w) && i < |w.sessions| && w.sessions[i] == Session(Some(id), Idle)
    requires id in w.shelf.runs && Runnable(w.shelf.runs[id])
    ensures CanFinish(w, id) <==> AllOpen(w, id)
  {
    hide Inv, Leads, Open, RanInOrder, Runnable, Start, RunOk;
    StartIsSafe(sessions);
    LeadsKeeps(Start(sessions), before, w);
    ResidentOk(w, id);
    if AllOpen(w, id) {
      var a, w1 := CalmAll(w, |w.sessions|, id);
      SameRunnable(w.shelf.runs[id], w1.shelf.runs[id]);
      QuietIsReady(w1, i, id);
      var b, w2 := RunUpTo(w1, i, id, w1.shelf.runs[id].steps);
      LeadsOn(w, a, w1, b, w2);
      LeadsKeeps(w1, b, w2);
      ResidentOk(w2, id);
      AllRanInOrder(w2.shelf.runs[id]);
      assert AllRan(w2.shelf.runs[id]);
      assert CanFinish(w, id);
    }
    if CanFinish(w, id) {
      var actions, w' :| Leads(w, actions, w') && id in w'.shelf.runs
                         && RanInOrder(w'.shelf.runs[id].events, w'.shelf.runs[id].steps);
      LeadsKeeps(w, actions, w');
      ResidentOk(w', id);
      AllRanInOrder(w'.shelf.runs[id]);
      PlanStays(w, actions, w', id);
      forall j: nat | 1 <= j <= w.shelf.runs[id].steps ensures Open(w, id, DigitsOf(j)) {
        OpenBefore(w, actions, w', id, DigitsOf(j));
      }
    }
  }

  lemma OpenBefore(w: World, actions: seq<Action>, w': World, id: string, step: string)
    requires Inv(w) && Leads(w, actions, w') && id in w.used && id in w.shelf.runs && id in w'.shelf.runs
    requires RanOk(w'.shelf.runs[id].events, step)
    ensures Open(w, id, step)
  {
    hide Inv, Leads;
    if !Open(w, id, step) {
      LostForGood(w, actions, w', id, step);
    }
  }

  /** So a run without a result, and none on its way, can always be finished. */
  lemma UntouchedCanFinish(sessions: nat, before: seq<Action>, w: World, i: nat, id: string)
    requires Leads(Start(sessions), before, w) && i < |w.sessions| && w.sessions[i] == Session(Some(id), Idle)
    requires id in w.shelf.runs && Runnable(w.shelf.runs[id])
    requires forall e | e in w.shelf.runs[id].events :: !e.StepResult?
    requires forall s | 0 <= s < |w.sessions| && w.sessions[s].bound == Some(id) :: !w.sessions[s].phase.Returned?
    ensures CanFinish(w, id)
  {
    hide Leads, Runnable, Start, CanFinish;
    CanFinishIff(sessions, before, w, i, id);
  }

  /** And one whose limb came back with a failure cannot: the failure stands, and the step is not claimed again. */
  lemma FailureEndsTheRun(id: string, planSha: string) returns (actions: seq<Action>, w: World)
    requires planSha != ""
    ensures Leads(Start(1), actions, w) && id in w.shelf.runs && w.shelf.runs[id].events == [StepResult("1", false)]
    ensures w.sessions == [Session(Some(id), Idle)] && Runnable(w.shelf.runs[id]) && !CanFinish(w, id)
  {
    var a, w1 := CreateAndBind(1, id, planSha, true);
    StepOne();
    hide Inv, Leads, Start, StepNumber;
    var b;
    b, w := ExecuteStep(w1, 0, id, "1", false);
    LeadsOn(Start(1), a, w1, b, w);
    actions := a + b;
    CanFinishIff(1, actions, w, 0, id);
    assert DigitsOf(1) == "1";
    assert w.shelf.runs[id].events[0] == StepResult("1", false);
    assert !Open(w, id, "1");
  }
}
