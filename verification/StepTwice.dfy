/** When a step is done twice: by two cooperative sessions, or under two ids of one number. */
module StepTwice {
  import opened Prelude
  import opened Decimal
  import opened StepStore
  import opened StepProtocol
  import opened StepProofs
  import opened StepRuns

  /** w' is reached from w by these actions. */
  ghost predicate Leads(w: World, actions: seq<Action>, w': World)
    decreases |actions|
  {
    if actions == [] then w == w'
    else Enabled(w, actions[0]) && Leads(Apply(w, actions[0]), actions[1..], w')
  }

  lemma {:induction false} LeadsOn(w: World, a: seq<Action>, w': World, b: seq<Action>, w'': World)
    requires Leads(w, a, w') && Leads(w', b, w'')
    ensures Leads(w, a + b, w'')
    decreases |a|
  {
    hide Enabled, Apply;
    if a == [] {
      assert a + b == b;
    } else {
      LeadsOn(Apply(w, a[0]), a[1..], w', b, w'');
      assert (a + b)[1..] == a[1..] + b;
    }
  }

  lemma LeadsOne(w: World, a: Action)
    requires Enabled(w, a)
    ensures Leads(w, [a], Apply(w, a))
  {
    hide Enabled, Apply;
    assert [a][1..] == [];
  }

  lemma {:induction false} LeadsKeeps(w: World, actions: seq<Action>, w': World)
    requires Inv(w) && Leads(w, actions, w')
    ensures Inv(w') && |w'.sessions| == |w.sessions|
    decreases |actions|
  {
    hide Enabled, Apply, Inv;
    if actions != [] {
      StepKeeps(w, actions[0]);
      SameSessions(w, actions[0]);
      LeadsKeeps(Apply(w, actions[0]), actions[1..], w');
    }
  }

  lemma SameSessions(w: World, a: Action)
    requires Enabled(w, a)
    ensures |Apply(w, a).sessions| == |w.sessions|
  {
  }

  // ---- what does not change --------------------------------------------------------------------

  predicate SamePlan(run: Run, run': Run) {
    run'.decision == run.decision && run'.planSha == run.planSha && run'.steps == run.steps && run'.delegated == run.delegated
  }

  /** A run that is resident was resident before, with the same plan. */
  lemma PlanKept(w: World, a: Action, id: string)
    requires Inv(w) && Enabled(w, a) && id in w.used
    ensures id in Apply(w, a).used
    ensures id in Apply(w, a).shelf.runs ==> id in w.shelf.runs && SamePlan(w.shelf.runs[id], Apply(w, a).shelf.runs[id])
  {
    hide ClaimsOk, SessionOk, RunOk, Shelved;
    if a.Create? {
      CreatedHolds(w.shelf, a.id, a.run, a.cap);
    }
  }

  lemma {:induction false} PlanStays(w: World, actions: seq<Action>, w': World, id: string)
    requires Inv(w) && Leads(w, actions, w') && id in w.used && id in w'.shelf.runs
    ensures id in w.shelf.runs && SamePlan(w.shelf.runs[id], w'.shelf.runs[id])
    decreases |actions|
  {
    hide Enabled, Apply, Inv;
    if actions != [] {
      var w1 := Apply(w, actions[0]);
      StepKeeps(w, actions[0]);
      PlanKept(w, actions[0], id);
      PlanStays(w1, actions[1..], w', id);
    }
  }

  /** An action of one session leaves the others and every run's plan alone. */
  ghost predicate Onward(w: World, w': World, i: nat) {
    && |w'.sessions| == |w.sessions|
    && (forall j | 0 <= j < |w.sessions| && j != i :: w'.sessions[j] == w.sessions[j])
    && (forall id | id in w.shelf.runs :: id in w'.shelf.runs && SamePlan(w.shelf.runs[id], w'.shelf.runs[id]))
  }

  lemma OneMoves(w: World, a: Action)
    requires Enabled(w, a) && !a.Create?
    ensures Onward(w, Apply(w, a), a.s)
  {
  }

  // ---- setting a session free ------------------------------------------------------------------

  function Distance(phase: Phase): nat {
    match phase
    case Idle => 0
    case Executing(_) => 3
    case Returned(_, _) => 2
    case _ => 1
  }

  function NextAction(i: nat, phase: Phase): Action {
    match phase
    case Executing(_) => Return(i, None)
    case Returned(_, _) => Record(i)
    case Finished(_) => Release(i)
    case Granting(_, _) => Grant(i)
    case Accepting(_, _) => Report(i)
    case _ => Refuse(i, "")
  }

  /** Whatever a session is at, it can come back to idle. */
  lemma {:induction false} FreeSession(w: World, i: nat) returns (actions: seq<Action>, w': World)
    requires i < |w.sessions| && (w.sessions[i].phase.Idle? || w.sessions[i].bound.Some?)
    ensures Onward(w, w', i) && Leads(w, actions, w') && w'.sessions[i].phase.Idle?
    decreases Distance(w.sessions[i].phase)
  {
    if w.sessions[i].phase.Idle? {
      actions, w' := [], w;
    } else {
      var a := NextAction(i, w.sessions[i].phase);
      var w1 := Apply(w, a);
      OneMoves(w, a);
      LeadsOne(w, a);
      assert Distance(w1.sessions[i].phase) < Distance(w.sessions[i].phase) && (w1.sessions[i].phase.Idle? || w1.sessions[i].bound.Some?);
      hide Enabled, Apply, Distance;
      var more;
      more, w' := FreeSession(w1, i);
      LeadsOn(w, [a], w1, more, w');
      actions := [a] + more;
    }
  }

  /** It can then be bound to any resident run. */
  lemma BindSession(w: World, i: nat, id: string) returns (actions: seq<Action>, w': World)
    requires Inv(w) && i < |w.sessions| && id in w.shelf.runs
    ensures Onward(w, w', i) && Leads(w, actions, w') && w'.sessions[i] == Session(Some(id), Idle)
  {
    assert SessionOk(w, w.sessions[i]);
    var free, w1 := FreeSession(w, i);
    var a := Hello(i, id);
    OneMoves(w1, a);
    LeadsOne(w1, a);
    w' := Apply(w1, a);
    hide Inv, Leads;
    LeadsOn(w, free, w1, [a], w');
    actions := free + [a];
  }

  // ---- two cooperative sessions ----------------------------------------------------------------

  /** The check and the append are two operations: two sessions that both wait may both check before either appends. */
  lemma TwoSessionsRecordTwice(w: World, i: nat, j: nat, id: string, step: string)
    returns (w': World)
    requires i < j < |w.sessions| && w.sessions[i] == Session(Some(id), Idle) && w.sessions[j] == Session(Some(id), Idle)
    requires id in w.shelf.runs && !w.shelf.runs[id].delegated && Acceptable(w.shelf.runs[id], step, w.shelf.runs[id].planSha)
    ensures var psha := w.shelf.runs[id].planSha;
      var a1, a2, a3, a4 := Accept(i, step, psha, true), Accept(j, step, psha, true), Report(i), Report(j);
      && Enabled(w, a1) && Enabled(Apply(w, a1), a2) && Enabled(Apply(Apply(w, a1), a2), a3)
      && Enabled(Apply(Apply(Apply(w, a1), a2), a3), a4)
      && w' == Apply(Apply(Apply(Apply(w, a1), a2), a3), a4)
      && id in w'.shelf.runs && w'.shelf.runs[id].events == w.shelf.runs[id].events + [StepResult(step, true), StepResult(step, true)]
  {
    var psha := w.shelf.runs[id].planSha;
    var w1 := Apply(w, Accept(i, step, psha, true));
    var w2 := Apply(w1, Accept(j, step, psha, true));
    var w3 := Apply(w2, Report(i));
    w' := Apply(w3, Report(j));
  }

  lemma {:induction false} LongestStep(events: seq<Event>) returns (n: nat)
    ensures forall k | 0 <= k < |events| :: |events[k].step| <= n
  {
    n := 0;
    if events != [] {
      var m := LongestStep(events[1..]);
      n := if m < |events[0].step| then |events[0].step| else m;
      assert forall k | 0 < k < |events| :: events[k] == events[1..][k - 1];
    }
  }

  /** There is always an id of the number 1 that no event bears. */
  lemma FreshFirstStep(events: seq<Event>) returns (step: string)
    ensures StepNumber(step) == 1 && forall k | 0 <= k < |events| :: events[k].step != step
  {
    var n := LongestStep(events);
    step := Zeros(n) + "1";
    ZerosBefore("1", n);
    assert Val("1") == 1;
    assert forall i | 0 <= i < |step| :: IsDigit(step[i]);
  }

  lemma GrantFresh(w: World, i: nat, id: string) returns (actions: seq<Action>, w': World, step: string)
    requires i < |w.sessions| && w.sessions[i] == Session(Some(id), Idle)
    requires id in w.shelf.runs && !w.shelf.runs[id].delegated && Runnable(w.shelf.runs[id])
    ensures Onward(w, w', i) && Leads(w, actions, w') && w'.sessions[i] == w.sessions[i]
    ensures Acceptable(w'.shelf.runs[id], step, w'.shelf.runs[id].planSha)
  {
    var run := w.shelf.runs[id];
    step := FreshFirstStep(run.events);
    var a, b := Authorize(i, step, run.planSha), Grant(i);
    var w1 := Apply(w, a);
    w' := Apply(w1, b);
    assert w'.sessions == w.sessions;
    assert w'.shelf.runs[id] == run.(events := run.events + [Granted(step, run.planSha)]);
    SeenGrow(run.events, Granted(step, run.planSha));
    OneMoves(w, a);
    OneMoves(w1, b);
    LeadsOne(w, a);
    LeadsOne(w1, b);
    LeadsOn(w, [a], w1, [b], w');
    actions := [a] + [b];
  }

  ghost predicate CanRecordTwice(w: World, id: string) {
    exists actions, w' :: Leads(w, actions, w') && id in w'.shelf.runs && !OncePerStep(w'.shelf.runs[id].events)
  }

  /** Two sessions, whatever they are at, can record a step of a runnable cooperative run twice. */
  lemma TwoSessionsSuffice(w: World, id: string)
    requires Inv(w) && |w.sessions| >= 2 && id in w.shelf.runs && !w.shelf.runs[id].delegated && Runnable(w.shelf.runs[id])
    ensures CanRecordTwice(w, id)
  {
    hide Inv, OncePerStep;
    var a1, w1 := BindSession(w, 0, id);
    LeadsKeeps(w, a1, w1);
    var a2, w2 := BindSession(w1, 1, id);
    LeadsOn(w, a1, w1, a2, w2);
    var a3, w3, step := GrantFresh(w2, 0, id);
    LeadsOn(w, a1 + a2, w2, a3, w3);
    var a4, w4 := ReportedTwice(w3, id, step);
    LeadsOn(w, a1 + a2 + a3, w3, a4, w4);
  }

  lemma ReportedTwice(w: World, id: string, step: string) returns (actions: seq<Action>, w': World)
    requires |w.sessions| >= 2 && w.sessions[0] == Session(Some(id), Idle) && w.sessions[1] == Session(Some(id), Idle)
    requires id in w.shelf.runs && !w.shelf.runs[id].delegated && Acceptable(w.shelf.runs[id], step, w.shelf.runs[id].planSha)
    ensures Leads(w, actions, w') && id in w'.shelf.runs && !OncePerStep(w'.shelf.runs[id].events)
    ensures SamePlan(w.shelf.runs[id], w'.shelf.runs[id])
    ensures w'.shelf.runs[id].events == w.shelf.runs[id].events + [StepResult(step, true), StepResult(step, true)]
  {
    var psha := w.shelf.runs[id].planSha;
    w' := TwoSessionsRecordTwice(w, 0, 1, id, step);
    var a, b, c, d := Accept(0, step, psha, true), Accept(1, step, psha, true), Report(0), Report(1);
    var w1 := Apply(w, a);
    var w2 := Apply(w1, b);
    var w3 := Apply(w2, c);
    var events, n := w'.shelf.runs[id].events, |w.shelf.runs[id].events|;
    assert events[n] == events[n + 1] == StepResult(step, true);
    assert !OncePerStep(events);
    hide Enabled, Apply, Acceptable;
    LeadsOne(w, a);
    LeadsOne(w1, b);
    LeadsOn(w, [a], w1, [b], w2);
    LeadsOne(w2, c);
    LeadsOn(w, [a] + [b], w2, [c], w3);
    LeadsOne(w3, d);
    LeadsOn(w, [a] + [b] + [c], w3, [d], w');
    actions := [a] + [b] + [c] + [d];
  }

  lemma {:induction false} OneSessionKeeps(w: World, actions: seq<Action>, w': World, id: string)
    requires Inv(w) && |w.sessions| <= 1 && SoloOk(w, id) && Leads(w, actions, w')
    ensures SoloOk(w', id)
    decreases |actions|
  {
    hide Enabled, Apply, Inv, SoloOk;
    if actions != [] {
      assert Solo(w, id);
      StepKeeps(w, actions[0]);
      SoloKeeps(w, actions[0], id);
      SameSessions(w, actions[0]);
      OneSessionKeeps(Apply(w, actions[0]), actions[1..], w', id);
    }
  }

  /** A run that is not runnable has no result. */
  lemma NotRunnable(run: Run)
    requires RunOk(run) && !Runnable(run)
    ensures OncePerStep(run.events)
  {
    forall k: nat | k < |run.events| ensures !run.events[k].StepResult? {
      assert Justified(run, k);
    }
  }

  /**
    In every reachable world some continuation records a step of a cooperative run twice exactly if there are two
    sessions and the gate can let a step of that run pass at all.
   */
  lemma RecordsTwiceIff(sessions: nat, before: seq<Action>, w: World, id: string)
    requires Leads(Start(sessions), before, w) && id in w.shelf.runs && !w.shelf.runs[id].delegated
    ensures CanRecordTwice(w, id) <==> sessions >= 2 && Runnable(w.shelf.runs[id])
  {
    hide Inv, OncePerStep, Runnable, RunOk;
    StartIsSafe(sessions);
    LeadsKeeps(Start(sessions), before, w);
    if sessions >= 2 && Runnable(w.shelf.runs[id]) {
      TwoSessionsSuffice(w, id);
    } else if CanRecordTwice(w, id) {
      var actions, w' :| Leads(w, actions, w') && id in w'.shelf.runs && !OncePerStep(w'.shelf.runs[id].events);
      LeadsKeeps(w, actions, w');
      ResidentOk(w, id);
      ResidentOk(w', id);
      PlanStays(w, actions, w', id);
      SameRunnable(w.shelf.runs[id], w'.shelf.runs[id]);
      if sessions >= 2 {
        NotRunnable(w'.shelf.runs[id]);
      } else {
        StartIsSolo(sessions, id);
        OneSessionKeeps(Start(sessions), before, w, id);
        OneSessionKeeps(w, actions, w', id);
      }
    }
  }

  lemma ResidentOk(w: World, id: string)
    requires Inv(w) && id in w.shelf.runs
    ensures id in w.used && RunOk(w.shelf.runs[id])
  {
  }

  lemma SameRunnable(run: Run, run': Run)
    requires SamePlan(run, run')
    ensures Runnable(run) <==> Runnable(run')
  {
  }

  // ---- two ids of one step number --------------------------------------------------------------

  /** The store tells steps apart by their text. With a leading zero the gate sees the same step, and the store another. */
  lemma LeadingZeroPassesTheGate(rec: Run, step: string, planSha: string)
    requires StepNumber(step) >= 1
    ensures StepNumber("0" + step) == StepNumber(step) && "0" + step != step
    ensures Gate(Some(rec), "0" + step, planSha) == Gate(Some(rec), step, planSha)
  {
    ValConcat("0", step);
    assert Val("0") == 0;
    assert forall i | 0 <= i < |"0" + step| :: IsDigit(("0" + step)[i]);
    assert |"0" + step| == |step| + 1;
  }

  /** The id that the number of a step id is written with. */
  ghost predicate Plain(step: string) {
    DigitsOf(StepNumber(step)) == step
  }

  /** A claim for the run names its step plainly. */
  ghost predicate PlainClaim(w: World, a: Action, id: string) {
    a.Claim? && a.s < |w.sessions| && w.sessions[a.s].bound == Some(id) && w.sessions[a.s].phase.Cleared? ==>
      Plain(w.sessions[a.s].phase.step)
  }

  ghost predicate PlainOk(w: World, id: string) {
    && (forall i | 0 <= i < |w.sessions| && w.sessions[i].bound == Some(id) ::
          var phase := w.sessions[i].phase; phase.Executing? || phase.Returned? ==> Plain(phase.step))
    && (id in w.shelf.runs && w.shelf.runs[id].delegated ==>
          forall k | 0 <= k < |w.shelf.runs[id].events| && w.shelf.runs[id].events[k].StepResult? ::
            Plain(w.shelf.runs[id].events[k].step))
  }

  lemma PlainKeeps(w: World, a: Action, id: string)
    requires Inv(w) && Enabled(w, a) && PlainOk(w, id) && PlainClaim(w, a, id)
    ensures PlainOk(Apply(w, a), id)
  {
    hide Plain, ClaimsOk, RunOk, Shelved, Clear, Recorded, Claimable, Gate, Acceptable;
    if a.Create? {
      CreatedHolds(w.shelf, a.id, a.run, a.cap);
    } else {
      assert SessionOk(w, w.sessions[a.s]);
    }
  }

  lemma {:induction false} PlainRun(worlds: seq<World>, actions: seq<Action>, k: nat, id: string)
    requires IsRun(worlds, actions) && k < |worlds| && forall i | 0 <= i < k :: PlainClaim(worlds[i], actions[i], id)
    ensures PlainOk(worlds[k], id)
  {
    hide Enabled, Apply, Inv, PlainClaim;
    if k > 0 {
      hide PlainOk;
      PlainRun(worlds, actions, k - 1, id);
      EveryRunIsSafe(worlds, actions, k - 1);
      PlainKeeps(worlds[k - 1], actions[k - 1], id);
    }
  }

  /** While every claimed id is the plain one of its number, a delegated run records each step number at most once. */
  lemma OncePerNumber(worlds: seq<World>, actions: seq<Action>, k: nat, id: string)
    requires IsRun(worlds, actions) && k < |worlds| && id in worlds[k].shelf.runs && worlds[k].shelf.runs[id].delegated
    requires forall i | 0 <= i < k :: PlainClaim(worlds[i], actions[i], id)
    ensures var events := worlds[k].shelf.runs[id].events;
      forall i, j | 0 <= i < j < |events| && events[i].StepResult? && events[j].StepResult? ::
        StepNumber(events[i].step) != StepNumber(events[j].step)
  {
    hide Enabled, Apply, PlainClaim, StepNumber;
    PlainRun(worlds, actions, k, id);
    EveryRunIsSafe(worlds, actions, k);
    assert RunOk(worlds[k].shelf.runs[id]);
  }

  /** One delegated step from the gate to its result. */
  lemma ExecuteStep(w: World, i: nat, id: string, step: string, ok: bool) returns (actions: seq<Action>, w': World)
    requires Inv(w) && i < |w.sessions| && w.sessions[i] == Session(Some(id), Idle)
    requires id in w.shelf.runs && w.shelf.runs[id].delegated
    requires Gate(Some(w.shelf.runs[id]), step, w.shelf.runs[id].planSha).None? && Claimable(w.shelf, id, step)
    ensures Leads(w, actions, w') && w'.sessions == w.sessions && Held(w'.shelf, id) == Held(w.shelf, id)
    ensures id in w'.shelf.runs
    ensures w'.shelf.runs[id] == w.shelf.runs[id].(events := w.shelf.runs[id].events + [StepResult(step, ok)])
  {
    hide Gate, Inv, Recorded;
    var result := StepResult(step, ok);
    var a, b, c, d, e := Authorize(i, step, w.shelf.runs[id].planSha), Claim(i), Return(i, Some(result)), Record(i), Release(i);
    var w1 := Apply(w, a);
    var w2 := Apply(w1, b);
    var w3 := Apply(w2, c);
    var w4 := Apply(w3, d);
    w' := Apply(w4, e);
    assert w'.sessions == w.sessions;
    assert Held(w'.shelf, id) == Held(w.shelf, id);
    LeadsOne(w, a);
    LeadsOne(w1, b);
    LeadsOne(w2, c);
    LeadsOne(w3, d);
    LeadsOne(w4, e);
    hide Enabled, Apply, Leads;
    LeadsOn(w, [a], w1, [b], w2);
    LeadsOn(w, [a] + [b], w2, [c], w3);
    LeadsOn(w, [a] + [b] + [c], w3, [d], w4);
    LeadsOn(w, [a] + [b] + [c] + [d], w4, [e], w');
    actions := [a] + [b] + [c] + [d] + [e];
  }

  /** Otherwise one session can record one step number twice: a clear step, and then the same with a leading zero. */
  lemma AliasRecordsTwice(w: World, i: nat, id: string, step: string) returns (actions: seq<Action>, w': World)
    requires Inv(w) && i < |w.sessions| && w.sessions[i] == Session(Some(id), Idle)
    requires id in w.shelf.runs && w.shelf.runs[id].delegated
    requires Gate(Some(w.shelf.runs[id]), step, w.shelf.runs[id].planSha).None?
    requires Claimable(w.shelf, id, step) && Claimable(w.shelf, id, "0" + step)
    ensures Leads(w, actions, w') && id in w'.shelf.runs && StepNumber("0" + step) == StepNumber(step)
    ensures SamePlan(w.shelf.runs[id], w'.shelf.runs[id])
    ensures w'.shelf.runs[id].events == w.shelf.runs[id].events + [StepResult(step, true), StepResult("0" + step, true)]
  {
    var run := w.shelf.runs[id];
    LeadingZeroPassesTheGate(run, step, run.planSha);
    var a, w1 := ExecuteStep(w, i, id, step, true);
    LeadsKeeps(w, a, w1);
    GateStays(run, StepResult(step, true), "0" + step);
    SeenGrow(run.events, StepResult(step, true));
    hide Gate, Inv, Recorded;
    var b;
    b, w' := ExecuteStep(w1, i, id, "0" + step, true);
    LeadsOn(w, a, w1, b, w');
    actions := a + b;
  }

  lemma GateStays(run: Run, e: Event, step: string)
    requires Gate(Some(run), step, run.planSha).None?
    ensures Gate(Some(run.(events := run.events + [e])), step, run.planSha).None?
  {
    forall j: nat | 1 <= j < StepNumber(step) ensures RanOk(run.events + [e], DigitsOf(j)) {
      assert RanOk(run.events, DigitsOf(j));
    }
  }

  // ---- both from the start ---------------------------------------------------------------------

  /** A run of one step is created and a session bound to it. */
  lemma CreateAndBind(sessions: nat, id: string, planSha: string, delegated: bool) returns (actions: seq<Action>, w: World)
    requires sessions >= 1 && planSha != ""
    ensures Leads(Start(sessions), actions, w) && Inv(w) && |w.sessions| == sessions && w.shelf.inflight == map[]
    ensures w.sessions[0] == Session(Some(id), Idle) && forall j | 1 <= j < sessions :: w.sessions[j] == Session(None, Idle)
    ensures id in w.shelf.runs && w.shelf.runs[id] == Run("allow", planSha, 1, delegated, [])
  {
    var a, b := Create(id, Run("allow", planSha, 1, delegated, []), 1), Hello(0, id);
    var w0 := Start(sessions);
    assert Evicted(w0.shelf.(runs := map[id := a.run], order := [id]), 1) == w0.shelf.(runs := map[id := a.run], order := [id]);
    var w1 := Apply(w0, a);
    w := Apply(w1, b);
    StartIsSafe(sessions);
    LeadsOne(w0, a);
    LeadsOne(w1, b);
    LeadsOn(w0, [a], w1, [b], w);
    actions := [a] + [b];
    LeadsKeeps(w0, actions, w);
  }

  lemma StepOne()
    ensures StepNumber("1") == StepNumber("01") == 1 && "0" + "1" == "01"
  {
    assert Val("1") == 1 && Val("01") == 1;
  }

  /** From the start: with one session, a delegated run of one step ends with two results of step number 1. */
  lemma AliasRun(id: string, planSha: string) returns (actions: seq<Action>, w: World)
    requires planSha != ""
    ensures Leads(Start(1), actions, w) && id in w.shelf.runs && w.shelf.runs[id].delegated
    ensures w.shelf.runs[id].events == [StepResult("1", true), StepResult("01", true)] && StepNumber("1") == StepNumber("01") == 1
  {
    hide Inv, Leads, Start, StepNumber;
    var a, w1 := CreateAndBind(1, id, planSha, true);
    StepOne();
    var b;
    b, w := AliasRecordsTwice(w1, 0, id, "1");
    LeadsOn(Start(1), a, w1, b, w);
    actions := a + b;
  }

  /** The grant of step 1 to the first session, with the second one bound. */
  lemma BindAndGrant(w: World, id: string, planSha: string) returns (actions: seq<Action>, w': World)
    requires |w.sessions| == 2 && w.sessions[0] == Session(Some(id), Idle) && w.sessions[1] == Session(None, Idle)
    requires planSha != "" && id in w.shelf.runs && w.shelf.runs[id] == Run("allow", planSha, 1, false, [])
    ensures Leads(w, actions, w')
    ensures w'.sessions == [Session(Some(id), Idle), Session(Some(id), Idle)]
    ensures id in w'.shelf.runs && w'.shelf.runs[id] == Run("allow", planSha, 1, false, [Granted("1", planSha)])
  {
    StepOne();
    hide StepNumber;
    var b, c, d := Hello(1, id), Authorize(0, "1", planSha), Grant(0);
    var w1 := Apply(w, b);
    var w2 := Apply(w1, c);
    w' := Apply(w2, d);
    LeadsOne(w, b);
    LeadsOne(w1, c);
    LeadsOne(w2, d);
    hide Enabled, Leads;
    LeadsOn(w, [b], w1, [c], w2);
    LeadsOn(w, [b] + [c], w2, [d], w');
    actions := [b] + [c] + [d];
  }

  /** From the start: with two sessions, a cooperative run records a step twice. */
  lemma TwiceFromTheStart(id: string, planSha: string) returns (actions: seq<Action>, w: World)
    requires planSha != ""
    ensures Leads(Start(2), actions, w) && id in w.shelf.runs && !w.shelf.runs[id].delegated
    ensures w.shelf.runs[id].events == [Granted("1", planSha), StepResult("1", true), StepResult("1", true)]
  {
    hide Inv, Leads, Start, OncePerStep;
    var a, w1 := CreateAndBind(2, id, planSha, false);
    var b, w2 := BindAndGrant(w1, id, planSha);
    var run := w2.shelf.runs[id];
    assert run.events[0] == Granted("1", planSha);
    assert Acceptable(run, "1", planSha);
    var c;
    c, w := ReportedTwice(w2, id, "1");
    LeadsOn(Start(2), a, w1, b, w2);
    LeadsOn(Start(2), a + b, w2, c, w);
    actions := a + b + c;
  }
}
