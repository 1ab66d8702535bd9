/** The step protocol: any number of sessions over one store, one lock-protected operation at a time. */
module StepProtocol {
  import opened Prelude
  import opened Decimal
  import opened StepStore

  /** Where a session is between two operations on the store. */
  datatype Phase =
    | Idle
    | Cleared(step: string)
    | Executing(step: string)
    | Returned(step: string, event: Option<Event>)
    | Finished(step: string)
    | Granting(step: string, planSha: string)
    | Accepting(step: string, ok: bool)

  datatype Session = Session(bound: Option<string>, phase: Phase)

  /** used: every run id ever created; ids are never drawn twice. */
  datatype World = World(shelf: Shelf, sessions: seq<Session>, used: set<string>)

  datatype Action =
    | Create(id: string, run: Run, cap: nat)
    | Hello(s: nat, id: string)
    | Leave(s: nat)
    | Refuse(s: nat, step: string)
    | Authorize(s: nat, step: string, planSha: string)
    | Claim(s: nat)
    | Return(s: nat, event: Option<Event>)
    | Record(s: nat)
    | Release(s: nat)
    | Grant(s: nat)
    | Accept(s: nat, step: string, planSha: string, ok: bool)
    | Report(s: nat)

  function Set(w: World, s: nat, phase: Phase): World
    requires s < |w.sessions|
  {
    w.(sessions := w.sessions[s := w.sessions[s].(phase := phase)])
  }

  function Append(w: World, s: nat, e: Event): World
    requires s < |w.sessions| && w.sessions[s].bound.Some?
  {
    w.(shelf := Appended(w.shelf, w.sessions[s].bound.value, e))
  }

  /** What the limb may send back for a step: a terminal status, a refusal, a forgery, or nothing to record. */
  predicate Replies(step: string, e: Option<Event>) {
    e.None? || (e.value.step == step && (e.value.StepResult? || e.value.DelegationRefused? || e.value.ForgedStatus?))
  }

  ghost predicate Enabled(w: World, a: Action) {
    if a.Create? then a.id !in w.used && a.run.events == []
    else
      && a.s < |w.sessions|
      && var me := w.sessions[a.s];
      && (a.Hello? || a.Leave? || me.bound.Some?)
      && match a
         case Hello(_, id) => me.phase.Idle? && id in w.shelf.runs
         case Leave(_) => !me.phase.Executing? && !me.phase.Returned? && !me.phase.Finished?
         case Refuse(_, _) => me.phase.Idle? || me.phase.Cleared?
         case Authorize(_, step, planSha) =>
           me.phase.Idle? && me.bound.value in w.shelf.runs && Gate(Some(w.shelf.runs[me.bound.value]), step, planSha).None?
         case Claim(_) => me.phase.Cleared?
         case Return(_, e) => me.phase.Executing? && Replies(me.phase.step, e)
         case Record(_) => me.phase.Returned?
         case Release(_) => me.phase.Finished?
         case Grant(_) => me.phase.Granting?
         case Accept(_, step, planSha, _) =>
           && me.phase.Idle? && me.bound.value in w.shelf.runs && !w.shelf.runs[me.bound.value].delegated
           && Acceptable(w.shelf.runs[me.bound.value], step, planSha)
         case Report(_) => me.phase.Accepting?
  }

  ghost function Apply(w: World, a: Action): World
    requires Enabled(w, a)
  {
    match a
    case Create(id, run, cap) => w.(shelf := Created(w.shelf, id, run, cap), used := w.used + {id})
    case Hello(s, id) => w.(sessions := w.sessions[s := Session(Some(id), Idle)])
    case Leave(s) => w.(sessions := w.sessions[s := Session(None, Idle)])
    case Refuse(s, step) => Set(Append(w, s, StepRefused(step)), s, Idle)
    case Authorize(s, step, planSha) =>
      Set(w, s, if w.shelf.runs[w.sessions[s].bound.value].delegated then Cleared(step) else Granting(step, planSha))
    case Claim(s) =>
      var id, step := w.sessions[s].bound.value, w.sessions[s].phase.step;
      Set(w.(shelf := StepStore.Claimed(w.shelf, id, step)), s, if Claimable(w.shelf, id, step) then Executing(step) else Idle)
    case Return(s, e) => Set(w, s, Returned(w.sessions[s].phase.step, e))
    case Record(s) =>
      var p := w.sessions[s].phase;
      Set(if p.event.Some? then Append(w, s, p.event.value) else w, s, Finished(p.step))
    case Release(s) =>
      Set(w.(shelf := Released(w.shelf, w.sessions[s].bound.value, w.sessions[s].phase.step)), s, Idle)
    case Grant(s) => Set(Append(w, s, Granted(w.sessions[s].phase.step, w.sessions[s].phase.planSha)), s, Idle)
    case Accept(s, step, _, ok) => Set(w, s, Accepting(step, ok))
    case Report(s) => Set(Append(w, s, StepResult(w.sessions[s].phase.step, w.sessions[s].phase.ok)), s, Idle)
  }

  // ---- the invariant of a run's events ---------------------------------------------------------

  /** A run whose steps the gate can let pass at all. */
  predicate Runnable(run: Run) {
    run.decision == "allow" && run.planSha != "" && run.steps >= 1
  }

  /** The step is one of a runnable plan's, and every earlier step already has an ok result. */
  ghost predicate Clear(run: Run, events: seq<Event>, step: string) {
    Runnable(run) && 1 <= StepNumber(step) <= run.steps && UpstreamRan(events, StepNumber(step))
  }

  ghost predicate Justified(run: Run, k: nat)
    requires k < |run.events|
  {
    match run.events[k]
    case Granted(step, sha) => sha == run.planSha && Clear(run, run.events[..k], step)
    case StepResult(step, _) => Clear(run, run.events[..k], step) && (run.delegated || Granted(step, run.planSha) in run.events[..k])
    case _ => true
  }

  ghost predicate OncePerStep(events: seq<Event>) {
    forall i, j | 0 <= i < j < |events| && events[i].StepResult? && events[j].StepResult? :: events[i].step != events[j].step
  }

  ghost predicate RunOk(run: Run) {
    && (forall k: nat | k < |run.events| :: Justified(run, k))
    && (run.delegated ==> OncePerStep(run.events))
  }

  lemma ClearKept(run: Run, events: seq<Event>, e: Event, step: string)
    requires Clear(run, events, step)
    ensures Clear(run, events + [e], step)
  {
    forall j: nat | 1 <= j < StepNumber(step) ensures RanOk(events + [e], DigitsOf(j)) {
      assert RanOk(events, DigitsOf(j));
    }
  }

  lemma RunOkAppends(run: Run, e: Event)
    requires RunOk(run)
    requires e.Granted? ==> e.planSha == run.planSha && Clear(run, run.events, e.step)
    requires e.StepResult? ==>
      && Clear(run, run.events, e.step) && (run.delegated || Granted(e.step, run.planSha) in run.events)
      && (run.delegated ==> !Recorded(run.events, e.step))
    ensures RunOk(run.(events := run.events + [e]))
  {
    hide Clear, Recorded;
    var after := run.(events := run.events + [e]);
    forall k: nat | k < |after.events| ensures Justified(after, k) {
      if k < |run.events| {
        assert Justified(run, k) && after.events[..k] == run.events[..k];
        SameClear(run, after, after.events[..k]);
      } else {
        assert after.events[..k] == run.events;
        SameClear(run, after, run.events);
      }
    }
    if run.delegated && e.StepResult? {
      forall i | 0 <= i < |run.events| && run.events[i].StepResult? ensures run.events[i].step != e.step {
        SeenAt(run.events, i);
      }
    }
  }

  lemma SameClear(run: Run, after: Run, events: seq<Event>)
    requires after.steps == run.steps && after.decision == run.decision && after.planSha == run.planSha
    ensures forall step :: Clear(after, events, step) <==> Clear(run, events, step)
  {
  }

  lemma SeenAt(events: seq<Event>, i: nat)
    requires i < |events| && events[i].StepResult?
    ensures Recorded(events, events[i].step)
  {
    assert events[i] == StepResult(events[i].step, events[i].ok);
    assert events[i] in events;
  }

  // ---- the invariant of a world ----------------------------------------------------------------

  /** The session has claimed its step and not released it. */
  predicate Holds(me: Session) {
    me.bound.Some? && (me.phase.Executing? || me.phase.Returned? || me.phase.Finished?)
  }

  predicate HoldsStep(me: Session, id: string, step: string) {
    Holds(me) && me.bound.value == id && me.phase.step == step
  }

  /** What a session between two operations still knows about its run. */
  ghost predicate Knows(run: Run, phase: Phase) {
    match phase
    case Idle => true
    case Cleared(step) => run.delegated && Clear(run, run.events, step)
    case Executing(step) => run.delegated && Clear(run, run.events, step) && !Recorded(run.events, step)
    case Returned(step, e) => run.delegated && Clear(run, run.events, step) && !Recorded(run.events, step) && Replies(step, e)
    case Finished(_) => run.delegated
    case Granting(step, sha) => !run.delegated && sha == run.planSha && Clear(run, run.events, step)
    case Accepting(step, _) => !run.delegated && Granted(step, run.planSha) in run.events
  }

  ghost predicate SessionOk(w: World, me: Session) {
    match me.bound
    case None => me.phase.Idle?
    case Some(id) => id in w.used && (id in w.shelf.runs ==> Knows(w.shelf.runs[id], me.phase))
  }

  /** Claims and reservations match one to one. */
  ghost predicate ClaimsOk(w: World) {
    && (forall i, j, id, step | 0 <= i < |w.sessions| && 0 <= j < |w.sessions| && i != j && HoldsStep(w.sessions[i], id, step) ::
          !HoldsStep(w.sessions[j], id, step))
    && (forall i, id, step | 0 <= i < |w.sessions| && HoldsStep(w.sessions[i], id, step) :: step in Held(w.shelf, id))
    && (forall id, step | step in Held(w.shelf, id) :: Reserved(w, id, step))
  }

  ghost predicate Reserved(w: World, id: string, step: string) {
    exists i :: 0 <= i < |w.sessions| && HoldsStep(w.sessions[i], id, step)
  }

  ghost predicate Inv(w: World) {
    && Shelved(w.shelf)
    && (forall id | id in w.shelf.runs :: id in w.used && RunOk(w.shelf.runs[id]))
    && (forall i | 0 <= i < |w.sessions| :: SessionOk(w, w.sessions[i]))
    && ClaimsOk(w)
  }
}
