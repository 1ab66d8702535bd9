/** Every interleaving of the step protocol keeps its promises. */
module StepProofs {
  import opened Prelude
  import opened Decimal
  import opened StepStore
  import opened StepProtocol

  // ---- one session's phase changes, the store does not -----------------------------------------

  /** Claims are the same before and after. */
  ghost predicate SameClaim(before: Session, after: Session) {
    forall id, step :: HoldsStep(before, id, step) <==> HoldsStep(after, id, step)
  }

  lemma ClaimsSet(w: World, s: nat, me: Session)
    requires ClaimsOk(w) && s < |w.sessions| && SameClaim(w.sessions[s], me)
    ensures ClaimsOk(w.(sessions := w.sessions[s := me]))
  {
    hide HoldsStep;
    var w' := w.(sessions := w.sessions[s := me]);
    forall i, id, step | 0 <= i < |w'.sessions| ensures HoldsStep(w'.sessions[i], id, step) <==> HoldsStep(w.sessions[i], id, step) {
    }
    forall id, step | step in Held(w'.shelf, id) ensures Reserved(w', id, step) {
      assert Reserved(w, id, step);
      var i :| 0 <= i < |w.sessions| && HoldsStep(w.sessions[i], id, step);
      assert HoldsStep(w'.sessions[i], id, step);
    }
  }

  lemma SetKeeps(w: World, s: nat, me: Session)
    requires Inv(w) && s < |w.sessions| && SameClaim(w.sessions[s], me) && SessionOk(w, me)
    ensures Inv(w.(sessions := w.sessions[s := me]))
  {
    hide ClaimsOk, HoldsStep, Knows, RunOk, Shelved;
    ClaimsSet(w, s, me);
  }

  lemma Unclaimed(before: Session, after: Session)
    requires !Holds(before) && !Holds(after)
    ensures SameClaim(before, after)
  {
  }

  // ---- an event is appended --------------------------------------------------------------------

  lemma KnowsKept(run: Run, e: Event, phase: Phase)
    requires Knows(run, phase)
    requires e.StepResult? && (phase.Executing? || phase.Returned?) ==> phase.step != e.step
    ensures Knows(run.(events := run.events + [e]), phase)
  {
    var after := run.(events := run.events + [e]);
    SeenGrow(run.events, e);
    if phase.Cleared? || phase.Executing? || phase.Returned? || phase.Granting? {
      ClearKept(run, run.events, e, phase.step);
      SameClear(run, after, after.events);
    }
    if phase.Accepting? {
      assert Granted(phase.step, run.planSha) in after.events;
    }
  }

  /** Whoever else works on the same run is not about to record the same step. */
  lemma OthersKeep(w: World, s: nat, e: Event, i: nat)
    requires Inv(w) && s < |w.sessions| && i < |w.sessions| && i != s && w.sessions[s].bound.Some?
    requires w.sessions[s].bound.value in w.shelf.runs
    requires e.StepResult? && w.shelf.runs[w.sessions[s].bound.value].delegated ==> HoldsStep(w.sessions[s], w.sessions[s].bound.value, e.step)
    ensures SessionOk(Append(w, s, e), w.sessions[i])
  {
    hide RunOk, Clear, Recorded, Shelved;
    var me, it := w.sessions[s], w.sessions[i];
    assert SessionOk(w, it);
    if it.bound == me.bound {
      var id := me.bound.value;
      var run := w.shelf.runs[id];
      if e.StepResult? && (it.phase.Executing? || it.phase.Returned?) {
        assert HoldsStep(it, id, it.phase.step);
        assert HoldsStep(me, id, e.step);
        OneHolder(w, s, i, id, e.step);
      }
      KnowsKept(run, e, it.phase);
    }
  }

  lemma OneHolder(w: World, i: nat, j: nat, id: string, step: string)
    requires ClaimsOk(w) && i < |w.sessions| && j < |w.sessions| && i != j && HoldsStep(w.sessions[i], id, step)
    ensures !HoldsStep(w.sessions[j], id, step)
  {
    hide HoldsStep;
  }

  lemma AppendKeeps(w: World, s: nat, e: Event, phase: Phase)
    requires Inv(w) && s < |w.sessions| && w.sessions[s].bound.Some?
    requires SameClaim(w.sessions[s], w.sessions[s].(phase := phase))
    requires w.sessions[s].bound.value in w.shelf.runs ==>
      var run := w.shelf.runs[w.sessions[s].bound.value];
      && RunOk(run.(events := run.events + [e])) && Knows(run.(events := run.events + [e]), phase)
      && (e.StepResult? && run.delegated ==> HoldsStep(w.sessions[s], w.sessions[s].bound.value, e.step))
    ensures Inv(Set(Append(w, s, e), s, phase))
  {
    hide RunOk, Knows, HoldsStep, Shelved;
    var id := w.sessions[s].bound.value;
    var me := w.sessions[s].(phase := phase);
    var w' := Set(Append(w, s, e), s, phase);
    ClaimsSet(w, s, me);
    ClaimsShelf(w.(sessions := w.sessions[s := me]), w'.shelf);
    if id !in w.shelf.runs {
      assert SessionOk(w, w.sessions[s]);
    } else {
      AppendShelved(w.shelf, id, e);
      forall i | 0 <= i < |w'.sessions| ensures SessionOk(w', w'.sessions[i]) {
        if i != s {
          OthersKeep(w, s, e, i);
        } else {
          assert SessionOk(w, w.sessions[s]);
        }
      }
    }
  }

  lemma AppendShelved(shelf: Shelf, id: string, e: Event)
    requires Shelved(shelf)
    ensures Shelved(Appended(shelf, id, e))
  {
    assert Appended(shelf, id, e).runs.Keys == shelf.runs.Keys;
  }

  /** Only the reservations matter to the claims. */
  lemma ClaimsShelf(w: World, shelf: Shelf)
    requires ClaimsOk(w) && shelf.inflight == w.shelf.inflight
    ensures ClaimsOk(w.(shelf := shelf))
  {
    hide HoldsStep;
    var w' := w.(shelf := shelf);
    assert forall id :: Held(shelf, id) == Held(w.shelf, id);
    forall id, step | step in Held(shelf, id) ensures Reserved(w', id, step) {
      assert Reserved(w, id, step);
      var i :| 0 <= i < |w.sessions| && HoldsStep(w.sessions[i], id, step);
      assert HoldsStep(w'.sessions[i], id, step);
    }
  }

  // ---- the reservations change -----------------------------------------------------------------

  lemma ClaimHeld(shelf: Shelf, id: string, step: string)
    requires id in shelf.runs
    ensures forall r :: (Held(StepStore.Claimed(shelf, id, step), r)
      == Held(shelf, r) + if r == id && Claimable(shelf, id, step) then {step} else {})
  {
  }

  lemma ReleaseHeld(shelf: Shelf, id: string, step: string)
    ensures forall r :: Held(Released(shelf, id, step), r) == if r == id then Held(shelf, id) - {step} else Held(shelf, r)
  {
  }

  lemma HeldDecides(me: Session, id: string, step: string)
    requires me.bound == Some(id) && me.phase == Executing(step)
    ensures forall r, t :: HoldsStep(me, r, t) <==> r == id && t == step
  {
  }

  lemma ClaimsGain(w: World, s: nat, id: string, step: string)
    requires ClaimsOk(w) && s < |w.sessions| && w.sessions[s].bound == Some(id) && !Holds(w.sessions[s]) && Claimable(w.shelf, id, step)
    ensures ClaimsOk(Set(w.(shelf := StepStore.Claimed(w.shelf, id, step)), s, Executing(step)))
  {
    var w' := Set(w.(shelf := StepStore.Claimed(w.shelf, id, step)), s, Executing(step));
    ClaimHeld(w.shelf, id, step);
    HeldDecides(w'.sessions[s], id, step);
    hide HoldsStep, Claimable, StepStore.Claimed;
    forall i | 0 <= i < |w.sessions| ensures !HoldsStep(w.sessions[i], id, step) {
      assert step !in Held(w.shelf, id) by { Free(w.shelf, id, step); }
    }
    forall r, t | t in Held(w'.shelf, r) ensures Reserved(w', r, t) {
      if r == id && t == step {
        assert HoldsStep(w'.sessions[s], r, t);
      } else {
        assert Reserved(w, r, t);
        var i :| 0 <= i < |w.sessions| && HoldsStep(w.sessions[i], r, t);
        assert i != s by { NotHolding(w.sessions[s], r, t); }
        assert HoldsStep(w'.sessions[i], r, t);
      }
    }
  }

  lemma Free(shelf: Shelf, id: string, step: string)
    requires Claimable(shelf, id, step)
    ensures step !in Held(shelf, id) && !Recorded(shelf.runs[id].events, step)
  {
  }

  lemma NotHolding(me: Session, id: string, step: string)
    requires !Holds(me)
    ensures !HoldsStep(me, id, step)
  {
  }

  lemma ClaimsLose(w: World, s: nat, id: string, step: string)
    requires ClaimsOk(w) && s < |w.sessions| && HoldsStep(w.sessions[s], id, step)
    ensures ClaimsOk(Set(w.(shelf := Released(w.shelf, id, step)), s, Idle))
  {
    var w' := Set(w.(shelf := Released(w.shelf, id, step)), s, Idle);
    ReleaseHeld(w.shelf, id, step);
    forall r, t ensures !HoldsStep(w'.sessions[s], r, t) && (HoldsStep(w.sessions[s], r, t) ==> r == id && t == step) {
    }
    hide HoldsStep, Released;
    forall i | 0 <= i < |w.sessions| && i != s ensures !HoldsStep(w.sessions[i], id, step) {
      OneHolder(w, s, i, id, step);
    }
    forall r, t | t in Held(w'.shelf, r) ensures Reserved(w', r, t) {
      assert Reserved(w, r, t);
      var i :| 0 <= i < |w.sessions| && HoldsStep(w.sessions[i], r, t);
      assert HoldsStep(w'.sessions[i], r, t);
    }
  }

  // ---- the twelve actions ----------------------------------------------------------------------

  lemma GrantedIsPlan(run: Run, step: string)
    requires RunOk(run) && WasGranted(run.events, step)
    ensures Granted(step, run.planSha) in run.events
  {
    var sha :| Granted(step, sha) in run.events;
    var k: nat :| k < |run.events| && run.events[k] == Granted(step, sha);
    assert Justified(run, k);
  }

  /** A grant stays good: what was clear when it was recorded is clear now. */
  lemma GrantedIsClear(run: Run, step: string)
    requires RunOk(run) && Granted(step, run.planSha) in run.events
    ensures Clear(run, run.events, step)
  {
    var k: nat :| k < |run.events| && run.events[k] == Granted(step, run.planSha);
    assert Justified(run, k);
    forall j: nat | 1 <= j < StepNumber(step) ensures RanOk(run.events, DigitsOf(j)) {
      assert RanOk(run.events[..k], DigitsOf(j));
    }
  }

  lemma CreatedHolds(shelf: Shelf, id: string, run: Run, cap: nat)
    requires Shelved(shelf)
    ensures Shelved(Created(shelf, id, run, cap)) && Created(shelf, id, run, cap).inflight == shelf.inflight
    ensures forall r | r in Created(shelf, id, run, cap).runs ::
      if r == id then Created(shelf, id, run, cap).runs[r] == run else r in shelf.runs && Created(shelf, id, run, cap).runs[r] == shelf.runs[r]
  {
    hide Evicted;
    CreatedShelved(shelf, id, run);
    EvictedKeepsYoungest(shelf.(runs := shelf.runs[id := run], order := if id in shelf.runs then shelf.order else shelf.order + [id]), cap);
  }

  lemma CreateKeeps(w: World, id: string, run: Run, cap: nat)
    requires Inv(w) && id !in w.used && run.events == []
    ensures Inv(Apply(w, Create(id, run, cap)))
  {
    hide Knows, HoldsStep, Created, ClaimsOk, Shelved, RunOk;
    CreatedHolds(w.shelf, id, run, cap);
    ClaimsShelf(w, Created(w.shelf, id, run, cap));
    var w' := Apply(w, Create(id, run, cap));
    assert ClaimsOk(w') by { ClaimsIgnoreUsed(w.(shelf := w'.shelf), w'.used); }
    assert RunOk(run) by { NoEvents(run); }
    forall i | 0 <= i < |w'.sessions| ensures SessionOk(w', w'.sessions[i]) {
      assert SessionOk(w, w.sessions[i]);
    }
  }

  lemma NoEvents(run: Run)
    requires run.events == []
    ensures RunOk(run)
  {
  }

  lemma ClaimsIgnoreUsed(w: World, used: set<string>)
    requires ClaimsOk(w)
    ensures ClaimsOk(w.(used := used))
  {
    hide HoldsStep;
    forall id, step | step in Held(w.shelf, id) ensures Reserved(w.(used := used), id, step) {
      assert Reserved(w, id, step);
      var i :| 0 <= i < |w.sessions| && HoldsStep(w.sessions[i], id, step);
    }
  }

  lemma AuthorizeKeeps(w: World, a: Action)
    requires Inv(w) && a.Authorize? && Enabled(w, a)
    ensures Inv(Apply(w, a))
  {
    hide ClaimsOk, RunOk, Shelved, UpstreamRan;
    var me := w.sessions[a.s];
    var run := w.shelf.runs[me.bound.value];
    assert SessionOk(w, me);
    var me' := me.(phase := if run.delegated then Cleared(a.step) else Granting(a.step, a.planSha));
    Unclaimed(me, me');
    SetKeeps(w, a.s, me');
  }

  lemma AcceptKeeps(w: World, a: Action)
    requires Inv(w) && a.Accept? && Enabled(w, a)
    ensures Inv(Apply(w, a))
  {
    hide ClaimsOk, RunOk, Shelved;
    var me := w.sessions[a.s];
    assert SessionOk(w, me);
    GrantedIsPlan(w.shelf.runs[me.bound.value], a.step);
    Unclaimed(me, me.(phase := Accepting(a.step, a.ok)));
    SetKeeps(w, a.s, me.(phase := Accepting(a.step, a.ok)));
  }

  lemma ClaimKeeps(w: World, a: Action)
    requires Inv(w) && a.Claim? && Enabled(w, a)
    ensures Inv(Apply(w, a))
  {
    hide RunOk, Clear, Shelved, Recorded;
    var me := w.sessions[a.s];
    var id, step := me.bound.value, me.phase.step;
    var w' := Apply(w, a);
    assert SessionOk(w, me);
    assert w'.shelf.runs == w.shelf.runs && w'.shelf.order == w.shelf.order;
    SameShelved(w.shelf, w'.shelf);
    if Claimable(w.shelf, id, step) {
      ClaimsGain(w, a.s, id, step);
    } else {
      Unclaimed(me, me.(phase := Idle));
      ClaimsSet(w, a.s, me.(phase := Idle));
      ClaimsSame(w.(sessions := w.sessions[a.s := me.(phase := Idle)]), w'.shelf);
    }
    forall i | 0 <= i < |w'.sessions| ensures SessionOk(w', w'.sessions[i]) {
      assert SessionOk(w, w.sessions[i]);
    }
  }

  lemma SameShelved(shelf: Shelf, shelf': Shelf)
    requires Shelved(shelf) && shelf'.runs == shelf.runs && shelf'.order == shelf.order
    ensures Shelved(shelf')
  {
  }

  lemma ClaimsSame(w: World, shelf: Shelf)
    requires ClaimsOk(w) && forall id :: Held(shelf, id) == Held(w.shelf, id)
    ensures ClaimsOk(w.(shelf := shelf))
  {
    hide HoldsStep, Held;
    var w' := w.(shelf := shelf);
    forall id, step | step in Held(shelf, id) ensures Reserved(w', id, step) {
      assert Reserved(w, id, step);
      var i :| 0 <= i < |w.sessions| && HoldsStep(w.sessions[i], id, step);
      assert HoldsStep(w'.sessions[i], id, step);
    }
  }

  lemma ReleaseKeeps(w: World, a: Action)
    requires Inv(w) && a.Release? && Enabled(w, a)
    ensures Inv(Apply(w, a))
  {
    hide RunOk, Clear, Shelved, Recorded;
    var me := w.sessions[a.s];
    var id, step := me.bound.value, me.phase.step;
    var w' := Apply(w, a);
    SameShelved(w.shelf, w'.shelf);
    ClaimsLose(w, a.s, id, step);
    forall i | 0 <= i < |w'.sessions| ensures SessionOk(w', w'.sessions[i]) {
      assert SessionOk(w, w.sessions[i]);
    }
  }

  lemma ReturnKeeps(w: World, a: Action)
    requires Inv(w) && a.Return? && Enabled(w, a)
    ensures Inv(Apply(w, a))
  {
    hide ClaimsOk, RunOk, Clear, Shelved, Recorded;
    var me := w.sessions[a.s];
    assert SessionOk(w, me);
    SetKeeps(w, a.s, me.(phase := Returned(me.phase.step, a.event)));
  }

  lemma RecordKeeps(w: World, a: Action)
    requires Inv(w) && a.Record? && Enabled(w, a)
    ensures Inv(Apply(w, a))
  {
    hide ClaimsOk, RunOk, Clear, Shelved, Recorded;
    var me := w.sessions[a.s];
    var id, step, e := me.bound.value, me.phase.step, me.phase.event;
    assert SessionOk(w, me);
    if e.None? {
      SetKeeps(w, a.s, me.(phase := Finished(step)));
    } else {
      if id in w.shelf.runs {
        RunOkAppends(w.shelf.runs[id], e.value);
      }
      AppendKeeps(w, a.s, e.value, Finished(step));
    }
  }

  lemma NoteKeeps(w: World, a: Action)
    requires Inv(w) && (a.Refuse? || a.Grant? || a.Report?) && Enabled(w, a)
    ensures Inv(Apply(w, a))
  {
    hide ClaimsOk, RunOk, Clear, Shelved, Recorded;
    var me := w.sessions[a.s];
    var id := me.bound.value;
    var e := if a.Refuse? then StepRefused(a.step)
             else if a.Grant? then Granted(me.phase.step, me.phase.planSha)
             else StepResult(me.phase.step, me.phase.ok);
    assert SessionOk(w, me);
    Unclaimed(me, me.(phase := Idle));
    if id in w.shelf.runs {
      if a.Report? {
        GrantedIsClear(w.shelf.runs[id], me.phase.step);
      }
      RunOkAppends(w.shelf.runs[id], e);
    }
    AppendKeeps(w, a.s, e, Idle);
  }

  lemma StepKeeps(w: World, a: Action)
    requires Inv(w) && Enabled(w, a)
    ensures Inv(Apply(w, a))
  {
    match a {
      case Create(id, run, cap) => CreateKeeps(w, id, run, cap);
      case Hello(s, id) =>
        hide ClaimsOk, RunOk, Shelved;
        Unclaimed(w.sessions[s], Session(Some(id), Idle));
        SetKeeps(w, s, Session(Some(id), Idle));
      case Leave(s) =>
        hide ClaimsOk, RunOk, Shelved;
        Unclaimed(w.sessions[s], Session(None, Idle));
        SetKeeps(w, s, Session(None, Idle));
      case Authorize(_, _, _) => AuthorizeKeeps(w, a);
      case Claim(_) => ClaimKeeps(w, a);
      case Return(_, _) => ReturnKeeps(w, a);
      case Record(_) => RecordKeeps(w, a);
      case Release(_) => ReleaseKeeps(w, a);
      case Accept(_, _, _, _) => AcceptKeeps(w, a);
      case Refuse(_, _) => NoteKeeps(w, a);
      case Grant(_) => NoteKeeps(w, a);
      case Report(_) => NoteKeeps(w, a);
    }
  }
}
