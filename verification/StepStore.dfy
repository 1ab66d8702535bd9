/** The run store of the governor, and the two checks that read it. */
module StepStore {
  import opened Prelude
  import opened Decimal

  datatype Event =
    | Granted(step: string, planSha: string)
    | StepResult(step: string, ok: bool)
    | StepRefused(step: string)
    | DelegationRefused(step: string)
    | ForgedStatus(step: string)

  /** delegated stands for the execution mode of the run's principal. */
  datatype Run = Run(decision: string, planSha: string, steps: nat, delegated: bool, events: seq<Event>)

  /** The store's fields: the runs by id, the ids in insertion order, and the steps in flight. */
  datatype Shelf = Shelf(runs: map<string, Run>, order: seq<string>, inflight: map<string, set<string>>)

  // ---- reading events --------------------------------------------------------------------------

  ghost predicate RanOk(events: seq<Event>, step: string) {
    StepResult(step, true) in events
  }

  ghost predicate Recorded(events: seq<Event>, step: string) {
    StepResult(step, true) in events || StepResult(step, false) in events
  }

  ghost predicate WasGranted(events: seq<Event>, step: string) {
    exists sha :: Granted(step, sha) in events
  }

  function Held(shelf: Shelf, run: string): set<string> {
    if run in shelf.inflight then shelf.inflight[run] else {}
  }

  // ---- the store's operations on values --------------------------------------------------------

  /** No effect once the run is evicted. */
  function Appended(shelf: Shelf, run: string, e: Event): Shelf {
    if run !in shelf.runs then shelf
    else shelf.(runs := shelf.runs[run := shelf.runs[run].(events := shelf.runs[run].events + [e])])
  }

  ghost predicate Claimable(shelf: Shelf, run: string, step: string) {
    run in shelf.runs && !Recorded(shelf.runs[run].events, step) && step !in Held(shelf, run)
  }

  ghost function Claimed(shelf: Shelf, run: string, step: string): Shelf {
    if run !in shelf.runs then shelf
    else shelf.(inflight := shelf.inflight[run := Held(shelf, run) + if Claimable(shelf, run, step) then {step} else {}])
  }

  function Released(shelf: Shelf, run: string, step: string): Shelf {
    if run !in shelf.inflight then shelf
    else if shelf.inflight[run] - {step} == {} then shelf.(inflight := shelf.inflight - {run})
    else shelf.(inflight := shelf.inflight[run := shelf.inflight[run] - {step}])
  }

  /** The oldest runs leave until the cap is met. */
  function Evicted(shelf: Shelf, cap: nat): Shelf
    decreases |shelf.order|
  {
    if |shelf.order| <= cap then shelf
    else Evicted(shelf.(runs := shelf.runs - {shelf.order[0]}, order := shelf.order[1..]), cap)
  }

  function Created(shelf: Shelf, id: string, run: Run, cap: nat): Shelf {
    Evicted(shelf.(runs := shelf.runs[id := run], order := if id in shelf.runs then shelf.order else shelf.order + [id]), cap)
  }

  ghost predicate Shelved(shelf: Shelf) {
    && (forall i, j | 0 <= i < j < |shelf.order| :: shelf.order[i] != shelf.order[j])
    && (forall id :: id in shelf.order <==> id in shelf.runs)
  }

  /** What is left is the youngest, at most as many as the cap allows, each as it was. */
  lemma {:induction false} EvictedKeepsYoungest(shelf: Shelf, cap: nat)
    requires Shelved(shelf)
    ensures Shelved(Evicted(shelf, cap)) && Evicted(shelf, cap).inflight == shelf.inflight
    ensures |Evicted(shelf, cap).order| == if |shelf.order| < cap then |shelf.order| else cap
    ensures Evicted(shelf, cap).order == shelf.order[|shelf.order| - |Evicted(shelf, cap).order|..]
    ensures forall id | id in Evicted(shelf, cap).runs :: id in shelf.runs && Evicted(shelf, cap).runs[id] == shelf.runs[id]
    decreases |shelf.order|
  {
    if |shelf.order| > cap {
      var next := shelf.(runs := shelf.runs - {shelf.order[0]}, order := shelf.order[1..]);
      forall id ensures id in next.order <==> id in next.runs {
        assert id in shelf.order <==> id == shelf.order[0] || id in shelf.order[1..];
      }
      EvictedKeepsYoungest(next, cap);
    }
  }

  class Store {
    var runs: map<string, Run>
    var order: seq<string>
    var inflight: map<string, set<string>>
    const maxRuns: nat

    constructor (cap: nat)
      ensures Value() == Shelf(map[], [], map[]) && maxRuns == cap && Shelved(Value())
    {
      runs, order, inflight, maxRuns := map[], [], map[], cap;
    }

    function Value(): Shelf
      reads this
    {
      Shelf(runs, order, inflight)
    }

    method Create(id: string, run: Run)
      requires Shelved(Value())
      modifies this
      ensures Value() == Created(old(Value()), id, run, maxRuns) && Shelved(Value())
    {
      ghost var before := Value();
      if id !in runs {
        order := order + [id];
      }
      runs := runs[id := run];
      CreatedShelved(before, id, run);
      EvictedKeepsYoungest(Value(), maxRuns);
      ghost var start := Value();
      while |order| > maxRuns
        invariant Evicted(Value(), maxRuns) == Evicted(start, maxRuns) && Value().inflight == before.inflight
        decreases |order|
      {
        runs := runs - {order[0]};
        order := order[1..];
      }
    }

    method Append(id: string, e: Event) returns (found: bool)
      modifies this
      ensures Value() == Appended(old(Value()), id, e) && (found <==> id in old(runs))
    {
      found := id in runs;
      if found {
        runs := runs[id := runs[id].(events := runs[id].events + [e])];
      }
    }

    method StepsRanOk(id: string) returns (steps: set<string>)
      ensures forall s :: s in steps <==> id in runs && RanOk(runs[id].events, s)
    {
      steps := {};
      if id !in runs {
        return;
      }
      var events := runs[id].events;
      for i := 0 to |events|
        invariant forall s :: s in steps <==> RanOk(events[..i], s)
      {
        assert events[..i + 1] == events[..i] + [events[i]];
        if events[i].StepResult? && events[i].ok {
          assert events[i] == StepResult(events[i].step, true);
          steps := steps + {events[i].step};
        }
      }
      assert events[..|events|] == events;
    }

    method StepsSeen(id: string) returns (granted: set<string>, done: set<string>)
      ensures forall s :: s in granted <==> id in runs && WasGranted(runs[id].events, s)
      ensures forall s :: s in done <==> id in runs && Recorded(runs[id].events, s)
    {
      granted, done := {}, {};
      if id !in runs {
        return;
      }
      var events := runs[id].events;
      for i := 0 to |events|
        invariant forall s :: s in granted <==> WasGranted(events[..i], s)
        invariant forall s :: s in done <==> Recorded(events[..i], s)
      {
        SeenGrow(events[..i], events[i]);
        assert events[..i + 1] == events[..i] + [events[i]];
        match events[i] {
          case Granted(step, _) => granted := granted + {step};
          case StepResult(step, _) => done := done + {step};
          case _ =>
        }
      }
      assert events[..|events|] == events;
    }

    method ClaimStep(id: string, step: string) returns (claimed: bool)
      modifies this`inflight
      ensures claimed <==> Claimable(old(Value()), id, step)
      ensures Value() == Claimed(old(Value()), id, step)
    {
      if id !in runs {
        return false;
      }
      var granted, done := StepsSeen(id);
      var held := if id in inflight then inflight[id] else {};
      claimed := step !in done && step !in held;
      inflight := inflight[id := if claimed then held + {step} else held];
      assert held + {} == held;
    }

    method ReleaseStep(id: string, step: string)
      modifies this`inflight
      ensures Value() == Released(old(Value()), id, step)
    {
      if id in inflight {
        inflight := inflight[id := inflight[id] - {step}];
        if inflight[id] == {} {
          inflight := inflight - {id};
        }
      }
    }

    /** The live gate in front of every step. */
    method AuthorizeStep(id: string, step: string, planSha: string) returns (refusal: Option<Refusal>)
      ensures refusal == Gate(if id in runs then Some(runs[id]) else None, step, planSha)
      ensures refusal.None? <==>
                && id in runs && runs[id].decision == "allow"
                && planSha != "" && planSha == runs[id].planSha
                && step != "" && (forall i | 0 <= i < |step| :: '0' <= step[i] <= '9') && 1 <= Val(step) <= runs[id].steps
                && forall j: nat | 1 <= j < Val(step) :: StepResult(DigitsOf(j), true) in runs[id].events
    {
      GateOpens(if id in runs then Some(runs[id]) else None, step, planSha);
      if id !in runs {
        return Some(UnknownRun);
      }
      var rec := runs[id];
      if rec.decision != "allow" {
        return Some(NotAllowed);
      }
      if planSha == "" {
        return Some(MissingPlan);
      }
      if planSha != rec.planSha {
        return Some(PlanDiffers);
      }
      if StepNumber(step) < 1 {
        return Some(InvalidStep);
      }
      var n := StepNumber(step);
      if n > rec.steps {
        return Some(BeyondPlan);
      }
      var missing: seq<string> := [];
      for i := 1 to n
        invariant missing == [] <==> UpstreamRan(rec.events, i)
      {
        var ok := StepsRanOk(id);
        UpstreamGrows(rec.events, i);
        if DigitsOf(i) !in ok {
          missing := missing + [DigitsOf(i)];
        }
      }
      if missing != [] {
        return Some(UpstreamMissing);
      }
      return None;
    }

    /** A cooperative result follows a grant of the same step, once. */
    method ResultAcceptable(id: string, step: string, planSha: string) returns (ok: bool)
      ensures ok <==> id in runs && Acceptable(runs[id], step, planSha)
      ensures ok <==>
                && id in runs && planSha != "" && planSha == runs[id].planSha
                && (exists sha :: Granted(step, sha) in runs[id].events)
                && StepResult(step, true) !in runs[id].events && StepResult(step, false) !in runs[id].events
    {
      if id !in runs {
        return false;
      }
      if planSha == "" || planSha != runs[id].planSha {
        return false;
      }
      var granted, done := StepsSeen(id);
      return step in granted && step !in done;
    }
  }

  lemma CreatedShelved(shelf: Shelf, id: string, run: Run)
    requires Shelved(shelf)
    ensures Shelved(shelf.(runs := shelf.runs[id := run], order := if id in shelf.runs then shelf.order else shelf.order + [id]))
  {
  }

  lemma SeenGrow(events: seq<Event>, e: Event)
    ensures forall s :: WasGranted(events + [e], s) <==> WasGranted(events, s) || (e.Granted? && e.step == s)
    ensures forall s :: Recorded(events + [e], s) <==> Recorded(events, s) || (e.StepResult? && e.step == s)
  {
    forall s ensures WasGranted(events + [e], s) <==> WasGranted(events, s) || (e.Granted? && e.step == s) {
      if WasGranted(events, s) {
        var sha :| Granted(s, sha) in events;
        assert Granted(s, sha) in events + [e];
      }
      if e.Granted? && e.step == s {
        assert Granted(s, e.planSha) in events + [e];
      }
    }
  }

  // ---- the checks ------------------------------------------------------------------------------

  datatype Refusal = UnknownRun | NotAllowed | MissingPlan | PlanDiffers | InvalidStep | BeyondPlan | UpstreamMissing

  /** The number a step id denotes; zero for an id that is no decimal number. */
  function StepNumber(step: string): nat {
    if step != "" && forall i | 0 <= i < |step| :: IsDigit(step[i]) then Val(step) else 0
  }

  ghost predicate UpstreamRan(events: seq<Event>, n: nat) {
    forall j: nat | 1 <= j < n :: RanOk(events, DigitsOf(j))
  }

  lemma UpstreamGrows(events: seq<Event>, n: nat)
    requires n >= 1
    ensures UpstreamRan(events, n + 1) <==> UpstreamRan(events, n) && RanOk(events, DigitsOf(n))
  {
    hide RanOk;
    if UpstreamRan(events, n) && RanOk(events, DigitsOf(n)) {
      forall j: nat | 1 <= j < n + 1 ensures RanOk(events, DigitsOf(j)) {
        assert j < n || j == n;
      }
    }
  }

  /** The first check that fails. */
  ghost function Gate(rec: Option<Run>, step: string, planSha: string): Option<Refusal> {
    if rec.None? then Some(UnknownRun)
    else if rec.value.decision != "allow" then Some(NotAllowed)
    else if planSha == "" then Some(MissingPlan)
    else if planSha != rec.value.planSha then Some(PlanDiffers)
    else if StepNumber(step) < 1 then Some(InvalidStep)
    else if StepNumber(step) > rec.value.steps then Some(BeyondPlan)
    else if !UpstreamRan(rec.value.events, StepNumber(step)) then Some(UpstreamMissing)
    else None
  }

  ghost predicate Acceptable(rec: Run, step: string, planSha: string) {
    planSha != "" && planSha == rec.planSha && WasGranted(rec.events, step) && !Recorded(rec.events, step)
  }

  /** The gate lets a step pass exactly if every earlier step of the pinned, allowed plan has an ok result. */
  lemma GateOpens(rec: Option<Run>, step: string, planSha: string)
    ensures Gate(rec, step, planSha).None? <==>
              && rec.Some? && rec.value.decision == "allow"
              && planSha != "" && planSha == rec.value.planSha
              && step != "" && (forall i | 0 <= i < |step| :: '0' <= step[i] <= '9') && 1 <= Val(step) <= rec.value.steps
              && forall j: nat | 1 <= j < Val(step) :: StepResult(DigitsOf(j), true) in rec.value.events
  {
    hide Val, DigitsOf;
    if rec.Some? {
      assert (forall i | 0 <= i < |step| :: IsDigit(step[i])) <==> forall i | 0 <= i < |step| :: '0' <= step[i] <= '9';
      UpstreamMeans(rec.value.events, StepNumber(step));
    }
  }

  lemma UpstreamMeans(events: seq<Event>, n: nat)
    ensures UpstreamRan(events, n) <==> forall j: nat | 1 <= j < n :: StepResult(DigitsOf(j), true) in events
  {
    if !UpstreamRan(events, n) {
      var j: nat :| 1 <= j < n && !RanOk(events, DigitsOf(j));
      assert StepResult(DigitsOf(j), true) !in events;
    } else {
      forall j: nat | 1 <= j < n ensures StepResult(DigitsOf(j), true) in events {
        assert RanOk(events, DigitsOf(j));
      }
    }
  }
}
