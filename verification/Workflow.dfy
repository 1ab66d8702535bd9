/** Workflows as guard-free automata with flags, their runs, and the two ways to compose them. */
module Workflow {
  import Graph

  datatype Value = Truth(b: bool) | Number(n: int)
  type Flags = map<string, Value>

  datatype Transition = Transition(src: string, dst: string, updates: Flags)

  /** flags holds the initial values; the last of states is the terminal pc. */
  datatype Workflow = Workflow(states: seq<string>, entry: string, flags: Flags, transitions: seq<Transition>)

  // ---- runs of the emitted specification -------------------------------------------------------

  datatype State = State(pc: string, flags: Flags)

  function Init(w: Workflow): State {
    State(w.entry, w.flags)
  }

  /** Only declared flags are assigned; a flag the transition does not name keeps its value. */
  function Assign(flags: Flags, updates: Flags): Flags {
    map f | f in flags :: if f in updates then updates[f] else flags[f]
  }

  function After(s: State, t: Transition): State {
    State(t.dst, Assign(s.flags, t.updates))
  }

  ghost predicate Fires(w: Workflow, s: State, t: Transition) {
    t in w.transitions && t.src == s.pc
  }

  ghost predicate Moves(w: Workflow, s: State, s': State) {
    exists t :: Fires(w, s, t) && s' == After(s, t)
  }

  /** A transition, or a stuttering step: the terminal self-loop changes nothing either. */
  ghost predicate Steps(w: Workflow, s: State, s': State) {
    s == s' || Moves(w, s, s')
  }

  ghost predicate IsRun(w: Workflow, run: seq<State>) {
    run != [] && run[0] == Init(w) && forall i | 0 <= i < |run| - 1 :: Steps(w, run[i], run[i + 1])
  }

  ghost predicate Visits(w: Workflow, pc: string, run: seq<State>) {
    IsRun(w, run) && run[|run| - 1].pc == pc
  }

  ghost predicate RunReaches(w: Workflow, pc: string) {
    exists run :: Visits(w, pc, run)
  }

  lemma RunGrows(w: Workflow, run: seq<State>, s: State)
    requires IsRun(w, run) && Steps(w, run[|run| - 1], s)
    ensures IsRun(w, run + [s])
  {
  }

  lemma RunShrinks(w: Workflow, run: seq<State>)
    requires IsRun(w, run) && |run| > 1
    ensures IsRun(w, run[..|run| - 1])
  {
    var init := run[..|run| - 1];
    forall i | 0 <= i < |init| - 1 ensures Steps(w, init[i], init[i + 1]) {
      assert Steps(w, run[i], run[i + 1]);
    }
  }

  function Edges(ts: seq<Transition>): (edges: seq<Graph.Edge>)
    ensures |edges| == |ts| && forall i | 0 <= i < |ts| :: edges[i] == Graph.Edge(ts[i].src, ts[i].dst)
  {
    seq(|ts|, i requires 0 <= i < |ts| => Graph.Edge(ts[i].src, ts[i].dst))
  }

  /** Flags guard nothing: the edge search of reachable_states finds exactly the pcs that runs visit. */
  lemma EdgesReachWhatRunsVisit(w: Workflow, pc: string)
    ensures Graph.Reachable(Edges(w.transitions), w.entry, pc) <==> RunReaches(w, pc)
  {
    if Graph.Reachable(Edges(w.transitions), w.entry, pc) {
      var path :| Graph.Leads(Edges(w.transitions), w.entry, pc, path);
      PathHasRun(w, pc, path);
    }
    if RunReaches(w, pc) {
      var run :| Visits(w, pc, run);
      RunHasPath(w, pc, run);
    }
  }

  lemma {:induction false} PathHasRun(w: Workflow, pc: string, path: seq<string>)
    requires Graph.Leads(Edges(w.transitions), w.entry, pc, path)
    ensures RunReaches(w, pc)
    decreases |path|
  {
    if |path| == 1 {
      assert Visits(w, pc, [Init(w)]);
    } else {
      var last := |path| - 1;
      assert Graph.Leads(Edges(w.transitions), w.entry, path[last - 1], path[..last]);
      PathHasRun(w, path[last - 1], path[..last]);
      var run :| Visits(w, path[last - 1], run);
      assert Graph.Step(Edges(w.transitions), path[last - 1], path[last]);
      var i :| 0 <= i < |w.transitions| && Edges(w.transitions)[i] == Graph.Edge(path[last - 1], pc);
      var s := After(run[|run| - 1], w.transitions[i]);
      assert Fires(w, run[|run| - 1], w.transitions[i]);
      RunGrows(w, run, s);
      assert Visits(w, pc, run + [s]);
    }
  }

  lemma {:induction false} RunHasPath(w: Workflow, pc: string, run: seq<State>)
    requires Visits(w, pc, run)
    ensures Graph.Reachable(Edges(w.transitions), w.entry, pc)
    decreases |run|
  {
    if |run| == 1 {
      Graph.ReachSelf(Edges(w.transitions), w.entry);
    } else {
      var last := |run| - 1;
      assert Visits(w, run[last - 1].pc, run[..last]);
      RunHasPath(w, run[last - 1].pc, run[..last]);
      assert Steps(w, run[last - 1], run[last]);
      if run[last - 1] != run[last] {
        var t :| Fires(w, run[last - 1], t) && run[last] == After(run[last - 1], t);
        var i :| 0 <= i < |w.transitions| && w.transitions[i] == t;
        assert Edges(w.transitions)[i] == Graph.Edge(t.src, t.dst);
        assert Graph.Step(Edges(w.transitions), t.src, t.dst);
        Graph.ReachStep(Edges(w.transitions), w.entry, t.src, t.dst);
      }
    }
  }

  // ---- name spaces ---------------------------------------------------------------------------

  datatype Side = A | B

  function Tag(p: Side, s: string): string {
    (if p == A then "a_" else "b_") + s
  }

  lemma TagInjective(p: Side, s: string, q: Side, t: string)
    requires Tag(p, s) == Tag(q, t)
    ensures p == q && s == t
  {
    assert Tag(p, s)[0] == Tag(q, t)[0];
    assert Tag(p, s)[2..] == s && Tag(q, t)[2..] == t;
  }

  lemma TagsDiffer()
    ensures forall p, s, q, t :: Tag(p, s) == Tag(q, t) ==> p == q && s == t
  {
    forall p, s, q, t | Tag(p, s) == Tag(q, t) ensures p == q && s == t {
      TagInjective(p, s, q, t);
    }
  }

  function TagFlags(p: Side, flags: Flags): Flags {
    TagsDiffer();
    map f | f in flags :: Tag(p, f) := flags[f]
  }

  function TagTransition(p: Side, t: Transition): Transition {
    Transition(Tag(p, t.src), Tag(p, t.dst), TagFlags(p, t.updates))
  }

  /** _prefix */
  function Prefixed(w: Workflow, p: Side): Workflow {
    Workflow(seq(|w.states|, i requires 0 <= i < |w.states| => Tag(p, w.states[i])),
             Tag(p, w.entry),
             TagFlags(p, w.flags),
             seq(|w.transitions|, i requires 0 <= i < |w.transitions| => TagTransition(p, w.transitions[i])))
  }

  /** The flags of both operands side by side. */
  function Both(left: Flags, right: Flags): Flags {
    TagFlags(A, left) + TagFlags(B, right)
  }

  lemma TagFlagsAt(p: Side, flags: Flags, q: Side, f: string)
    ensures Tag(q, f) in TagFlags(p, flags) <==> p == q && f in flags
    ensures p == q && f in flags ==> TagFlags(p, flags)[Tag(q, f)] == flags[f]
  {
    hide Tag;
    TagsDiffer();
  }

  lemma TagFlagsKey(p: Side, flags: Flags, x: string) returns (f: string)
    requires x in TagFlags(p, flags)
    ensures f in flags && x == Tag(p, f)
  {
    hide Tag;
    f :| f in flags && x == Tag(p, f);
  }

  lemma TaggedKeys(p: Side, left: Flags, right: Flags)
    requires left.Keys == right.Keys
    ensures TagFlags(p, left).Keys == TagFlags(p, right).Keys
  {
    hide Tag;
  }

  /** A tagged update reaches its own side ... */
  lemma AssignTagged(p: Side, flags: Flags, updates: Flags)
    ensures Assign(TagFlags(p, flags), TagFlags(p, updates)) == TagFlags(p, Assign(flags, updates))
  {
    hide Tag;
    TaggedKeys(p, flags, Assign(flags, updates));
    forall x | x in TagFlags(p, flags)
      ensures Assign(TagFlags(p, flags), TagFlags(p, updates))[x] == TagFlags(p, Assign(flags, updates))[x]
    {
      var f := TagFlagsKey(p, flags, x);
      TagFlagsAt(p, flags, p, f);
      TagFlagsAt(p, updates, p, f);
      TagFlagsAt(p, Assign(flags, updates), p, f);
    }
  }

  /** ... and leaves the other alone. */
  lemma AssignOther(p: Side, flags: Flags, q: Side, updates: Flags)
    requires p != q
    ensures Assign(TagFlags(p, flags), TagFlags(q, updates)) == TagFlags(p, flags)
  {
    hide Tag;
    forall x | x in TagFlags(p, flags) ensures x !in TagFlags(q, updates) {
      var f := TagFlagsKey(p, flags, x);
      TagFlagsAt(q, updates, p, f);
    }
  }

  lemma AssignUnion(left: Flags, right: Flags, updates: Flags)
    ensures Assign(left + right, updates) == Assign(left, updates) + Assign(right, updates)
  {
  }

  lemma AssignBoth(p: Side, left: Flags, right: Flags, updates: Flags)
    ensures Assign(Both(left, right), TagFlags(p, updates))
         == if p == A then Both(Assign(left, updates), right) else Both(left, Assign(right, updates))
  {
    hide TagFlags, Assign;
    AssignUnion(TagFlags(A, left), TagFlags(B, right), TagFlags(p, updates));
    if p == A {
      AssignTagged(A, left, updates);
      AssignOther(B, right, A, updates);
    } else {
      AssignOther(A, left, B, updates);
      AssignTagged(B, right, updates);
    }
  }
}
