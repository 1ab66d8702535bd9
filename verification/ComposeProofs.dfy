/** What the two compositions mean: their runs, and the program counters they reach. */
module ComposeProofs {
  import opened Prelude
  import opened Workflow
  import opened Compose
  import Graph

  // ---- the product -----------------------------------------------------------------------------

  function JoinPc(s1: string, s2: string): string {
    Pair(Tag(A, s1), Tag(B, s2))
  }

  function Join(s1: State, s2: State): State {
    State(JoinPc(s1.pc, s2.pc), Both(s1.flags, s2.flags))
  }

  /** No program counter of the workflow holds the separator. */
  ghost predicate Plain(w: Workflow) {
    '|' !in w.entry && (forall s | s in w.states :: '|' !in s) &&
    forall t | t in w.transitions :: '|' !in t.src && '|' !in t.dst
  }

  /** The entry and every target are listed in states. */
  ghost predicate Listed(w: Workflow) {
    w.entry in w.states && forall t | t in w.transitions :: t.dst in w.states
  }

  /** Two runs side by side, at most one of which moves in each step. */
  ghost predicate Interleaved(run: seq<State>, r1: seq<State>, r2: seq<State>) {
    && |r1| == |run| && |r2| == |run|
    && (forall i | 0 <= i < |run| :: run[i] == Join(r1[i], r2[i]))
    && (forall i | 0 <= i < |run| - 1 :: r1[i] == r1[i + 1] || r2[i] == r2[i + 1])
  }

  ghost predicate IsInterleaving(w1: Workflow, w2: Workflow, run: seq<State>, r1: seq<State>, r2: seq<State>) {
    IsRun(w1, r1) && IsRun(w2, r2) && Interleaved(run, r1, r2)
  }

  lemma PairInjective(s1: string, s2: string, t1: string, t2: string)
    requires '|' !in s1 && '|' !in t1 && Pair(s1, s2) == Pair(t1, t2)
    ensures s1 == t1 && s2 == t2
  {
    assert Pair(s1, s2)[|s1|] == '|' && Pair(t1, t2)[|t1|] == '|';
    assert |s1| == |t1|;
    assert s1 == Pair(s1, s2)[..|s1|] && t1 == Pair(t1, t2)[..|t1|];
    assert s2 == Pair(s1, s2)[|s1| + 1..] && t2 == Pair(t1, t2)[|t1| + 1..];
  }

  lemma JoinedPcs(s1: string, s2: string, t1: string, t2: string)
    requires '|' !in s1 && '|' !in t1 && JoinPc(s1, s2) == JoinPc(t1, t2)
    ensures s1 == t1 && s2 == t2
  {
    PairInjective(Tag(A, s1), Tag(B, s2), Tag(A, t1), Tag(B, t2));
    TagInjective(A, s1, A, t1);
    TagInjective(B, s2, B, t2);
  }

  lemma PrefixedStates(w: Workflow, p: Side, s: string)
    ensures s in w.states <==> Tag(p, s) in Prefixed(w, p).states
  {
    if s in w.states {
      var i :| 0 <= i < |w.states| && w.states[i] == s;
      assert Prefixed(w, p).states[i] == Tag(p, s);
    }
    if Tag(p, s) in Prefixed(w, p).states {
      var i :| 0 <= i < |w.states| && Prefixed(w, p).states[i] == Tag(p, s);
      TagInjective(p, w.states[i], p, s);
    }
  }

  lemma PrefixedTransitions(w: Workflow, p: Side, t: Transition)
    requires t in w.transitions
    ensures TagTransition(p, t) in Prefixed(w, p).transitions
  {
    var i :| 0 <= i < |w.transitions| && w.transitions[i] == t;
    assert Prefixed(w, p).transitions[i] == TagTransition(p, t);
  }

  lemma Untagged(w: Workflow, p: Side, u: Transition) returns (t: Transition)
    requires u in Prefixed(w, p).transitions
    ensures t in w.transitions && u == TagTransition(p, t)
  {
    var i :| 0 <= i < |w.transitions| && Prefixed(w, p).transitions[i] == u;
    t := w.transitions[i];
  }

  lemma UntaggedState(w: Workflow, p: Side, x: string) returns (s: string)
    requires x in Prefixed(w, p).states
    ensures s in w.states && x == Tag(p, s)
  {
    var i :| 0 <= i < |w.states| && Prefixed(w, p).states[i] == x;
    s := w.states[i];
  }

  /** One step of the product is a step of one side. */
  lemma ParStepProjects(w1: Workflow, w2: Workflow, r: Workflow, s1: State, s2: State, s': State)
    returns (s1': State, s2': State)
    requires w1.states != [] && w2.states != [] && IsPar(w1, w2, r)
    requires Plain(w1) && '|' !in s1.pc && Steps(r, Join(s1, s2), s')
    ensures s' == Join(s1', s2') && Steps(w1, s1, s1') && Steps(w2, s2, s2') && (s1 == s1' || s2 == s2')
    ensures '|' !in s1'.pc
  {
    hide Prefixed, TagFlags, Both, Assign, Tag, Pair;
    s1', s2' := s1, s2;
    if s' != Join(s1, s2) {
      var t :| Fires(r, Join(s1, s2), t) && s' == After(Join(s1, s2), t);
      var a, b := Prefixed(w1, A), Prefixed(w2, B);
      assert ProductMove(a, b, t);
      if u, x2 :| LeftMove(a, b, t, u, x2) {
        var v := Untagged(w1, A, u);
        var n2 := UntaggedState(w2, B, x2);
        JoinedPcs(v.src, n2, s1.pc, s2.pc);
        s1' := After(s1, v);
        assert Fires(w1, s1, v);
        AssignBoth(A, s1.flags, s2.flags, v.updates);
      } else {
        var x1, u :| RightMove(a, b, t, x1, u);
        var v := Untagged(w2, B, u);
        var n1 := UntaggedState(w1, A, x1);
        JoinedPcs(n1, v.src, s1.pc, s2.pc);
        s2' := After(s2, v);
        assert Fires(w2, s2, v);
        AssignBoth(B, s1.flags, s2.flags, v.updates);
      }
    }
  }

  /** Every run of the product is a run of each side, interleaved. */
  lemma {:induction false} ParProjects(w1: Workflow, w2: Workflow, r: Workflow, run: seq<State>)
    returns (r1: seq<State>, r2: seq<State>)
    requires w1.states != [] && w2.states != [] && IsPar(w1, w2, r) && Plain(w1) && IsRun(r, run)
    ensures IsInterleaving(w1, w2, run, r1, r2) && '|' !in r1[|r1| - 1].pc
    decreases |run|
  {
    hide Both, Tag, Pair, Steps;
    if |run| == 1 {
      r1, r2 := [Init(w1)], [Init(w2)];
      assert run[0] == Join(Init(w1), Init(w2));
    } else {
      var last := |run| - 1;
      RunShrinks(r, run);
      r1, r2 := ParProjects(w1, w2, r, run[..last]);
      assert Steps(r, run[last - 1], run[last]);
      var s1, s2 := ParStepProjects(w1, w2, r, r1[last - 1], r2[last - 1], run[last]);
      RunGrows(w1, r1, s1);
      RunGrows(w2, r2, s2);
      r1, r2 := r1 + [s1], r2 + [s2];
    }
  }

  lemma {:induction false} RunStaysListed(w: Workflow, run: seq<State>, k: nat)
    requires Listed(w) && IsRun(w, run) && k < |run|
    ensures run[k].pc in w.states
  {
    if k > 0 {
      RunStaysListed(w, run, k - 1);
      assert Steps(w, run[k - 1], run[k]);
    }
  }

  /** A step of either side, the other standing still, is a step of the product. */
  lemma ParStepLifts(w1: Workflow, w2: Workflow, r: Workflow, s1: State, s2: State, s1': State, s2': State)
    requires w1.states != [] && w2.states != [] && IsPar(w1, w2, r)
    requires s1.pc in w1.states && s2.pc in w2.states
    requires Steps(w1, s1, s1') && Steps(w2, s2, s2') && (s1 == s1' || s2 == s2')
    ensures Steps(r, Join(s1, s2), Join(s1', s2'))
  {
    hide Prefixed, TagFlags, Both, Assign, Tag, Pair;
    var a, b := Prefixed(w1, A), Prefixed(w2, B);
    PrefixedStates(w1, A, s1.pc);
    PrefixedStates(w2, B, s2.pc);
    if s1 != s1' {
      var t :| Fires(w1, s1, t) && s1' == After(s1, t);
      var u := TagTransition(A, t);
      PrefixedTransitions(w1, A, t);
      var m := Transition(Pair(u.src, Tag(B, s2.pc)), Pair(u.dst, Tag(B, s2.pc)), u.updates);
      assert LeftMove(a, b, m, u, Tag(B, s2.pc));
      assert Fires(r, Join(s1, s2), m);
      AssignBoth(A, s1.flags, s2.flags, t.updates);
    } else if s2 != s2' {
      var t :| Fires(w2, s2, t) && s2' == After(s2, t);
      var u := TagTransition(B, t);
      PrefixedTransitions(w2, B, t);
      var m := Transition(Pair(Tag(A, s1.pc), u.src), Pair(Tag(A, s1.pc), u.dst), u.updates);
      assert RightMove(a, b, m, Tag(A, s1.pc), u);
      assert Fires(r, Join(s1, s2), m);
      AssignBoth(B, s1.flags, s2.flags, t.updates);
    }
  }

  lemma ParLifts(w1: Workflow, w2: Workflow, r: Workflow, run: seq<State>, r1: seq<State>, r2: seq<State>)
    requires w1.states != [] && w2.states != [] && IsPar(w1, w2, r) && Listed(w1) && Listed(w2)
    requires IsInterleaving(w1, w2, run, r1, r2)
    ensures IsRun(r, run)
  {
    hide Both, Tag, Pair, Steps;
    assert run[0] == Join(Init(w1), Init(w2)) == Init(r);
    forall i | 0 <= i < |run| - 1 ensures Steps(r, run[i], run[i + 1]) {
      RunStaysListed(w1, r1, i);
      RunStaysListed(w2, r2, i);
      assert Steps(w1, r1[i], r1[i + 1]) && Steps(w2, r2[i], r2[i + 1]);
      ParStepLifts(w1, w2, r, r1[i], r2[i], r1[i + 1], r2[i + 1]);
    }
  }

  /** The runs of the product are exactly the interleavings of a run of each side, flags included. */
  lemma ParRuns(w1: Workflow, w2: Workflow, r: Workflow, run: seq<State>)
    requires w1.states != [] && w2.states != [] && IsPar(w1, w2, r)
    requires Plain(w1) && Listed(w1) && Listed(w2)
    ensures IsRun(r, run) <==> exists r1, r2 :: IsInterleaving(w1, w2, run, r1, r2)
  {
    hide IsPar, IsRun;
    if IsRun(r, run) {
      var r1, r2 := ParProjects(w1, w2, r, run);
    }
    if r1, r2 :| IsInterleaving(w1, w2, run, r1, r2) {
      ParLifts(w1, w2, r, run, r1, r2);
    }
  }

  /** A run may wait at its end, or at its start, for as long as it likes. */
  lemma RunWaits(w: Workflow, run: seq<State>, n: nat)
    requires IsRun(w, run)
    ensures IsRun(w, run + seq(n, _ => run[|run| - 1]))
    ensures IsRun(w, seq(n, _ => Init(w)) + run)
  {
  }

  ghost predicate PairReached(w1: Workflow, w2: Workflow, pc: string, s1: string, s2: string) {
    RunReaches(w1, s1) && RunReaches(w2, s2) && pc == JoinPc(s1, s2)
  }

  /** The product reaches exactly the pairs of pcs that its sides reach. */
  lemma ParReaches(w1: Workflow, w2: Workflow, r: Workflow, pc: string)
    requires w1.states != [] && w2.states != [] && IsPar(w1, w2, r)
    requires Plain(w1) && Listed(w1) && Listed(w2)
    ensures RunReaches(r, pc) <==> exists s1, s2 :: PairReached(w1, w2, pc, s1, s2)
  {
    hide IsPar, Steps, Pair, Tag;
    if RunReaches(r, pc) {
      var run :| Visits(r, pc, run);
      var r1, r2 := ParProjects(w1, w2, r, run);
      var last := |r1| - 1;
      assert Visits(w1, r1[last].pc, r1) && Visits(w2, r2[last].pc, r2);
      assert PairReached(w1, w2, pc, r1[last].pc, r2[last].pc);
    }
    if s1, s2 :| PairReached(w1, w2, pc, s1, s2) {
      var u1 :| Visits(w1, s1, u1);
      var u2 :| Visits(w2, s2, u2);
      OneAfterTheOther(w1, w2, r, u1, u2);
    }
  }

  /** The left side runs to its end first, then the right side does. */
  lemma OneAfterTheOther(w1: Workflow, w2: Workflow, r: Workflow, u1: seq<State>, u2: seq<State>)
    requires w1.states != [] && w2.states != [] && IsPar(w1, w2, r) && Listed(w1) && Listed(w2)
    requires IsRun(w1, u1) && IsRun(w2, u2)
    ensures RunReaches(r, Join(u1[|u1| - 1], u2[|u2| - 1]).pc)
  {
    hide IsPar, Pair, Tag, Both, Steps;
    var r1 := u1 + seq(|u2|, _ => u1[|u1| - 1]);
    var r2 := seq(|u1|, _ => Init(w2)) + u2;
    RunWaits(w1, u1, |u2|);
    RunWaits(w2, u2, |u1|);
    var run := seq(|r1|, i requires 0 <= i < |r1| => Join(r1[i], r2[i]));
    assert Interleaved(run, r1, r2);
    ParLifts(w1, w2, r, run, r1, r2);
    assert Visits(r, Join(u1[|u1| - 1], u2[|u2| - 1]).pc, run);
  }

  /** What reachable_states returns on the product: as many pcs as the two counts multiplied. */
  lemma ParReachableCount(w1: Workflow, w2: Workflow, r: Workflow, left: set<string>, right: set<string>, both: set<string>)
    requires w1.states != [] && w2.states != [] && IsPar(w1, w2, r)
    requires Plain(w1) && Listed(w1) && Listed(w2)
    requires forall s :: s in left <==> Graph.Reachable(Edges(w1.transitions), w1.entry, s)
    requires forall s :: s in right <==> Graph.Reachable(Edges(w2.transitions), w2.entry, s)
    requires forall s :: s in both <==> Graph.Reachable(Edges(r.transitions), r.entry, s)
    ensures both == Rows(left, right)
    ensures |both| == |left| * |right|
  {
    hide IsPar, Pair, Tag, Graph.Reachable;
    forall pc ensures pc in both <==> exists s1, s2 :: s1 in left && s2 in right && pc == JoinPc(s1, s2) {
      EdgesReachWhatRunsVisit(r, pc);
      ParReaches(w1, w2, r, pc);
      forall s1, s2 ensures PairReached(w1, w2, pc, s1, s2) <==> s1 in left && s2 in right && pc == JoinPc(s1, s2) {
        EdgesReachWhatRunsVisit(w1, s1);
        EdgesReachWhatRunsVisit(w2, s2);
      }
    }
    forall s | s in left ensures '|' !in s {
      EdgesReachWhatRunsVisit(w1, s);
      var run :| Visits(w1, s, run);
      RunStaysListed(w1, run, |run| - 1);
    }
    RowsCount(left, right);
  }

  ghost function Row(x: string, right: set<string>): set<string> {
    set s2 | s2 in right :: JoinPc(x, s2)
  }

  ghost function Rows(left: set<string>, right: set<string>): set<string> {
    set s1, s2 | s1 in left && s2 in right :: JoinPc(s1, s2)
  }

  lemma {:induction false} RowsCount(left: set<string>, right: set<string>)
    requires forall s | s in left :: '|' !in s
    ensures |Rows(left, right)| == |left| * |right|
    decreases |left|
  {
    hide JoinPc;
    if left == {} {
      assert Rows(left, right) == {};
    } else {
      var x :| x in left;
      RowsSplit(x, left, right);
      hide Rows, Row;
      RowsApart(x, left - {x}, right);
      RowsCount(left - {x}, right);
      RowCount(x, right);
      Distributes(|left|, |right|);
    }
  }

  lemma RowsSplit(x: string, left: set<string>, right: set<string>)
    requires x in left
    ensures Rows(left, right) == Rows(left - {x}, right) + Row(x, right)
  {
    hide JoinPc;
  }

  lemma RowsApart(x: string, left: set<string>, right: set<string>)
    requires x !in left && '|' !in x && forall s | s in left :: '|' !in s
    ensures Rows(left, right) !! Row(x, right)
  {
    hide JoinPc;
    forall pc | pc in Rows(left, right) ensures pc !in Row(x, right) {
      var s1, s2 :| s1 in left && s2 in right && pc == JoinPc(s1, s2);
      if t2 :| t2 in right && pc == JoinPc(x, t2) {
        JoinedPcs(s1, s2, x, t2);
      }
    }
  }

  lemma Distributes(m: int, n: int)
    ensures m * n == (m - 1) * n + n
  {
  }

  lemma {:induction false} RowCount(x: string, right: set<string>)
    requires '|' !in x
    ensures |Row(x, right)| == |right|
    decreases |right|
  {
    hide JoinPc;
    if right == {} {
      assert Row(x, right) == {};
    } else {
      var y :| y in right;
      assert Row(x, right) == Row(x, right - {y}) + {JoinPc(x, y)};
      forall s2 | s2 in right - {y} ensures JoinPc(x, s2) != JoinPc(x, y) {
        if JoinPc(x, s2) == JoinPc(x, y) {
          JoinedPcs(x, s2, x, y);
        }
      }
      RowCount(x, right - {y});
    }
  }

  // ---- the sequence ----------------------------------------------------------------------------

  /** While the first workflow runs, the flags of the second keep their initial values. */
  function InFirst(w2: Workflow, s1: State): State {
    State(Tag(A, s1.pc), Both(s1.flags, w2.flags))
  }

  /** While the second runs, the flags of the first keep the values they ended with. */
  function InSecond(ended: Flags, s2: State): State {
    State(Tag(B, s2.pc), Both(ended, s2.flags))
  }

  ghost predicate Follows(w2: Workflow, run: seq<State>, r1: seq<State>, r2: seq<State>)
    requires r1 != []
  {
    && |run| == |r1| + |r2|
    && (forall i | 0 <= i < |r1| :: run[i] == InFirst(w2, r1[i]))
    && (forall j | 0 <= j < |r2| :: run[|r1| + j] == InSecond(r1[|r1| - 1].flags, r2[j]))
  }

  /** A run of the first and then, if it ended at its terminal, perhaps a run of the second. */
  ghost predicate IsSequel(w1: Workflow, w2: Workflow, run: seq<State>, r1: seq<State>, r2: seq<State>)
    requires w1.states != []
  {
    && IsRun(w1, r1)
    && (r2 == [] || (r1[|r1| - 1].pc == Terminal(w1) && IsRun(w2, r2)))
    && Follows(w2, run, r1, r2)
  }

  lemma AssignNothing(flags: Flags)
    ensures Assign(flags, map[]) == flags
  {
  }

  lemma FirstStep(w1: Workflow, w2: Workflow, r: Workflow, s1: State, s': State) returns (s1': State)
    requires w1.states != [] && IsSeq(w1, w2, r) && Steps(r, InFirst(w2, s1), s')
    ensures (s' == InFirst(w2, s1') && Steps(w1, s1, s1'))
         || (s1.pc == Terminal(w1) && s' == InSecond(s1.flags, Init(w2)))
  {
    hide Prefixed, TagFlags, Both, Assign, Tag;
    s1' := s1;
    if s' != InFirst(w2, s1) {
      var t :| Fires(r, InFirst(w2, s1), t) && s' == After(InFirst(w2, s1), t);
      if t in Prefixed(w1, A).transitions {
        var v := Untagged(w1, A, t);
        TagInjective(A, v.src, A, s1.pc);
        s1' := After(s1, v);
        assert Fires(w1, s1, v);
        AssignBoth(A, s1.flags, w2.flags, v.updates);
      } else if t in Prefixed(w2, B).transitions {
        var v := Untagged(w2, B, t);
        TagInjective(B, v.src, A, s1.pc);
      } else {
        TagInjective(A, Terminal(w1), A, s1.pc);
        AssignNothing(Both(s1.flags, w2.flags));
      }
    }
  }

  lemma SecondStep(w1: Workflow, w2: Workflow, r: Workflow, ended: Flags, s2: State, s': State) returns (s2': State)
    requires w1.states != [] && IsSeq(w1, w2, r) && Steps(r, InSecond(ended, s2), s')
    ensures s' == InSecond(ended, s2') && Steps(w2, s2, s2')
  {
    hide Prefixed, TagFlags, Both, Assign, Tag;
    s2' := s2;
    if s' != InSecond(ended, s2) {
      var t :| Fires(r, InSecond(ended, s2), t) && s' == After(InSecond(ended, s2), t);
      if t in Prefixed(w1, A).transitions {
        var v := Untagged(w1, A, t);
        TagInjective(A, v.src, B, s2.pc);
      } else if t in Prefixed(w2, B).transitions {
        var v := Untagged(w2, B, t);
        TagInjective(B, v.src, B, s2.pc);
        s2' := After(s2, v);
        assert Fires(w2, s2, v);
        AssignBoth(B, ended, s2.flags, v.updates);
      } else {
        TagInjective(A, Terminal(w1), B, s2.pc);
      }
    }
  }

  lemma {:induction false} SeqProjects(w1: Workflow, w2: Workflow, r: Workflow, run: seq<State>)
    returns (r1: seq<State>, r2: seq<State>)
    requires w1.states != [] && IsSeq(w1, w2, r) && IsRun(r, run)
    ensures IsSequel(w1, w2, run, r1, r2)
    decreases |run|
  {
    hide Both, Tag, Steps, Terminal;
    if |run| == 1 {
      r1, r2 := [Init(w1)], [];
      assert run[0] == InFirst(w2, Init(w1));
    } else {
      var last := |run| - 1;
      RunShrinks(r, run);
      r1, r2 := SeqProjects(w1, w2, r, run[..last]);
      assert Steps(r, run[last - 1], run[last]);
      if r2 == [] {
        var s1 := FirstStep(w1, w2, r, r1[last - 1], run[last]);
        if run[last] == InFirst(w2, s1) && Steps(w1, r1[last - 1], s1) {
          RunGrows(w1, r1, s1);
          r1 := r1 + [s1];
        } else {
          r2 := [Init(w2)];
        }
      } else {
        assert run[last - 1] == run[|r1| + (|r2| - 1)];
        var s2 := SecondStep(w1, w2, r, r1[|r1| - 1].flags, r2[|r2| - 1], run[last]);
        RunGrows(w2, r2, s2);
        r2 := r2 + [s2];
      }
    }
  }

  lemma FirstStepLifts(w1: Workflow, w2: Workflow, r: Workflow, s1: State, s1': State)
    requires w1.states != [] && IsSeq(w1, w2, r) && Steps(w1, s1, s1')
    ensures Steps(r, InFirst(w2, s1), InFirst(w2, s1'))
  {
    hide Prefixed, TagFlags, Both, Assign, Tag;
    if s1 != s1' {
      var t :| Fires(w1, s1, t) && s1' == After(s1, t);
      PrefixedTransitions(w1, A, t);
      assert Fires(r, InFirst(w2, s1), TagTransition(A, t));
      AssignBoth(A, s1.flags, w2.flags, t.updates);
    }
  }

  lemma SecondStepLifts(w1: Workflow, w2: Workflow, r: Workflow, ended: Flags, s2: State, s2': State)
    requires w1.states != [] && IsSeq(w1, w2, r) && Steps(w2, s2, s2')
    ensures Steps(r, InSecond(ended, s2), InSecond(ended, s2'))
  {
    hide Prefixed, TagFlags, Both, Assign, Tag;
    if s2 != s2' {
      var t :| Fires(w2, s2, t) && s2' == After(s2, t);
      PrefixedTransitions(w2, B, t);
      assert Fires(r, InSecond(ended, s2), TagTransition(B, t));
      AssignBoth(B, ended, s2.flags, t.updates);
    }
  }

  lemma LinkStepLifts(w1: Workflow, w2: Workflow, r: Workflow, s1: State)
    requires w1.states != [] && IsSeq(w1, w2, r) && s1.pc == Terminal(w1)
    ensures Steps(r, InFirst(w2, s1), InSecond(s1.flags, Init(w2)))
  {
    assert Fires(r, InFirst(w2, s1), Link(w1, w2));
    AssignNothing(Both(s1.flags, w2.flags));
  }

  lemma SeqLifts(w1: Workflow, w2: Workflow, r: Workflow, run: seq<State>, r1: seq<State>, r2: seq<State>)
    requires w1.states != [] && IsSeq(w1, w2, r) && IsSequel(w1, w2, run, r1, r2)
    ensures IsRun(r, run)
  {
    hide Both, Tag, Steps, Terminal, IsSeq;
    assert run[0] == InFirst(w2, Init(w1)) == Init(r) by { SeqStarts(w1, w2, r); }
    forall i | 0 <= i < |run| - 1 ensures Steps(r, run[i], run[i + 1]) {
      if i < |r1| - 1 {
        assert Steps(w1, r1[i], r1[i + 1]);
        FirstStepLifts(w1, w2, r, r1[i], r1[i + 1]);
      } else if i == |r1| - 1 {
        assert run[i + 1] == run[|r1| + 0];
        LinkStepLifts(w1, w2, r, r1[i]);
      } else {
        var j := i - |r1|;
        assert run[i] == run[|r1| + j] && run[i + 1] == run[|r1| + (j + 1)];
        assert Steps(w2, r2[j], r2[j + 1]);
        SecondStepLifts(w1, w2, r, r1[|r1| - 1].flags, r2[j], r2[j + 1]);
      }
    }
  }

  lemma SeqStarts(w1: Workflow, w2: Workflow, r: Workflow)
    requires w1.states != [] && IsSeq(w1, w2, r)
    ensures Init(r) == InFirst(w2, Init(w1))
  {
  }

  /** The runs of the sequence are exactly a run of the first followed by a run of the second. */
  lemma SeqRuns(w1: Workflow, w2: Workflow, r: Workflow, run: seq<State>)
    requires w1.states != [] && IsSeq(w1, w2, r)
    ensures IsRun(r, run) <==> exists r1, r2 :: IsSequel(w1, w2, run, r1, r2)
  {
    hide IsSeq, IsRun;
    if IsRun(r, run) {
      var r1, r2 := SeqProjects(w1, w2, r, run);
    }
    if r1, r2 :| IsSequel(w1, w2, run, r1, r2) {
      SeqLifts(w1, w2, r, run, r1, r2);
    }
  }

  /** The second workflow is reached exactly when the first can reach its terminal. */
  lemma SeqReaches(w1: Workflow, w2: Workflow, r: Workflow, s: string)
    requires w1.states != [] && IsSeq(w1, w2, r)
    ensures RunReaches(r, Tag(A, s)) <==> RunReaches(w1, s)
    ensures RunReaches(r, Tag(B, s)) <==> RunReaches(w1, Terminal(w1)) && RunReaches(w2, s)
  {
    hide IsSeq, Both, Tag, Steps, Terminal;
    forall p | RunReaches(r, Tag(p, s))
      ensures if p == A then RunReaches(w1, s) else RunReaches(w1, Terminal(w1)) && RunReaches(w2, s)
    {
      var run :| Visits(r, Tag(p, s), run);
      var r1, r2 := SeqProjects(w1, w2, r, run);
      assert Visits(w1, r1[|r1| - 1].pc, r1);
      if r2 == [] {
        TagInjective(A, r1[|r1| - 1].pc, p, s);
      } else {
        assert run[|run| - 1] == run[|r1| + (|r2| - 1)];
        TagInjective(B, r2[|r2| - 1].pc, p, s);
        assert Visits(w2, s, r2);
      }
    }
    if RunReaches(w1, s) {
      var r1 :| Visits(w1, s, r1);
      var run := seq(|r1|, i requires 0 <= i < |r1| => InFirst(w2, r1[i]));
      SeqLifts(w1, w2, r, run, r1, []);
      assert Visits(r, Tag(A, s), run);
    }
    if RunReaches(w1, Terminal(w1)) && RunReaches(w2, s) {
      var r1: seq<State> :| Visits(w1, Terminal(w1), r1);
      var r2 :| Visits(w2, s, r2);
      var ended := r1[|r1| - 1].flags;
      var run := seq(|r1|, i requires 0 <= i < |r1| => InFirst(w2, r1[i])) + seq(|r2|, j requires 0 <= j < |r2| => InSecond(ended, r2[j]));
      SeqLifts(w1, w2, r, run, r1, r2);
      assert Visits(r, Tag(B, s), run);
    }
  }
}
