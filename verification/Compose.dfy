/** compose: the interleaving product and the sequence of two workflows, proved against the runs of both. */
module Compose {
  import opened Prelude
  import opened Workflow
  import Graph

  function Pair(s1: string, s2: string): string {
    s1 + "|" + s2
  }

  function Terminal(w: Workflow): string
    requires w.states != []
  {
    w.states[|w.states| - 1]
  }

  // ---- what the product holds ------------------------------------------------------------------

  ghost predicate LeftMove(a: Workflow, b: Workflow, t: Transition, u: Transition, s2: string) {
    u in a.transitions && u.src in a.states && s2 in b.states &&
    t == Transition(Pair(u.src, s2), Pair(u.dst, s2), u.updates)
  }

  ghost predicate RightMove(a: Workflow, b: Workflow, t: Transition, s1: string, u: Transition) {
    u in b.transitions && u.src in b.states && s1 in a.states &&
    t == Transition(Pair(s1, u.src), Pair(s1, u.dst), u.updates)
  }

  ghost predicate ProductMove(a: Workflow, b: Workflow, t: Transition) {
    (exists u, s2 :: LeftMove(a, b, t, u, s2)) || (exists s1, u :: RightMove(a, b, t, s1, u))
  }

  ghost predicate ProductState(a: Workflow, b: Workflow, pc: string) {
    exists s1, s2 :: s1 in a.states && s2 in b.states && pc == Pair(s1, s2)
  }

  ghost predicate IsPar(w1: Workflow, w2: Workflow, r: Workflow)
    requires w1.states != [] && w2.states != []
  {
    var a, b := Prefixed(w1, A), Prefixed(w2, B);
    && r.entry == Pair(a.entry, b.entry)
    && r.flags == Both(w1.flags, w2.flags)
    && r.states != [] && Terminal(r) == Pair(Terminal(a), Terminal(b))
    && Terminal(r) !in r.states[..|r.states| - 1]
    && (forall pc :: pc in r.states <==> ProductState(a, b, pc))
    && (forall t :: t in r.transitions <==> ProductMove(a, b, t))
  }

  function Link(w1: Workflow, w2: Workflow): Transition
    requires w1.states != []
  {
    Transition(Tag(A, Terminal(w1)), Tag(B, w2.entry), map[])
  }

  ghost predicate IsSeq(w1: Workflow, w2: Workflow, r: Workflow)
    requires w1.states != []
  {
    var a, b := Prefixed(w1, A), Prefixed(w2, B);
    && r.entry == a.entry
    && r.flags == Both(w1.flags, w2.flags)
    && r.states == a.states + b.states
    && (forall t :: t in r.transitions <==> t in a.transitions || t in b.transitions || t == Link(w1, w2))
  }

  // ---- the loops -----------------------------------------------------------------------------

  method PairsOf(a: Workflow, b: Workflow, s1: string) returns (row: seq<string>)
    requires s1 in a.states
    ensures forall pc | pc in row :: ProductState(a, b, pc)
    ensures forall s2 | s2 in b.states :: Pair(s1, s2) in row
  {
    hide Pair;
    row := [];
    for j := 0 to |b.states|
      invariant forall pc | pc in row :: ProductState(a, b, pc)
      invariant forall j' | 0 <= j' < j :: Pair(s1, b.states[j']) in row
    {
      row := row + [Pair(s1, b.states[j])];
    }
  }

  method PairNames(a: Workflow, b: Workflow) returns (names: seq<string>)
    ensures forall pc :: pc in names <==> ProductState(a, b, pc)
  {
    hide Pair, ProductState;
    names := [];
    for i := 0 to |a.states|
      invariant forall pc | pc in names :: ProductState(a, b, pc)
      invariant forall i', s2 | 0 <= i' < i && s2 in b.states :: Pair(a.states[i'], s2) in names
    {
      var row := PairsOf(a, b, a.states[i]);
      names := names + row;
    }
    AllNamed(a, b, names);
  }

  lemma AllNamed(a: Workflow, b: Workflow, names: seq<string>)
    requires forall i, s2 | 0 <= i < |a.states| && s2 in b.states :: Pair(a.states[i], s2) in names
    ensures forall pc | ProductState(a, b, pc) :: pc in names
  {
    hide Pair;
  }

  /** The moves of the left operand out of s1, s2. */
  method LeftMovesAt(a: Workflow, b: Workflow, s1: string, s2: string) returns (moves: seq<Transition>)
    requires s1 in a.states && s2 in b.states
    ensures forall t | t in moves :: ProductMove(a, b, t)
    ensures forall t, u | LeftMove(a, b, t, u, s2) && u.src == s1 :: t in moves
  {
    hide Pair;
    moves := [];
    for k := 0 to |a.transitions|
      invariant forall t | t in moves :: ProductMove(a, b, t)
      invariant forall k' | 0 <= k' < k && a.transitions[k'].src == s1 ::
        Transition(Pair(s1, s2), Pair(a.transitions[k'].dst, s2), a.transitions[k'].updates) in moves
    {
      var u := a.transitions[k];
      if u.src == s1 {
        var t := Transition(Pair(s1, s2), Pair(u.dst, s2), u.updates);
        assert LeftMove(a, b, t, u, s2);
        moves := moves + [t];
      }
    }
  }

  /** The moves of the right operand out of s1, s2. */
  method RightMovesAt(a: Workflow, b: Workflow, s1: string, s2: string) returns (moves: seq<Transition>)
    requires s1 in a.states && s2 in b.states
    ensures forall t | t in moves :: ProductMove(a, b, t)
    ensures forall t, u | RightMove(a, b, t, s1, u) && u.src == s2 :: t in moves
  {
    hide Pair;
    moves := [];
    for k := 0 to |b.transitions|
      invariant forall t | t in moves :: ProductMove(a, b, t)
      invariant forall k' | 0 <= k' < k && b.transitions[k'].src == s2 ::
        Transition(Pair(s1, s2), Pair(s1, b.transitions[k'].dst), b.transitions[k'].updates) in moves
    {
      var u := b.transitions[k];
      if u.src == s2 {
        var t := Transition(Pair(s1, s2), Pair(s1, u.dst), u.updates);
        assert RightMove(a, b, t, s1, u);
        moves := moves + [t];
      }
    }
  }

  ghost predicate Covered(a: Workflow, b: Workflow, s1: string, s2: string, moves: seq<Transition>) {
    && (forall t, u | LeftMove(a, b, t, u, s2) && u.src == s1 :: t in moves)
    && (forall t, u | RightMove(a, b, t, s1, u) && u.src == s2 :: t in moves)
  }

  lemma CoveredGrows(a: Workflow, b: Workflow, moves: seq<Transition>, more: seq<Transition>)
    ensures forall s1, s2 | Covered(a, b, s1, s2, moves) :: Covered(a, b, s1, s2, moves + more)
  {
  }

  method ProductMoves(a: Workflow, b: Workflow) returns (moves: seq<Transition>)
    ensures forall t :: t in moves <==> ProductMove(a, b, t)
  {
    moves := [];
    for i := 0 to |a.states|
      invariant forall t | t in moves :: ProductMove(a, b, t)
      invariant forall i', j | 0 <= i' < i && 0 <= j < |b.states| :: Covered(a, b, a.states[i'], b.states[j], moves)
    {
      for j := 0 to |b.states|
        invariant forall t | t in moves :: ProductMove(a, b, t)
        invariant forall i', j | 0 <= i' < i && 0 <= j < |b.states| :: Covered(a, b, a.states[i'], b.states[j], moves)
        invariant forall j' | 0 <= j' < j :: Covered(a, b, a.states[i], b.states[j'], moves)
      {
        hide LeftMove, RightMove, ProductMove;
        var left := LeftMovesAt(a, b, a.states[i], b.states[j]);
        var right := RightMovesAt(a, b, a.states[i], b.states[j]);
        CoveredGrows(a, b, moves, left + right);
        assert Covered(a, b, a.states[i], b.states[j], moves + left + right);
        moves := moves + left + right;
      }
    }
    AllCovered(a, b, moves);
  }

  lemma AllCovered(a: Workflow, b: Workflow, moves: seq<Transition>)
    requires forall i, j | 0 <= i < |a.states| && 0 <= j < |b.states| :: Covered(a, b, a.states[i], b.states[j], moves)
    ensures forall t | ProductMove(a, b, t) :: t in moves
  {
    forall t | ProductMove(a, b, t) ensures t in moves {
      if u, s2 :| LeftMove(a, b, t, u, s2) {
        var i :| 0 <= i < |a.states| && a.states[i] == u.src;
        var j :| 0 <= j < |b.states| && b.states[j] == s2;
        assert Covered(a, b, a.states[i], b.states[j], moves);
      } else {
        var s1, u :| RightMove(a, b, t, s1, u);
        var i :| 0 <= i < |a.states| && a.states[i] == s1;
        var j :| 0 <= j < |b.states| && b.states[j] == u.src;
        assert Covered(a, b, a.states[i], b.states[j], moves);
      }
    }
  }

  /** Moves every occurrence of the terminal to one at the end. */
  method TerminalLast(names: seq<string>, term: string) returns (out: seq<string>)
    ensures out != [] && out[|out| - 1] == term && term !in out[..|out| - 1]
    ensures forall pc :: pc in out <==> pc in names || pc == term
  {
    var rest := [];
    for i := 0 to |names|
      invariant term !in rest
      invariant forall pc | pc in rest :: pc in names
      invariant forall k | 0 <= k < i && names[k] != term :: names[k] in rest
    {
      if names[i] != term {
        rest := rest + [names[i]];
      }
    }
    out := rest + [term];
    assert out[..|out| - 1] == rest;
  }

  /** None stands for the exception: an unknown operator, or a terminal taken from an empty list. */
  method Compose(w1: Workflow, w2: Workflow, op: string) returns (r: Option<Workflow>)
    ensures r.Some? <==> w1.states != [] && (op == "seq" || (op == "par" && w2.states != []))
    ensures r.Some? && op == "seq" ==> IsSeq(w1, w2, r.value)
    ensures r.Some? && op == "par" ==> IsPar(w1, w2, r.value)
  {
    var a, b := Prefixed(w1, A), Prefixed(w2, B);
    var flags := a.flags + b.flags;
    if op == "seq" {
      if a.states == [] {
        return None;
      }
      var trans := a.transitions + b.transitions;
      var link := Transition(Terminal(a), b.entry, map[]);
      trans := trans + [link];
      return Some(Workflow(a.states + b.states, a.entry, flags, trans));
    }
    if op == "par" {
      var names := PairNames(a, b);
      var trans := ProductMoves(a, b);
      if a.states == [] || b.states == [] {
        return None;
      }
      var term := Pair(Terminal(a), Terminal(b));
      assert ProductState(a, b, term);
      var states := TerminalLast(names, term);
      return Some(Workflow(states, Pair(a.entry, b.entry), flags, trans));
    }
    return None;
  }
}
