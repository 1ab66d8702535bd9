/** The composed workflow letter by letter, in the names of the two operands. */
module ComposeSpelled {
  import opened Workflow
  import opened Compose

  /** The update of one side, under its name space. */
  ghost predicate Renamed(mark: string, from: Flags, to: Flags) {
    && (forall f | f in from :: mark + f in to && to[mark + f] == from[f])
    && (forall x | x in to :: mark <= x && x[|mark|..] in from)
  }

  lemma TagSpelled(p: Side, flags: Flags)
    ensures forall f :: Tag(p, f) == (if p == A then "a_" else "b_") + f
    ensures Renamed(if p == A then "a_" else "b_", flags, TagFlags(p, flags))
  {
    var mark := if p == A then "a_" else "b_";
    forall x | x in TagFlags(p, flags) ensures mark <= x && x[|mark|..] in flags {
      var f := TagFlagsKey(p, flags, x);
      assert x[|mark|..] == f;
    }
    forall f | f in flags ensures mark + f in TagFlags(p, flags) && TagFlags(p, flags)[mark + f] == flags[f] {
      TagFlagsAt(p, flags, p, f);
      assert Tag(p, f) == mark + f;
    }
  }

  ghost predicate LeftSpelled(w1: Workflow, w2: Workflow, t: Transition, u: Transition, s2: string) {
    && u in w1.transitions && u.src in w1.states && s2 in w2.states
    && t.src == "a_" + u.src + "|b_" + s2 && t.dst == "a_" + u.dst + "|b_" + s2 && Renamed("a_", u.updates, t.updates)
  }

  ghost predicate RightSpelled(w1: Workflow, w2: Workflow, t: Transition, s1: string, u: Transition) {
    && s1 in w1.states && u in w2.transitions && u.src in w2.states
    && t.src == "a_" + s1 + "|b_" + u.src && t.dst == "a_" + s1 + "|b_" + u.dst && Renamed("b_", u.updates, t.updates)
  }

  /** A move of the product, letter by letter: one operand moves under its name space and the other stays. */
  ghost predicate Interleaves(w1: Workflow, w2: Workflow, t: Transition) {
    (exists u, s2 :: LeftSpelled(w1, w2, t, u, s2)) || (exists s1, u :: RightSpelled(w1, w2, t, s1, u))
  }

  lemma RenamedIsTagged(p: Side, from: Flags, to: Flags)
    ensures Renamed(if p == A then "a_" else "b_", from, to) <==> to == TagFlags(p, from)
  {
    var mark := if p == A then "a_" else "b_";
    TagSpelled(p, from);
    if Renamed(mark, from, to) {
      forall x ensures x in to <==> x in TagFlags(p, from) {
        if x in to {
          assert x == mark + x[|mark|..];
        }
        if x in TagFlags(p, from) {
          assert x == mark + x[|mark|..];
        }
      }
      forall x | x in to ensures to[x] == TagFlags(p, from)[x] {
        assert x == mark + x[|mark|..];
      }
    }
  }

  lemma PairSpelled(s1: string, s2: string)
    ensures Pair(Tag(A, s1), Tag(B, s2)) == "a_" + s1 + "|b_" + s2
  {
    assert "a_" + s1 + "|" + ("b_" + s2) == "a_" + s1 + ("|" + "b_") + s2;
    assert "|" + "b_" == "|b_";
  }

  lemma PrefixedHolds(w: Workflow, p: Side)
    ensures forall s :: s in Prefixed(w, p).states <==> exists s1 :: s1 in w.states && s == Tag(p, s1)
    ensures forall s1 :: Tag(p, s1) in Prefixed(w, p).states <==> s1 in w.states
    ensures forall t :: t in Prefixed(w, p).transitions <==> exists u :: u in w.transitions && t == TagTransition(p, u)
  {
    hide Tag, TagTransition;
    var q := Prefixed(w, p);
    TagsDiffer();
    forall s1 | s1 in w.states ensures Tag(p, s1) in q.states {
      var i :| 0 <= i < |w.states| && w.states[i] == s1;
      assert q.states[i] == Tag(p, s1);
    }
    forall u | u in w.transitions ensures TagTransition(p, u) in q.transitions {
      var i :| 0 <= i < |w.transitions| && w.transitions[i] == u;
      assert q.transitions[i] == TagTransition(p, u);
    }
  }

  lemma LeftIsSpelled(w1: Workflow, w2: Workflow, t: Transition, u: Transition, s2: string)
    ensures LeftSpelled(w1, w2, t, u, s2)
       <==> u in w1.transitions && LeftMove(Prefixed(w1, A), Prefixed(w2, B), t, TagTransition(A, u), Tag(B, s2))
  {
    PrefixedHolds(w1, A);
    PrefixedHolds(w2, B);
    hide Prefixed, Pair, Tag, Renamed, TagFlags;
    PairSpelled(u.src, s2);
    PairSpelled(u.dst, s2);
    RenamedIsTagged(A, u.updates, t.updates);
  }

  lemma RightIsSpelled(w1: Workflow, w2: Workflow, t: Transition, s1: string, u: Transition)
    ensures RightSpelled(w1, w2, t, s1, u)
       <==> u in w2.transitions && RightMove(Prefixed(w1, A), Prefixed(w2, B), t, Tag(A, s1), TagTransition(B, u))
  {
    PrefixedHolds(w1, A);
    PrefixedHolds(w2, B);
    hide Prefixed, Pair, Tag, Renamed, TagFlags;
    PairSpelled(s1, u.src);
    PairSpelled(s1, u.dst);
    RenamedIsTagged(B, u.updates, t.updates);
  }

  lemma MoveSpelled(w1: Workflow, w2: Workflow, t: Transition)
    ensures ProductMove(Prefixed(w1, A), Prefixed(w2, B), t) <==> Interleaves(w1, w2, t)
  {
    var a, b := Prefixed(w1, A), Prefixed(w2, B);
    PrefixedHolds(w1, A);
    PrefixedHolds(w2, B);
    hide Prefixed, Tag, TagTransition, LeftSpelled, RightSpelled;
    if v, s :| LeftMove(a, b, t, v, s) {
      var u :| u in w1.transitions && v == TagTransition(A, u);
      var s2 :| s2 in w2.states && s == Tag(B, s2);
      LeftIsSpelled(w1, w2, t, u, s2);
    }
    if s, v :| RightMove(a, b, t, s, v) {
      var u :| u in w2.transitions && v == TagTransition(B, u);
      var s1 :| s1 in w1.states && s == Tag(A, s1);
      RightIsSpelled(w1, w2, t, s1, u);
    }
    if u, s2 :| LeftSpelled(w1, w2, t, u, s2) {
      LeftIsSpelled(w1, w2, t, u, s2);
    }
    if s1, u :| RightSpelled(w1, w2, t, s1, u) {
      RightIsSpelled(w1, w2, t, s1, u);
    }
  }

  /** The product, letter by letter. */
  lemma ParSpelled(w1: Workflow, w2: Workflow, r: Workflow)
    requires w1.states != [] && w2.states != [] && IsPar(w1, w2, r)
    ensures r.entry == "a_" + w1.entry + "|b_" + w2.entry
    ensures r.states[|r.states| - 1] == "a_" + w1.states[|w1.states| - 1] + "|b_" + w2.states[|w2.states| - 1]
    ensures forall pc :: pc in r.states <==> exists s1, s2 :: s1 in w1.states && s2 in w2.states && pc == "a_" + s1 + "|b_" + s2
    ensures forall t :: t in r.transitions <==> Interleaves(w1, w2, t)
    ensures exists left, right :: Renamed("a_", w1.flags, left) && Renamed("b_", w2.flags, right) && r.flags == left + right
  {
    var a, b := Prefixed(w1, A), Prefixed(w2, B);
    assert Terminal(a) == Tag(A, Terminal(w1)) && Terminal(b) == Tag(B, Terminal(w2));
    PairSpelled(w1.entry, w2.entry);
    PairSpelled(Terminal(w1), Terminal(w2));
    FlagsSpelled(w1.flags, w2.flags);
    forall pc ensures ProductState(a, b, pc) <==> exists s1, s2 :: s1 in w1.states && s2 in w2.states && pc == "a_" + s1 + "|b_" + s2 {
      StateSpelled(w1, w2, pc);
    }
    forall t ensures ProductMove(a, b, t) <==> Interleaves(w1, w2, t) {
      MoveSpelled(w1, w2, t);
    }
    hide ProductState, ProductMove, Interleaves, Renamed, TagFlags, Pair, Tag;
  }

  lemma StateSpelled(w1: Workflow, w2: Workflow, pc: string)
    ensures ProductState(Prefixed(w1, A), Prefixed(w2, B), pc)
       <==> exists s1, s2 :: s1 in w1.states && s2 in w2.states && pc == "a_" + s1 + "|b_" + s2
  {
    var a, b := Prefixed(w1, A), Prefixed(w2, B);
    PrefixedHolds(w1, A);
    PrefixedHolds(w2, B);
    hide Prefixed, Pair, Tag;
    if ProductState(a, b, pc) {
      var x, y :| x in a.states && y in b.states && pc == Pair(x, y);
      var s1 :| s1 in w1.states && x == Tag(A, s1);
      var s2 :| s2 in w2.states && y == Tag(B, s2);
      PairSpelled(s1, s2);
    }
    if s1, s2 :| s1 in w1.states && s2 in w2.states && pc == "a_" + s1 + "|b_" + s2 {
      PairSpelled(s1, s2);
      assert Tag(A, s1) in a.states && Tag(B, s2) in b.states;
    }
  }

  /** The sequence, letter by letter: the moves of both sides, and one more from the terminal of the first to the second. */
  lemma SeqSpelled(w1: Workflow, w2: Workflow, r: Workflow)
    requires w1.states != [] && IsSeq(w1, w2, r)
    ensures r.entry == "a_" + w1.entry && |r.states| == |w1.states| + |w2.states|
    ensures forall i | 0 <= i < |w1.states| :: r.states[i] == "a_" + w1.states[i]
    ensures forall i | 0 <= i < |w2.states| :: r.states[|w1.states| + i] == "b_" + w2.states[i]
    ensures forall t :: t in r.transitions <==>
              || (exists u :: u in w1.transitions && t.src == "a_" + u.src && t.dst == "a_" + u.dst && Renamed("a_", u.updates, t.updates))
              || (exists u :: u in w2.transitions && t.src == "b_" + u.src && t.dst == "b_" + u.dst && Renamed("b_", u.updates, t.updates))
              || t == Transition("a_" + w1.states[|w1.states| - 1], "b_" + w2.entry, map[])
    ensures exists left, right :: Renamed("a_", w1.flags, left) && Renamed("b_", w2.flags, right) && r.flags == left + right
  {
    StatesSpelled(w1, w2, r);
    FlagsSpelled(w1.flags, w2.flags);
    forall t ensures t in Prefixed(w1, A).transitions
                <==> exists u :: u in w1.transitions && t.src == "a_" + u.src && t.dst == "a_" + u.dst && Renamed("a_", u.updates, t.updates) {
      TaggedSpelled(w1, A, t);
    }
    forall t ensures t in Prefixed(w2, B).transitions
                <==> exists u :: u in w2.transitions && t.src == "b_" + u.src && t.dst == "b_" + u.dst && Renamed("b_", u.updates, t.updates) {
      TaggedSpelled(w2, B, t);
    }
    hide Renamed, TagFlags, TagTransition, Prefixed;
  }

  lemma FlagsSpelled(left: Flags, right: Flags)
    ensures exists l, r :: Renamed("a_", left, l) && Renamed("b_", right, r) && Both(left, right) == l + r
  {
    RenamedIsTagged(A, left, TagFlags(A, left));
    RenamedIsTagged(B, right, TagFlags(B, right));
    hide Renamed, TagFlags;
    assert Both(left, right) == TagFlags(A, left) + TagFlags(B, right);
  }

  lemma StatesSpelled(w1: Workflow, w2: Workflow, r: Workflow)
    requires w1.states != [] && IsSeq(w1, w2, r)
    ensures r.entry == "a_" + w1.entry && |r.states| == |w1.states| + |w2.states|
    ensures forall i | 0 <= i < |w1.states| :: r.states[i] == "a_" + w1.states[i]
    ensures forall i | 0 <= i < |w2.states| :: r.states[|w1.states| + i] == "b_" + w2.states[i]
  {
    hide TagFlags, TagTransition;
  }

  lemma TaggedSpelled(w: Workflow, p: Side, t: Transition)
    ensures var mark := if p == A then "a_" else "b_";
      t in Prefixed(w, p).transitions
      <==> exists u :: u in w.transitions && t.src == mark + u.src && t.dst == mark + u.dst && Renamed(mark, u.updates, t.updates)
  {
    var mark := if p == A then "a_" else "b_";
    PrefixedHolds(w, p);
    hide Prefixed, Renamed, TagFlags;
    if t in Prefixed(w, p).transitions {
      var u :| u in w.transitions && t == TagTransition(p, u);
      RenamedIsTagged(p, u.updates, t.updates);
    }
    if u :| u in w.transitions && t.src == mark + u.src && t.dst == mark + u.dst && Renamed(mark, u.updates, t.updates) {
      RenamedIsTagged(p, u.updates, t.updates);
      assert t == TagTransition(p, u);
    }
  }
}
