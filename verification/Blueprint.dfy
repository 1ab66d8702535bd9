/** The structural check of a skill's blueprint, against deadlock of the relation it emits. */
module Blueprint {
  import opened Graph

  datatype Blueprint = Blueprint(states: seq<string>, entry: string, terminals: set<string>, transitions: seq<Edge>)

  datatype Issue = DeadEnd(state: string) | Unreachable(state: string) | NoTerminal

  lemma {:induction false} SuccessorsGrow(edges: seq<Edge>, e: Edge, x: string)
    ensures Successors(edges + [e], x) == Successors(edges, x) + (if e.src == x then [e.dst] else [])
  {
    if edges == [] {
      assert edges + [e] == [e] && [e][1..] == [];
    } else {
      SuccessorsGrow(edges[1..], e, x);
      assert (edges + [e])[1..] == edges[1..] + [e];
    }
  }

  /** The adjacency table: a pc is a key exactly when it has an outgoing transition. */
  method Adjacency(edges: seq<Edge>) returns (adj: map<string, seq<string>>)
    ensures forall x :: x in adj <==> Successors(edges, x) != []
    ensures forall x | x in adj :: adj[x] == Successors(edges, x)
  {
    adj := map[];
    for i := 0 to |edges|
      invariant forall x :: x in adj <==> Successors(edges[..i], x) != []
      invariant forall x | x in adj :: adj[x] == Successors(edges[..i], x)
    {
      var e := edges[i];
      assert edges[..i + 1] == edges[..i] + [e];
      forall x ensures Successors(edges[..i + 1], x) == Successors(edges[..i], x) + (if e.src == x then [e.dst] else []) {
        SuccessorsGrow(edges[..i], e, x);
      }
      adj := adj[e.src := (if e.src in adj then adj[e.src] else []) + [e.dst]];
    }
    assert edges[..|edges|] == edges;
  }

  ghost predicate NoIssue(bp: Blueprint) {
    && (forall s | s in bp.states && s !in bp.terminals :: exists e :: e in bp.transitions && e.src == s)
    && (forall s | s in bp.states :: Reachable(bp.transitions, bp.entry, s))
    && (exists s :: s in bp.terminals && Reachable(bp.transitions, bp.entry, s))
  }

  method Structural(bp: Blueprint) returns (issues: seq<Issue>)
    ensures forall s :: DeadEnd(s) in issues <==>
      s in bp.states && s !in bp.terminals && forall e | e in bp.transitions :: e.src != s
    ensures forall s :: Unreachable(s) in issues <==> s in bp.states && !Reachable(bp.transitions, bp.entry, s)
    ensures NoTerminal in issues <==> forall s | s in bp.terminals :: !Reachable(bp.transitions, bp.entry, s)
    ensures issues == [] <==> NoIssue(bp)
  {
    hide Reachable;
    var adj := Adjacency(bp.transitions);
    issues := [];
    for i := 0 to |bp.states|
      invariant forall issue | issue in issues :: issue.DeadEnd?
      invariant forall s :: DeadEnd(s) in issues <==> s in bp.states[..i] && s !in bp.terminals && s !in adj
    {
      if bp.states[i] !in bp.terminals && bp.states[i] !in adj {
        issues := issues + [DeadEnd(bp.states[i])];
      }
      assert bp.states[..i + 1] == bp.states[..i] + [bp.states[i]];
    }
    assert bp.states[..|bp.states|] == bp.states;
    forall s ensures s !in adj <==> forall e | e in bp.transitions :: e.src != s {
      NoSuccessors(bp.transitions, s);
    }
    ghost var ends := issues;
    var seen := Visit(bp.transitions, bp.entry);
    for i := 0 to |bp.states|
      invariant forall s :: DeadEnd(s) in issues <==> DeadEnd(s) in ends
      invariant NoTerminal !in issues
      invariant forall s :: Unreachable(s) in issues <==> s in bp.states[..i] && s !in seen
    {
      if bp.states[i] !in seen {
        issues := issues + [Unreachable(bp.states[i])];
      }
      assert bp.states[..i + 1] == bp.states[..i] + [bp.states[i]];
    }
    if seen * bp.terminals == {} {
      assert forall s | s in bp.terminals && s in seen :: s in seen * bp.terminals;
      issues := issues + [NoTerminal];
    }
    assert forall s :: s in seen * bp.terminals <==> s in seen && s in bp.terminals;
    if issues != [] {
      assert issues[0] in issues;
      match issues[0]
      case DeadEnd(s) => assert DeadEnd(s) in issues;
      case Unreachable(s) => assert Unreachable(s) in issues;
      case NoTerminal => assert NoTerminal in issues;
    }
  }

  lemma NoSuccessors(edges: seq<Edge>, s: string)
    ensures Successors(edges, s) == [] <==> forall e | e in edges :: e.src != s
  {
    if Successors(edges, s) == [] {
      forall e | e in edges ensures e.src != s {
        assert e.src == s ==> e.dst in Successors(edges, s) by {
          assert e == Edge(e.src, e.dst);
        }
      }
    } else {
      assert Edge(s, Successors(edges, s)[0]) in edges;
    }
  }

  // ---- the emitted relation --------------------------------------------------------------------

  ghost predicate IsEmitted(bp: Blueprint, next: seq<Edge>) {
    forall e :: e in next <==> e.src in bp.states && (e in bp.transitions || (e.src == e.dst && e.src in bp.terminals))
  }

  /** The disjuncts of Next: a self-loop on every listed terminal, then every transition of a listed state. */
  method EmitNext(bp: Blueprint) returns (next: seq<Edge>)
    ensures IsEmitted(bp, next)
  {
    var adj := Adjacency(bp.transitions);
    next := [];
    for i := 0 to |bp.states|
      invariant forall e | e in next :: e.src in bp.states && (e in bp.transitions || (e.src == e.dst && e.src in bp.terminals))
      invariant forall e: Edge | e.src in bp.states[..i] && (e in bp.transitions || (e.src == e.dst && e.src in bp.terminals)) :: e in next
    {
      var s := bp.states[i];
      var row := if s in bp.terminals then [Edge(s, s)] else [];
      if s in adj {
        var out := EdgesFrom(s, adj[s]);
        forall e | e in out ensures e in bp.transitions {
          assert Edge(s, e.dst) == e;
        }
        row := row + out;
      }
      forall e: Edge | e.src == s && e in bp.transitions ensures e in row {
        assert Edge(s, e.dst) == e;
        assert e.dst in Successors(bp.transitions, s);
        assert Edge(s, e.dst) in row;
      }
      assert bp.states[..i + 1] == bp.states[..i] + [s];
      next := next + row;
    }
    assert bp.states[..|bp.states|] == bp.states;
  }

  method EdgesFrom(s: string, targets: seq<string>) returns (out: seq<Edge>)
    ensures forall e :: e in out <==> e.src == s && e.dst in targets
  {
    out := [];
    for i := 0 to |targets|
      invariant forall e :: e in out <==> e.src == s && e.dst in targets[..i]
    {
      assert targets[..i + 1] == targets[..i] + [targets[i]];
      out := out + [Edge(s, targets[i])];
    }
    assert targets[..|targets|] == targets;
  }

  ghost predicate Stuck(next: seq<Edge>, s: string) {
    forall e | e in next :: e.src != s
  }

  ghost predicate DeadlockFree(bp: Blueprint, next: seq<Edge>) {
    forall s | Reachable(next, bp.entry, s) :: !Stuck(next, s)
  }

  /** The entry is listed, and so is every target of a listed state. */
  ghost predicate TargetsListed(bp: Blueprint) {
    bp.entry in bp.states && forall e | e in bp.transitions && e.src in bp.states :: e.dst in bp.states
  }

  /** A clean report rules out deadlock exactly when no transition leads out of the listed states. */
  lemma CleanMeansDeadlockFree(bp: Blueprint, next: seq<Edge>)
    requires NoIssue(bp) && IsEmitted(bp, next)
    ensures DeadlockFree(bp, next) <==> TargetsListed(bp)
  {
    hide Reachable;
    if TargetsListed(bp) {
      forall s | Reachable(next, bp.entry, s) ensures !Stuck(next, s) {
        EmittedStaysListed(bp, next, s);
        ListedMoves(bp, next, s);
      }
    }
    if DeadlockFree(bp, next) {
      ReachSelf(next, bp.entry);
      forall e | e in bp.transitions && e.src in bp.states ensures e.dst in bp.states {
        FreeReachesAll(bp, next, e.src);
        assert Step(next, e.src, e.dst) by {
          assert e == Edge(e.src, e.dst);
        }
        ReachStep(next, bp.entry, e.src, e.dst);
      }
    }
  }

  lemma ListedMoves(bp: Blueprint, next: seq<Edge>, s: string)
    requires NoIssue(bp) && IsEmitted(bp, next) && s in bp.states
    ensures !Stuck(next, s)
  {
    if s in bp.terminals {
      assert Edge(s, s) in next;
    } else {
      var e :| e in bp.transitions && e.src == s;
      assert e in next;
    }
  }

  lemma EmittedStaysListed(bp: Blueprint, next: seq<Edge>, s: string)
    requires IsEmitted(bp, next) && TargetsListed(bp) && Reachable(next, bp.entry, s)
    ensures s in bp.states
  {
    var path :| Leads(next, bp.entry, s, path);
    var listed := set x | x in bp.states;
    ClosedHoldsPath(next, listed, bp.entry, s, path);
  }

  /** Without a deadlock the emitted relation loses no state: it stops early only at an unlisted one. */
  lemma FreeReachesAll(bp: Blueprint, next: seq<Edge>, s: string)
    requires IsEmitted(bp, next) && DeadlockFree(bp, next) && Reachable(bp.transitions, bp.entry, s)
    ensures Reachable(next, bp.entry, s)
  {
    var path :| Leads(bp.transitions, bp.entry, s, path);
    FreeFollows(bp, next, s, path);
  }

  lemma {:induction false} FreeFollows(bp: Blueprint, next: seq<Edge>, s: string, path: seq<string>)
    requires IsEmitted(bp, next) && DeadlockFree(bp, next) && Leads(bp.transitions, bp.entry, s, path)
    ensures Reachable(next, bp.entry, s)
    decreases |path|
  {
    hide Reachable;
    if |path| == 1 {
      ReachSelf(next, bp.entry);
    } else {
      var last := |path| - 1;
      var x := path[last - 1];
      assert Leads(bp.transitions, bp.entry, x, path[..last]);
      FreeFollows(bp, next, x, path[..last]);
      assert !Stuck(next, x);
      assert Step(bp.transitions, x, path[last]);
      assert Edge(x, s) in next;
      ReachStep(next, bp.entry, x, s);
    }
  }

  /** A dead end that the report names, and that the emitted relation reaches, is a deadlock. */
  lemma DeadEndIsStuck(bp: Blueprint, next: seq<Edge>, s: string)
    requires IsEmitted(bp, next) && Reachable(next, bp.entry, s)
    requires s !in bp.terminals && forall e | e in bp.transitions :: e.src != s
    ensures !DeadlockFree(bp, next)
  {
    assert Stuck(next, s);
  }

  /** A blueprint with a clean report whose emitted relation deadlocks: the target x is not listed. */
  lemma CleanYetDeadlocked(next: seq<Edge>)
    requires IsEmitted(Blueprint(["a", "z"], "a", {"z"}, [Edge("a", "z"), Edge("a", "x")]), next)
    ensures NoIssue(Blueprint(["a", "z"], "a", {"z"}, [Edge("a", "z"), Edge("a", "x")]))
    ensures !DeadlockFree(Blueprint(["a", "z"], "a", {"z"}, [Edge("a", "z"), Edge("a", "x")]), next)
  {
    var bp := Blueprint(["a", "z"], "a", {"z"}, [Edge("a", "z"), Edge("a", "x")]);
    assert bp.transitions[0] == Edge("a", "z") && bp.transitions[1] == Edge("a", "x");
    ReachSelf(bp.transitions, "a");
    assert Step(bp.transitions, "a", "z");
    ReachStep(bp.transitions, "a", "a", "z");
    assert NoIssue(bp);
    CleanMeansDeadlockFree(bp, next);
    assert "x" !in bp.states by {
      assert "x"[0] == 'x' && "a"[0] == 'a' && "z"[0] == 'z';
    }
  }
}
