/** Program counters and the edges between them: paths, and the two worklist searches of the source. */
module Graph {
  datatype Edge = Edge(src: string, dst: string)

  ghost predicate Step(edges: seq<Edge>, x: string, y: string)
  {
    Edge(x, y) in edges
  }

  ghost predicate IsPath(edges: seq<Edge>, path: seq<string>)
  {
    path != [] && forall i | 0 <= i < |path| - 1 :: Step(edges, path[i], path[i + 1])
  }

  ghost predicate Leads(edges: seq<Edge>, x: string, y: string, path: seq<string>)
  {
    IsPath(edges, path) && path[0] == x && path[|path| - 1] == y
  }

  ghost predicate Reachable(edges: seq<Edge>, x: string, y: string)
  {
    exists path :: Leads(edges, x, y, path)
  }

  lemma ReachSelf(edges: seq<Edge>, x: string)
    ensures Reachable(edges, x, x)
  {
    assert Leads(edges, x, x, [x]);
  }

  lemma ReachStep(edges: seq<Edge>, x: string, y: string, z: string)
    requires Reachable(edges, x, y) && Step(edges, y, z)
    ensures Reachable(edges, x, z)
  {
    var path :| Leads(edges, x, y, path);
    assert Leads(edges, x, z, path + [z]);
  }

  /** A set that holds the start and is closed under steps holds everything reachable. */
  lemma {:induction false} ClosedHoldsPath(edges: seq<Edge>, s: set<string>, x: string, y: string, path: seq<string>)
    requires x in s && (forall e | e in edges && e.src in s :: e.dst in s) && Leads(edges, x, y, path)
    ensures y in s
    decreases |path|
  {
    if |path| > 1 {
      var last := |path| - 1;
      assert Leads(edges, x, path[last - 1], path[..last]);
      ClosedHoldsPath(edges, s, x, path[last - 1], path[..last]);
      assert Step(edges, path[last - 1], path[last]);
    }
  }

  /** A set of reachable pcs that is closed and holds the start is exactly the reachable pcs. */
  lemma ClosedIsReachable(edges: seq<Edge>, s: set<string>, x: string)
    requires x in s && (forall e | e in edges && e.src in s :: e.dst in s)
    requires forall y | y in s :: Reachable(edges, x, y)
    ensures forall y :: y in s <==> Reachable(edges, x, y)
  {
    forall y | Reachable(edges, x, y) ensures y in s {
      var path :| Leads(edges, x, y, path);
      ClosedHoldsPath(edges, s, x, y, path);
    }
  }

  function Successors(edges: seq<Edge>, x: string): (out: seq<string>)
    ensures forall y :: y in out <==> Edge(x, y) in edges
  {
    if edges == [] then []
    else
      var rest := Successors(edges[1..], x);
      assert forall e :: e in edges <==> e == edges[0] || e in edges[1..];
      if edges[0].src == x then [edges[0].dst] + rest else rest
  }

  ghost function Targets(edges: seq<Edge>): set<string>
  {
    set e | e in edges :: e.dst
  }

  /** Marks and pushes every successor that is not marked yet. */
  method PushNew(next: seq<string>, seen0: set<string>, frontier0: seq<string>)
    returns (seen: set<string>, frontier: seq<string>)
    ensures forall y :: y in seen <==> y in seen0 || y in next
    ensures forall y :: y in frontier <==> y in frontier0 || (y in next && y !in seen0)
    ensures seen == seen0 ==> frontier == frontier0
  {
    seen, frontier := seen0, frontier0;
    for i := 0 to |next|
      invariant forall y :: y in seen <==> y in seen0 || y in next[..i]
      invariant forall y :: y in frontier <==> y in frontier0 || (y in next[..i] && y !in seen0)
      invariant seen == seen0 ==> frontier == frontier0
    {
      assert next[..i + 1] == next[..i] + [next[i]];
      if next[i] !in seen {
        seen := seen + {next[i]};
        frontier := frontier + [next[i]];
      }
    }
    assert next[..|next|] == next;
  }

  /** The worklist of reachable_states: a pc is marked when it is pushed. */
  method ReachableStates(edges: seq<Edge>, entry: string) returns (seen: set<string>)
    ensures forall y :: y in seen <==> Reachable(edges, entry, y)
  {
    hide Reachable;
    seen := {entry};
    var frontier := [entry];
    ReachSelf(edges, entry);
    ghost var all := Targets(edges) + {entry};
    while frontier != []
      invariant entry in seen && seen <= all
      invariant forall y | y in frontier :: y in seen
      invariant forall y | y in seen :: Reachable(edges, entry, y)
      invariant forall e | e in edges && e.src in seen && e.src !in frontier :: e.dst in seen
      decreases |all - seen|, |frontier|
    {
      var s := frontier[|frontier| - 1];
      var rest := frontier[..|frontier| - 1];
      assert forall y :: y in frontier <==> y == s || y in rest;
      var next := Successors(edges, s);
      forall y | y in next ensures Reachable(edges, entry, y) && y in all {
        assert Step(edges, s, y) && Edge(s, y) in edges;
        ReachStep(edges, entry, s, y);
      }
      assert forall e | e in edges && e.src == s :: e.dst in next;
      ghost var seen0 := seen;
      seen, frontier := PushNew(next, seen, rest);
      Shrinks(all, seen0, seen);
    }
    ClosedIsReachable(edges, seen, entry);
  }

  lemma Shrinks(all: set<string>, before: set<string>, after: set<string>)
    requires before <= after <= all
    ensures before == after || |all - after| < |all - before|
  {
    if before != after {
      var y :| y in after && y !in before;
      assert y in all - before && y !in all - after;
      SubsetSize(all - after, (all - before) - {y});
    }
  }

  lemma {:induction false} SubsetSize<T>(a: set<T>, b: set<T>)
    requires a <= b
    ensures |a| <= |b|
    decreases |a|
  {
    if a != {} {
      var x :| x in a;
      SubsetSize(a - {x}, b - {x});
    }
  }

  lemma AtMostOne<T>(s: set<T>)
    requires forall x, y | x in s && y in s :: x == y
    ensures |s| <= 1
  {
    if s != {} {
      var x :| x in s;
      assert s == {x};
    }
  }

  /** The depth-first search of the structural check: a pc is marked when it is popped. */
  method Visit(edges: seq<Edge>, entry: string) returns (seen: set<string>)
    ensures forall y :: y in seen <==> Reachable(edges, entry, y)
  {
    hide Reachable;
    seen := {};
    var stack := [entry];
    ReachSelf(edges, entry);
    ghost var all := Targets(edges) + {entry};
    while stack != []
      invariant seen <= all && forall y | y in stack :: y in all
      invariant forall y | y in stack || y in seen :: Reachable(edges, entry, y)
      invariant entry in seen || entry in stack
      invariant forall e | e in edges && e.src in seen :: e.dst in seen || e.dst in stack
      decreases |all - seen|, |stack|
    {
      var s := stack[|stack| - 1];
      var rest := stack[..|stack| - 1];
      assert forall y :: y in stack <==> y == s || y in rest;
      stack := rest;
      if s !in seen {
        Shrinks(all, seen, seen + {s});
        var next := Successors(edges, s);
        forall y | y in next ensures Reachable(edges, entry, y) && y in all {
          assert Step(edges, s, y) && Edge(s, y) in edges;
          ReachStep(edges, entry, s, y);
        }
        assert forall e | e in edges && e.src == s :: e.dst in next;
        seen := seen + {s};
        stack := stack + next;
      }
    }
    ClosedIsReachable(edges, seen, entry);
  }
}
