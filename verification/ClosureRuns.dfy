/** Folding edges in one after another: once a count is wrong no later fold makes the rows right again. */
module ClosureRuns {
  import opened Seqs
  import opened Core
  import opened Graph
  import opened NewEdge
  import opened ClosureSearch
  import opened IncrementalClosure
  import opened ClosureTheorems

  function CountOf(rows: Pairs, x: Node, y: Node): nat { if (x, y) in rows then rows[(x, y)].count else 0 }

  /** By how much a pair is counted too often. */
  ghost function Excess(rows: Pairs, adj: Adj, x: Node, y: Node): int { CountOf(rows, x, y) - |Paths(adj, x, y)| }

  ghost predicate CountsCover(rows: Pairs, adj: Adj) { forall x, y :: Excess(rows, adj, x, y) >= 0 }

  lemma WaysIn(rows: Pairs, adj: Adj, x: Node, u: Node)
    requires Excess(rows, adj, x, u) >= 0
    ensures |PathsFrom(adj, x, u)| <= if x in Predecessors(rows, u) then Predecessors(rows, u)[x].count else 0
  {
    FromDiagonal(adj, x, u);
    if x != u { assert x in Predecessors(rows, u) <==> (x, u) in rows; }
  }

  lemma WaysOut(rows: Pairs, adj: Adj, w: Node, y: Node)
    requires Excess(rows, adj, w, y) >= 0
    ensures |PathsFrom(adj, w, y)| <= if y in Successors(rows, w) then Successors(rows, w)[y].count else 0
  {
    FromDiagonal(adj, w, y);
    if w != y { assert y in Successors(rows, w) <==> (w, y) in rows; }
  }

  lemma FewerCrossings(adj: Adj, u: Node, w: Node, x: Node, y: Node)
    ensures |Crossings(adj, u, w, x, y)| <= |PathsFrom(adj, x, u)| * |PathsFrom(adj, w, y)|
  {
    var a, b, k := PathsFrom(adj, x, u), PathsFrom(adj, w, y), Slot(adj, u);
    WaysInJoinApart(adj, u, w, x, y);
    CountJoined(a, b, k);
    forall r | r in Crossings(adj, u, w, x, y) ensures r in Joined(a, b, k) {
      var p, q :| p in a && q in b && Visits(adj, x, p) * Visits(adj, w, q) == {} && r == Via(p, k, q);
      assert r in Prefixed(p, b, k);
    }
    SubsetCount(Crossings(adj, u, w, x, y), Joined(a, b, k));
  }

  lemma MulGrows(a: nat, b: nat, c: nat, d: nat)
    requires a <= c && b <= d
    ensures a * b <= c * d
  {
    assert a * b <= c * b <= c * d;
  }

  /** A fold adds to a pair at least as many as it gains simple paths. */
  lemma ExcessGrows(rows: Pairs, adj: Adj, u: Node, w: Node, prov: set<EventId>, x: Node, y: Node)
    requires CountsCover(rows, adj)
    ensures Excess(WithEdge(rows, u, w, prov, false), AddEdge(adj, u, w, prov), x, y) >= Excess(rows, adj, x, y)
  {
    hide WithEdge, Predecessors, Successors, Paths, Crossings, PathsFrom, AddEdge;
    var preds, succs := Predecessors(rows, u), Successors(rows, w);
    WithEdgeRow(rows, u, w, prov, x, y);
    NewPaths(adj, u, w, prov, x, y);
    FewerCrossings(adj, u, w, x, y);
    assert Excess(rows, adj, x, u) >= 0 && Excess(rows, adj, w, y) >= 0;
    WaysIn(rows, adj, x, u);
    WaysOut(rows, adj, w, y);
    if x == y {
      NoDiagonalCrossings(adj, u, w, x);
    } else if x in preds && y in succs {
      MulGrows(|PathsFrom(adj, x, u)|, |PathsFrom(adj, w, y)|, preds[x].count, succs[y].count);
    } else {
      assert |PathsFrom(adj, x, u)| * |PathsFrom(adj, w, y)| == 0;
    }
  }

  lemma ExactHasNoExcess(rows: Pairs, adj: Adj)
    requires Exact(rows, adj)
    ensures forall x, y :: Excess(rows, adj, x, y) == 0
  {
    hide Paths;
    forall x, y ensures Excess(rows, adj, x, y) == 0 { assert Holds(rows, adj, x, y, Paths(adj, x, y)); }
  }

  lemma TooManyIsExcess(rows: Pairs, adj: Adj, x: Node, y: Node)
    ensures TooMany(rows, adj, x, y) <==> Excess(rows, adj, x, y) > 0
  {
  }

  // ---- runs of folds ------------------------------------------------------------------------------

  /** An edge that closes no cycle; a loop only at a node that nothing leads to or from. */
  ghost predicate SafeIn(adj: Adj, u: Node, w: Node) {
    if u != w then !Reach(adj, w, u) else forall x :: x != u ==> !Reach(adj, x, u) && !Reach(adj, u, x)
  }

  lemma SafeIsSafeIn(rows: Pairs, adj: Adj, u: Node, w: Node)
    requires ExactPairs(rows, adj)
    ensures Safe(rows, u, w) <==> SafeIn(adj, u, w)
  {
    hide Reach;
    assert forall x, y :: (x, y) in rows <==> x != y && Reach(adj, x, y);
    if u == w {
      if Safe(rows, u, u) {
        forall x | x != u ensures !Reach(adj, x, u) && !Reach(adj, u, x) {
          assert (x, u) !in rows && (u, x) !in rows;
        }
      } else {
        var k :| k in rows && (k.0 == u || k.1 == u);
        assert (k.0, k.1) in rows;
      }
    }
  }

  ghost predicate EachSafe(edges: seq<NewEdgeFact>) {
    forall k :: 0 <= k < |edges| ==> SafeIn(GraphOf(edges[..k]), edges[k].u, edges[k].w)
  }

  lemma EachSafeLast(edges: seq<NewEdgeFact>)
    requires edges != []
    ensures var init, e := edges[..|edges| - 1], edges[|edges| - 1];
            EachSafe(edges) <==> EachSafe(init) && SafeIn(GraphOf(init), e.u, e.w)
  {
    hide SafeIn, GraphOf;
    var init := edges[..|edges| - 1];
    assert forall k :: 0 <= k < |init| ==> init[..k] == edges[..k] && init[k] == edges[k];
  }

  /** Over a whole run: no count falls short, and the rows are exact as long as each fold was safe and never again. */
  lemma {:induction false} RunLaws(edges: seq<NewEdgeFact>)
    ensures ExactPairs(FoldedRows(edges), GraphOf(edges)) && CountsCover(FoldedRows(edges), GraphOf(edges))
    ensures EachSafe(edges) ==> Exact(FoldedRows(edges), GraphOf(edges))
    ensures !EachSafe(edges) ==> exists x, y :: Excess(FoldedRows(edges), GraphOf(edges), x, y) > 0
  {
    hide WithEdge, AddEdge, Paths, SafeIn, EachSafe, Exact, ExactPairs, Excess;
    if edges == [] {
      EmptyGraphExact();
      ExactImpliesPairs(map[], map[]);
      ExactHasNoExcess(map[], map[]);
      NoEdgesSafe();
    } else {
      var init, e := edges[..|edges| - 1], edges[|edges| - 1];
      var rows, adj := FoldedRows(init), GraphOf(init);
      RunLaws(init);
      EachSafeLast(edges);
      DeltaKeepsPairs(rows, adj, e.u, e.w, e.prov);
      SafeIsSafeIn(rows, adj, e.u, e.w);
      forall x, y ensures Excess(FoldedRows(edges), GraphOf(edges), x, y) >= Excess(rows, adj, x, y) {
        ExcessGrows(rows, adj, e.u, e.w, e.prov, x, y);
      }
      if EachSafe(init) {
        DeltaExactIffSafe(rows, adj, e.u, e.w, e.prov);
        if !SafeIn(adj, e.u, e.w) {
          var k := UnsafeOverCounts(rows, adj, e.u, e.w, e.prov);
          TooManyIsExcess(FoldedRows(edges), GraphOf(edges), k.0, k.1);
        }
      }
    }
  }

  lemma NoEdgesSafe()
    ensures EachSafe([])
  {
  }

  /**
   * Exactly when folding edges in one by one leaves exact rows: when no edge closed a cycle of those
   * before it, and no loop was folded in at a connected node. A miscount is never made good later.
   */
  lemma FoldingExactIff(edges: seq<NewEdgeFact>)
    ensures Exact(FoldedRows(edges), GraphOf(edges)) <==> EachSafe(edges)
  {
    hide Exact, EachSafe, FoldedRows, GraphOf, Excess;
    RunLaws(edges);
    if Exact(FoldedRows(edges), GraphOf(edges)) { ExactHasNoExcess(FoldedRows(edges), GraphOf(edges)); }
  }
}
