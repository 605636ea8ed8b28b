/** When folding edges into a materialised closure agrees with recomputing it. */
module ClosureTheorems {
  import opened Seqs
  import opened Core
  import opened Graph
  import opened NewEdge
  import opened ClosureSearch
  import opened IncrementalClosure

  // ---- pairs ---------------------------------------------------------------------------------

  lemma PredecessorsReach(rows: Pairs, adj: Adj, x: Node, u: Node)
    requires ExactPairs(rows, adj)
    ensures x in Predecessors(rows, u) <==> Reach(adj, x, u)
  {
    if x == u {
      var p: Path := [];
      assert IsPath(adj, x, p) && End(adj, x, p) == u;
    } else if x in Predecessors(rows, u) {
      assert (x, u) in rows;
    } else {
      assert (x, u) !in rows;
    }
  }

  lemma SuccessorsReach(rows: Pairs, adj: Adj, w: Node, y: Node)
    requires ExactPairs(rows, adj)
    ensures y in Successors(rows, w) <==> Reach(adj, w, y)
  {
    if y == w {
      var p: Path := [];
      assert IsPath(adj, w, p) && End(adj, w, p) == y;
    } else if y in Successors(rows, w) {
      assert (w, y) in rows;
    } else {
      assert (w, y) !in rows;
    }
  }

  lemma WithEdgeKeys(rows: Pairs, u: Node, w: Node, prov: set<EventId>, x: Node, y: Node)
    ensures (x, y) in WithEdge(rows, u, w, prov, false) <==>
              (x, y) in rows || (x != y && x in Predecessors(rows, u) && y in Successors(rows, w))
  {
  }

  /** Stored pairs that are the transitive closure stay the transitive closure under the delta, cycles or not. */
  lemma DeltaKeepsPairs(rows: Pairs, adj: Adj, u: Node, w: Node, prov: set<EventId>)
    requires ExactPairs(rows, adj)
    ensures ExactPairs(WithEdge(rows, u, w, prov, false), AddEdge(adj, u, w, prov))
  {
    forall x, y ensures (x, y) in WithEdge(rows, u, w, prov, false) <==> x != y && Reach(AddEdge(adj, u, w, prov), x, y) {
      WithEdgeKeys(rows, u, w, prov, x, y);
      PredecessorsReach(rows, adj, x, u);
      SuccessorsReach(rows, adj, w, y);
      ReachWithNewEdge(adj, u, w, prov, x, y);
    }
  }

  /** A delta that its cap cuts short stores no wrong pair. */
  lemma PartialDeltaIsSound(rows': Pairs, rows: Pairs, adj: Adj, u: Node, w: Node, prov: set<EventId>, x: Node, y: Node)
    requires ExactPairs(rows, adj) && PartOfDelta(rows', rows, u, w, prov, false)
    ensures (x, y) in rows ==> (x, y) in rows'
    ensures (x, y) in rows' ==> x != y && Reach(AddEdge(adj, u, w, prov), x, y)
  {
    WithEdgeKeys(rows, u, w, prov, x, y);
    PredecessorsReach(rows, adj, x, u);
    SuccessorsReach(rows, adj, w, y);
    ReachWithNewEdge(adj, u, w, prov, x, y);
    hide Reach, AddEdge, ExactPairs, Predecessors, Successors;
  }

  /** Folding the same edge in again adds no pair. */
  lemma DeltaIdempotentOnPairs(rows: Pairs, adj: Adj, u: Node, w: Node, prov: set<EventId>, prov': set<EventId>)
    requires ExactPairs(rows, adj)
    ensures var once := WithEdge(rows, u, w, prov, false);
            forall x, y :: (x, y) in WithEdge(once, u, w, prov', false) <==> (x, y) in once
  {
    hide *;
    var once := WithEdge(rows, u, w, prov, false);
    forall x, y ensures (x, y) in WithEdge(once, u, w, prov', false) <==> (x, y) in once {
      SecondDelta(rows, adj, u, w, prov, prov', x, y);
    }
  }

  lemma SecondDelta(rows: Pairs, adj: Adj, u: Node, w: Node, prov: set<EventId>, prov': set<EventId>, x: Node, y: Node)
    requires ExactPairs(rows, adj)
    ensures var once := WithEdge(rows, u, w, prov, false); (x, y) in WithEdge(once, u, w, prov', false) <==> (x, y) in once
  {
    hide *;
    var once, adj' := WithEdge(rows, u, w, prov, false), AddEdge(adj, u, w, prov);
    DeltaKeepsPairs(rows, adj, u, w, prov);
    WithEdgeKeys(once, u, w, prov', x, y);
    PredecessorsReach(once, adj', x, u);
    SuccessorsReach(once, adj', w, y);
    ThroughNewEdge(adj, u, w, prov, x, y);
  }

  lemma ThroughNewEdge(adj: Adj, u: Node, w: Node, prov: set<EventId>, x: Node, y: Node)
    ensures var adj' := AddEdge(adj, u, w, prov); Reach(adj', x, u) && Reach(adj', w, y) ==> Reach(adj', x, y)
  {
    var adj' := AddEdge(adj, u, w, prov);
    NewEdgeStep(adj, u, w, prov);
    if Reach(adj', x, u) && Reach(adj', w, y) {
      ReachTransitive(adj', x, u, w);
      ReachTransitive(adj', x, w, y);
    }
  }

  // ---- counts ---------------------------------------------------------------------------------

  lemma PredecessorSupport(rows: Pairs, adj: Adj, x: Node, u: Node)
    requires Exact(rows, adj)
    ensures x in Predecessors(rows, u) <==> PathsFrom(adj, x, u) != {}
    ensures x in Predecessors(rows, u) ==> Predecessors(rows, u)[x] == SupportOf(adj, x, PathsFrom(adj, x, u))
  {
    assert Holds(rows, adj, x, u, Paths(adj, x, u));
    FromDiagonal(adj, x, u);
  }

  lemma SuccessorSupport(rows: Pairs, adj: Adj, w: Node, y: Node)
    requires Exact(rows, adj)
    ensures y in Successors(rows, w) <==> PathsFrom(adj, w, y) != {}
    ensures y in Successors(rows, w) ==> Successors(rows, w)[y] == SupportOf(adj, w, PathsFrom(adj, w, y))
  {
    assert Holds(rows, adj, w, y, Paths(adj, w, y));
    FromDiagonal(adj, w, y);
  }

  lemma FromDiagonal(adj: Adj, x: Node, y: Node)
    ensures x == y ==> PathsFrom(adj, x, y) == {[]} && SupportOf(adj, x, {[]}) == Support(1, {})
    ensures x != y ==> PathsFrom(adj, x, y) == Paths(adj, x, y)
  {
    PathsIffReach(adj, x, y);
    if x == y {
      var none: Path := [];
      assert ProvOf(adj, x, {none}) == {};
    }
  }

  /** The events behind old and crossing paths together. */
  lemma ProvWithNewEdge(adj: Adj, u: Node, w: Node, prov: set<EventId>, x: Node, y: Node)
    requires !Reach(adj, w, u) && PathsFrom(adj, x, u) != {} && PathsFrom(adj, w, y) != {}
    ensures ProvOf(AddEdge(adj, u, w, prov), x, Paths(AddEdge(adj, u, w, prov), x, y))
         == ProvOf(adj, x, Paths(adj, x, y)) +
            (ProvOf(adj, x, PathsFrom(adj, x, u)) + prov + ProvOf(adj, w, PathsFrom(adj, w, y)))
  {
    hide *;
    var adj', a, b, k := AddEdge(adj, u, w, prov), PathsFrom(adj, x, u), PathsFrom(adj, w, y), Slot(adj, u);
    CountWithNewEdge(adj, u, w, prov, x, y);
    OldProv(adj, u, w, prov, x, y);
    JoinedProv(adj, u, w, prov, x, y);
    ProvOfUnion(adj', x, Paths(adj, x, y), Joined(a, b, k));
  }

  lemma ProvOfUnion(adj: Adj, x: Node, a: set<Path>, b: set<Path>)
    ensures ProvOf(adj, x, a + b) == ProvOf(adj, x, a) + ProvOf(adj, x, b)
  {
  }

  lemma OldProv(adj: Adj, u: Node, w: Node, prov: set<EventId>, x: Node, y: Node)
    ensures ProvOf(AddEdge(adj, u, w, prov), x, Paths(adj, x, y)) == ProvOf(adj, x, Paths(adj, x, y))
  {
    forall p | p in Paths(adj, x, y) ensures Prov(AddEdge(adj, u, w, prov), x, p) == Prov(adj, x, p) {
      PathsMembers(adj, x, y, p);
      OldPath(adj, u, w, prov, x, p);
    }
  }

  lemma CrossingProv(adj: Adj, u: Node, w: Node, prov: set<EventId>, x: Node, y: Node, p: Path, q: Path)
    requires p in PathsFrom(adj, x, u) && q in PathsFrom(adj, w, y)
    ensures Prov(AddEdge(adj, u, w, prov), x, Via(p, Slot(adj, u), q)) == Prov(adj, x, p) + prov + Prov(adj, w, q)
  {
    PathsFromMembers(adj, x, u, p);
    PathsFromMembers(adj, w, y, q);
    OldPath(adj, u, w, prov, x, p);
    AfterNewEdge(adj, u, w, prov, x, p, q);
  }

  lemma JoinedProv(adj: Adj, u: Node, w: Node, prov: set<EventId>, x: Node, y: Node)
    requires PathsFrom(adj, x, u) != {} && PathsFrom(adj, w, y) != {}
    ensures ProvOf(AddEdge(adj, u, w, prov), x, Joined(PathsFrom(adj, x, u), PathsFrom(adj, w, y), Slot(adj, u)))
         == ProvOf(adj, x, PathsFrom(adj, x, u)) + prov + ProvOf(adj, w, PathsFrom(adj, w, y))
  {
    hide AddEdge, PathsFrom, Prov, Slot, Paths;
    var adj', a, b, k := AddEdge(adj, u, w, prov), PathsFrom(adj, x, u), PathsFrom(adj, w, y), Slot(adj, u);
    var joined := Joined(a, b, k);
    forall id | id in ProvOf(adj', x, joined)
      ensures id in ProvOf(adj, x, a) + prov + ProvOf(adj, w, b)
    {
      var r :| r in joined && id in Prov(adj', x, r);
      var p :| p in a && r in Prefixed(p, b, k);
      var q :| q in b && r == Via(p, k, q);
      CrossingProv(adj, u, w, prov, x, y, p, q);
    }
    var p0 :| p0 in a;
    var q0 :| q0 in b;
    forall id | id in ProvOf(adj, x, a) + prov + ProvOf(adj, w, b)
      ensures id in ProvOf(adj', x, joined)
    {
      var p, q := p0, q0;
      if id in ProvOf(adj, x, a) {
        p :| p in a && id in Prov(adj, x, p);
      } else if id in ProvOf(adj, w, b) {
        q :| q in b && id in Prov(adj, w, q);
      }
      CrossingProv(adj, u, w, prov, x, y, p, q);
      assert Via(p, k, q) in Prefixed(p, b, k);
      assert Via(p, k, q) in joined;
    }
  }

  /** The new edge u → w closes no cycle, and is no loop at a connected node: told from the rows alone. */
  predicate Safe(rows: Pairs, u: Node, w: Node) {
    if u != w then (w, u) !in rows else forall k :: k in rows ==> k.0 != u && k.1 != u
  }

  /** The row of a pair that the delta touches, and of one it does not. */
  lemma WithEdgeRow(rows: Pairs, u: Node, w: Node, prov: set<EventId>, x: Node, y: Node)
    ensures var preds, succs, after := Predecessors(rows, u), Successors(rows, w), WithEdge(rows, u, w, prov, false);
            if x != y && x in preds && y in succs
            then (x, y) in after && after[(x, y)] == Gained(rows, (x, y), preds[x], succs[y], prov)
            else ((x, y) in after <==> (x, y) in rows) && ((x, y) in after ==> after[(x, y)] == rows[(x, y)])
  {
  }

  /** A pair joined by no crossing keeps its row and its paths. */
  lemma DeltaExactAside(rows: Pairs, adj: Adj, u: Node, w: Node, prov: set<EventId>, x: Node, y: Node)
    requires Exact(rows, adj) && Crossings(adj, u, w, x, y) == {}
    requires !(x != y && x in Predecessors(rows, u) && y in Successors(rows, w))
    ensures var adj' := AddEdge(adj, u, w, prov);
            Holds(WithEdge(rows, u, w, prov, false), adj', x, y, Paths(adj', x, y))
  {
    hide WithEdge, Predecessors, Successors, Paths, Crossings, Gained, ProvOf;
    assert Holds(rows, adj, x, y, Paths(adj, x, y));
    WithEdgeRow(rows, u, w, prov, x, y);
    NewPaths(adj, u, w, prov, x, y);
    OldProv(adj, u, w, prov, x, y);
    assert Paths(adj, x, y) + {} == Paths(adj, x, y);
  }

  lemma DeltaExactAcross(rows: Pairs, adj: Adj, u: Node, w: Node, prov: set<EventId>, x: Node, y: Node)
    requires Exact(rows, adj) && !Reach(adj, w, u)
    requires x != y && x in Predecessors(rows, u) && y in Successors(rows, w)
    ensures var adj' := AddEdge(adj, u, w, prov);
            Holds(WithEdge(rows, u, w, prov, false), adj', x, y, Paths(adj', x, y))
  {
    hide WithEdge, Predecessors, Successors, Paths, Crossings, ProvOf, PathsFrom, Joined, Reach;
    assert Holds(rows, adj, x, y, Paths(adj, x, y));
    var a, b := PathsFrom(adj, x, u), PathsFrom(adj, w, y);
    WithEdgeRow(rows, u, w, prov, x, y);
    PredecessorSupport(rows, adj, x, u);
    SuccessorSupport(rows, adj, w, y);
    CountWithNewEdge(adj, u, w, prov, x, y);
    ProvWithNewEdge(adj, u, w, prov, x, y);
    EmptyProv(adj, x);
  }

  lemma EmptyProv(adj: Adj, x: Node)
    ensures ProvOf(adj, x, {}) == {}
  {
  }

  lemma NoCrossings(rows: Pairs, adj: Adj, u: Node, w: Node, x: Node, y: Node)
    requires Exact(rows, adj) && !(x in Predecessors(rows, u) && y in Successors(rows, w))
    ensures Crossings(adj, u, w, x, y) == {}
  {
    PredecessorSupport(rows, adj, x, u);
    SuccessorSupport(rows, adj, w, y);
  }

  lemma NoDiagonalCrossings(adj: Adj, u: Node, w: Node, x: Node)
    ensures Crossings(adj, u, w, x, x) == {}
  {
    forall p, q | p in PathsFrom(adj, x, u) && q in PathsFrom(adj, w, x)
      ensures Visits(adj, x, p) * Visits(adj, w, q) != {}
    {
      PathsFromMembers(adj, w, x, q);
      EndVisited(adj, x, p);
      EndVisited(adj, w, q);
      assert x in Visits(adj, x, p) * Visits(adj, w, q);
    }
  }

  lemma DeltaExactAt(rows: Pairs, adj: Adj, u: Node, w: Node, prov: set<EventId>, x: Node, y: Node)
    requires Exact(rows, adj) && !Reach(adj, w, u)
    ensures var adj' := AddEdge(adj, u, w, prov);
            Holds(WithEdge(rows, u, w, prov, false), adj', x, y, Paths(adj', x, y))
  {
    if x != y && x in Predecessors(rows, u) && y in Successors(rows, w) {
      DeltaExactAcross(rows, adj, u, w, prov, x, y);
    } else {
      if x == y { NoDiagonalCrossings(adj, u, w, x); } else { NoCrossings(rows, adj, u, w, x, y); }
      DeltaExactAside(rows, adj, u, w, prov, x, y);
    }
  }

  /** A loop at a node no stored pair mentions changes nothing. */
  lemma LoneLoopExact(rows: Pairs, adj: Adj, u: Node, prov: set<EventId>, x: Node, y: Node)
    requires Exact(rows, adj) && Safe(rows, u, u)
    ensures var adj' := AddEdge(adj, u, u, prov);
            Holds(WithEdge(rows, u, u, prov, false), adj', x, y, Paths(adj', x, y))
  {
    LoopHasNoCrossings(adj, u, x, y);
    assert Predecessors(rows, u).Keys == {u} == Successors(rows, u).Keys;
    DeltaExactAside(rows, adj, u, u, prov, x, y);
  }

  lemma LoopHasNoCrossings(adj: Adj, u: Node, x: Node, y: Node)
    ensures Crossings(adj, u, u, x, y) == {}
  {
    forall p, q | p in PathsFrom(adj, x, u) && q in PathsFrom(adj, u, y)
      ensures Visits(adj, x, p) * Visits(adj, u, q) != {}
    {
      PathsFromMembers(adj, x, u, p);
      EndVisited(adj, x, p);
      EndVisited(adj, u, q);
      assert u in Visits(adj, x, p) * Visits(adj, u, q);
    }
  }

  /** Over-counted: the delta adds to a pair that gains no simple path. */
  lemma OverCounts(rows: Pairs, adj: Adj, u: Node, w: Node, prov: set<EventId>, x: Node, y: Node)
    requires Exact(rows, adj) && Crossings(adj, u, w, x, y) == {}
    requires x != y && x in Predecessors(rows, u) && y in Successors(rows, w)
    ensures TooMany(WithEdge(rows, u, w, prov, false), AddEdge(adj, u, w, prov), x, y)
  {
    hide WithEdge, Predecessors, Successors, Paths, Crossings, ProvOf, PathsFrom;
    assert Holds(rows, adj, x, y, Paths(adj, x, y));
    WithEdgeRow(rows, u, w, prov, x, y);
    NewPaths(adj, u, w, prov, x, y);
    assert Paths(adj, x, y) + {} == Paths(adj, x, y);
    PredecessorSupport(rows, adj, x, u);
    SuccessorSupport(rows, adj, w, y);
  }

  /** The pair is counted more often than simple paths join it. */
  ghost predicate TooMany(rows: Pairs, adj: Adj, x: Node, y: Node) {
    (x, y) in rows && rows[(x, y)].count > |Paths(adj, x, y)|
  }

  lemma TooManyNotExact(rows: Pairs, adj: Adj, x: Node, y: Node)
    requires TooMany(rows, adj, x, y)
    ensures !Exact(rows, adj)
  {
    hide Paths;
    assert !Holds(rows, adj, x, y, Paths(adj, x, y));
  }

  lemma UnsafeOverCounts(rows: Pairs, adj: Adj, u: Node, w: Node, prov: set<EventId>) returns (k: (Node, Node))
    requires Exact(rows, adj) && !Safe(rows, u, w)
    ensures TooMany(WithEdge(rows, u, w, prov, false), AddEdge(adj, u, w, prov), k.0, k.1)
  {
    k := (w, u);
    if u != w {
      OverCounts(rows, adj, u, w, prov, w, u);
    } else {
      k :| k in rows && (k.0 == u || k.1 == u);
      assert Holds(rows, adj, k.0, k.1, Paths(adj, k.0, k.1));
      PathsIffReach(adj, k.0, k.1);
      LoopHasNoCrossings(adj, u, k.0, k.1);
      OverCounts(rows, adj, u, u, prov, k.0, k.1);
    }
  }

  /**
   * Exactly when the delta keeps the closure exact: rows that hold every pair with its simple paths
   * counted are again so after folding in u → w if and only if the edge is safe, that is, w is not
   * stored as leading to u (and a loop sits at a node no pair mentions).
   */
  lemma DeltaExactIffSafe(rows: Pairs, adj: Adj, u: Node, w: Node, prov: set<EventId>)
    requires Exact(rows, adj)
    ensures Exact(WithEdge(rows, u, w, prov, false), AddEdge(adj, u, w, prov)) <==> Safe(rows, u, w)
  {
    if !Safe(rows, u, w) {
      var k := UnsafeOverCounts(rows, adj, u, w, prov);
      TooManyNotExact(WithEdge(rows, u, w, prov, false), AddEdge(adj, u, w, prov), k.0, k.1);
    } else {
      var after, adj' := WithEdge(rows, u, w, prov, false), AddEdge(adj, u, w, prov);
      forall x, y ensures Holds(after, adj', x, y, Paths(adj', x, y)) {
        if u == w {
          LoneLoopExact(rows, adj, u, prov, x, y);
        } else {
          ExactImpliesPairs(rows, adj);
          DeltaExactAt(rows, adj, u, w, prov, x, y);
        }
      }
    }
  }

  // ---- folding a whole graph in ------------------------------------------------------------------

  datatype NewEdgeFact = NewEdgeFact(u: Node, w: Node, prov: set<EventId>)

  function GraphOf(edges: seq<NewEdgeFact>): Adj {
    if edges == [] then map[]
    else
      var e := edges[|edges| - 1];
      AddEdge(GraphOf(edges[..|edges| - 1]), e.u, e.w, e.prov)
  }

  function FoldedRows(edges: seq<NewEdgeFact>): Pairs {
    if edges == [] then map[]
    else
      var e := edges[|edges| - 1];
      WithEdge(FoldedRows(edges[..|edges| - 1]), e.u, e.w, e.prov, false)
  }

  ghost predicate Acyclic(adj: Adj) {
    forall x, p: Path :: IsPath(adj, x, p) && p != [] ==> End(adj, x, p) != x
  }

  lemma AcyclicBefore(adj: Adj, u: Node, w: Node, prov: set<EventId>)
    requires Acyclic(AddEdge(adj, u, w, prov))
    ensures Acyclic(adj) && u != w && !Reach(adj, w, u)
  {
    var adj', k := AddEdge(adj, u, w, prov), [Slot(adj, u)];
    hide AddEdge, IsPath, End;
    NewEdgeStep(adj, u, w, prov);
    forall x, p: Path | IsPath(adj, x, p) && p != [] ensures End(adj, x, p) != x {
      OldPath(adj, u, w, prov, x, p);
    }
    if Reach(adj, w, u) {
      var p: Path :| IsPath(adj, w, p) && End(adj, w, p) == u;
      OldPath(adj, u, w, prov, w, p);
      Concat(adj', u, k, p);
    }
  }

  /** In an acyclic graph, folding the edges in one by one gives exact rows... */
  lemma {:induction false} FoldingIsExact(edges: seq<NewEdgeFact>)
    requires Acyclic(GraphOf(edges))
    ensures Exact(FoldedRows(edges), GraphOf(edges))
  {
    if edges == [] {
    } else {
      var init, e := edges[..|edges| - 1], edges[|edges| - 1];
      AcyclicBefore(GraphOf(init), e.u, e.w, e.prov);
      FoldingIsExact(init);
      ExactImpliesPairs(FoldedRows(init), GraphOf(init));
      DeltaExactIffSafe(FoldedRows(init), GraphOf(init), e.u, e.w, e.prov);
    }
  }

  /** ... the ones a full recompute finds, its depth not binding. */
  lemma FoldingEqualsRecompute(edges: seq<NewEdgeFact>, maxDepth: nat, pairs: Pairs)
    requires Acyclic(GraphOf(edges)) && maxDepth >= Bound(GraphOf(edges))
    requires forall x, y :: RightPair(pairs, GraphOf(edges), maxDepth, false, x, y)
    ensures FoldedRows(edges) == pairs
  {
    FoldingIsExact(edges);
    ExactIsRecomputed(FoldedRows(edges), pairs, GraphOf(edges), maxDepth);
  }

  lemma EmptyGraphExact()
    ensures Exact(map[], map[])
  {
    forall x, y ensures Paths(map[], x, y) == {} {
      forall p ensures p !in Paths(map[], x, y) {
        PathsMembers(map[], x, y, p);
        if IsPath(map[], x, p) && p != [] { SourceHasEdges(map[], x, p); }
      }
    }
  }

  lemma StoredEnds(rows: Pairs, x: Node, y: Node)
    requires (x, y) in rows && x != y
    ensures x in Predecessors(rows, y) && Predecessors(rows, y)[x] == rows[(x, y)]
    ensures y in Successors(rows, x) && Successors(rows, x)[y] == rows[(x, y)]
  {
  }

  lemma OwnEnds(rows: Pairs, x: Node)
    ensures x in Predecessors(rows, x) && Predecessors(rows, x)[x] == Support(1, {})
    ensures x in Successors(rows, x) && Successors(rows, x)[x] == Support(1, {})
  {
  }

  lemma NoStoredEnds(x: Node, y: Node)
    ensures x in Predecessors(map[], y) <==> x == y
  {
  }

  /** The counts of two rows, for an edge there and back. */
  lemma RowsThereAndBack(a: Node, b: Node, there: set<EventId>, back: set<EventId>)
    requires a != b
    ensures var one := WithEdge(map[], b, a, there, false);
            var two := WithEdge(one, a, b, back, false);
            && (b, a) in one && one[(b, a)] == Support(1, there) && (a, b) !in one
            && (b, a) in two && two[(b, a)].count == 2
  {
    var one := WithEdge(map[], b, a, there, false);
    WithEdgeRow(map[], b, a, there, b, a);
    WithEdgeRow(map[], b, a, there, a, b);
    WithEdgeRow(one, a, b, back, b, a);
    hide WithEdge, Predecessors, Successors;
    OwnEnds(map[], b);
    OwnEnds(map[], a);
    NoStoredEnds(a, b);
    assert {} + there + {} == there;
    StoredEnds(one, b, a);
  }

  lemma NoNewWayBack(adj: Adj, u: Node, w: Node)
    ensures Crossings(adj, u, w, w, u) == {}
  {
    forall p, q | p in PathsFrom(adj, w, u) && q in PathsFrom(adj, w, u) ensures Visits(adj, w, p) * Visits(adj, w, q) != {} {
      EndVisited(adj, w, p);
      EndVisited(adj, w, q);
      assert w in Visits(adj, w, p) * Visits(adj, w, q);
    }
  }

  /**
   * The smallest cycle: an edge from b to a, then one back. The delta for the second counts a second
   * support for (b, a), by way of a, b and a again, although one simple path joins them.
   */
  lemma CycleIsMiscounted(a: Node, b: Node, there: set<EventId>, back: set<EventId>)
    requires a != b
    ensures var edges := [NewEdgeFact(b, a, there), NewEdgeFact(a, b, back)];
            && Exact(FoldedRows(edges[..1]), GraphOf(edges[..1]))
            && (b, a) in FoldedRows(edges) && FoldedRows(edges)[(b, a)].count == 2
            && |Paths(GraphOf(edges), b, a)| == 1 && !Exact(FoldedRows(edges), GraphOf(edges))
  {
    var edges := [NewEdgeFact(b, a, there), NewEdgeFact(a, b, back)];
    var one, adj := WithEdge(map[], b, a, there, false), AddEdge(map[], b, a, there);
    FoldTwo(edges);
    EmptyGraphExact();
    RowsThereAndBack(a, b, there, back);
    hide WithEdge, AddEdge, Paths, Predecessors, Successors, FoldedRows, GraphOf, Crossings;
    DeltaExactIffSafe(map[], map[], b, a, there);
    assert Holds(one, adj, b, a, Paths(adj, b, a));
    NoNewWayBack(adj, a, b);
    NewPaths(adj, a, b, back, b, a);
    assert Paths(adj, b, a) + {} == Paths(adj, b, a);
    DeltaExactIffSafe(one, adj, a, b, back);
  }

  lemma FoldTwo(edges: seq<NewEdgeFact>)
    requires |edges| == 2
    ensures var e, f := edges[0], edges[1];
            var one, adj := WithEdge(map[], e.u, e.w, e.prov, false), AddEdge(map[], e.u, e.w, e.prov);
            && FoldedRows(edges[..1]) == one && GraphOf(edges[..1]) == adj
            && FoldedRows(edges) == WithEdge(one, f.u, f.w, f.prov, false) && GraphOf(edges) == AddEdge(adj, f.u, f.w, f.prov)
  {
    hide WithEdge, AddEdge;
    assert edges[..1][..0] == [];
  }
}
