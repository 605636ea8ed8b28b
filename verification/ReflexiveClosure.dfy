/**
 * The reflexive closure: a recompute stores a pair (x, x) for every node with an edge out of it, and
 * the delta for a new edge keeps that only under a stricter condition than without those pairs.
 */
module ReflexiveClosure {
  import opened Core
  import opened Graph
  import opened NewEdge
  import opened ClosureSearch
  import opened IncrementalClosure
  import opened ClosureTheorems

  /** What the rows should hold for one pair. */
  ghost predicate ExactAt(rows: Pairs, adj: Adj, x: Node, y: Node) {
    if x == y then ((x, x) in rows <==> x in adj) && ((x, x) in rows ==> rows[(x, x)] == Support(1, {}))
    else Holds(rows, adj, x, y, Paths(adj, x, y))
  }

  ghost predicate ExactReflexive(rows: Pairs, adj: Adj) {
    forall x, y :: ExactAt(rows, adj, x, y)
  }

  /** These rows are what a full, unbounded, reflexive search computes, and nothing else is. */
  lemma ReflexiveIsRecomputed(rows: Pairs, pairs: Pairs, adj: Adj, maxDepth: nat)
    requires maxDepth >= Bound(adj) && forall x, y :: RightPair(pairs, adj, maxDepth, true, x, y)
    ensures ExactReflexive(rows, adj) <==> rows == pairs
  {
    forall x, y ensures ExactAt(pairs, adj, x, y) {
      assert RightPair(pairs, adj, maxDepth, true, x, y);
      PathsToIsPaths(adj, x, y, maxDepth);
    }
    if ExactReflexive(rows, adj) {
      forall k ensures k in rows <==> k in pairs
      ensures k in rows ==> rows[k] == pairs[k]
      {
        assert ExactAt(rows, adj, k.0, k.1) && ExactAt(pairs, adj, k.0, k.1);
      }
    }
  }

  /** The rows without the diagonal. */
  function OffDiagonal(rows: Pairs): Pairs { map k | k in rows && k.0 != k.1 :: rows[k] }

  lemma OffDiagonalExactIff(rows: Pairs, adj: Adj)
    ensures Exact(OffDiagonal(rows), adj) <==> forall x, y :: x != y ==> Holds(rows, adj, x, y, Paths(adj, x, y))
  {
    var off := OffDiagonal(rows);
    forall x, y ensures x != y ==> (Holds(off, adj, x, y, Paths(adj, x, y)) <==> Holds(rows, adj, x, y, Paths(adj, x, y)))
      ensures x == y ==> Holds(off, adj, x, y, Paths(adj, x, y))
    {
      PathsIffReach(adj, x, y);
    }
  }

  ghost predicate SameAt<K, V>(m: map<K, V>, n: map<K, V>, k: K) {
    (k in m <==> k in n) && (k in m && k in n ==> m[k] == n[k])
  }

  lemma SameMap<K(!new), V>(m: map<K, V>, n: map<K, V>)
    requires forall k :: SameAt(m, n, k)
    ensures m == n
  {
    forall k ensures k in m <==> k in n
    ensures k in m && k in n ==> m[k] == n[k]
    {
      assert SameAt(m, n, k);
    }
  }

  lemma SameEnds(rows: Pairs, u: Node, w: Node)
    ensures Predecessors(rows, u) == Predecessors(OffDiagonal(rows), u)
    ensures Successors(rows, w) == Successors(OffDiagonal(rows), w)
  {
    hide Predecessors, Successors, OffDiagonal, SameAt;
    forall x ensures SameAt(Predecessors(rows, u), Predecessors(OffDiagonal(rows), u), x) {
      SamePredecessor(rows, u, x);
    }
    forall y ensures SameAt(Successors(rows, w), Successors(OffDiagonal(rows), w), y) {
      SameSuccessor(rows, w, y);
    }
    SameMap(Predecessors(rows, u), Predecessors(OffDiagonal(rows), u));
    SameMap(Successors(rows, w), Successors(OffDiagonal(rows), w));
  }

  lemma SamePredecessor(rows: Pairs, u: Node, x: Node)
    ensures SameAt(Predecessors(rows, u), Predecessors(OffDiagonal(rows), u), x)
  {
    if x != u { assert (x, u) in rows <==> (x, u) in OffDiagonal(rows); }
  }

  lemma SameSuccessor(rows: Pairs, w: Node, y: Node)
    ensures SameAt(Successors(rows, w), Successors(OffDiagonal(rows), w), y)
  {
    if y != w { assert (w, y) in rows <==> (w, y) in OffDiagonal(rows); }
  }

  lemma ReflexiveRow(rows: Pairs, u: Node, w: Node, prov: set<EventId>, x: Node, y: Node)
    requires x != y
    ensures var preds, succs, after := Predecessors(rows, u), Successors(rows, w), WithEdge(rows, u, w, prov, true);
            if x in preds && y in succs
            then (x, y) in after && after[(x, y)] == Gained(rows, (x, y), preds[x], succs[y], prov)
            else ((x, y) in after <==> (x, y) in rows) && ((x, y) in after ==> after[(x, y)] == rows[(x, y)])
  {
    hide Predecessors, Successors, Gained;
  }

  lemma SamePairOff(rows: Pairs, u: Node, w: Node, prov: set<EventId>, x: Node, y: Node)
    requires x != y
    ensures var after, after' := WithEdge(rows, u, w, prov, true), WithEdge(OffDiagonal(rows), u, w, prov, false);
            ((x, y) in after <==> (x, y) in after') && ((x, y) in after ==> after[(x, y)] == after'[(x, y)])
  {
    SameEnds(rows, u, w);
    ReflexiveRow(rows, u, w, prov, x, y);
    WithEdgeRow(OffDiagonal(rows), u, w, prov, x, y);
    hide Predecessors, Successors, WithEdge;
    assert (x, y) in rows <==> (x, y) in OffDiagonal(rows);
  }

  lemma SameOffAt(rows: Pairs, u: Node, w: Node, prov: set<EventId>, k: (Node, Node))
    ensures SameAt(OffDiagonal(WithEdge(rows, u, w, prov, true)), WithEdge(OffDiagonal(rows), u, w, prov, false), k)
  {
    var x, y := k.0, k.1;
    assert k == (x, y);
    WithEdgeRow(OffDiagonal(rows), u, w, prov, x, y);
    if x != y { SamePairOff(rows, u, w, prov, x, y); }
    hide WithEdge, Predecessors, Successors, Gained;
  }

  /** Off the diagonal the two deltas are one. */
  lemma SameDeltaOff(rows: Pairs, u: Node, w: Node, prov: set<EventId>)
    ensures OffDiagonal(WithEdge(rows, u, w, prov, true)) == WithEdge(OffDiagonal(rows), u, w, prov, false)
  {
    hide WithEdge, OffDiagonal, SameAt;
    forall k ensures SameAt(OffDiagonal(WithEdge(rows, u, w, prov, true)), WithEdge(OffDiagonal(rows), u, w, prov, false), k) {
      SameOffAt(rows, u, w, prov, k);
    }
    SameMap(OffDiagonal(WithEdge(rows, u, w, prov, true)), WithEdge(OffDiagonal(rows), u, w, prov, false));
  }

  /** On the diagonal the delta touches the nodes on a cycle through the new edge. */
  lemma DiagonalRow(rows: Pairs, u: Node, w: Node, prov: set<EventId>, x: Node)
    ensures var preds, succs, after := Predecessors(rows, u), Successors(rows, w), WithEdge(rows, u, w, prov, true);
            if x in preds && x in succs
            then (x, x) in after && after[(x, x)] == Gained(rows, (x, x), preds[x], succs[x], prov)
            else ((x, x) in after <==> (x, x) in rows) && ((x, x) in after ==> after[(x, x)] == rows[(x, x)])
  {
  }

  /**
   * The edge is safe off the diagonal and, besides, its source has a diagonal pair already; a loop is
   * at a node no other pair mentions and without such a pair, and has no events behind it.
   */
  predicate SafeReflexive(rows: Pairs, u: Node, w: Node, prov: set<EventId>) {
    Safe(OffDiagonal(rows), u, w) && (if u != w then (u, u) in rows else (u, u) !in rows && prov == {})
  }

  /** Exactly when the delta keeps the reflexive closure exact. */
  lemma ReflexiveDeltaExactIff(rows: Pairs, adj: Adj, u: Node, w: Node, prov: set<EventId>)
    requires ExactReflexive(rows, adj)
    ensures ExactReflexive(WithEdge(rows, u, w, prov, true), AddEdge(adj, u, w, prov)) <==> SafeReflexive(rows, u, w, prov)
  {
    var off, after, adj' := OffDiagonal(rows), WithEdge(rows, u, w, prov, true), AddEdge(adj, u, w, prov);
    OffDiagonalExactIff(rows, adj);
    assert Exact(off, adj) by {
      forall x, y | x != y ensures Holds(rows, adj, x, y, Paths(adj, x, y)) { assert ExactAt(rows, adj, x, y); }
    }
    SameDeltaOff(rows, u, w, prov);
    DeltaExactIffSafe(off, adj, u, w, prov);
    OffDiagonalExactIff(after, adj');
    if Safe(off, u, w) {
      forall x ensures ExactAt(after, adj', x, x) <==> (x == u ==> SafeReflexive(rows, u, w, prov)) {
        DiagonalExactIff(rows, adj, u, w, prov, x);
      }
      hide Safe, Exact, WithEdge, AddEdge;
      assert ExactReflexive(after, adj') ==> ExactAt(after, adj', u, u);
      if SafeReflexive(rows, u, w, prov) {
        forall x, y ensures ExactAt(after, adj', x, y) {
        }
      }
    } else if ExactReflexive(after, adj') {
      forall x, y | x != y ensures Holds(after, adj', x, y, Paths(adj', x, y)) { assert ExactAt(after, adj', x, y); }
    }
  }

  /** With a safe edge, only the diagonal pair of its source can go wrong. */
  lemma DiagonalExactIff(rows: Pairs, adj: Adj, u: Node, w: Node, prov: set<EventId>, x: Node)
    requires ExactReflexive(rows, adj) && Exact(OffDiagonal(rows), adj) && Safe(OffDiagonal(rows), u, w)
    ensures ExactAt(WithEdge(rows, u, w, prov, true), AddEdge(adj, u, w, prov), x, x) <==>
            (x == u ==> SafeReflexive(rows, u, w, prov))
  {
    var off := OffDiagonal(rows);
    assert ExactAt(rows, adj, x, x) && ExactAt(rows, adj, u, u);
    DiagonalRow(rows, u, w, prov, x);
    SafeEnds(rows, adj, u, w, x);
    SourcesWithEdge(adj, u, w, prov, x);
    hide WithEdge, Predecessors, Successors, AddEdge, Exact, ExactReflexive, OffDiagonal, Safe;
    OwnEnds(rows, u);
  }

  lemma SourcesWithEdge(adj: Adj, u: Node, w: Node, prov: set<EventId>, x: Node)
    ensures x in AddEdge(adj, u, w, prov) <==> x in adj || x == u
  {
  }

  /** A safe edge has no node on both its sides, a loop's own aside. */
  lemma SafeEnds(rows: Pairs, adj: Adj, u: Node, w: Node, x: Node)
    requires Exact(OffDiagonal(rows), adj) && Safe(OffDiagonal(rows), u, w)
    ensures x in Predecessors(rows, u) && x in Successors(rows, w) <==> u == w == x
  {
    var off := OffDiagonal(rows);
    SameEnds(rows, u, w);
    ExactImpliesPairs(off, adj);
    PredecessorsReach(off, adj, x, u);
    SuccessorsReach(off, adj, w, x);
    hide Reach, Predecessors, Successors, Exact, OffDiagonal;
    if u == w == x { OwnEnds(off, u); }
    if Reach(adj, w, x) && Reach(adj, x, u) { ReachTransitive(adj, w, x, u); }
    assert u == w && x != u && Reach(adj, x, u) ==> (x, u) in off;
  }

  /** The first edge of all: its source should have a diagonal pair, and the delta stores none. */
  lemma FirstEdgeLeavesNoDiagonal(a: Node, b: Node, prov: set<EventId>)
    requires a != b
    ensures var after := WithEdge(map[], a, b, prov, true);
            ExactReflexive(map[], map[]) && (a, a) !in after && !ExactReflexive(after, AddEdge(map[], a, b, prov))
  {
    EmptyGraphExact();
    forall x, y ensures ExactAt(map[], map[], x, y) { assert Holds(map[], map[], x, y, Paths(map[], x, y)); }
    DiagonalRow(map[], a, b, prov, a);
    ReflexiveDeltaExactIff(map[], map[], a, b, prov);
  }
}
