/** The derived-fact rows of one closure attribute: recomputed whole, or grown edge by edge. */
module ClosureTable {
  import opened Seqs
  import opened Core
  import opened Graph
  import opened ClosureSearch
  import opened IncrementalClosure

  class DerivedFacts {
    var rows: Pairs

    constructor ()
      ensures rows == map[]
    {
      rows := map[];
    }

    /** Patch the rows still supported, insert the new ones, delete the rest. */
    method Recompute(adj: Adj, maxDepth: nat, reflexive: bool, cap: nat) returns (truncated: bool)
      modifies this
      ensures truncated <==> AllFinds(adj, maxDepth) != {} && |AllFinds(adj, maxDepth)| >= cap
      ensures !truncated ==> forall x, y :: RightPair(rows, adj, maxDepth, reflexive, x, y)
      ensures truncated ==> forall x, y :: SoundPair(rows, adj, maxDepth, reflexive, x, y)
    {
      var pairs;
      pairs, truncated := ComputeClosureSupports(adj, maxDepth, reflexive, cap);
      ReplaceRows(pairs);
    }

    method ReplaceRows(pairs: Pairs)
      modifies this
      ensures rows == pairs
    {
      var priorByPair := rows.Keys;
      var order := Listing(pairs.Keys);
      for i := 0 to |order|
        invariant rows.Keys == old(rows.Keys) + SetOf(order[..i])
        invariant priorByPair == old(rows.Keys) - SetOf(order[..i])
        invariant forall k :: k in SetOf(order[..i]) ==> rows[k] == pairs[k]
      {
        var k := order[i];
        InSetOf(order, i);
        TakeNext(order, i);
        SetOfAppend(order[..i], k);
        if k in priorByPair {
          priorByPair := priorByPair - {k};
        }
        rows := rows[k := pairs[k]];
      }
      TakeAll(order);
      rows := map k | k in rows && k !in priorByPair :: rows[k];
    }

    /** Fold one new edge in. */
    method FoldEdge(u: Node, w: Node, edgeProv: set<EventId>, reflexive: bool, cap: nat) returns (capped: bool)
      modifies this
      ensures capped <==>
                var added := Touched(Predecessors(old(rows), u), Successors(old(rows), w), reflexive) - old(rows).Keys;
                |added| >= cap && added != {}
      ensures !capped ==> rows == WithEdge(old(rows), u, w, edgeProv, reflexive)
      ensures capped ==> PartOfDelta(rows, old(rows), u, w, edgeProv, reflexive)
    {
      rows, capped := IncrementalClosureAdd(rows, u, w, edgeProv, reflexive, cap);
    }
  }
}
