/** Folding one new edge into a materialised closure, and when that keeps the closure exact. */
module IncrementalClosure {
  import opened Seqs
  import opened Core
  import opened Graph
  import opened NewEdge
  import opened ClosureSearch

  // ---- what the stored rows should be ----------------------------------------------------

  /** The rows hold exactly the off-diagonal pairs joined by a walk. */
  ghost predicate ExactPairs(rows: Pairs, adj: Adj) {
    forall x, y :: (x, y) in rows <==> x != y && Reach(adj, x, y)
  }

  /** ... with the number of simple paths that join each, and the events behind them. */
  ghost predicate Exact(rows: Pairs, adj: Adj) {
    forall x, y :: Holds(rows, adj, x, y, Paths(adj, x, y))
  }

  lemma ExactImpliesPairs(rows: Pairs, adj: Adj)
    requires Exact(rows, adj)
    ensures ExactPairs(rows, adj)
  {
    forall x, y ensures (x, y) in rows <==> x != y && Reach(adj, x, y) {
      assert Holds(rows, adj, x, y, Paths(adj, x, y));
      PathsIffReach(adj, x, y);
    }
  }

  /** Exact rows are what a full, unbounded, non-reflexive search computes, and nothing else is. */
  lemma ExactIsRecomputed(rows: Pairs, pairs: Pairs, adj: Adj, maxDepth: nat)
    requires maxDepth >= Bound(adj) && forall x, y :: RightPair(pairs, adj, maxDepth, false, x, y)
    ensures Exact(rows, adj) <==> rows == pairs
  {
    forall x, y ensures Holds(pairs, adj, x, y, Paths(adj, x, y)) {
      assert RightPair(pairs, adj, maxDepth, false, x, y);
      PathsToIsPaths(adj, x, y, maxDepth);
      PathsIffReach(adj, x, y);
    }
    if Exact(rows, adj) {
      forall k ensures k in rows <==> k in pairs
      ensures k in rows ==> rows[k] == pairs[k]
      {
        assert Holds(rows, adj, k.0, k.1, Paths(adj, k.0, k.1));
        assert Holds(pairs, adj, k.0, k.1, Paths(adj, k.0, k.1));
      }
    }
  }

  // ---- the delta for one edge ------------------------------------------------------------

  type Supports = map<Node, Support>

  /** Stored pairs into `u`, and `u` itself. */
  function Predecessors(rows: Pairs, u: Node): Supports {
    (map k | k in rows && k.1 == u :: k.0 := rows[k])[u := Support(1, {})]
  }

  /** Stored pairs out of `w`, and `w` itself. */
  function Successors(rows: Pairs, w: Node): Supports {
    (map k | k in rows && k.0 == w :: k.1 := rows[k])[w := Support(1, {})]
  }

  /** A row after the pair gained the paths through the new edge. */
  function Gained(rows: Pairs, k: (Node, Node), sx: Support, sy: Support, edgeProv: set<EventId>): Support {
    var added := sx.count * sy.count;
    var prov := sx.eventProv + edgeProv + sy.eventProv;
    if k in rows then Support(rows[k].count + added, rows[k].eventProv + prov) else Support(added, prov)
  }

  /** The pairs the delta touches. */
  function Touched(preds: Supports, succs: Supports, reflexive: bool): set<(Node, Node)> {
    set x, y | x in preds && y in succs && (reflexive || x != y) :: (x, y)
  }

  /** The rows after the delta has reached the pairs in `done`. */
  function WithPairs(rows: Pairs, preds: Supports, succs: Supports, edgeProv: set<EventId>, done: set<(Node, Node)>): Pairs {
    rows + map k | k in done && k.0 in preds && k.1 in succs :: Gained(rows, k, preds[k.0], succs[k.1], edgeProv)
  }

  /** All rows after the delta for u → w. */
  function WithEdge(rows: Pairs, u: Node, w: Node, edgeProv: set<EventId>, reflexive: bool): Pairs {
    var preds, succs := Predecessors(rows, u), Successors(rows, w);
    WithPairs(rows, preds, succs, edgeProv, Touched(preds, succs, reflexive))
  }

  /** The state of the delta once it has reached the pairs in `done`. */
  datatype Delta = Delta(rows: Pairs, inserted: nat, capped: bool)

  function DeltaOf(rows: Pairs, preds: Supports, succs: Supports, edgeProv: set<EventId>, done: set<(Node, Node)>, cap: nat): Delta {
    var inserted := |done - rows.Keys|;
    Delta(WithPairs(rows, preds, succs, edgeProv, done), inserted, inserted >= cap && inserted != 0)
  }

  /** Patch or insert the row of one pair. */
  function Step(d: Delta, x: Node, y: Node, sx: Support, sy: Support, edgeProv: set<EventId>, cap: nat): Delta {
    var isNew := (x, y) !in d.rows;
    var inserted := if isNew then d.inserted + 1 else d.inserted;
    Delta(d.rows[(x, y) := Gained(d.rows, (x, y), sx, sy, edgeProv)], inserted, isNew && inserted >= cap)
  }

  lemma OneMorePair(rows: Pairs, preds: Supports, succs: Supports, edgeProv: set<EventId>, done: set<(Node, Node)>, cap: nat,
                    x: Node, y: Node)
    requires x in preds && y in succs && (x, y) !in done && !DeltaOf(rows, preds, succs, edgeProv, done, cap).capped
    ensures Step(DeltaOf(rows, preds, succs, edgeProv, done, cap), x, y, preds[x], succs[y], edgeProv, cap)
         == DeltaOf(rows, preds, succs, edgeProv, done + {(x, y)}, cap)
  {
    PairsStep(rows, preds, succs, edgeProv, done, x, y);
    CountStep(rows, done, (x, y));
  }

  lemma PairsStep(rows: Pairs, preds: Supports, succs: Supports, edgeProv: set<EventId>, done: set<(Node, Node)>, x: Node, y: Node)
    requires x in preds && y in succs && (x, y) !in done
    ensures var now := WithPairs(rows, preds, succs, edgeProv, done);
            && ((x, y) in now <==> (x, y) in rows)
            && now[(x, y) := Gained(now, (x, y), preds[x], succs[y], edgeProv)]
               == WithPairs(rows, preds, succs, edgeProv, done + {(x, y)})
  {
  }

  lemma CountStep(rows: Pairs, done: set<(Node, Node)>, k: (Node, Node))
    requires k !in done
    ensures |(done + {k}) - rows.Keys| == |done - rows.Keys| + (if k in rows then 0 else 1)
  {
    assert (done + {k}) - rows.Keys == (done - rows.Keys) + (if k in rows then {} else {k});
  }

  ghost function RowOf(x: Node, ys: set<Node>, reflexive: bool): set<(Node, Node)> {
    set y | y in ys && (reflexive || x != y) :: (x, y)
  }

  /** The pairs of `x` with the first targets visited. */
  ghost function RowSoFar(x: Node, order: seq<Node>, reflexive: bool): set<(Node, Node)> {
    if order == [] then {}
    else
      var y := order[|order| - 1];
      RowSoFar(x, order[..|order| - 1], reflexive) + OneOf(x, y, reflexive)
  }

  lemma {:induction false} RowSoFarIs(x: Node, order: seq<Node>, reflexive: bool)
    ensures RowSoFar(x, order, reflexive) == RowOf(x, SetOf(order), reflexive)
  {
    if order != [] {
      RowSoFarIs(x, order[..|order| - 1], reflexive);
      SplitLast(order);
    }
  }

  lemma RowSoFarStep(x: Node, order: seq<Node>, i: nat, reflexive: bool)
    requires i < |order| && NoDup(order)
    ensures RowSoFar(x, order[..i + 1], reflexive) == RowSoFar(x, order[..i], reflexive) + OneOf(x, order[i], reflexive)
    ensures (x, order[i]) !in RowSoFar(x, order[..i], reflexive)
    ensures RowSoFar(x, order[..i + 1], reflexive) <= RowOf(x, SetOf(order), reflexive)
  {
    assert order[..i + 1][..i] == order[..i];
    RowSoFarIs(x, order[..i], reflexive);
    RowSoFarIs(x, order[..i + 1], reflexive);
  }

  /** One turn of the inner loop. */
  function Turn(d: Delta, x: Node, y: Node, sx: Support, sy: Support, edgeProv: set<EventId>, reflexive: bool, cap: nat): Delta {
    if x == y && !reflexive then d else Step(d, x, y, sx, sy, edgeProv, cap)
  }

  ghost function OneOf(x: Node, y: Node, reflexive: bool): set<(Node, Node)> {
    if x == y && !reflexive then {} else {(x, y)}
  }

  lemma TurnStep(rows: Pairs, preds: Supports, succs: Supports, edgeProv: set<EventId>, now: set<(Node, Node)>, cap: nat,
                 x: Node, y: Node, reflexive: bool)
    requires x in preds && y in succs && (x, y) !in now
    requires !DeltaOf(rows, preds, succs, edgeProv, now, cap).capped
    ensures Turn(DeltaOf(rows, preds, succs, edgeProv, now, cap), x, y, preds[x], succs[y], edgeProv, reflexive, cap)
         == DeltaOf(rows, preds, succs, edgeProv, now + OneOf(x, y, reflexive), cap)
  {
    hide DeltaOf, Step;
    if x == y && !reflexive {
      assert now + {} == now;
    } else {
      OneMorePair(rows, preds, succs, edgeProv, now, cap, x, y);
    }
  }

  lemma UnionAssoc<T>(a: set<T>, b: set<T>, c: set<T>)
    ensures a + (b + c) == (a + b) + c
  {
  }

  /** The inner loop: one predecessor against every successor. */
  method AddPairsFrom(ghost rows: Pairs, d: Delta, x: Node, preds: Supports, succs: Supports, edgeProv: set<EventId>,
                      reflexive: bool, cap: nat, ghost done: set<(Node, Node)>)
    returns (d': Delta, ghost now: set<(Node, Node)>)
    requires x in preds && forall k :: k in done ==> k.0 != x
    requires d == DeltaOf(rows, preds, succs, edgeProv, done, cap) && !d.capped
    ensures d' == DeltaOf(rows, preds, succs, edgeProv, now, cap) && now <= done + RowOf(x, succs.Keys, reflexive)
    ensures !d'.capped ==> now == done + RowOf(x, succs.Keys, reflexive)
  {
    hide DeltaOf;
    d', now := d, done;
    var order := Listing(succs.Keys);
    var i := 0;
    while i < |order| && !d'.capped
      invariant 0 <= i <= |order|
      invariant now == done + RowSoFar(x, order[..i], reflexive) && now <= done + RowOf(x, succs.Keys, reflexive)
      invariant d' == DeltaOf(rows, preds, succs, edgeProv, now, cap)
    {
      ghost var row, next := RowSoFar(x, order[..i], reflexive), RowSoFar(x, order[..i + 1], reflexive);
      RowSoFarStep(x, order, i, reflexive);
      UnionAssoc(done, row, OneOf(x, order[i], reflexive));
      assert order[i] in SetOf(order);
      TurnStep(rows, preds, succs, edgeProv, now, cap, x, order[i], reflexive);
      d' := Turn(d', x, order[i], preds[x], succs[order[i]], edgeProv, reflexive, cap);
      i, now := i + 1, done + next;
    }
    TakeAll(order);
    RowSoFarIs(x, order, reflexive);
  }

  ghost function RowsOf(xs: set<Node>, ys: set<Node>, reflexive: bool): set<(Node, Node)> {
    set x, y | x in xs && y in ys && (reflexive || x != y) :: (x, y)
  }

  ghost function RowsSoFar(order: seq<Node>, ys: set<Node>, reflexive: bool): set<(Node, Node)> {
    if order == [] then {}
    else RowsSoFar(order[..|order| - 1], ys, reflexive) + RowOf(order[|order| - 1], ys, reflexive)
  }

  lemma {:induction false} RowsSoFarIs(order: seq<Node>, ys: set<Node>, reflexive: bool)
    ensures RowsSoFar(order, ys, reflexive) == RowsOf(SetOf(order), ys, reflexive)
  {
    if order != [] {
      RowsSoFarIs(order[..|order| - 1], ys, reflexive);
      SplitLast(order);
    }
  }

  lemma RowsSoFarStep(order: seq<Node>, i: nat, ys: set<Node>, reflexive: bool)
    requires i < |order| && NoDup(order)
    ensures RowsSoFar(order[..i + 1], ys, reflexive) == RowsSoFar(order[..i], ys, reflexive) + RowOf(order[i], ys, reflexive)
    ensures forall k :: k in RowsSoFar(order[..i], ys, reflexive) ==> k.0 != order[i]
    ensures RowsSoFar(order[..i + 1], ys, reflexive) <= RowsOf(SetOf(order), ys, reflexive)
  {
    assert order[..i + 1][..i] == order[..i];
    RowsSoFarIs(order[..i], ys, reflexive);
    RowsSoFarIs(order[..i + 1], ys, reflexive);
  }

  /** Stopping early or not, the cap tells whether the whole delta would reach it. */
  lemma CapMeans(rows: Pairs, preds: Supports, succs: Supports, edgeProv: set<EventId>, now: set<(Node, Node)>,
                 all: set<(Node, Node)>, cap: nat)
    requires now <= all && (!DeltaOf(rows, preds, succs, edgeProv, now, cap).capped ==> now == all)
    ensures DeltaOf(rows, preds, succs, edgeProv, now, cap).capped <==> |all - rows.Keys| >= cap && all - rows.Keys != {}
    ensures DeltaOf(rows, preds, succs, edgeProv, now, cap).rows == WithPairs(rows, preds, succs, edgeProv, now)
  {
    SubsetCount(now - rows.Keys, all - rows.Keys);
  }

  lemma AllRows(preds: Supports, succs: Supports, reflexive: bool)
    ensures RowsOf(preds.Keys, succs.Keys, reflexive) == Touched(preds, succs, reflexive)
    ensures RowsSoFar([], succs.Keys, reflexive) == {}
  {
  }

  lemma NothingDone(rows: Pairs, preds: Supports, succs: Supports, edgeProv: set<EventId>, cap: nat)
    ensures DeltaOf(rows, preds, succs, edgeProv, {}, cap) == Delta(rows, 0, false)
  {
    assert WithPairs(rows, preds, succs, edgeProv, {}) == rows;
  }

  /** The outer loop: every predecessor. */
  method AddAllPairs(rows: Pairs, preds: Supports, succs: Supports, edgeProv: set<EventId>, reflexive: bool, cap: nat)
    returns (d: Delta, ghost done: set<(Node, Node)>)
    ensures d == DeltaOf(rows, preds, succs, edgeProv, done, cap)
    ensures done <= RowsOf(preds.Keys, succs.Keys, reflexive)
    ensures !d.capped ==> done == RowsOf(preds.Keys, succs.Keys, reflexive)
  {
    hide DeltaOf, WithPairs, RowsOf, RowOf, RowsSoFar, SetOf, NoDup;
    NothingDone(rows, preds, succs, edgeProv, cap);
    AllRows(preds, succs, reflexive);
    d, done := Delta(rows, 0, false), {};
    var order := Listing(preds.Keys);
    var i := 0;
    while i < |order| && !d.capped
      invariant 0 <= i <= |order|
      invariant done <= RowsOf(preds.Keys, succs.Keys, reflexive)
      invariant !d.capped ==> done == RowsSoFar(order[..i], succs.Keys, reflexive)
      invariant d == DeltaOf(rows, preds, succs, edgeProv, done, cap)
    {
      RowsSoFarStep(order, i, succs.Keys, reflexive);
      InSetOf(order, i);
      d, done := AddPairsFrom(rows, d, order[i], preds, succs, edgeProv, reflexive, cap, done);
      i := i + 1;
    }
    TakeAll(order);
    RowsSoFarIs(order, succs.Keys, reflexive);
  }

  /** The rows after the delta has reached some of the pairs. */
  ghost predicate PartOfDelta(rows': Pairs, rows: Pairs, u: Node, w: Node, edgeProv: set<EventId>, reflexive: bool) {
    var preds, succs := Predecessors(rows, u), Successors(rows, w);
    exists done :: done <= Touched(preds, succs, reflexive) && rows' == WithPairs(rows, preds, succs, edgeProv, done)
  }

  /** The delta for a new edge u → w, stopping early when the cap on inserted pairs is reached. */
  method IncrementalClosureAdd(rows: Pairs, u: Node, w: Node, edgeProv: set<EventId>, reflexive: bool, cap: nat)
    returns (rows': Pairs, capped: bool)
    ensures capped <==>
              var added := Touched(Predecessors(rows, u), Successors(rows, w), reflexive) - rows.Keys;
              |added| >= cap && added != {}
    ensures !capped ==> rows' == WithEdge(rows, u, w, edgeProv, reflexive)
    ensures capped ==> PartOfDelta(rows', rows, u, w, edgeProv, reflexive)
  {
    hide DeltaOf, WithPairs, RowsOf, Touched, Predecessors, Successors;
    var preds, succs := Predecessors(rows, u), Successors(rows, w);
    var d;
    ghost var done;
    d, done := AddAllPairs(rows, preds, succs, edgeProv, reflexive, cap);
    AllRows(preds, succs, reflexive);
    CapMeans(rows, preds, succs, edgeProv, done, Touched(preds, succs, reflexive), cap);
    return d.rows, d.capped;
  }
}
