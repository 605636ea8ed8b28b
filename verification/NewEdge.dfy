/** What one new edge u → w does to the simple paths of a graph. */
module NewEdge {
  import opened Seqs
  import opened Core
  import opened Graph

  function AddEdge(adj: Adj, u: Node, w: Node, prov: set<EventId>): Adj {
    adj[u := Out(adj, u) + [Edge(w, prov)]]
  }

  /** The position the new edge takes at `u`. */
  function Slot(adj: Adj, u: Node): Pos { |Out(adj, u)| as Pos }

  /** Old paths stay what they were. */
  lemma {:induction false} OldPath(adj: Adj, u: Node, w: Node, prov: set<EventId>, x: Node, p: Path)
    requires IsPath(adj, x, p)
    ensures var adj' := AddEdge(adj, u, w, prov);
            && IsPath(adj', x, p) && End(adj', x, p) == End(adj, x, p)
            && Visits(adj', x, p) == Visits(adj, x, p) && Prov(adj', x, p) == Prov(adj, x, p)
            && (Simple(adj', x, p) <==> Simple(adj, x, p))
  {
    if p != [] { OldPath(adj, u, w, prov, x, p[..|p| - 1]); }
  }

  lemma NewEdgeStep(adj: Adj, u: Node, w: Node, prov: set<EventId>)
    ensures var adj', k := AddEdge(adj, u, w, prov), Slot(adj, u);
            && IsPath(adj', u, [k]) && End(adj', u, [k]) == w
            && Visits(adj', u, [k]) == {u, w} && Prov(adj', u, [k]) == prov
            && !IsPath(adj, u, [k])
  {
    var adj', k := AddEdge(adj, u, w, prov), Slot(adj, u);
    assert [] + [k] == [k];
    Snoc(adj', u, [], k);
    Snoc(adj, u, [], k);
  }

  /** From `p1` through the new edge into the old path `q`. */
  lemma AfterNewEdge(adj: Adj, u: Node, w: Node, prov: set<EventId>, x: Node, p1: Path, q: Path)
    requires IsPath(AddEdge(adj, u, w, prov), x, p1) && End(AddEdge(adj, u, w, prov), x, p1) == u && IsPath(adj, w, q)
    ensures var adj', p := AddEdge(adj, u, w, prov), p1 + [Slot(adj, u)] + q;
            && IsPath(adj', x, p) && End(adj', x, p) == End(adj, w, q)
            && Visits(adj', x, p) == Visits(adj', x, p1) + Visits(adj, w, q)
            && Prov(adj', x, p) == Prov(adj', x, p1) + prov + Prov(adj, w, q)
            && !IsPath(adj, x, p)
  {
    var adj', k := AddEdge(adj, u, w, prov), Slot(adj, u);
    NewEdgeStep(adj, u, w, prov);
    OldPath(adj, u, w, prov, w, q);
    Concat(adj', x, p1, [k]);
    Concat(adj', x, p1 + [k], q);
    EndVisited(adj', x, p1);
    EndVisited(adj, w, q);
    Concat(adj, x, p1 + [k], q);
    Concat(adj, x, p1, [k]);
    if IsPath(adj, x, p1) { OldPath(adj, u, w, prov, x, p1); }
  }

  /** A path either is old or splits at its last use of the new edge. */
  lemma {:induction false} SplitAtNewEdge(adj: Adj, u: Node, w: Node, prov: set<EventId>, x: Node, p: Path)
    returns (p1: Path, q: Path)
    requires IsPath(AddEdge(adj, u, w, prov), x, p)
    ensures !IsPath(adj, x, p) ==>
              p == p1 + [Slot(adj, u)] + q && IsPath(AddEdge(adj, u, w, prov), x, p1) &&
              End(AddEdge(adj, u, w, prov), x, p1) == u && IsPath(adj, w, q)
  {
    hide AddEdge, Out, IsPath, End, Visits, Prov, Simple;
    p1, q := [], [];
    if p == [] {
      EmptyPath(adj, x);
    } else {
      var adj' := AddEdge(adj, u, w, prov);
      var init, i := p[..|p| - 1], p[|p| - 1];
      var n := End(adj', x, init);
      SplitLast(p);
      LastEdge(adj', x, p);
      OldSlot(adj, u, w, prov, n, i);
      p1, q := SplitAtNewEdge(adj, u, w, prov, x, init);
      if n == u && i == Slot(adj, u) {
        p1, q := init, [];
        EmptyPath(adj, w);
        AppendNil(p);
      } else if IsPath(adj, x, init) {
        OldPath(adj, u, w, prov, x, init);
        LastEdge(adj, x, p);
      } else {
        AfterNewEdge(adj, u, w, prov, x, p1, q);
        Snoc(adj, w, q, i);
        AppendAssoc(p1 + [Slot(adj, u)], q, [i]);
        q := q + [i];
      }
    }
  }

  lemma EmptyPath(adj: Adj, x: Node)
    ensures IsPath(adj, x, [])
  {
  }

  lemma OldSlot(adj: Adj, u: Node, w: Node, prov: set<EventId>, n: Node, i: Pos)
    requires i as int < |Out(AddEdge(adj, u, w, prov), n)|
    ensures (n == u && i == Slot(adj, u)) || i as int < |Out(adj, n)|
  {
  }

  /** Crossing the new edge between old paths: simple when both are and they share no node. */
  lemma Through(adj: Adj, u: Node, w: Node, prov: set<EventId>, x: Node, p1: Path, q: Path)
    requires IsPath(adj, x, p1) && End(adj, x, p1) == u && IsPath(adj, w, q)
    ensures Simple(AddEdge(adj, u, w, prov), x, p1 + [Slot(adj, u)] + q) <==>
              Simple(adj, x, p1) && Simple(adj, w, q) && Visits(adj, x, p1) * Visits(adj, w, q) == {}
  {
    var adj', k := AddEdge(adj, u, w, prov), Slot(adj, u);
    var v1, v2 := Visits(adj, x, p1), Visits(adj, w, q);
    OldPath(adj, u, w, prov, x, p1);
    OldPath(adj, u, w, prov, w, q);
    Snoc(adj', x, p1, k);
    ConcatSimple(adj', x, p1 + [k], q);
    EndVisited(adj, w, q);
    assert (v1 + {w}) * v2 == v1 * v2 + {w};
    assert w in v1 ==> w in v1 * v2;
    if w !in v1 && v1 * v2 + {w} == {w} {
      assert forall n :: n in v1 * v2 ==> n == w;
    }
  }

  /** Reachability in the enlarged graph: an old walk, or one through the new edge. */
  lemma ReachWithNewEdge(adj: Adj, u: Node, w: Node, prov: set<EventId>, x: Node, y: Node)
    ensures Reach(AddEdge(adj, u, w, prov), x, y) <==>
              Reach(adj, x, y) || (Reach(adj, x, u) && Reach(adj, w, y))
  {
    hide AddEdge, IsPath, End, Visits, Simple, Prov, Slot;
    var adj' := AddEdge(adj, u, w, prov);
    if Reach(adj, x, y) {
      OldReach(adj, u, w, prov, x, y);
    }
    if Reach(adj, x, u) && Reach(adj, w, y) {
      var p: Path :| IsPath(adj, x, p) && End(adj, x, p) == u;
      var q: Path :| IsPath(adj, w, q) && End(adj, w, q) == y;
      OldPath(adj, u, w, prov, x, p);
      AfterNewEdge(adj, u, w, prov, x, p, q);
    }
    if Reach(adj', x, y) {
      var p: Path :| IsPath(adj', x, p) && End(adj', x, p) == y;
      WalkSplits(adj, u, w, prov, x, p);
    }
  }

  lemma OldReach(adj: Adj, u: Node, w: Node, prov: set<EventId>, x: Node, y: Node)
    requires Reach(adj, x, y)
    ensures Reach(AddEdge(adj, u, w, prov), x, y)
  {
    var p: Path :| IsPath(adj, x, p) && End(adj, x, p) == y;
    OldPath(adj, u, w, prov, x, p);
  }

  /** First and last use of the new edge. */
  lemma {:induction false} WalkSplits(adj: Adj, u: Node, w: Node, prov: set<EventId>, x: Node, p: Path)
    requires IsPath(AddEdge(adj, u, w, prov), x, p)
    ensures var y := End(AddEdge(adj, u, w, prov), x, p);
            Reach(adj, x, y) || (Reach(adj, x, u) && Reach(adj, w, y))
    decreases |p|
  {
    var adj' := AddEdge(adj, u, w, prov);
    if IsPath(adj, x, p) {
      OldPath(adj, u, w, prov, x, p);
    } else {
      var p1, q := SplitAtNewEdge(adj, u, w, prov, x, p);
      AfterNewEdge(adj, u, w, prov, x, p1, q);
      WalkSplits(adj, u, w, prov, x, p1);
    }
  }

  // ---- simple paths through the new edge ------------------------------------------------

  /** The simple paths from `x` to `y`, the empty one included when they are equal. */
  ghost function PathsFrom(adj: Adj, x: Node, y: Node): set<Path> {
    Paths(adj, x, y) + (if x == y then {[]} else {})
  }

  lemma PathsFromMembers(adj: Adj, x: Node, y: Node, p: Path)
    ensures p in PathsFrom(adj, x, y) <==> Simple(adj, x, p) && End(adj, x, p) == y
  {
    PathsMembers(adj, x, y, p);
  }

  function Via(p: Path, k: Pos, q: Path): Path { p + [k] + q }

  ghost function Crossings(adj: Adj, u: Node, w: Node, x: Node, y: Node): set<Path> {
    set p, q | p in PathsFrom(adj, x, u) && q in PathsFrom(adj, w, y) &&
               Visits(adj, x, p) * Visits(adj, w, q) == {} :: Via(p, Slot(adj, u), q)
  }

  /** The simple paths of the enlarged graph: the old ones and the crossings. */
  lemma NewPaths(adj: Adj, u: Node, w: Node, prov: set<EventId>, x: Node, y: Node)
    ensures Paths(AddEdge(adj, u, w, prov), x, y) == Paths(adj, x, y) + Crossings(adj, u, w, x, y)
    ensures Paths(adj, x, y) !! Crossings(adj, u, w, x, y)
  {
    var adj' := AddEdge(adj, u, w, prov);
    forall r ensures r in Paths(adj', x, y) <==> r in Paths(adj, x, y) + Crossings(adj, u, w, x, y) {
      PathsMembers(adj', x, y, r);
      PathsMembers(adj, x, y, r);
      if IsPath(adj, x, r) { OldPath(adj, u, w, prov, x, r); }
      if r in Paths(adj', x, y) && !IsPath(adj, x, r) { IsCrossing(adj, u, w, prov, x, y, r); }
      if r in Crossings(adj, u, w, x, y) { CrossingIsPath(adj, u, w, prov, x, y, r); }
    }
    forall r | r in Crossings(adj, u, w, x, y) ensures r !in Paths(adj, x, y) {
      CrossingIsPath(adj, u, w, prov, x, y, r);
      PathsMembers(adj, x, y, r);
    }
  }

  lemma IsCrossing(adj: Adj, u: Node, w: Node, prov: set<EventId>, x: Node, y: Node, r: Path)
    requires r in Paths(AddEdge(adj, u, w, prov), x, y) && !IsPath(adj, x, r)
    ensures r in Crossings(adj, u, w, x, y)
  {
    PathsMembers(AddEdge(adj, u, w, prov), x, y, r);
    var p, q := SplitAtNewEdge(adj, u, w, prov, x, r);
    UsedOnce(adj, u, w, prov, x, p, q);
    OldPath(adj, u, w, prov, x, p);
    AfterNewEdge(adj, u, w, prov, x, p, q);
    Through(adj, u, w, prov, x, p, q);
    PathsFromMembers(adj, x, u, p);
    PathsFromMembers(adj, w, y, q);
    assert r == Via(p, Slot(adj, u), q);
  }

  /** A simple path uses the new edge once: what comes before is old. */
  lemma UsedOnce(adj: Adj, u: Node, w: Node, prov: set<EventId>, x: Node, p: Path, q: Path)
    requires Simple(AddEdge(adj, u, w, prov), x, p + [Slot(adj, u)] + q)
    requires IsPath(AddEdge(adj, u, w, prov), x, p) && End(AddEdge(adj, u, w, prov), x, p) == u
    ensures IsPath(adj, x, p)
  {
    var adj', k := AddEdge(adj, u, w, prov), Slot(adj, u);
    ConcatSimple(adj', x, p + [k], q);
    Snoc(adj', x, p, k);
    if !IsPath(adj, x, p) {
      var p1, q1 := SplitAtNewEdge(adj, u, w, prov, x, p);
      TwoUses(adj, u, w, prov, x, p, p1, q1);
    }
  }

  /** A simple path ending in u cannot have used the new edge before. */
  lemma TwoUses(adj: Adj, u: Node, w: Node, prov: set<EventId>, x: Node, p: Path, p1: Path, q1: Path)
    requires p == p1 + [Slot(adj, u)] + q1 && End(AddEdge(adj, u, w, prov), x, p) == u
    requires IsPath(AddEdge(adj, u, w, prov), x, p1) && End(AddEdge(adj, u, w, prov), x, p1) == u
    ensures !Simple(AddEdge(adj, u, w, prov), x, p)
  {
    hide AddEdge, Slot, Visits, Prov, Simple, IsPath, End;
    var adj', r := AddEdge(adj, u, w, prov), [Slot(adj, u)] + q1;
    assert p == p1 + r;
    if Simple(adj', x, p) {
      ConcatSimple(adj', x, p1, r);
      Concat(adj', x, p1, r);
      SimpleLeaves(adj', u, r);
    }
  }

  lemma CrossingIsPath(adj: Adj, u: Node, w: Node, prov: set<EventId>, x: Node, y: Node, r: Path)
    requires r in Crossings(adj, u, w, x, y)
    ensures r in Paths(AddEdge(adj, u, w, prov), x, y) && !IsPath(adj, x, r)
  {
    var p, q :| p in PathsFrom(adj, x, u) && q in PathsFrom(adj, w, y) &&
                Visits(adj, x, p) * Visits(adj, w, q) == {} && r == Via(p, Slot(adj, u), q);
    PathsFromMembers(adj, x, u, p);
    PathsFromMembers(adj, w, y, q);
    OldPath(adj, u, w, prov, x, p);
    AfterNewEdge(adj, u, w, prov, x, p, q);
    Through(adj, u, w, prov, x, p, q);
    PathsMembers(AddEdge(adj, u, w, prov), x, y, r);
  }

  /** A way into u that meets a way out of w is a way back from w to u. */
  lemma MeetingIsWayBack(adj: Adj, u: Node, w: Node, x: Node, p: Path, q: Path, n: Node)
    requires IsPath(adj, x, p) && End(adj, x, p) == u && IsPath(adj, w, q)
    requires n in Visits(adj, x, p) && n in Visits(adj, w, q)
    ensures Reach(adj, w, u)
  {
    hide End, IsPath, Visits, Simple;
    var q1 := CutAt(adj, w, q, n);
    var p1 := CutAt(adj, x, p, n);
    var rest := p[|p1|..];
    assert p == p1 + rest;
    Concat(adj, x, p1, rest);
    Concat(adj, w, q1, rest);
  }

  lemma NoWayBack(adj: Adj, u: Node, w: Node, x: Node, y: Node, p: Path, q: Path)
    requires !Reach(adj, w, u) && p in PathsFrom(adj, x, u) && q in PathsFrom(adj, w, y)
    ensures Visits(adj, x, p) * Visits(adj, w, q) == {}
  {
    PathsFromMembers(adj, x, u, p);
    PathsFromMembers(adj, w, y, q);
    if n :| n in Visits(adj, x, p) * Visits(adj, w, q) {
      MeetingIsWayBack(adj, u, w, x, p, q, n);
    }
  }

  /** Different ways in or out give different crossings. */
  lemma CrossingInjective(adj: Adj, u: Node, w: Node, x: Node, y: Node, p: Path, q: Path, p': Path, q': Path)
    requires p in PathsFrom(adj, x, u) && p' in PathsFrom(adj, x, u)
    requires p + [Slot(adj, u)] + q == p' + [Slot(adj, u)] + q'
    ensures p == p' && q == q'
  {
    PathsFromMembers(adj, x, u, p);
    PathsFromMembers(adj, x, u, p');
    var k, r := Slot(adj, u), p + [Slot(adj, u)] + q;
    assert |p| == |p'| by {
      if |p| < |p'| { EarlyUse(adj, u, x, p, p', q, q'); }
      if |p'| < |p| { EarlyUse(adj, u, x, p', p, q', q); }
    }
    assert p == r[..|p|] && p' == r[..|p|];
    assert q == r[|p| + 1..] && q' == r[|p| + 1..];
  }

  lemma EarlyUse(adj: Adj, u: Node, x: Node, p: Path, p': Path, q: Path, q': Path)
    requires IsPath(adj, x, p) && End(adj, x, p) == u && |p| < |p'|
    requires p + [Slot(adj, u)] + q == p' + [Slot(adj, u)] + q'
    ensures !IsPath(adj, x, p')
  {
    var k, r := Slot(adj, u), p' + [Slot(adj, u)] + q';
    assert p'[..|p|] == r[..|p|] == p && p'[|p|] == r[|p|] == k;
    var rest := p'[|p| + 1..];
    assert p' == (p + [k]) + rest;
    Concat(adj, x, p + [k], rest);
    assert (p + [k])[..|p + [k]| - 1] == p;
  }

  // ---- counting -----------------------------------------------------------------------------

  ghost function Prefixed(p: Path, b: set<Path>, k: Pos): set<Path> {
    set q | q in b :: Via(p, k, q)
  }

  ghost function Joined(a: set<Path>, b: set<Path>, k: Pos): set<Path> {
    set p, r | p in a && r in Prefixed(p, b, k) :: r
  }

  ghost predicate JoinsApart(a: set<Path>, b: set<Path>, k: Pos) {
    forall p, p' :: p in a && p' in a && p != p' ==> Prefixed(p, b, k) !! Prefixed(p', b, k)
  }

  lemma {:induction false} CountJoined(a: set<Path>, b: set<Path>, k: Pos)
    requires JoinsApart(a, b, k)
    ensures |Joined(a, b, k)| == |a| * |b|
  {
    hide Prefixed;
    if a == {} {
      assert Joined(a, b, k) == {};
    } else {
      hide Joined;
      var p :| p in a;
      var rest := a - {p};
      CountJoined(rest, b, k);
      CountPrefixed(p, b, k);
      SplitJoined(a, b, k, p);
      MulSucc(|rest|, |b|);
      assert a == rest + {p};
    }
  }

  lemma MulSucc(n: nat, m: nat)
    ensures (n + 1) * m == n * m + m
  {
  }

  lemma SplitJoined(a: set<Path>, b: set<Path>, k: Pos, p: Path)
    requires JoinsApart(a, b, k) && p in a
    ensures Joined(a, b, k) == Prefixed(p, b, k) + Joined(a - {p}, b, k)
    ensures Prefixed(p, b, k) !! Joined(a - {p}, b, k)
  {
  }

  lemma {:induction false} CountPrefixed(p: Path, b: set<Path>, k: Pos)
    ensures |Prefixed(p, b, k)| == |b|
  {
    if b == {} {
      assert Prefixed(p, b, k) == {};
    } else {
      var q :| q in b;
      CountPrefixed(p, b - {q}, k);
      assert Prefixed(p, b, k) == Prefixed(p, b - {q}, k) + {Via(p, k, q)};
      forall q' | q' in b - {q} ensures Via(p, k, q') != Via(p, k, q) {
        assert Via(p, k, q')[|p| + 1..] == q' && Via(p, k, q)[|p| + 1..] == q;
      }
    }
  }

  lemma CrossingsAreJoined(adj: Adj, u: Node, w: Node, x: Node, y: Node)
    requires !Reach(adj, w, u)
    ensures Crossings(adj, u, w, x, y) == Joined(PathsFrom(adj, x, u), PathsFrom(adj, w, y), Slot(adj, u))
  {
    var a, b, k := PathsFrom(adj, x, u), PathsFrom(adj, w, y), Slot(adj, u);
    forall p, q | p in a && q in b ensures Via(p, k, q) in Crossings(adj, u, w, x, y) {
      NoWayBack(adj, u, w, x, y, p, q);
    }
    forall r | r in Crossings(adj, u, w, x, y) ensures r in Joined(a, b, k) {
      var p, q :| p in a && q in b && Visits(adj, x, p) * Visits(adj, w, q) == {} && r == Via(p, k, q);
      assert r in Prefixed(p, b, k);
    }
  }

  lemma WaysInJoinApart(adj: Adj, u: Node, w: Node, x: Node, y: Node)
    ensures JoinsApart(PathsFrom(adj, x, u), PathsFrom(adj, w, y), Slot(adj, u))
  {
    var a, b, k := PathsFrom(adj, x, u), PathsFrom(adj, w, y), Slot(adj, u);
    forall p, p' | p in a && p' in a && p != p' ensures Prefixed(p, b, k) !! Prefixed(p', b, k) {
      if r :| r in Prefixed(p, b, k) && r in Prefixed(p', b, k) {
        var q :| q in b && r == Via(p, k, q);
        var q' :| q' in b && r == Via(p', k, q');
        CrossingInjective(adj, u, w, x, y, p, q, p', q');
      }
    }
  }

  /** With no way back from w to u, the new simple paths are all the ways in joined to all the ways out. */
  lemma CountWithNewEdge(adj: Adj, u: Node, w: Node, prov: set<EventId>, x: Node, y: Node)
    requires !Reach(adj, w, u)
    ensures var joined := Joined(PathsFrom(adj, x, u), PathsFrom(adj, w, y), Slot(adj, u));
            && Paths(AddEdge(adj, u, w, prov), x, y) == Paths(adj, x, y) + joined
            && Paths(adj, x, y) !! joined
            && |joined| == |PathsFrom(adj, x, u)| * |PathsFrom(adj, w, y)|
  {
    NewPaths(adj, u, w, prov, x, y);
    CrossingsAreJoined(adj, u, w, x, y);
    WaysInJoinApart(adj, u, w, x, y);
    CountJoined(PathsFrom(adj, x, u), PathsFrom(adj, w, y), Slot(adj, u));
  }
}
