/**
 * Paths in an adjacency list whose edges carry provenance. A path is the sequence of edge positions
 * taken, so parallel edges give different paths.
 */
module Graph {
  import opened Seqs
  import opened Core
  import opened Text

  type Node = Text

  datatype Edge = Edge(to: Node, eventProv: set<EventId>)

  type Adj = map<Node, seq<Edge>>

  /** The position of an edge among those leaving its node. */
  newtype Pos = x: int | 0 <= x

  type Path = seq<Pos>

  /** `adj.get(node) ?? []` */
  function Out(adj: Adj, n: Node): seq<Edge> {
    if n in adj then adj[n] else []
  }

  /** The node a path from `x` ends in. */
  function End(adj: Adj, x: Node, p: Path): Node {
    if p == [] then x
    else
      var n, i := End(adj, x, p[..|p| - 1]), p[|p| - 1];
      if i as int < |Out(adj, n)| then Out(adj, n)[i].to else n
  }

  predicate IsPath(adj: Adj, x: Node, p: Path) {
    p == [] ||
    (IsPath(adj, x, p[..|p| - 1]) && p[|p| - 1] as int < |Out(adj, End(adj, x, p[..|p| - 1]))|)
  }

  /** The nodes on a path, both ends included. */
  function Visits(adj: Adj, x: Node, p: Path): set<Node> {
    if p == [] then {x} else Visits(adj, x, p[..|p| - 1]) + {End(adj, x, p)}
  }

  /** The events behind the edges of a path. */
  function Prov(adj: Adj, x: Node, p: Path): set<EventId> {
    if p == [] then {}
    else
      var n, i := End(adj, x, p[..|p| - 1]), p[|p| - 1];
      Prov(adj, x, p[..|p| - 1]) + (if i as int < |Out(adj, n)| then Out(adj, n)[i].eventProv else {})
  }

  /** A path that visits no node twice. */
  predicate Simple(adj: Adj, x: Node, p: Path) {
    IsPath(adj, x, p) &&
    (p == [] || (Simple(adj, x, p[..|p| - 1]) && End(adj, x, p) !in Visits(adj, x, p[..|p| - 1])))
  }

  ghost predicate Reach(adj: Adj, x: Node, y: Node) {
    exists p: Path :: IsPath(adj, x, p) && End(adj, x, p) == y
  }

  lemma {:induction false} EndVisited(adj: Adj, x: Node, p: Path)
    ensures End(adj, x, p) in Visits(adj, x, p) && x in Visits(adj, x, p)
  {
    if p != [] { EndVisited(adj, x, p[..|p| - 1]); }
  }

  /** One more edge. */
  lemma Snoc(adj: Adj, x: Node, p: Path, i: Pos)
    ensures var n := End(adj, x, p);
            && (IsPath(adj, x, p + [i]) <==> IsPath(adj, x, p) && i as int < |Out(adj, n)|)
            && End(adj, x, p + [i]) == (if i as int < |Out(adj, n)| then Out(adj, n)[i].to else n)
            && Visits(adj, x, p + [i]) == Visits(adj, x, p) + {End(adj, x, p + [i])}
            && Prov(adj, x, p + [i]) == Prov(adj, x, p) + (if i as int < |Out(adj, n)| then Out(adj, n)[i].eventProv else {})
    ensures Simple(adj, x, p + [i]) <==>
              IsPath(adj, x, p + [i]) && Simple(adj, x, p) && End(adj, x, p + [i]) !in Visits(adj, x, p)
  {
    hide End, IsPath, Visits, Prov, Simple;
    LastEdge(adj, x, p + [i]);
  }

  /** The last edge of a path. */
  lemma LastEdge(adj: Adj, x: Node, r: Path)
    requires r != []
    ensures var p, i := r[..|r| - 1], r[|r| - 1];
            var n := End(adj, x, p);
            && (IsPath(adj, x, r) <==> IsPath(adj, x, p) && i as int < |Out(adj, n)|)
            && End(adj, x, r) == (if i as int < |Out(adj, n)| then Out(adj, n)[i].to else n)
            && Visits(adj, x, r) == Visits(adj, x, p) + {End(adj, x, r)}
            && Prov(adj, x, r) == Prov(adj, x, p) + (if i as int < |Out(adj, n)| then Out(adj, n)[i].eventProv else {})
            && (Simple(adj, x, r) <==> IsPath(adj, x, r) && Simple(adj, x, p) && End(adj, x, r) !in Visits(adj, x, p))
  {
  }

  /** Walking `p` and then `q` is walking `p + q`. */
  lemma {:induction false} Concat(adj: Adj, x: Node, p: Path, q: Path)
    ensures End(adj, x, p + q) == End(adj, End(adj, x, p), q)
    ensures IsPath(adj, x, p + q) <==> IsPath(adj, x, p) && IsPath(adj, End(adj, x, p), q)
    ensures Visits(adj, x, p + q) == Visits(adj, x, p) + Visits(adj, End(adj, x, p), q)
    ensures Prov(adj, x, p + q) == Prov(adj, x, p) + Prov(adj, End(adj, x, p), q)
  {
    if q == [] {
      AppendNil(p);
      EndVisited(adj, x, p);
    } else {
      hide End, IsPath, Visits, Prov, Simple;
      var r := q[..|q| - 1];
      InitOfConcat(p, q);
      Concat(adj, x, p, r);
      LastEdge(adj, x, p + q);
      LastEdge(adj, End(adj, x, p), q);
    }
  }

  /** A concatenation is simple when its parts are and meet only where they join. */
  lemma {:induction false} ConcatSimple(adj: Adj, x: Node, p: Path, q: Path)
    ensures Simple(adj, x, p + q) <==>
              Simple(adj, x, p) && Simple(adj, End(adj, x, p), q) &&
              Visits(adj, x, p) * Visits(adj, End(adj, x, p), q) == {End(adj, x, p)}
  {
    var m := End(adj, x, p);
    EndVisited(adj, x, p);
    if q == [] {
      AppendNil(p);
    } else {
      var r := q[..|q| - 1];
      InitOfConcat(p, q);
      ConcatSimple(adj, x, p, r);
      Concat(adj, x, p, r);
      Concat(adj, x, p, q);
      EndVisited(adj, m, r);
      assert Visits(adj, m, q) == Visits(adj, m, r) + {End(adj, m, q)};
      if Simple(adj, x, p + r) {
        assert Visits(adj, x, p) * Visits(adj, m, q)
            == {m} + (Visits(adj, x, p) * {End(adj, m, q)});
      }
    }
  }

  /** Cut a simple path at a node it visits. */
  lemma {:induction false} CutAt(adj: Adj, x: Node, p: Path, n: Node) returns (q: Path)
    requires IsPath(adj, x, p) && n in Visits(adj, x, p)
    ensures q <= p && IsPath(adj, x, q) && End(adj, x, q) == n
    ensures Simple(adj, x, p) ==> Simple(adj, x, q)
  {
    if End(adj, x, p) == n {
      q := p;
    } else {
      q := CutAt(adj, x, p[..|p| - 1], n);
    }
  }

  /** Loop removal: every walk can be shortened to a simple path with the same ends. */
  lemma {:induction false} RemoveLoops(adj: Adj, x: Node, p: Path) returns (q: Path)
    requires IsPath(adj, x, p)
    ensures Simple(adj, x, q) && End(adj, x, q) == End(adj, x, p) && |q| <= |p|
  {
    if p == [] {
      q := [];
    } else {
      var init, i := p[..|p| - 1], p[|p| - 1];
      var r := RemoveLoops(adj, x, init);
      var y := End(adj, x, p);
      if y in Visits(adj, x, r) {
        q := CutAt(adj, x, r, y);
      } else {
        q := r + [i];
        assert q[..|q| - 1] == r;
      }
    }
  }

  lemma ReachTransitive(adj: Adj, x: Node, y: Node, z: Node)
    requires Reach(adj, x, y) && Reach(adj, y, z)
    ensures Reach(adj, x, z)
  {
    var p: Path :| IsPath(adj, x, p) && End(adj, x, p) == y;
    var q: Path :| IsPath(adj, y, q) && End(adj, y, q) == z;
    Concat(adj, x, p, q);
  }

  // ---- all simple paths --------------------------------------------------------------

  /** The simple one-edge extensions of `p`. */
  function Extensions(adj: Adj, x: Node, p: Path): set<Path> {
    set i: Pos | 0 <= i < |Out(adj, End(adj, x, p))| as Pos && Out(adj, End(adj, x, p))[i].to !in Visits(adj, x, p) :: p + [i]
  }

  function Level(adj: Adj, x: Node, depth: nat): set<Path> {
    if depth == 0 then {[]}
    else set p, q | p in Level(adj, x, depth - 1) && q in Extensions(adj, x, p) :: q
  }

  lemma {:induction false} LevelMembers(adj: Adj, x: Node, depth: nat, p: Path)
    ensures p in Level(adj, x, depth) <==> Simple(adj, x, p) && |p| == depth
  {
    hide End, IsPath, Visits, Prov, Simple;
    if depth == 0 {
      SimpleStart(adj, x);
    } else {
      if p != [] {
        var init, i := p[..|p| - 1], p[|p| - 1];
        SplitLast(p);
        LevelMembers(adj, x, depth - 1, init);
        ExtensionsMember(adj, x, init, i);
      }
      if p in Level(adj, x, depth) {
        var r :| r in Level(adj, x, depth - 1) && p in Extensions(adj, x, r);
        LevelMembers(adj, x, depth - 1, r);
      }
    }
  }

  lemma SimpleStart(adj: Adj, x: Node)
    ensures Simple(adj, x, [])
  {
  }

  lemma ExtensionsMember(adj: Adj, x: Node, p: Path, i: Pos)
    ensures p + [i] in Extensions(adj, x, p) && Simple(adj, x, p) <==> Simple(adj, x, p + [i])
  {
    hide End, IsPath, Visits, Prov, Simple;
    Snoc(adj, x, p, i);
    SimpleIsPath(adj, x, p);
    if p + [i] in Extensions(adj, x, p) {
      var j: Pos :| 0 <= j < |Out(adj, End(adj, x, p))| as Pos && Out(adj, End(adj, x, p))[j].to !in Visits(adj, x, p) && p + [j] == p + [i];
      assert (p + [j])[|p|] == j && (p + [i])[|p|] == i;
    }
  }

  lemma SimpleIsPath(adj: Adj, x: Node, p: Path)
    ensures Simple(adj, x, p) ==> IsPath(adj, x, p)
  {
  }

  /** The non-empty simple paths of length at most `depth`. */
  function SimplePaths(adj: Adj, x: Node, depth: nat): set<Path> {
    if depth == 0 then {} else SimplePaths(adj, x, depth - 1) + Level(adj, x, depth)
  }

  lemma {:induction false} SimplePathsMembers(adj: Adj, x: Node, depth: nat, p: Path)
    ensures p in SimplePaths(adj, x, depth) <==> Simple(adj, x, p) && 1 <= |p| <= depth
  {
    if depth > 0 {
      SimplePathsMembers(adj, x, depth - 1, p);
      LevelMembers(adj, x, depth, p);
    }
  }

  function PathsTo(adj: Adj, x: Node, y: Node, depth: nat): set<Path> {
    set p | p in SimplePaths(adj, x, depth) && End(adj, x, p) == y
  }

  /** A pair is joined by a simple path exactly when it is off the diagonal and joined by a walk. */
  lemma PathsToIffWalk(adj: Adj, x: Node, y: Node, depth: nat)
    ensures PathsTo(adj, x, y, depth) != {} <==>
              x != y && exists p: Path :: IsPath(adj, x, p) && End(adj, x, p) == y && |p| <= depth
  {
    if q :| q in PathsTo(adj, x, y, depth) {
      SimplePathsMembers(adj, x, depth, q);
      SimpleLeaves(adj, x, q);
    }
    if x != y && exists p: Path :: IsPath(adj, x, p) && End(adj, x, p) == y && |p| <= depth {
      var p: Path :| IsPath(adj, x, p) && End(adj, x, p) == y && |p| <= depth;
      var q := RemoveLoops(adj, x, p);
      SimplePathsMembers(adj, x, depth, q);
      assert q in PathsTo(adj, x, y, depth);
    }
  }

  lemma SimpleLeaves(adj: Adj, x: Node, p: Path)
    requires Simple(adj, x, p) && p != []
    ensures End(adj, x, p) != x
  {
    EndVisited(adj, x, p[..|p| - 1]);
  }

  // ---- a depth that binds nothing -------------------------------------------------------

  ghost function Nodes(adj: Adj): set<Node> {
    adj.Keys + set x, i | x in adj && 0 <= i < |adj[x]| :: adj[x][i].to
  }

  /** More than the length of any simple path. */
  ghost function Bound(adj: Adj): nat { |Nodes(adj)| }

  lemma {:induction false} SimpleVisits(adj: Adj, x: Node, p: Path)
    requires Simple(adj, x, p)
    ensures |Visits(adj, x, p)| == |p| + 1
    ensures p != [] ==> Visits(adj, x, p) <= Nodes(adj)
  {
    if p != [] {
      var init := p[..|p| - 1];
      SimpleVisits(adj, x, init);
      var n := End(adj, x, init);
      assert n in adj && End(adj, x, p) == adj[n][p[|p| - 1]].to;
      if init == [] { assert n == x; }
    }
  }

  lemma SimpleIsShort(adj: Adj, x: Node, p: Path)
    requires Simple(adj, x, p)
    ensures |p| <= Bound(adj)
  {
    if p != [] {
      SimpleVisits(adj, x, p);
      SubsetCount(Visits(adj, x, p), Nodes(adj));
    }
  }

  /** All simple paths from `x` to `y`, of any length. */
  ghost function Paths(adj: Adj, x: Node, y: Node): set<Path> { PathsTo(adj, x, y, Bound(adj)) }

  lemma PathsMembers(adj: Adj, x: Node, y: Node, p: Path)
    ensures p in Paths(adj, x, y) <==> Simple(adj, x, p) && p != [] && End(adj, x, p) == y
  {
    SimplePathsMembers(adj, x, Bound(adj), p);
    if Simple(adj, x, p) { SimpleIsShort(adj, x, p); }
  }

  lemma PathsToIsPaths(adj: Adj, x: Node, y: Node, depth: nat)
    requires depth >= Bound(adj)
    ensures PathsTo(adj, x, y, depth) == Paths(adj, x, y)
  {
    forall p ensures p in PathsTo(adj, x, y, depth) <==> p in Paths(adj, x, y) {
      SimplePathsMembers(adj, x, depth, p);
      PathsMembers(adj, x, y, p);
      if Simple(adj, x, p) { SimpleIsShort(adj, x, p); }
    }
  }

  lemma PathsIffReach(adj: Adj, x: Node, y: Node)
    ensures Paths(adj, x, y) != {} <==> x != y && Reach(adj, x, y)
  {
    PathsToIffWalk(adj, x, y, Bound(adj));
    if x != y && Reach(adj, x, y) {
      var p: Path :| IsPath(adj, x, p) && End(adj, x, p) == y;
      var q := RemoveLoops(adj, x, p);
      SimpleIsShort(adj, x, q);
    }
  }

  ghost function ProvOf(adj: Adj, x: Node, paths: set<Path>): set<EventId> {
    set p, id | p in paths && id in Prov(adj, x, p) :: id
  }
}
