/** The breadth-first search that enumerates simple paths and tallies the pairs they support. */
module ClosureSearch {
  import opened Seqs
  import opened Core
  import opened Graph

  /** A materialised pair: how many paths support it and the events behind them. */
  datatype Support = Support(count: nat, eventProv: set<EventId>)

  type Pairs = map<(Node, Node), Support>

  /** A frontier entry. */
  datatype Walker = Walker(node: Node, eventProv: set<EventId>, visited: set<Node>)

  function WalkerOf(adj: Adj, x: Node, p: Path): Walker {
    Walker(End(adj, x, p), Prov(adj, x, p), Visits(adj, x, p))
  }

  function Walkers(adj: Adj, x: Node, paths: seq<Path>): seq<Walker> {
    if paths == [] then []
    else Walkers(adj, x, paths[..|paths| - 1]) + [WalkerOf(adj, x, paths[|paths| - 1])]
  }

  lemma WalkersSnoc(adj: Adj, x: Node, paths: seq<Path>, p: Path)
    ensures Walkers(adj, x, paths + [p]) == Walkers(adj, x, paths) + [WalkerOf(adj, x, p)]
  {
    assert (paths + [p])[..|paths + [p]| - 1] == paths;
  }

  lemma {:induction false} WalkersAt(adj: Adj, x: Node, paths: seq<Path>, i: nat)
    requires i < |paths|
    ensures |Walkers(adj, x, paths)| == |paths| && Walkers(adj, x, paths)[i] == WalkerOf(adj, x, paths[i])
  {
    if |paths| > 1 {
      WalkersAt(adj, x, paths[..|paths| - 1], if i < |paths| - 1 then i else 0);
    }
  }

  lemma {:induction false} WalkersLength(adj: Adj, x: Node, paths: seq<Path>)
    ensures |Walkers(adj, x, paths)| == |paths|
  {
    if paths != [] { WalkersLength(adj, x, paths[..|paths| - 1]); }
  }

  lemma {:induction false} WalkersAppend(adj: Adj, x: Node, a: seq<Path>, b: seq<Path>)
    ensures Walkers(adj, x, a + b) == Walkers(adj, x, a) + Walkers(adj, x, b)
  {
    if b == [] {
      assert a + b == a;
    } else {
      var init := b[..|b| - 1];
      assert (a + b)[..|a + b| - 1] == a + init;
      WalkersAppend(adj, x, a, init);
    }
  }

  // ---- the extensions of a path, in edge order ----------------------------------------------

  /** The simple extensions of `p` by its first `n` edges. */
  function ExtList(adj: Adj, x: Node, p: Path, n: nat): seq<Path>
    requires n <= |Out(adj, End(adj, x, p))|
  {
    if n == 0 then []
    else if Out(adj, End(adj, x, p))[n - 1].to in Visits(adj, x, p) then ExtList(adj, x, p, n - 1)
    else ExtList(adj, x, p, n - 1) + [p + [(n - 1) as Pos]]
  }

  function Exts(adj: Adj, x: Node, p: Path): seq<Path> {
    ExtList(adj, x, p, |Out(adj, End(adj, x, p))|)
  }

  /** `q` is `p` and one more edge, among the first `n`, to a node not yet visited. */
  predicate Extends(adj: Adj, x: Node, p: Path, q: Path, n: nat)
    requires n <= |Out(adj, End(adj, x, p))|
  {
    && |q| == |p| + 1 && q[..|p|] == p && q[|p|] as int < n
    && Out(adj, End(adj, x, p))[q[|p|]].to !in Visits(adj, x, p)
  }

  lemma {:induction false} ExtListMember(adj: Adj, x: Node, p: Path, n: nat, q: Path)
    requires n <= |Out(adj, End(adj, x, p))|
    ensures q in ExtList(adj, x, p, n) <==> Extends(adj, x, p, q, n)
  {
    if n > 0 {
      ExtListMember(adj, x, p, n - 1, q);
      var r := p + [(n - 1) as Pos];
      if Extends(adj, x, p, q, n) && q[|p|] as int == n - 1 {
        assert q == r;
      }
    }
  }

  lemma {:induction false} ExtListNoDup(adj: Adj, x: Node, p: Path, n: nat)
    requires n <= |Out(adj, End(adj, x, p))|
    ensures NoDup(ExtList(adj, x, p, n))
  {
    if n > 0 {
      ExtListNoDup(adj, x, p, n - 1);
      ExtListMember(adj, x, p, n - 1, p + [(n - 1) as Pos]);
    }
  }

  lemma ExtsMemberAt(adj: Adj, x: Node, p: Path, i: Pos)
    requires Simple(adj, x, p)
    ensures p + [i] in Exts(adj, x, p) <==> Simple(adj, x, p + [i])
  {
    ExtListMember(adj, x, p, |Out(adj, End(adj, x, p))|, p + [i]);
    Snoc(adj, x, p, i);
  }

  lemma ExtsMember(adj: Adj, x: Node, p: Path, q: Path)
    requires Simple(adj, x, p)
    ensures q in Exts(adj, x, p) <==> |q| == |p| + 1 && q[..|p|] == p && Simple(adj, x, q)
  {
    if |q| == |p| + 1 && q[..|p|] == p {
      InitLast(q, p);
      ExtsMemberAt(adj, x, p, q[|p|]);
    } else {
      ExtListMember(adj, x, p, |Out(adj, End(adj, x, p))|, q);
    }
  }

  /** The extensions of every path of a level, in order. */
  function ExtsOfAll(adj: Adj, x: Node, paths: seq<Path>): seq<Path> {
    if paths == [] then []
    else ExtsOfAll(adj, x, paths[..|paths| - 1]) + Exts(adj, x, paths[|paths| - 1])
  }

  /** `order` lists the simple paths of length `depth` from `x`, each once. */
  ghost predicate IsLevel(order: seq<Path>, adj: Adj, x: Node, depth: nat) {
    NoDup(order) && forall q {:trigger q in order} :: q in order <==> Simple(adj, x, q) && |q| == depth
  }

  lemma {:induction false} ExtsOfAllMember(adj: Adj, x: Node, paths: seq<Path>, depth: nat, q: Path)
    requires forall p :: p in paths ==> Simple(adj, x, p) && |p| == depth
    ensures q in ExtsOfAll(adj, x, paths) <==> |q| == depth + 1 && q[..depth] in paths && Simple(adj, x, q)
  {
    if paths != [] {
      var init, p := paths[..|paths| - 1], paths[|paths| - 1];
      assert paths == init + [p];
      ExtsOfAllMember(adj, x, init, depth, q);
      ExtsMember(adj, x, p, q);
    }
  }

  lemma {:induction false} ExtsOfAllNoDup(adj: Adj, x: Node, paths: seq<Path>, depth: nat)
    requires NoDup(paths) && forall p :: p in paths ==> Simple(adj, x, p) && |p| == depth
    ensures NoDup(ExtsOfAll(adj, x, paths))
  {
    if paths != [] {
      var init, p := paths[..|paths| - 1], paths[|paths| - 1];
      assert paths == init + [p];
      ExtsOfAllNoDup(adj, x, init, depth);
      ExtListNoDup(adj, x, p, |Out(adj, End(adj, x, p))|);
      forall q | q in ExtsOfAll(adj, x, init) ensures q !in Exts(adj, x, p) {
        ExtsOfAllMember(adj, x, init, depth, q);
        ExtsMember(adj, x, p, q);
      }
      AppendNoDup(ExtsOfAll(adj, x, init), Exts(adj, x, p));
    }
  }

  /** From one level to the next. */
  lemma NextLevel(adj: Adj, x: Node, order: seq<Path>, depth: nat)
    requires IsLevel(order, adj, x, depth)
    ensures IsLevel(ExtsOfAll(adj, x, order), adj, x, depth + 1)
  {
    ExtsOfAllNoDup(adj, x, order, depth);
    forall q ensures q in ExtsOfAll(adj, x, order) <==> Simple(adj, x, q) && |q| == depth + 1 {
      ExtsOfAllMember(adj, x, order, depth, q);
    }
  }

  // ---- tallying ------------------------------------------------------------------------------

  datatype Find = Find(source: Node, path: Path)

  function Tagged(x: Node, paths: seq<Path>): seq<Find> {
    if paths == [] then [] else Tagged(x, paths[..|paths| - 1]) + [Find(x, paths[|paths| - 1])]
  }

  lemma TaggedSnoc(x: Node, paths: seq<Path>, p: Path)
    ensures Tagged(x, paths + [p]) == Tagged(x, paths) + [Find(x, p)]
  {
    assert (paths + [p])[..|paths + [p]| - 1] == paths;
  }

  lemma {:induction false} TaggedAppend(x: Node, a: seq<Path>, b: seq<Path>)
    ensures Tagged(x, a + b) == Tagged(x, a) + Tagged(x, b)
  {
    if b == [] {
      assert a + b == a;
    } else {
      var init := b[..|b| - 1];
      assert (a + b)[..|a + b| - 1] == a + init;
      TaggedAppend(x, a, init);
    }
  }

  lemma {:induction false} TaggedMember(x: Node, paths: seq<Path>, f: Find)
    ensures f in Tagged(x, paths) <==> f.source == x && f.path in paths
  {
    if paths != [] {
      TaggedMember(x, paths[..|paths| - 1], f);
      assert paths == paths[..|paths| - 1] + [paths[|paths| - 1]];
    }
  }

  lemma {:induction false} TaggedNoDup(x: Node, paths: seq<Path>)
    requires NoDup(paths)
    ensures NoDup(Tagged(x, paths))
  {
    if paths != [] {
      var init, p := paths[..|paths| - 1], paths[|paths| - 1];
      TaggedNoDup(x, init);
      TaggedMember(x, init, Find(x, p));
    }
  }

  /** Count one more path from `source` to `to`. */
  function Tally(pairs: Pairs, source: Node, to: Node, eventProv: set<EventId>): Pairs {
    if (source, to) in pairs then
      var existing := pairs[(source, to)];
      pairs[(source, to) := Support(existing.count + 1, existing.eventProv + eventProv)]
    else
      pairs[(source, to) := Support(1, eventProv)]
  }

  /** `pairs.get(key)?.supportCount ?? 0` */
  function CountAt(pairs: Pairs, x: Node, y: Node): nat {
    if (x, y) in pairs then pairs[(x, y)].count else 0
  }

  function TallyList(adj: Adj, log: seq<Find>): Pairs {
    if log == [] then map[]
    else
      var f := log[|log| - 1];
      Tally(TallyList(adj, log[..|log| - 1]), f.source, End(adj, f.source, f.path), Prov(adj, f.source, f.path))
  }

  function Diagonal(nodes: set<Node>): Pairs {
    map x | x in nodes :: (x, x) := Support(1, {})
  }

  /** The simple paths in `log` from `x` to `y`. */
  ghost function Chosen(log: seq<Find>, adj: Adj, x: Node, y: Node): set<Path> {
    set f | f in log && f.source == x && End(adj, x, f.path) == y :: f.path
  }

  ghost function SupportOf(adj: Adj, x: Node, paths: set<Path>): Support {
    Support(|paths|, ProvOf(adj, x, paths))
  }

  lemma SupportAdd(adj: Adj, x: Node, paths: set<Path>, p: Path)
    requires p !in paths
    ensures SupportOf(adj, x, paths + {p}) == Support(|paths| + 1, ProvOf(adj, x, paths) + Prov(adj, x, p))
  {
  }

  lemma ChosenAdd(log: seq<Find>, f: Find, adj: Adj, x: Node, y: Node)
    ensures Chosen(log + [f], adj, x, y) ==
            Chosen(log, adj, x, y) + (if f.source == x && End(adj, x, f.path) == y then {f.path} else {})
    ensures f !in log && f.source == x ==> f.path !in Chosen(log, adj, x, y)
  {
  }

  /** `pairs` holds for (x, y) the support of `chosen`. */
  ghost predicate Holds(pairs: Pairs, adj: Adj, x: Node, y: Node, chosen: set<Path>) {
    && ((x, y) in pairs <==> chosen != {})
    && ((x, y) in pairs ==> pairs[(x, y)] == SupportOf(adj, x, chosen))
  }

  lemma TallyOne(pairs: Pairs, adj: Adj, x: Node, p: Path, chosen: set<Path>)
    requires Holds(pairs, adj, x, End(adj, x, p), chosen) && p !in chosen
    ensures Holds(Tally(pairs, x, End(adj, x, p), Prov(adj, x, p)), adj, x, End(adj, x, p), chosen + {p})
  {
    SupportAdd(adj, x, chosen, p);
    assert ProvOf(adj, x, {}) == {};
  }

  /** Tallying distinct paths counts them. */
  lemma {:induction false} TallyListCounts(adj: Adj, log: seq<Find>, x: Node, y: Node)
    requires NoDup(log)
    ensures Holds(TallyList(adj, log), adj, x, y, Chosen(log, adj, x, y))
  {
    if log != [] {
      var init, f := log[..|log| - 1], log[|log| - 1];
      SplitLast(log);
      TallyListCounts(adj, init, x, y);
      ChosenAdd(init, f, adj, x, y);
      if f.source == x && End(adj, x, f.path) == y {
        TallyOne(TallyList(adj, init), adj, x, f.path, Chosen(init, adj, x, y));
      }
    }
  }

  lemma TallyBeside(pairs: Pairs, others: Pairs, x: Node, y: Node, eventProv: set<EventId>)
    requires (x, y) !in others
    ensures Tally(pairs + others, x, y, eventProv) == Tally(pairs, x, y, eventProv) + others
  {
  }

  // ---- the search --------------------------------------------------------------------------------

  /** The search's running result. */
  datatype Acc = Acc(pairs: Pairs, paths: nat, truncated: bool)

  /** The result after meeting the paths of `log`; reaching the cap stops the search. */
  function Progress(adj: Adj, log: seq<Find>, reflexed: set<Node>, cap: nat): Acc {
    Acc(TallyList(adj, log) + Diagonal(reflexed), |log|, log != [] && |log| >= cap)
  }

  /** Meet one more path. */
  function Meet(acc: Acc, source: Node, to: Node, pathProv: set<EventId>, cap: nat): Acc {
    Acc(Tally(acc.pairs, source, to, pathProv), acc.paths + 1, acc.paths + 1 >= cap)
  }

  lemma MeetPath(acc: Acc, adj: Adj, log: seq<Find>, reflexed: set<Node>, cap: nat, x: Node, p: Path)
    requires acc == Progress(adj, log, reflexed, cap) && !acc.truncated && End(adj, x, p) != x
    ensures var acc', log' := Meet(acc, x, End(adj, x, p), Prov(adj, x, p), cap), log + [Find(x, p)];
            acc' == Progress(adj, log', reflexed, cap)
  {
    var next := log + [Find(x, p)];
    assert next[..|next| - 1] == log;
    TallyBeside(TallyList(adj, log), Diagonal(reflexed), x, End(adj, x, p), Prov(adj, x, p));
  }

  /** Following the edge at position `i` of a simple path to a node not yet visited. */
  lemma FollowEdge(acc: Acc, adj: Adj, log: seq<Find>, reflexed: set<Node>, cap: nat, x: Node, p: Path, i: nat)
    requires acc == Progress(adj, log, reflexed, cap) && !acc.truncated && Simple(adj, x, p)
    requires i < |Out(adj, End(adj, x, p))| && Out(adj, End(adj, x, p))[i].to !in Visits(adj, x, p)
    ensures var edge, q := Out(adj, End(adj, x, p))[i], p + [i as Pos];
            var acc', log' := Meet(acc, x, edge.to, Prov(adj, x, p) + edge.eventProv, cap), log + [Find(x, q)];
            && WalkerOf(adj, x, q) ==
               Walker(edge.to, Prov(adj, x, p) + edge.eventProv, Visits(adj, x, p) + {edge.to})
            && ExtList(adj, x, p, i + 1) == ExtList(adj, x, p, i) + [q]
            && acc' == Progress(adj, log', reflexed, cap)
  {
    Snoc(adj, x, p, i as Pos);
    SimpleLeaves(adj, x, p + [i as Pos]);
    MeetPath(acc, adj, log, reflexed, cap, x, p + [i as Pos]);
  }

  method Expand(adj: Adj, source: Node, walker: Walker, ghost p: Path, acc: Acc, cap: nat,
                ghost log: seq<Find>, ghost reflexed: set<Node>)
    returns (acc': Acc, next: seq<Walker>, ghost log': seq<Find>)
    requires Simple(adj, source, p) && walker == WalkerOf(adj, source, p)
    requires acc == Progress(adj, log, reflexed, cap) && !acc.truncated
    ensures acc' == Progress(adj, log', reflexed, cap)
    ensures acc'.truncated ==> log' <= log + Tagged(source, Exts(adj, source, p))
    ensures !acc'.truncated ==>
              && log' == log + Tagged(source, Exts(adj, source, p))
              && next == Walkers(adj, source, Exts(adj, source, p))
  {
    hide Progress, Meet, Prov, Visits, End, Simple, Out;
    acc', next, log' := acc, [], log;
    var edges := Out(adj, walker.node);
    for i := 0 to |edges|
      invariant acc' == Progress(adj, log', reflexed, cap) && !acc'.truncated
      invariant log' == log + Tagged(source, ExtList(adj, source, p, i))
      invariant next == Walkers(adj, source, ExtList(adj, source, p, i))
    {
      var edge := edges[i];
      if edge.to in walker.visited {
        continue;
      }
      var pathProv := walker.eventProv + edge.eventProv;
      FollowEdge(acc', adj, log', reflexed, cap, source, p, i);
      acc' := Meet(acc', source, edge.to, pathProv, cap);
      TaggedSnoc(source, ExtList(adj, source, p, i), p + [i as Pos]);
      AppendAssoc(log, Tagged(source, ExtList(adj, source, p, i)), [Find(source, p + [i as Pos])]);
      log' := log' + [Find(source, p + [i as Pos])];
      if acc'.truncated {
        TaggedPrefix(adj, source, p, i + 1, log);
        return;
      }
      WalkersSnoc(adj, source, ExtList(adj, source, p, i), p + [i as Pos]);
      next := next + [Walker(edge.to, pathProv, walker.visited + {edge.to})];
    }
  }

  lemma {:induction false} TaggedPrefix(adj: Adj, x: Node, p: Path, n: nat, log: seq<Find>)
    requires n <= |Out(adj, End(adj, x, p))|
    ensures log + Tagged(x, ExtList(adj, x, p, n)) <= log + Tagged(x, Exts(adj, x, p))
    decreases |Out(adj, End(adj, x, p))| - n
  {
    if n < |Out(adj, End(adj, x, p))| {
      TaggedPrefix(adj, x, p, n + 1, log);
      TaggedSnoc(x, ExtList(adj, x, p, n), p + [n as Pos]);
    }
  }

  // ---- one level, one source, all sources -----------------------------------------------------

  lemma ExtsOfAllStep(adj: Adj, x: Node, order: seq<Path>, j: nat)
    requires j < |order|
    ensures ExtsOfAll(adj, x, order[..j + 1]) == ExtsOfAll(adj, x, order[..j]) + Exts(adj, x, order[j])
  {
    TakeNext(order, j);
    assert order[..j + 1][..j] == order[..j];
  }

  lemma {:induction false} ExtsOfAllPrefix(adj: Adj, x: Node, order: seq<Path>, j: nat)
    requires j <= |order|
    ensures ExtsOfAll(adj, x, order[..j]) <= ExtsOfAll(adj, x, order)
    decreases |order| - j
  {
    if j < |order| {
      ExtsOfAllPrefix(adj, x, order, j + 1);
      ExtsOfAllStep(adj, x, order, j);
    } else {
      TakeAll(order);
    }
  }

  lemma TaggedMonotone(x: Node, a: seq<Path>, b: seq<Path>)
    requires a <= b
    ensures Tagged(x, a) <= Tagged(x, b)
  {
    var rest := b[|a|..];
    assert b == a + rest;
    TaggedAppend(x, a, rest);
  }

  method ExpandLevel(adj: Adj, source: Node, frontier: seq<Walker>, ghost order: seq<Path>, acc: Acc, cap: nat,
                     ghost log: seq<Find>, ghost reflexed: set<Node>)
    returns (acc': Acc, next: seq<Walker>, ghost log': seq<Find>)
    requires frontier == Walkers(adj, source, order) && forall p :: p in order ==> Simple(adj, source, p)
    requires acc == Progress(adj, log, reflexed, cap) && !acc.truncated
    ensures acc' == Progress(adj, log', reflexed, cap)
    ensures acc'.truncated ==> log' <= log + Tagged(source, ExtsOfAll(adj, source, order))
    ensures !acc'.truncated ==>
              && log' == log + Tagged(source, ExtsOfAll(adj, source, order))
              && next == Walkers(adj, source, ExtsOfAll(adj, source, order))
  {
    hide Progress, Tagged, ExtsOfAll, Exts, Walkers, WalkerOf, Simple;
    acc', next, log' := acc, [], log;
    WalkersLength(adj, source, order);
    LevelStart(adj, source, order, log);
    for j := 0 to |frontier|
      invariant |frontier| == |order|
      invariant acc' == Progress(adj, log', reflexed, cap) && !acc'.truncated
      invariant log' == log + Tagged(source, ExtsOfAll(adj, source, order[..j]))
      invariant next == Walkers(adj, source, ExtsOfAll(adj, source, order[..j]))
    {
      WalkersAt(adj, source, order, j);
      assert order[j] in order;
      var more;
      acc', more, log' := Expand(adj, source, frontier[j], order[j], acc', cap, log', reflexed);
      LevelStep(adj, source, order, j, log);
      if acc'.truncated {
        return;
      }
      next := next + more;
    }
    TakeAll(order);
  }

  lemma LevelStart(adj: Adj, source: Node, order: seq<Path>, log: seq<Find>)
    ensures log + Tagged(source, ExtsOfAll(adj, source, order[..0])) == log
    ensures Walkers(adj, source, ExtsOfAll(adj, source, order[..0])) == []
  {
    AppendNil(log);
  }

  lemma LevelStep(adj: Adj, source: Node, order: seq<Path>, j: nat, log: seq<Find>)
    requires j < |order|
    ensures var seen, more := ExtsOfAll(adj, source, order[..j]), Exts(adj, source, order[j]);
            var all := ExtsOfAll(adj, source, order[..j + 1]);
            && log + Tagged(source, seen) + Tagged(source, more) == log + Tagged(source, all)
            && log + Tagged(source, all) <= log + Tagged(source, ExtsOfAll(adj, source, order))
            && Walkers(adj, source, seen) + Walkers(adj, source, more) == Walkers(adj, source, all)
  {
    var seen, more := ExtsOfAll(adj, source, order[..j]), Exts(adj, source, order[j]);
    ExtsOfAllStep(adj, source, order, j);
    TaggedAppend(source, seen, more);
    WalkersAppend(adj, source, seen, more);
    AppendAssoc(log, Tagged(source, seen), Tagged(source, more));
    ExtsOfAllPrefix(adj, source, order, j + 1);
    TaggedMonotone(source, ExtsOfAll(adj, source, order[..j + 1]), ExtsOfAll(adj, source, order));
  }

  /** `seen` lists the non-empty simple paths from `x` of length at most `depth`, each once. */
  ghost predicate IsUpTo(seen: seq<Path>, adj: Adj, x: Node, depth: nat) {
    NoDup(seen) && forall q {:trigger q in seen} :: q in seen <==> Simple(adj, x, q) && 1 <= |q| <= depth
  }

  lemma UpToNext(adj: Adj, x: Node, seen: seq<Path>, level: seq<Path>, depth: nat)
    requires IsUpTo(seen, adj, x, depth) && IsLevel(level, adj, x, depth + 1)
    ensures IsUpTo(seen + level, adj, x, depth + 1)
  {
    AppendNoDup(seen, level);
  }

  /** Once a level is empty there are no longer paths. */
  lemma {:induction false} NoLonger(adj: Adj, x: Node, depth: nat, q: Path)
    requires IsLevel([], adj, x, depth) && Simple(adj, x, q)
    ensures |q| < depth
  {
    var none: seq<Path> := [];
    assert q in none <==> Simple(adj, x, q) && |q| == depth;
    if |q| > depth {
      NoLonger(adj, x, depth, q[..|q| - 1]);
    }
  }

  method SearchFrom(adj: Adj, source: Node, maxDepth: nat, acc: Acc, cap: nat, ghost log: seq<Find>, ghost reflexed: set<Node>)
    returns (acc': Acc, ghost seen: seq<Path>, ghost log': seq<Find>)
    requires acc == Progress(adj, log, reflexed, cap) && !acc.truncated
    ensures exists d: nat :: d <= maxDepth && IsUpTo(seen, adj, source, d)
    ensures acc' == Progress(adj, log', reflexed, cap)
    ensures acc'.truncated ==> log' <= log + Tagged(source, seen)
    ensures !acc'.truncated ==>
              log' == log + Tagged(source, seen) && IsUpTo(seen, adj, source, maxDepth)
  {
    acc', seen, log' := acc, [], log;
    ghost var order: seq<Path> := [[]];
    var frontier := [Walker(source, {}, {source})];
    var depth := 0;
    while depth < maxDepth && |frontier| > 0
      invariant depth <= maxDepth
      invariant IsLevel(order, adj, source, depth) && frontier == Walkers(adj, source, order)
      invariant IsUpTo(seen, adj, source, depth)
      invariant acc' == Progress(adj, log', reflexed, cap) && !acc'.truncated && log' == log + Tagged(source, seen)
    {
      ghost var level := ExtsOfAll(adj, source, order);
      NextLevel(adj, source, order, depth);
      UpToNext(adj, source, seen, level, depth);
      acc', frontier, log' := ExpandLevel(adj, source, frontier, order, acc', cap, log', reflexed);
      TaggedAppend(source, seen, level);
      AppendAssoc(log, Tagged(source, seen), Tagged(source, level));
      seen, order := seen + level, level;
      depth := depth + 1;
      if acc'.truncated {
        return;
      }
    }
    if depth < maxDepth {
      WalkersLength(adj, source, order);
      forall q | Simple(adj, source, q) ensures |q| <= depth { NoLonger(adj, source, depth, q); }
    }
  }

  // ---- the whole search ------------------------------------------------------------------------

  /** `f` is a non-empty simple path of length at most `maxDepth` from one of `sources`. */
  ghost predicate Findable(f: Find, adj: Adj, sources: set<Node>, maxDepth: nat) {
    f.source in sources && Simple(adj, f.source, f.path) && 1 <= |f.path| <= maxDepth
  }

  ghost predicate FoundAll(log: seq<Find>, adj: Adj, sources: set<Node>, maxDepth: nat) {
    NoDup(log) && forall f {:trigger f in log} :: f in log <==> Findable(f, adj, sources, maxDepth)
  }

  ghost predicate FoundSome(log: seq<Find>, adj: Adj, sources: set<Node>, maxDepth: nat) {
    NoDup(log) && forall f {:trigger f in log} :: f in log ==> Findable(f, adj, sources, maxDepth)
  }

  /** Every path the search could meet. */
  ghost function AllFinds(adj: Adj, maxDepth: nat): set<Find> {
    set x, p | x in adj && p in SimplePaths(adj, x, maxDepth) :: Find(x, p)
  }

  lemma AllFindsMember(adj: Adj, maxDepth: nat, f: Find)
    ensures f in AllFinds(adj, maxDepth) <==> Findable(f, adj, adj.Keys, maxDepth)
  {
    SimplePathsMembers(adj, f.source, maxDepth, f.path);
  }

  lemma AddSource(adj: Adj, log: seq<Find>, seen: seq<Path>, x: Node, done: set<Node>, maxDepth: nat)
    requires FoundAll(log, adj, done, maxDepth) && x !in done && IsUpTo(seen, adj, x, maxDepth)
    ensures FoundAll(log + Tagged(x, seen), adj, done + {x}, maxDepth)
  {
    TaggedNoDup(x, seen);
    forall f ensures f in Tagged(x, seen) <==> f.source == x && f.path in seen { TaggedMember(x, seen, f); }
    AppendNoDup(log, Tagged(x, seen));
  }

  lemma AddPartOfSource(adj: Adj, log: seq<Find>, seen: seq<Path>, x: Node, done: set<Node>, maxDepth: nat, d: nat, log': seq<Find>)
    requires FoundAll(log, adj, done, maxDepth) && x !in done && IsUpTo(seen, adj, x, d) && d <= maxDepth
    requires log' <= log + Tagged(x, seen)
    ensures FoundSome(log', adj, done + {x}, maxDepth)
  {
    TaggedNoDup(x, seen);
    forall f ensures f in Tagged(x, seen) <==> f.source == x && f.path in seen { TaggedMember(x, seen, f); }
    AppendNoDup(log, Tagged(x, seen));
    forall i | 0 <= i < |log'| ensures log'[i] in log || log'[i] in Tagged(x, seen) {
      assert log'[i] == (log + Tagged(x, seen))[i];
    }
  }

  /** `pairs.set(key(source, source), ...)` for a reflexive closure. */
  lemma AddDiagonal(adj: Adj, log: seq<Find>, reflexed: set<Node>, x: Node, sources: set<Node>, maxDepth: nat)
    requires FoundSome(log, adj, sources, maxDepth) && x !in reflexed
    ensures var pairs := TallyList(adj, log) + Diagonal(reflexed);
            (x, x) !in pairs && pairs[(x, x) := Support(1, {})] == TallyList(adj, log) + Diagonal(reflexed + {x})
  {
    NoDiagonalTally(adj, log, x, sources, maxDepth);
  }

  lemma NoDiagonalTally(adj: Adj, log: seq<Find>, x: Node, sources: set<Node>, maxDepth: nat)
    requires FoundSome(log, adj, sources, maxDepth)
    ensures (x, x) !in TallyList(adj, log)
  {
    TallyListCounts(adj, log, x, x);
    forall f | f in log && f.source == x ensures End(adj, x, f.path) != x {
      SimpleLeaves(adj, x, f.path);
    }
    assert Chosen(log, adj, x, x) == {};
  }

  /** What the search promises of one pair. */
  ghost predicate RightPair(pairs: Pairs, adj: Adj, maxDepth: nat, reflexive: bool, x: Node, y: Node) {
    if x == y then
      ((x, x) in pairs <==> reflexive && x in adj) && ((x, x) in pairs ==> pairs[(x, x)] == Support(1, {}))
    else
      Holds(pairs, adj, x, y, PathsTo(adj, x, y, maxDepth))
  }

  lemma ChosenIsPathsTo(adj: Adj, log: seq<Find>, maxDepth: nat, x: Node, y: Node)
    requires FoundAll(log, adj, adj.Keys, maxDepth) && x != y
    ensures Chosen(log, adj, x, y) == PathsTo(adj, x, y, maxDepth)
  {
    forall p ensures p in Chosen(log, adj, x, y) <==> p in PathsTo(adj, x, y, maxDepth) {
      SimplePathsMembers(adj, x, maxDepth, p);
      assert Find(x, p) in log <==> Findable(Find(x, p), adj, adj.Keys, maxDepth);
      if Simple(adj, x, p) && p != [] { SourceHasEdges(adj, x, p); }
    }
  }

  lemma {:induction false} SourceHasEdges(adj: Adj, x: Node, p: Path)
    requires IsPath(adj, x, p) && p != []
    ensures x in adj
  {
    if |p| > 1 { SourceHasEdges(adj, x, p[..|p| - 1]); }
  }

  lemma AllPairsRight(adj: Adj, log: seq<Find>, maxDepth: nat, reflexive: bool, reflexed: set<Node>, pairs: Pairs)
    requires FoundAll(log, adj, adj.Keys, maxDepth)
    requires reflexed == (if reflexive then adj.Keys else {}) && pairs == TallyList(adj, log) + Diagonal(reflexed)
    ensures forall x, y :: RightPair(pairs, adj, maxDepth, reflexive, x, y)
  {
    forall x, y ensures RightPair(pairs, adj, maxDepth, reflexive, x, y) {
      if x == y {
        NoDiagonalTally(adj, log, x, adj.Keys, maxDepth);
      } else {
        TallyListCounts(adj, log, x, y);
        ChosenIsPathsTo(adj, log, maxDepth, x, y);
      }
    }
  }

  /** What is left of that when the search is cut short: some of the paths, rightly counted. */
  ghost predicate SoundPair(pairs: Pairs, adj: Adj, maxDepth: nat, reflexive: bool, x: Node, y: Node) {
    if x == y then (x, x) in pairs ==> reflexive && x in adj && pairs[(x, x)] == Support(1, {})
    else exists chosen :: chosen <= PathsTo(adj, x, y, maxDepth) && Holds(pairs, adj, x, y, chosen)
  }

  lemma FoundPairsSound(adj: Adj, log: seq<Find>, sources: set<Node>, maxDepth: nat, reflexive: bool, reflexed: set<Node>, pairs: Pairs)
    requires FoundSome(log, adj, sources, maxDepth) && reflexed <= adj.Keys && (reflexed != {} ==> reflexive)
    requires pairs == TallyList(adj, log) + Diagonal(reflexed)
    ensures forall x, y :: SoundPair(pairs, adj, maxDepth, reflexive, x, y)
  {
    forall x, y ensures SoundPair(pairs, adj, maxDepth, reflexive, x, y) {
      if x == y {
        NoDiagonalTally(adj, log, x, sources, maxDepth);
      } else {
        TallyListCounts(adj, log, x, y);
        forall p | p in Chosen(log, adj, x, y) ensures p in PathsTo(adj, x, y, maxDepth) {
          SimplePathsMembers(adj, x, maxDepth, p);
          assert Find(x, p) in log && Findable(Find(x, p), adj, sources, maxDepth);
        }
        assert Holds(pairs, adj, x, y, Chosen(log, adj, x, y));
      }
    }
  }

  lemma NothingFound(adj: Adj, cap: nat, maxDepth: nat)
    ensures FoundAll([], adj, {}, maxDepth) && Progress(adj, [], {}, cap) == Acc(map[], 0, false)
  {
  }

  lemma FoundAllSome(log: seq<Find>, adj: Adj, sources: set<Node>, maxDepth: nat)
    requires FoundAll(log, adj, sources, maxDepth)
    ensures FoundSome(log, adj, sources, maxDepth)
  {
  }

  lemma LogSize(adj: Adj, log: seq<Find>, sources: set<Node>, maxDepth: nat)
    requires FoundSome(log, adj, sources, maxDepth) && sources <= adj.Keys
    ensures |log| <= |AllFinds(adj, maxDepth)|
    ensures FoundAll(log, adj, adj.Keys, maxDepth) ==> |log| == |AllFinds(adj, maxDepth)|
  {
    NoDupCount(log);
    forall f ensures f in AllFinds(adj, maxDepth) <==> Findable(f, adj, adj.Keys, maxDepth) { AllFindsMember(adj, maxDepth, f); }
    assert SetOf(log) <= AllFinds(adj, maxDepth);
    SubsetCount(SetOf(log), AllFinds(adj, maxDepth));
    if FoundAll(log, adj, adj.Keys, maxDepth) {
      assert SetOf(log) == AllFinds(adj, maxDepth);
    }
  }

  /** All the paths from one more source. */
  method SearchSource(adj: Adj, source: Node, maxDepth: nat, reflexive: bool, acc: Acc, cap: nat,
                      ghost log: seq<Find>, ghost done: set<Node>)
    returns (acc': Acc, ghost log': seq<Find>)
    requires source !in done && FoundAll(log, adj, done, maxDepth)
    requires acc == Progress(adj, log, if reflexive then done else {}, cap) && !acc.truncated
    ensures FoundSome(log', adj, done + {source}, maxDepth)
    ensures acc'.truncated ==>
              log' != [] && |log'| >= cap && acc' == Progress(adj, log', if reflexive then done else {}, cap)
    ensures !acc'.truncated ==>
              FoundAll(log', adj, done + {source}, maxDepth) &&
              acc' == Progress(adj, log', if reflexive then done + {source} else {}, cap)
  {
    hide FoundAll, FoundSome, IsUpTo, TallyList, Diagonal, Tagged, CountAt;
    ghost var seen;
    acc', seen, log' := SearchFrom(adj, source, maxDepth, acc, cap, log, if reflexive then done else {});
    if acc'.truncated {
      ghost var d: nat :| d <= maxDepth && IsUpTo(seen, adj, source, d);
      AddPartOfSource(adj, log, seen, source, done, maxDepth, d, log');
    } else {
      AddSource(adj, log, seen, source, done, maxDepth);
      FoundAllSome(log', adj, done + {source}, maxDepth);
      if reflexive {
        AddDiagonal(adj, log', done, source, done + {source}, maxDepth);
        var pairs := acc'.pairs;
        CountAtNew(pairs, source);
        acc' := acc'.(pairs := pairs[(source, source) := Support(CountAt(pairs, source, source) + 1, {})]);
      }
    }
  }

  lemma CountAtNew(pairs: Pairs, x: Node)
    ensures (x, x) !in pairs ==> CountAt(pairs, x, x) == 0
  {
  }

  /**
   * Enumerate the simple paths from every source and tally the pairs they join. Unless the path cap is
   * reached, each pair is there exactly when some simple path of length at most `maxDepth` joins it,
   * with the number of those paths and the events behind them; if it is, each pair there is has the
   * support of some of those paths.
   */
  method ComputeClosureSupports(adj: Adj, maxDepth: nat, reflexive: bool, cap: nat) returns (pairs: Pairs, truncated: bool)
    ensures truncated <==> AllFinds(adj, maxDepth) != {} && |AllFinds(adj, maxDepth)| >= cap
    ensures !truncated ==> forall x, y :: RightPair(pairs, adj, maxDepth, reflexive, x, y)
    ensures truncated ==> forall x, y :: SoundPair(pairs, adj, maxDepth, reflexive, x, y)
  {
    hide FoundAll, FoundSome, RightPair, SoundPair, AllFinds, TallyList, Diagonal;
    NothingFound(adj, cap, maxDepth);
    FoundAllSome([], adj, {}, maxDepth);
    var acc := Acc(map[], 0, false);
    ghost var log: seq<Find> := [];
    var sources := Listing(adj.Keys);
    ghost var done: set<Node>, reflexed: set<Node> := {}, {};
    var i := 0;
    while i < |sources| && !acc.truncated
      invariant i <= |sources| && done == SetOf(sources[..i])
      invariant FoundSome(log, adj, done, maxDepth)
      invariant acc.truncated ==> log != [] && |log| >= cap
      invariant !acc.truncated ==> FoundAll(log, adj, done, maxDepth) && reflexed == if reflexive then done else {}
      invariant acc == Progress(adj, log, reflexed, cap) && reflexed <= done && (reflexed != {} ==> reflexive)
    {
      var source := sources[i];
      NotYet(sources, i);
      TakeNext(sources, i);
      SetOfAppend(sources[..i], source);
      acc, log := SearchSource(adj, source, maxDepth, reflexive, acc, cap, log, done);
      if !acc.truncated && reflexive { reflexed := done + {source}; }
      done := done + {source};
      i := i + 1;
    }
    PrefixSet(sources, i);
    TakeAll(sources);
    LogSize(adj, log, done, maxDepth);
    pairs, truncated := acc.pairs, acc.truncated;
    if !truncated {
      AllPairsRight(adj, log, maxDepth, reflexive, reflexed, pairs);
    } else {
      FoundPairsSound(adj, log, done, maxDepth, reflexive, reflexed, pairs);
    }
  }
}
