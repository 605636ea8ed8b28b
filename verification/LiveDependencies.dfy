/**
 * What a live query depends on, and what a result diff says: the pure half of the live-query cache.
 */
module LiveDependencies {
  import opened Seqs
  import opened Text
  import opened Core
  import opened Projection
  import opened Reconciling
  import opened SqliteCurrent
  import Ordering

  datatype Term = Const(value: Value) | Var(name: Text)

  datatype Pattern = Pattern(e: Term, a: Term, v: Term)

  /** Comparisons and computations read no rows. */
  datatype Goal = Has(p: Pattern) | Lacks(p: Pattern) | Computes

  /** The parser rejects a disjunction inside a disjunction. */
  datatype Clause = Plain(goal: Goal) | Or(branches: seq<seq<Goal>>)

  datatype Query = Query(where: seq<Clause>, select: seq<Text>)

  datatype Dependency = Dependency(e: Option<Text>, a: Option<Text>)

  // ---- dependency extraction --------------------------------------------------------

  function StringConst(t: Term): Option<Text> {
    if t.Const? && t.value.Str? then Some(t.value.s) else None
  }

  function PatternDependency(p: Pattern): Option<Dependency> {
    var e, a := StringConst(p.e), StringConst(p.a);
    if e.None? && a.None? then None else Some(Dependency(e, a))
  }

  function GoalPatterns(g: Goal): seq<Pattern> { if g.Computes? then [] else [g.p] }

  function ClausePatterns(c: Clause): seq<Pattern> {
    match c
    case Plain(g) => GoalPatterns(g)
    case Or(branches) => FlatMap(branches, (b: seq<Goal>) => FlatMap(b, GoalPatterns))
  }

  /** The patterns a query reads rows through, negated and disjoined ones included. */
  function PatternsOf(q: Query): seq<Pattern> { FlatMap(q.where, ClausePatterns) }

  function GoalDependencies(g: Goal): seq<Dependency> {
    if g.Computes? then []
    else
      var d := PatternDependency(g.p);
      if d.None? then [] else [d.value]
  }

  function ClauseDependencies(c: Clause): seq<Dependency> {
    match c
    case Plain(g) => GoalDependencies(g)
    case Or(branches) => FlatMap(branches, (b: seq<Goal>) => FlatMap(b, GoalDependencies))
  }

  const STAR := Lit("*")

  function OrElse(t: Option<Text>, other: Text): Text { if t.Some? then t.value else other }

  function FilterKey(d: Dependency): Text { Join(OrElse(d.e, STAR), OrElse(d.a, STAR)) }

  predicate DependencyLess(x: Dependency, y: Dependency) {
    Less(Join(OrElse(x.e, []), OrElse(x.a, [])), Join(OrElse(y.e, []), OrElse(y.a, [])))
  }

  function DedupeFilters(ds: seq<Dependency>): seq<Dependency> {
    Ordering.Sort(LastPerKey(ds, FilterKey), DependencyLess)
  }

  /** No dependency at all makes a subscription fail. */
  function Dependencies(q: Query): seq<Dependency> { DedupeFilters(FlatMap(q.where, ClauseDependencies)) }

  lemma {:induction false} GoalsDependencies(b: seq<Goal>, d: Dependency)
    ensures d in FlatMap(b, GoalDependencies) <==> exists p :: p in FlatMap(b, GoalPatterns) && PatternDependency(p) == Some(d)
  {
    if b != [] { GoalsDependencies(b[1..], d); }
  }

  lemma {:induction false} BranchesDependencies(bs: seq<seq<Goal>>, d: Dependency)
    ensures d in FlatMap(bs, (b: seq<Goal>) => FlatMap(b, GoalDependencies)) <==>
            exists p :: p in FlatMap(bs, (b: seq<Goal>) => FlatMap(b, GoalPatterns)) && PatternDependency(p) == Some(d)
  {
    if bs != [] {
      GoalsDependencies(bs[0], d);
      BranchesDependencies(bs[1..], d);
    }
  }

  lemma ClauseDependenciesExact(c: Clause, d: Dependency)
    ensures d in ClauseDependencies(c) <==> exists p :: p in ClausePatterns(c) && PatternDependency(p) == Some(d)
  {
    match c
    case Plain(g) =>
      if d in ClauseDependencies(c) { assert g.p in ClausePatterns(c); }
    case Or(branches) => BranchesDependencies(branches, d);
  }

  /** Before deduplication, the dependencies are those of the patterns. */
  lemma {:induction false} RawDependencies(where: seq<Clause>, d: Dependency)
    ensures d in FlatMap(where, ClauseDependencies) <==>
            exists p :: p in FlatMap(where, ClausePatterns) && PatternDependency(p) == Some(d)
  {
    if where != [] {
      ClauseDependenciesExact(where[0], d);
      RawDependencies(where[1..], d);
    }
  }

  /** Deduplication keeps, for each key, one dependency that has it. */
  lemma DependenciesExact(q: Query)
    ensures forall d :: d in Dependencies(q) ==> exists p :: p in PatternsOf(q) && PatternDependency(p) == Some(d)
    ensures forall p :: p in PatternsOf(q) && PatternDependency(p).Some? ==>
              exists d :: d in Dependencies(q) && FilterKey(d) == FilterKey(PatternDependency(p).value)
  {
    var raw := FlatMap(q.where, ClauseDependencies);
    var kept := LastPerKey(raw, FilterKey);
    LastPerKeyLaws(raw, FilterKey);
    Ordering.SameElements(Ordering.Sort(kept, DependencyLess), kept);
    forall d | d in kept ensures exists p :: p in PatternsOf(q) && PatternDependency(p) == Some(d) {
      RawDependencies(q.where, d);
    }
    forall p | p in PatternsOf(q) && PatternDependency(p).Some?
      ensures exists d :: d in kept && FilterKey(d) == FilterKey(PatternDependency(p).value)
    {
      RawDependencies(q.where, PatternDependency(p).value);
      assert PatternDependency(p).value in raw;
    }
  }

  // ---- the same, spelt out -----------------------------------------------------------------

  /** The query has the pattern, plain, negated or in a branch of a disjunction. */
  ghost predicate Contains(q: Query, p: Pattern) {
    exists c :: c in q.where &&
      ((c.Plain? && (c.goal == Has(p) || c.goal == Lacks(p))) ||
       (c.Or? && exists b :: b in c.branches && (Has(p) in b || Lacks(p) in b)))
  }

  lemma GoalsOf(b: seq<Goal>, p: Pattern)
    ensures p in FlatMap(b, GoalPatterns) <==> Has(p) in b || Lacks(p) in b
  {
    FlatMapMember(b, GoalPatterns, p);
  }

  lemma ClauseHas(c: Clause, p: Pattern)
    ensures p in ClausePatterns(c) <==>
              (c.Plain? && (c.goal == Has(p) || c.goal == Lacks(p))) ||
              (c.Or? && exists b :: b in c.branches && (Has(p) in b || Lacks(p) in b))
  {
    match c
    case Plain(g) =>
    case Or(branches) =>
      FlatMapMember(branches, (b: seq<Goal>) => FlatMap(b, GoalPatterns), p);
      forall b ensures p in FlatMap(b, GoalPatterns) <==> Has(p) in b || Lacks(p) in b { GoalsOf(b, p); }
      if b :| b in branches && (Has(p) in b || Lacks(p) in b) {
        var i :| 0 <= i < |branches| && branches[i] == b;
      }
  }

  lemma PatternsAre(q: Query, p: Pattern)
    ensures p in PatternsOf(q) <==> Contains(q, p)
  {
    FlatMapMember(q.where, ClausePatterns, p);
    hide ClausePatterns;
    forall c: Clause ensures p in ClausePatterns(c) <==>
        (c.Plain? && (c.goal == Has(p) || c.goal == Lacks(p))) ||
        (c.Or? && exists b :: b in c.branches && (Has(p) in b || Lacks(p) in b))
    {
      ClauseHas(c, p);
    }
    if c :| c in q.where && p in ClausePatterns(c) {
      var i :| 0 <= i < |q.where| && q.where[i] == c;
    }
  }

  /** The dependency names what the pattern names by string constants, and something at least. */
  ghost predicate NamedBy(d: Dependency, p: Pattern) {
    && d.e == (if p.e.Const? && p.e.value.Str? then Some(p.e.value.s) else None)
    && d.a == (if p.a.Const? && p.a.value.Str? then Some(p.a.value.s) else None)
    && (d.e.Some? || d.a.Some?)
  }

  /** The entity and the attribute, `*` for any, joined with NUL. */
  ghost predicate SameKey(d: Dependency, d': Dependency) {
    (if d.e.Some? then d.e.value else [42]) + [0] + (if d.a.Some? then d.a.value else [42]) ==
    (if d'.e.Some? then d'.e.value else [42]) + [0] + (if d'.a.Some? then d'.a.value else [42])
  }

  /** Each dependency is of a pattern of the query; each pattern that names something has one with its key. */
  lemma DependenciesAre(q: Query)
    ensures forall d :: d in Dependencies(q) ==> exists p :: Contains(q, p) && NamedBy(d, p)
    ensures forall p, d :: Contains(q, p) && NamedBy(d, p) ==> exists d' :: d' in Dependencies(q) && SameKey(d, d')
  {
    DependenciesExact(q);
    hide Dependencies, PatternsOf, Contains;
    forall p ensures p in PatternsOf(q) <==> Contains(q, p) { PatternsAre(q, p); }
    forall p, d ensures PatternDependency(p) == Some(d) <==> NamedBy(d, p) {
    }
    assert STAR == [42];
    forall d, d' ensures FilterKey(d) == FilterKey(d') <==> SameKey(d, d') {
    }
    forall p, d | Contains(q, p) && NamedBy(d, p) ensures exists d' :: d' in Dependencies(q) && SameKey(d, d') {
      assert p in PatternsOf(q) && PatternDependency(p) == Some(d);
      var d' :| d' in Dependencies(q) && FilterKey(d') == FilterKey(PatternDependency(p).value);
      assert SameKey(d, d');
    }
  }

  // ---- which rows a pattern reads -------------------------------------------------------

  predicate Admits(t: Term, name: Text) { t.Const? ==> t.value == Str(name) }

  predicate MatchesRow(p: Pattern, r: Row, valueKey: Value -> Text) {
    Admits(p.e, r.e) && Admits(p.a, r.a) && (p.v.Const? ==> valueKey(p.v.value) == valueKey(r.v))
  }

  function MatchingRows(p: Pattern, rows: set<Row>, valueKey: Value -> Text): set<Row> {
    set r | r in rows && MatchesRow(p, r, valueKey)
  }

  /** A pattern reads the rows that agree with each of its constants, values compared by key. */
  lemma MatchingAre(p: Pattern, rows: set<Row>, valueKey: Value -> Text, r: Row)
    ensures r in MatchingRows(p, rows, valueKey) <==>
              r in rows && (p.e.Var? || p.e.value == Str(r.e)) && (p.a.Var? || p.a.value == Str(r.a)) &&
              (p.v.Var? || valueKey(p.v.value) == valueKey(r.v))
  {
  }

  /** A constant that is not a string can match no entity or attribute. */
  predicate Dead(p: Pattern) { (p.e.Const? && !p.e.value.Str?) || (p.a.Const? && !p.a.value.Str?) }

  predicate Bounded(p: Pattern) { PatternDependency(p).Some? }

  predicate Matches(d: Dependency, e: Text, a: Text) {
    (d.e.Some? ==> d.e.value == e) && (d.a.Some? ==> d.a.value == a)
  }

  predicate Listens(deps: seq<Dependency>, e: Text, a: Text) {
    exists d :: d in deps && Matches(d, e, a)
  }

  /** Every row the query could read lies at an (e, a) some dependency matches. */
  ghost predicate Covers(deps: seq<Dependency>, q: Query, valueKey: Value -> Text) {
    forall p, r {:trigger MatchesRow(p, r, valueKey)} :: p in PatternsOf(q) && MatchesRow(p, r, valueKey) ==> Listens(deps, r.e, r.a)
  }

  /** Whatever the pattern matches, the dependency matches. */
  predicate Subsumes(d: Dependency, p: Pattern) {
    (d.e.Some? ==> StringConst(p.e) == d.e) && (d.a.Some? ==> StringConst(p.a) == d.a)
  }

  /** A name no dependency mentions. */
  lemma UnusedName(deps: seq<Dependency>) returns (t: Text)
    ensures forall d :: d in deps ==> d.e != Some(t) && d.a != Some(t)
  {
    var n := Longest(deps);
    t := seq(n + 1, _ => 0);
  }

  ghost function Longest(deps: seq<Dependency>): (n: nat)
    ensures forall d :: d in deps ==> |OrElse(d.e, [])| <= n && |OrElse(d.a, [])| <= n
  {
    if deps == [] then 0
    else
      var n, d := Longest(deps[1..]), deps[0];
      var m := if |OrElse(d.e, [])| > |OrElse(d.a, [])| then |OrElse(d.e, [])| else |OrElse(d.a, [])|;
      if n > m then n else m
  }

  /** A row of a pattern no dependency subsumes, at an (e, a) no dependency matches. */
  lemma UnheardRow(p: Pattern, deps: seq<Dependency>, valueKey: Value -> Text) returns (r: Row)
    requires !Dead(p) && forall d :: d in deps ==> !Subsumes(d, p)
    ensures MatchesRow(p, r, valueKey) && !Listens(deps, r.e, r.a)
  {
    var t := UnusedName(deps);
    var e, a := OrElse(StringConst(p.e), t), OrElse(StringConst(p.a), t);
    r := Row([], e, a, if p.v.Const? then p.v.value else Null, [], None, Absent, []);
  }

  /** Exactly when a query's dependencies cover it. */
  lemma CoversIff(q: Query, valueKey: Value -> Text)
    ensures Covers(Dependencies(q), q, valueKey) <==>
            forall p :: p in PatternsOf(q) ==> Dead(p) || exists d :: d in Dependencies(q) && Subsumes(d, p)
  {
    var deps := Dependencies(q);
    forall p | p in PatternsOf(q) && !(Dead(p) || exists d :: d in deps && Subsumes(d, p))
      ensures !Covers(deps, q, valueKey)
    {
      var r := UnheardRow(p, deps, valueKey);
    }
    forall p, r {:trigger MatchesRow(p, r, valueKey)} |
      p in PatternsOf(q) && MatchesRow(p, r, valueKey) && exists d :: d in deps && Subsumes(d, p)
      ensures Listens(deps, r.e, r.a)
    {
      var d :| d in deps && Subsumes(d, p);
      assert Matches(d, r.e, r.a);
    }
  }

  /** Constants that cannot be mistaken for the key's separator or its "any" mark. */
  predicate PlainName(t: Term) { StringConst(t).Some? ==> NoNul(StringConst(t).value) && StringConst(t).value != STAR }

  ghost predicate PlainNames(q: Query) {
    forall p :: p in PatternsOf(q) ==> PlainName(p.e) && PlainName(p.a)
  }

  lemma FilterKeyInjective(p1: Pattern, p2: Pattern)
    requires PlainName(p1.e) && PlainName(p1.a) && PlainName(p2.e) && PlainName(p2.a)
    requires PatternDependency(p1).Some? && PatternDependency(p2).Some?
    requires FilterKey(PatternDependency(p1).value) == FilterKey(PatternDependency(p2).value)
    ensures PatternDependency(p1) == PatternDependency(p2)
  {
    assert STAR == [42];
    var d1, d2 := PatternDependency(p1).value, PatternDependency(p2).value;
    JoinInjective(OrElse(d1.e, STAR), OrElse(d1.a, STAR), OrElse(d2.e, STAR), OrElse(d2.a, STAR));
  }

  /** With plain names, that is when each pattern names an entity or an attribute, or can match nothing. */
  lemma PlainCoversIff(q: Query, valueKey: Value -> Text)
    requires PlainNames(q)
    ensures Covers(Dependencies(q), q, valueKey) <==> forall p :: p in PatternsOf(q) ==> Bounded(p) || Dead(p)
  {
    CoversIff(q, valueKey);
    DependenciesExact(q);
    forall p | p in PatternsOf(q) && Bounded(p) ensures exists d :: d in Dependencies(q) && Subsumes(d, p) {
      var d :| d in Dependencies(q) && FilterKey(d) == FilterKey(PatternDependency(p).value);
      var p2 :| p2 in PatternsOf(q) && PatternDependency(p2) == Some(d);
      FilterKeyInjective(p, p2);
    }
    forall p, d | p in PatternsOf(q) && d in Dependencies(q) && Subsumes(d, p) ensures Bounded(p) {
      var p2 :| p2 in PatternsOf(q) && PatternDependency(p2) == Some(d);
    }
  }

  /** An entity called "*" can take the place of "any entity": the wider dependency is lost. */
  lemma StarClash(valueKey: Value -> Text)
    ensures exists q: Query :: (forall p :: p in PatternsOf(q) ==> Bounded(p)) && !Covers(Dependencies(q), q, valueKey)
  {
    var p1 := Pattern(Var([1]), Const(Str([120])), Var([2]));
    var p2 := Pattern(Const(Str(STAR)), Const(Str([120])), Var([2]));
    var q := Query([Plain(Has(p1)), Plain(Has(p2))], []);
    FlatMapTwo(Plain(Has(p1)), Plain(Has(p2)), ClausePatterns);
    assert PatternsOf(q) == [p1, p2];
    var d1, d2 := Dependency(None, Some([120])), Dependency(Some(STAR), Some([120]));
    FlatMapTwo(Plain(Has(p1)), Plain(Has(p2)), ClauseDependencies);
    assert FlatMap(q.where, ClauseDependencies) == [d1, d2];
    assert FilterKey(d1) == FilterKey(d2);
    assert [d1, d2][..1] == [d1] && [d1][..0] == [];
    assert LastPerKey([d1, d2], FilterKey) == [d2];
    assert Dependencies(q) == [d2];
    var r := Row([], [121], [120], Null, [], None, Absent, []);
    assert STAR == [42];
    assert MatchesRow(p1, r, valueKey) && !Listens([d2], r.e, r.a);
  }

  /** A pattern that names nothing, next to one that names an attribute: there is a dependency, but it does not cover the query. */
  lemma UnboundedNextToBounded(valueKey: Value -> Text)
    ensures exists q: Query :: PlainNames(q) && Dependencies(q) != [] && !Covers(Dependencies(q), q, valueKey)
  {
    var bounded := Pattern(Var([1]), Const(Str([120])), Var([2]));
    var unbounded := Pattern(Var([1]), Var([3]), Var([4]));
    var q := Query([Plain(Has(bounded)), Plain(Has(unbounded))], []);
    TwoPatterns(bounded, unbounded);
    assert STAR == [42];
    assert PlainName(bounded.e) && PlainName(bounded.a) && PlainName(unbounded.e) && PlainName(unbounded.a);
    assert Bounded(bounded) && !Bounded(unbounded) && !Dead(unbounded);
    hide PatternsOf, Dependencies, Covers, PlainName, Bounded, Dead, FilterKey, PatternDependency;
    assert PlainNames(q);
    DependsIfBounded(q, bounded);
    PlainCoversIff(q, valueKey);
  }

  lemma TwoPatterns(p1: Pattern, p2: Pattern)
    ensures forall p :: p in PatternsOf(Query([Plain(Has(p1)), Plain(Has(p2))], [])) <==> p == p1 || p == p2
  {
    FlatMapTwo(Plain(Has(p1)), Plain(Has(p2)), ClausePatterns);
    assert PatternsOf(Query([Plain(Has(p1)), Plain(Has(p2))], [])) == [p1, p2];
  }

  lemma DependsIfBounded(q: Query, p: Pattern)
    requires p in PatternsOf(q) && Bounded(p)
    ensures Dependencies(q) != []
  {
    DependenciesExact(q);
  }

  // ---- invalidation -----------------------------------------------------------------------

  /** Every (e, a) whose rows differ is listed. */
  ghost predicate Announces(changed: seq<Change>, before: set<Row>, after: set<Row>) {
    forall e, a :: RowsAt(before, e, a) != RowsAt(after, e, a) ==> Lists(changed, e, a)
  }

  predicate Hears(deps: seq<Dependency>, changed: seq<Change>) {
    exists ch :: ch in changed && Listens(deps, ch.e, ch.a)
  }

  lemma AnnouncesTransitive(c1: seq<Change>, c2: seq<Change>, before: set<Row>, between: set<Row>, after: set<Row>)
    requires Announces(c1, before, between) && Announces(c2, between, after)
    ensures Announces(c1 + c2, before, after)
  {
    forall e, a | RowsAt(before, e, a) != RowsAt(after, e, a) ensures Lists(c1 + c2, e, a) {
      if Lists(c1, e, a) {
        var ch :| ch in c1 && ch.e == e && ch.a == a;
        assert ch in c1 + c2;
      } else {
        var ch :| ch in c2 && ch.e == e && ch.a == a;
        assert ch in c1 + c2;
      }
    }
  }

  /** A change that matches no dependency of a covered query leaves every row it reads in place. */
  lemma UnheardChangesNothing(q: Query, deps: seq<Dependency>, changed: seq<Change>, before: set<Row>, after: set<Row>, valueKey: Value -> Text)
    requires Covers(deps, q, valueKey) && Announces(changed, before, after) && !Hears(deps, changed)
    ensures forall p :: p in PatternsOf(q) ==> MatchingRows(p, before, valueKey) == MatchingRows(p, after, valueKey)
  {
    forall p, r | p in PatternsOf(q) && MatchesRow(p, r, valueKey) ensures r in before <==> r in after {
      assert Listens(deps, r.e, r.a);
      assert !Lists(changed, r.e, r.a);
      assert r in before <==> r in RowsAt(before, r.e, r.a);
      assert r in after <==> r in RowsAt(after, r.e, r.a);
    }
  }

  /** Only covered queries are safe to cache: any other one has a write that changes its rows unheard. */
  lemma UncoveredGoesStale(q: Query, deps: seq<Dependency>, valueKey: Value -> Text)
    requires !Covers(deps, q, valueKey)
    ensures exists changed: seq<Change>, before: set<Row>, after: set<Row>, p ::
              p in PatternsOf(q) && Announces(changed, before, after) && !Hears(deps, changed) &&
              MatchingRows(p, before, valueKey) != MatchingRows(p, after, valueKey)
  {
    var p, r: Row :| p in PatternsOf(q) && MatchesRow(p, r, valueKey) && !Listens(deps, r.e, r.a);
    var before: set<Row>, after: set<Row> := {}, {r};
    var changed := [Change(r.e, r.a, [], [r.eventId])];
    assert changed[0] in changed;
    forall e, a | RowsAt(before, e, a) != RowsAt(after, e, a) ensures Lists(changed, e, a) {
      assert r.e == e && r.a == a;
    }
    assert r in MatchingRows(p, after, valueKey);
    assert Announces(changed, before, after) && !Hears(deps, changed);
  }

  // ---- result diffs -------------------------------------------------------------------------

  datatype QueryResult = QueryResult(rows: seq<Value>, eventSourceIds: seq<EventId>)

  datatype Diff = Diff(added: seq<Value>, removed: seq<Value>, addedIds: seq<EventId>, removedIds: seq<EventId>)

  function KeyedRows(rows: seq<Value>, rowKey: Value -> Text): seq<Value> {
    LastPerKey(Ordering.Sort(rows, (r: Value, s: Value) => Less(rowKey(r), rowKey(s))), rowKey)
  }

  ghost function KeysOf(rows: set<Value>, rowKey: Value -> Text): set<Text> {
    set r | r in rows :: rowKey(r)
  }

  predicate HasKey(rows: seq<Value>, rowKey: Value -> Text, k: Text) {
    exists r :: r in rows && rowKey(r) == k
  }

  function ResultDiff(previous: QueryResult, current: QueryResult, rowKey: Value -> Text): Diff {
    var previousRows, currentRows := KeyedRows(previous.rows, rowKey), KeyedRows(current.rows, rowKey);
    Diff(Filter(currentRows, (r: Value) => !HasKey(previousRows, rowKey, rowKey(r))),
         Filter(previousRows, (r: Value) => !HasKey(currentRows, rowKey, rowKey(r))),
         SortedUnique(Filter(current.eventSourceIds, (id: EventId) => id !in previous.eventSourceIds)),
         SortedUnique(Filter(previous.eventSourceIds, (id: EventId) => id !in current.eventSourceIds)))
  }

  /** What a subscriber makes of a diff: drop the rows with removed keys, take in the added ones. */
  ghost function ApplyRows(view: set<Value>, d: Diff, rowKey: Value -> Text): set<Value> {
    (set r | r in view && !HasKey(d.removed, rowKey, rowKey(r))) + SetOf(d.added)
  }

  lemma KeyedRowsLaws(rows: seq<Value>, rowKey: Value -> Text)
    ensures forall r :: r in KeyedRows(rows, rowKey) ==> r in rows
    ensures forall r :: r in rows ==> HasKey(KeyedRows(rows, rowKey), rowKey, rowKey(r))
  {
    var sorted := Ordering.Sort(rows, (r: Value, s: Value) => Less(rowKey(r), rowKey(s)));
    Ordering.SameElements(sorted, rows);
    LastPerKeyLaws(sorted, rowKey);
  }

  lemma KeyedKeys(rows: seq<Value>, rowKey: Value -> Text, k: Text)
    ensures HasKey(KeyedRows(rows, rowKey), rowKey, k) <==> k in KeysOf(SetOf(rows), rowKey)
  {
    KeyedRowsLaws(rows, rowKey);
    assert forall r :: r in rows <==> r in SetOf(rows);
  }

  lemma DiffMembers(previous: QueryResult, current: QueryResult, rowKey: Value -> Text)
    ensures var d := ResultDiff(previous, current, rowKey);
            && (forall r :: r in d.added <==> r in KeyedRows(current.rows, rowKey) && rowKey(r) !in KeysOf(SetOf(previous.rows), rowKey))
            && (forall r :: r in d.removed <==> r in KeyedRows(previous.rows, rowKey) && rowKey(r) !in KeysOf(SetOf(current.rows), rowKey))
  {
    var previousRows, currentRows := KeyedRows(previous.rows, rowKey), KeyedRows(current.rows, rowKey);
    FilterMembers(currentRows, (r: Value) => !HasKey(previousRows, rowKey, rowKey(r)));
    FilterMembers(previousRows, (r: Value) => !HasKey(currentRows, rowKey, rowKey(r)));
    forall k ensures HasKey(previousRows, rowKey, k) <==> k in KeysOf(SetOf(previous.rows), rowKey) { KeyedKeys(previous.rows, rowKey, k); }
    forall k ensures HasKey(currentRows, rowKey, k) <==> k in KeysOf(SetOf(current.rows), rowKey) { KeyedKeys(current.rows, rowKey, k); }
  }

  /** A subscriber that holds the previous rows, key for key, holds the current ones after the diff. */
  lemma DiffRestoresKeys(view: set<Value>, previous: QueryResult, current: QueryResult, rowKey: Value -> Text)
    requires KeysOf(view, rowKey) == KeysOf(SetOf(previous.rows), rowKey)
    ensures KeysOf(ApplyRows(view, ResultDiff(previous, current, rowKey), rowKey), rowKey) == KeysOf(SetOf(current.rows), rowKey)
  {
    hide ResultDiff, KeyedRows;
    var d := ResultDiff(previous, current, rowKey);
    var view' := ApplyRows(view, d, rowKey);
    var want := KeysOf(SetOf(current.rows), rowKey);
    DiffMembers(previous, current, rowKey);
    KeyedRowsLaws(previous.rows, rowKey);
    KeyedRowsLaws(current.rows, rowKey);
    forall k | k in want ensures k in KeysOf(view', rowKey) {
      KeyedKeys(current.rows, rowKey, k);
      if k in KeysOf(view, rowKey) {
        var r :| r in view && rowKey(r) == k;
        assert r in view';
      } else {
        var r :| r in KeyedRows(current.rows, rowKey) && rowKey(r) == k;
        assert r in view';
      }
    }
    forall k | k in KeysOf(view', rowKey) ensures k in want {
      var r :| r in view' && rowKey(r) == k;
      if r in d.added {
        assert r in SetOf(current.rows);
      } else {
        KeyedKeys(previous.rows, rowKey, k);
        var s :| s in KeyedRows(previous.rows, rowKey) && rowKey(s) == k;
        assert s !in d.removed;
      }
    }
  }

  /** Where keys tell rows apart, the rows themselves are restored. */
  lemma DiffRestoresRows(previous: QueryResult, current: QueryResult, rowKey: Value -> Text)
    requires forall r, s :: r in previous.rows + current.rows && s in previous.rows + current.rows && rowKey(r) == rowKey(s) ==> r == s
    ensures ApplyRows(SetOf(previous.rows), ResultDiff(previous, current, rowKey), rowKey) == SetOf(current.rows)
  {
    hide ResultDiff, KeyedRows;
    var d, all := ResultDiff(previous, current, rowKey), previous.rows + current.rows;
    var view' := ApplyRows(SetOf(previous.rows), d, rowKey);
    DiffRestoresKeys(SetOf(previous.rows), previous, current, rowKey);
    DiffMembers(previous, current, rowKey);
    KeyedRowsLaws(current.rows, rowKey);
    assert forall r :: r in view' ==> r in all;
    forall r ensures r in view' <==> r in SetOf(current.rows) {
      if r in view' {
        assert rowKey(r) in KeysOf(SetOf(current.rows), rowKey);
        var s :| s in SetOf(current.rows) && rowKey(s) == rowKey(r);
        assert s in all;
      }
      if r in SetOf(current.rows) {
        assert rowKey(r) in KeysOf(view', rowKey);
        var s :| s in view' && rowKey(s) == rowKey(r);
        assert r in all;
      }
    }
  }

  /** The event ids of a diff are exactly the difference of the two lists, both ways. */
  lemma DiffOfEventIds(previous: QueryResult, current: QueryResult, rowKey: Value -> Text)
    ensures var d := ResultDiff(previous, current, rowKey);
            && SetOf(d.addedIds) == SetOf(current.eventSourceIds) - SetOf(previous.eventSourceIds)
            && SetOf(d.removedIds) == SetOf(previous.eventSourceIds) - SetOf(current.eventSourceIds)
            && Ascending(d.addedIds) && Ascending(d.removedIds)
  {
    var added := Filter(current.eventSourceIds, (id: EventId) => id !in previous.eventSourceIds);
    var removed := Filter(previous.eventSourceIds, (id: EventId) => id !in current.eventSourceIds);
    FilterMembers(current.eventSourceIds, (id: EventId) => id !in previous.eventSourceIds);
    FilterMembers(previous.eventSourceIds, (id: EventId) => id !in current.eventSourceIds);
    SortedUniqueLaws(added);
    SortedUniqueLaws(removed);
  }

  /** The rows of a diff are one for each key that only one side has. */
  lemma DiffRowsAre(previous: QueryResult, current: QueryResult, rowKey: Value -> Text)
    ensures var d := ResultDiff(previous, current, rowKey);
            && (forall k :: HasKey(d.added, rowKey, k) <==> k in KeysOf(SetOf(current.rows), rowKey) && k !in KeysOf(SetOf(previous.rows), rowKey))
            && (forall k :: HasKey(d.removed, rowKey, k) <==> k in KeysOf(SetOf(previous.rows), rowKey) && k !in KeysOf(SetOf(current.rows), rowKey))
            && (forall r :: r in d.added ==> r in current.rows) && (forall r :: r in d.removed ==> r in previous.rows)
            && KeysApart(d.added, rowKey) && KeysApart(d.removed, rowKey)
  {
    DiffMembers(previous, current, rowKey);
    KeyedRowsLaws(previous.rows, rowKey);
    KeyedRowsLaws(current.rows, rowKey);
    DiffApart(previous, current, rowKey);
    var d := ResultDiff(previous, current, rowKey);
    hide KeyedRows, KeysApart, ResultDiff;
    forall k | k in KeysOf(SetOf(current.rows), rowKey) && k !in KeysOf(SetOf(previous.rows), rowKey) ensures HasKey(d.added, rowKey, k) {
      var s :| s in SetOf(current.rows) && rowKey(s) == k;
      var r :| r in KeyedRows(current.rows, rowKey) && rowKey(r) == rowKey(s);
      assert r in d.added;
    }
    forall k | k in KeysOf(SetOf(previous.rows), rowKey) && k !in KeysOf(SetOf(current.rows), rowKey) ensures HasKey(d.removed, rowKey, k) {
      var s :| s in SetOf(previous.rows) && rowKey(s) == k;
      var r :| r in KeyedRows(previous.rows, rowKey) && rowKey(r) == rowKey(s);
      assert r in d.removed;
    }
    forall k | HasKey(d.added, rowKey, k) ensures k in KeysOf(SetOf(current.rows), rowKey) && k !in KeysOf(SetOf(previous.rows), rowKey) {
      var r :| r in d.added && rowKey(r) == k;
      assert r in SetOf(current.rows);
    }
    forall k | HasKey(d.removed, rowKey, k) ensures k in KeysOf(SetOf(previous.rows), rowKey) && k !in KeysOf(SetOf(current.rows), rowKey) {
      var r :| r in d.removed && rowKey(r) == k;
      assert r in SetOf(previous.rows);
    }
  }

  lemma DiffApart(previous: QueryResult, current: QueryResult, rowKey: Value -> Text)
    ensures var d := ResultDiff(previous, current, rowKey); KeysApart(d.added, rowKey) && KeysApart(d.removed, rowKey)
  {
    var previousRows, currentRows := KeyedRows(previous.rows, rowKey), KeyedRows(current.rows, rowKey);
    KeyedApart(current.rows, rowKey, (r: Value) => !HasKey(previousRows, rowKey, rowKey(r)));
    KeyedApart(previous.rows, rowKey, (r: Value) => !HasKey(currentRows, rowKey, rowKey(r)));
  }

  lemma KeyedApart(rows: seq<Value>, rowKey: Value -> Text, p: Value -> bool)
    ensures KeysApart(Filter(KeyedRows(rows, rowKey), p), rowKey)
  {
    LastPerKeyIsLast(Ordering.Sort(rows, (r: Value, s: Value) => Less(rowKey(r), rowKey(s))), rowKey);
    FilterApart(KeyedRows(rows, rowKey), p, rowKey);
  }

  lemma {:induction false} FilterApart(s: seq<Value>, p: Value -> bool, key: Value -> Text)
    requires KeysApart(s, key)
    ensures KeysApart(Filter(s, p), key)
  {
    if s != [] {
      FilterApart(s[1..], p, key);
      FilterMembers(s[1..], p);
      forall x | x in s[1..] ensures key(x) != key(s[0]) { }
    }
  }
}
