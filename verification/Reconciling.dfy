/**
 * Reconciling one (e, a) per appended event: the sub-log it folds, and when the rows kept this way are
 * the rows of the whole log.
 */
module Reconciling {
  import opened Seqs
  import opened Text
  import opened Core
  import opened Fold
  import opened Projection

  datatype Group = Group(e: Text, a: Text)

  function AssertCoord(x: Event): Option<Group> {
    if x.body.kind == Assert && x.body.e.Some? && x.body.a.Some? then Some(Group(x.body.e.value, x.body.a.value))
    else None
  }

  predicate Names(x: Event, g: Group) { x.body.e == Some(g.e) && x.body.a == Some(g.a) }

  function ScanGroup(log: Log, g: Group): seq<Event> {
    Filter(log, (x: Event) => Names(x, g))
  }

  function ScanTarget(log: Log, target: EventId): seq<Event> {
    Filter(log, (x: Event) => x.body.target == Some(target))
  }

  /** The events naming (e, a) and the events targeting one of those, each once. */
  function EventsForCoord(log: Log, g: Group): Log {
    var asserts := ScanGroup(log, g);
    PutAll([], asserts + FlatMap(asserts, (x: Event) => ScanTarget(log, x.id)))
  }

  lemma EventsForCoordContents(log: Log, g: Group)
    requires DistinctIds(log)
    ensures DistinctIds(EventsForCoord(log, g))
    ensures forall x :: x in EventsForCoord(log, g) <==>
              x in log && (Names(x, g) || exists y :: y in log && Names(y, g) && x.body.target == Some(y.id))
  {
    var asserts := ScanGroup(log, g);
    FilterMembers(log, (x: Event) => Names(x, g));
    var scan := (x: Event) => ScanTarget(log, x.id);
    var all := asserts + FlatMap(asserts, scan);
    forall x ensures x in all <==>
        x in log && (Names(x, g) || exists y :: y in log && Names(y, g) && x.body.target == Some(y.id))
    {
      FlatMapMember(asserts, scan, x);
      forall y ensures x in scan(y) <==> x in log && x.body.target == Some(y.id) {
        FilterMember(log, (z: Event) => z.body.target == Some(y.id), x);
      }
      if y :| y in log && Names(y, g) && x.body.target == Some(y.id) {
        assert y in asserts;
        var i :| 0 <= i < |asserts| && asserts[i] == y;
        assert x in log ==> x in scan(asserts[i]);
      }
    }
    DistinctIdsSameContent(log);
    assert SetOf(all) <= SetOf(log);
    PutAllContents([], all);
    assert SetOf<Event>([]) + SetOf(all) == SetOf(all);
    var r := EventsForCoord(log, g);
    assert forall x :: x in r <==> x in SetOf(r);
  }

  /** The same, spelt out. */
  lemma SubLogIs(log: Log, e: Text, a: Text, x: Event)
    requires DistinctIds(log)
    ensures x in EventsForCoord(log, Group(e, a)) <==>
              x in log && ((x.body.e == Some(e) && x.body.a == Some(a)) ||
                           exists y :: y in log && y.body.e == Some(e) && y.body.a == Some(a) && x.body.target == Some(y.id))
  {
    EventsForCoordContents(log, Group(e, a));
    hide EventsForCoord, DistinctIds;
    forall y ensures Names(y, Group(e, a)) <==> y.body.e == Some(e) && y.body.a == Some(a) {
    }
  }

  ghost predicate InGroupOf(x: Event, g: Group) { IsAssertWithValue(x) && Names(x, g) }

  /** At most one event is a candidate for the rows of (e, a), so that its cardinality does not matter. */
  ghost predicate Few(log: Log, g: Group, c: Coord) {
    forall x, y :: InGroupOf(x, g) && x in log && Candidate(x, c, log) && InGroupOf(y, g) && y in log && Candidate(y, c, log) ==> x == y
  }

  ghost predicate SameOrFew(log1: Log, log2: Log, g: Group, c: Coord, card: CardinalityOf) {
    card(g.a, c, log1) == card(g.a, c, log2) || Few(log2, g, c)
  }

  /** The logs hold the same asserts at (e, a), each with the same lifecycle. */
  ghost predicate SameGroupHistory(log1: Log, log2: Log, g: Group, txTime: int) {
    && (forall x :: InGroupOf(x, g) ==> (x in log1 <==> x in log2))
    && (forall x :: InGroupOf(x, g) && x in log1 ==> SameLifecycle(x.id, txTime, log1, log2))
  }

  lemma SameCandidates(log1: Log, log2: Log, g: Group, c: Coord)
    requires SameGroupHistory(log1, log2, g, c.txTime)
    ensures forall x :: InGroupOf(x, g) ==> (x in log1 && Candidate(x, c, log1) <==> x in log2 && Candidate(x, c, log2))
  {
    forall x | InGroupOf(x, g) && x in log1 ensures Candidate(x, c, log1) <==> Candidate(x, c, log2) {
      VisibleFromLifecycle(x, c, log1, log2, NO_FLAGS);
    }
  }

  /** If its cardinality comes out the same too, two logs with the same history of (e, a) give it the same rows. */
  lemma SameGroupSameRows(log1: Log, log2: Log, g: Group, c: Coord, card: CardinalityOf)
    requires SameGroupHistory(log1, log2, g, c.txTime) && card(g.a, c, log1) == card(g.a, c, log2)
    ensures RowsAt(FoldRows(log1, c, card), g.e, g.a) == RowsAt(FoldRows(log2, c, card), g.e, g.a)
  {
    SameCandidates(log1, log2, g, c);
    forall x | InGroupOf(x, g) && x in log1 ensures Survives(x, c, log1, card) <==> Survives(x, c, log2, card) {
      assert forall y :: IsAssertWithValue(y) && SameGroup(x, y) ==> InGroupOf(y, g);
    }
    forall r ensures r in RowsAt(FoldRows(log1, c, card), g.e, g.a) <==> r in RowsAt(FoldRows(log2, c, card), g.e, g.a) {
      if r in RowsAt(FoldRows(log1, c, card), g.e, g.a) {
        var x :| x in log1 && Survives(x, c, log1, card) && ProjectionRow(x) == r;
        assert InGroupOf(x, g);
      }
      if r in RowsAt(FoldRows(log2, c, card), g.e, g.a) {
        var x :| x in log2 && Survives(x, c, log2, card) && ProjectionRow(x) == r;
        assert InGroupOf(x, g);
      }
    }
  }

  /** With one candidate at most, each cardinality gives the same rows. */
  lemma FewRows(log1: Log, log2: Log, g: Group, c: Coord, card: CardinalityOf)
    requires SameGroupHistory(log1, log2, g, c.txTime) && Few(log2, g, c)
    ensures RowsAt(FoldRows(log1, c, card), g.e, g.a) <= RowsAt(FoldRows(log2, c, card), g.e, g.a)
    ensures RowsAt(FoldRows(log2, c, card), g.e, g.a) <= RowsAt(FoldRows(log1, c, card), g.e, g.a)
  {
    SameCandidates(log1, log2, g, c);
    forall x | InGroupOf(x, g) && x in log2 && Candidate(x, c, log2)
      ensures Survives(x, c, log1, card) && Survives(x, c, log2, card)
    {
      PrecedesStrictTotal(x, x, x);
    }
    forall r | r in RowsAt(FoldRows(log1, c, card), g.e, g.a) ensures r in FoldRows(log2, c, card) {
      var x :| x in log1 && Survives(x, c, log1, card) && ProjectionRow(x) == r;
      assert InGroupOf(x, g);
    }
    forall r | r in RowsAt(FoldRows(log2, c, card), g.e, g.a) ensures r in FoldRows(log1, c, card) {
      var x :| x in log2 && Survives(x, c, log2, card) && ProjectionRow(x) == r;
      assert InGroupOf(x, g);
    }
  }

  /** Of two candidates the earlier has a row under cardinality many and none under cardinality one. */
  lemma EarlierHasNoRow(one: Log, many: Log, g: Group, c: Coord, card: CardinalityOf, x: Event, y: Event)
    requires DistinctIds(one) && SameGroupHistory(one, many, g, c.txTime)
    requires card(g.a, c, one) == One && card(g.a, c, many) == Many
    requires InGroupOf(x, g) && x in one && Candidate(x, c, one) && InGroupOf(y, g) && y in one && Candidate(y, c, one)
    requires Precedes(x, y)
    ensures ProjectionRow(x) in RowsAt(FoldRows(many, c, card), g.e, g.a) && ProjectionRow(x) !in FoldRows(one, c, card)
  {
    SameCandidates(one, many, g, c);
    hide SameGroupHistory, Visible, Precedes;
    assert Survives(x, c, many, card);
    assert !Survives(x, c, one, card) by { assert SameGroup(x, y); }
  }

  lemma CardinalityMatters(log1: Log, log2: Log, g: Group, c: Coord, card: CardinalityOf)
    requires DistinctIds(log1) && DistinctIds(log2) && SameGroupHistory(log1, log2, g, c.txTime)
    requires card(g.a, c, log1) != card(g.a, c, log2) && !Few(log2, g, c)
    ensures RowsAt(FoldRows(log1, c, card), g.e, g.a) != RowsAt(FoldRows(log2, c, card), g.e, g.a)
  {
    SameCandidates(log1, log2, g, c);
    hide Candidate, SameGroupHistory;
    var x, y :| InGroupOf(x, g) && x in log2 && Candidate(x, c, log2) && InGroupOf(y, g) && y in log2 && Candidate(y, c, log2) && x != y;
    DistinctIdsSameContent(log2);
    assert x in SetOf(log2) && y in SetOf(log2);
    PrecedesStrictTotal(x, y, x);
    hide Precedes;
    var p, q := if Precedes(x, y) then x else y, if Precedes(x, y) then y else x;
    if card(g.a, c, log1) == One {
      EarlierHasNoRow(log1, log2, g, c, card, p, q);
    } else {
      SwapHistory(log1, log2, g, c.txTime);
      EarlierHasNoRow(log2, log1, g, c, card, p, q);
    }
  }

  lemma SwapHistory(log1: Log, log2: Log, g: Group, txTime: int)
    requires SameGroupHistory(log1, log2, g, txTime)
    ensures SameGroupHistory(log2, log1, g, txTime)
  {
  }

  /** Exactly when two logs with the same history of (e, a) give it the same rows. */
  lemma SameRowsIff(log1: Log, log2: Log, g: Group, c: Coord, card: CardinalityOf)
    requires DistinctIds(log1) && DistinctIds(log2) && SameGroupHistory(log1, log2, g, c.txTime)
    ensures RowsAt(FoldRows(log1, c, card), g.e, g.a) == RowsAt(FoldRows(log2, c, card), g.e, g.a) <==> SameOrFew(log1, log2, g, c, card)
  {
    if card(g.a, c, log1) == card(g.a, c, log2) {
      SameGroupSameRows(log1, log2, g, c, card);
    } else if Few(log2, g, c) {
      FewRows(log1, log2, g, c, card);
    } else {
      CardinalityMatters(log1, log2, g, c, card);
    }
  }

  /** The (e, a) an appended event can affect: its own, or that of the assert it targets. */
  ghost function Touched(log: Log, x: Event): Option<Group> {
    if AssertCoord(x).Some? then AssertCoord(x)
    else if exists t :: t in log && Some(t.id) == x.body.target then
      var t :| t in log && Some(t.id) == x.body.target;
      AssertCoord(t)
    else None
  }

  /** What reconciling one event makes of the rows. */
  ghost function Reconciled(rows: set<Row>, log: Log, x: Event, c: Coord, card: CardinalityOf): set<Row> {
    match Touched(log, x)
    case None => rows
    case Some(g) =>
      (rows - RowsAt(rows, g.e, g.a)) + RowsAt(FoldRows(EventsForCoord(log, g), c, card), g.e, g.a)
  }

  /** The log that a group's rows come from after an append: its sub-log if touched, else the log before. */
  ghost function SourceLog(before: Log, after: Log, x: Event, g: Group): Log {
    if Touched(after, x) == Some(g) then EventsForCoord(after, g) else before
  }

  lemma SourceHasHistory(before: Log, after: Log, x: Event, g: Group, txTime: int)
    requires DistinctIds(before) && DistinctIds(after) && SetOf(after) == SetOf(before) + {x}
    ensures DistinctIds(SourceLog(before, after, x, g)) && SameGroupHistory(SourceLog(before, after, x, g), after, g, txTime)
  {
    if Touched(after, x) == Some(g) {
      EventsForCoordContents(after, g);
    } else {
      assert forall y :: y in after <==> y in SetOf(after);
      assert forall y :: y in before <==> y in SetOf(before);
      DistinctIdsSameContent(after);
      forall y | InGroupOf(y, g) && y in before && AssertCoord(x).None? ensures x.body.target != Some(y.id) {
        assert y in SetOf(after);
        assert x.body.target == Some(y.id) ==> Touched(after, x) == AssertCoord(y);
      }
    }
  }

  /** Row sets are equal when they are at every (e, a). */
  lemma GroupByGroup(rows1: set<Row>, rows2: set<Row>)
    requires forall g: Group :: RowsAt(rows1, g.e, g.a) == RowsAt(rows2, g.e, g.a)
    ensures rows1 == rows2
  {
    forall r: Row ensures r in rows1 <==> r in rows2 {
      var g := Group(r.e, r.a);
      assert r in rows1 <==> r in RowsAt(rows1, g.e, g.a);
      assert r in rows2 <==> r in RowsAt(rows2, g.e, g.a);
    }
  }

  /**
   * One reconciled append keeps the rows the fold of the log if and only if, for every (e, a), either
   * its cardinality comes out the same from the log its rows were folded from as from the whole log, or
   * it has no more than one candidate.
   */
  lemma ReconcileKeepsFoldIff(before: Log, after: Log, x: Event, c: Coord, card: CardinalityOf)
    requires DistinctIds(before) && DistinctIds(after) && SetOf(after) == SetOf(before) + {x}
    ensures Reconciled(FoldRows(before, c, card), after, x, c, card) == FoldRows(after, c, card) <==>
            forall g :: SameOrFew(SourceLog(before, after, x, g), after, g, c, card)
  {
    var result, next := Reconciled(FoldRows(before, c, card), after, x, c, card), FoldRows(after, c, card);
    forall g: Group
      ensures RowsAt(result, g.e, g.a) == RowsAt(next, g.e, g.a) <==> SameOrFew(SourceLog(before, after, x, g), after, g, c, card)
    {
      SourceHasHistory(before, after, x, g, c.txTime);
      SameRowsIff(SourceLog(before, after, x, g), after, g, c, card);
    }
    if forall g :: SameOrFew(SourceLog(before, after, x, g), after, g, c, card) {
      GroupByGroup(result, next);
    }
  }

  /** Cardinality does not depend on which log it is asked against. */
  ghost predicate LogIndependent(card: CardinalityOf) {
    forall a: Text, c: Coord, log1: Log, log2: Log :: card(a, c, log1) == card(a, c, log2)
  }

  /** Rows that were the fold before an append are the fold again after reconciling that one event. */
  lemma ReconcileKeepsFold(before: Log, after: Log, x: Event, c: Coord, card: CardinalityOf)
    requires DistinctIds(before) && DistinctIds(after) && SetOf(after) == SetOf(before) + {x} && LogIndependent(card)
    ensures Reconciled(FoldRows(before, c, card), after, x, c, card) == FoldRows(after, c, card)
  {
    forall g ensures SameOrFew(SourceLog(before, after, x, g), after, g, c, card) {
      assert card(g.a, c, SourceLog(before, after, x, g)) == card(g.a, c, after);
    }
    ReconcileKeepsFoldIff(before, after, x, c, card);
  }

  /** The event table and the rows after appending and reconciling `events` in turn. */
  ghost function RunIncrementally(log: Log, rows: set<Row>, events: seq<Event>, c: Coord, card: CardinalityOf): (Log, set<Row>) {
    if events == [] then (log, rows)
    else
      var (log', rows') := RunIncrementally(log, rows, events[..|events| - 1], c, card);
      var x := events[|events| - 1];
      var log'' := Put(log', x);
      (log'', Reconciled(rows', log'', x, c, card))
  }

  /**
   * Incremental equals rebuild: whatever is appended and in whatever order, lifecycle events ahead of
   * the assert they target included, the rows kept group by group are those of the whole log.
   */
  lemma {:induction false} IncrementalEqualsRebuild(log: Log, events: seq<Event>, c: Coord, card: CardinalityOf)
    requires DistinctIds(log) && SameContent(SetOf(log) + SetOf(events)) && LogIndependent(card)
    ensures var (log', rows') := RunIncrementally(log, FoldRows(log, c, card), events, c, card);
            log' == PutAll(log, events) && rows' == FoldRows(log', c, card) && AllCarried(rows', log', c)
  {
    FoldRowsCarry(PutAll(log, events), c, card);
    hide AllCarried, FoldRows, Reconciled, LogIndependent;
    if events != [] {
      var init, x := events[..|events| - 1], events[|events| - 1];
      assert events == init + [x];
      assert SetOf(init) <= SetOf(events) && x in SetOf(events);
      IncrementalEqualsRebuild(log, init, c, card);
      PutAllContents(log, init);
      PutAllContents(log, events);
      assert SetOf(events) == SetOf(init) + {x};
      ReconcileKeepsFold(PutAll(log, init), PutAll(log, events), x, c, card);
    }
  }

  // ---- cardinality kept in the log itself ----------------------------------------------

  const WRITER := Body(Assert, Lit("writer"), System, Hlc(0, 0, Lit("r")), None, None, None, None, Absent, None, None, None)

  function Asserted(id: CodeUnit, e: Text, a: Text, v: Value): Event {
    Event([id], WRITER.(e := Some(e), a := Some(a), v := Some(v)))
  }

  lemma AllShow(log: Log, c: Coord)
    requires (forall y :: y in log ==> y.body.kind == Assert && y.body.hlc.pt <= c.txTime && y.body.validFrom.None? && y.body.validTo == Absent)
    ensures forall y :: y in log ==> Visible(y, c, log, NO_FLAGS)
  {
    forall y | y in log ensures Visible(y, c, log, NO_FLAGS) {
      FilterNone(log, (x: Event) => ActsOn(x, Retract, y.id, c.txTime));
      FilterNone(log, (x: Event) => ActsOn(x, Tombstone, y.id, c.txTime));
    }
  }

  const E0 := Lit("e")
  const A0 := Lit("a")
  const G0 := Group(E0, A0)
  const SCHEMA := Asserted(1, AttrId(A0), Lit("cardinality"), Str(Lit("one")))
  const X1 := Asserted(2, E0, A0, Null)
  const X2 := Asserted(3, E0, A0, Bool(true))
  const BEFORE: Log := [SCHEMA, X1]
  const AFTER: Log := [SCHEMA, X1, X2]
  const NOW := Coord(0, 0)

  lemma ThreeEvents()
    ensures DistinctIds(BEFORE) && DistinctIds(AFTER) && AFTER == Put(BEFORE, X2) && SetOf(AFTER) == SetOf(BEFORE) + {X2}
    ensures Touched(AFTER, X2) == Some(G0) && InGroupOf(X1, G0) && InGroupOf(X2, G0)
    ensures Asserts(SCHEMA, AttrId(A0), Lit("cardinality")) && !Names(SCHEMA, G0) && SCHEMA.body.target == None
  {
    assert |AttrId(A0)| == 6 && |E0| == 1;
    assert SCHEMA.id == [1] && X1.id == [2] && X2.id == [3];
    PutFresh(BEFORE, X2);
  }

  /** The cardinality a log declares, told from the schema facts it shows. */
  lemma DeclaredCardinality(log: Log)
    ensures var shown := VisibleAsserts(AttrId(A0), Lit("cardinality"), NOW, log, NO_FLAGS);
            && (shown == [] ==> CardinalityFromLog(map[])(A0, NOW, log) == Many)
            && (shown != [] && (forall y :: y in shown ==> y == SCHEMA) ==> CardinalityFromLog(map[])(A0, NOW, log) == One)
  {
    hide VisibleAsserts;
  }

  lemma SubLogSaysMany()
    ensures CardinalityFromLog(map[])(A0, NOW, EventsForCoord(AFTER, G0)) == Many
  {
    ThreeEvents();
    DeclaredCardinality(EventsForCoord(AFTER, G0));
    hide CardinalityFromLog;
    var sub := EventsForCoord(AFTER, G0);
    EventsForCoordContents(AFTER, G0);
    assert SCHEMA !in sub;
    forall y | y in sub ensures !Asserts(y, AttrId(A0), Lit("cardinality")) {
    }
    FilterNone(sub, (x: Event) => Asserts(x, AttrId(A0), Lit("cardinality")) && Visible(x, NOW, sub, NO_FLAGS));
  }

  lemma LogSaysOne()
    ensures CardinalityFromLog(map[])(A0, NOW, AFTER) == One
  {
    ThreeEvents();
    AllShow(AFTER, NOW);
    DeclaredCardinality(AFTER);
    hide CardinalityFromLog;
    var shown := VisibleAsserts(AttrId(A0), Lit("cardinality"), NOW, AFTER, NO_FLAGS);
    VisibleAssertsMembers(AttrId(A0), Lit("cardinality"), NOW, AFTER, NO_FLAGS);
    forall y ensures y in shown <==> y == SCHEMA {
    }
  }

  lemma TwoCandidates()
    ensures !Few(AFTER, G0, NOW)
  {
    ThreeEvents();
    AllShow(AFTER, NOW);
    hide Visible;
    assert X1 in AFTER && X2 in AFTER && Candidate(X1, NOW, AFTER) && Candidate(X2, NOW, AFTER);
  }

  /**
   * With cardinality read from the log the condition can fail: the schema's fact is not in the sub-log
   * of (e, a), so reconciling takes a cardinality-one attribute for a cardinality-many one.
   */
  lemma SchemaIsOutsideSubLog()
    ensures exists before: Log, x: Event, c: Coord ::
              DistinctIds(before) &&
              Reconciled(FoldRows(before, c, CardinalityFromLog(map[])), Put(before, x), x, c, CardinalityFromLog(map[]))
              != FoldRows(Put(before, x), c, CardinalityFromLog(map[]))
  {
    var card := CardinalityFromLog(map[]);
    ThreeEvents();
    SubLogSaysMany();
    LogSaysOne();
    TwoCandidates();
    assert !SameOrFew(SourceLog(BEFORE, AFTER, X2, G0), AFTER, G0, NOW, card);
    ReconcileKeepsFoldIff(BEFORE, AFTER, X2, NOW, card);
  }
}
