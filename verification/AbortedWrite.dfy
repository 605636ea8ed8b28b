/**
 * A write that fails part of the way: its first events are stored and their rows kept, but nothing is
 * published. Exactly when no covered subscription goes stale, and a write on which one does.
 */
module AbortedWrite {
  import opened Seqs
  import opened Text
  import opened Core
  import opened Fold
  import opened Projection
  import opened EventTable
  import opened Reconciling
  import opened SqliteCurrent
  import opened LiveDependencies
  import opened LiveQuery

  type Answers = (Query, seq<set<Row>>) -> Option<QueryResult>

  /** The subscriptions as they are, results aside. */
  ghost predicate SameShape(subs: Subs, subs': Subs) {
    subs'.Keys == subs.Keys && forall id :: id in subs ==> subs'[id].(lastResult := subs[id].lastResult) == subs[id]
  }

  /** Whatever queries evaluate to, subscriptions that were right before the change are right after it. */
  ghost predicate StayRight(connections: set<Text>, subs: Subs, before: set<Row>, after: set<Row>, valueKey: Value -> Text, rowKey: Value -> Text) {
    forall answer: Answers, subs': Subs, views: Views ::
      SameShape(subs, subs') && LiveState(Engine(answer, valueKey, rowKey), connections, subs', views, before) ==>
        LiveState(Engine(answer, valueKey, rowKey), connections, subs', views, after)
  }

  /** An evaluation that tells one reading from every other. */
  function Telling(seen: seq<set<Row>>): Answers {
    (q: Query, r: seq<set<Row>>) => Some(QueryResult(if r == seen then [] else [Null], []))
  }

  function Answered(answer: Answers, subs: Subs, rows: set<Row>, valueKey: Value -> Text): Subs {
    map id | id in subs ::
      var a := answer(subs[id].query, Reads(subs[id].query, rows, valueKey));
      if a.Some? then subs[id].(lastResult := a.value) else subs[id]
  }

  ghost predicate Attached(connections: set<Text>, subs: Subs) {
    forall id {:trigger subs[id]} :: id in subs ==> subs[id].conn in connections && subs[id].deps == Dependencies(subs[id].query)
  }

  lemma TellingIsLive(connections: set<Text>, subs: Subs, seen: seq<set<Row>>, rows: set<Row>, valueKey: Value -> Text, rowKey: Value -> Text)
    returns (subs': Subs, views: Views)
    requires Attached(connections, subs)
    ensures subs' == Answered(Telling(seen), subs, rows, valueKey) && SameShape(subs, subs')
    ensures LiveState(Engine(Telling(seen), valueKey, rowKey), connections, subs', views, rows)
  {
    subs' := Answered(Telling(seen), subs, rows, valueKey);
    views := map id | id in subs' :: RowSet(subs'[id].lastResult.rows);
    var engine := Engine(Telling(seen), valueKey, rowKey);
    forall id | id in subs'
      ensures subs'[id].conn in connections && subs'[id].deps == Dependencies(subs'[id].query)
      ensures FreshSub(engine, subs'[id], rows) && InStep(engine, subs'[id], views[id])
    {
      assert subs'[id].query == subs[id].query;
      assert Evaluate(engine, subs'[id].query, rows) == Telling(seen)(subs[id].query, Reads(subs[id].query, rows, valueKey));
      NewSub(engine, subs'[id], rows);
    }
  }

  lemma TouchedGoesStale(connections: set<Text>, subs: Subs, before: set<Row>, after: set<Row>, valueKey: Value -> Text, rowKey: Value -> Text, id: Text)
    requires Attached(connections, subs) && id in subs && Covers(subs[id].deps, subs[id].query, valueKey)
    requires !Untouched(subs[id].query, before, after, valueKey)
    ensures exists subs': Subs, views: Views ::
              var engine := Engine(Telling(Reads(subs[id].query, before, valueKey)), valueKey, rowKey);
              SameShape(subs, subs') && LiveState(engine, connections, subs', views, before) &&
              !LiveState(engine, connections, subs', views, after)
  {
    var q := subs[id].query;
    var seen := Reads(q, before, valueKey);
    var engine := Engine(Telling(seen), valueKey, rowKey);
    UntouchedIff(q, before, after, valueKey);
    var subs', views := TellingIsLive(connections, subs, seen, before, valueKey, rowKey);
    assert subs'[id].query == q && subs'[id].deps == subs[id].deps && subs'[id].lastResult == QueryResult([], []);
    assert Evaluate(engine, q, after) == Some(QueryResult([Null], []));
    assert !FreshSub(engine, subs'[id], after);
  }

  /**
   * With nothing published, all covered subscriptions stay right for every evaluation if and only if the
   * stored events change no row that the patterns of a covered, connected subscription match.
   */
  lemma UnpublishedChangeIff(connections: set<Text>, subs: Subs, before: set<Row>, after: set<Row>, valueKey: Value -> Text, rowKey: Value -> Text)
    requires Attached(connections, subs)
    ensures StayRight(connections, subs, before, after, valueKey, rowKey) <==> CoveredUntouched(subs, before, after, valueKey)
  {
    if CoveredUntouched(subs, before, after, valueKey) {
      forall answer: Answers, subs': Subs, views: Views |
        SameShape(subs, subs') && LiveState(Engine(answer, valueKey, rowKey), connections, subs', views, before)
        ensures LiveState(Engine(answer, valueKey, rowKey), connections, subs', views, after)
      {
        forall id | id in subs' && Covers(subs'[id].deps, subs'[id].query, valueKey) ensures Untouched(subs'[id].query, before, after, valueKey) {
          assert subs'[id].query == subs[id].query && subs'[id].deps == subs[id].deps;
        }
        UntouchedStaysLive(Engine(answer, valueKey, rowKey), connections, subs', views, before, after);
      }
    } else {
      var id :| id in subs && Covers(subs[id].deps, subs[id].query, valueKey) && !Untouched(subs[id].query, before, after, valueKey);
      hide Covers, Untouched, LiveState, SameShape;
      TouchedGoesStale(connections, subs, before, after, valueKey, rowKey, id);
    }
  }

  // ---- a write that leaves a subscription stale ------------------------------------------

  const E0 := Lit("subject")
  const A0 := Lit("answer")
  const FIRST: Event := Event(
    Lit("id"), Body(Assert, Lit("writer"), Human, Hlc(0, 0, Lit("r")), Some(E0), Some(A0), Some(Null), Some(0), Open, None, Some([]), None))
  /** The second assertion's value has no encoding, so that its event cannot be built. */
  const SUBMISSION: seq<Attempt> := [Built(FIRST), Unbuildable]
  const WATCHING := Query([Plain(Has(Pattern(Const(Str(E0)), Const(Str(A0)), Var(Lit("v")))))], [])
  const NOW := Coord(0, 0)

  function AnyBody(): Body -> EventId { (b: Body) => Lit("id") }

  function ManyValued(): CardinalityOf { (a: Text, c: Coord, log: Log) => Many }

  lemma FirstIsStored()
    ensures TakenPrefix(SUBMISSION, AnyBody()) == [FIRST] && !AllTaken(SUBMISSION, AnyBody())
    ensures PutAll([], [FIRST]) == [FIRST]
  {
    assert Taken(SUBMISSION[0], AnyBody()) && !Taken(SUBMISSION[1], AnyBody());
    FromDistinctEvents([FIRST]);
  }

  lemma RowsOfFirst()
    ensures FoldRows([], NOW, ManyValued()) == {}
    ensures FoldRows([FIRST], NOW, ManyValued()) == {ProjectionRow(FIRST)}
  {
    FilterNone([FIRST], (x: Event) => ActsOn(x, Retract, FIRST.id, 0));
    FilterNone([FIRST], (x: Event) => ActsOn(x, Tombstone, FIRST.id, 0));
    assert Visible(FIRST, NOW, [FIRST], NO_FLAGS);
    assert Survives(FIRST, NOW, [FIRST], ManyValued());
  }

  lemma WatchingIsCovered(valueKey: Value -> Text)
    ensures PatternsOf(WATCHING) == [WATCHING.where[0].goal.p] && Covers(Dependencies(WATCHING), WATCHING, valueKey)
  {
    var p := WATCHING.where[0].goal.p;
    assert WATCHING.where[1..] == [] && ClausePatterns(WATCHING.where[0]) == [p];
    assert FlatMap(WATCHING.where, ClausePatterns) == [p] + FlatMap(WATCHING.where[1..], ClausePatterns);
    AppendNil([p]);
    assert |E0| == 7 && |A0| == 6 && E0[0] == 115 && A0[0] == 97 && STAR == Lit("*") && |STAR| == 1;
    assert NoNul(E0) && NoNul(A0);
    PlainCoversIff(WATCHING, valueKey);
  }

  /**
   * A submission of two assertions whose second cannot be built stores the first and publishes nothing:
   * a covered subscription that watches the first assertion's (e, a) is stale although no query failed.
   */
  lemma AbortedSubmissionGoesStale(valueKey: Value -> Text, rowKey: Value -> Text)
    ensures exists answer: Answers, subs: Subs, views: Views ::
              var engine, address, card := Engine(answer, valueKey, rowKey), AnyBody(), ManyValued();
              && !AllTaken(SUBMISSION, address)
              && (forall id :: id in subs ==> Covers(subs[id].deps, subs[id].query, valueKey))
              && LiveState(engine, {[]}, subs, views, FoldRows([], NOW, card))
              && !LiveState(engine, {[]}, subs, views, FoldRows(PutAll([], TakenPrefix(SUBMISSION, address)), NOW, card))
  {
    FirstIsStored();
    RowsOfFirst();
    WatchingIsCovered(valueKey);
    hide FoldRows, Covers, Dependencies, LiveState, TakenPrefix, PutAll;
    var subs: Subs := map[[] := Sub([], WATCHING, Dependencies(WATCHING), QueryResult([], []))];
    var r := ProjectionRow(FIRST);
    assert MatchesRow(PatternsOf(WATCHING)[0], r, valueKey);
    assert r in MatchingRows(PatternsOf(WATCHING)[0], {r}, valueKey);
    assert PatternsOf(WATCHING)[0] in PatternsOf(WATCHING);
    assert !Untouched(WATCHING, {}, {r}, valueKey);
    TouchedGoesStale({[]}, subs, {}, {r}, valueKey, rowKey, []);
  }
}
