/** Materialised current rows: the shared row builder over a log. */
module Projection {
  import opened Seqs
  import opened Text
  import opened Core
  import opened Fold
  import Ordering

  datatype Row = Row(
    id: Text, e: Text, a: Text, v: Value, eventId: EventId,
    validFrom: Option<int>, validTo: Until, sourceEventIds: seq<EventId>)

  predicate IsAssertWithValue(x: Event) {
    x.body.kind == Assert && x.body.e.Some? && x.body.a.Some? && x.body.v.Some?
  }

  function RowId(x: Event): Text
    requires IsAssertWithValue(x)
  {
    Join(x.body.e.value, Join(x.body.a.value, x.id))
  }

  function ProjectionRow(x: Event): Row
    requires IsAssertWithValue(x)
  {
    Row(RowId(x), x.body.e.value, x.body.a.value, x.body.v.value, x.id, x.body.validFrom, x.body.validTo, [x.id])
  }

  /** Entity and attribute names are joined into map keys and row ids, so they must hold no NUL. */
  ghost predicate CleanKeys(events: set<Event>) {
    forall x :: x in events && IsAssertWithValue(x) ==> NoNul(x.body.e.value) && NoNul(x.body.a.value)
  }

  lemma RowIdInjective(x: Event, y: Event)
    requires IsAssertWithValue(x) && IsAssertWithValue(y) && CleanKeys({x, y})
    requires RowId(x) == RowId(y)
    ensures x.id == y.id && x.body.e == y.body.e && x.body.a == y.body.a
  {
    JoinInjective(x.body.e.value, Join(x.body.a.value, x.id), y.body.e.value, Join(y.body.a.value, y.id));
    JoinInjective(x.body.a.value, x.id, y.body.a.value, y.id);
  }

  // ---- what the rows should be ---------------------------------------------------

  predicate Candidate(x: Event, c: Coord, log: Log) {
    IsAssertWithValue(x) && Visible(x, c, log, NO_FLAGS)
  }

  predicate SameGroup(x: Event, y: Event) { x.body.e == y.body.e && x.body.a == y.body.a }

  /** A candidate has a row unless its attribute is cardinality-one and a ≺-later candidate exists. */
  ghost predicate Survives(x: Event, c: Coord, log: Log, card: CardinalityOf) {
    && x in log && Candidate(x, c, log)
    && (card(x.body.a.value, c, log) == One ==>
          forall y :: y in log && Candidate(y, c, log) && SameGroup(x, y) ==> !Precedes(x, y))
  }

  /** The rows a log folds to, as a set. */
  ghost function FoldRows(log: Log, c: Coord, card: CardinalityOf): set<Row> {
    set x | x in log && Survives(x, c, log, card) :: ProjectionRow(x)
  }

  /** The part of those rows whose group keys lie in `keys`. */
  ghost function RowsOfKeys(log: Log, c: Coord, card: CardinalityOf, keys: set<Text>): set<Row> {
    set x | x in log && Survives(x, c, log, card) && GroupKey(x) in keys :: ProjectionRow(x)
  }

  ghost predicate DistinctEvents(rows: seq<Row>) {
    forall i, j :: 0 <= i < j < |rows| ==> rows[i].eventId != rows[j].eventId
  }

  ghost function RowsAt(rows: set<Row>, e: Text, a: Text): set<Row> {
    set r | r in rows && r.e == e && r.a == a
  }

  /** The events of the core fold's answer at (e, a). */
  ghost function AnswerEvents(e: Text, a: Text, c: Coord, log: Log, card: CardinalityOf): (r: set<Event>)
    ensures forall x :: x in r ==> x in log && Asserts(x, e, a) && Visible(x, c, log, NO_FLAGS)
  {
    VisibleAssertsMembers(e, a, c, log, NO_FLAGS);
    match ValueAt(e, a, c, log, card(a, c, log), NO_FLAGS)
    case Single(w) => if w.Some? then {w.value} else {}
    case Several(s) => SetOf(s)
  }

  lemma AnswerSurvives(x: Event, e: Text, a: Text, c: Coord, log: Log, card: CardinalityOf)
    requires x in AnswerEvents(e, a, c, log, card) && x.body.v.Some?
    ensures Survives(x, c, log, card) && ProjectionRow(x) in RowsAt(FoldRows(log, c, card), e, a)
  {
    var vis := VisibleAsserts(e, a, c, log, NO_FLAGS);
    VisibleAssertsMembers(e, a, c, log, NO_FLAGS);
    forall y | y in log && Candidate(y, c, log) && SameGroup(x, y) && card(a, c, log) == One
      ensures !Precedes(x, y)
    {
      MaxOfIsMaximal(vis, y);
    }
  }

  lemma SurvivorAnswers(x: Event, e: Text, a: Text, c: Coord, log: Log, card: CardinalityOf)
    requires DistinctIds(log) && Asserts(x, e, a) && Survives(x, c, log, card)
    requires forall w :: w in AnswerEvents(e, a, c, log, card) ==> w.body.v.Some?
    ensures x in AnswerEvents(e, a, c, log, card)
  {
    var vis := VisibleAsserts(e, a, c, log, NO_FLAGS);
    VisibleAssertsMembers(e, a, c, log, NO_FLAGS);
    assert x in vis;
    if card(a, c, log) == One {
      MaxOfIsMaximal(vis, x);
      var w := MaxOf(vis).value;
      assert w in AnswerEvents(e, a, c, log, card);
      PrecedesStrictTotal(x, w, x);
      DistinctIdsSameContent(log);
      assert x in SetOf(log) && w in SetOf(log);
    }
  }

  /**
   * The rows of one (e, a) stand for exactly the events of the core fold's answer there, if and only
   * if each of those events carries a value: the row builder skips asserts without one, the core fold
   * does not.
   */
  lemma RowsMatchCoreValue(e: Text, a: Text, c: Coord, log: Log, card: CardinalityOf)
    requires DistinctIds(log)
    ensures var answer := AnswerEvents(e, a, c, log, card);
            (set r | r in RowsAt(FoldRows(log, c, card), e, a) :: r.eventId) == (set x | x in answer :: x.id)
            <==> forall x :: x in answer ==> x.body.v.Some?
  {
    var answer := AnswerEvents(e, a, c, log, card);
    var rows := RowsAt(FoldRows(log, c, card), e, a);
    var ids, wanted := (set r | r in rows :: r.eventId), (set x | x in answer :: x.id);
    forall r | r in rows
      ensures exists x :: x in log && Survives(x, c, log, card) && ProjectionRow(x) == r
    {
    }
    if x :| x in answer && x.body.v.None? {
      DistinctIdsSameContent(log);
      assert x in SetOf(log);
      forall r | r in rows ensures r.eventId != x.id {
        var y :| y in log && Survives(y, c, log, card) && ProjectionRow(y) == r;
        assert y in SetOf(log);
      }
      assert x.id !in ids && x.id in wanted;
    } else {
      forall x | x in answer ensures x.id in ids {
        AnswerSurvives(x, e, a, c, log, card);
        assert ProjectionRow(x).eventId in ids;
      }
      forall r | r in rows ensures r.eventId in wanted {
        var x :| x in log && Survives(x, c, log, card) && ProjectionRow(x) == r;
        SurvivorAnswers(x, e, a, c, log, card);
      }
      assert ids == wanted;
    }
  }

  /** An assert of nothing, which an event may be: the fold answers with it, and it has no row. */
  const VALUELESS := Event([120], Body(Assert, [], Human, Hlc(0, 0, []), Some([101]), Some([97]), None, None, Absent, None, None, None))

  lemma ValuelessHasNoRow(card: CardinalityOf)
    ensures var log, c := [VALUELESS], Coord(0, 0);
            DistinctIds(log) && AnswerEvents([101], [97], c, log, card) == {VALUELESS} && RowsAt(FoldRows(log, c, card), [101], [97]) == {}
  {
    var log, c := [VALUELESS], Coord(0, 0);
    FilterNone(log, (x: Event) => ActsOn(x, Retract, VALUELESS.id, 0));
    FilterNone(log, (x: Event) => ActsOn(x, Tombstone, VALUELESS.id, 0));
    assert Visible(VALUELESS, c, log, NO_FLAGS);
    var vis := VisibleAsserts([101], [97], c, log, NO_FLAGS);
    VisibleAssertsMembers([101], [97], c, log, NO_FLAGS);
    hide Visible, VisibleAsserts;
    assert VALUELESS in log;
    assert VALUELESS in vis && forall x :: x in vis ==> x == VALUELESS;
  }

  // ---- what a row carries --------------------------------------------------------------

  /** The row is of the event: its entity, attribute, value, interval and id, under the three names joined with NUL. */
  ghost predicate Carries(r: Row, x: Event) {
    && x.body.kind == Assert && r.eventId == x.id
    && x.body.e == Some(r.e) && x.body.a == Some(r.a) && x.body.v == Some(r.v)
    && r.validFrom == x.body.validFrom && r.validTo == x.body.validTo
    && r.sourceEventIds == [x.id] && r.id == r.e + [0] + r.a + [0] + x.id
  }

  ghost predicate AllCarried(rows: set<Row>, log: Log, c: Coord) {
    forall r :: r in rows ==> exists x :: x in log && Visible(x, c, log, NO_FLAGS) && Carries(r, x)
  }

  /** Each row of the fold carries a visible assert of the log. */
  lemma FoldRowsCarry(log: Log, c: Coord, card: CardinalityOf)
    ensures AllCarried(FoldRows(log, c, card), log, c)
  {
    hide Visible;
    forall r | r in FoldRows(log, c, card) ensures exists x :: x in log && Visible(x, c, log, NO_FLAGS) && Carries(r, x) {
      var x :| x in log && Survives(x, c, log, card) && ProjectionRow(x) == r;
      RowCarries(x);
    }
  }

  lemma RowCarries(x: Event)
    requires IsAssertWithValue(x)
    ensures Carries(ProjectionRow(x), x)
  {
    var r := ProjectionRow(x);
    assert r.id == r.e + [0] + r.a + [0] + x.id;
  }

  /** When its events all carry values, the rows of (e, a) are those of the core answer, values and intervals included. */
  lemma RowsCarryAnswer(e: Text, a: Text, c: Coord, log: Log, card: CardinalityOf)
    requires DistinctIds(log) && forall x :: x in AnswerEvents(e, a, c, log, card) ==> x.body.v.Some?
    ensures var answer, rows := AnswerEvents(e, a, c, log, card), RowsAt(FoldRows(log, c, card), e, a);
            && (forall r :: r in rows ==> exists x :: x in answer && Carries(r, x))
            && (forall x :: x in answer ==> exists r :: r in rows && Carries(r, x))
            && (set r | r in rows :: r.v) == (set x | x in answer && x.body.v.Some? :: x.body.v.value)
  {
    var answer, rows := AnswerEvents(e, a, c, log, card), RowsAt(FoldRows(log, c, card), e, a);
    forall x | x in answer ensures exists r :: r in rows && Carries(r, x) {
      AnswerSurvives(x, e, a, c, log, card);
      RowCarries(x);
    }
    forall r | r in rows ensures exists x :: x in answer && Carries(r, x) {
      var x :| x in log && Survives(x, c, log, card) && ProjectionRow(x) == r;
      SurvivorAnswers(x, e, a, c, log, card);
      RowCarries(x);
    }
    hide AnswerEvents, FoldRows;
    assert forall r, x :: Carries(r, x) ==> x.body.v == Some(r.v);
  }

  // ---- the row builder ---------------------------------------------------------------

  function RowLess(r: Row, s: Row): bool {
    if r.e != s.e then Less(r.e, s.e)
    else if r.a != s.a then Less(r.a, s.a)
    else Less(r.eventId, s.eventId)
  }

  function GroupKey(x: Event): Text
    requires IsAssertWithValue(x)
  {
    Join(x.body.e.value, x.body.a.value)
  }

  function InGroup(k: Text, c: Coord, log: Log): Event -> bool {
    (x: Event) => Candidate(x, c, log) && GroupKey(x) == k
  }

  /** `group.reduce(...)`, keeping the later of two events. */
  function Winner(group: seq<Event>): Event
    requires group != []
  {
    if |group| == 1 then group[0]
    else
      var best, event := Winner(group[..|group| - 1]), group[|group| - 1];
      if CompareEvents(best, event) < 0 then event else best
  }

  lemma {:induction false} WinnerIsMax(group: seq<Event>)
    requires group != [] && SameContent(SetOf(group))
    ensures MaxOf(group) == Some(Winner(group))
  {
    if |group| > 1 {
      var init := group[..|group| - 1];
      assert SetOf(init) <= SetOf(group);
      WinnerIsMax(init);
      var best, event := Winner(init), group[|group| - 1];
      assert best in group && event in group;
      PrecedesStrictTotal(best, best, best);
    } else {
      assert group[..0] == [];
    }
  }

  /** The rows pushed for one group. */
  function GroupRows(group: seq<Event>, card: Cardinality): seq<Row>
    requires group != [] && forall x :: x in group ==> IsAssertWithValue(x)
  {
    if card == One then WinnerMember(group); [ProjectionRow(Winner(group))]
    else seq(|group|, i requires 0 <= i < |group| => ProjectionRow(group[i]))
  }

  lemma {:induction false} WinnerMember(group: seq<Event>)
    requires group != []
    ensures Winner(group) in group
  {
    if |group| > 1 { WinnerMember(group[..|group| - 1]); }
  }

  ghost predicate GroupsSoFar(groups: map<Text, seq<Event>>, seen: seq<Event>, c: Coord, log: Log) {
    && (forall k :: k in groups ==> groups[k] == Filter(seen, InGroup(k, c, log)) && groups[k] != [])
    && (forall x :: x in seen && Candidate(x, c, log) ==> GroupKey(x) in groups)
  }

  lemma GroupsGrow(groups: map<Text, seq<Event>>, seen: seq<Event>, x: Event, c: Coord, log: Log)
    requires GroupsSoFar(groups, seen, c, log)
    ensures !Candidate(x, c, log) ==> GroupsSoFar(groups, seen + [x], c, log)
    ensures Candidate(x, c, log) ==>
              var k := GroupKey(x);
              GroupsSoFar(groups[k := (if k in groups then groups[k] else []) + [x]], seen + [x], c, log)
  {
    forall k ensures Filter(seen + [x], InGroup(k, c, log))
                  == Filter(seen, InGroup(k, c, log)) + (if InGroup(k, c, log)(x) then [x] else [])
    {
      FilterAppend(seen, [x], InGroup(k, c, log));
    }
    if Candidate(x, c, log) && GroupKey(x) !in groups {
      FilterNone(seen, InGroup(GroupKey(x), c, log));
    }
  }

  method GroupVisible(log: Log, c: Coord) returns (groups: map<Text, seq<Event>>)
    ensures GroupsSoFar(groups, log, c, log)
  {
    groups := map[];
    for i := 0 to |log|
      invariant GroupsSoFar(groups, log[..i], c, log)
    {
      var x := log[i];
      GroupsGrow(groups, log[..i], x, c, log);
      assert log[..i + 1] == log[..i] + [x];
      if Candidate(x, c, log) {
        var k := GroupKey(x);
        if k !in groups {
          groups := groups[k := [x]];
        } else {
          groups := groups[k := groups[k] + [x]];
        }
      }
    }
    assert log[..|log|] == log;
  }

  /** What one group contributes: the rows of its surviving members. */
  lemma GroupRowsAreSurvivors(group: seq<Event>, k: Text, c: Coord, log: Log, card: CardinalityOf)
    requires DistinctIds(log) && CleanKeys(SetOf(log))
    requires group == Filter(log, InGroup(k, c, log)) && group != []
    ensures forall x :: x in group ==> IsAssertWithValue(x)
    ensures var rows := GroupRows(group, card(group[0].body.a.value, c, log));
            SetOf(rows) == RowsOfKeys(log, c, card, {k}) && DistinctEvents(rows)
  {
    FilterMembers(log, InGroup(k, c, log));
    assert group[0] in group;
    GroupIsOneCoordinate(group, k, c, log);
    if card(group[0].body.a.value, c, log) == One {
      OneSurvivor(group, k, c, log, card);
    } else {
      ManySurvivors(group, k, c, log, card);
    }
  }

  lemma GroupIsOneCoordinate(group: seq<Event>, k: Text, c: Coord, log: Log)
    requires CleanKeys(SetOf(log))
    requires forall x :: x in group <==> x in log && InGroup(k, c, log)(x)
    ensures forall x, y :: x in group && y in log && Candidate(y, c, log) ==> (SameGroup(x, y) <==> y in group)
  {
    forall x, y | x in group && y in log && Candidate(y, c, log) ensures SameGroup(x, y) <==> y in group {
      assert x in SetOf(log) && y in SetOf(log);
      if y in group {
        JoinInjective(x.body.e.value, x.body.a.value, y.body.e.value, y.body.a.value);
      }
    }
  }

  lemma DistinctNoDup(log: Log)
    requires DistinctIds(log)
    ensures NoDup(log)
  {
    forall i, j | 0 <= i < j < |log| ensures log[i] != log[j] {
      assert log[i].id != log[j].id;
    }
  }

  lemma OneSurvivor(group: seq<Event>, k: Text, c: Coord, log: Log, card: CardinalityOf)
    requires group != [] && DistinctIds(log)
    requires forall x :: x in group <==> x in log && InGroup(k, c, log)(x)
    requires forall x, y :: x in group && y in log && Candidate(y, c, log) ==> (SameGroup(x, y) <==> y in group)
    requires forall x :: x in group ==> IsAssertWithValue(x)
    requires IsAssertWithValue(group[0]) && card(group[0].body.a.value, c, log) == One
    ensures SetOf(GroupRows(group, One)) == RowsOfKeys(log, c, card, {k})
  {
    DistinctIdsSameContent(log);
    assert SetOf(group) <= SetOf(log);
    WinnerIsMax(group);
    WinnerMember(group);
    var w := Winner(group);
    assert group[0] in group;
    forall y | y in group ensures !Precedes(w, y) { MaxOfIsMaximal(group, y); }
    assert SameGroup(w, group[0]);
    assert Survives(w, c, log, card);
    forall x | x in log && Survives(x, c, log, card) && GroupKey(x) == k ensures x == w {
      assert x in group && SameGroup(x, w) && SameGroup(x, group[0]);
      PrecedesStrictTotal(x, w, x);
      assert x in SetOf(log) && w in SetOf(log);
    }
  }

  lemma ManySurvivors(group: seq<Event>, k: Text, c: Coord, log: Log, card: CardinalityOf)
    requires group != [] && DistinctIds(log) && group == Filter(log, InGroup(k, c, log))
    requires forall x :: x in group <==> x in log && InGroup(k, c, log)(x)
    requires forall x, y :: x in group && y in log && Candidate(y, c, log) ==> (SameGroup(x, y) <==> y in group)
    requires forall x :: x in group ==> IsAssertWithValue(x)
    requires group[0] in group && card(group[0].body.a.value, c, log) == Many
    ensures SetOf(GroupRows(group, Many)) == RowsOfKeys(log, c, card, {k})
    ensures DistinctEvents(GroupRows(group, Many))
  {
    var rows, want := GroupRows(group, Many), RowsOfKeys(log, c, card, {k});
    forall x | x in group ensures Survives(x, c, log, card) {
      assert SameGroup(group[0], x);
    }
    hide Survives, SameGroup, Candidate, Visible;
    forall r | r in rows ensures r in want {
      var i :| 0 <= i < |rows| && rows[i] == r;
      assert group[i] in group;
    }
    forall r | r in want ensures r in rows {
      var x :| x in log && Survives(x, c, log, card) && GroupKey(x) == k && ProjectionRow(x) == r;
      SurvivorIsCandidate(x, c, log, card);
      var i :| 0 <= i < |group| && group[i] == x;
      assert rows[i] == r;
    }
    GroupEventsDistinct(group, k, c, log);
  }

  lemma SurvivorIsCandidate(x: Event, c: Coord, log: Log, card: CardinalityOf)
    requires Survives(x, c, log, card)
    ensures x in log && Candidate(x, c, log)
  {
  }

  lemma GroupEventsDistinct(group: seq<Event>, k: Text, c: Coord, log: Log)
    requires DistinctIds(log) && group != [] && group == Filter(log, InGroup(k, c, log))
    requires forall x :: x in group ==> IsAssertWithValue(x) && x in log
    ensures DistinctEvents(GroupRows(group, Many))
  {
    var rows := GroupRows(group, Many);
    DistinctNoDup(log);
    FilterNoDup(log, InGroup(k, c, log));
    DistinctIdsSameContent(log);
    forall i, j | 0 <= i < j < |rows| ensures rows[i].eventId != rows[j].eventId {
      assert group[i] in group && group[j] in group;
      assert group[i] in SetOf(log) && group[j] in SetOf(log);
    }
  }

  lemma RowLessWeakOrder()
    ensures Ordering.WeakOrder(RowLess)
  {
    forall r, s | RowLess(r, s) ensures !RowLess(s, r) {
      if r.e != s.e { LessAsymmetric(r.e, s.e); }
      else if r.a != s.a { LessAsymmetric(r.a, s.a); }
      else { LessAsymmetric(r.eventId, s.eventId); }
    }
    forall r, s, t | RowLess(r, s) ensures RowLess(r, t) || RowLess(t, s) {
      LessNegTransitive(r.e, s.e, t.e);
      LessNegTransitive(r.a, s.a, t.a);
      LessNegTransitive(r.eventId, s.eventId, t.eventId);
      LessConnected(r.e, t.e);
      LessConnected(t.e, s.e);
      LessConnected(r.a, t.a);
      LessConnected(t.a, s.a);
      if Less(r.e, s.e) { LessIrreflexive(r.e); }
      if Less(r.a, s.a) { LessIrreflexive(r.a); }
    }
  }

  method PushRows(groups: map<Text, seq<Event>>, log: Log, c: Coord, card: CardinalityOf) returns (pushed: seq<Row>)
    requires DistinctIds(log) && CleanKeys(SetOf(log)) && GroupsSoFar(groups, log, c, log)
    ensures SetOf(pushed) == RowsOfKeys(log, c, card, groups.Keys) && DistinctEvents(pushed)
  {
    hide SetOf, RowsOfKeys, DistinctEvents, GroupsSoFar, DistinctIds, CleanKeys, GroupRows;
    pushed := [];
    NoKeysNoRows(log, c, card);
    var order := Listing(groups.Keys);
    for i := 0 to |order|
      invariant SetOf(pushed) == RowsOfKeys(log, c, card, SetOf(order[..i])) && DistinctEvents(pushed)
    {
      var k := order[i];
      NotYet(order, i);
      TakeNext(order, i);
      SetOfAppend(order[..i], k);
      PushGroup(pushed, groups, log, c, card, SetOf(order[..i]), k);
      pushed := pushed + GroupRows(groups[k], card(groups[k][0].body.a.value, c, log));
    }
    TakeAll(order);
  }

  lemma NoKeysNoRows(log: Log, c: Coord, card: CardinalityOf)
    ensures SetOf<Row>([]) == RowsOfKeys(log, c, card, SetOf([])) && DistinctEvents([])
  {
  }

  /**
   * Fold a log into current rows: the ≺-maximal visible assert of a cardinality-one group, every
   * visible assert of the others, sorted by (e, a, eventId).
   */
  method ProjectionRowsFromLog(log: Log, c: Coord, card: CardinalityOf) returns (rows: seq<Row>)
    requires DistinctIds(log) && CleanKeys(SetOf(log))
    ensures SetOf(rows) == FoldRows(log, c, card) && DistinctEvents(rows)
    ensures AllCarried(SetOf(rows), log, c) && InRowOrder(rows)
  {
    var groups := GroupVisible(log, c);
    var pushed := PushRows(groups, log, c, card);
    AllKeysAllRows(groups, log, c, card);
    SortRows(pushed);
    rows := Ordering.Sort(pushed, RowLess);
    FoldRowsCarry(log, c, card);
    SortedIsRowOrder(rows);
  }

  /** By entity, then attribute, then event id. */
  ghost predicate InRowOrder(rows: seq<Row>) {
    forall i, j :: 0 <= i < j < |rows| ==>
      Less(rows[i].e, rows[j].e) || (rows[i].e == rows[j].e &&
        (Less(rows[i].a, rows[j].a) || (rows[i].a == rows[j].a && Less(rows[i].eventId, rows[j].eventId))))
  }

  lemma SortedIsRowOrder(rows: seq<Row>)
    requires Ordering.SortedBy(rows, RowLess) && DistinctEvents(rows)
    ensures InRowOrder(rows)
  {
    forall i, j | 0 <= i < j < |rows|
      ensures Less(rows[i].e, rows[j].e) || (rows[i].e == rows[j].e &&
                (Less(rows[i].a, rows[j].a) || (rows[i].a == rows[j].a && Less(rows[i].eventId, rows[j].eventId))))
    {
      LessConnected(rows[i].e, rows[j].e);
      LessConnected(rows[i].a, rows[j].a);
      LessConnected(rows[i].eventId, rows[j].eventId);
      assert !RowLess(rows[j], rows[i]);
    }
  }

  lemma SortRows(pushed: seq<Row>)
    requires DistinctEvents(pushed)
    ensures var rows := Ordering.Sort(pushed, RowLess);
            SetOf(rows) == SetOf(pushed) && DistinctEvents(rows) && Ordering.SortedBy(rows, RowLess)
  {
    var rows := Ordering.Sort(pushed, RowLess);
    RowLessWeakOrder();
    Ordering.SortSorted(pushed, RowLess);
    Ordering.SameElements(rows, pushed);
    Ordering.SortNoDup(pushed, RowLess);
    forall i, j | 0 <= i < j < |rows| ensures rows[i].eventId != rows[j].eventId {
      assert rows[i] in pushed && rows[j] in pushed && rows[i] != rows[j];
    }
  }

  lemma AllKeysAllRows(groups: map<Text, seq<Event>>, log: Log, c: Coord, card: CardinalityOf)
    requires GroupsSoFar(groups, log, c, log)
    ensures RowsOfKeys(log, c, card, groups.Keys) == FoldRows(log, c, card)
  {
    forall x | x in log && Survives(x, c, log, card) ensures GroupKey(x) in groups.Keys {
      assert Candidate(x, c, log);
    }
  }

  lemma PushGroup(pushed: seq<Row>, groups: map<Text, seq<Event>>, log: Log, c: Coord, card: CardinalityOf,
                  done: set<Text>, k: Text)
    requires DistinctIds(log) && CleanKeys(SetOf(log)) && GroupsSoFar(groups, log, c, log)
    requires k !in done && k in groups
    requires SetOf(pushed) == RowsOfKeys(log, c, card, done) && DistinctEvents(pushed)
    ensures groups[k] != [] && forall x :: x in groups[k] ==> IsAssertWithValue(x)
    ensures IsAssertWithValue(groups[k][0])
    ensures var more := GroupRows(groups[k], card(groups[k][0].body.a.value, c, log));
            SetOf(pushed + more) == RowsOfKeys(log, c, card, done + {k}) && DistinctEvents(pushed + more)
  {
    var group := groups[k];
    GroupRowsAreSurvivors(group, k, c, log, card);
    assert group[0] in group;
    var more := GroupRows(group, card(group[0].body.a.value, c, log));
    assert SetOf(pushed + more) == SetOf(pushed) + SetOf(more);
    assert RowsOfKeys(log, c, card, done + {k}) == RowsOfKeys(log, c, card, done) + RowsOfKeys(log, c, card, {k});
    forall i, j | 0 <= i < |pushed| && 0 <= j < |more| ensures pushed[i].eventId != more[j].eventId {
      GroupsApart(pushed[i], more[j], log, c, card, done, k);
    }
  }

  lemma GroupsApart(r: Row, s: Row, log: Log, c: Coord, card: CardinalityOf, done: set<Text>, k: Text)
    requires DistinctIds(log) && k !in done
    requires r in RowsOfKeys(log, c, card, done) && s in RowsOfKeys(log, c, card, {k})
    ensures r.eventId != s.eventId
  {
    DistinctIdsSameContent(log);
    var x :| x in log && Survives(x, c, log, card) && GroupKey(x) in done && ProjectionRow(x) == r;
    var y :| y in log && Survives(y, c, log, card) && GroupKey(y) == k && ProjectionRow(y) == s;
    assert x in SetOf(log) && y in SetOf(log);
  }
}
