/**
 * The SQLite surface: a table of current rows beside the event table, rebuilding the rows from the
 * whole log, reconciling one (e, a) per appended event, and summing up what changed.
 */
module SqliteCurrent {
  import opened Seqs
  import opened Text
  import opened Core
  import opened Fold
  import opened Projection
  import opened EventTable
  import opened Reconciling
  import Ordering

  // ---- the projection table ------------------------------------------------------------

  /** A row whose id is the joined key the row builder gives it. */
  ghost predicate Proper(r: Row) {
    NoNul(r.e) && NoNul(r.a) && r.id == Join(r.e, Join(r.a, r.eventId))
  }

  ghost predicate DistinctRowIds(rows: seq<Row>) {
    forall i, j :: 0 <= i < j < |rows| ==> rows[i].id != rows[j].id
  }

  predicate RowIdLess(r: Row, s: Row) { Less(r.id, s.id) }

  class ProjectionStore {
    /** The table, keyed by its primary key. */
    var table: map<Text, Row>

    ghost predicate Valid()
      reads this
    {
      forall id :: id in table ==> table[id].id == id && Proper(table[id])
    }

    ghost function Rows(): set<Row>
      reads this
    {
      table.Values
    }

    constructor ()
      ensures Valid() && Rows() == {}
    {
      table := map[];
    }

    method Clear()
      modifies this
      ensures Valid() && Rows() == {}
    {
      table := map[];
    }

    /** INSERT, row by row; a duplicate primary key would abort. */
    method InsertAll(rowsIn: seq<Row>) returns (count: nat)
      requires Valid() && (forall r :: r in rowsIn ==> Proper(r)) && DistinctRowIds(rowsIn)
      requires forall r :: r in rowsIn ==> r.id !in table
      modifies this
      ensures Valid() && Rows() == old(Rows()) + SetOf(rowsIn) && count == |rowsIn|
    {
      for i := 0 to |rowsIn|
        invariant Valid()
        invariant forall k :: i <= k < |rowsIn| ==> rowsIn[k].id !in table
        invariant Rows() == old(Rows()) + SetOf(rowsIn[..i])
      {
        var r := rowsIn[i];
        assert SetOf(rowsIn[..i + 1]) == SetOf(rowsIn[..i]) + {r} by {
          assert rowsIn[..i + 1] == rowsIn[..i] + [r];
        }
        NewKeyAddsValue(table, r.id, r);
        table := table[r.id := r];
      }
      assert rowsIn[..|rowsIn|] == rowsIn;
      count := |rowsIn|;
    }

    method Replace(rowsIn: seq<Row>) returns (count: nat)
      requires Valid() && (forall r :: r in rowsIn ==> Proper(r)) && DistinctRowIds(rowsIn)
      modifies this
      ensures Valid() && Rows() == SetOf(rowsIn) && count == |rowsIn|
    {
      Clear();
      count := InsertAll(rowsIn);
    }

    /** Delete the rows of one (e, a), then insert its new rows. */
    method ReplaceMatching(g: Group, rowsIn: seq<Row>) returns (count: nat)
      requires Valid() && (forall r :: r in rowsIn ==> Proper(r) && r.e == g.e && r.a == g.a) && DistinctRowIds(rowsIn)
      modifies this
      ensures Valid() && count == |rowsIn|
      ensures Rows() == (old(Rows()) - RowsAt(old(Rows()), g.e, g.a)) + SetOf(rowsIn)
    {
      table := map id | id in table && !(table[id].e == g.e && table[id].a == g.a) :: table[id];
      DeleteRemovesGroup(old(table), table, g);
      forall r | r in rowsIn ensures r.id !in table {
        if r.id in table { ProperIdInjective(r, table[r.id]); }
      }
      count := InsertAll(rowsIn);
    }

    /** SELECT ... WHERE e = ? AND a = ? ORDER BY id */
    method Scan(g: Group) returns (out: seq<Row>)
      ensures SetOf(out) == RowsAt(Rows(), g.e, g.a)
      ensures forall i, j :: 0 <= i < j < |out| ==> !Less(out[j].id, out[i].id)
    {
      SortedByRowId();
      var found := Listing(set id | id in table && table[id].e == g.e && table[id].a == g.a :: table[id]);
      out := Ordering.Sort(found, RowIdLess);
      Ordering.SameElements(out, found);
      Ordering.SortSorted(found, RowIdLess);
      assert SetOf(out) == SetOf(found);
    }
  }

  lemma SortedByRowId()
    ensures Ordering.WeakOrder(RowIdLess)
  {
    forall r, s | RowIdLess(r, s) ensures !RowIdLess(s, r) { LessAsymmetric(r.id, s.id); }
    forall r, s, t | RowIdLess(r, s) ensures RowIdLess(r, t) || RowIdLess(t, s) { LessNegTransitive(r.id, s.id, t.id); }
  }

  lemma DeleteRemovesGroup(m: map<Text, Row>, n: map<Text, Row>, g: Group)
    requires n == map id | id in m && !(m[id].e == g.e && m[id].a == g.a) :: m[id]
    ensures n.Values == m.Values - RowsAt(m.Values, g.e, g.a)
  {
    forall r | r in m.Values - RowsAt(m.Values, g.e, g.a) ensures r in n.Values {
      var id :| id in m && m[id] == r;
      assert n[id] == r;
    }
  }

  lemma NewKeyAddsValue<K, V>(m: map<K, V>, k: K, v: V)
    requires k !in m
    ensures m[k := v].Values == m.Values + {v}
  {
    var n := m[k := v];
    assert v == n[k] && k in n.Keys;
    forall w | w in m.Values ensures w in n.Values {
      var j :| j in m && m[j] == w;
      assert n[j] == w;
    }
  }

  lemma ProperIdInjective(r: Row, s: Row)
    requires Proper(r) && Proper(s)
    ensures r.id == s.id <==> r.e == s.e && r.a == s.a && r.eventId == s.eventId
  {
    if r.id == s.id {
      JoinInjective(r.e, Join(r.a, r.eventId), s.e, Join(s.a, s.eventId));
      JoinInjective(r.a, r.eventId, s.a, s.eventId);
    }
  }

  // ---- change summaries ------------------------------------------------------------------

  datatype Change = Change(e: Text, a: Text, beforeEventIds: seq<EventId>, afterEventIds: seq<EventId>)

  function CoordKey(r: Row): Text { Join(r.e, r.a) }

  function SortedEventIds(rows: seq<Row>): seq<EventId> {
    SortedUnique(Map(rows, (r: Row) => r.eventId))
  }

  ghost function EventIdsAt(rows: set<Row>, e: Text, a: Text): set<EventId> {
    set r | r in rows && r.e == e && r.a == a :: r.eventId
  }

  /** Names and ids that can be joined with NUL and split again. */
  ghost predicate Splittable(rows: set<Row>) {
    forall r :: r in rows ==> NoNul(r.e) && NoNul(r.a) && NoNul(r.eventId) && r.eventId != []
  }

  function RowsUnder(m: map<Text, seq<Row>>, key: Text): seq<Row> { if key in m then m[key] else [] }

  /** The map that the grouping loop fills. */
  function Grouped(rows: seq<Row>): map<Text, seq<Row>> {
    if rows == [] then map[]
    else
      var m, row := Grouped(rows[..|rows| - 1]), rows[|rows| - 1];
      m[CoordKey(row) := RowsUnder(m, CoordKey(row)) + [row]]
  }

  method ByCoord(rows: seq<Row>) returns (m: map<Text, seq<Row>>)
    ensures m == Grouped(rows)
  {
    m := map[];
    for i := 0 to |rows|
      invariant m == Grouped(rows[..i])
    {
      TakeNext(rows, i);
      var group := RowsUnder(m, CoordKey(rows[i]));
      m := m[CoordKey(rows[i]) := group + [rows[i]]];
    }
    TakeAll(rows);
  }

  /** Under a key are the rows that have it, and only keys of rows occur. */
  lemma {:induction false} GroupedMember(rows: seq<Row>, k: Text, r: Row)
    ensures r in RowsUnder(Grouped(rows), k) <==> r in rows && CoordKey(r) == k
    ensures k in Grouped(rows) <==> RowsUnder(Grouped(rows), k) != []
  {
    if rows != [] {
      GroupedMember(rows[..|rows| - 1], k, r);
      SplitLast(rows);
    }
  }

  /** A listed (e, a) with its sorted event ids before and after, which differ. */
  ghost predicate RightChange(ch: Change, before: set<Row>, after: set<Row>) {
    && Ascending(ch.beforeEventIds) && SetOf(ch.beforeEventIds) == EventIdsAt(before, ch.e, ch.a)
    && Ascending(ch.afterEventIds) && SetOf(ch.afterEventIds) == EventIdsAt(after, ch.e, ch.a)
    && ch.beforeEventIds != ch.afterEventIds
  }

  ghost predicate Lists(changes: seq<Change>, e: Text, a: Text) {
    exists ch :: ch in changes && ch.e == e && ch.a == a
  }

  ghost predicate InKeyOrder(changes: seq<Change>) {
    forall i, j :: 0 <= i < j < |changes| ==> Less(Join(changes[i].e, changes[i].a), Join(changes[j].e, changes[j].a))
  }

  /** `changes` lists exactly the (e, a) whose event ids differ, each once, in key order. */
  ghost predicate Summarises(changes: seq<Change>, before: set<Row>, after: set<Row>) {
    && (forall ch :: ch in changes ==> RightChange(ch, before, after))
    && (forall e, a :: EventIdsAt(before, e, a) != EventIdsAt(after, e, a) ==> Lists(changes, e, a))
    && InKeyOrder(changes)
  }

  /** The same for the (e, a) whose keys are among `keys`. */
  ghost predicate SummarisesKeys(changes: seq<Change>, before: set<Row>, after: set<Row>, keys: seq<Text>) {
    && (forall ch :: ch in changes ==> RightChange(ch, before, after) && Join(ch.e, ch.a) in keys)
    && (forall e, a :: EventIdsAt(before, e, a) != EventIdsAt(after, e, a) && Join(e, a) in keys ==> Lists(changes, e, a))
    && InKeyOrder(changes)
  }

  lemma SortedEventIdsLaws(rows: seq<Row>)
    ensures Ascending(SortedEventIds(rows))
    ensures SetOf(SortedEventIds(rows)) == set r | r in rows :: r.eventId
  {
    var ids := Map(rows, (r: Row) => r.eventId);
    SortedUniqueLaws(ids);
    forall r | r in rows ensures r.eventId in SetOf(ids) {
      var i :| 0 <= i < |rows| && rows[i] == r;
      assert ids[i] == r.eventId;
    }
    assert SetOf(ids) == set r | r in rows :: r.eventId;
  }

  /** The ids listed under a key are those of its one (e, a). */
  lemma KeyIds(rows: seq<Row>, sample: Row, k: Text)
    requires Splittable(SetOf(rows) + {sample}) && CoordKey(sample) == k
    ensures var ids := SortedEventIds(RowsUnder(Grouped(rows), k));
            Ascending(ids) && SetOf(ids) == EventIdsAt(SetOf(rows), sample.e, sample.a) && CleanParts(ids)
  {
    hide SortedEventIds, Grouped, RowsUnder, Ascending, CleanParts;
    var group := RowsUnder(Grouped(rows), k);
    forall r ensures r in group <==> r in rows && r.e == sample.e && r.a == sample.a {
      GroupedMember(rows, k, r);
      if r in rows && CoordKey(r) == k {
        assert r in SetOf(rows) + {sample} && sample in SetOf(rows) + {sample};
        JoinInjective(r.e, r.a, sample.e, sample.a);
      }
    }
    SortedEventIdsLaws(group);
    IdsClean(rows, group, SortedEventIds(group));
  }

  lemma IdsClean(rows: seq<Row>, group: seq<Row>, ids: seq<EventId>)
    requires Splittable(SetOf(rows)) && (forall r :: r in group ==> r in rows)
    requires SetOf(ids) == set r | r in group :: r.eventId
    ensures CleanParts(ids)
  {
    forall i | 0 <= i < |ids| ensures ids[i] != [] && NoNul(ids[i]) {
      InSetOf(ids, i);
      var r :| r in group && r.eventId == ids[i];
      assert r in SetOf(rows);
    }
  }

  /** The changes after one more key. */
  function NextChanges(changes: seq<Change>, beforeRows: seq<Row>, afterRows: seq<Row>): seq<Change>
    requires beforeRows != [] || afterRows != []
  {
    var beforeEventIds, afterEventIds := SortedEventIds(beforeRows), SortedEventIds(afterRows);
    if JoinAll(beforeEventIds) == JoinAll(afterEventIds) then changes
    else
      var sample := if afterRows != [] then afterRows[0] else beforeRows[0];
      changes + [Change(sample.e, sample.a, beforeEventIds, afterEventIds)]
  }

  /** Some row has the key. */
  lemma SampleOf(before: seq<Row>, after: seq<Row>, key: Text)
    requires key in Grouped(before) || key in Grouped(after)
    ensures var b, a := RowsUnder(Grouped(before), key), RowsUnder(Grouped(after), key);
            && (b != [] || a != [])
            && var sample := if a != [] then a[0] else b[0];
               CoordKey(sample) == key && sample in SetOf(before) + SetOf(after)
  {
    var b, a := RowsUnder(Grouped(before), key), RowsUnder(Grouped(after), key);
    GroupedMember(before, key, if b != [] then b[0] else Row([], [], [], Null, [], None, Absent, []));
    GroupedMember(after, key, if a != [] then a[0] else Row([], [], [], Null, [], None, Absent, []));
  }

  /** The joined ids under one key agree exactly when the sets of ids do. */
  lemma KeyFacts(before: seq<Row>, after: seq<Row>, sample: Row, key: Text)
    requires Splittable(SetOf(before) + SetOf(after)) && sample in SetOf(before) + SetOf(after) && CoordKey(sample) == key
    ensures var bids := SortedEventIds(RowsUnder(Grouped(before), key));
            var aids := SortedEventIds(RowsUnder(Grouped(after), key));
            && (JoinAll(bids) == JoinAll(aids) <==>
                EventIdsAt(SetOf(before), sample.e, sample.a) == EventIdsAt(SetOf(after), sample.e, sample.a))
            && (JoinAll(bids) != JoinAll(aids) ==>
                RightChange(Change(sample.e, sample.a, bids, aids), SetOf(before), SetOf(after)))
  {
    hide Grouped, SortedEventIds, RowsUnder, Ascending, EventIdsAt;
    KeyIds(before, sample, key);
    KeyIds(after, sample, key);
    var bids, aids := SortedEventIds(RowsUnder(Grouped(before), key)), SortedEventIds(RowsUnder(Grouped(after), key));
    if JoinAll(bids) == JoinAll(aids) { JoinAllInjective(bids, aids); }
    if SetOf(bids) == SetOf(aids) { AscendingUnique(bids, aids); }
  }

  lemma NextChangesAt(changes: seq<Change>, before: seq<Row>, after: seq<Row>, keys: seq<Text>, key: Text, next: seq<Text>)
    requires key in Grouped(before) || key in Grouped(after)
    requires Splittable(SetOf(before) + SetOf(after)) && next == keys + [key] && Ascending(next)
    requires SummarisesKeys(changes, SetOf(before), SetOf(after), keys)
    ensures RowsUnder(Grouped(before), key) != [] || RowsUnder(Grouped(after), key) != []
    ensures SummarisesKeys(NextChanges(changes, RowsUnder(Grouped(before), key), RowsUnder(Grouped(after), key)),
                           SetOf(before), SetOf(after), next)
  {
    hide Grouped, SortedEventIds, RowsUnder, Ascending, EventIdsAt, SummarisesKeys, RightChange, SetOf, Splittable, JoinAll;
    var b, a := RowsUnder(Grouped(before), key), RowsUnder(Grouped(after), key);
    SampleOf(before, after, key);
    var sample := if a != [] then a[0] else b[0];
    KeyFacts(before, after, sample, key);
    OneCoordPerKey(before, after, sample, key);
    ExtendSummary(changes, Change(sample.e, sample.a, SortedEventIds(b), SortedEventIds(a)), SetOf(before), SetOf(after), keys, key);
  }

  lemma ExtendSummary(changes: seq<Change>, ch: Change, before: set<Row>, after: set<Row>, keys: seq<Text>, key: Text)
    requires SummarisesKeys(changes, before, after, keys) && Ascending(keys + [key]) && Join(ch.e, ch.a) == key
    requires forall e, a :: EventIdsAt(before, e, a) != EventIdsAt(after, e, a) && Join(e, a) == key ==> e == ch.e && a == ch.a
    ensures EventIdsAt(before, ch.e, ch.a) == EventIdsAt(after, ch.e, ch.a) ==>
              SummarisesKeys(changes, before, after, keys + [key])
    ensures RightChange(ch, before, after) ==> SummarisesKeys(changes + [ch], before, after, keys + [key])
  {
    var next := changes + [ch];
    forall e, a | EventIdsAt(before, e, a) != EventIdsAt(after, e, a) && Join(e, a) in keys ensures Lists(next, e, a) {
      var c :| c in changes && c.e == e && c.a == a;
      assert c in next;
    }
    assert next[|changes|] == ch;
    forall i | 0 <= i < |changes| ensures Less(Join(changes[i].e, changes[i].a), key) {
      assert changes[i] in changes;
      var j :| 0 <= j < |keys| && keys[j] == Join(changes[i].e, changes[i].a);
      assert (keys + [key])[j] == keys[j] && (keys + [key])[|keys|] == key;
    }
  }

  lemma OneCoordPerKey(before: seq<Row>, after: seq<Row>, sample: Row, key: Text)
    requires Splittable(SetOf(before) + SetOf(after)) && sample in SetOf(before) + SetOf(after) && CoordKey(sample) == key
    ensures forall e, a :: EventIdsAt(SetOf(before), e, a) != EventIdsAt(SetOf(after), e, a) && Join(e, a) == key ==>
              e == sample.e && a == sample.a
  {
    forall e, a | EventIdsAt(SetOf(before), e, a) != EventIdsAt(SetOf(after), e, a) && Join(e, a) == key
      ensures e == sample.e && a == sample.a
    {
      var id :| (id in EventIdsAt(SetOf(before), e, a)) != (id in EventIdsAt(SetOf(after), e, a));
      var r :| r in SetOf(before) + SetOf(after) && r.e == e && r.a == a;
      JoinInjective(e, a, sample.e, sample.a);
    }
  }

  method ProjectionChangeSummary(before: seq<Row>, after: seq<Row>) returns (changes: seq<Change>)
    requires Splittable(SetOf(before) + SetOf(after))
    ensures Summarises(changes, SetOf(before), SetOf(after))
  {
    hide Grouped, SortedEventIds, Ascending, EventIdsAt, SummarisesKeys, RightChange, Summarises, Splittable, NextChanges;
    var beforeByCoord := ByCoord(before);
    var afterByCoord := ByCoord(after);
    var listed := Listing(beforeByCoord.Keys + afterByCoord.Keys);
    var keys := SortedUnique(listed);
    SortedUniqueLaws(listed);
    NoChangesYet(before, after);
    changes := [];
    for i := 0 to |keys|
      invariant SummarisesKeys(changes, SetOf(before), SetOf(after), keys[..i])
    {
      TakeNext(keys, i);
      InSetOf(keys, i);
      AscendingPrefix(keys, i + 1);
      NextChangesAt(changes, before, after, keys[..i], keys[i], keys[..i + 1]);
      changes := NextChanges(changes, RowsUnder(beforeByCoord, keys[i]), RowsUnder(afterByCoord, keys[i]));
    }
    TakeAll(keys);
    AllKeysListed(changes, before, after, keys);
  }

  lemma NoChangesYet(before: seq<Row>, after: seq<Row>)
    ensures SummarisesKeys([], SetOf(before), SetOf(after), [])
  {
  }

  lemma AscendingPrefix(keys: seq<Text>, n: nat)
    requires Ascending(keys) && n <= |keys|
    ensures Ascending(keys[..n])
  {
  }

  lemma AllKeysListed(changes: seq<Change>, before: seq<Row>, after: seq<Row>, keys: seq<Text>)
    requires SetOf(keys) == Grouped(before).Keys + Grouped(after).Keys
    requires SummarisesKeys(changes, SetOf(before), SetOf(after), keys)
    ensures Summarises(changes, SetOf(before), SetOf(after))
  {
    hide Grouped, RowsUnder, RightChange;
    forall e, at | EventIdsAt(SetOf(before), e, at) != EventIdsAt(SetOf(after), e, at)
      ensures Join(e, at) in keys
    {
      var id :| (id in EventIdsAt(SetOf(before), e, at)) != (id in EventIdsAt(SetOf(after), e, at));
      var r :| r in SetOf(before) + SetOf(after) && r.e == e && r.a == at;
      GroupedMember(before, CoordKey(r), r);
      GroupedMember(after, CoordKey(r), r);
      assert CoordKey(r) in SetOf(keys);
    }
  }

  // ---- rebuild and reconcile ---------------------------------------------------------------

  datatype RebuildResult = RebuildResult(events: nat, rows: nat, changed: seq<Change>)

  /** Names and ids hold no NUL, which the joined keys, row ids and id lists rely on. */
  ghost predicate CleanNames(events: set<Event>) {
    CleanKeys(events) && forall x :: x in events ==> x.id != [] && NoNul(x.id)
  }

  lemma FoldRowsProper(log: Log, c: Coord, card: CardinalityOf)
    requires CleanNames(SetOf(log))
    ensures forall r :: r in FoldRows(log, c, card) ==> Proper(r)
    ensures Splittable(FoldRows(log, c, card))
  {
    forall r | r in FoldRows(log, c, card) ensures Proper(r) && NoNul(r.eventId) && r.eventId != [] {
      var x :| x in log && Survives(x, c, log, card) && ProjectionRow(x) == r;
      assert x in SetOf(log);
    }
  }

  lemma DistinctEventsDistinctIds(rows: seq<Row>)
    requires DistinctEvents(rows) && forall r :: r in rows ==> Proper(r)
    ensures DistinctRowIds(rows)
  {
    forall i, j | 0 <= i < j < |rows| ensures rows[i].id != rows[j].id {
      ProperIdInjective(rows[i], rows[j]);
    }
  }

  /** Rows ready to be inserted: those of a log, each under its own key. */
  method InsertableRows(log: Log, c: Coord, card: CardinalityOf) returns (rows: seq<Row>)
    requires DistinctIds(log) && CleanNames(SetOf(log))
    ensures SetOf(rows) == FoldRows(log, c, card) && DistinctRowIds(rows)
    ensures forall r :: r in rows ==> Proper(r)
    ensures Splittable(SetOf(rows))
  {
    var m := FromEvents(log);
    FromDistinctEvents(log);
    rows := ProjectionRowsFromLog(m, c, card);
    FoldRowsProper(log, c, card);
    assert forall r :: r in rows ==> r in SetOf(rows);
    DistinctEventsDistinctIds(rows);
  }

  /** Replace every row by the fold of the whole log. */
  method Rebuild(store: EventStore, projection: ProjectionStore, card: CardinalityOf, c: Coord) returns (r: RebuildResult)
    requires store.Valid() && projection.Valid() && CleanNames(SetOf(EventsOf(store.rows))) && Splittable(projection.Rows())
    modifies projection
    ensures projection.Valid() && projection.Rows() == FoldRows(EventsOf(store.rows), c, card)
    ensures AllCarried(projection.Rows(), EventsOf(store.rows), c)
    ensures Summarises(r.changed, old(projection.Rows()), projection.Rows())
    ensures r.events == |store.rows| && r.rows == |projection.Rows()|
  {
    FoldRowsCarry(EventsOf(store.rows), c, card);
    var beforeRows := Listing(projection.table.Values);
    var events := store.ScanAll();
    var rows := InsertableRows(events, c, card);
    var count := projection.Replace(rows);
    var changed := ProjectionChangeSummary(beforeRows, rows);
    CountRows(rows);
    r := RebuildResult(|events|, count, changed);
  }

  lemma CountRows(rows: seq<Row>)
    requires DistinctRowIds(rows)
    ensures |SetOf(rows)| == |rows|
  {
    assert NoDup(rows);
    NoDupCount(rows);
  }

  function RowsForCoord(rows: seq<Row>, g: Group): seq<Row> {
    Filter(rows, (r: Row) => r.e == g.e && r.a == g.a)
  }

  lemma RowsForCoordContents(rows: seq<Row>, g: Group)
    requires DistinctRowIds(rows)
    ensures SetOf(RowsForCoord(rows, g)) == RowsAt(SetOf(rows), g.e, g.a)
    ensures DistinctRowIds(RowsForCoord(rows, g))
  {
    var p := (r: Row) => r.e == g.e && r.a == g.a;
    FilterMembers(rows, p);
    assert NoDup(rows);
    FilterNoDup(rows, p);
    var f := RowsForCoord(rows, g);
    forall i, j | 0 <= i < j < |f| ensures f[i].id != f[j].id {
      assert f[i] in rows && f[j] in rows && f[i] != f[j];
    }
  }

  lemma TouchedByLookup(log: Log, x: Event, target: Option<Event>)
    requires DistinctIds(log)
    requires target.Some? ==> target.value in log && Some(target.value.id) == x.body.target
    requires target.None? ==> forall t :: t in log ==> Some(t.id) != x.body.target
    ensures Touched(log, x) == if AssertCoord(x).Some? then AssertCoord(x)
                               else if target.Some? then AssertCoord(target.value) else None
  {
    DistinctIdsSameContent(log);
    assert target.Some? ==> target.value in SetOf(log);
    assert forall t :: t in log ==> t in SetOf(log);
  }

  /** The new rows of one group, folded from its sub-log. */
  method GroupRowsFromSubLog(log: Log, g: Group, card: CardinalityOf, c: Coord) returns (events: Log, afterRows: seq<Row>)
    requires DistinctIds(log) && CleanNames(SetOf(log))
    ensures events == EventsForCoord(log, g)
    ensures SetOf(afterRows) == RowsAt(FoldRows(events, c, card), g.e, g.a)
    ensures DistinctRowIds(afterRows) && Splittable(SetOf(afterRows))
    ensures forall r :: r in afterRows ==> Proper(r) && r.e == g.e && r.a == g.a
  {
    events := EventsForCoord(log, g);
    EventsForCoordContents(log, g);
    assert SetOf(events) <= SetOf(log);
    var folded := InsertableRows(events, c, card);
    RowsForCoordContents(folded, g);
    afterRows := RowsForCoord(folded, g);
    assert forall r :: r in afterRows ==> r in SetOf(afterRows) && r in folded;
  }

  /** Refold the one group an appended event touches. */
  method Reconcile(store: EventStore, projection: ProjectionStore, x: Event, card: CardinalityOf, c: Coord)
    returns (r: RebuildResult)
    requires store.Valid() && projection.Valid() && CleanNames(SetOf(EventsOf(store.rows))) && Splittable(projection.Rows())
    modifies projection
    ensures projection.Valid() && Splittable(projection.Rows())
    ensures projection.Rows() == Reconciled(old(projection.Rows()), EventsOf(store.rows), x, c, card)
    ensures Summarises(r.changed, old(projection.Rows()), projection.Rows())
    ensures r.rows == |projection.table|
    ensures r.events == match Touched(EventsOf(store.rows), x)
                        case None => 0
                        case Some(g) => |EventsForCoord(EventsOf(store.rows), g)|
  {
    var log := store.ScanAll();
    var target: Option<Event> := None;
    if x.body.target.Some? {
      var found := store.Get(x.body.target.value);
      if found.Some? { target := Some(found.value.event); }
    }
    StoredDistinct(store.rows);
    TouchedByLookup(log, x, target);
    var touched := if AssertCoord(x).Some? then AssertCoord(x)
                   else if target.Some? then AssertCoord(target.value) else None;
    if touched.None? {
      r := RebuildResult(0, |projection.table|, []);
    } else {
      var g := touched.value;
      var beforeRows := projection.Scan(g);
      var events, afterRows := GroupRowsFromSubLog(log, g, card, c);
      var count := projection.ReplaceMatching(g, afterRows);
      var changed := ProjectionChangeSummary(beforeRows, afterRows);
      ReplacedGroup(old(projection.Rows()), projection.Rows(), SetOf(afterRows), g);
      LocalSummary(changed, old(projection.Rows()), projection.Rows(), g);
      r := RebuildResult(|events|, |projection.table|, changed);
    }
  }

  lemma ReplacedGroup(before: set<Row>, after: set<Row>, added: set<Row>, g: Group)
    requires after == (before - RowsAt(before, g.e, g.a)) + added
    requires forall r :: r in added ==> r.e == g.e && r.a == g.a
    ensures RowsAt(after, g.e, g.a) == added
    ensures before - RowsAt(before, g.e, g.a) == after - RowsAt(after, g.e, g.a)
  {
  }

  /** Where only one group changed, the summary of that group is the summary of the whole table. */
  lemma LocalSummary(changes: seq<Change>, before: set<Row>, after: set<Row>, g: Group)
    requires before - RowsAt(before, g.e, g.a) == after - RowsAt(after, g.e, g.a)
    requires Summarises(changes, RowsAt(before, g.e, g.a), RowsAt(after, g.e, g.a))
    ensures Summarises(changes, before, after)
  {
    forall e, a ensures
        EventIdsAt(before, e, a) != EventIdsAt(after, e, a) <==>
        EventIdsAt(RowsAt(before, g.e, g.a), e, a) != EventIdsAt(RowsAt(after, g.e, g.a), e, a)
    ensures e == g.e && a == g.a ==>
              EventIdsAt(before, e, a) == EventIdsAt(RowsAt(before, g.e, g.a), e, a) &&
              EventIdsAt(after, e, a) == EventIdsAt(RowsAt(after, g.e, g.a), e, a)
    {
      IdsElsewhere(before, after, g, e, a);
    }
    forall ch | ch in changes ensures RightChange(ch, before, after) {
      assert RightChange(ch, RowsAt(before, g.e, g.a), RowsAt(after, g.e, g.a));
      if !(ch.e == g.e && ch.a == g.a) {
        assert SetOf(ch.beforeEventIds) == {} == SetOf(ch.afterEventIds);
        AscendingUnique(ch.beforeEventIds, ch.afterEventIds);
      }
    }
  }

  lemma IdsElsewhere(before: set<Row>, after: set<Row>, g: Group, e: Text, a: Text)
    requires before - RowsAt(before, g.e, g.a) == after - RowsAt(after, g.e, g.a)
    ensures e == g.e && a == g.a ==>
              EventIdsAt(before, e, a) == EventIdsAt(RowsAt(before, g.e, g.a), e, a) &&
              EventIdsAt(after, e, a) == EventIdsAt(RowsAt(after, g.e, g.a), e, a)
    ensures !(e == g.e && a == g.a) ==>
              EventIdsAt(before, e, a) == EventIdsAt(after, e, a) &&
              EventIdsAt(RowsAt(before, g.e, g.a), e, a) == {} == EventIdsAt(RowsAt(after, g.e, g.a), e, a)
  {
    if !(e == g.e && a == g.a) {
      forall r: Row | r.e == e && r.a == a ensures r in before <==> r in after {
        assert r in before - RowsAt(before, g.e, g.a) <==> r in after - RowsAt(after, g.e, g.a);
      }
    }
  }

  /** One surface write: append an event, then reconcile its group. */
  method AppendAndReconcile(store: EventStore, projection: ProjectionStore, x: Event, seqNo: Option<nat>,
                            card: CardinalityOf, c: Coord)
    returns (ok: bool, r: RebuildResult)
    requires store.Valid() && projection.Valid() && LogIndependent(card)
    requires SameContent(SetOf(EventsOf(store.rows)) + {x}) && CleanNames(SetOf(EventsOf(store.rows)) + {x})
    requires projection.Rows() == FoldRows(EventsOf(store.rows), c, card)
    modifies store, projection
    ensures store.Valid() && projection.Valid()
    ensures ok <==> x.id == store.address(x.body)
    ensures SetOf(EventsOf(store.rows)) == SetOf(old(EventsOf(store.rows))) + (if ok then {x} else {})
    ensures projection.Rows() == FoldRows(EventsOf(store.rows), c, card)
    ensures AllCarried(projection.Rows(), EventsOf(store.rows), c)
    ensures Summarises(r.changed, old(projection.Rows()), projection.Rows())
  {
    hide FoldRows, Reconciled, Summarises, LogIndependent, EventsOf, Splittable, AllCarried, Touched, EventsForCoord, SameContent, SetOf, DistinctIds;
    ghost var before := EventsOf(store.rows);
    StoredSet(store);
    FoldRowsProperOf(store, {x}, c, card);
    var appended := store.Append(x, seqNo);
    ok := appended != InvalidId;
    FoldRowsCarry(EventsOf(store.rows), c, card);
    if !ok {
      NoChange(projection.Rows());
      r := RebuildResult(0, |projection.table|, []);
      return;
    }
    StoredSet(store);
    ReconcileKeepsFold(before, EventsOf(store.rows), x, c, card);
    r := Reconcile(store, projection, x, card, c);
  }

  lemma StoredSet(store: EventStore)
    requires store.Valid()
    ensures DistinctIds(EventsOf(store.rows)) && SetOf(EventsOf(store.rows)) == store.Events()
  {
    StoredDistinct(store.rows);
  }

  lemma FoldRowsProperOf(store: EventStore, more: set<Event>, c: Coord, card: CardinalityOf)
    requires CleanNames(SetOf(EventsOf(store.rows)) + more)
    ensures Splittable(FoldRows(EventsOf(store.rows), c, card))
  {
    FoldRowsProper(EventsOf(store.rows), c, card);
  }

  lemma NoChange(rows: set<Row>)
    ensures Summarises([], rows, rows)
  {
  }
}
