/**
 * One fact in three views: its event history, the interval row a rebuild folds from it, and the core
 * fold of the same events. Exactly when the row answers what the core fold answers.
 */
module FactRow {
  import opened Seqs
  import opened Text
  import opened Core
  import opened Fold
  import Ordering

  /** A stored event of the fact; its transaction time is its clock's physical time. */
  datatype FactEvent = FactEvent(kind: Kind, hlc: Hlc, id: EventId, validFrom: Option<int>, validTo: Option<int>)

  function TxTime(x: FactEvent): int { x.hlc.pt }

  datatype FactRow = FactRow(
    e: Text, a: Text, v: Value, assertEventId: EventId, assertedAt: int, validFrom: int, validTo: Option<int>,
    retractedAt: Option<int>, tombstonedAt: Option<int>)

  predicate EventLess(x: FactEvent, y: FactEvent) {
    var h := CompareHlc(x.hlc, y.hlc);
    if h != 0 then h < 0 else Less(x.id, y.id)
  }

  predicate IsMark(x: FactEvent) { x.kind == Tombstone || x.kind == Untombstone }

  // ---- the rebuild ---------------------------------------------------------------------

  datatype Folded = Folded(validTo: Option<int>, retractedAt: Option<int>, tombstonedAt: Option<int>)

  function FoldOne(f: Folded, x: FactEvent): Folded {
    match x.kind
    case Retract => f.(retractedAt := Some(TxTime(x)), validTo := if x.validTo.Some? then x.validTo else f.validTo)
    case Tombstone => f.(tombstonedAt := Some(TxTime(x)))
    case Untombstone => f.(tombstonedAt := None)
    case Assert => f
  }

  function FoldEvents(evs: seq<FactEvent>, validTo: Option<int>): Folded {
    if evs == [] then Folded(validTo, None, None) else FoldOne(FoldEvents(evs[..|evs| - 1], validTo), evs[|evs| - 1])
  }

  function FirstAssert(evs: seq<FactEvent>): Option<FactEvent> {
    if evs == [] then None else if evs[0].kind == Assert then Some(evs[0]) else FirstAssert(evs[1..])
  }

  function OrElseInt(t: Option<int>, other: int): int { if t.Some? then t.value else other }

  function RowOf(a: FactEvent, f: Folded, row: FactRow): FactRow {
    row.(assertedAt := TxTime(a), validFrom := OrElseInt(a.validFrom, TxTime(a)), validTo := f.validTo,
         retractedAt := f.retractedAt, tombstonedAt := f.tombstonedAt)
  }

  function Sorted(events: seq<FactEvent>): seq<FactEvent> { Ordering.Sort(events, EventLess) }

  /** The row a rebuild patches in for a fact with these events. */
  function Rebuilt(events: seq<FactEvent>, row: FactRow): FactRow {
    var evs := Sorted(events);
    var a := FirstAssert(evs);
    if a.None? then row else RowOf(a.value, FoldEvents(evs, a.value.validTo), row)
  }

  /**
   * The row of the history: asserted and valid from when its assert says, retracted at its latest retract,
   * valid to what the last retract that moves the end says, tombstoned if its last mark is a tombstone.
   */
  ghost predicate FoldedFrom(events: seq<FactEvent>, a: FactEvent, row: FactRow) {
    && row.assertedAt == a.hlc.pt && row.validFrom == (if a.validFrom.Some? then a.validFrom.value else a.hlc.pt)
    && (row.retractedAt.Some? <==> exists x :: x in events && x.kind == Retract)
    && (row.retractedAt.Some? ==> LatestOf(events, Retract, row.retractedAt.value))
    && (row.tombstonedAt.Some? <==> EndsTombstoned(events))
    && (row.tombstonedAt.Some? ==> row.tombstonedAt.value == LastMarkOf(events).value.hlc.pt)
    && row.validTo == MovedTo(events, a)
  }

  ghost predicate LatestOf(events: seq<FactEvent>, kind: Kind, t: int) {
    (exists x :: x in events && x.kind == kind && x.hlc.pt == t) && forall x :: x in events && x.kind == kind ==> x.hlc.pt <= t
  }

  lemma RebuiltTells(events: seq<FactEvent>, row: FactRow)
    ensures var r := Rebuilt(events, row);
            && r.e == row.e && r.a == row.a && r.v == row.v && r.assertEventId == row.assertEventId
            && ((forall x :: x in events ==> x.kind != Assert) ==> r == row)
  {
    SortedInTime(events);
    FirstAssertMember(Sorted(events));
    hide Sorted, FoldEvents;
  }

  lemma RebuiltFrom(events: seq<FactEvent>, a: FactEvent, row: FactRow)
    requires HistoryOf(events, a)
    ensures FoldedFrom(events, a, Rebuilt(events, row))
  {
    RebuiltRow(events, a, row);
    FoldOfLaws(events, a);
    RetractedLatest(events, a);
    FoldedValidTo(Sorted(events), a.validTo);
    hide FoldEvents, LastMark, LastMove, Sorted, HistoryOf, LatestOf;
  }

  lemma RetractedLatest(events: seq<FactEvent>, a: FactEvent)
    ensures var t := FoldOf(events, a).retractedAt;
            (t.Some? <==> exists x :: x in events && x.kind == Retract) && (t.Some? ==> LatestOf(events, Retract, t.value))
  {
    FoldOfLaws(events, a);
    hide FoldOf, LastMarkOf, EndsTombstoned;
  }

  lemma {:induction false} FirstAssertMember(s: seq<FactEvent>)
    ensures FirstAssert(s).Some? ==> FirstAssert(s).value in s && FirstAssert(s).value.kind == Assert
  {
    if s != [] && s[0].kind != Assert { FirstAssertMember(s[1..]); }
  }

  method RebuildFact(events: seq<FactEvent>, row: FactRow) returns (patched: FactRow)
    ensures patched == Rebuilt(events, row)
    ensures patched.e == row.e && patched.a == row.a && patched.v == row.v && patched.assertEventId == row.assertEventId
    ensures (forall x :: x in events ==> x.kind != Assert) ==> patched == row
    ensures forall a :: HistoryOf(events, a) ==> FoldedFrom(events, a, patched)
  {
    RebuiltTells(events, row);
    forall a | HistoryOf(events, a) ensures FoldedFrom(events, a, Rebuilt(events, row)) { RebuiltFrom(events, a, row); }
    hide FoldedFrom, HistoryOf;
    var evs := Sorted(events);
    var assertEv := FirstAssert(evs);
    if assertEv.None? { return row; }
    var validTo := assertEv.value.validTo;
    var retractedAt, tombstonedAt: Option<int> := None, None;
    for i := 0 to |evs|
      invariant Folded(validTo, retractedAt, tombstonedAt) == FoldEvents(evs[..i], assertEv.value.validTo)
    {
      var x := evs[i];
      TakeNext(evs, i);
      if x.kind == Retract {
        retractedAt := Some(TxTime(x));
        if x.validTo.Some? { validTo := x.validTo; }
      } else if x.kind == Tombstone {
        tombstonedAt := Some(TxTime(x));
      } else if x.kind == Untombstone {
        tombstonedAt := None;
      }
    }
    TakeAll(evs);
    patched := RowOf(assertEv.value, Folded(validTo, retractedAt, tombstonedAt), row);
  }

  // ---- reading the row -----------------------------------------------------------------

  function UntilOf(t: Option<int>): Until { if t.Some? then At(t.value) else Open }

  const NOBODY := Body(Assert, Lit("convex"), System, Hlc(0, 0, Lit("convex")), None, None, None, None, Absent, None, Some([]), None)

  function RowAssert(row: FactRow): Event {
    Event(row.assertEventId, NOBODY.(hlc := Hlc(row.assertedAt, 0, Lit("convex")), e := Some(row.e), a := Some(row.a), v := Some(row.v),
                                     validFrom := Some(row.validFrom), validTo := UntilOf(row.validTo)))
  }

  function RowMark(row: FactRow, kind: Kind, suffix: string, at: int): Event {
    Event(row.assertEventId + Lit(suffix), NOBODY.(kind := kind, hlc := Hlc(at, 0, Lit("convex")), target := Some(row.assertEventId)))
  }

  /** The little log of at most three events that a row is read as. */
  function RowEvents(row: FactRow): seq<Event> {
    [RowAssert(row)]
    + (if row.retractedAt.Some? then [RowMark(row, Retract, ":retract", row.retractedAt.value)] else [])
    + (if row.tombstonedAt.Some? then [RowMark(row, Tombstone, ":tombstone", row.tombstonedAt.value)] else [])
  }

  /** The first of them is the row's assert; the others target it, at the times that the row gives. */
  lemma RowEventsAre(row: FactRow, x: Event)
    ensures var a := RowEvents(row)[0];
            && a.id == row.assertEventId && a.body.kind == Assert && a.body.hlc == Hlc(row.assertedAt, 0, Lit("convex"))
            && a.body.e == Some(row.e) && a.body.a == Some(row.a) && a.body.v == Some(row.v) && a.body.validFrom == Some(row.validFrom)
            && a.body.validTo == (if row.validTo.Some? then At(row.validTo.value) else Open)
    ensures x in RowEvents(row)[1..] ==>
              && x.body.hlc.l == 0 && x.body.hlc.r == Lit("convex")
              && x.body.target == Some(row.assertEventId) && x.body.e.None? && x.body.a.None? && x.body.v.None?
              && ((x.body.kind == Retract && row.retractedAt == Some(x.body.hlc.pt) && x.id == row.assertEventId + Lit(":retract")) ||
                  (x.body.kind == Tombstone && row.tombstonedAt == Some(x.body.hlc.pt) && x.id == row.assertEventId + Lit(":tombstone")))
  {
  }

  predicate IsFactVisible(row: FactRow, c: Coord, f: Flags) {
    Visible(RowAssert(row), c, PutAll([], RowEvents(row)), f)
  }

  predicate Within(validFrom: int, validTo: Option<int>, t: int) {
    validFrom <= t && (validTo.Some? ==> t < validTo.value)
  }

  predicate Reached(t: Option<int>, txTime: int) { t.Some? && t.value <= txTime }

  lemma RowEventsDistinct(row: FactRow)
    ensures PutAll([], RowEvents(row)) == RowEvents(row)
  {
    var evs := RowEvents(row);
    assert |Lit(":retract")| == 8 && |Lit(":tombstone")| == 10;
    forall i, j | 0 <= i < j < |evs| ensures evs[i].id != evs[j].id {
      assert |evs[i].id| != |evs[j].id|;
    }
    FromDistinctEvents(evs);
  }

  /** What reading a row comes to. */
  lemma RowReading(row: FactRow, c: Coord, f: Flags)
    ensures IsFactVisible(row, c, f) <==>
              row.assertedAt <= c.txTime && (f.includeRetracted || !Reached(row.retractedAt, c.txTime)) &&
              (f.includeTombstoned || !Reached(row.tombstonedAt, c.txTime)) && Within(row.validFrom, row.validTo, c.validTime)
  {
    RowEventsDistinct(row);
    var log, id, t := RowEvents(row), row.assertEventId, c.txTime;
    ActedOnMembers(log, Retract, id, t);
    TombstonedMeaning(log, RowAssert(row), t);
    RowMarks(row, t);
    var retracts := ActedOn(log, Retract, id, t);
    assert |retracts| > 0 ==> retracts[0] in retracts;
  }

  lemma RowMarks(row: FactRow, t: int)
    ensures (exists x :: x in RowEvents(row) && ActsOn(x, Retract, row.assertEventId, t)) <==> Reached(row.retractedAt, t)
    ensures (exists x :: x in RowEvents(row) && ActsOn(x, Tombstone, row.assertEventId, t)) <==> Reached(row.tombstonedAt, t)
    ensures forall x :: x in RowEvents(row) ==> !ActsOn(x, Untombstone, row.assertEventId, t)
  {
    var evs := RowEvents(row);
    if row.retractedAt.Some? {
      var x := RowMark(row, Retract, ":retract", row.retractedAt.value);
      assert evs[1] == x && (ActsOn(x, Retract, row.assertEventId, t) <==> row.retractedAt.value <= t);
    }
    if row.tombstonedAt.Some? {
      var x := RowMark(row, Tombstone, ":tombstone", row.tombstonedAt.value);
      assert evs[|evs| - 1] == x && (ActsOn(x, Tombstone, row.assertEventId, t) <==> row.tombstonedAt.value <= t);
    }
  }

  // ---- the core fold of the same history ------------------------------------------------------

  /** The protocol event behind a stored one. */
  function ToCore(x: FactEvent, target: EventId): Event {
    if x.kind == Assert then
      Event(x.id, NOBODY.(hlc := x.hlc, validFrom := Some(OrElseInt(x.validFrom, TxTime(x))), validTo := UntilOf(x.validTo)))
    else
      Event(x.id, NOBODY.(kind := x.kind, hlc := x.hlc, target := Some(target)))
  }

  function CoreLog(events: seq<FactEvent>, target: EventId): Log { Map(events, (x: FactEvent) => ToCore(x, target)) }

  /** A fact has one assert; everything else targets it. */
  ghost predicate HistoryOf(events: seq<FactEvent>, a: FactEvent) {
    a in events && a.kind == Assert && forall x :: x in events && x.kind == Assert ==> x == a
  }

  ghost predicate CoreVisible(events: seq<FactEvent>, a: FactEvent, c: Coord, f: Flags) {
    Visible(ToCore(a, a.id), c, CoreLog(events, a.id), f)
  }

  predicate OfKind(x: FactEvent, kind: Kind, t: int) { x.kind == kind && TxTime(x) <= t }

  ghost predicate RetractedBy(events: seq<FactEvent>, t: int) {
    exists x :: x in events && OfKind(x, Retract, t)
  }

  /** Some tombstone by then has no strictly later untombstone by then. */
  ghost predicate TombstonedBy(events: seq<FactEvent>, t: int) {
    exists x :: x in events && OfKind(x, Tombstone, t) &&
      forall u :: u in events && OfKind(u, Untombstone, t) ==> TxTime(u) <= TxTime(x)
  }

  lemma CoreLogMember(events: seq<FactEvent>, id: EventId, kind: Kind, t: int)
    requires kind != Assert
    ensures forall x :: x in events ==> ToCore(x, id) in CoreLog(events, id)
    ensures forall x :: x in events ==> (ActsOn(ToCore(x, id), kind, id, t) <==> OfKind(x, kind, t))
    ensures forall y :: y in CoreLog(events, id) ==> exists x :: x in events && y == ToCore(x, id)
  {
    var log := CoreLog(events, id);
    forall x | x in events ensures ToCore(x, id) in log {
      var i :| 0 <= i < |events| && events[i] == x;
      assert log[i] == ToCore(x, id);
    }
  }

  lemma CoreTombstoned(events: seq<FactEvent>, a: FactEvent, t: int)
    ensures Tombstoned(CoreLog(events, a.id), ToCore(a, a.id), t) <==> TombstonedBy(events, t)
  {
    var log, core := CoreLog(events, a.id), ToCore(a, a.id);
    TombstonedMeaning(log, core, t);
    CoreLogMember(events, a.id, Tombstone, t);
    CoreLogMember(events, a.id, Untombstone, t);
    if Tombstoned(log, core, t) {
      var y :| y in log && ActsOn(y, Tombstone, a.id, t) && forall u :: u in log && ActsOn(u, Untombstone, a.id, t) ==> u.body.hlc.pt <= y.body.hlc.pt;
      var x :| x in events && y == ToCore(x, a.id);
      forall u | u in events && OfKind(u, Untombstone, t) ensures TxTime(u) <= TxTime(x) {
        assert ToCore(u, a.id) in log;
      }
    }
    if TombstonedBy(events, t) {
      var x :| x in events && OfKind(x, Tombstone, t) && forall u :: u in events && OfKind(u, Untombstone, t) ==> TxTime(u) <= TxTime(x);
      var y := ToCore(x, a.id);
      forall u | u in log && ActsOn(u, Untombstone, a.id, t) ensures u.body.hlc.pt <= y.body.hlc.pt {
        var w :| w in events && u == ToCore(w, a.id);
      }
      assert y in log && ActsOn(y, Tombstone, a.id, t);
    }
  }

  /** What the core fold says of the fact. */
  lemma CoreReading(events: seq<FactEvent>, a: FactEvent, c: Coord, f: Flags)
    requires HistoryOf(events, a)
    ensures CoreVisible(events, a, c, f) <==>
              TxTime(a) <= c.txTime && (f.includeRetracted || !RetractedBy(events, c.txTime)) &&
              (f.includeTombstoned || !TombstonedBy(events, c.txTime)) &&
              Within(OrElseInt(a.validFrom, TxTime(a)), a.validTo, c.validTime)
  {
    var log := CoreLog(events, a.id);
    CoreTombstoned(events, a, c.txTime);
    CoreLogMember(events, a.id, Retract, c.txTime);
    ActedOnMembers(log, Retract, a.id, c.txTime);
    var retracts := ActedOn(log, Retract, a.id, c.txTime);
    assert |retracts| > 0 ==> retracts[0] in retracts;
    if RetractedBy(events, c.txTime) {
      var x :| x in events && OfKind(x, Retract, c.txTime);
      assert ToCore(x, a.id) in retracts;
    }
  }

  // ---- what the rebuild leaves in the row -------------------------------------------------

  lemma EventLessLaws(x: FactEvent, y: FactEvent, z: FactEvent)
    ensures EventLess(x, y) ==> !EventLess(y, x)
    ensures EventLess(x, y) ==> EventLess(x, z) || EventLess(z, y)
  {
    hide CompareHlc, Less;
    CompareHlcLaws(x.hlc, y.hlc, x.hlc);
    CompareHlcLaws(x.hlc, z.hlc, y.hlc);
    CompareHlcLaws(z.hlc, x.hlc, y.hlc);
    if Less(x.id, y.id) { LessAsymmetric(x.id, y.id); }
    LessNegTransitive(x.id, y.id, z.id);
  }

  /** The history is folded by physical time, then counter, replica and id. */
  lemma FoldedInOrder(events: seq<FactEvent>, i: nat, j: nat)
    requires i < j < |Sorted(events)|
    ensures var g, h := Sorted(events)[i].hlc, Sorted(events)[j].hlc;
            g.pt < h.pt || (g.pt == h.pt && (g.l < h.l || (g.l == h.l && (Less(g.r, h.r) || (g.r == h.r &&
              (Less(Sorted(events)[i].id, Sorted(events)[j].id) || Sorted(events)[i].id == Sorted(events)[j].id))))))
  {
    EventLessWeakOrder();
    Ordering.SortSorted(events, EventLess);
    var x, y := Sorted(events)[i], Sorted(events)[j];
    hide Sorted;
    assert !EventLess(y, x);
    LessConnected(x.hlc.r, y.hlc.r);
    LessConnected(x.id, y.id);
    if Less(x.hlc.r, y.hlc.r) { LessAsymmetric(x.hlc.r, y.hlc.r); }
    if Less(y.hlc.r, x.hlc.r) { LessAsymmetric(y.hlc.r, x.hlc.r); }
  }

  lemma EventLessWeakOrder()
    ensures Ordering.WeakOrder(EventLess)
  {
    hide EventLess;
    forall x, y | EventLess(x, y) ensures !EventLess(y, x) { EventLessLaws(x, y, x); }
    forall x, y, z | EventLess(x, y) ensures EventLess(x, z) || EventLess(z, y) { EventLessLaws(x, y, z); }
  }

  ghost predicate InTime(s: seq<FactEvent>) {
    forall i, j :: 0 <= i < j < |s| ==> TxTime(s[i]) <= TxTime(s[j])
  }

  lemma SortedInTime(events: seq<FactEvent>)
    ensures InTime(Sorted(events)) && forall x :: x in Sorted(events) <==> x in events
  {
    var s := Sorted(events);
    EventLessWeakOrder();
    Ordering.SortSorted(events, EventLess);
    Ordering.SameElements(s, events);
    forall i, j | 0 <= i < j < |s| ensures TxTime(s[i]) <= TxTime(s[j]) {
      assert !EventLess(s[j], s[i]);
    }
  }

  /** The last tombstone or untombstone of a sorted history. */
  function LastMark(s: seq<FactEvent>): Option<FactEvent> {
    if s == [] then None else if IsMark(s[|s| - 1]) then Some(s[|s| - 1]) else LastMark(s[..|s| - 1])
  }

  lemma {:induction false} LastMarkLaws(s: seq<FactEvent>)
    requires InTime(s)
    ensures LastMark(s).None? ==> forall x :: x in s ==> !IsMark(x)
    ensures LastMark(s).Some? ==> LastMark(s).value in s && IsMark(LastMark(s).value) &&
                                  forall x :: x in s && IsMark(x) ==> TxTime(x) <= TxTime(LastMark(s).value)
  {
    if s != [] {
      SplitLast(s);
      LastMarkLaws(s[..|s| - 1]);
    }
  }

  lemma LastInTime(s: seq<FactEvent>)
    requires InTime(s) && s != []
    ensures s[|s| - 1] in s && forall x :: x in s <==> x in s[..|s| - 1] || x == s[|s| - 1]
    ensures forall x :: x in s ==> TxTime(x) <= TxTime(s[|s| - 1])
  {
    SplitLast(s);
  }

  /** The last retract is the latest. */
  lemma {:induction false} FoldedRetracts(s: seq<FactEvent>, validTo: Option<int>)
    requires InTime(s)
    ensures var r := FoldEvents(s, validTo).retractedAt;
            && (r.Some? ==> exists x :: x in s && x.kind == Retract && TxTime(x) == r.value)
            && (forall x :: x in s && x.kind == Retract ==> r.Some? && TxTime(x) <= r.value)
            && (r.None? ==> FoldEvents(s, validTo).validTo == validTo)
  {
    if s != [] {
      var init, last := s[..|s| - 1], s[|s| - 1];
      FoldedRetracts(init, validTo);
      LastInTime(s);
      hide InTime;
      var r := FoldEvents(init, validTo).retractedAt;
      if last.kind != Retract && r.Some? {
        var x :| x in init && x.kind == Retract && TxTime(x) == r.value;
        assert x in s;
      }
    }
  }

  lemma {:induction false} FoldedTombstone(s: seq<FactEvent>, validTo: Option<int>)
    ensures FoldEvents(s, validTo).tombstonedAt ==
            if LastMark(s).Some? && LastMark(s).value.kind == Tombstone then Some(TxTime(LastMark(s).value)) else None
  {
    if s != [] { FoldedTombstone(s[..|s| - 1], validTo); }
  }

  lemma {:induction false} FirstAssertIs(s: seq<FactEvent>, a: FactEvent)
    requires a in s && a.kind == Assert && forall x :: x in s && x.kind == Assert ==> x == a
    ensures FirstAssert(s) == Some(a)
  {
    if s[0].kind != Assert { FirstAssertIs(s[1..], a); }
  }

  function FoldOf(events: seq<FactEvent>, a: FactEvent): Folded { FoldEvents(Sorted(events), a.validTo) }

  function LastMarkOf(events: seq<FactEvent>): Option<FactEvent> { LastMark(Sorted(events)) }

  predicate EndsTombstoned(events: seq<FactEvent>) {
    LastMarkOf(events).Some? && LastMarkOf(events).value.kind == Tombstone
  }

  lemma RebuiltRow(events: seq<FactEvent>, a: FactEvent, row: FactRow)
    requires HistoryOf(events, a)
    ensures Rebuilt(events, row) == RowOf(a, FoldOf(events, a), row)
  {
    SortedInTime(events);
    FirstAssertIs(Sorted(events), a);
  }

  lemma FoldOfLaws(events: seq<FactEvent>, a: FactEvent)
    ensures var f := FoldOf(events, a);
            && (f.retractedAt.Some? ==> exists x :: x in events && x.kind == Retract && TxTime(x) == f.retractedAt.value)
            && (forall x :: x in events && x.kind == Retract ==> f.retractedAt.Some? && TxTime(x) <= f.retractedAt.value)
            && (f.retractedAt.None? ==> f.validTo == a.validTo)
            && f.tombstonedAt == if EndsTombstoned(events) then Some(TxTime(LastMarkOf(events).value)) else None
    ensures LastMarkOf(events).None? ==> forall x :: x in events ==> !IsMark(x)
    ensures LastMarkOf(events).Some? ==> LastMarkOf(events).value in events && IsMark(LastMarkOf(events).value) &&
                                         forall x :: x in events && IsMark(x) ==> TxTime(x) <= TxTime(LastMarkOf(events).value)
  {
    SortedInTime(events);
    FoldedRetracts(Sorted(events), a.validTo);
    FoldedTombstone(Sorted(events), a.validTo);
    LastMarkLaws(Sorted(events));
  }

  // ---- when row and core agree ----------------------------------------------------------------

  ghost predicate Agree(events: seq<FactEvent>, a: FactEvent, row: FactRow, c: Coord, f: Flags) {
    IsFactVisible(Rebuilt(events, row), c, f) <==> CoreVisible(events, a, c, f)
  }

  function From(a: FactEvent): int { OrElseInt(a.validFrom, TxTime(a)) }

  predicate Empty(validFrom: int, validTo: Option<int>) { validTo.Some? && validTo.value <= validFrom }

  /** The retract that moves the end of the valid interval last. */
  function LastMove(s: seq<FactEvent>): Option<FactEvent> {
    if s == [] then None else if Moves(s[|s| - 1]) then Some(s[|s| - 1]) else LastMove(s[..|s| - 1])
  }

  predicate Moves(x: FactEvent) { x.kind == Retract && x.validTo.Some? }

  lemma {:induction false} FoldedValidTo(s: seq<FactEvent>, validTo: Option<int>)
    ensures FoldEvents(s, validTo).validTo == if LastMove(s).Some? then LastMove(s).value.validTo else validTo
  {
    if s != [] { FoldedValidTo(s[..|s| - 1], validTo); }
  }

  /** It is one of those that no other follows in the order of clock and id. */
  lemma {:induction false} LastMoveLaws(s: seq<FactEvent>)
    requires Ordering.SortedBy(s, EventLess)
    ensures LastMove(s).None? ==> forall x :: x in s ==> !Moves(x)
    ensures LastMove(s).Some? ==> LastMove(s).value in s && Moves(LastMove(s).value) &&
                                  forall x :: x in s && Moves(x) ==> !EventLess(LastMove(s).value, x)
  {
    if s != [] {
      var init, last := s[..|s| - 1], s[|s| - 1];
      LastMoveLaws(init);
      SplitLast(s);
      EventLessLaws(last, last, last);
    }
  }

  function MovedTo(events: seq<FactEvent>, a: FactEvent): Option<int> {
    var m := LastMove(Sorted(events));
    if m.Some? then m.value.validTo else a.validTo
  }

  /** No retract has moved the end of the valid interval, an interval empty either way aside. */
  predicate SpanKept(events: seq<FactEvent>, a: FactEvent) {
    MovedTo(events, a) == a.validTo || (Empty(From(a), MovedTo(events, a)) && Empty(From(a), a.validTo))
  }

  lemma SpanKeptIff(events: seq<FactEvent>, a: FactEvent)
    ensures SpanKept(events, a) <==>
              forall t :: Within(From(a), FoldOf(events, a).validTo, t) <==> Within(From(a), a.validTo, t)
  {
    FoldedValidTo(Sorted(events), a.validTo);
    var from, to1, to2 := From(a), FoldOf(events, a).validTo, a.validTo;
    var x := OrElseInt(to1, from);
    var y := OrElseInt(to2, from);
    var tx, ty := if x > from then x else from, if y > from then y else from;
    assert !SpanKept(events, a) ==>
      (Within(from, to1, tx) != Within(from, to2, tx)) || (Within(from, to1, ty) != Within(from, to2, ty));
  }

  /** Agreement, once row and core are read off. */
  lemma AgreeReading(events: seq<FactEvent>, a: FactEvent, row: FactRow, c: Coord, f: Flags)
    requires HistoryOf(events, a)
    ensures var g := FoldOf(events, a);
            Agree(events, a, row, c, f) <==>
              (TxTime(a) <= c.txTime ==>
                ((f.includeRetracted || !Reached(g.retractedAt, c.txTime)) && (f.includeTombstoned || !Reached(g.tombstonedAt, c.txTime)) &&
                  Within(From(a), g.validTo, c.validTime)
                <==>
                (f.includeRetracted || !RetractedBy(events, c.txTime)) && (f.includeTombstoned || !TombstonedBy(events, c.txTime)) &&
                  Within(From(a), a.validTo, c.validTime)))
  {
    hide IsFactVisible, CoreVisible, FoldOf, RetractedBy, TombstonedBy, Within, Reached, Rebuilt;
    RebuiltRow(events, a, row);
    RowReading(RowOf(a, FoldOf(events, a), row), c, f);
    CoreReading(events, a, c, f);
  }

  ghost predicate AgreeAt(events: seq<FactEvent>, a: FactEvent, row: FactRow, t: int) {
    forall c: Coord, f :: c.txTime == t ==> Agree(events, a, row, c, f)
  }

  ghost predicate RetractsAgree(events: seq<FactEvent>, a: FactEvent, t: int) {
    Reached(FoldOf(events, a).retractedAt, t) <==> RetractedBy(events, t)
  }

  ghost predicate TombstonesAgree(events: seq<FactEvent>, a: FactEvent, t: int) {
    Reached(FoldOf(events, a).tombstonedAt, t) <==> TombstonedBy(events, t)
  }

  /** At one transaction time, for every valid time and both flags: agreement clause by clause. */
  lemma AgreeAtIff(events: seq<FactEvent>, a: FactEvent, row: FactRow, t: int)
    requires HistoryOf(events, a) && TxTime(a) <= t
    ensures AgreeAt(events, a, row, t) <==>
              SpanKept(events, a) && (Empty(From(a), a.validTo) || (RetractsAgree(events, a, t) && TombstonesAgree(events, a, t)))
  {
    hide Agree, FoldOf, RetractedBy, TombstonedBy, SpanKept, Within, Reached;
    var g, from := FoldOf(events, a), From(a);
    SpanKeptIff(events, a);
    NonEmptySpan(from, a.validTo);
    forall c: Coord, f | c.txTime == t
      ensures Agree(events, a, row, c, f) <==>
                ((f.includeRetracted || !Reached(g.retractedAt, t)) && (f.includeTombstoned || !Reached(g.tombstonedAt, t)) && Within(from, g.validTo, c.validTime)
                 <==>
                 (f.includeRetracted || !RetractedBy(events, t)) && (f.includeTombstoned || !TombstonedBy(events, t)) && Within(from, a.validTo, c.validTime))
    {
      AgreeReading(events, a, row, c, f);
    }
    if AgreeAt(events, a, row, t) {
      forall v ensures Within(from, g.validTo, v) <==> Within(from, a.validTo, v) {
        assert Agree(events, a, row, Coord(t, v), Flags(true, true));
      }
      if !Empty(from, a.validTo) {
        assert Agree(events, a, row, Coord(t, from), Flags(false, true));
        assert Agree(events, a, row, Coord(t, from), Flags(true, false));
      }
    }
  }

  lemma NonEmptySpan(from: int, validTo: Option<int>)
    ensures Empty(from, validTo) <==> forall t :: !Within(from, validTo, t)
    ensures !Empty(from, validTo) ==> Within(from, validTo, from)
  {
    assert !Empty(from, validTo) ==> Within(from, validTo, from);
  }

  // ---- late coordinates -------------------------------------------------------------------------

  predicate AllBy(events: seq<FactEvent>, t: int) { forall x :: x in events ==> TxTime(x) <= t }

  /** The history ends in an untombstone stamped no later than a tombstone before it. */
  predicate Tie(events: seq<FactEvent>) {
    LastMarkOf(events).Some? && LastMarkOf(events).value.kind == Untombstone &&
    exists x :: x in events && x.kind == Tombstone && TxTime(x) == TxTime(LastMarkOf(events).value)
  }

  lemma LateMarks(events: seq<FactEvent>, a: FactEvent, t: int)
    requires AllBy(events, t)
    ensures Reached(FoldOf(events, a).retractedAt, t) <==> RetractedBy(events, t)
    ensures Reached(FoldOf(events, a).tombstonedAt, t) <==> EndsTombstoned(events)
    ensures TombstonedBy(events, t) <==> EndsTombstoned(events) || Tie(events)
  {
    hide FoldOf, LastMarkOf;
    FoldOfLaws(events, a);
    if LastMarkOf(events).Some? {
      var last := LastMarkOf(events).value;
      if TombstonedBy(events, t) && last.kind == Untombstone {
        var x :| x in events && OfKind(x, Tombstone, t) && forall u :: u in events && OfKind(u, Untombstone, t) ==> TxTime(u) <= TxTime(x);
        assert OfKind(last, Untombstone, t);
      }
    }
  }

  /**
   * From the last event on, the rebuilt row answers as the core fold does, whatever is asked, if and
   * only if no retract moved the valid interval and the history does not end in a tied untombstone
   * (or the interval is empty anyway).
   */
  lemma RowAgreesLateIff(events: seq<FactEvent>, a: FactEvent, row: FactRow)
    requires HistoryOf(events, a)
    ensures (forall t :: AllBy(events, t) ==> AgreeAt(events, a, row, t)) <==>
              SpanKept(events, a) && (Empty(From(a), a.validTo) || !Tie(events))
  {
    hide AgreeAt, SpanKept, Tie, EndsTombstoned;
    forall t | AllBy(events, t)
      ensures AgreeAt(events, a, row, t) <==> SpanKept(events, a) && (Empty(From(a), a.validTo) || !Tie(events))
    {
      LateMarks(events, a, t);
      AgreeAtIff(events, a, row, t);
      TieIsNoTombstone(events);
    }
    var t := SomeLateTime(events);
  }

  lemma TieIsNoTombstone(events: seq<FactEvent>)
    ensures !(Tie(events) && EndsTombstoned(events))
  {
  }

  lemma {:induction false} SomeLateTime(events: seq<FactEvent>) returns (t: int)
    ensures AllBy(events, t)
  {
    if events == [] {
      t := 0;
    } else {
      var u := SomeLateTime(events[1..]);
      t := if TxTime(events[0]) > u then TxTime(events[0]) else u;
    }
  }

  // ---- every coordinate ----------------------------------------------------------------------------

  /** Retracts are stamped alike, those before the assert aside. */
  predicate RetractsAligned(events: seq<FactEvent>, at: int) {
    forall x, y :: x in events && y in events && x.kind == Retract && y.kind == Retract ==>
      TxTime(x) == TxTime(y) || (TxTime(x) <= at && TxTime(y) <= at)
  }

  predicate LaterTombstone(events: seq<FactEvent>, x: FactEvent, at: int) {
    x in events && x.kind == Tombstone && TxTime(x) > at
  }

  /**
   * Tombstones later than the assert are stamped alike, end the history and find the fact not yet
   * tombstoned; without any, the fact was tombstoned when asserted exactly if the history ends so.
   */
  ghost predicate TombstonesAligned(events: seq<FactEvent>, at: int) {
    if exists x :: LaterTombstone(events, x, at) then
      (forall x, y :: LaterTombstone(events, x, at) && LaterTombstone(events, y, at) ==> TxTime(x) == TxTime(y)) &&
      EndsTombstoned(events) && !TombstonedBy(events, at)
    else
      TombstonedBy(events, at) <==> EndsTombstoned(events)
  }

  lemma RetractsAlignedIff(events: seq<FactEvent>, a: FactEvent, at: int)
    ensures (forall t :: t >= at ==> RetractsAgree(events, a, t)) <==> RetractsAligned(events, at)
  {
    hide FoldOf, LastMarkOf, EndsTombstoned;
    FoldOfLaws(events, a);
    var r := FoldOf(events, a).retractedAt;
    if RetractsAligned(events, at) {
      forall t | t >= at && RetractedBy(events, t) ensures RetractsAgree(events, a, t) {
        var x :| x in events && OfKind(x, Retract, t);
        var y :| y in events && y.kind == Retract && TxTime(y) == r.value;
      }
    } else {
      var x, y :| x in events && y in events && x.kind == Retract && y.kind == Retract && TxTime(x) < TxTime(y) && TxTime(y) > at;
      var t := if TxTime(x) > at then TxTime(x) else at;
      assert OfKind(x, Retract, t) && !Reached(r, t);
      assert !RetractsAgree(events, a, t);
    }
  }

  /** Tombstoned by a time, and no tombstone since the assert: tombstoned when asserted. */
  lemma AlreadyTombstoned(events: seq<FactEvent>, at: int, t: int)
    requires at <= t && TombstonedBy(events, t) && forall x :: LaterTombstone(events, x, at) ==> TxTime(x) > t
    ensures TombstonedBy(events, at)
  {
    var x :| x in events && OfKind(x, Tombstone, t) && forall u :: u in events && OfKind(u, Untombstone, t) ==> TxTime(u) <= TxTime(x);
    assert !LaterTombstone(events, x, at);
    assert OfKind(x, Tombstone, at);
    forall u | u in events && OfKind(u, Untombstone, at) ensures TxTime(u) <= TxTime(x) {
      assert OfKind(u, Untombstone, t);
    }
  }

  lemma JustTombstoned(events: seq<FactEvent>, x: FactEvent)
    requires x in events && x.kind == Tombstone
    ensures TombstonedBy(events, TxTime(x))
  {
    assert OfKind(x, Tombstone, TxTime(x));
  }

  lemma TombstonesAlignedIff(events: seq<FactEvent>, a: FactEvent, at: int)
    ensures (forall t :: t >= at ==> TombstonesAgree(events, a, t)) <==> TombstonesAligned(events, at)
  {
    hide FoldOf, LastMarkOf, TombstonedBy;
    FoldOfLaws(events, a);
    var r := FoldOf(events, a).tombstonedAt;
    if TombstonesAligned(events, at) {
      forall t | t >= at ensures TombstonesAgree(events, a, t) { AlignedAt(events, a, at, t); }
    }
    if forall t :: t >= at ==> TombstonesAgree(events, a, t) {
      assert TombstonesAgree(events, a, at);
      if exists x :: LaterTombstone(events, x, at) {
        forall x | LaterTombstone(events, x, at) ensures EndsTombstoned(events) && TxTime(x) == r.value {
          JustTombstoned(events, x);
          assert TombstonesAgree(events, a, TxTime(x));
        }
        assert !Reached(r, at);
      } else {
        if EndsTombstoned(events) { assert !LaterTombstone(events, LastMarkOf(events).value, at); }
        assert Reached(r, at) <==> EndsTombstoned(events);
      }
    }
  }

  lemma AlignedAt(events: seq<FactEvent>, a: FactEvent, at: int, t: int)
    requires TombstonesAligned(events, at) && at <= t
    ensures Reached(FoldOf(events, a).tombstonedAt, t) <==> TombstonedBy(events, t)
  {
    hide FoldOf, LastMarkOf;
    FoldOfLaws(events, a);
    var r := FoldOf(events, a).tombstonedAt;
    if Reached(r, t) {
      var last := LastMarkOf(events).value;
      assert OfKind(last, Tombstone, t);
    } else if TombstonedBy(events, t) {
      if EndsTombstoned(events) {
        var last := LastMarkOf(events).value;
        assert LaterTombstone(events, last, at);
      }
      AlreadyTombstoned(events, at, t);
    }
  }

  /**
   * At every coordinate the rebuilt row answers as the core fold does if and only if, besides, the
   * retracts and the tombstones are aligned: the row keeps one time of each, the last.
   */
  lemma RowAgreesAlwaysIff(events: seq<FactEvent>, a: FactEvent, row: FactRow)
    requires HistoryOf(events, a)
    ensures (forall c, f :: Agree(events, a, row, c, f)) <==>
              SpanKept(events, a) &&
              (Empty(From(a), a.validTo) || (RetractsAligned(events, TxTime(a)) && TombstonesAligned(events, TxTime(a))))
  {
    hide Agree, SpanKept, RetractsAgree, TombstonesAgree, RetractsAligned, TombstonesAligned;
    var at := TxTime(a);
    RetractsAlignedIff(events, a, at);
    TombstonesAlignedIff(events, a, at);
    forall t | t >= at
      ensures AgreeAt(events, a, row, t) <==> SpanKept(events, a) && (Empty(From(a), a.validTo) || (RetractsAgree(events, a, t) && TombstonesAgree(events, a, t)))
    {
      AgreeAtIff(events, a, row, t);
    }
    forall c: Coord, f | c.txTime < at ensures Agree(events, a, row, c, f) { AgreeReading(events, a, row, c, f); }
    if forall t :: t >= at ==> AgreeAt(events, a, row, t) {
      forall c: Coord, f ensures Agree(events, a, row, c, f) {
        assert c.txTime >= at ==> AgreeAt(events, a, row, c.txTime);
      }
    }
    forall t | t >= at && forall c, f :: Agree(events, a, row, c, f) ensures AgreeAt(events, a, row, t) { }
    if forall t :: t >= at ==> AgreeAt(events, a, row, t) {
      assert AgreeAt(events, a, row, at);
      if !Empty(From(a), a.validTo) {
        forall t | t >= at ensures RetractsAgree(events, a, t) && TombstonesAgree(events, a, t) {
          assert AgreeAt(events, a, row, t);
        }
      }
    }
  }

  /** One retract that leaves the interval alone, one tombstone and no untombstone: always agreed. */
  lemma SimpleHistoryAgrees(events: seq<FactEvent>, a: FactEvent, row: FactRow)
    requires HistoryOf(events, a) && SpanKept(events, a)
    requires forall x, y :: x in events && y in events && x.kind == y.kind ==> x == y
    requires forall x :: x in events ==> x.kind != Untombstone
    ensures forall c, f :: Agree(events, a, row, c, f)
  {
    hide Agree, SpanKept, FoldOf, LastMarkOf;
    var at := TxTime(a);
    FoldOfLaws(events, a);
    RowAgreesAlwaysIff(events, a, row);
    if x :| LaterTombstone(events, x, at) {
      assert forall y :: y in events && y.kind == Tombstone ==> y == x;
    } else if EndsTombstoned(events) {
      assert !LaterTombstone(events, LastMarkOf(events).value, at);
      assert OfKind(LastMarkOf(events).value, Tombstone, at);
    }
  }
}
