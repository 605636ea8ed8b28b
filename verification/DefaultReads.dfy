/**
 * Reads that leave retracted and tombstoned facts out: exactly when the rebuilt row of a fact answers
 * them as the core fold does.
 */
module DefaultReads {
  import opened Seqs
  import opened Text
  import opened Core
  import opened Fold
  import opened FactRow

  /** The row hides the fact once its last retract, or a tombstone that ends the history, is reached. */
  ghost predicate RowHidden(events: seq<FactEvent>, t: int) {
    || ((exists x :: x in events && x.kind == Retract) && forall x :: x in events && x.kind == Retract ==> TxTime(x) <= t)
    || (EndsTombstoned(events) && TxTime(LastMarkOf(events).value) <= t)
  }

  ghost predicate CoreHidden(events: seq<FactEvent>, t: int) { RetractedBy(events, t) || TombstonedBy(events, t) }

  lemma RowHiddenIs(events: seq<FactEvent>, a: FactEvent, t: int)
    ensures RowHidden(events, t) <==> Reached(FoldOf(events, a).retractedAt, t) || Reached(FoldOf(events, a).tombstonedAt, t)
  {
    hide FoldOf, LastMarkOf, EndsTombstoned;
    FoldOfLaws(events, a);
  }

  ghost predicate DefaultAgreeAt(events: seq<FactEvent>, a: FactEvent, row: FactRow, t: int) {
    forall c: Coord :: c.txTime == t ==> Agree(events, a, row, c, NO_FLAGS)
  }

  /** What agreement at one transaction time comes to. */
  ghost predicate HiddenAlikeAt(events: seq<FactEvent>, a: FactEvent, t: int) {
    if RowHidden(events, t) then CoreHidden(events, t) || Empty(From(a), a.validTo)
    else if CoreHidden(events, t) then Empty(From(a), MovedTo(events, a))
    else SpanKept(events, a)
  }

  lemma DefaultAgreeAtIff(events: seq<FactEvent>, a: FactEvent, row: FactRow, t: int)
    requires HistoryOf(events, a) && TxTime(a) <= t
    ensures DefaultAgreeAt(events, a, row, t) <==> HiddenAlikeAt(events, a, t)
  {
    hide Agree, FoldOf, RetractedBy, TombstonedBy, SpanKept, Within, Reached, RowHidden, MovedTo, Empty;
    var from, to1, to2 := From(a), FoldOf(events, a).validTo, a.validTo;
    FoldedSpan(events, a);
    RowHiddenIs(events, a, t);
    SpanKeptIff(events, a);
    NonEmptySpan(from, to1);
    NonEmptySpan(from, to2);
    forall c: Coord | c.txTime == t
      ensures Agree(events, a, row, c, NO_FLAGS) <==>
                (!RowHidden(events, t) && Within(from, to1, c.validTime) <==> !CoreHidden(events, t) && Within(from, to2, c.validTime))
    {
      AgreeReading(events, a, row, c, NO_FLAGS);
    }
    if DefaultAgreeAt(events, a, row, t) {
      forall v ensures !RowHidden(events, t) && Within(from, to1, v) <==> !CoreHidden(events, t) && Within(from, to2, v) {
        assert Agree(events, a, row, Coord(t, v), NO_FLAGS);
      }
    }
  }

  lemma FoldedSpan(events: seq<FactEvent>, a: FactEvent)
    ensures FoldOf(events, a).validTo == MovedTo(events, a)
  {
    FoldedValidTo(Sorted(events), a.validTo);
  }

  ghost predicate HasRetract(events: seq<FactEvent>) { exists x :: x in events && x.kind == Retract }

  lemma NoRetractNoMove(events: seq<FactEvent>, a: FactEvent)
    ensures !HasRetract(events) ==> MovedTo(events, a) == a.validTo
  {
    hide MovedTo;
    FoldOfLaws(events, a);
    FoldedSpan(events, a);
  }

  /**
   * From the last event on, default reads agree if and only if the fact was ever retracted, or its
   * interval is empty, or its history does not end in an untombstone tied with a tombstone.
   */
  lemma DefaultAgreesLateIff(events: seq<FactEvent>, a: FactEvent, row: FactRow)
    requires HistoryOf(events, a)
    ensures (forall c: Coord :: AllBy(events, c.txTime) ==> Agree(events, a, row, c, NO_FLAGS)) <==>
              HasRetract(events) || Empty(From(a), a.validTo) || !Tie(events)
  {
    hide Agree, Tie, EndsTombstoned, Empty, MovedTo, FoldOf, LastMarkOf, TombstonedBy, RowHidden;
    forall t | AllBy(events, t)
      ensures DefaultAgreeAt(events, a, row, t) <==> HasRetract(events) || Empty(From(a), a.validTo) || !Tie(events)
    {
      LateMarks(events, a, t);
      RowHiddenIs(events, a, t);
      DefaultAgreeAtIff(events, a, row, t);
      NoRetractNoMove(events, a);
      TieIsNoTombstone(events);
      assert HasRetract(events) <==> RetractedBy(events, t);
    }
    var t := SomeLateTime(events);
    if forall c: Coord :: AllBy(events, c.txTime) ==> Agree(events, a, row, c, NO_FLAGS) {
      assert DefaultAgreeAt(events, a, row, t);
    } else {
      var c: Coord :| AllBy(events, c.txTime) && !Agree(events, a, row, c, NO_FLAGS);
      assert !DefaultAgreeAt(events, a, row, c.txTime);
    }
  }

  /** The latest event by a time: up to that time nothing happens after it. */
  lemma {:induction false} LatestBy(events: seq<FactEvent>, a: FactEvent, t: int) returns (x: FactEvent)
    requires a in events && TxTime(a) <= t
    ensures x in events && TxTime(a) <= TxTime(x) <= t
    ensures forall y :: y in events && TxTime(y) <= t ==> TxTime(y) <= TxTime(x)
    decreases |events|
  {
    SplitLast(events);
    var init, last := events[..|events| - 1], events[|events| - 1];
    if a in init {
      var y := LatestBy(init, a, t);
      x := if TxTime(y) < TxTime(last) <= t then last else y;
    } else if z :| z in init && TxTime(a) <= TxTime(z) <= t {
      var y := LatestBy(init, z, t);
      x := if TxTime(y) < TxTime(last) <= t then last else y;
    } else {
      x := a;
    }
  }

  lemma HiddenSince(events: seq<FactEvent>, a: FactEvent, x: FactEvent, t: int)
    requires x in events && TxTime(x) <= t && forall y :: y in events && TxTime(y) <= t ==> TxTime(y) <= TxTime(x)
    ensures HiddenAlikeAt(events, a, t) <==> HiddenAlikeAt(events, a, TxTime(x))
  {
    hide LastMarkOf, SpanKept, MovedTo, Empty, FoldOf;
    FoldOfLaws(events, a);
    assert forall y, k :: y in events ==> (OfKind(y, k, t) <==> OfKind(y, k, TxTime(x)));
    assert RetractedBy(events, t) <==> RetractedBy(events, TxTime(x));
    SameTombstoned(events, x, t);
    assert RowHidden(events, t) <==> RowHidden(events, TxTime(x));
  }

  lemma SameTombstoned(events: seq<FactEvent>, x: FactEvent, t: int)
    requires x in events && TxTime(x) <= t && forall y :: y in events && TxTime(y) <= t ==> TxTime(y) <= TxTime(x)
    ensures TombstonedBy(events, t) <==> TombstonedBy(events, TxTime(x))
  {
    if TombstonedBy(events, t) {
      var y :| y in events && OfKind(y, Tombstone, t) && forall u :: u in events && OfKind(u, Untombstone, t) ==> TxTime(u) <= TxTime(y);
      assert OfKind(y, Tombstone, TxTime(x));
    }
    if TombstonedBy(events, TxTime(x)) {
      var y :| y in events && OfKind(y, Tombstone, TxTime(x)) && forall u :: u in events && OfKind(u, Untombstone, TxTime(x)) ==> TxTime(u) <= TxTime(y);
      assert OfKind(y, Tombstone, t);
    }
  }

  /**
   * Default reads agree at every coordinate if and only if they do at the times of the assert and of
   * the events after it: there row and core both hide the fact or neither does, and while neither does
   * no retract has moved the interval (empty intervals hide it too).
   */
  lemma DefaultAgreesAtEventsIff(events: seq<FactEvent>, a: FactEvent, row: FactRow)
    requires HistoryOf(events, a)
    ensures (forall c: Coord :: Agree(events, a, row, c, NO_FLAGS)) <==>
              forall x :: x in events && TxTime(x) >= TxTime(a) ==> HiddenAlikeAt(events, a, TxTime(x))
  {
    hide Agree, HiddenAlikeAt, TxTime;
    if forall c: Coord :: Agree(events, a, row, c, NO_FLAGS) {
      forall x | x in events && TxTime(x) >= TxTime(a) ensures HiddenAlikeAt(events, a, TxTime(x)) {
        DefaultAgreeAtIff(events, a, row, TxTime(x));
      }
    }
    if forall x :: x in events && TxTime(x) >= TxTime(a) ==> HiddenAlikeAt(events, a, TxTime(x)) {
      forall c: Coord ensures Agree(events, a, row, c, NO_FLAGS) {
        if c.txTime < TxTime(a) {
          AgreeReading(events, a, row, c, NO_FLAGS);
        } else {
          var x := LatestBy(events, a, c.txTime);
          HiddenSince(events, a, x, c.txTime);
          DefaultAgreeAtIff(events, a, row, c.txTime);
        }
      }
    }
  }

  // ---- told from the order of the events ----------------------------------------------------------

  lemma HiddenStays(events: seq<FactEvent>, t: int, t': int)
    requires t <= t' && RowHidden(events, t)
    ensures RowHidden(events, t')
  {
    hide LastMarkOf;
  }

  /** The row never hides a fact that the core fold shows. */
  lemma RowHiddenIsCoreHidden(events: seq<FactEvent>, a: FactEvent, t: int)
    requires RowHidden(events, t)
    ensures CoreHidden(events, t)
  {
    hide LastMarkOf, FoldOf;
    FoldOfLaws(events, a);
    if exists x :: x in events && x.kind == Retract {
      var x :| x in events && x.kind == Retract;
      assert TxTime(x) <= t ==> OfKind(x, Retract, t);
    }
    if EndsTombstoned(events) && TxTime(LastMarkOf(events).value) <= t { assert OfKind(LastMarkOf(events).value, Tombstone, t); }
  }

  /**
   * From the assert on the core fold hides the fact: it was retracted by then, or tombstoned by then
   * and each untombstone before the first retract is tied with a tombstone.
   */
  ghost predicate NeverShown(events: seq<FactEvent>, at: int) {
    RetractedBy(events, at) ||
    (TombstonedBy(events, at) &&
     forall u :: u in events && u.kind == Untombstone && TxTime(u) > at && !RetractedBy(events, TxTime(u)) ==> TombstoneAt(events, TxTime(u)))
  }

  predicate TombstoneAt(events: seq<FactEvent>, t: int) { exists x :: x in events && x.kind == Tombstone && TxTime(x) == t }

  /** No retract, and no tombstone since the assert, comes before the row hides the fact. */
  ghost predicate HiddenFromTheFirst(events: seq<FactEvent>, at: int) {
    && !TombstonedBy(events, at)
    && forall x :: x in events && (x.kind == Retract || LaterTombstone(events, x, at)) ==> RowHidden(events, TxTime(x))
  }

  lemma {:induction false} LatestUntombstone(events: seq<FactEvent>, t: int) returns (u: FactEvent)
    requires exists x :: x in events && OfKind(x, Untombstone, t)
    ensures u in events && OfKind(u, Untombstone, t) && forall x :: x in events && OfKind(x, Untombstone, t) ==> TxTime(x) <= TxTime(u)
  {
    SplitLast(events);
    var init, last := events[..|events| - 1], events[|events| - 1];
    if exists x :: x in init && OfKind(x, Untombstone, t) {
      u := LatestUntombstone(init, t);
      if OfKind(last, Untombstone, t) && TxTime(last) > TxTime(u) { u := last; }
    } else {
      u := last;
    }
  }

  lemma NeverShownIff(events: seq<FactEvent>, a: FactEvent)
    requires a in events
    ensures (forall x :: x in events && TxTime(x) >= TxTime(a) ==> CoreHidden(events, TxTime(x))) <==> NeverShown(events, TxTime(a))
  {
    var at := TxTime(a);
    if forall x :: x in events && TxTime(x) >= at ==> CoreHidden(events, TxTime(x)) {
      assert CoreHidden(events, at);
      forall u | u in events && u.kind == Untombstone && TxTime(u) > at && !RetractedBy(events, TxTime(u))
        ensures TombstoneAt(events, TxTime(u))
      {
        assert CoreHidden(events, TxTime(u)) && OfKind(u, Untombstone, TxTime(u));
      }
    }
    if NeverShown(events, at) {
      forall x | x in events && TxTime(x) >= at ensures CoreHidden(events, TxTime(x)) { HiddenSinceAssert(events, at, TxTime(x)); }
    }
  }

  lemma HiddenSinceAssert(events: seq<FactEvent>, at: int, t: int)
    requires NeverShown(events, at) && at <= t
    ensures CoreHidden(events, t)
  {
    if RetractedBy(events, at) {
      var r :| r in events && OfKind(r, Retract, at);
      assert OfKind(r, Retract, t);
    } else if !RetractedBy(events, t) {
      var x :| x in events && OfKind(x, Tombstone, at) && forall u :: u in events && OfKind(u, Untombstone, at) ==> TxTime(u) <= TxTime(x);
      if exists u :: u in events && OfKind(u, Untombstone, t) {
        var u := LatestUntombstone(events, t);
        if TxTime(u) > at {
          assert forall r :: r in events && OfKind(r, Retract, TxTime(u)) ==> OfKind(r, Retract, t);
          x :| x in events && x.kind == Tombstone && TxTime(x) == TxTime(u);
        } else {
          assert forall v :: v in events && OfKind(v, Untombstone, t) ==> OfKind(v, Untombstone, at);
        }
      }
      assert OfKind(x, Tombstone, t);
    }
  }

  lemma HiddenFromTheFirstIff(events: seq<FactEvent>, a: FactEvent)
    requires a in events
    ensures (forall x :: x in events && TxTime(x) >= TxTime(a) ==> RowHidden(events, TxTime(x)) || !CoreHidden(events, TxTime(x)))
            <==> RowHidden(events, TxTime(a)) || HiddenFromTheFirst(events, TxTime(a))
  {
    hide RowHidden;
    var at := TxTime(a);
    if RowHidden(events, at) {
      forall x | x in events && TxTime(x) >= at ensures RowHidden(events, TxTime(x)) { HiddenStays(events, at, TxTime(x)); }
    } else if HiddenFromTheFirst(events, at) {
      forall x | x in events && TxTime(x) >= at && CoreHidden(events, TxTime(x)) ensures RowHidden(events, TxTime(x)) {
        HidesRow(events, at, TxTime(x));
      }
    } else if forall x :: x in events && TxTime(x) >= at ==> RowHidden(events, TxTime(x)) || !CoreHidden(events, TxTime(x)) {
      assert !CoreHidden(events, at);
      forall x | x in events && (x.kind == Retract || LaterTombstone(events, x, at)) ensures RowHidden(events, TxTime(x)) {
        assert OfKind(x, x.kind, TxTime(x));
        assert x.kind == Retract && TxTime(x) < at ==> OfKind(x, Retract, at);
      }
    }
  }

  lemma HidesRow(events: seq<FactEvent>, at: int, t: int)
    requires HiddenFromTheFirst(events, at) && at <= t && CoreHidden(events, t)
    ensures RowHidden(events, t)
  {
    hide RowHidden;
    if RetractedBy(events, t) {
      var y :| y in events && OfKind(y, Retract, t);
      HiddenStays(events, TxTime(y), t);
    } else {
      var y :| y in events && OfKind(y, Tombstone, t) && forall u :: u in events && OfKind(u, Untombstone, t) ==> TxTime(u) <= TxTime(y);
      assert TxTime(y) <= at ==> OfKind(y, Tombstone, at);
      assert forall u :: u in events && OfKind(u, Untombstone, at) ==> OfKind(u, Untombstone, t);
      HiddenStays(events, TxTime(y), t);
    }
  }

  /**
   * Default reads agree at every coordinate, told from the events. An interval that ends where it
   * starts is never shown by the core fold: the row must not show it either. One moved to such an end is
   * never shown by the row: the core fold must hide it from the assert on. Otherwise the row hides the
   * fact from the assert on, or no retract moved the interval and nothing hides the fact before the row does.
   */
  ghost predicate DefaultsAligned(events: seq<FactEvent>, a: FactEvent) {
    if Empty(From(a), a.validTo) then Empty(From(a), MovedTo(events, a)) || RowHidden(events, TxTime(a))
    else if Empty(From(a), MovedTo(events, a)) then NeverShown(events, TxTime(a))
    else RowHidden(events, TxTime(a)) || (MovedTo(events, a) == a.validTo && HiddenFromTheFirst(events, TxTime(a)))
  }

  lemma AlignedAtEvents(events: seq<FactEvent>, a: FactEvent)
    requires a in events
    ensures (forall x :: x in events && TxTime(x) >= TxTime(a) ==> HiddenAlikeAt(events, a, TxTime(x))) <==> DefaultsAligned(events, a)
  {
    hide RowHidden, CoreHidden, MovedTo, NeverShown, HiddenFromTheFirst;
    NeverShownIff(events, a);
    HiddenFromTheFirstIff(events, a);
    forall x | x in events && TxTime(x) >= TxTime(a)
      ensures RowHidden(events, TxTime(x)) ==> CoreHidden(events, TxTime(x))
      ensures RowHidden(events, TxTime(a)) ==> RowHidden(events, TxTime(x))
    {
      if RowHidden(events, TxTime(x)) { RowHiddenIsCoreHidden(events, a, TxTime(x)); }
      if RowHidden(events, TxTime(a)) { HiddenStays(events, TxTime(a), TxTime(x)); }
    }
    hide TxTime;
  }

  lemma DefaultAgreesAlwaysIff(events: seq<FactEvent>, a: FactEvent, row: FactRow)
    requires HistoryOf(events, a)
    ensures (forall c: Coord :: Agree(events, a, row, c, NO_FLAGS)) <==> DefaultsAligned(events, a)
  {
    hide Agree, HiddenAlikeAt, TxTime, DefaultsAligned;
    DefaultAgreesAtEventsIff(events, a, row);
    AlignedAtEvents(events, a);
  }

  // ---- a history on which they differ --------------------------------------------------------

  const ASSERTED := FactEvent(Assert, Hlc(0, 0, Lit("r")), Lit("a"), Some(0), None)
  const RETRACTED := FactEvent(Retract, Hlc(10, 0, Lit("r")), Lit("b"), None, Some(5))

  lemma MovedToFive()
    ensures Sorted([ASSERTED, RETRACTED]) == [ASSERTED, RETRACTED] && MovedTo([ASSERTED, RETRACTED], ASSERTED) == Some(5)
  {
    assert LastMove([ASSERTED, RETRACTED]) == Some(RETRACTED);
  }

  lemma ShownAtThree()
    ensures HistoryOf([ASSERTED, RETRACTED], ASSERTED)
    ensures CoreVisible([ASSERTED, RETRACTED], ASSERTED, Coord(3, 7), NO_FLAGS)
  {
    var events := [ASSERTED, RETRACTED];
    assert ASSERTED in events && forall x :: x in events ==> x == ASSERTED || x == RETRACTED;
    CoreReading(events, ASSERTED, Coord(3, 7), NO_FLAGS);
    hide CoreVisible;
    assert !RetractedBy(events, 3) && !TombstonedBy(events, 3);
  }

  /** A retract that ends the interval at 5, read before it was made: the core fold still shows the fact at 7. */
  lemma MovedIntervalReadsBack(row: FactRow)
    ensures !SpanKept([ASSERTED, RETRACTED], ASSERTED)
    ensures exists c: Coord :: c.txTime < TxTime(RETRACTED) && CoreVisible([ASSERTED, RETRACTED], ASSERTED, c, NO_FLAGS) &&
                               !IsFactVisible(Rebuilt([ASSERTED, RETRACTED], row), c, NO_FLAGS)
  {
    var events, c := [ASSERTED, RETRACTED], Coord(3, 7);
    ShownAtThree();
    MovedToFive();
    FoldedSpan(events, ASSERTED);
    AgreeReading(events, ASSERTED, row, c, NO_FLAGS);
    hide HistoryOf, CoreVisible, IsFactVisible, FoldOf, Rebuilt, MovedTo, RetractedBy, TombstonedBy, Reached;
    assert !Within(0, Some(5), 7);
    assert !Agree(events, ASSERTED, row, c, NO_FLAGS);
  }

  const TOMBSTONED := FactEvent(Tombstone, Hlc(10, 0, Lit("r")), Lit("b"), None, None)
  const RESTORED := FactEvent(Untombstone, Hlc(10, 1, Lit("r")), Lit("c"), None, None)

  lemma RestoredIsLast()
    ensures Sorted([ASSERTED, TOMBSTONED, RESTORED]) == [ASSERTED, TOMBSTONED, RESTORED]
  {
    var s := [ASSERTED, TOMBSTONED, RESTORED];
    assert s[1..] == [TOMBSTONED, RESTORED] && [TOMBSTONED, RESTORED][1..] == [RESTORED];
    assert Sorted([RESTORED]) == [RESTORED];
    assert Sorted([TOMBSTONED, RESTORED]) == [TOMBSTONED, RESTORED];
  }

  /**
   * An untombstone in the same millisecond as the tombstone before it: from then on the row shows the
   * fact and the core fold hides it.
   */
  lemma TiedUntombstoneShows(row: FactRow, c: Coord)
    requires c.txTime >= 10 && c.validTime >= 0
    ensures var events := [ASSERTED, TOMBSTONED, RESTORED];
            HistoryOf(events, ASSERTED) && Tie(events) && AllBy(events, c.txTime) &&
            IsFactVisible(Rebuilt(events, row), c, NO_FLAGS) && !CoreVisible(events, ASSERTED, c, NO_FLAGS)
  {
    var events := [ASSERTED, TOMBSTONED, RESTORED];
    TiedHistory(c.txTime);
    LateMarks(events, ASSERTED, c.txTime);
    TieIsNoTombstone(events);
    hide HistoryOf, Tie, EndsTombstoned, CoreVisible, IsFactVisible, Rebuilt, FoldOf, LastMarkOf, MovedTo, Agree;
    CoreReading(events, ASSERTED, c, NO_FLAGS);
    NoRetractNoMove(events, ASSERTED);
    FoldedSpan(events, ASSERTED);
    RebuiltReading(events, ASSERTED, row, c);
  }

  lemma TiedHistory(t: int)
    requires t >= 10
    ensures var events := [ASSERTED, TOMBSTONED, RESTORED];
            HistoryOf(events, ASSERTED) && Tie(events) && AllBy(events, t) && !HasRetract(events)
  {
    var events := [ASSERTED, TOMBSTONED, RESTORED];
    RestoredIsLast();
    assert ASSERTED in events && TOMBSTONED in events && forall x :: x in events ==> x == ASSERTED || x == TOMBSTONED || x == RESTORED;
    assert LastMarkOf(events) == Some(RESTORED);
  }

  lemma RebuiltReading(events: seq<FactEvent>, a: FactEvent, row: FactRow, c: Coord)
    requires HistoryOf(events, a)
    ensures IsFactVisible(Rebuilt(events, row), c, NO_FLAGS) <==>
              TxTime(a) <= c.txTime && !Reached(FoldOf(events, a).retractedAt, c.txTime) &&
              !Reached(FoldOf(events, a).tombstonedAt, c.txTime) && Within(From(a), FoldOf(events, a).validTo, c.validTime)
  {
    hide IsFactVisible, FoldOf, Within, Reached, Rebuilt;
    RebuiltRow(events, a, row);
    RowReading(RowOf(a, FoldOf(events, a), row), c, NO_FLAGS);
  }
}
