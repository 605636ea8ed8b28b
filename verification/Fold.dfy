/** The bitemporal fold: pure functions of a log and a coordinate, and why replicas agree on them. */
module Fold {
  import opened Seqs
  import opened Text
  import opened Core

  datatype Coord = Coord(txTime: int, validTime: int)

  datatype Flags = Flags(includeRetracted: bool, includeTombstoned: bool)

  const NO_FLAGS := Flags(false, false)

  datatype Cardinality = One | Many

  type CardinalityOf = (Text, Coord, Log) -> Cardinality

  // ---- visibility -------------------------------------------------------------

  predicate ActsOn(x: Event, kind: Kind, target: EventId, byTx: int) {
    x.body.kind == kind && x.body.target == Some(target) && x.body.hlc.pt <= byTx
  }

  function ActedOn(all: seq<Event>, kind: Kind, target: EventId, byTx: int): seq<Event> {
    Filter(all, (x: Event) => ActsOn(x, kind, target, byTx))
  }

  lemma ActedOnMembers(all: seq<Event>, kind: Kind, target: EventId, byTx: int)
    ensures forall x :: x in ActedOn(all, kind, target, byTx) <==> x in all && ActsOn(x, kind, target, byTx)
  {
    FilterMembers(all, (x: Event) => ActsOn(x, kind, target, byTx));
  }

  function LatestPt(s: seq<Event>): (pt: int)
    requires s != []
    ensures exists x :: x in s && x.body.hlc.pt == pt
    ensures forall x :: x in s ==> x.body.hlc.pt <= pt
  {
    if |s| == 1 then
      assert s[0] in s;
      s[0].body.hlc.pt
    else
      var rest := LatestPt(s[1..]);
      var x :| x in s[1..] && x.body.hlc.pt == rest;
      assert s[0] in s && x in s;
      if s[0].body.hlc.pt > rest then s[0].body.hlc.pt else rest
  }

  predicate Tombstoned(all: seq<Event>, a: Event, txTime: int) {
    var tombs := ActedOn(all, Tombstone, a.id, txTime);
    if tombs == [] then false
    else
      var untombs := ActedOn(all, Untombstone, a.id, txTime);
      var latestTomb := LatestPt(tombs);
      !exists u :: u in untombs && u.body.hlc.pt > latestTomb
  }

  predicate Visible(a: Event, c: Coord, log: Log, f: Flags) {
    if a.body.kind != Assert then false
    else if a.body.hlc.pt > c.txTime then false
    else if !f.includeRetracted && |ActedOn(log, Retract, a.id, c.txTime)| > 0 then false
    else if !f.includeTombstoned && Tombstoned(log, a, c.txTime) then false
    else if a.body.validFrom.Some? && a.body.validFrom.value > c.validTime then false
    else if a.body.validTo.At? && c.validTime >= a.body.validTo.time then false
    else true
  }

  /** Tombstoned: some tombstone known by then is followed by no strictly later untombstone. */
  lemma TombstonedMeaning(all: seq<Event>, a: Event, txTime: int)
    ensures Tombstoned(all, a, txTime) <==>
            exists t :: t in all && ActsOn(t, Tombstone, a.id, txTime) &&
                        forall u :: u in all && ActsOn(u, Untombstone, a.id, txTime) ==> u.body.hlc.pt <= t.body.hlc.pt
  {
    ActedOnMembers(all, Tombstone, a.id, txTime);
    ActedOnMembers(all, Untombstone, a.id, txTime);
    var tombs, untombs := ActedOn(all, Tombstone, a.id, txTime), ActedOn(all, Untombstone, a.id, txTime);
    if tombs != [] {
      assert tombs[0] in tombs;
      var last :| last in tombs && last.body.hlc.pt == LatestPt(tombs);
      if Tombstoned(all, a, txTime) {
        assert forall u :: u in all && ActsOn(u, Untombstone, a.id, txTime) ==> u in untombs;
        assert ActsOn(last, Tombstone, a.id, txTime);
      }
    }
  }

  /** The event takes effect on the target no later than `txTime`. */
  ghost predicate Acts(x: Event, kind: Kind, target: EventId, txTime: int) {
    x.body.kind == kind && x.body.target == Some(target) && x.body.hlc.pt <= txTime
  }

  /**
   * Visible: asserted by then, not retracted by then, not tombstoned by then without a strictly later
   * untombstone by then, and the valid time is in the half-open interval, absent bounds being open.
   */
  lemma VisibleIff(a: Event, c: Coord, log: Log, f: Flags)
    ensures Visible(a, c, log, f) <==>
              && a.body.kind == Assert && a.body.hlc.pt <= c.txTime
              && (f.includeRetracted || forall x :: x in log ==> !Acts(x, Retract, a.id, c.txTime))
              && (f.includeTombstoned || forall t :: t in log && Acts(t, Tombstone, a.id, c.txTime) ==>
                    exists u :: u in log && Acts(u, Untombstone, a.id, c.txTime) && u.body.hlc.pt > t.body.hlc.pt)
              && (a.body.validFrom.Some? ==> a.body.validFrom.value <= c.validTime)
              && (a.body.validTo.At? ==> c.validTime < a.body.validTo.time)
  {
    ActedOnMembers(log, Retract, a.id, c.txTime);
    TombstonedMeaning(log, a, c.txTime);
    var r := ActedOn(log, Retract, a.id, c.txTime);
    assert |r| > 0 ==> r[0] in r;
    forall x, k ensures ActsOn(x, k, a.id, c.txTime) <==> Acts(x, k, a.id, c.txTime) {
    }
    hide ActedOn, Tombstoned, ActsOn;
    if !Tombstoned(log, a, c.txTime) {
      forall t | t in log && Acts(t, Tombstone, a.id, c.txTime)
        ensures exists u :: u in log && Acts(u, Untombstone, a.id, c.txTime) && u.body.hlc.pt > t.body.hlc.pt
      {
        assert ActsOn(t, Tombstone, a.id, c.txTime);
        var u :| u in log && ActsOn(u, Untombstone, a.id, c.txTime) && u.body.hlc.pt > t.body.hlc.pt;
        assert Acts(u, Untombstone, a.id, c.txTime);
      }
    }
  }

  /** The two logs hold the same lifecycle events of `id` known by `txTime`. */
  ghost predicate SameLifecycle(id: EventId, txTime: int, log1: Log, log2: Log) {
    forall x: Event :: x.body.kind != Assert && x.body.target == Some(id) && x.body.hlc.pt <= txTime ==>
      (x in log1 <==> x in log2)
  }

  /** Visibility of one assert depends on nothing but the events that target it. */
  lemma VisibleFromLifecycle(a: Event, c: Coord, log1: Log, log2: Log, f: Flags)
    requires SameLifecycle(a.id, c.txTime, log1, log2)
    ensures Visible(a, c, log1, f) <==> Visible(a, c, log2, f)
  {
    ActedOnMembers(log1, Retract, a.id, c.txTime);
    ActedOnMembers(log2, Retract, a.id, c.txTime);
    var r1, r2 := ActedOn(log1, Retract, a.id, c.txTime), ActedOn(log2, Retract, a.id, c.txTime);
    assert |r1| > 0 ==> r1[0] in r1;
    assert |r2| > 0 ==> r2[0] in r2;
    TombstonedMeaning(log1, a, c.txTime);
    TombstonedMeaning(log2, a, c.txTime);
  }

  // ---- values and entities --------------------------------------------------------

  predicate Asserts(x: Event, e: Text, a: Text) {
    x.body.kind == Assert && x.body.e == Some(e) && x.body.a == Some(a)
  }

  function VisibleAsserts(e: Text, a: Text, c: Coord, log: Log, f: Flags): seq<Event> {
    Filter(log, (x: Event) => Asserts(x, e, a) && Visible(x, c, log, f))
  }

  lemma VisibleAssertsMembers(e: Text, a: Text, c: Coord, log: Log, f: Flags)
    ensures forall x :: x in VisibleAsserts(e, a, c, log, f) <==> x in log && Asserts(x, e, a) && Visible(x, c, log, f)
  {
    FilterMembers(log, (x: Event) => Asserts(x, e, a) && Visible(x, c, log, f));
  }

  /** A cardinality-one answer is the ≺-maximum or nothing; a cardinality-many one is a list. */
  datatype Answer = Single(winner: Option<Event>) | Several(events: seq<Event>)

  function ValueAt(e: Text, a: Text, c: Coord, log: Log, card: Cardinality, f: Flags): Answer {
    var cands := VisibleAsserts(e, a, c, log, f);
    if card == One then Single(MaxOf(cands)) else Several(cands)
  }

  /** A visible assert of (e, a). */
  predicate Shows(x: Event, e: Text, a: Text, c: Coord, log: Log, f: Flags) {
    x.body.kind == Assert && x.body.e == Some(e) && x.body.a == Some(a) && Visible(x, c, log, f)
  }

  /** The visible assert of (e, a) that no other follows in ≺. */
  ghost predicate IsLatest(w: Event, e: Text, a: Text, c: Coord, log: Log, f: Flags) {
    w in log && Shows(w, e, a, c, log, f) && forall y :: y in log && Shows(y, e, a, c, log, f) ==> !Precedes(w, y)
  }

  /** With cardinality one the latest visible assert, if there is any; with many all of them, in log order. */
  ghost predicate Answers(r: Answer, e: Text, a: Text, c: Coord, log: Log, card: Cardinality, f: Flags) {
    if card == Many then r.Several? && Picks(r.events, log, (x: Event) => Shows(x, e, a, c, log, f))
    else r.Single? && if r.winner.Some? then IsLatest(r.winner.value, e, a, c, log, f)
                      else forall x :: x in log ==> !Shows(x, e, a, c, log, f)
  }

  lemma ValueAnswers(e: Text, a: Text, c: Coord, log: Log, card: Cardinality, f: Flags)
    ensures Answers(ValueAt(e, a, c, log, card, f), e, a, c, log, card, f)
  {
    var cands := VisibleAsserts(e, a, c, log, f);
    VisibleAssertsMembers(e, a, c, log, f);
    hide Visible;
    if card == Many {
      var p, q := (x: Event) => Asserts(x, e, a) && Visible(x, c, log, f), (x: Event) => Shows(x, e, a, c, log, f);
      FilterPicks(log, p);
      var at :| PicksAt(cands, log, p, at);
      assert forall x :: p(x) <==> q(x);
      assert PicksAt(cands, log, q, at);
    } else if cands != [] {
      forall y | y in log && Shows(y, e, a, c, log, f) ensures !Precedes(MaxOf(cands).value, y) { MaxOfIsMaximal(cands, y); }
      assert MaxOf(cands).value in cands;
    } else {
      forall x | x in log ensures !Shows(x, e, a, c, log, f) { assert x !in cands; }
    }
  }

  predicate ShowsAttr(x: Event, e: Text, c: Coord, log: Log, f: Flags) {
    x.body.kind == Assert && x.body.e == Some(e) && x.body.a.Some? && Visible(x, c, log, f)
  }

  function AttrsOf(e: Text, c: Coord, log: Log, f: Flags): set<Text> {
    set x | x in log && ShowsAttr(x, e, c, log, f) :: x.body.a.value
  }

  function EntityAt(e: Text, c: Coord, log: Log, cardinalityOf: CardinalityOf, f: Flags): map<Text, Answer> {
    map a | a in AttrsOf(e, c, log, f) :: ValueAt(e, a, c, log, cardinalityOf(a, c, log), f)
  }

  /** `undefined`, the result that the entity map leaves out. */
  predicate IsUndefined(r: Answer) { r == Single(None) }

  lemma AttrsHaveValues(e: Text, a: Text, c: Coord, log: Log, card: Cardinality, f: Flags)
    requires a in AttrsOf(e, c, log, f)
    ensures !IsUndefined(ValueAt(e, a, c, log, card, f))
  {
    VisibleAssertsMembers(e, a, c, log, f);
    var x :| x in log && ShowsAttr(x, e, c, log, f) && x.body.a == Some(a);
    assert x in VisibleAsserts(e, a, c, log, f);
  }

  method Entity(e: Text, c: Coord, log: Log, cardinalityOf: CardinalityOf, f: Flags) returns (out: map<Text, Answer>)
    ensures out == EntityAt(e, c, log, cardinalityOf, f)
    ensures forall a :: a in out <==> exists x :: x in log && Shows(x, e, a, c, log, f)
    ensures forall a :: a in out ==> Answers(out[a], e, a, c, log, cardinalityOf(a, c, log), f)
  {
    hide Visible, ValueAt, Answers;
    var attrs: set<Text> := {};
    for i := 0 to |log|
      invariant attrs == AttrsAmong(log[..i], e, c, log, f)
    {
      TakeNext(log, i);
      if ShowsAttr(log[i], e, c, log, f) {
        attrs := attrs + {log[i].body.a.value};
      }
    }
    TakeAll(log);
    out := map[];
    var order := Listing(attrs);
    for i := 0 to |order|
      invariant out.Keys == SetOf(order[..i])
      invariant forall a :: a in out ==> out[a] == ValueAt(e, a, c, log, cardinalityOf(a, c, log), f)
    {
      var a := order[i];
      InSetOf(order, i);
      TakeNext(order, i);
      SetOfAppend(order[..i], a);
      var r := ValueAt(e, a, c, log, cardinalityOf(a, c, log), f);
      AttrsHaveValues(e, a, c, log, cardinalityOf(a, c, log), f);
      if !IsUndefined(r) {
        out := out[a := r];
      }
    }
    TakeAll(order);
    AttrsShown(e, c, log, f);
    forall a | a in out ensures Answers(out[a], e, a, c, log, cardinalityOf(a, c, log), f) {
      ValueAnswers(e, a, c, log, cardinalityOf(a, c, log), f);
    }
  }

  lemma AttrsShown(e: Text, c: Coord, log: Log, f: Flags)
    ensures forall a :: a in AttrsOf(e, c, log, f) <==> exists x :: x in log && Shows(x, e, a, c, log, f)
  {
    hide Visible;
    forall a ensures a in AttrsOf(e, c, log, f) <==> exists x :: x in log && Shows(x, e, a, c, log, f) {
      if x :| x in log && Shows(x, e, a, c, log, f) { assert ShowsAttr(x, e, c, log, f) && x.body.a.value == a; }
      if a in AttrsOf(e, c, log, f) {
        var x :| x in log && ShowsAttr(x, e, c, log, f) && x.body.a.value == a;
        assert Shows(x, e, a, c, log, f);
      }
    }
  }

  ghost function AttrsAmong(events: seq<Event>, e: Text, c: Coord, log: Log, f: Flags): set<Text> {
    set x | x in events && ShowsAttr(x, e, c, log, f) :: x.body.a.value
  }

  // ---- convergence ------------------------------------------------------------------

  /** The logs hold the same events stamped no later than `txTime`, in whatever order. */
  ghost predicate SamePast(log1: Log, log2: Log, txTime: int) {
    forall x: Event :: x.body.hlc.pt <= txTime ==> (x in log1 <==> x in log2)
  }

  /** Equal answers, lists compared as sets. */
  ghost predicate SameAnswer(r1: Answer, r2: Answer) {
    match r1
    case Single(w1) => r2 == Single(w1)
    case Several(s1) => r2.Several? && SetOf(s1) == SetOf(r2.events)
  }

  lemma VisibleConverges(a: Event, c: Coord, log1: Log, log2: Log, f: Flags)
    requires SamePast(log1, log2, c.txTime)
    ensures Visible(a, c, log1, f) <==> Visible(a, c, log2, f)
  {
    VisibleFromLifecycle(a, c, log1, log2, f);
  }

  /** Same past, same value, for either cardinality. */
  lemma ValueConverges(e: Text, a: Text, c: Coord, log1: Log, log2: Log, card: Cardinality, f: Flags)
    requires DistinctIds(log1) && SamePast(log1, log2, c.txTime)
    ensures SetOf(VisibleAsserts(e, a, c, log1, f)) == SetOf(VisibleAsserts(e, a, c, log2, f))
    ensures SameAnswer(ValueAt(e, a, c, log1, card, f), ValueAt(e, a, c, log2, card, f))
  {
    var v1, v2 := VisibleAsserts(e, a, c, log1, f), VisibleAsserts(e, a, c, log2, f);
    VisibleAssertsMembers(e, a, c, log1, f);
    VisibleAssertsMembers(e, a, c, log2, f);
    forall x ensures x in SetOf(v1) <==> x in SetOf(v2) {
      VisibleConverges(x, c, log1, log2, f);
      assert Visible(x, c, log1, f) ==> x.body.hlc.pt <= c.txTime;
    }
    DistinctIdsSameContent(log1);
    assert SetOf(v1) <= SetOf(log1);
    MaxOfSetDetermined(v1, v2);
  }

  /**
   * Strong convergence: replicas whose logs hold the same events up to `txTime` compute the same
   * visibility, the same values and the same entity maps there, in whatever order the events were
   * appended or merged and whatever later events each replica holds.
   */
  lemma StrongConvergence(e: Text, c: Coord, log1: Log, log2: Log, cardinalityOf: CardinalityOf, f: Flags)
    requires DistinctIds(log1) && SamePast(log1, log2, c.txTime)
    requires forall a :: cardinalityOf(a, c, log1) == cardinalityOf(a, c, log2)
    ensures forall x :: Visible(x, c, log1, f) <==> Visible(x, c, log2, f)
    ensures var m1, m2 := EntityAt(e, c, log1, cardinalityOf, f), EntityAt(e, c, log2, cardinalityOf, f);
            m1.Keys == m2.Keys && forall a :: a in m1 ==> SameAnswer(m1[a], m2[a])
  {
    forall x ensures Visible(x, c, log1, f) <==> Visible(x, c, log2, f) {
      VisibleConverges(x, c, log1, log2, f);
    }
    forall a ensures a in AttrsOf(e, c, log1, f) <==> a in AttrsOf(e, c, log2, f) {
      AttrsSubset(e, a, c, log1, log2, f);
      AttrsSubset(e, a, c, log2, log1, f);
    }
    forall a | a in AttrsOf(e, c, log1, f)
      ensures SameAnswer(ValueAt(e, a, c, log1, cardinalityOf(a, c, log1), f),
                         ValueAt(e, a, c, log2, cardinalityOf(a, c, log2), f))
    {
      ValueConverges(e, a, c, log1, log2, cardinalityOf(a, c, log1), f);
    }
  }

  lemma AttrsSubset(e: Text, a: Text, c: Coord, log1: Log, log2: Log, f: Flags)
    requires SamePast(log1, log2, c.txTime)
    ensures a in AttrsOf(e, c, log1, f) ==> a in AttrsOf(e, c, log2, f)
  {
    if a in AttrsOf(e, c, log1, f) {
      var x :| x in log1 && ShowsAttr(x, e, c, log1, f) && x.body.a == Some(a);
      VisibleConverges(x, c, log1, log2, f);
      assert x in log2;
    }
  }

  // ---- cardinality read from the log --------------------------------------------------

  /** The entity that describes attribute `a` in the schema kept as facts. */
  function AttrId(a: Text): Text { Lit("attr:") + a }

  /**
   * Cardinality as the log itself declares it: the cardinality-one value of
   * (attr:a, "cardinality"), or the built-in table when that is neither "one" nor "many".
   */
  function CardinalityFromLog(builtin: map<Text, Cardinality>): CardinalityOf {
    (a: Text, c: Coord, log: Log) =>
      var w := MaxOf(VisibleAsserts(AttrId(a), Lit("cardinality"), c, log, NO_FLAGS));
      if w.Some? && w.value.body.v == Some(Str(Lit("one"))) then One
      else if w.Some? && w.value.body.v == Some(Str(Lit("many"))) then Many
      else if a in builtin then builtin[a] else Many
  }

  /**
   * The declaration that counts is the latest visible one, retracted and tombstoned ones left out; where
   * there is none, or it says neither "one" nor "many", the built-in table decides, and it is many beyond that.
   */
  lemma DeclaredIs(builtin: map<Text, Cardinality>, a: Text, c: Coord, log: Log)
    requires DistinctIds(log)
    ensures var card, otherwise := CardinalityFromLog(builtin)(a, c, log), if a in builtin then builtin[a] else Many;
            && (forall w :: IsLatest(w, Lit("attr:") + a, Lit("cardinality"), c, log, NO_FLAGS) ==>
                  card == if w.body.v == Some(Str(Lit("one"))) then One
                          else if w.body.v == Some(Str(Lit("many"))) then Many else otherwise)
            && ((forall x :: x in log ==> !Shows(x, Lit("attr:") + a, Lit("cardinality"), c, log, NO_FLAGS)) ==> card == otherwise)
  {
    hide Visible;
    var e, k := AttrId(a), Lit("cardinality");
    ValueAnswers(e, k, c, log, One, NO_FLAGS);
    var w := MaxOf(VisibleAsserts(e, k, c, log, NO_FLAGS));
    assert ValueAt(e, k, c, log, One, NO_FLAGS) == Single(w);
    DistinctIdsSameContent(log);
    forall x | IsLatest(x, e, k, c, log, NO_FLAGS) ensures w == Some(x) {
      PrecedesStrictTotal(x, w.value, x);
      assert x in SetOf(log) && w.value in SetOf(log);
    }
  }

  /** Events stamped after `txTime` change nothing there, even with cardinality read from the log. */
  lemma FutureChangesNothing(e: Text, c: Coord, log1: Log, log2: Log, builtin: map<Text, Cardinality>, f: Flags)
    requires DistinctIds(log1) && SamePast(log1, log2, c.txTime)
    ensures forall a :: CardinalityFromLog(builtin)(a, c, log1) == CardinalityFromLog(builtin)(a, c, log2)
    ensures var m1, m2 := EntityAt(e, c, log1, CardinalityFromLog(builtin), f),
                          EntityAt(e, c, log2, CardinalityFromLog(builtin), f);
            m1.Keys == m2.Keys && forall a :: a in m1 ==> SameAnswer(m1[a], m2[a])
  {
    forall a ensures CardinalityFromLog(builtin)(a, c, log1) == CardinalityFromLog(builtin)(a, c, log2) {
      ValueConverges(AttrId(a), Lit("cardinality"), c, log1, log2, One, NO_FLAGS);
      assert ValueAt(AttrId(a), Lit("cardinality"), c, log1, One, NO_FLAGS).winner
          == ValueAt(AttrId(a), Lit("cardinality"), c, log2, One, NO_FLAGS).winner;
    }
    StrongConvergence(e, c, log1, log2, CardinalityFromLog(builtin), f);
  }

  /** Replicas that received the same content-addressed events by any sequence of batches agree. */
  lemma DeliveryOrderIrrelevant(c: Coord, start1: Log, batch1: seq<Event>, start2: Log, batch2: seq<Event>)
    requires DistinctIds(start1) && DistinctIds(start2)
    requires SetOf(start1) + SetOf(batch1) == SetOf(start2) + SetOf(batch2)
    requires SameContent(SetOf(start1) + SetOf(batch1))
    ensures DistinctIds(PutAll(start1, batch1))
    ensures SamePast(PutAll(start1, batch1), PutAll(start2, batch2), c.txTime)
  {
    PutAllContents(start1, batch1);
    PutAllContents(start2, batch2);
    var l1, l2 := PutAll(start1, batch1), PutAll(start2, batch2);
    assert forall x :: x in l1 <==> x in SetOf(l1);
    assert forall x :: x in l2 <==> x in SetOf(l2);
  }
}
