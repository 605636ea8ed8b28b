/**
 * The write path of a cardinality-one attribute: each assert is reconciled against the current fact,
 * the loser is retracted, and the winner becomes the one current row.
 */
module CardinalityOne {
  import opened Seqs
  import opened Text
  import opened Core
  import opened Fold
  import opened FactRow

  // ---- picking the winner -----------------------------------------------------------

  datatype Candidate<+T> = Candidate(item: T, event: Event)

  datatype Choice<+T> = Choice(winner: Candidate<T>, losers: seq<Candidate<T>>)

  function EventsOf<T>(cs: seq<Candidate<T>>): seq<Event> { Map(cs, (c: Candidate<T>) => c.event) }

  /** The first place that holds an event id, past the end if none does. */
  function Find<T>(cs: seq<Candidate<T>>, id: EventId): nat {
    if cs == [] || cs[0].event.id == id then 0 else 1 + Find(cs[1..], id)
  }

  /** No candidates is an error. */
  function Reconcile<T>(cs: seq<Candidate<T>>): Option<Choice<T>> {
    var m := MaxOf(EventsOf(cs));
    if m.None? then None
    else
      var k := Find(cs, m.value.id);
      if k < |cs| then Some(Choice(cs[k], cs[..k] + cs[k + 1..])) else None
  }

  lemma {:induction false} FindIs<T>(cs: seq<Candidate<T>>, k: nat)
    requires k < |cs| && forall i, j :: 0 <= i < j < |cs| ==> cs[i].event.id != cs[j].event.id
    ensures Find(cs, cs[k].event.id) == k
  {
    if k > 0 {
      assert cs[0].event.id != cs[k].event.id;
      FindIs(cs[1..], k - 1);
    }
  }

  /** Among candidates with different events, the winner is the ≺-maximum and the losers are the rest. */
  lemma ReconcilePicksMax<T>(cs: seq<Candidate<T>>, k: nat)
    requires k < |cs| && forall i, j :: 0 <= i < j < |cs| ==> cs[i].event.id != cs[j].event.id
    requires forall i :: 0 <= i < |cs| && i != k ==> Precedes(cs[i].event, cs[k].event)
    ensures Reconcile(cs) == Some(Choice(cs[k], cs[..k] + cs[k + 1..]))
  {
    var evs := EventsOf(cs);
    assert evs[k] == cs[k].event;
    MaxOfIsMaximal(evs, cs[k].event);
    var m := MaxOf(evs).value;
    var j :| 0 <= j < |evs| && evs[j] == m;
    if j != k { PrecedesStrictTotal(m, cs[k].event, m); }
    FindIs(cs, k);
  }

  // ---- the store ------------------------------------------------------------------------

  /** A fact row with the assert event it came from. */
  datatype Fact = Fact(row: FactRow, event: Event)

  predicate Live(f: Fact) { f.row.retractedAt.None? && f.row.tombstonedAt.None? }

  /** The place of a fact in its table. */
  newtype FactId = x: int | 0 <= x

  /** The facts of one (e, a), the current rows by fact, and the event log, each in insertion order. */
  datatype Store = Store(facts: seq<Fact>, current: seq<FactId>, log: Log)

  const EMPTY := Store([], [], [])

  const SUPERSEDED := Lit("superseded by ≺-max cardinality-one assertion")

  /** The retraction that a transaction issues: its clock and actor are those of its assert. */
  function RetractEvent(address: Body -> EventId, x: Event, target: EventId): Event {
    var b := Body(Retract, x.body.actor, x.body.actorType, x.body.hlc, None, None, None, None, Absent, Some(target), None, Some(SUPERSEDED));
    Event(address(b), b)
  }

  function NewFact(x: Event): Fact {
    Fact(FactRow(OrElse(x.body.e), OrElse(x.body.a), if x.body.v.Some? then x.body.v.value else Null, x.id, x.body.hlc.pt,
                 OrElseInt(x.body.validFrom, x.body.hlc.pt), if x.body.validTo.At? then Some(x.body.validTo.time) else None, None, None), x)
  }

  function OrElse(t: Option<Text>): Text { if t.Some? then t.value else [] }

  /** The new fact, then the facts of the current rows, those not retracted or tombstoned. */
  function Candidates(st: Store, x: Event): seq<Candidate<FactId>> {
    var facts := st.facts + [NewFact(x)];
    var ids := Filter([|st.facts| as FactId] + st.current, (i: FactId) => i as int < |facts| && Live(facts[i]));
    Map(ids, (i: FactId) => Candidate(i, if i as int < |facts| then facts[i].event else x))
  }

  /** Fact `i` is the new one or a current one, and its row has neither end. */
  ghost predicate IsOpen(st: Store, x: Event, i: FactId) {
    var facts := st.facts + [NewFact(x)];
    && (i as int == |st.facts| || i in st.current)
    && i as int < |facts|
    && facts[i].row.retractedAt.None? && facts[i].row.tombstonedAt.None?
  }

  /** A candidate is the new fact or that of a current row, neither retracted nor tombstoned, with its own event. */
  lemma CandidatesAre(st: Store, x: Event, c: Candidate<FactId>)
    ensures c in Candidates(st, x) ==> IsOpen(st, x, c.item) && c.event == (st.facts + [NewFact(x)])[c.item].event
    ensures forall i: FactId :: IsOpen(st, x, i) ==> Candidate(i, (st.facts + [NewFact(x)])[i].event) in Candidates(st, x)
  {
    hide NewFact;
    var facts := st.facts + [NewFact(x)];
    var p := (i: FactId) => i as int < |facts| && Live(facts[i]);
    var all := [|st.facts| as FactId] + st.current;
    var ids := Filter(all, p);
    FilterMembers(all, p);
    if c in Candidates(st, x) {
      var k :| 0 <= k < |ids| && Candidates(st, x)[k] == c;
      assert ids[k] in ids;
    }
    forall i: FactId | IsOpen(st, x, i)
      ensures Candidate(i, facts[i].event) in Candidates(st, x)
    {
      assert all[0] == |st.facts| as FactId;
      assert i in all && p(i);
      var k :| 0 <= k < |ids| && ids[k] == i;
      assert Candidates(st, x)[k] == Candidate(i, facts[i].event);
    }
  }

  function Retracted(facts: seq<Fact>, losers: seq<Candidate<FactId>>, now: int): seq<Fact> {
    if losers == [] then facts
    else
      var done, i := Retracted(facts, losers[..|losers| - 1], now), losers[|losers| - 1].item;
      if i as int < |done| then done[i := done[i].(row := done[i].row.(retractedAt := Some(now)))] else done
  }

  function Retractions(address: Body -> EventId, x: Event, losers: seq<Candidate<FactId>>): seq<Event> {
    Map(losers, (c: Candidate<FactId>) => RetractEvent(address, x, c.event.id))
  }

  /** Assert `x`; `now` is its clock's physical time. */
  function AssertOne(address: Body -> EventId, st: Store, x: Event): Store {
    var now := x.body.hlc.pt;
    var r := Reconcile(Candidates(st, x));
    if r.None? then Store(st.facts + [NewFact(x)], st.current, st.log + [x])
    else
      var w := r.value.winner.item;
      var facts := Retracted(st.facts + [NewFact(x)], r.value.losers, now);
      Store(facts,
            if w as int < |facts| && IsFactVisible(facts[w].row, Coord(now, now), NO_FLAGS) then [w] else [],
            st.log + [x] + Retractions(address, x, r.value.losers))
  }

  class FactStore {
    const address: Body -> EventId
    var facts: seq<Fact>
    var current: seq<FactId>
    var log: Log

    ghost function Now(): Store
      reads this
    {
      Store(facts, current, log)
    }

    constructor (address: Body -> EventId)
      ensures Now() == EMPTY && this.address == address
    {
      this.address := address;
      facts, current, log := [], [], [];
    }

    method AssertInTx(x: Event)
      modifies this
      ensures Now() == AssertOne(address, old(Now()), x)
    {
      hide Reconcile, Candidates, IsFactVisible, Retracted, Retractions, RetractEvent;
      var now := x.body.hlc.pt;
      var candidates := Candidates(Store(facts, current, log), x);
      facts, log := facts + [NewFact(x)], log + [x];
      var choice := Reconcile(candidates);
      if choice.None? { return; }
      var losers := choice.value.losers;
      NoLosers(address, facts, log, x, now);
      for i := 0 to |losers|
        invariant current == old(current)
        invariant facts == Retracted(old(facts) + [NewFact(x)], losers[..i], now)
        invariant log == old(log) + [x] + Retractions(address, x, losers[..i])
      {
        TakeNext(losers, i);
        OneMoreLoser(address, old(facts) + [NewFact(x)], old(log) + [x], x, now, losers[..i], losers[i]);
        var f := losers[i].item;
        if f as int < |facts| {
          facts := facts[f := facts[f].(row := facts[f].row.(retractedAt := Some(now)))];
        }
        log := log + [RetractEvent(address, x, losers[i].event.id)];
      }
      TakeAll(losers);
      var w := choice.value.winner.item;
      current := if w as int < |facts| && IsFactVisible(facts[w].row, Coord(now, now), NO_FLAGS) then [w] else [];
    }
  }

  lemma NoLosers(address: Body -> EventId, facts: seq<Fact>, log: Log, x: Event, now: int)
    ensures Retracted(facts, [], now) == facts && log + Retractions(address, x, []) == log
  {
  }

  lemma OneMoreLoser(address: Body -> EventId, facts: seq<Fact>, log: Log, x: Event, now: int, losers: seq<Candidate<FactId>>, l: Candidate<FactId>)
    ensures var done, i := Retracted(facts, losers, now), l.item;
            Retracted(facts, losers + [l], now) == if i as int < |done| then done[i := done[i].(row := done[i].row.(retractedAt := Some(now)))] else done
    ensures log + Retractions(address, x, losers + [l]) == (log + Retractions(address, x, losers)) + [RetractEvent(address, x, l.event.id)]
  {
    InitOfSnoc(losers, l);
    MapSnoc(losers, l, (c: Candidate<FactId>) => RetractEvent(address, x, c.event.id));
  }

  // ---- one step ------------------------------------------------------------------------------

  /** One live fact, in the one current row; it is the ≺-maximum of every assert there has been. */
  ghost predicate OneCurrent(st: Store, w: nat) {
    && w < |st.facts| && st.current == [w as FactId]
    && (forall i :: 0 <= i < |st.facts| ==> (Live(st.facts[i]) <==> i == w))
    && (forall i :: 0 <= i < |st.facts| && i != w ==> Precedes(st.facts[i].event, st.facts[w].event))
  }

  ghost predicate NewId(st: Store, x: Event) {
    forall i :: 0 <= i < |st.facts| ==> st.facts[i].event.id != x.id
  }

  /** Where the winner is after asserting `x` over the current fact. */
  ghost function WinnerAfter(st: Store, w: nat, x: Event): nat
    requires w < |st.facts|
  {
    if Precedes(st.facts[w].event, x) then |st.facts| else w
  }

  ghost function LoserAfter(st: Store, w: nat, x: Event): nat
    requires w < |st.facts|
  {
    if Precedes(st.facts[w].event, x) then w else |st.facts|
  }

  lemma TwoCandidates(st: Store, w: nat, x: Event)
    requires OneCurrent(st, w)
    ensures Candidates(st, x) == [Candidate(|st.facts| as FactId, x), Candidate(w as FactId, st.facts[w].event)]
  {
    var n, v, facts := |st.facts| as FactId, w as FactId, st.facts + [NewFact(x)];
    var p := (i: FactId) => i as int < |facts| && Live(facts[i]);
    assert [n] + st.current == [n, v];
    assert [n, v][1..] == [v] && [v][1..] == [];
    assert p(n) && p(v);
    assert Filter([v], p) == [v] + Filter([], p);
    assert Filter([n, v], p) == [n] + Filter([v], p);
  }

  /** The loser is retracted by the transaction and the winner is current if it is visible now. */
  ghost function StepStore(address: Body -> EventId, st: Store, w: nat, x: Event): Store
    requires w < |st.facts|
  {
    var now, l, w' := x.body.hlc.pt, LoserAfter(st, w, x), WinnerAfter(st, w, x);
    var facts := st.facts + [NewFact(x)];
    Store(RetractAt(facts, l, now),
          if IsFactVisible(facts[w'].row, Coord(now, now), NO_FLAGS) then [w' as FactId] else [],
          st.log + [x] + [RetractEvent(address, x, facts[l].event.id)])
  }

  ghost function RetractAt(facts: seq<Fact>, l: nat, now: int): (r: seq<Fact>)
    requires l < |facts|
    ensures |r| == |facts| && forall i :: 0 <= i < |r| ==> r[i] == if i == l then facts[i].(row := facts[i].row.(retractedAt := Some(now))) else facts[i]
  {
    facts[l := facts[l].(row := facts[l].row.(retractedAt := Some(now)))]
  }

  lemma StepOfTwo(address: Body -> EventId, st: Store, w: nat, x: Event)
    requires w < |st.facts| && st.facts[w].event.id != x.id
    requires Candidates(st, x) == [Candidate(|st.facts| as FactId, x), Candidate(w as FactId, st.facts[w].event)]
    ensures AssertOne(address, st, x) == StepStore(address, st, w, x)
  {
    hide IsFactVisible, RetractEvent, Precedes, Candidates, NewFact, Reconcile;
    var now, n, prior := x.body.hlc.pt, |st.facts|, st.facts[w].event;
    var cs: seq<Candidate<FactId>> := [Candidate(n as FactId, x), Candidate(w as FactId, prior)];
    PrecedesStrictTotal(prior, x, prior);
    var k := if Precedes(prior, x) then 0 else 1;
    ReconcilePicksMax(cs, k);
    assert cs[..k] + cs[k + 1..] == [cs[1 - k]];
    RetractOne(address, st.facts + [NewFact(x)], st.log + [x], x, now, cs[1 - k]);
    NewFactLive(x);
  }

  lemma RetractOne(address: Body -> EventId, facts: seq<Fact>, log: Log, x: Event, now: int, l: Candidate<FactId>)
    requires l.item as int < |facts|
    ensures Retracted(facts, [l], now) == RetractAt(facts, l.item as int, now)
    ensures log + Retractions(address, x, [l]) == log + [RetractEvent(address, x, l.event.id)]
  {
    hide RetractEvent;
    OneMoreLoser(address, facts, log, x, now, [], l);
    NoLosers(address, facts, log, x, now);
    assert [] + [l] == [l];
  }

  lemma StepIs(address: Body -> EventId, st: Store, w: nat, x: Event)
    requires OneCurrent(st, w) && NewId(st, x)
    ensures AssertOne(address, st, x) == StepStore(address, st, w, x)
  {
    TwoCandidates(st, w, x);
    StepOfTwo(address, st, w, x);
  }

  /**
   * An assert leaves one live fact in one current row, again the ≺-maximum, exactly when the winner is
   * visible at the time of the assert: a winner stamped later than now, or outside its valid interval
   * now, loses its current row and is never reconciled again.
   */
  lemma StepKeepsOneIff(address: Body -> EventId, st: Store, w: nat, x: Event)
    requires OneCurrent(st, w) && NewId(st, x)
    ensures var now, w' := x.body.hlc.pt, WinnerAfter(st, w, x);
            var shown := IsFactVisible((st.facts + [NewFact(x)])[w'].row, Coord(now, now), NO_FLAGS);
            var st' := AssertOne(address, st, x);
            && (OneCurrent(st', w') <==> shown)
            && (!shown ==> st'.current == [])
  {
    hide IsFactVisible, AssertOne, Precedes, NewFact, RetractEvent;
    StepIs(address, st, w, x);
    NewFactLive(x);
    var now, l, w' := x.body.hlc.pt, LoserAfter(st, w, x), WinnerAfter(st, w, x);
    var facts, st' := st.facts + [NewFact(x)], AssertOne(address, st, x);
    PrecedesStrictTotal(st.facts[w].event, x, st.facts[w].event);
    forall i | 0 <= i < |facts| && i != w' ensures Precedes(facts[i].event, facts[w'].event) {
      if i != l { PrecedesStrictTotal(st.facts[i].event, st.facts[w].event, x); }
    }
  }

  lemma NewFactLive(x: Event)
    ensures Live(NewFact(x)) && NewFact(x).event == x
  {
  }

  // ---- whole runs ----------------------------------------------------------------------------------

  function AssertAll(address: Body -> EventId, xs: seq<Event>): Store {
    if xs == [] then EMPTY else AssertOne(address, AssertAll(address, xs[..|xs| - 1]), xs[|xs| - 1])
  }

  /** Different events that assert (e, a). */
  ghost predicate Written(xs: seq<Event>, e: Text, a: Text) {
    && (forall i, j :: 0 <= i < j < |xs| ==> xs[i].id != xs[j].id)
    && (forall i :: 0 <= i < |xs| ==> Asserts(xs[i], e, a))
  }

  /** The assert is stamped no later than `now` and valid then. */
  predicate ShownAt(x: Event, now: int) {
    x.body.hlc.pt <= now && OrElseInt(x.body.validFrom, x.body.hlc.pt) <= now && (x.body.validTo.At? ==> now < x.body.validTo.time)
  }

  /** At each assert, the ≺-maximum so far is shown at the time of that assert. */
  ghost predicate KeptShown(xs: seq<Event>) {
    forall k :: 0 <= k < |xs| ==> MaxShownAfter(xs, k)
  }

  ghost predicate MaxShownAfter(xs: seq<Event>, k: nat)
    requires k < |xs|
  {
    MaxOf(xs[..k + 1]).Some? && ShownAt(MaxOf(xs[..k + 1]).value, xs[k].body.hlc.pt)
  }

  ghost predicate FactFor(f: Fact, x: Event) {
    f.event == x && f.row == NewFact(x).row.(retractedAt := f.row.retractedAt)
  }

  predicate Retracts(y: Event, id: EventId) { y.body.kind == Retract && y.body.target == Some(id) }

  /** A log entry is one of the asserts, or a retraction of one that is not the winner. */
  ghost predicate LogEntry(y: Event, xs: seq<Event>, w: nat) {
    y in xs || exists i :: 0 <= i < |xs| && i != w && Retracts(y, xs[i].id)
  }

  ghost predicate FactsRecorded(facts: seq<Fact>, xs: seq<Event>) {
    |facts| == |xs| && forall i :: 0 <= i < |xs| ==> FactFor(facts[i], xs[i])
  }

  ghost predicate OnlyRecorded(log: Log, xs: seq<Event>, w: nat, now: int) {
    forall y :: y in log ==> y.body.hlc.pt <= now && LogEntry(y, xs, w)
  }

  ghost predicate AllRecorded(log: Log, xs: seq<Event>, w: nat) {
    forall i {:trigger xs[i]} :: 0 <= i < |xs| ==> xs[i] in log && (i != w ==> exists y :: y in log && Retracts(y, xs[i].id))
  }

  /** The facts are those of `xs`; the log holds `xs` and a retraction of all but the winner, nothing else. */
  ghost predicate Recorded(st: Store, xs: seq<Event>, w: nat) {
    w < |xs| && FactsRecorded(st.facts, xs) && OnlyRecorded(st.log, xs, w, xs[|xs| - 1].body.hlc.pt) && AllRecorded(st.log, xs, w)
  }

  lemma FirstAssert(address: Body -> EventId, x: Event)
    ensures AssertOne(address, EMPTY, x)
         == Store([NewFact(x)], if IsFactVisible(NewFact(x).row, Coord(x.body.hlc.pt, x.body.hlc.pt), NO_FLAGS) then [0] else [], [x])
  {
    hide IsFactVisible;
    var p := (i: FactId) => i as int < |[NewFact(x)]| && Live([NewFact(x)][i]);
    assert p(0) && Filter<FactId>([0], p) == [0] + Filter<FactId>([], p);
    assert [0 as FactId] + [] == [0];
    var cs: seq<Candidate<FactId>> := [Candidate(0, x)];
    assert [] + [NewFact(x)] == [NewFact(x)];
    assert Candidates(EMPTY, x) == cs;
    ReconcilePicksMax(cs, 0);
    assert cs[..0] + cs[1..] == [];
    NoLosers(address, [NewFact(x)], [x], x, x.body.hlc.pt);
    assert ([] + [x]) + [] == [x];
  }

  /** What reading the row of a fact not retracted comes to. */
  lemma ShownIs(f: Fact, x: Event, now: int)
    requires FactFor(f, x) && f.row.retractedAt.None?
    ensures IsFactVisible(f.row, Coord(now, now), NO_FLAGS) <==> ShownAt(x, now)
  {
    RowReading(f.row, Coord(now, now), NO_FLAGS);
  }

  lemma FactsStep(facts: seq<Fact>, xs: seq<Event>, x: Event, l: nat, now: int)
    requires FactsRecorded(facts, xs) && l <= |xs|
    ensures FactsRecorded(RetractAt(facts + [NewFact(x)], l, now), xs + [x])
  {
    hide NewFact, RetractAt;
    NewFactFor(x);
    var facts', xs' := facts + [NewFact(x)], xs + [x];
    forall i | 0 <= i < |xs'| ensures FactFor(facts'[i], xs'[i]) { }
  }

  lemma OnlyStep(log: Log, xs: seq<Event>, x: Event, w: nat, w': nat, l: nat, y0: Event, now: int)
    requires OnlyRecorded(log, xs, w, now) && w < |xs| && ((w' == w && l == |xs|) || (w' == |xs| && l == w))
    requires now <= x.body.hlc.pt && y0.body.hlc.pt == x.body.hlc.pt && Retracts(y0, (xs + [x])[l].id)
    ensures OnlyRecorded(log + [x] + [y0], xs + [x], w', x.body.hlc.pt)
  {
    hide LogEntry;
    forall y | y in log ensures LogEntry(y, xs + [x], w') { EntryStays(y, xs, x, w, w'); }
    NewEntries(xs, x, w', l, y0);
  }

  lemma NewEntries(xs: seq<Event>, x: Event, w': nat, l: nat, y0: Event)
    requires l <= |xs| && l != w' && Retracts(y0, (xs + [x])[l].id)
    ensures LogEntry(x, xs + [x], w') && LogEntry(y0, xs + [x], w')
  {
    assert (xs + [x])[|xs|] == x;
  }

  lemma AllStep(log: Log, xs: seq<Event>, x: Event, w: nat, w': nat, l: nat, y0: Event)
    requires AllRecorded(log, xs, w) && w < |xs| && ((w' == w && l == |xs|) || (w' == |xs| && l == w))
    requires Retracts(y0, (xs + [x])[l].id)
    ensures AllRecorded(log + [x] + [y0], xs + [x], w')
  {
    hide Retracts;
    var xs', log' := xs + [x], log + [x] + [y0];
    forall i | 0 <= i < |xs'| ensures xs'[i] in log' && (i != w' ==> exists y :: y in log' && Retracts(y, xs'[i].id)) {
      if i == l {
        assert y0 in log';
      } else if i < |xs| && i != w {
        assert xs'[i] == xs[i];
        var y :| y in log && Retracts(y, xs[i].id);
        assert y in log';
      }
    }
  }

  lemma RecordedStep(address: Body -> EventId, st: Store, w: nat, xs: seq<Event>, x: Event, e: Text, a: Text)
    requires Written(xs + [x], e, a) && Recorded(st, xs, w) && OneCurrent(st, w) && MaxShownAfter(xs + [x], |xs|)
    ensures NewId(st, x) && Recorded(AssertOne(address, st, x), xs + [x], WinnerAfter(st, w, x))
  {
    NewIdOf(st, w, xs, x, e, a);
    StepIs(address, st, w, x);
    ClockForward(xs, x);
    hide AssertOne, Precedes, MaxShownAfter, OneCurrent, IsFactVisible, NewFact, FactsRecorded, OnlyRecorded, AllRecorded, RetractAt, RetractEvent;
    var xs', w', l := xs + [x], WinnerAfter(st, w, x), LoserAfter(st, w, x);
    FactEvents(st, xs, x, l);
    var y0 := RetractEvent(address, x, xs'[l].id);
    RetractEventIs(address, x, xs'[l].id);
    FactsStep(st.facts, xs, x, l, x.body.hlc.pt);
    OnlyStep(st.log, xs, x, w, w', l, y0, xs[|xs| - 1].body.hlc.pt);
    AllStep(st.log, xs, x, w, w', l, y0);
  }

  lemma RetractEventIs(address: Body -> EventId, x: Event, id: EventId)
    ensures var y := RetractEvent(address, x, id);
            y.body.hlc == x.body.hlc && Retracts(y, id)
  {
  }

  /** If the maximum is shown, the clock has not gone back. */
  lemma ClockForward(xs: seq<Event>, x: Event)
    requires xs != [] && MaxShownAfter(xs + [x], |xs|)
    ensures xs[|xs| - 1].body.hlc.pt <= x.body.hlc.pt
  {
    var all, last := xs + [x], xs[|xs| - 1];
    assert all[..|xs| + 1] == all && all[|xs| - 1] == last;
    MaxOfIsMaximal(all, last);
  }

  lemma WrittenBefore(xs: seq<Event>, x: Event, e: Text, a: Text)
    requires Written(xs + [x], e, a)
    ensures Written(xs, e, a)
  {
    forall i | 0 <= i < |xs| ensures (xs + [x])[i] == xs[i] { }
  }

  lemma ShownBefore(xs: seq<Event>, x: Event)
    ensures KeptShown(xs + [x]) <==> KeptShown(xs) && MaxShownAfter(xs + [x], |xs|)
  {
    var all := xs + [x];
    forall k | 0 <= k < |xs| ensures MaxShownAfter(all, k) <==> MaxShownAfter(xs, k) {
      assert all[..k + 1] == xs[..k + 1] && all[k] == xs[k];
    }
    hide MaxShownAfter;
  }

  lemma FactEvents(st: Store, xs: seq<Event>, x: Event, l: nat)
    requires FactsRecorded(st.facts, xs) && l <= |xs|
    ensures |st.facts| == |xs| && (st.facts + [NewFact(x)])[l].event == (xs + [x])[l]
  {
  }

  lemma NewFactFor(x: Event)
    ensures FactFor(NewFact(x), x)
  {
  }

  lemma EntryStays(y: Event, xs: seq<Event>, x: Event, w: nat, w': nat)
    requires LogEntry(y, xs, w) && w < |xs| && (w' == w || w' == |xs|)
    ensures LogEntry(y, xs + [x], w')
  {
    if y !in xs {
      var i :| 0 <= i < |xs| && i != w && Retracts(y, xs[i].id);
      assert (xs + [x])[i] == xs[i];
    }
  }

  /** The log retracts every assert but the winner, and tombstones none. */
  lemma LogMarks(st: Store, xs: seq<Event>, w: nat, e: Text, a: Text, t: int)
    requires Written(xs, e, a) && Recorded(st, xs, w) && t >= xs[|xs| - 1].body.hlc.pt
    ensures forall u :: u in st.log ==> u.body.kind != Tombstone && !Retracts(u, xs[w].id) && u.body.hlc.pt <= t
    ensures forall y :: y in st.log && y.body.kind == Assert && y != xs[w] ==> exists u :: u in st.log && Retracts(u, y.id)
  {
    forall u | u in st.log ensures u.body.kind != Tombstone && !Retracts(u, xs[w].id) && u.body.hlc.pt <= t {
      assert LogEntry(u, xs, w);
      EntryMarks(u, xs, w, e, a);
    }
    forall y | y in st.log && y.body.kind == Assert && y != xs[w] ensures exists u :: u in st.log && Retracts(u, y.id) {
      assert LogEntry(y, xs, w);
      var i :| 0 <= i < |xs| && xs[i] == y;
      assert xs[i] in st.log;
    }
  }

  lemma EntryMarks(u: Event, xs: seq<Event>, w: nat, e: Text, a: Text)
    requires Written(xs, e, a) && w < |xs| && LogEntry(u, xs, w)
    ensures u.body.kind != Tombstone && !Retracts(u, xs[w].id)
  {
    if u in xs {
      var i :| 0 <= i < |xs| && xs[i] == u;
      assert Asserts(xs[i], e, a);
    } else {
      var i :| 0 <= i < |xs| && i != w && Retracts(u, xs[i].id);
      assert xs[i].id != xs[w].id;
    }
  }

  /** The assert holds at a valid time. */
  predicate HoldsAt(x: Event, t: int) {
    (x.body.validFrom.Some? ==> x.body.validFrom.value <= t) && (x.body.validTo.At? ==> t < x.body.validTo.time)
  }

  /** What the log says of a winner: it alone can show. */
  lemma WinnerAloneShows(st: Store, xs: seq<Event>, w: nat, e: Text, a: Text, c: Coord, y: Event)
    requires Written(xs, e, a) && Recorded(st, xs, w) && c.txTime >= xs[|xs| - 1].body.hlc.pt
    ensures y in st.log && Asserts(y, e, a) && Visible(y, c, st.log, NO_FLAGS) <==> y == xs[w] && HoldsAt(y, c.validTime)
  {
    hide Tombstoned;
    var t := c.txTime;
    LogMarks(st, xs, w, e, a, t);
    assert xs[w] in st.log && Asserts(xs[w], e, a) && xs[w].body.hlc.pt <= t;
    hide Recorded, Written;
    ActedOnMembers(st.log, Retract, y.id, t);
    var retracts := ActedOn(st.log, Retract, y.id, t);
    assert |retracts| > 0 ==> retracts[0] in retracts;
    TombstonedMeaning(st.log, y, t);
    if y in st.log && y.body.kind == Assert && y != xs[w] {
      var u :| u in st.log && Retracts(u, y.id);
      assert u in retracts;
    }
  }

  lemma LogFoldsToWinner(st: Store, xs: seq<Event>, w: nat, e: Text, a: Text, c: Coord)
    requires Written(xs, e, a) && Recorded(st, xs, w) && c.txTime >= xs[|xs| - 1].body.hlc.pt
    ensures ValueAt(e, a, c, st.log, One, NO_FLAGS) == Single(if HoldsAt(xs[w], c.validTime) then Some(xs[w]) else None)
  {
    hide Visible;
    var vis := VisibleAsserts(e, a, c, st.log, NO_FLAGS);
    VisibleAssertsMembers(e, a, c, st.log, NO_FLAGS);
    forall y ensures y in vis <==> y == xs[w] && HoldsAt(y, c.validTime) { WinnerAloneShows(st, xs, w, e, a, c, y); }
    hide HoldsAt;
    assert vis != [] ==> vis[0] in vis && MaxOf(vis).Some? && MaxOf(vis).value in vis;
    assert HoldsAt(xs[w], c.validTime) ==> xs[w] in vis;
  }

  /** While the maximum stays shown, one fact is live, it is the only current row, and it is the ≺-maximum of all. */
  lemma {:induction false} RunKeepsOne(address: Body -> EventId, xs: seq<Event>, e: Text, a: Text) returns (w: nat)
    requires Written(xs, e, a) && KeptShown(xs) && xs != []
    ensures OneCurrent(AssertAll(address, xs), w) && Recorded(AssertAll(address, xs), xs, w)
  {
    hide AssertOne, IsFactVisible, Precedes, OneCurrent, NewFact, ShownAt, KeptShown;
    var init, x := xs[..|xs| - 1], xs[|xs| - 1];
    SplitLast(xs);
    ShownBefore(init, x);
    if init == [] {
      w := 0;
      FirstRow(address, x);
      FirstIsOne(x);
      assert xs == [x];
    } else {
      WrittenBefore(init, x, e, a);
      var v := RunKeepsOne(address, init, e, a);
      var st := AssertAll(address, init);
      w := WinnerAfter(st, v, x);
      RecordedStep(address, st, v, init, x, e, a);
      WinnerShownIff(st, v, init, x, e, a);
      StepKeepsOneIff(address, st, v, x);
    }
  }

  lemma FirstRow(address: Body -> EventId, x: Event)
    ensures AssertOne(address, EMPTY, x) == Store([NewFact(x)], if MaxShownAfter([x], 0) then [0] else [], [x])
  {
    hide IsFactVisible, ShownAt, Precedes;
    FirstAssert(address, x);
    NewFactFor(x);
    NewFactLive(x);
    ShownIs(NewFact(x), x, x.body.hlc.pt);
    assert [x][..1] == [x] && MaxOf([x]) == Some(x);
  }

  lemma FirstIsOne(x: Event)
    ensures OneCurrent(Store([NewFact(x)], [0], [x]), 0) && Recorded(Store([NewFact(x)], [0], [x]), [x], 0)
  {
  }

  lemma WinnerIsMax(st: Store, v: nat, xs: seq<Event>, x: Event)
    requires FactsRecorded(st.facts, xs) && OneCurrent(st, v) && NewId(st, x)
    ensures MaxOf(xs + [x]) == Some((xs + [x])[WinnerAfter(st, v, x)])
  {
    var all, w := xs + [x], WinnerAfter(st, v, x);
    assert FactFor(st.facts[v], xs[v]);
    PrecedesStrictTotal(x, xs[v], x);
    forall i | 0 <= i < |all| && i != w ensures Precedes(all[i], all[w]) {
      if i < |xs| {
        assert FactFor(st.facts[i], xs[i]);
        PrecedesStrictTotal(xs[i], xs[v], x);
      }
    }
    hide Precedes, FactFor;
    MaxIs(all, w);
  }

  /** The winner of a step is the maximum so far; it is shown in its row exactly when it is shown then. */
  lemma WinnerShownIff(st: Store, v: nat, xs: seq<Event>, x: Event, e: Text, a: Text)
    requires Written(xs + [x], e, a) && Recorded(st, xs, v) && OneCurrent(st, v)
    ensures IsFactVisible((st.facts + [NewFact(x)])[WinnerAfter(st, v, x)].row, Coord(x.body.hlc.pt, x.body.hlc.pt), NO_FLAGS)
            <==> MaxShownAfter(xs + [x], |xs|)
  {
    hide OnlyRecorded, AllRecorded, FactsRecorded, Written, NewId, IsFactVisible, ShownAt, NewFact, FactFor, Live, MaxShownAfter, Precedes;
    var all, w := xs + [x], WinnerAfter(st, v, x);
    NewIdOf(st, v, xs, x, e, a);
    WinnerIsMax(st, v, xs, x);
    WinnerFact(st, v, xs, x);
    assert all[..|xs| + 1] == all && all[|xs|] == x;
    ShownAsMax((st.facts + [NewFact(x)])[w], all[w], all, |xs|);
  }

  lemma WinnerFact(st: Store, v: nat, xs: seq<Event>, x: Event)
    requires FactsRecorded(st.facts, xs) && OneCurrent(st, v)
    ensures var w := WinnerAfter(st, v, x);
            |st.facts| == |xs| && w < |xs| + 1 && FactFor((st.facts + [NewFact(x)])[w], (xs + [x])[w]) && Live((st.facts + [NewFact(x)])[w])
  {
    assert FactFor(st.facts[v], xs[v]) && Live(st.facts[v]);
    NewFactFor(x);
    NewFactLive(x);
    hide FactFor, NewFact, Live, Precedes;
  }

  lemma ShownAsMax(f: Fact, x: Event, all: seq<Event>, k: nat)
    requires FactFor(f, x) && Live(f) && k < |all| && MaxOf(all[..k + 1]) == Some(x)
    ensures IsFactVisible(f.row, Coord(all[k].body.hlc.pt, all[k].body.hlc.pt), NO_FLAGS) <==> MaxShownAfter(all, k)
  {
    hide IsFactVisible, ShownAt, FactFor;
    ShownIs(f, x, all[k].body.hlc.pt);
  }

  lemma NewIdOf(st: Store, w: nat, xs: seq<Event>, x: Event, e: Text, a: Text)
    requires Written(xs + [x], e, a) && Recorded(st, xs, w)
    ensures NewId(st, x)
  {
    forall i | 0 <= i < |st.facts| ensures st.facts[i].event.id != x.id {
      assert FactFor(st.facts[i], xs[i]) && (xs + [x])[i].id != (xs + [x])[|xs|].id;
    }
  }

  lemma MaxIs(xs: seq<Event>, w: nat)
    requires w < |xs| && forall i :: 0 <= i < |xs| && i != w ==> Precedes(xs[i], xs[w])
    ensures MaxOf(xs) == Some(xs[w])
  {
    hide Precedes;
    MaxOfIsMaximal(xs, xs[w]);
    var j :| 0 <= j < |xs| && xs[j] == MaxOf(xs).value;
  }

  /** After every assert some fact is the one live fact, in the one current row. */
  ghost predicate CurrentThroughout(address: Body -> EventId, xs: seq<Event>) {
    forall k :: 0 <= k < |xs| ==> HasCurrentAfter(address, xs, k)
  }

  ghost predicate HasCurrentAfter(address: Body -> EventId, xs: seq<Event>, k: nat)
    requires k < |xs|
  {
    HasCurrent(address, xs[..k + 1])
  }

  ghost predicate HasCurrent(address: Body -> EventId, xs: seq<Event>) {
    exists w :: OneCurrent(AssertAll(address, xs), w)
  }

  lemma CurrentBefore(address: Body -> EventId, xs: seq<Event>, x: Event)
    ensures CurrentThroughout(address, xs + [x]) <==> CurrentThroughout(address, xs) && HasCurrent(address, xs + [x])
  {
    hide HasCurrent;
    var all := xs + [x];
    forall k | 0 <= k < |xs| ensures HasCurrentAfter(address, all, k) <==> HasCurrentAfter(address, xs, k) {
      assert all[..k + 1] == xs[..k + 1];
    }
    assert all[..|xs| + 1] == all;
    assert HasCurrentAfter(address, all, |xs|) <==> HasCurrent(address, all);
  }

  /**
   * For any run of different asserts, whatever the clock and their validity: one live fact is kept in
   * one current row throughout if and only if at each assert the ≺-maximum so far is shown at its time.
   */
  lemma {:induction false} RunKeepsOneIff(address: Body -> EventId, xs: seq<Event>, e: Text, a: Text)
    requires Written(xs, e, a)
    ensures CurrentThroughout(address, xs) <==> KeptShown(xs)
  {
    if xs != [] {
      var init, x := xs[..|xs| - 1], xs[|xs| - 1];
      SplitLast(xs);
      WrittenBefore(init, x, e, a);
      hide Written, CurrentThroughout, KeptShown;
      RunKeepsOneIff(address, init, e, a);
      ShownBefore(init, x);
      CurrentBefore(address, init, x);
      if KeptShown(init) { LastStepIff(address, init, x, e, a); }
    }
  }

  lemma LastStepIff(address: Body -> EventId, init: seq<Event>, x: Event, e: Text, a: Text)
    requires Written(init + [x], e, a) && KeptShown(init)
    ensures HasCurrent(address, init + [x]) <==> MaxShownAfter(init + [x], |init|)
  {
    hide AssertOne, IsFactVisible, Precedes, NewFact, MaxShownAfter, KeptShown;
    InitOfSnoc(init, x);
    if init == [] {
      assert [] + [x] == [x];
      FirstRow(address, x);
      assert AssertAll(address, []) == EMPTY && AssertAll(address, [x]) == AssertOne(address, AssertAll(address, []), x);
      FirstIsOne(x);
      assert MaxShownAfter([x], 0) ==> OneCurrent(AssertAll(address, [x]), 0);
    } else {
      WrittenBefore(init, x, e, a);
      var v := RunKeepsOne(address, init, e, a);
      var st := AssertAll(address, init);
      NewIdOf(st, v, init, x, e, a);
      WinnerShownIff(st, v, init, x, e, a);
      StepKeepsOneIff(address, st, v, x);
      hide AssertAll;
      assert OneCurrent(AssertAll(address, init + [x]), WinnerAfter(st, v, x)) <==> MaxShownAfter(init + [x], |init|);
    }
  }

  /**
   * While the maximum stays shown: one live fact in one current row, the ≺-maximum, and from the last
   * assert on the log with its retractions folds to that same event wherever it is valid, else to nothing.
   */
  lemma WritePathMatchesFold(address: Body -> EventId, xs: seq<Event>, e: Text, a: Text, c: Coord) returns (w: nat)
    requires Written(xs, e, a) && KeptShown(xs) && xs != [] && c.txTime >= xs[|xs| - 1].body.hlc.pt
    ensures var st := AssertAll(address, xs);
            && OneCurrent(st, w) && MaxOf(xs) == Some(st.facts[w].event)
            && ValueAt(e, a, c, st.log, One, NO_FLAGS)
               == Single(if HoldsAt(st.facts[w].event, c.validTime) then MaxOf(xs) else None)
  {
    hide AssertAll, ValueAt, Precedes, KeptShown, HoldsAt;
    var st := AssertAll(address, xs);
    w := RunKeepsOne(address, xs, e, a);
    forall i | 0 <= i < |xs| ensures st.facts[i].event == xs[i] {
      assert FactFor(st.facts[i], xs[i]);
    }
    forall i | 0 <= i < |xs| && i != w ensures Precedes(xs[i], xs[w]) {
      assert Precedes(st.facts[i].event, st.facts[w].event);
    }
    MaxIs(xs, w);
    LogFoldsToWinner(st, xs, w, e, a, c);
  }

  /** Asserts valid from no later than their own time and for good, under a clock that does not go back, stay shown. */
  lemma OpenRunStaysShown(xs: seq<Event>)
    requires forall i :: 0 <= i < |xs| ==> OrElseInt(xs[i].body.validFrom, xs[i].body.hlc.pt) <= xs[i].body.hlc.pt && !xs[i].body.validTo.At?
    requires forall i, j :: 0 <= i < j < |xs| ==> xs[i].body.hlc.pt <= xs[j].body.hlc.pt
    ensures KeptShown(xs)
  {
    forall k | 0 <= k < |xs| ensures MaxShownAfter(xs, k) {
      var m := MaxOf(xs[..k + 1]);
      assert m.Some? && m.value in xs[..k + 1];
      var i :| 0 <= i < k + 1 && xs[..k + 1][i] == m.value;
    }
  }

  const AT_TEN := Event(Lit("x"), NOBODY.(hlc := Hlc(10, 0, Lit("r")), e := Some(Lit("e")), a := Some(Lit("a")), v := Some(Null)))
  const AT_FIVE := Event(Lit("y"), NOBODY.(hlc := Hlc(5, 0, Lit("r")), e := Some(Lit("e")), a := Some(Lit("a")), v := Some(Null)))

  /** The clock steps back between two asserts: the winner is stamped later than now and loses its row. */
  lemma ClockBackLosesRow(address: Body -> EventId)
    ensures Written([AT_TEN, AT_FIVE], Lit("e"), Lit("a")) && HasCurrent(address, [AT_TEN])
    ensures !CurrentThroughout(address, [AT_TEN, AT_FIVE]) && !HasCurrent(address, [AT_TEN, AT_FIVE])
  {
    var xs := [AT_TEN, AT_FIVE];
    TwoStamps();
    assert [AT_TEN] + [AT_FIVE] == xs && [] + [AT_TEN] == [AT_TEN];
    hide AssertAll, CurrentThroughout, KeptShown, HasCurrent, Written;
    WrittenBefore([AT_TEN], AT_FIVE, Lit("e"), Lit("a"));
    RunKeepsOneIff(address, [AT_TEN], Lit("e"), Lit("a"));
    CurrentBefore(address, [], AT_TEN);
    LastStepIff(address, [AT_TEN], AT_FIVE, Lit("e"), Lit("a"));
    CurrentBefore(address, [AT_TEN], AT_FIVE);
  }

  lemma TwoStamps()
    ensures Written([AT_TEN, AT_FIVE], Lit("e"), Lit("a")) && KeptShown([AT_TEN]) && !MaxShownAfter([AT_TEN, AT_FIVE], 1)
  {
    var xs := [AT_TEN, AT_FIVE];
    assert Lit("x")[0] == 120 && Lit("y")[0] == 121;
    assert [AT_TEN][..1] == [AT_TEN] && MaxOf([AT_TEN]) == Some(AT_TEN);
    assert xs[..2] == xs && xs[..1] == [AT_TEN] && MaxOf(xs) == Some(AT_TEN);
  }

  // ---- what the store carries ------------------------------------------------------------------------

  /** The row is of the assert: its entity, attribute, value, id, time and interval; only `retractedAt` is not. */
  ghost predicate RowCarries(f: Fact, x: Event) {
    && f.event == x && f.row.assertEventId == x.id && f.row.assertedAt == x.body.hlc.pt
    && (x.body.e.Some? ==> f.row.e == x.body.e.value) && (x.body.a.Some? ==> f.row.a == x.body.a.value)
    && (x.body.v.Some? ==> f.row.v == x.body.v.value)
    && f.row.validFrom == (if x.body.validFrom.Some? then x.body.validFrom.value else x.body.hlc.pt)
    && (x.body.validTo.At? ==> f.row.validTo == Some(x.body.validTo.time)) && (!x.body.validTo.At? ==> f.row.validTo.None?)
    && f.row.tombstonedAt.None?
  }

  /** A retraction of one assert by the transaction of another, under its own address. */
  ghost predicate Supersedes(address: Body -> EventId, y: Event, tx: Event, target: EventId) {
    && y.id == address(y.body) && y.body.kind == Retract && y.body.target == Some(target)
    && y.body.hlc == tx.body.hlc && y.body.actor == tx.body.actor && y.body.actorType == tx.body.actorType
    && y.body.e.None? && y.body.a.None? && y.body.v.None?
    && y.body.reason == Some(Lit("superseded by ≺-max cardinality-one assertion"))
  }

  /** The log holds the asserts, and retractions of asserts by asserts. */
  ghost predicate LogCarries(address: Body -> EventId, log: Log, xs: seq<Event>) {
    forall y :: y in log ==> y in xs || exists tx, x :: tx in xs && x in xs && Supersedes(address, y, tx, x.id)
  }

  lemma {:induction false} RetractedKeeps(facts: seq<Fact>, losers: seq<Candidate<FactId>>, now: int)
    ensures var r := Retracted(facts, losers, now);
            |r| == |facts| && forall i :: 0 <= i < |r| ==> r[i] == facts[i].(row := facts[i].row.(retractedAt := r[i].row.retractedAt))
  {
    if losers != [] { RetractedKeeps(facts, losers[..|losers| - 1], now); }
  }

  lemma LosersAreFacts(st: Store, x: Event, c: Candidate<FactId>)
    requires Reconcile(Candidates(st, x)).Some? && c in Reconcile(Candidates(st, x)).value.losers
    ensures c.event == x || exists f :: f in st.facts && f.event == c.event
  {
    var cs, facts := Candidates(st, x), st.facts + [NewFact(x)];
    assert c in cs;
    var k :| 0 <= k < |cs| && cs[k] == c;
    assert c.item as int < |facts| ==> c.event == facts[c.item].event;
    NewFactLive(x);
    if c.item as int < |st.facts| { assert st.facts[c.item] in st.facts; }
  }

  lemma RetractEventSupersedes(address: Body -> EventId, x: Event, target: EventId)
    ensures Supersedes(address, RetractEvent(address, x, target), x, target)
  {
  }

  lemma LogStep(address: Body -> EventId, log: Log, xs: seq<Event>, x: Event, losers: seq<Candidate<FactId>>)
    requires LogCarries(address, log, xs) && forall c :: c in losers ==> c.event == x || c.event in xs
    ensures LogCarries(address, log + [x] + Retractions(address, x, losers), xs + [x])
  {
    hide Supersedes, RetractEvent;
    var xs', more := xs + [x], Retractions(address, x, losers);
    forall y | y in log + [x] + more ensures y in xs' || exists tx, z :: tx in xs' && z in xs' && Supersedes(address, y, tx, z.id) {
      if y in log && y !in xs {
        var tx, z :| tx in xs && z in xs && Supersedes(address, y, tx, z.id);
        assert tx in xs' && z in xs';
      } else if y in more {
        var k :| 0 <= k < |more| && more[k] == y;
        RetractEventSupersedes(address, x, losers[k].event.id);
        assert losers[k] in losers && x in xs' && losers[k].event in xs';
      }
    }
  }

  /** Whatever is asserted, in whatever order and under whatever clocks. */
  lemma {:induction false} RunCarries(address: Body -> EventId, xs: seq<Event>)
    ensures var st := AssertAll(address, xs);
            && |st.facts| == |xs| && (forall i :: 0 <= i < |xs| ==> RowCarries(st.facts[i], xs[i])) && LogCarries(address, st.log, xs)
            && forall x :: x in xs ==> x in st.log
  {
    if xs != [] {
      var init, x := xs[..|xs| - 1], xs[|xs| - 1];
      SplitLast(xs);
      RunCarries(address, init);
      StepCarries(address, AssertAll(address, init), init, x);
    }
  }

  lemma StepCarries(address: Body -> EventId, st: Store, xs: seq<Event>, x: Event)
    requires |st.facts| == |xs| && (forall i :: 0 <= i < |xs| ==> RowCarries(st.facts[i], xs[i])) && LogCarries(address, st.log, xs)
    requires forall y :: y in xs ==> y in st.log
    ensures var st' := AssertOne(address, st, x);
            && |st'.facts| == |xs| + 1 && (forall i :: 0 <= i < |xs| + 1 ==> RowCarries(st'.facts[i], (xs + [x])[i]))
            && LogCarries(address, st'.log, xs + [x]) && forall y :: y in xs + [x] ==> y in st'.log
  {
    var r, now := Reconcile(Candidates(st, x)), x.body.hlc.pt;
    var losers := if r.Some? then r.value.losers else [];
    forall c | c in losers ensures c.event == x || c.event in xs {
      LosersAreFacts(st, x, c);
      FactEventIn(st, xs, c.event);
    }
    LogStep(address, st.log, xs, x, losers);
    FactsStepCarries(st.facts, xs, x, losers, now);
    NoLosers(address, st.facts + [NewFact(x)], st.log + [x], x, now);
    hide Reconcile, Candidates, IsFactVisible, NewFact, Retractions, LogCarries, Retracted, RowCarries;
  }

  lemma FactEventIn(st: Store, xs: seq<Event>, y: Event)
    requires |st.facts| == |xs| && forall i :: 0 <= i < |xs| ==> RowCarries(st.facts[i], xs[i])
    ensures (exists f :: f in st.facts && f.event == y) ==> y in xs
  {
    if f :| f in st.facts && f.event == y {
      var i :| 0 <= i < |st.facts| && st.facts[i] == f;
      assert xs[i] in xs;
    }
  }

  lemma FactsStepCarries(facts: seq<Fact>, xs: seq<Event>, x: Event, losers: seq<Candidate<FactId>>, now: int)
    requires |facts| == |xs| && forall i :: 0 <= i < |xs| ==> RowCarries(facts[i], xs[i])
    ensures var r := Retracted(facts + [NewFact(x)], losers, now);
            |r| == |xs| + 1 && forall i :: 0 <= i < |xs| + 1 ==> RowCarries(r[i], (xs + [x])[i])
  {
    NewFactCarries(x);
    RetractedKeeps(facts + [NewFact(x)], losers, now);
    hide NewFact, Retracted;
  }

  lemma NewFactCarries(x: Event)
    ensures RowCarries(NewFact(x), x)
  {
  }

  /** The log has a retraction of the fact at the time that its row gives. */
  ghost predicate RetractionLogged(log: Log, f: Fact) {
    f.row.retractedAt.Some? ==>
      exists y :: y in log && y.body.kind == Retract && y.body.target == Some(f.event.id) && y.body.hlc.pt == f.row.retractedAt.value
  }

  lemma {:induction false} RetractedTimes(facts: seq<Fact>, losers: seq<Candidate<FactId>>, now: int, i: nat)
    requires i < |facts|
    ensures var r := Retracted(facts, losers, now);
            |r| == |facts| && r[i].event == facts[i].event &&
            (r[i].row.retractedAt == facts[i].row.retractedAt ||
             (r[i].row.retractedAt == Some(now) && exists l :: l in losers && l.item as int == i))
  {
    if losers != [] {
      RetractedTimes(facts, losers[..|losers| - 1], now, i);
      SplitLast(losers);
    }
  }

  lemma LoserIs(st: Store, x: Event, c: Candidate<FactId>)
    requires Reconcile(Candidates(st, x)).Some? && c in Reconcile(Candidates(st, x)).value.losers
    ensures c.item as int < |st.facts| + 1 && c.event == (st.facts + [NewFact(x)])[c.item].event
  {
    var cs := Candidates(st, x);
    assert c in cs;
    var k :| 0 <= k < |cs| && cs[k] == c;
  }

  lemma LoggedOnAppend(log: Log, more: seq<Event>, f: Fact)
    requires RetractionLogged(log, f)
    ensures RetractionLogged(log + more, f)
  {
  }

  lemma LoserIsLogged(address: Body -> EventId, log: Log, x: Event, losers: seq<Candidate<FactId>>, l: Candidate<FactId>, f: Fact)
    requires l in losers && l.event == f.event && f.row.retractedAt == Some(x.body.hlc.pt)
    ensures RetractionLogged(log + Retractions(address, x, losers), f)
  {
    var k :| 0 <= k < |losers| && losers[k] == l;
    RetractEventIs(address, x, l.event.id);
    assert Retractions(address, x, losers)[k] == RetractEvent(address, x, l.event.id);
    assert (log + Retractions(address, x, losers))[|log| + k] == RetractEvent(address, x, l.event.id);
  }

  lemma RetractionStep(address: Body -> EventId, st: Store, x: Event, i: nat)
    requires i <= |st.facts| && forall j :: 0 <= j < |st.facts| ==> RetractionLogged(st.log, st.facts[j])
    ensures var st' := AssertOne(address, st, x); |st'.facts| == |st.facts| + 1 && RetractionLogged(st'.log, st'.facts[i])
  {
    var r, now, facts := Reconcile(Candidates(st, x)), x.body.hlc.pt, st.facts + [NewFact(x)];
    var losers := if r.Some? then r.value.losers else [];
    var facts' := Retracted(facts, losers, now);
    NewFactLive(x);
    NoLosers(address, facts, st.log + [x], x, now);
    RetractedTimes(facts, losers, now, i);
    assert RetractionLogged(st.log, facts[i]);
    if facts'[i].row.retractedAt == facts[i].row.retractedAt {
      LoggedOnAppend(st.log, [x] + Retractions(address, x, losers), facts'[i]);
      AppendAssoc(st.log, [x], Retractions(address, x, losers));
    } else {
      var l :| l in losers && l.item as int == i;
      LoserIs(st, x, l);
      LoserIsLogged(address, st.log + [x], x, losers, l, facts'[i]);
    }
    StepParts(address, st, x, losers);
    hide Reconcile, Candidates, IsFactVisible, NewFact, Retractions, Retracted, RetractEvent, AssertOne;
  }

  lemma StepParts(address: Body -> EventId, st: Store, x: Event, losers: seq<Candidate<FactId>>)
    requires var r := Reconcile(Candidates(st, x)); losers == if r.Some? then r.value.losers else []
    ensures AssertOne(address, st, x).facts == Retracted(st.facts + [NewFact(x)], losers, x.body.hlc.pt)
    ensures AssertOne(address, st, x).log == st.log + [x] + Retractions(address, x, losers)
  {
    NoLosers(address, st.facts + [NewFact(x)], st.log + [x], x, x.body.hlc.pt);
  }

  /** Over every run, a row is retracted when the log says so. */
  lemma {:induction false} RunRetractions(address: Body -> EventId, xs: seq<Event>, i: nat)
    requires i < |AssertAll(address, xs).facts|
    ensures RetractionLogged(AssertAll(address, xs).log, AssertAll(address, xs).facts[i])
  {
    if xs != [] {
      var init, x := xs[..|xs| - 1], xs[|xs| - 1];
      var st := AssertAll(address, init);
      forall j | 0 <= j < |st.facts| ensures RetractionLogged(st.log, st.facts[j]) { RunRetractions(address, init, j); }
      RunCarries(address, init);
      RunCarries(address, xs);
      hide RetractionLogged, RowCarries, LogCarries, AssertOne;
      RetractionStep(address, st, x, i);
    }
  }

  /** So the one current row shows the value and the interval of the ≺-maximum. */
  lemma CurrentRowShowsMax(address: Body -> EventId, xs: seq<Event>, e: Text, a: Text) returns (w: nat)
    requires Written(xs, e, a) && KeptShown(xs) && xs != []
    ensures var st := AssertAll(address, xs);
            && w < |st.facts| && st.current == [w as FactId] && MaxOf(xs) == Some(st.facts[w].event)
            && RowCarries(st.facts[w], MaxOf(xs).value) && st.facts[w].row.retractedAt.None?
  {
    var c := Coord(xs[|xs| - 1].body.hlc.pt, 0);
    w := WritePathMatchesFold(address, xs, e, a, c);
    RunCarries(address, xs);
    hide AssertAll, Written, KeptShown, RowCarries, LogCarries, Precedes;
    assert Live(AssertAll(address, xs).facts[w]);
  }
}
