/** Values, events, the total order on events, the grow-only log and its bitemporal fold. */
module Core {
  import opened Seqs
  import opened Text

  // ---- values ---------------------------------------------------------------

  newtype Byte = x: int | 0 <= x < 256

  /** A binary64 number: a finite one is known by the decimal text JavaScript prints for it. */
  datatype Number = NaN | Infinity | NegInfinity | NegZero | Finite(text: Text)

  datatype Value =
    | Null
    | Bool(b: bool)
    | Num(n: Number)
    | Str(s: Text)
    | Bytes(x: seq<Byte>)
    | Arr(items: seq<Value>)
    | Obj(entries: seq<Entry>)

  datatype Entry = Entry(key: Text, val: Value)

  // ---- hybrid logical clock timestamps and events ---------------------------

  datatype Hlc = Hlc(pt: int, l: int, r: Text)

  /** Negative, zero or positive as `a` is before, equal to or after `b`. */
  function CompareHlc(a: Hlc, b: Hlc): int {
    if a.pt != b.pt then a.pt - b.pt
    else if a.l != b.l then a.l - b.l
    else if Less(a.r, b.r) then -1
    else if Less(b.r, a.r) then 1
    else 0
  }

  type EventId = Text

  datatype Kind = Assert | Retract | Tombstone | Untombstone

  datatype ActorType = Human | Agent | System | Migration

  /** `validTo` distinguishes a missing bound from an explicit `null`. */
  datatype Until = Absent | Open | At(time: int)

  datatype Body = Body(
    kind: Kind, actor: Text, actorType: ActorType, hlc: Hlc,
    e: Option<Text>, a: Option<Text>, v: Option<Value>,
    validFrom: Option<int>, validTo: Until,
    target: Option<EventId>, causalRefs: Option<seq<EventId>>, reason: Option<Text>)

  datatype Event = Event(id: EventId, body: Body)

  predicate Precedes(x: Event, y: Event) {
    var h := CompareHlc(x.body.hlc, y.body.hlc);
    if h != 0 then h < 0
    else if x.body.actor != y.body.actor then Less(x.body.actor, y.body.actor)
    else Less(x.id, y.id)
  }

  function CompareEvents(x: Event, y: Event): int {
    if x.id == y.id then 0 else if Precedes(x, y) then -1 else 1
  }

  lemma CompareHlcLaws(a: Hlc, b: Hlc, c: Hlc)
    ensures CompareHlc(a, b) == 0 <==> a == b
    ensures CompareHlc(a, b) < 0 <==> CompareHlc(b, a) > 0
    ensures CompareHlc(a, b) < 0 && CompareHlc(b, c) < 0 ==> CompareHlc(a, c) < 0
  {
    LessConnected(a.r, b.r);
    if Less(a.r, b.r) { LessAsymmetric(a.r, b.r); }
    if Less(b.r, a.r) { LessAsymmetric(b.r, a.r); }
    if Less(b.r, c.r) { LessAsymmetric(b.r, c.r); }
    LessIrreflexive(a.r);
    if Less(a.r, b.r) && Less(b.r, c.r) { LessTransitive(a.r, b.r, c.r); }
  }

  /** Physical time decides, then the counter, the replica, the actor and the id. */
  lemma PrecedesIff(x: Event, y: Event)
    ensures var g, h := x.body.hlc, y.body.hlc;
            Precedes(x, y) <==>
              g.pt < h.pt || (g.pt == h.pt && (g.l < h.l || (g.l == h.l && (Less(g.r, h.r) || (g.r == h.r &&
                (Less(x.body.actor, y.body.actor) || (x.body.actor == y.body.actor && Less(x.id, y.id))))))))
  {
    var g, h := x.body.hlc, y.body.hlc;
    LessConnected(g.r, h.r);
    LessIrreflexive(g.r);
    LessIrreflexive(x.body.actor);
    if Less(g.r, h.r) { LessAsymmetric(g.r, h.r); }
  }

  /** ≺ is a strict order that decides between any two events with different ids. */
  lemma PrecedesStrictTotal(x: Event, y: Event, z: Event)
    ensures !Precedes(x, x)
    ensures Precedes(x, y) && Precedes(y, z) ==> Precedes(x, z)
    ensures Precedes(x, y) ==> !Precedes(y, x)
    ensures x.id != y.id ==> Precedes(x, y) || Precedes(y, x)
  {
    CompareHlcLaws(x.body.hlc, y.body.hlc, z.body.hlc);
    CompareHlcLaws(y.body.hlc, z.body.hlc, x.body.hlc);
    CompareHlcLaws(x.body.hlc, z.body.hlc, y.body.hlc);
    CompareHlcLaws(x.body.hlc, x.body.hlc, x.body.hlc);
    LessIrreflexive(x.id);
    LessConnected(x.id, y.id);
    LessConnected(x.body.actor, y.body.actor);
    if Less(x.id, y.id) { LessAsymmetric(x.id, y.id); }
    if Less(x.body.actor, y.body.actor) { LessAsymmetric(x.body.actor, y.body.actor); }
    if Less(x.body.actor, y.body.actor) && Less(y.body.actor, z.body.actor) {
      LessTransitive(x.body.actor, y.body.actor, z.body.actor);
      LessAsymmetric(x.body.actor, z.body.actor);
      LessIrreflexive(x.body.actor);
    }
    if Less(x.id, y.id) && Less(y.id, z.id) { LessTransitive(x.id, y.id, z.id); }
  }

  /** Comparing is antisymmetric, and says equal of one id only. */
  lemma CompareEventsLaws(x: Event, y: Event)
    ensures CompareEvents(x, y) == 0 <==> x.id == y.id
    ensures x.id != y.id ==> (CompareEvents(x, y) == -1 <==> Precedes(x, y)) && (CompareEvents(x, y) == 1 <==> Precedes(y, x))
  {
    PrecedesStrictTotal(x, y, x);
    PrecedesStrictTotal(y, x, y);
  }

  /** The left fold behind `maxByOrder`. */
  function MaxOf(s: seq<Event>): (m: Option<Event>)
    ensures m.None? <==> s == []
    ensures m.Some? ==> m.value in s
  {
    if s == [] then None
    else
      var m := MaxOf(s[..|s| - 1]);
      var x := s[|s| - 1];
      if m.None? || Precedes(m.value, x) then Some(x) else m
  }

  method MaxByOrder(events: seq<Event>) returns (max: Option<Event>)
    ensures max == MaxOf(events)
  {
    max := None;
    for i := 0 to |events|
      invariant max == MaxOf(events[..i])
    {
      assert events[..i + 1][..i] == events[..i];
      if max.None? || Precedes(max.value, events[i]) {
        max := Some(events[i]);
      }
    }
    assert events[..|events|] == events;
  }

  lemma {:induction false} MaxOfIsMaximal(s: seq<Event>, x: Event)
    requires x in s
    ensures MaxOf(s).Some? && !Precedes(MaxOf(s).value, x)
  {
    var init, last := s[..|s| - 1], s[|s| - 1];
    assert s == init + [last];
    if x in init {
      MaxOfIsMaximal(init, x);
      PrecedesStrictTotal(MaxOf(init).value, last, x);
      PrecedesStrictTotal(last, x, MaxOf(init).value);
      PrecedesStrictTotal(MaxOf(init).value, x, last);
      var m := MaxOf(init).value;
      if Precedes(m, last) && Precedes(last, x) { PrecedesStrictTotal(m, last, x); }
    } else {
      PrecedesStrictTotal(x, x, x);
    }
  }

  /** An id determines its event: what content addressing gives. */
  ghost predicate SameContent(s: set<Event>) {
    forall x, y :: x in s && y in s && x.id == y.id ==> x == y
  }

  /** The ≺-maximum depends only on which events there are. */
  lemma MaxOfSetDetermined(s: seq<Event>, t: seq<Event>)
    requires SetOf(s) == SetOf(t) && SameContent(SetOf(s))
    ensures MaxOf(s) == MaxOf(t)
  {
    assert forall x :: x in s <==> x in SetOf(s);
    assert forall x :: x in t <==> x in SetOf(t);
    assert t != [] ==> t[0] in SetOf(s);
    if s != [] {
      assert s[0] in t;
      var m, n := MaxOf(s).value, MaxOf(t).value;
      MaxOfIsMaximal(s, n);
      MaxOfIsMaximal(t, m);
      PrecedesStrictTotal(m, n, m);
    }
  }

  // ---- the log --------------------------------------------------------------

  /** A JavaScript Map from id to event, as its entries in insertion order. */
  type Log = seq<Event>

  ghost predicate DistinctIds(log: Log) {
    forall i, j :: 0 <= i < j < |log| ==> log[i].id != log[j].id
  }

  /** `map.set(event.id, event)`: replace in place, or append. */
  function Put(log: Log, event: Event): Log {
    if log == [] then [event]
    else if log[0].id == event.id then [event] + log[1..]
    else [log[0]] + Put(log[1..], event)
  }

  function PutAll(log: Log, events: seq<Event>): Log {
    if events == [] then log
    else Put(PutAll(log, events[..|events| - 1]), events[|events| - 1])
  }

  method FromEvents(events: seq<Event>) returns (m: Log)
    ensures m == PutAll([], events)
  {
    m := [];
    for i := 0 to |events|
      invariant m == PutAll([], events[..i])
    {
      assert events[..i + 1][..i] == events[..i];
      m := Put(m, events[i]);
    }
    assert events[..|events|] == events;
  }

  method Merge(a: Log, b: Log) returns (m: Log)
    ensures m == PutAll(a, b)
  {
    m := a;
    for i := 0 to |b|
      invariant m == PutAll(a, b[..i])
    {
      assert b[..i + 1][..i] == b[..i];
      m := Put(m, b[i]);
    }
    assert b[..|b|] == b;
  }

  lemma {:induction false} PutContents(log: Log, event: Event)
    requires DistinctIds(log)
    ensures DistinctIds(Put(log, event))
    ensures forall x :: x in Put(log, event) <==> x == event || (x in log && x.id != event.id)
  {
    if log != [] && log[0].id != event.id {
      PutContents(log[1..], event);
      assert log == [log[0]] + log[1..];
    } else if log != [] {
      assert log == [log[0]] + log[1..];
      forall x | x in log[1..] ensures x.id != event.id {
        var i :| 0 <= i < |log[1..]| && log[1..][i] == x;
        assert log[0].id != log[i + 1].id;
      }
    }
  }

  /** Every entry stays where it stands, the one with the event's id replaced; a new one comes last. */
  lemma {:induction false} PutInPlace(log: Log, event: Event)
    requires DistinctIds(log)
    ensures |log| <= |Put(log, event)| <= |log| + 1
    ensures forall i :: 0 <= i < |log| ==> Put(log, event)[i] == if log[i].id == event.id then event else log[i]
    ensures |Put(log, event)| == |log| + 1 ==> Put(log, event)[|log|] == event
  {
    if log != [] {
      if log[0].id != event.id {
        PutInPlace(log[1..], event);
        forall i | 0 <= i < |log| ensures Put(log, event)[i] == if log[i].id == event.id then event else log[i] {
          if i > 0 { assert log[i] == log[1..][i - 1]; }
        }
      } else {
        forall i | 0 < i < |log| ensures log[i].id != event.id {
          assert log[0].id != log[i].id;
        }
      }
    }
  }

  /** A later entry wins its id; everything else is kept. */
  lemma {:induction false} PutAllContents(log: Log, events: seq<Event>)
    requires DistinctIds(log)
    ensures DistinctIds(PutAll(log, events))
    ensures SameContent(SetOf(log) + SetOf(events)) ==> SetOf(PutAll(log, events)) == SetOf(log) + SetOf(events)
  {
    if events != [] {
      var init, last := events[..|events| - 1], events[|events| - 1];
      assert events == init + [last];
      PutAllContents(log, init);
      PutContents(PutAll(log, init), last);
      assert SetOf(events) == SetOf(init) + {last};
      if SameContent(SetOf(log) + SetOf(events)) {
        assert SameContent(SetOf(log) + SetOf(init));
        var r, p := PutAll(log, events), PutAll(log, init);
        forall x ensures x in SetOf(r) <==> x in SetOf(log) + SetOf(events) {
          assert x in p <==> x in SetOf(p);
          assert last in SetOf(log) + SetOf(events);
        }
      }
    }
  }

  lemma {:induction false} PutFresh(log: Log, event: Event)
    requires forall x :: x in log ==> x.id != event.id
    ensures Put(log, event) == log + [event]
  {
    if log != [] {
      assert log[0] in log;
      PutFresh(log[1..], event);
      assert log == [log[0]] + log[1..];
    }
  }

  /** Entries with distinct ids become a log unchanged. */
  lemma {:induction false} FromDistinctEvents(events: seq<Event>)
    requires DistinctIds(events)
    ensures PutAll([], events) == events
  {
    if events != [] {
      var init := events[..|events| - 1];
      FromDistinctEvents(init);
      PutFresh(init, events[|events| - 1]);
      assert events == init + [events[|events| - 1]];
    }
  }

  /** The last event per id of `events` is what a merge keeps, whatever else there is. */
  lemma {:induction false} PutAllKeepsRight(log: Log, events: Log, x: Event)
    requires DistinctIds(log) && DistinctIds(events)
    ensures x in events ==> x in PutAll(log, events)
    ensures x in PutAll(log, events) ==> x in events || (x in log && forall y :: y in events ==> y.id != x.id)
    ensures x in log && (forall y :: y in events ==> y.id != x.id) ==> x in PutAll(log, events)
  {
    if events != [] {
      var init, last := events[..|events| - 1], events[|events| - 1];
      assert events == init + [last];
      PutAllKeepsRight(log, init, x);
      PutAllContents(log, init);
      PutContents(PutAll(log, init), last);
      if x in init {
        var i :| 0 <= i < |init| && init[i] == x;
        assert events[i].id != events[|events| - 1].id;
      }
    }
  }

  /** Of several events with one id the last is kept. */
  lemma {:induction false} LastIsKept(log: Log, events: seq<Event>, i: nat)
    requires DistinctIds(log) && i < |events| && forall j :: i < j < |events| ==> events[j].id != events[i].id
    ensures events[i] in PutAll(log, events)
  {
    var init, last := events[..|events| - 1], events[|events| - 1];
    PutAllContents(log, init);
    PutContents(PutAll(log, init), last);
    if i < |init| { LastIsKept(log, init, i); }
  }

  /** Merging is commutative exactly when the two logs agree on the ids they share. */
  lemma MergeCommutesIff(a: Log, b: Log)
    requires DistinctIds(a) && DistinctIds(b)
    ensures SetOf(PutAll(a, b)) == SetOf(PutAll(b, a)) <==> SameContent(SetOf(a) + SetOf(b))
  {
    if SameContent(SetOf(a) + SetOf(b)) {
      assert SetOf(a) + SetOf(b) == SetOf(b) + SetOf(a);
      PutAllContents(a, b);
      PutAllContents(b, a);
    } else {
      var x, y :| x in SetOf(a) + SetOf(b) && y in SetOf(a) + SetOf(b) && x.id == y.id && x != y;
      DistinctIdsSameContent(a);
      DistinctIdsSameContent(b);
      var p, q := if x in a then x else y, if x in a then y else x;
      assert p in a && q in b && p !in b && q !in a;
      PutAllKeepsRight(a, b, p);
      PutAllKeepsRight(b, a, p);
      assert p in SetOf(PutAll(b, a)) <==> p in PutAll(b, a);
      assert p in SetOf(PutAll(a, b)) <==> p in PutAll(a, b);
    }
  }

  lemma DistinctIdsSameContent(log: Log)
    requires DistinctIds(log)
    ensures SameContent(SetOf(log))
  {
    forall x, y | x in SetOf(log) && y in SetOf(log) && x.id == y.id ensures x == y {
      var i :| 0 <= i < |log| && log[i] == x;
      var j :| 0 <= j < |log| && log[j] == y;
      assert i == j;
    }
  }

  /** Content-addressed logs merge as sets: commutative, associative, idempotent. */
  lemma MergeIsUnion(a: Log, b: Log, c: Log)
    requires DistinctIds(a) && DistinctIds(b) && DistinctIds(c)
    requires SameContent(SetOf(a) + SetOf(b) + SetOf(c))
    ensures SetOf(PutAll(a, b)) == SetOf(a) + SetOf(b)
    ensures SetOf(PutAll(PutAll(a, b), c)) == SetOf(PutAll(a, PutAll(b, c)))
    ensures SetOf(PutAll(a, a)) == SetOf(a)
  {
    var all := SetOf(a) + SetOf(b) + SetOf(c);
    assert SetOf(a) + (SetOf(b) + SetOf(c)) == all;
    hide SetOf, DistinctIds, SameContent;
    PutAllContents(a, b);
    PutAllContents(b, c);
    PutAllContents(a, a);
    PutAllContents(PutAll(a, b), c);
    PutAllContents(a, PutAll(b, c));
  }
}
