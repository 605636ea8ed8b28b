/** The append-only event table of the SQLite surface. */
module EventTable {
  import opened Seqs
  import opened Text
  import opened Core

  datatype Stored = Stored(event: Event, seqNo: Option<nat>)

  datatype AppendResult = Inserted | AlreadyThere | InvalidId

  function EventsOf(rows: seq<Stored>): Log {
    Map(rows, (r: Stored) => r.event)
  }

  ghost predicate IdsAscend(rows: seq<Stored>) {
    forall i, j :: 0 <= i < j < |rows| ==> Less(rows[i].event.id, rows[j].event.id)
  }

  function InsertStored(rows: seq<Stored>, r: Stored): seq<Stored> {
    if rows == [] || Less(r.event.id, rows[0].event.id) then [r] + rows
    else [rows[0]] + InsertStored(rows[1..], r)
  }

  lemma {:induction false} InsertStoredMember(rows: seq<Stored>, r: Stored, x: Stored)
    ensures x in InsertStored(rows, r) <==> x == r || x in rows
  {
    if rows != [] && !Less(r.event.id, rows[0].event.id) {
      InsertStoredMember(rows[1..], r, x);
    }
  }

  lemma {:induction false} InsertStoredAscends(rows: seq<Stored>, r: Stored)
    requires IdsAscend(rows) && forall x :: x in rows ==> x.event.id != r.event.id
    ensures IdsAscend(InsertStored(rows, r))
  {
    if rows != [] && !Less(r.event.id, rows[0].event.id) {
      var s := InsertStored(rows[1..], r);
      InsertStoredAscends(rows[1..], r);
      LessConnected(r.event.id, rows[0].event.id);
      forall j | 0 <= j < |s| ensures Less(rows[0].event.id, s[j].event.id) {
        InsertStoredMember(rows[1..], r, s[j]);
      }
    } else if rows != [] {
      forall j | 0 <= j < |rows| ensures Less(r.event.id, rows[j].event.id) {
        if j > 0 { LessTransitive(r.event.id, rows[0].event.id, rows[j].event.id); }
      }
    }
  }

  lemma InsertStoredContents(rows: seq<Stored>, r: Stored)
    requires IdsAscend(rows) && forall x :: x in rows ==> x.event.id != r.event.id
    ensures IdsAscend(InsertStored(rows, r))
    ensures forall x :: x in InsertStored(rows, r) <==> x == r || x in rows
  {
    InsertStoredAscends(rows, r);
    forall x ensures x in InsertStored(rows, r) <==> x == r || x in rows { InsertStoredMember(rows, r, x); }
  }

  class EventStore {
    /** Stands for the content address of an event body. */
    const address: Body -> EventId
    /** The table in primary-key order. */
    var rows: seq<Stored>

    ghost predicate Valid()
      reads this
    {
      IdsAscend(rows) && forall r :: r in rows ==> r.event.id == address(r.event.body)
    }

    ghost function Events(): (s: set<Event>)
      reads this
      ensures forall x :: x in s <==> exists r :: r in rows && r.event == x
    {
      set r | r in rows :: r.event
    }

    constructor (address: Body -> EventId)
      ensures Valid() && rows == [] && this.address == address
    {
      this.address := address;
      rows := [];
    }

    function Get(id: EventId): (r: Option<Stored>)
      reads this
      ensures r.Some? ==> r.value in rows && r.value.event.id == id
      ensures r.None? ==> forall x :: x in rows ==> x.event.id != id
    {
      var found := Filter(rows, (r: Stored) => r.event.id == id);
      FilterMembers(rows, (r: Stored) => r.event.id == id);
      assert found != [] ==> found[0] in found;
      if found == [] then None else Some(found[0])
    }

    /** Idempotent append; a sequence number missing from an event already stored is filled in. */
    method Append(event: Event, seqNo: Option<nat>) returns (r: AppendResult)
      requires Valid() && SameContent(Events() + {event})
      modifies this
      ensures Valid()
      ensures r == InvalidId <==> event.id != address(event.body)
      ensures r == InvalidId ==> rows == old(rows)
      ensures r != InvalidId ==> Events() == old(Events()) + {event}
      ensures r == Inserted <==> r != InvalidId && event !in old(Events())
      ensures r != InvalidId ==>
                forall x :: x in rows <==>
                  (x in old(rows) && x.event != event) ||
                  x == Stored(event, if old(Get(event.id)).Some? && old(Get(event.id)).value.seqNo.Some?
                                     then old(Get(event.id)).value.seqNo else seqNo)
    {
      if event.id != address(event.body) {
        return InvalidId;
      }
      var existing := Get(event.id);
      assert event in Events() + {event};
      if existing.None? {
        InsertStoredContents(rows, Stored(event, seqNo));
        rows := InsertStored(rows, Stored(event, seqNo));
        r := Inserted;
      } else {
        r := AlreadyThere;
        assert existing.value.event in Events() + {event};
        OneRowPerId(rows);
        if existing.value.seqNo.None? && seqNo.Some? {
          var updated := Map(rows, (x: Stored) => if x.event.id == event.id then Stored(event, seqNo) else x);
          UpdateContents(rows, updated, event, seqNo);
          rows := updated;
        }
      }
    }

    method ScanAll() returns (events: Log)
      requires Valid()
      ensures events == EventsOf(rows) && DistinctIds(events)
    {
      events := EventsOf(rows);
      StoredDistinct(rows);
    }
  }

  lemma StoredDistinct(rows: seq<Stored>)
    requires IdsAscend(rows)
    ensures DistinctIds(EventsOf(rows))
    ensures forall x :: x in EventsOf(rows) <==> exists r :: r in rows && r.event == x
  {
    var events := EventsOf(rows);
    forall i, j | 0 <= i < j < |events| ensures events[i].id != events[j].id {
      LessIrreflexive(events[i].id);
    }
    forall r | r in rows ensures r.event in events {
      var i :| 0 <= i < |rows| && rows[i] == r;
      assert events[i] == r.event;
    }
  }

  lemma OneRowPerId(rows: seq<Stored>)
    requires IdsAscend(rows)
    ensures forall x, y :: x in rows && y in rows && x.event.id == y.event.id ==> x == y
  {
    forall x, y | x in rows && y in rows && x.event.id == y.event.id ensures x == y {
      var i :| 0 <= i < |rows| && rows[i] == x;
      var j :| 0 <= j < |rows| && rows[j] == y;
      LessIrreflexive(x.event.id);
    }
  }

  lemma UpdateContents(rows: seq<Stored>, updated: seq<Stored>, event: Event, seqNo: Option<nat>)
    requires IdsAscend(rows) && exists x :: x in rows && x.event.id == event.id
    requires |updated| == |rows|
    requires forall i :: 0 <= i < |rows| ==>
               updated[i] == if rows[i].event.id == event.id then Stored(event, seqNo) else rows[i]
    ensures IdsAscend(updated)
    ensures forall x :: x in updated <==> x == Stored(event, seqNo) || (x in rows && x.event.id != event.id)
  {
    forall x | x in rows ensures (if x.event.id == event.id then Stored(event, seqNo) else x) in updated {
      var i :| 0 <= i < |rows| && rows[i] == x;
      assert updated[i] in updated;
    }
  }
}
