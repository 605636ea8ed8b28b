/**
 * The event store over a Durable Object's key-value storage: one entry per event and, beside them, the
 * sorted list of all ids that scans go by.
 */
module EventStorage {
  import opened Seqs
  import opened Text
  import opened Core
  import opened EventTable

  datatype Filter = Filter(ids: Option<seq<EventId>>, e: Option<Text>, a: Option<Text>, target: Option<EventId>)

  predicate Passes(x: Event, f: Filter) {
    (f.e.Some? ==> x.body.e == f.e) && (f.a.Some? ==> x.body.a == f.a) && (f.target.Some? ==> x.body.target == f.target)
  }

  /** The ids a scan goes by, each once. */
  function ScanIds(f: Filter, index: seq<EventId>): seq<EventId> { if f.ids.Some? then Dedup(f.ids.value) else index }

  /** The events found under `ids` that pass, in that order. */
  function Found(entries: map<EventId, Stored>, ids: seq<EventId>, f: Filter): seq<Event> {
    if ids == [] then []
    else
      var found, id := Found(entries, ids[..|ids| - 1], f), ids[|ids| - 1];
      if id in entries && Passes(entries[id].event, f) then found + [entries[id].event] else found
  }

  ghost predicate Addressed(entries: map<EventId, Stored>, address: Body -> EventId) {
    forall id :: id in entries ==> entries[id].event.id == id == address(entries[id].event.body)
  }

  ghost function EventsIn(entries: map<EventId, Stored>): set<Event> { set id | id in entries :: entries[id].event }

  lemma {:induction false} FoundMember(entries: map<EventId, Stored>, ids: seq<EventId>, f: Filter, address: Body -> EventId, x: Event)
    requires Addressed(entries, address)
    ensures x in Found(entries, ids, f) <==> x.id in ids && x.id in entries && entries[x.id].event == x && Passes(x, f)
  {
    if ids != [] {
      SplitLast(ids);
      FoundMember(entries, ids[..|ids| - 1], f, address, x);
    }
  }

  lemma {:induction false} FoundDistinct(entries: map<EventId, Stored>, ids: seq<EventId>, f: Filter, address: Body -> EventId)
    requires Addressed(entries, address) && NoDup(ids)
    ensures DistinctIds(Found(entries, ids, f))
  {
    if ids != [] {
      var init, id := ids[..|ids| - 1], ids[|ids| - 1];
      FoundDistinct(entries, init, f, address);
      forall x | x in Found(entries, init, f) ensures x.id != id {
        FoundMember(entries, init, f, address, x);
      }
    }
  }

  class DurableObjectEventStore {
    const address: Body -> EventId
    var entries: map<EventId, Stored>
    var index: seq<EventId>

    /** The index lists, in order, exactly the ids there are entries for, each the address of its event. */
    ghost predicate Valid()
      reads this
    {
      Addressed(entries, address) && Ascending(index) && SetOf(index) == entries.Keys
    }

    ghost function Events(): set<Event>
      reads this
    {
      EventsIn(entries)
    }

    constructor (address: Body -> EventId)
      ensures Valid() && Events() == {} && this.address == address
    {
      this.address := address;
      entries, index := map[], [];
    }

    method Append(event: Event, seqNo: Option<nat>) returns (r: AppendResult)
      requires Valid() && SameContent(Events() + {event})
      modifies this
      ensures Valid()
      ensures r == InvalidId <==> event.id != address(event.body)
      ensures r == Inserted <==> r != InvalidId && event !in old(Events())
      ensures Events() == old(Events()) + (if r == InvalidId then {} else {event})
      ensures entries == if r == InvalidId then old(entries)
                         else old(entries)[event.id := Stored(event, SeqAfter(old(entries), event.id, seqNo))]
    {
      hide SameContent, EventsIn, Addressed, Ascending, SetOf, SortedUnique, Dedup;
      if event.id != address(event.body) {
        return InvalidId;
      }
      KeptContents(entries, address, event);
      PutEntry(entries, address, event, SeqAfter(entries, event.id, seqNo));
      if event.id !in entries {
        entries := entries[event.id := Stored(event, seqNo)];
        IndexWith(index, event.id);
        index := SortedUnique(Dedup(index + [event.id]));
        return Inserted;
      }
      if entries[event.id].seqNo.None? && seqNo.Some? {
        entries := entries[event.id := Stored(event, seqNo)];
      }
      return AlreadyThere;
    }

    /** What the filter lets through, each event once; without a list of ids, in id order. */
    method Scan(f: Filter) returns (out: seq<Event>)
      requires Valid()
      ensures DistinctIds(out)
      ensures forall x :: x in out <==>
                x in Events() && (f.ids.Some? ==> x.id in f.ids.value) && (f.e.Some? ==> x.body.e == f.e) &&
                (f.a.Some? ==> x.body.a == f.a) && (f.target.Some? ==> x.body.target == f.target)
      ensures f.ids.None? ==> forall i, j :: 0 <= i < j < |out| ==> Less(out[i].id, out[j].id)
    {
      var ids := ScanIds(f, index);
      out := [];
      for i := 0 to |ids|
        invariant out == Found(entries, ids[..i], f)
      {
        assert ids[..i + 1][..i] == ids[..i];
        if ids[i] in entries && Passes(entries[ids[i]].event, f) { out := out + [entries[ids[i]].event]; }
      }
      TakeAll(ids);
      ScanContents(entries, index, f, address);
    }

    /** Append one after another; an event whose id is not its address stops the merge. */
    method Merge(events: seq<Event>) returns (ok: bool, inserted: nat, seen: nat)
      requires Valid() && SameContent(Events() + SetOf(events))
      modifies this
      ensures Valid()
      ensures ok <==> forall x :: x in events ==> x.id == address(x.body)
      ensures seen <= |events| && (if ok then seen == |events| else seen > 0 && events[seen - 1].id != address(events[seen - 1].body))
      ensures Events() == old(Events()) + SetOf(events[..if ok then seen else seen - 1])
      ensures inserted == |Events() - old(Events())|
    {
      hide SameContent, EventsIn, Addressed, Ascending, SetOf;
      inserted, seen := 0, 0;
      NothingTaken(events);
      while seen < |events|
        invariant Valid() && seen <= |events|
        invariant forall i :: 0 <= i < seen ==> events[i].id == address(events[i].body)
        invariant Events() == old(Events()) + SetOf(events[..seen])
        invariant inserted == |Events() - old(Events())|
      {
        var x := events[seen];
        ghost var before := Events();
        InSetOf(events, seen);
        PrefixSet(events, seen);
        SubContent(old(Events()), SetOf(events), SetOf(events[..seen]), x);
        TakeNext(events, seen);
        SetOfAppend(events[..seen], x);
        var r := Append(x, None);
        seen := seen + 1;
        if r == InvalidId { return false, inserted, seen; }
        OneMoreNew(old(Events()), before, x);
        if r == Inserted { inserted := inserted + 1; }
      }
      TakeAll(events);
      return true, inserted, seen;
    }
  }

  /** A sequence number once stored stays; a missing one is filled in. */
  function SeqAfter(entries: map<EventId, Stored>, id: EventId, seqNo: Option<nat>): Option<nat> {
    if id in entries && entries[id].seqNo.Some? then entries[id].seqNo else seqNo
  }

  lemma KeptContents(entries: map<EventId, Stored>, address: Body -> EventId, event: Event)
    requires Addressed(entries, address) && SameContent(EventsIn(entries) + {event})
    ensures event.id in entries <==> event in EventsIn(entries)
    ensures event.id in entries ==> entries[event.id].event == event
  {
    if event.id in entries {
      assert entries[event.id].event in EventsIn(entries);
    }
  }

  lemma PutEntry(entries: map<EventId, Stored>, address: Body -> EventId, event: Event, s: Option<nat>)
    requires Addressed(entries, address) && (event.id in entries ==> entries[event.id].event == event)
    requires event.id == address(event.body)
    ensures var next := entries[event.id := Stored(event, s)];
            Addressed(next, address) && EventsIn(next) == EventsIn(entries) + {event} && next.Keys == entries.Keys + {event.id}
    ensures event.id in entries && s == entries[event.id].seqNo ==> entries[event.id := Stored(event, s)] == entries
    ensures event.id in entries ==> event in EventsIn(entries)
  {
    var next := entries[event.id := Stored(event, s)];
    forall x | x in EventsIn(entries) ensures x in EventsIn(next) {
      var id :| id in entries && entries[id].event == x;
      assert id in next && next[id].event == x;
    }
    assert event.id in next && next[event.id].event == event;
  }

  lemma IndexWith(index: seq<EventId>, id: EventId)
    ensures var ids := SortedUnique(Dedup(index + [id])); Ascending(ids) && SetOf(ids) == SetOf(index) + {id}
  {
    SortedUniqueLaws(Dedup(index + [id]));
    SetOfAppend(index, id);
  }

  lemma ScanContents(entries: map<EventId, Stored>, index: seq<EventId>, f: Filter, address: Body -> EventId)
    requires Addressed(entries, address) && Ascending(index) && SetOf(index) == entries.Keys
    ensures var out := Found(entries, ScanIds(f, index), f);
            && DistinctIds(out)
            && (forall x :: x in out <==> x in EventsIn(entries) && Passes(x, f) && (f.ids.Some? ==> x.id in f.ids.value))
            && (f.ids.None? ==> forall i, j :: 0 <= i < j < |out| ==> Less(out[i].id, out[j].id))
  {
    var ids := ScanIds(f, index);
    var out := Found(entries, ids, f);
    if f.ids.None? { AscendingNoDup(index); FoundAscends(entries, index, f, address); }
    FoundDistinct(entries, ids, f, address);
    forall x ensures x in out <==> x in EventsIn(entries) && Passes(x, f) && (f.ids.Some? ==> x.id in f.ids.value) {
      FoundMember(entries, ids, f, address, x);
      assert x.id in ids <==> x.id in SetOf(ids);
      assert f.ids.Some? ==> (x.id in f.ids.value <==> x.id in SetOf(f.ids.value));
    }
  }

  lemma {:induction false} FoundAscends(entries: map<EventId, Stored>, ids: seq<EventId>, f: Filter, address: Body -> EventId)
    requires Addressed(entries, address) && Ascending(ids)
    ensures forall i, j :: 0 <= i < j < |Found(entries, ids, f)| ==> Less(Found(entries, ids, f)[i].id, Found(entries, ids, f)[j].id)
  {
    if ids != [] {
      var init, id := ids[..|ids| - 1], ids[|ids| - 1];
      FoundAscends(entries, init, f, address);
      forall x | x in Found(entries, init, f) ensures Less(x.id, id) {
        FoundMember(entries, init, f, address, x);
      }
    }
  }

  lemma NothingTaken(events: seq<Event>)
    ensures SetOf(events[..0]) == {}
  {
  }

  lemma SubContent(stored: set<Event>, all: set<Event>, part: set<Event>, x: Event)
    requires SameContent(stored + all) && part <= all && x in all
    ensures SameContent(stored + part + {x})
  {
  }

  lemma OneMoreNew(start: set<Event>, before: set<Event>, x: Event)
    requires start <= before
    ensures |before + {x} - start| == |before - start| + (if x in before then 0 else 1)
  {
    assert before + {x} - start == if x in before then before - start else before - start + {x};
  }
}
