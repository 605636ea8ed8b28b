/**
 * The indexed historical query source: each scanned assert is read against a log made of itself and
 * the events that target it, never against the whole log.
 */
module HistoricalQuery {
  import opened Seqs
  import opened Text
  import opened Core
  import opened Fold
  import opened Projection
  import opened EventTable
  import opened Reconciling
  import opened SqliteCurrent
  import Ordering

  /** The constants a pattern holds under a binding. */
  datatype PatternInput = PatternInput(eConst: Option<Value>, aConst: Option<Value>, vConst: Option<Value>)

  datatype ScanFilter = ScanFilter(e: Option<Text>, a: Option<Text>)

  datatype Triple = Triple(e: Text, a: Text, v: Value, prov: seq<EventId>, eventProv: seq<EventId>)

  /** `None` when an entity or attribute constant is not a string. */
  function ScanFilterForPattern(p: PatternInput): Option<ScanFilter> {
    if p.eConst.Some? && !p.eConst.value.Str? then None
    else if p.aConst.Some? && !p.aConst.value.Str? then None
    else Some(ScanFilter(if p.eConst.Some? then Some(p.eConst.value.s) else None,
                         if p.aConst.Some? then Some(p.aConst.value.s) else None))
  }

  function FilterAccepts(f: ScanFilter): Event -> bool {
    (x: Event) => (f.e.Some? ==> x.body.e == f.e) && (f.a.Some? ==> x.body.a == f.a)
  }

  function EventCandidate(x: Event): Triple
    requires IsAssertWithValue(x)
  {
    Triple(x.body.e.value, x.body.a.value, x.body.v.value, [x.id], [x.id])
  }

  /** The assert agrees with each constant of the pattern, values compared by `valueKey`. */
  predicate MatchesPattern(x: Event, p: PatternInput, valueKey: Value -> Text)
    requires IsAssertWithValue(x)
  {
    && (p.eConst.Some? ==> p.eConst.value == Str(x.body.e.value))
    && (p.aConst.Some? ==> p.aConst.value == Str(x.body.a.value))
    && (p.vConst.Some? ==> valueKey(p.vConst.value) == valueKey(x.body.v.value))
  }

  /** The candidates the whole log has for a pattern at a coordinate. */
  ghost function WholeLogCandidates(log: Log, p: PatternInput, valueKey: Value -> Text, c: Coord): set<Triple> {
    set x | x in log && IsAssertWithValue(x) && MatchesPattern(x, p, valueKey) && Visible(x, c, log, NO_FLAGS)
      :: EventCandidate(x)
  }

  /** The triple is of a visible assert of the log that agrees with the pattern's constants. */
  ghost predicate Found(x: Event, t: Triple, p: PatternInput, valueKey: Value -> Text, c: Coord, log: Log) {
    && x.body.kind == Assert && Visible(x, c, log, NO_FLAGS)
    && x.body.e == Some(t.e) && x.body.a == Some(t.a) && x.body.v == Some(t.v) && t.prov == [x.id] && t.eventProv == [x.id]
    && (p.eConst.Some? ==> p.eConst.value == Str(t.e)) && (p.aConst.Some? ==> p.aConst.value == Str(t.a))
    && (p.vConst.Some? ==> valueKey(p.vConst.value) == valueKey(t.v))
  }

  /** Exactly these, in the order of their event ids. */
  ghost predicate AllFound(out: seq<Triple>, p: PatternInput, valueKey: Value -> Text, c: Coord, log: Log) {
    && (forall t :: t in out <==> exists x :: x in log && Found(x, t, p, valueKey, c, log))
    && (forall i, j :: 0 <= i < j < |out| && out[i].prov != [] && out[j].prov != [] ==> Less(out[i].prov[0], out[j].prov[0]))
  }

  lemma CandidatesFound(out: seq<Triple>, log: Log, p: PatternInput, valueKey: Value -> Text, c: Coord)
    requires SetOf(out) == WholeLogCandidates(log, p, valueKey, c) && ProvAscends(out)
    ensures AllFound(out, p, valueKey, c, log)
  {
    hide Visible;
    forall t ensures t in out <==> exists x :: x in log && Found(x, t, p, valueKey, c, log) {
      assert t in out <==> t in WholeLogCandidates(log, p, valueKey, c);
      if t in WholeLogCandidates(log, p, valueKey, c) {
        var x :| x in log && IsAssertWithValue(x) && MatchesPattern(x, p, valueKey) && Visible(x, c, log, NO_FLAGS) && EventCandidate(x) == t;
        assert Found(x, t, p, valueKey, c, log);
      }
      if x :| x in log && Found(x, t, p, valueKey, c, log) {
        assert IsAssertWithValue(x) && MatchesPattern(x, p, valueKey) && EventCandidate(x) == t;
      }
    }
    forall i, j | 0 <= i < j < |out| && out[i].prov != [] && out[j].prov != [] ensures Less(out[i].prov[0], out[j].prov[0]) {
      assert ProvLess(out[i], out[j]);
    }
  }

  /** An assert is visible in its own little log exactly when it is visible in the whole one. */
  lemma OwnLogSuffices(x: Event, log: Log, c: Coord, f: Flags)
    requires x in log && DistinctIds(log)
    ensures Visible(x, c, PutAll([], [x] + ScanTarget(log, x.id)), f) <==> Visible(x, c, log, f)
  {
    var all := [x] + ScanTarget(log, x.id);
    FilterMembers(log, (y: Event) => y.body.target == Some(x.id));
    assert SetOf(all) <= SetOf(log);
    DistinctIdsSameContent(log);
    PutAllContents([], all);
    assert SetOf<Event>([]) + SetOf(all) == SetOf(all);
    var own := PutAll([], all);
    assert forall y :: y in own <==> y in SetOf(own);
    VisibleFromLifecycle(x, c, own, log, f);
  }

  function ProvKey(t: Triple): Text { if t.prov == [] then [] else t.prov[0] }

  predicate ProvLess(s: Triple, t: Triple) { Less(ProvKey(s), ProvKey(t)) }

  ghost predicate ProvAscends(out: seq<Triple>) {
    forall i, j :: 0 <= i < j < |out| ==> ProvLess(out[i], out[j])
  }

  ghost predicate EventIdsAscend(log: Log) {
    forall i, j :: 0 <= i < j < |log| ==> Less(log[i].id, log[j].id)
  }

  predicate Accepted(x: Event, p: PatternInput, valueKey: Value -> Text, c: Coord, log: Log) {
    IsAssertWithValue(x) && MatchesPattern(x, p, valueKey) && Visible(x, c, log, NO_FLAGS)
  }

  type LifecycleCache = map<EventId, seq<Event>>

  ghost predicate CacheOf(cache: LifecycleCache, log: Log) {
    forall t :: t in cache ==> cache[t] == ScanTarget(log, t)
  }

  /** Test one assert against its own little log, scanning its lifecycle at most once. */
  method TestVisible(log: Log, x: Event, c: Coord, cache: LifecycleCache) returns (shown: bool, next: LifecycleCache)
    requires DistinctIds(log) && x in log && CacheOf(cache, log)
    ensures shown == Visible(x, c, log, NO_FLAGS) && CacheOf(next, log)
  {
    next := if x.id in cache then cache else cache[x.id := ScanTarget(log, x.id)];
    var visibilityLog := FromEvents([x] + next[x.id]);
    OwnLogSuffices(x, log, c, NO_FLAGS);
    shown := Visible(x, c, visibilityLog, NO_FLAGS);
  }

  ghost function Collected(scanned: seq<Event>, p: PatternInput, valueKey: Value -> Text, c: Coord, log: Log): set<Triple> {
    set x | x in scanned && Accepted(x, p, valueKey, c, log) :: EventCandidate(x)
  }

  lemma CollectedStep(scanned: seq<Event>, x: Event, p: PatternInput, valueKey: Value -> Text, c: Coord, log: Log)
    ensures Collected(scanned + [x], p, valueKey, c, log)
         == Collected(scanned, p, valueKey, c, log) + (if Accepted(x, p, valueKey, c, log) then {EventCandidate(x)} else {})
  {
    forall y ensures y in scanned + [x] <==> y in scanned || y == x { }
  }

  lemma EmptyCache(log: Log)
    ensures CacheOf(map[], log)
  {
  }

  lemma NothingCollected(p: PatternInput, valueKey: Value -> Text, c: Coord, log: Log)
    ensures SetOf<Triple>([]) == Collected([], p, valueKey, c, log)
  {
  }

  /** After the index has seen to the entity and the attribute, only the value is left to compare. */
  lemma AcceptedIff(x: Event, p: PatternInput, valueKey: Value -> Text, c: Coord, log: Log)
    requires IsAssertWithValue(x) ==>
               (p.eConst.Some? ==> p.eConst.value == Str(x.body.e.value)) &&
               (p.aConst.Some? ==> p.aConst.value == Str(x.body.a.value))
    ensures Accepted(x, p, valueKey, c, log) <==>
              IsAssertWithValue(x) && (p.vConst.Some? ==> valueKey(p.vConst.value) == valueKey(x.body.v.value)) &&
              Visible(x, c, log, NO_FLAGS)
  {
  }

  method Collect(log: Log, scanned: seq<Event>, p: PatternInput, valueKey: Value -> Text, c: Coord)
    returns (out: seq<Triple>)
    requires DistinctIds(log) && EventIdsAscend(scanned)
    requires forall x :: x in scanned ==> x in log
    requires forall x :: x in scanned && IsAssertWithValue(x) ==>
               (p.eConst.Some? ==> p.eConst.value == Str(x.body.e.value)) &&
               (p.aConst.Some? ==> p.aConst.value == Str(x.body.a.value))
    ensures SetOf(out) == Collected(scanned, p, valueKey, c, log)
    ensures ProvAscends(out)
  {
    hide Visible, CacheOf, SetOf, Collected, DistinctIds, MatchesPattern;
    out := [];
    EmptyCache(log);
    NothingCollected(p, valueKey, c, log);
    var lifecycleByTarget: LifecycleCache := map[];
    for i := 0 to |scanned|
      invariant CacheOf(lifecycleByTarget, log)
      invariant SetOf(out) == Collected(scanned[..i], p, valueKey, c, log)
      invariant ProvAscends(out)
      invariant forall k, m :: 0 <= k < |out| && i <= m < |scanned| ==> Less(ProvKey(out[k]), scanned[m].id)
    {
      var x := scanned[i];
      assert x in scanned;
      TakeNext(scanned, i);
      CollectedStep(scanned[..i], x, p, valueKey, c, log);
      AcceptedIff(x, p, valueKey, c, log);
      if IsAssertWithValue(x) && (p.vConst.Some? ==> valueKey(p.vConst.value) == valueKey(x.body.v.value)) {
        var shown;
        shown, lifecycleByTarget := TestVisible(log, x, c, lifecycleByTarget);
        if shown {
          SetOfAppend(out, EventCandidate(x));
          out := out + [EventCandidate(x)];
        }
      }
    }
    TakeAll(scanned);
  }

  lemma {:induction false} FilterIdsAscend(log: Log, p: Event -> bool)
    requires EventIdsAscend(log)
    ensures EventIdsAscend(Filter(log, p))
  {
    if log != [] {
      FilterIdsAscend(log[1..], p);
      var rest := Filter(log[1..], p);
      forall j | 0 <= j < |rest| ensures Less(log[0].id, rest[j].id) {
        var k :| 0 <= k < |log[1..]| && log[1..][k] == rest[j];
        assert rest[j] == log[k + 1];
      }
    }
  }

  lemma SortKeepsAscending(out: seq<Triple>)
    requires ProvAscends(out)
    ensures Ordering.Sort(out, ProvLess) == out
  {
    LessWeakOrder();
    assert Ordering.WeakOrder(ProvLess);
    Ordering.SortSorted(out, ProvLess);
    forall i, j | 0 <= i < j < |out| ensures !ProvLess(out[j], out[i]) {
      LessAsymmetric(ProvKey(out[i]), ProvKey(out[j]));
    }
    Ordering.SortedUnique(out, Ordering.Sort(out, ProvLess), ProvLess);
  }

  /**
   * The indexed source returns exactly the asserts of the whole log that match the pattern and are
   * visible there, in id order.
   */
  method Candidates(store: EventStore, p: PatternInput, valueKey: Value -> Text, c: Coord) returns (out: seq<Triple>)
    requires store.Valid()
    ensures SetOf(out) == WholeLogCandidates(EventsOf(store.rows), p, valueKey, c)
    ensures ProvAscends(out)
    ensures AllFound(out, p, valueKey, c, EventsOf(store.rows))
  {
    hide AllFound;
    var filter := ScanFilterForPattern(p);
    if filter.None? {
      CandidatesFound([], EventsOf(store.rows), p, valueKey, c);
      return [];
    }
    var log := store.ScanAll();
    FilterMembers(log, FilterAccepts(filter.value));
    FilterIdsAscend(log, FilterAccepts(filter.value));
    var found := Collect(log, Filter(log, FilterAccepts(filter.value)), p, valueKey, c);
    SortKeepsAscending(found);
    out := Ordering.Sort(found, ProvLess);
    CandidatesFound(out, log, p, valueKey, c);
  }
}
