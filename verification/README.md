# The fact-log CRDT and the structures derived from it

A Dafny model of the convergence kernel of this repository (a grow-only log of content-addressed events, a
total order on them and a bitemporal fold) together with the structures that have to agree with it:
materialised rows, a materialised transitive closure, cached live queries, timer queues behind one alarm,
interval rows, a cardinality-one write path, a flow interpreter, a compliance planner, clocks, a relay and the
encodings behind event ids. Each module follows one component. What the source does step by step is a method
with its loops, or a class whose methods update its fields; each is proved against a specification function or
a property, and the lemmas state what the source promises about it.

`dafny verify dfyconfig.toml` checks the whole project.

## What is proved

**Order, log and fold** (`Core`, `Fold`). ≺ is a strict total order on events with different ids, so the
≺-maximum depends on the set of events only. Merging two logs is commutative exactly when they agree on the ids
they share; for content-addressed logs it is union. Logs that hold the same events up to a transaction time
compute the same visibility, values and entity maps there, however the events were appended, batched, repeated
or merged and whatever later events each holds, also when cardinality is itself read from the log. Visibility,
the order ≺ and the entity map are also told in full from the events: which asserts show, which one a
cardinality-one attribute answers with, and that the others answer with all of theirs in log order.

**Materialised rows** (`Projection`, `EventTable`, `EventStorage`, `Reconciling`, `SqliteCurrent`,
`HistoricalQuery`). The row builder gives each (e, a) the rows of the core fold's answer exactly when every
event of the answer carries a value: the builder skips asserts without one, the core fold does not, so a log of
one such assert has no row. Each row carries the entity, attribute, value and interval of a visible event, after
a rebuild and after every incremental run alike. Reconciling one (e, a) per appended event keeps the rows equal
to a full rebuild on every run, lifecycle events stored ahead of their target included, when cardinality does
not depend on the log it is asked against. Reconciling hands cardinality a sub-log, so in general the rows stay
exact if and only if for every (e, a) the cardinality comes out the same or there is at most one candidate; with
cardinality read from the log a concrete run fails. The change summary lists exactly the (e, a) whose event ids
changed. The indexed historical source, which reads each assert in its own small log, returns what the whole log
would.

**Transitive closure** (`Graph`, `ClosureSearch`, `NewEdge`, `IncrementalClosure`, `ClosureTheorems`,
`ClosureRuns`, `ReflexiveClosure`, `ClosureTable`). Any walk can be shortened to a simple path; the
breadth-first search finds each pair joined by a walk within its depth, with its number of simple paths and
their events, and says exactly when its cap is reached, in which case every row still has the support of some of
the paths. The delta for a new edge keeps the set of pairs exact with or without cycles and is idempotent on
pairs. It keeps the support counts exact if and only if the edge closes no cycle (and a loop sits at a node that
no pair mentions), a condition told from the rows alone: on a cycle it counts walks that are not simple, and
folding an edge there and one back already counts two paths where there is one. A miscount is never made good
later: over any run of folds no count falls short and the excess of a pair only grows, so the rows are exact at
the end if and only if every edge was safe when it was folded in; folding the edges of an acyclic graph in one
by one therefore gives what a full recompute gives. With the reflexive option the delta is exact if and only if,
besides, the edge's source already has its diagonal pair, which the first edge of all does not.

**Live queries** (`LiveDependencies`, `LiveQuery`, `AbortedWrite`, `FailedPublish`, `StableKeys`). A query's
extracted dependencies cover everything it reads if and only if each pattern is subsumed by some dependency or
can match nothing; for names that are not `*` and hold no NUL that is: each pattern names an entity or an
attribute. An unbounded pattern next to a bounded one is accepted and goes stale, and an entity called `*` can
displace the wider dependency. Over connect, disconnect, subscribe, unsubscribe, hydrate and write-and-publish,
no covered subscription is stale while writes are taken in whole and queries succeed, and the diffs sent keep
each subscriber's rows equal to the cached ones. A write of several assertions stops at the first that fails to
append: the earlier ones stay stored and nothing is published. Covered subscriptions then stay right, whatever
their queries compute, if and only if the stored part changes no row that a covered subscription's patterns
match; a submission whose second value cannot be encoded is an input on which one goes stale. A publish ends at
the first query that fails; nothing covered is then stale if and only if each affected covered subscription from
there on, in id order, has the result it had. Row keys tell rows apart exactly up to key order, the sign of
zero, numbers that are not finite (printed like null) and byte arrays (printed like objects); up to that,
applying a diff restores the rows.

**Timers and collections** (`Timers`, `Collections`, `TimerMarks`, `Alarm`, `TimelineClash`, `Lifecycles`). Each
drain fires exactly the first `limit` due ticks of the two queues together although each queue was cut first,
then sets the alarm for the earliest pending tick. Every drain with a due tick leaves strictly fewer due, also
one that stops early, so repeated drains at one time run out of due ticks after at most as many as there were.
If a wait tick's timeline event already exists, the tick is marked and the run resumed before the insert fails:
the drain then stops there and the alarm is not set again. Told from the tables before it, a drain goes through
if and only if, among the ticks it takes up, none that is the first for its waiting run has a timeline event
that is there already or that an earlier such tick brings; a run parked under a taken event id is an input on
which it stops and leaves a pending wait for which no alarm is set. Over every run a collection moves only from
issued to submitted or expired, keeps the data and assertions of its one submission, and ticks leave pending at
most once; the marks on collections are those of ticks that fired, and every tick that fired has left its mark.
If appending fails part of the way, the collection stays submitted with only the first of its assertions. On
every continuation a collection keeps the terms it was issued on: a submission at or after its expiry is refused
and writes nothing, one before it on a collection still issued is accepted; and a tick stays due from the time
it was scheduled for.

**Interval rows and cardinality one** (`FactRow`, `DefaultReads`, `CardinalityOne`). The rebuilt row of one fact
answers as the core fold does, for all flags and from the last event on, if and only if the last retract to move
the valid interval moved it to where it was and the history does not end in an untombstone tied with a
tombstone; at every coordinate if and only if, besides, retracts and tombstones are aligned. Default reads,
which show neither retracted nor tombstoned facts, ask for less: from the last event on they agree if and only
if there is a retract, the interval is empty or there is no such tie; always if and only if (for intervals that
are not empty) the row hides the fact from the assert on, or no retract moved the interval and nothing hides the
fact before the row does. An untombstone in the same millisecond as its tombstone shows a fact that the core
fold hides. A retract that moves the interval makes earlier reads wrong. An assert keeps exactly one live fact
in one current row if and only if the winner is visible at the time of the assert, and a run does at every step
if and only if at each assert the ≺-maximum so far is visible then. With a clock that does not go back and open
validity that is so on every run; with a clock that goes back once a run of two asserts leaves no current row.
Wherever it is so, the log with its retractions folds to the ≺-maximum. Whatever is asserted, each row carries
its assert, and is retracted at the time of a retraction in the log.

**Flows and compliance** (`Flow`, `Rules`, `Planner`, `Compliance`, `StoredRules`, `AttributeNames`,
`SecondPass`). The trace of a segment follows the steps: each note is at the step that the one before leads to,
a branch takes its first arm exactly when it has patterns and the subject holds each of them at that point, each
fact written is the step's attribute with its resolved value, and a collect is satisfied exactly when the
submitted value is held. Chaining a flow through its wait parks does what one uninterrupted run does, from every
start and both ways unless a segment reaches its fifty steps, if and only if "done" names no working step or no
wait step that can be found is the last of its flow: a step called "done" runs when a flow is woken with nowhere
to go. The rule parser inverts the printer exactly when the scope attribute is neither `type` nor `worker` and
the guard value does not look like a variable. So a table of printed rules is read back whole, what is planned
from it is always derived by its rules, and the converse holds if and only if no scope value is shadowed by
another value of its attribute. A stored rule that the parser accepts derives no more than the rule it is taken
for. A rule of patterns derives the same, on all facts, if and only if with terms put for its other variables
each of its clauses is one of the printed ones; any other clause is dropped, and then facts are planned that the
stored rule does not derive. A requirement means what it says if and only if no attribute it names looks like a
variable: the rule language binds such a name, the planner looks it up. Materialising makes the managed facts
exactly the planned ones. For requirements whose scope attribute is not managed, or is the one they keep
themselves, doing it again writes nothing, whatever the facts, if and only if wherever a guard reads a managed
attribute the same form is required, for the same scope attribute, of every worker.

**Clocks, relay, encodings** (`Clock`, `Relay`, `Base32`, `Canonical`, `JsonText`, `Utf8`, `EventIdentity`).
Over every run of ticks, receipts and restarts, timestamps are unique and ordered along happens-before, and the
physical time of each is the largest wall reading in its causal past (or zero, where clocks start). No store in
a star ever holds an event nobody authored, and when nothing is in flight all stores are equal. Base32 is the
bit-stream encoding of section 6 of RFC 4648 although the 32-bit accumulator is never masked, and decodes back.
Canonical text is the JSON text (section 25.5.2 of ECMA-262) of the tagged value with its keys in order, and
canonical bytes are equal exactly for values equal up to key order and signed zero. In bare UTF-8 (section 3 of
RFC 3629) a high surrogate takes whatever follows as its low one: texts share bytes exactly when they are alike
with those put right, the decoder gives back exactly the texts whose high surrogates are all followed by low
ones, and a text shares its bytes with no other exactly when it holds no high surrogate. JSON text escapes the
lone ones. So two bodies have the same event id exactly when they are the same body.

## Model

| member | source | states |
|---|---|---|
| Core.CompareHlcLaws | packages/core/src/hlc.ts:15-19 | timestamp comparison is zero only on equal timestamps, antisymmetric and transitive |
| Text.LessIff | packages/core/src/hlc.ts:15-19 | strings compare by the first code unit in which they differ, a prefix coming first |
| Core.PrecedesIff | packages/core/src/order.ts:11-16 | ≺ compares physical time, counter, replica, actor and id, in that order |
| Core.PrecedesStrictTotal | packages/core/src/order.ts:11-16 | ≺ is irreflexive, transitive, asymmetric and decides between any two events with different ids |
| Core.CompareEventsLaws | packages/core/src/order.ts:18-21 | comparing follows ≺ both ways, and says equal of one id only |
| Core.MaxByOrder | packages/core/src/order.ts:24-28 | the loop returns the specification's maximum, nothing for an empty list |
| Core.MaxOfIsMaximal | packages/core/src/order.ts:24-28 | the result is a member that no other member follows in ≺ |
| Core.MaxOfSetDetermined | packages/core/src/order.ts:24-28 | lists with the same events, in any order and repetition, have the same maximum |
| Core.FromEvents | packages/core/src/log.ts:13-17 | builds the log of a batch: a later event replaces an earlier one with its id |
| Core.Merge | packages/core/src/log.ts:27-31 | the right log is put over the left one |
| Core.PutContents | packages/core/src/log.ts:20-24 | adding keeps ids distinct and all other entries |
| Core.PutInPlace | packages/core/src/log.ts:20-24 | an entry is replaced where it stands, a new one comes last, all others keep their places |
| Core.LastIsKept | packages/core/src/log.ts:13-17 | of several events with one id in a batch the last is kept |
| Core.PutAllContents | packages/core/src/log.ts:13-31 | a log after any batch holds the union when ids determine content |
| Core.PutAllKeepsRight | packages/core/src/log.ts:27-31 | which entries a merge keeps: all of the right log, and those of the left whose id is not on the right |
| Core.MergeCommutesIff | packages/core/src/log.ts:27-31 | merge is commutative if and only if shared ids have the same content |
| Core.MergeIsUnion | packages/core/src/log.ts:27-31 | on content-addressed logs merge is union: associative and idempotent |
| Fold.TombstonedMeaning | packages/core/src/fold.ts:32-39 | tombstoned means some known tombstone has no strictly later known untombstone |
| Fold.VisibleIff | packages/core/src/fold.ts:30-53 | visible iff asserted by then, not retracted by then, each tombstone by then followed by a strictly later untombstone by then (either aside under its flag), and the valid time in the half-open interval |
| Fold.VisibleFromLifecycle | packages/core/src/fold.ts:42-53 | visibility of an assert depends only on the known events targeting it |
| Fold.ValueAnswers | packages/core/src/fold.ts:56-84 | with cardinality one the answer is the visible assert that no other follows in ≺, or nothing; with many all visible asserts, in log order |
| Fold.Entity | packages/core/src/fold.ts:101-119 | the map's keys are the attributes with a visible assert, and each is answered so by its own cardinality |
| Fold.AttrsHaveValues | packages/core/src/fold.ts:101-119 | an attribute with a visible assert never has an undefined value |
| Fold.ValueConverges | packages/core/src/fold.ts:56-84 | the same past gives the same visible asserts and the same value, for either cardinality |
| Fold.StrongConvergence | packages/core/src/fold.ts:42-119 | logs with the same events up to txTime agree on visibility and entity maps, whatever else they hold |
| Fold.FutureChangesNothing | apps/convex-demo/convex/facts.ts:966-972 | events after txTime change neither the cardinality read from the log nor any answer |
| Fold.DeclaredIs | apps/convex-demo/convex/facts.ts:966-972 | cardinality as the log declares it: by the latest visible declaration, else by the built-in table, else many |
| Fold.DeliveryOrderIrrelevant | packages/core/src/log.ts:13-31 | any batches that deliver the same content-addressed events give logs with the same past |
| Projection.ProjectionRowsFromLog | packages/runtime/src/projection.ts:49-87 | the rows are exactly those of the surviving candidates, one per event, each carrying its event, in strict order of (e, a, event id) |
| Projection.GroupVisible | packages/runtime/src/projection.ts:54-64 | the first loop groups each visible assert with a value under its joined key, in log order |
| Projection.PushRows | packages/runtime/src/projection.ts:66-78 | the second loop pushes the winner of a cardinality-one group and every member of the others |
| Projection.WinnerIsMax | packages/runtime/src/projection.ts:70-74 | the reduce over a group is the core maximum |
| Projection.RowsMatchCoreValue | packages/runtime/src/projection.ts:17-87 | the rows of an (e, a) stand for the core answer there if and only if each event of it carries a value |
| Projection.FoldRowsCarry | packages/runtime/src/projection.ts:13-42 | each row is of a visible assert: entity, attribute, value, interval, event id and joined row id |
| Projection.RowsCarryAnswer | packages/runtime/src/projection.ts:17-87 | where the events of the answer carry values, the values of the rows at (e, a) are those of the core answer |
| Projection.ValuelessHasNoRow | packages/runtime/src/projection.ts:17-64 | a visible assert without a value is the core answer and has no row |
| Projection.RowIdInjective | packages/runtime/src/projection.ts:13-15 | a row id determines event, entity and attribute when names hold no NUL |
| Text.JoinInjective | packages/cloudflare/src/sqliteCurrent.ts:879-881 | a key joined with NUL determines its parts when the first holds no NUL |
| Text.JoinCollides | packages/cloudflare/src/sqliteCurrent.ts:879-881 | otherwise two coordinates can share a key |
| EventTable.EventStore.Append | packages/cloudflare/src/durableObjectSqlite.ts:906-927 | adds an addressed event once, fills in a missing sequence number, rejects a wrong id, changes nothing else |
| EventTable.EventStore.Get | packages/cloudflare/src/durableObjectSqlite.ts:929-938 | the row stored under an id, or nothing when there is none |
| EventTable.EventStore.ScanAll | packages/cloudflare/src/durableObjectSqlite.ts:940-977 | all events, each id once, in id order |
| EventStorage.DurableObjectEventStore.Append | packages/cloudflare/src/durableObject.ts:114-130 | keeps the sorted id index equal to the stored ids; adds an addressed event once, keeps a known sequence number |
| EventStorage.DurableObjectEventStore.Scan | packages/cloudflare/src/durableObject.ts:140-152 | exactly the stored events that pass the filter, each once, in id order unless ids are given |
| EventStorage.DurableObjectEventStore.Merge | packages/cloudflare/src/durableObject.ts:154-162 | adds every event up to the first with a wrong id; counts exactly the new ones |
| Reconciling.EventsForCoordContents | packages/cloudflare/src/sqliteCurrent.ts:1189-1201 | the sub-log of (e, a) holds the events naming it and those targeting one of these, each once |
| Reconciling.SubLogIs | packages/cloudflare/src/sqliteCurrent.ts:1189-1201 | the same, spelt out by entity, attribute and target |
| Reconciling.SameRowsIff | packages/cloudflare/src/sqliteCurrent.ts:1234-1274 | logs with the same history of (e, a) give it the same rows iff its cardinality agrees or at most one event is a candidate |
| Reconciling.ReconcileKeepsFoldIff | packages/cloudflare/src/sqliteCurrent.ts:1234-1274 | one reconciled append keeps the rows the fold of the log exactly under that condition for every (e, a) |
| Reconciling.ReconcileKeepsFold | packages/cloudflare/src/sqliteCurrent.ts:1234-1274 | so it does whenever cardinality does not depend on the log |
| Reconciling.SchemaIsOutsideSubLog | packages/cloudflare/src/sqliteCurrent.ts:1189-1201 | with cardinality read from the log there is a run on which it does not |
| Reconciling.IncrementalEqualsRebuild | packages/cloudflare/src/sqliteCurrent.ts:1203-1274 | over every sequence of appends, in any order, the rows kept equal a rebuild and each carries a visible event of the log |
| SqliteCurrent.ProjectionStore.Replace | packages/cloudflare/src/durableObjectSqlite.ts:1024-1039 | the table holds exactly the given rows |
| SqliteCurrent.ProjectionStore.ReplaceMatching | packages/cloudflare/src/durableObjectSqlite.ts:1041-1086 | the rows of one (e, a) are replaced, all others kept |
| SqliteCurrent.ProjectionStore.Clear | packages/cloudflare/src/durableObjectSqlite.ts:1088-1090 | no row is left |
| SqliteCurrent.ProjectionStore.Scan | packages/cloudflare/src/durableObjectSqlite.ts:1092-1138 | exactly the rows of one (e, a) |
| SqliteCurrent.ProjectionChangeSummary | packages/cloudflare/src/sqliteCurrent.ts:889-928 | lists exactly the (e, a) whose event ids differ, once each in key order, with the sorted ids before and after |
| SqliteCurrent.Rebuild | packages/cloudflare/src/sqliteCurrent.ts:1203-1232 | the rows become the fold of the whole log, each carrying its event; the summary is of the change made; how many events and rows |
| SqliteCurrent.Reconcile | packages/cloudflare/src/sqliteCurrent.ts:1234-1274 | only the (e, a) of the event or of its target is refolded; the summary is of the whole table's change |
| SqliteCurrent.AppendAndReconcile | packages/cloudflare/src/sqliteCurrent.ts:3310-3368 | a surface write keeps the rows equal to the fold of the log, also when the event is rejected |
| HistoricalQuery.OwnLogSuffices | packages/cloudflare/src/sqliteQuery.ts:59-110 | an assert is visible in the log of itself and its lifecycle exactly when it is in the whole log |
| HistoricalQuery.TestVisible | packages/cloudflare/src/sqliteQuery.ts:69-103 | the test with its lifecycle cache decides visibility in the whole log |
| HistoricalQuery.Collect | packages/cloudflare/src/sqliteQuery.ts:81-107 | the scan loop keeps exactly the visible asserts whose value matches |
| HistoricalQuery.Candidates | packages/cloudflare/src/sqliteQuery.ts:27-110 | the indexed source returns exactly the triples of the asserts visible in the whole log that agree with the pattern's constants, in id order |
| Graph.RemoveLoops | apps/convex-demo/convex/materialize.ts:532-551 | every walk can be shortened to a simple path between the same ends |
| Graph.PathsToIffWalk | apps/convex-demo/convex/materialize.ts:532-551 | a pair has a simple path of bounded length exactly when it is off the diagonal and joined by a walk of that length |
| Graph.Concat | apps/convex-demo/convex/materialize.ts:541-551 | ends, nodes and events of a path put together from two |
| Graph.ConcatSimple | apps/convex-demo/convex/materialize.ts:541-551 | such a path is simple exactly when its parts are and meet only where they join |
| ClosureSearch.Expand | apps/convex-demo/convex/materialize.ts:546-578 | one walker is extended by every edge to a node it has not visited, each tallied |
| ClosureSearch.SearchFrom | apps/convex-demo/convex/materialize.ts:532-581 | level by level all simple paths from a source up to the depth are met, each once, until the cap |
| ClosureSearch.ComputeClosureSupports | apps/convex-demo/convex/materialize.ts:524-596 | each pair is stored iff joined within the depth, with its number of simple paths and their events; truncated iff there are as many paths as the cap, and then every row is sound |
| IncrementalClosure.IncrementalClosureAdd | apps/convex-demo/convex/materialize.ts:375-500 | the loops add predecessors × successors to the rows; capped iff that inserts as many pairs as the cap |
| IncrementalClosure.ExactIsRecomputed | apps/convex-demo/convex/materialize.ts:272-367 | rows are exact if and only if they are what a full recompute with unbinding depth stores |
| NewEdge.ReachWithNewEdge | apps/convex-demo/convex/materialize.ts:369-374 | reachability after a new edge: an old walk, or one into it and one out of it |
| NewEdge.NewPaths | apps/convex-demo/convex/materialize.ts:375-500 | the simple paths of the enlarged graph are the old ones and the crossings of the new edge, disjointly |
| NewEdge.CountWithNewEdge | apps/convex-demo/convex/materialize.ts:434-461 | with no way back, the new paths number the ways in times the ways out |
| ClosureTheorems.DeltaKeepsPairs | apps/convex-demo/convex/materialize.ts:369-500 | rows that are the off-diagonal closure stay so under the delta, cycles or not |
| ClosureTheorems.DeltaIdempotentOnPairs | apps/convex-demo/convex/materialize.ts:375-500 | folding an edge in twice adds no pair the second time |
| ClosureTheorems.PartialDeltaIsSound | apps/convex-demo/convex/materialize.ts:487-494 | a delta cut short by its cap stores no pair that is not joined |
| ClosureTheorems.DeltaExactIffSafe | apps/convex-demo/convex/materialize.ts:434-461 | support counts and events stay exact if and only if the edge is safe, told from the rows |
| ClosureTheorems.CycleIsMiscounted | apps/convex-demo/convex/materialize.ts:434-461 | an edge there and one back: the second fold counts two paths where there is one |
| ClosureTheorems.FoldingIsExact | apps/convex-demo/convex/materialize.ts:375-500 | folding in the edges of an acyclic graph one by one gives exact rows |
| ClosureTheorems.FoldingEqualsRecompute | apps/convex-demo/convex/materialize.ts:272-500 | which are the rows of a full recompute |
| ClosureRuns.ExcessGrows | apps/convex-demo/convex/materialize.ts:434-461 | a fold adds to a pair at least as many supports as it gains simple paths, cycles or not |
| ClosureRuns.FoldingExactIff | apps/convex-demo/convex/materialize.ts:375-500 | after any run of folds the rows are exact iff each edge, when folded in, closed no cycle and was no loop at a connected node |
| ReflexiveClosure.ReflexiveIsRecomputed | apps/convex-demo/convex/materialize.ts:583-592 | what a reflexive recompute stores, and nothing else |
| ReflexiveClosure.ReflexiveDeltaExactIff | apps/convex-demo/convex/materialize.ts:428-481 | the reflexive delta is exact iff the edge is safe and its source has a diagonal pair already (or it is a loop with no events behind it at a node no pair mentions) |
| ReflexiveClosure.FirstEdgeLeavesNoDiagonal | apps/convex-demo/convex/materialize.ts:428-481 | the first edge folded into empty rows is a case where it is not |
| ClosureTable.DerivedFacts.Recompute | apps/convex-demo/convex/materialize.ts:307-365 | patching, inserting and deleting leave exactly the searched pairs, or sound ones when truncated |
| ClosureTable.DerivedFacts.FoldEdge | apps/convex-demo/convex/materialize.ts:375-500 | the table after one edge, in full or up to the cap |
| LiveDependencies.DependenciesExact | packages/cloudflare/src/sqliteLive.ts:462-537 | the dependencies kept are those of the query's patterns, one for each key |
| LiveDependencies.DependenciesAre | packages/cloudflare/src/sqliteLive.ts:462-505 | each names what some pattern of the query names by string constants, negated and disjoined patterns included; each pattern that names something has one with its key |
| LiveDependencies.CoversIff | packages/cloudflare/src/sqliteLive.ts:479-537 | they cover all the query reads iff each pattern is subsumed by one of them or can match nothing |
| LiveDependencies.PlainCoversIff | packages/cloudflare/src/sqliteLive.ts:479-489 | with plain names: iff each pattern names an entity or attribute, or can match nothing |
| LiveDependencies.StarClash | packages/cloudflare/src/sqliteLive.ts:462-471 | an entity called `*` can displace a wider dependency |
| LiveDependencies.UnboundedNextToBounded | packages/cloudflare/src/sqliteLive.ts:479-489 | a query with a pattern that names nothing is accepted next to one that names an attribute, and is not covered |
| LiveDependencies.UnheardChangesNothing | packages/cloudflare/src/sqliteLive.ts:382-389 | a change no dependency matches leaves every row a covered query reads |
| LiveDependencies.UncoveredGoesStale | packages/cloudflare/src/sqliteLive.ts:479-489 | any other query has a write that changes its rows unheard |
| LiveDependencies.DiffRestoresKeys | packages/cloudflare/src/sqliteLive.ts:432-460 | applying a diff to the previous rows gives the current ones, key for key |
| LiveDependencies.DiffRestoresRows | packages/cloudflare/src/sqliteLive.ts:416-460 | and row for row where keys tell rows apart |
| LiveDependencies.DiffRowsAre | packages/cloudflare/src/sqliteLive.ts:432-460 | a diff has one row for each key that only one side has, and no other |
| LiveDependencies.DiffOfEventIds | packages/cloudflare/src/sqliteLive.ts:444-459 | the event ids of a diff are the two set differences, sorted |
| StableKeys.StableKeyIff | packages/cloudflare/src/sqliteLive.ts:399-414 | rows share a key iff they are shown alike: keys sorted, numbers that are not finite as null, byte arrays as objects |
| StableKeys.SharedKeys | packages/cloudflare/src/sqliteLive.ts:399-410 | different values that share a key |
| StableKeys.DiffRestoresShownRows | packages/cloudflare/src/sqliteLive.ts:412-460 | with these keys, applying a diff gives the current rows as they are shown |
| LiveQuery.PublishKeepsLive | packages/cloudflare/src/sqliteLive.ts:1107-1158 | a publish that announces what changed takes a state without stale subscriptions to another |
| LiveQuery.UnheardStays | packages/cloudflare/src/sqliteLive.ts:1107-1158 | a subscription none of whose filters matches a change keeps its result and is sent nothing |
| LiveQuery.Fanout.constructor | packages/cloudflare/src/sqliteLive.ts:844-851 | a fan-out starts with what is persisted and nobody connected |
| LiveQuery.Fanout.Connect | packages/cloudflare/src/sqliteLive.ts:861-883 | adds a connection and nothing else |
| LiveQuery.Fanout.Disconnect | packages/cloudflare/src/sqliteLive.ts:885-898 | drops the connection's subscriptions and closes its stored ones |
| LiveQuery.Fanout.Subscribe | packages/cloudflare/src/sqliteLive.ts:908-978 | when it fails and why; otherwise stores the query with its dependencies and current result |
| LiveQuery.Fanout.Unsubscribe | packages/cloudflare/src/sqliteLive.ts:984-1017 | removes a subscription only for its own connection |
| LiveQuery.Fanout.Hydrate | packages/cloudflare/src/sqliteLive.ts:1031-1105 | takes up a connection's active stored queries in id order with fresh results, up to the first that fails |
| LiveQuery.Fanout.PublishChanges | packages/cloudflare/src/sqliteLive.ts:1107-1158 | re-runs affected subscriptions in id order until one fails; if none does, nothing is stale |
| FailedPublish.PublishLiveIff | packages/cloudflare/src/sqliteLive.ts:1107-1158 | when a publish stops, and that nothing covered is stale then iff each affected covered subscription from the failing one on keeps its result |
| LiveQuery.SummaryAnnounces | packages/cloudflare/src/sqliteCurrent.ts:889-928 | comparing event ids announces every (e, a) whose rows changed |
| LiveQuery.DedupeKeepsAnnouncing | packages/cloudflare/src/worker.ts:330-340 | deduplicated changes still announce everything |
| LiveQuery.DedupedAre | packages/cloudflare/src/worker.ts:330-340 | the changes kept are the last of their (e, a), in the order of entity and attribute |
| LiveQuery.AppendEach | packages/cloudflare/src/sqliteCurrent.ts:1452-1471 | appends and reconciles one by one up to the first that fails; the rows are the fold of what is stored and the summaries announce all that changed |
| LiveQuery.WriteAndPublish | packages/cloudflare/src/worker.ts:495-537 | after a write taken in whole and its publish no covered subscription is stale; a write cut short publishes nothing and leaves the fan-out as it is |
| AbortedWrite.UnpublishedChangeIff | packages/cloudflare/src/worker.ts:523-537 | with nothing published, covered subscriptions stay right whatever queries compute iff the change leaves every row their patterns match |
| AbortedWrite.TouchedGoesStale | packages/cloudflare/src/sqliteLive.ts:1107-1158 | a covered subscription with a matching row changed is stale for some query |
| AbortedWrite.AbortedSubmissionGoesStale | packages/cloudflare/src/sqliteCurrent.ts:1452-1471 | a submission of two assertions, the second unencodable, leaves a covered subscription stale |
| Timers.DueLessLaws | packages/cloudflare/src/sqliteAlarm.ts:82-87 | the firing order is a strict total order |
| Timers.ListedInFiringOrder | packages/cloudflare/src/sqliteAlarm.ts:82-87 | ticks are listed by time, collection ticks before flow waits, then by id |
| Timers.FirstOfCutQueues | packages/cloudflare/src/sqliteAlarm.ts:154-178 | cutting each queue at the limit loses nothing from the first `limit` of both |
| Timers.LeftCount | packages/cloudflare/src/sqliteAlarm.ts:154-178 | how many due ticks a drain leaves |
| Collections.StepKeeps | packages/cloudflare/src/durableObjectSqlite.ts:1187-1329 | each operation keeps the marks of submission and expiry consistent and only moves collections and ticks forward |
| Collections.EveryRunAdvances | packages/cloudflare/src/durableObjectSqlite.ts:1187-1329 | so does every run |
| Collections.RunsAreConsistent | packages/cloudflare/src/durableObjectSqlite.ts:1187-1329 | so every state reached from empty tables is consistent |
| Collections.SubmitWrites | packages/cloudflare/src/sqliteCurrent.ts:1420-1474 | what an accepted submission writes, up to the assertion at which appending fails |
| Collections.SubmittedOnce | packages/cloudflare/src/sqliteCurrent.ts:1420-1474 | nothing run afterwards changes it or adds assertions |
| Collections.FiringActsOnIssuedOnly | packages/cloudflare/src/sqliteCurrent.ts:2494-2574 | a tick acts at most once and only on an issued collection |
| TimerMarks.RunKeepsMarks | packages/cloudflare/src/sqliteCurrent.ts:2494-2746 | in every state of every run, each reminder, escalation and (without an expiry time) expiry is that of a fired tick, each fired tick shows, a skipped one's collection is no longer issued, and each fired wait has its timeline event |
| TimerMarks.WaitsAdvance | packages/cloudflare/src/durableObjectSqlite.ts:1576-1595 | a wait leaves pending at most once over every run |
| TimerMarks.OnlyWaitsResume | packages/cloudflare/src/sqliteCurrent.ts:2665-2746 | firing resumes only a waiting run, at the step the wait names, and touches no collection |
| Lifecycles.IssuedNow | packages/cloudflare/src/durableObjectSqlite.ts:1187-1219 | a new token is issued with nothing done to it yet; a known one and all others stay as they are |
| Lifecycles.IssuedKeepsTerms | packages/cloudflare/src/durableObjectSqlite.ts:1187-1329 | on every continuation a collection keeps the subject, the time and the expiry it was issued with |
| Lifecycles.LateIsRefused | packages/cloudflare/src/durableObjectSqlite.ts:1261-1291 | a submission at or after the expiry is refused, appends nothing, keeps the data there was and closes the collection |
| Lifecycles.TimelyIsAccepted | packages/cloudflare/src/sqliteCurrent.ts:1420-1474 | one before it, on a collection still issued, is accepted with its data, and appends its assertions up to the one that fails |
| Lifecycles.RefusedBecause | packages/cloudflare/src/durableObjectSqlite.ts:1261-1278 | each reason for refusing a submission, exactly |
| Lifecycles.ScheduledKeepsTime | packages/cloudflare/src/durableObjectSqlite.ts:1369-1394 | a tick keeps its collection, phase and times, whatever is run |
| Lifecycles.DueFromItsTime | packages/cloudflare/src/sqliteAlarm.ts:137-178 | while pending it is due from its time on and not before |
| Lifecycles.ScheduledWaitKeeps | packages/cloudflare/src/durableObjectSqlite.ts:1502-1528 | a wait keeps its run, step, timeline event and times, and is due from its time on |
| Lifecycles.TickLeavesPending | packages/cloudflare/src/sqliteCurrent.ts:2494-2574 | a tick leaves pending when fired, at that time: fired if its collection was issued, skipped otherwise |
| Lifecycles.FiringMarks | packages/cloudflare/src/sqliteCurrent.ts:2494-2574 | a firing marks its collection with its own time and as its phase says, in no other way |
| Lifecycles.WaitLeavesPending | packages/cloudflare/src/sqliteCurrent.ts:2665-2746 | a wait leaves pending when fired, at that time: fired if its run was waiting, skipped otherwise |
| Lifecycles.ResumedRun | packages/cloudflare/src/sqliteCurrent.ts:2665-2746 | a resumed run is running at the wait's step from that time on; its timeline gets the wait's event |
| Alarm.FiringAllLeavesRest | packages/cloudflare/src/sqliteAlarm.ts:179-199 | firing ticks takes exactly those off the queues |
| Alarm.DrainAdvances | packages/cloudflare/src/sqliteAlarm.ts:137-203 | a drain advances collections and ticks as any run does |
| Alarm.DrainLowersDue | packages/cloudflare/src/sqliteAlarm.ts:137-203 | every drain with a due tick leaves strictly fewer due and adds none, also one that stops at a clash |
| Alarm.RepeatedDrainsEmpty | packages/cloudflare/src/sqliteAlarm.ts:137-203 | after k drains at one time, clashes or not, at least k fewer ticks are due, or none |
| Alarm.BatchLimit | packages/cloudflare/src/sqliteAlarm.ts:68-70 | a hundred unless asked for something else, never less than one nor more than a thousand |
| Alarm.Surface.IssueCollection | packages/cloudflare/src/durableObjectSqlite.ts:1187-1219 | issues a token once |
| Alarm.Surface.SubmitCollection | packages/cloudflare/src/sqliteCurrent.ts:1420-1474 | the outcome and the new state, late and repeated submissions included |
| Alarm.Surface.ScheduleCollectionTick | packages/cloudflare/src/durableObjectSqlite.ts:1369-1394 | schedules an id once, for a known collection |
| Alarm.Surface.FireCollectionTick | packages/cloudflare/src/sqliteCurrent.ts:2494-2574 | fires or skips a pending tick and does what its phase says |
| Alarm.Surface.ScheduleFlowWaitTick | packages/cloudflare/src/durableObjectSqlite.ts:1502-1528 | schedules an id once, for a known run |
| Alarm.Surface.FireFlowWaitTick | packages/cloudflare/src/sqliteCurrent.ts:2665-2746 | marks the tick and resumes a waiting run before the timeline insert that may clash |
| Alarm.Surface.ListCollectionTicks | packages/cloudflare/src/durableObjectSqlite.ts:1408-1440 | the first pending ticks by a time, in order, up to the clamped limit |
| Alarm.Surface.ListFlowWaitTicks | packages/cloudflare/src/durableObjectSqlite.ts:1542-1574 | the same for the flow-wait queue |
| Alarm.Surface.FirstPending | packages/cloudflare/src/sqliteAlarm.ts:154-178 | the first pending ticks of both queues |
| Alarm.Surface.Arm | packages/cloudflare/src/sqliteAlarm.ts:99-135 | the alarm is set for the earliest pending tick, or taken off when there is none |
| Alarm.Surface.Drain | packages/cloudflare/src/sqliteAlarm.ts:137-203 | fires exactly the first due ticks of both queues and arms again, iff no tick that resumes a run has a timeline event taken or shared; else what it fired, and that the alarm stays |
| Alarm.NoClashIff | packages/cloudflare/src/sqliteCurrent.ts:2665-2746 | no tick clashes when its turn comes iff, in the tables before the drain, the events of the ticks that resume a run are free and distinct |
| TimelineClash.TakenIsReached | packages/cloudflare/src/durableObjectSqlite.ts:1502-1528 | a run parked with an event in its timeline and a wait scheduled under that event's id are a reachable state |
| TimelineClash.TakenEventStops | packages/cloudflare/src/sqliteCurrent.ts:2665-2746 | there the drain fires the wait, resumes the run and stops; a later wait is left pending |
| TimelineClash.DrainForgetsTheOther | packages/cloudflare/src/sqliteAlarm.ts:137-203 | and the alarm is not set for it |
| FactRow.FoldedInOrder | apps/convex-demo/convex/rebuild.ts:10-24 | a history is folded by physical time, counter, replica and id |
| FactRow.RebuildFact | apps/convex-demo/convex/rebuild.ts:64-92 | the loop computes the folded row; from a history with its assert: asserted and valid from when that says, retracted at the latest retract, tombstoned if the last mark is a tombstone; entity, attribute, value and id stay; a fact without an assert is left alone |
| FactRow.RowReading | packages/convex/src/visibility.ts:20-71 | what reading a row as a log of at most three events comes to |
| FactRow.RowEventsAre | packages/convex/src/visibility.ts:20-59 | the little log: the row's assert and, where the row has those ends, a retract and a tombstone of it at their times |
| FactRow.CoreReading | packages/core/src/fold.ts:32-53 | what the core fold says of one fact's history |
| FactRow.AgreeAtIff | apps/convex-demo/convex/rebuild.ts:64-92 | at one transaction time row and core agree for all valid times and flags iff interval, retracts and tombstones do |
| FactRow.LastMoveLaws | apps/convex-demo/convex/rebuild.ts:64-92 | the last retract that carries an end of validity, and that none follows it |
| FactRow.RowAgreesLateIff | apps/convex-demo/convex/rebuild.ts:10-92 | from the last event on they agree for all flags iff that retract left the interval as it was and no untombstone ties the last tombstone |
| FactRow.RowAgreesAlwaysIff | apps/convex-demo/convex/rebuild.ts:10-92 | at every coordinate iff, besides, retracts and tombstones are aligned |
| FactRow.SimpleHistoryAgrees | apps/convex-demo/convex/rebuild.ts:10-92 | so always with at most one retract that leaves the interval, one tombstone and no untombstone |
| DefaultReads.DefaultAgreesLateIff | packages/convex/src/visibility.ts:20-71 | from the last event on default reads agree iff there is a retract, the interval is empty, or no untombstone ties the last tombstone |
| DefaultReads.DefaultAgreesAtEventsIff | packages/convex/src/visibility.ts:20-71 | at every coordinate iff row and core hide the fact alike at the time of each event |
| DefaultReads.DefaultAgreesAlwaysIff | packages/convex/src/visibility.ts:20-71 | told from the order of the events: the row hides the fact from the assert on, or no retract moved the interval and no retract or later tombstone comes before the row hides it (with the cases of empty intervals) |
| DefaultReads.TiedUntombstoneShows | apps/convex-demo/convex/rebuild.ts:64-92 | an untombstone in its tombstone's millisecond: the row shows the fact from then on, the core fold hides it |
| DefaultReads.MovedIntervalReadsBack | apps/convex-demo/convex/facts.ts:476-515 | after a retract with another end of validity, a read before the retract misses the fact |
| CardinalityOne.ReconcilePicksMax | packages/convex/src/reconcile.ts:23-37 | the winner is the ≺-maximum, the losers all others in order |
| CardinalityOne.CandidatesAre | apps/convex-demo/convex/facts.ts:164-182 | the candidates are exactly the new fact and the current ones, neither retracted nor tombstoned, each by its own event |
| CardinalityOne.FactStore.AssertInTx | apps/convex-demo/convex/facts.ts:316-399 | the store after an assert and its reconciliation |
| CardinalityOne.RunCarries | apps/convex-demo/convex/facts.ts:164-399 | on any run each row carries its assert, and the log holds the asserts and retractions of asserts by the transactions of asserts, nothing else |
| CardinalityOne.RunRetractions | apps/convex-demo/convex/facts.ts:183-202 | a row is retracted at the time of a retraction of its assert in the log |
| CardinalityOne.StepKeepsOneIff | apps/convex-demo/convex/facts.ts:164-225 | one live fact in one current row is kept iff the winner is visible now; otherwise no current row is left |
| CardinalityOne.RunKeepsOneIff | apps/convex-demo/convex/facts.ts:316-399 | a run has one live fact in one current row after every assert iff at each the ≺-maximum so far is visible at its time, whatever the clock and the validity |
| CardinalityOne.OpenRunStaysShown | apps/convex-demo/convex/facts.ts:316-399 | so with a clock that does not go back and open validity |
| CardinalityOne.ClockBackLosesRow | apps/convex-demo/convex/facts.ts:316-399 | two asserts, the second at an earlier clock reading, leave no current row |
| CardinalityOne.LogFoldsToWinner | apps/convex-demo/convex/facts.ts:164-225 | the log with its retractions folds to the winner where its interval holds, and to nothing elsewhere |
| CardinalityOne.RunKeepsOne | apps/convex-demo/convex/facts.ts:316-399 | then the ≺-maximum is the one live current fact |
| CardinalityOne.CurrentRowShowsMax | apps/convex-demo/convex/facts.ts:204-222 | and the one current row shows its value and interval |
| CardinalityOne.WritePathMatchesFold | apps/convex-demo/convex/facts.ts:164-399 | that fact is the maximum of all asserts and the core value of the log wherever its interval holds |
| Flow.RunOwnedFlowFromStep | apps/convex-demo/convex/metacrdtComponent.ts:1303-1564 | refused when the subject is not of the type; else the outcome follows the steps for at most fifty |
| Flow.RunFollows | apps/convex-demo/convex/metacrdtComponent.ts:1303-1564 | each note is at the step the one before leads to and says what that step does to what the subject holds then: branches, collects, facts with resolved values; the facts are those of the trace; how it ended and where |
| Flow.ParkedIsPrefix | apps/convex-demo/convex/metacrdtComponent.ts:1303-1564 | a parked segment is the beginning of the uninterrupted run |
| Flow.ChainIsStraight | apps/convex-demo/convex/metacrdtComponent.ts:1303-1623 | chained segments assert the same facts and take the same branches in the same order as the uninterrupted run |
| Flow.StraightIsChain | apps/convex-demo/convex/metacrdtComponent.ts:1590-1623 | whatever a chain comes to within the bound, the uninterrupted run comes to |
| Flow.ShortChainIsStraight | apps/convex-demo/convex/metacrdtComponent.ts:1590-1623 | an uninterrupted run within one segment's bound is what its chain comes to |
| Flow.ParkAndWakeIff | apps/convex-demo/convex/metacrdtComponent.ts:1303-1623 | from every start the chain is the uninterrupted run, iff "done" names no working step or no wait step that can be found ends the flow |
| Flow.LastWaitDiffers | apps/convex-demo/convex/metacrdtComponent.ts:1590-1623 | otherwise waking from such a wait step always differs from the uninterrupted run |
| Flow.DoneStepRunsOnWake | apps/convex-demo/convex/metacrdtComponent.ts:1590-1623 | a working step called "done" runs only on wake |
| Rules.ParseInvertsPrintIff | apps/convex-demo/convex/metacrdtComponent.ts:637-715 | the parser recovers a printed requirement iff its scope attribute and guard value are readable |
| Rules.RequirementMeaning | packages/collect/src/index.ts:216-249 | what naive evaluation of the printed requirement rule derives |
| Rules.TaskMeaning | packages/collect/src/index.ts:216-249 | what the printed task rule derives |
| AttributeNames.MeantAsIff | apps/convex-demo/convex/metacrdtComponent.ts:666-705 | the printed requirement means that on all facts iff no attribute it names looks like a variable |
| AttributeNames.VariableNameIsNotPlanned | apps/convex-demo/convex/metacrdtComponent.ts:780-800 | what a rule derives through such a name is not planned |
| Planner.PlacementIdsMember | apps/convex-demo/convex/metacrdtComponent.ts:724-740 | the placements considered are exactly those naming the worker |
| Planner.BuildItems | apps/convex-demo/convex/metacrdtComponent.ts:780-818 | the loops collect one item per form and scope with exactly the placements that put it |
| Planner.FirstStringIsFirst | apps/convex-demo/convex/metacrdtComponent.ts:543-546 | the first value that is a string, if any is |
| Planner.DesiredComplianceFacts | apps/convex-demo/convex/metacrdtComponent.ts:620-635 | the facts of the items, none lost to deduplication, in the order of their keys |
| Planner.ItemsAreWanted | apps/convex-demo/convex/metacrdtComponent.ts:742-832 | they are exactly those wanted by some placement and requirement |
| Compliance.ReadRequirements | apps/convex-demo/convex/metacrdtComponent.ts:755-770 | the requirements of the rules that the parser understands |
| Compliance.BuildOwnedCompliancePlan | apps/convex-demo/convex/metacrdtComponent.ts:742-832 | when there is no plan; otherwise the wanted facts and the rules not understood |
| Compliance.PlanIsSound | apps/convex-demo/convex/metacrdtComponent.ts:742-832 | every planned fact is derived by the rules printed from the requirements read |
| Compliance.PlanMeansRulesIff | apps/convex-demo/convex/metacrdtComponent.ts:742-832 | the plan is exactly what those rules derive iff no scope value is shadowed |
| StoredRules.PrintedTableIsRead | apps/convex-demo/convex/metacrdtComponent.ts:637-715 | a stored table of printed readable requirements is read back whole and in order, none unsupported |
| StoredRules.PrintedTablePlanIff | apps/convex-demo/convex/metacrdtComponent.ts:742-832 | the plan from such a table is exactly what its rules derive iff no scope value is shadowed |
| StoredRules.AcceptedDerivesLess | apps/convex-demo/convex/metacrdtComponent.ts:657-705 | an accepted stored rule derives nothing that the rule it is taken for does not |
| StoredRules.AcceptedDerivesSame | apps/convex-demo/convex/metacrdtComponent.ts:657-705 | and the same when, with terms put for its other variables, each clause is one of those read |
| StoredRules.AcceptedDerivesSameIff | apps/convex-demo/convex/metacrdtComponent.ts:657-705 | for a rule of patterns: on all facts exactly then |
| StoredRules.AcceptedIsPlanned | apps/convex-demo/convex/metacrdtComponent.ts:742-832 | what accepted stored rules derive is planned when no scope value is shadowed |
| StoredRules.StoredRequirementsIff | apps/convex-demo/convex/metacrdtComponent.ts:742-832 | with such rules the planned requirements are exactly what the stored rules derive iff no scope value is shadowed |
| StoredRules.ExtraClauseIsDropped | apps/convex-demo/convex/metacrdtComponent.ts:657-705 | a stored rule with one more clause: a fact is planned that it does not derive |
| Compliance.SingleScopesShadowNothing | apps/convex-demo/convex/metacrdtComponent.ts:543-546 | single-valued string scopes are never shadowed |
| Compliance.SecondScopeIsShadowed | apps/convex-demo/convex/metacrdtComponent.ts:543-546 | a placement with two scope values is a case where one is |
| Compliance.MaterializeOwnedCompliance | apps/convex-demo/convex/metacrdtComponent.ts:1178-1264 | what is asserted and retracted: the wanted facts missing, the managed facts not wanted |
| Compliance.WritesMakeExact | apps/convex-demo/convex/metacrdtComponent.ts:1178-1264 | afterwards the worker's managed facts are exactly the wanted ones |
| Compliance.MaterializeTwice | apps/convex-demo/convex/metacrdtComponent.ts:1178-1264 | materialising again writes nothing when requirements keep their scope and guards on managed attributes are beside the point |
| SecondPass.OnceIsEnoughForAllIff | apps/convex-demo/convex/metacrdtComponent.ts:1178-1264 | for requirements that keep their scope this is so, for every worker and all facts, iff each guard on a managed attribute is beside the point |
| SecondPass.OnceIsEnoughIff | apps/convex-demo/convex/metacrdtComponent.ts:1178-1264 | for one requirement materialising again writes nothing, for every worker and all facts, iff it reads no other managed attribute |
| SecondPass.GuardNotEnough | apps/convex-demo/convex/metacrdtComponent.ts:1178-1264 | any other guard on a managed attribute has facts on which the second pass writes |
| Clock.ReceiveIsAbove | packages/core/src/hlc.ts:22-37 | tick passes the clock, receive passes both the clock and the incoming timestamp |
| Clock.DurableObjectClock.constructor | packages/cloudflare/src/durableObject.ts:226-240 | a restart takes up the stored clock if it is this replica's |
| Clock.DurableObjectClock.Tick | packages/cloudflare/src/durableObject.ts:246-250 | returns, keeps and stores a timestamp at the later of clock and wall; its counter starts again when the wall is ahead and goes up by one otherwise |
| Clock.DurableObjectClock.Receive | packages/cloudflare/src/durableObject.ts:252-256 | the same at the latest of clock, remote and wall; its counter passes by one those that have that time |
| Clock.StepKeepsInv | packages/cloudflare/src/durableObject.ts:217-257 | every step keeps each replica's timestamps in order below its clock |
| Clock.RestartKeepsInv | packages/cloudflare/src/durableObject.ts:226-240 | a restart changes no clock |
| Clock.HappensBeforeIsOrdered | packages/core/src/hlc.ts:15-37 | timestamps grow along happens-before |
| Clock.TimestampsOfRun | packages/core/src/hlc.ts:15-37 | on every run no timestamp is returned twice and none outruns the largest wall reading |
| Clock.TimesOfRun | packages/core/src/hlc.ts:22-37 | on every run the physical time of a timestamp is the largest wall reading in its causal past, or zero |
| Clock.MaxWallIsRead | packages/core/src/hlc.ts:22-37 | that bound is a reading of the run, or zero |
| Relay.WebSocketRelay.Connect | packages/cloudflare/src/relay.ts:109-131 | adds a connection once and greets it if so configured |
| Relay.WebSocketRelay.Disconnect | packages/cloudflare/src/relay.ts:133-140 | drops a connection and no other |
| Relay.WebSocketRelay.Publish | packages/cloudflare/src/relay.ts:142-150 | sends events to every connection under the relay's name, nothing for none |
| Relay.WebSocketRelay.Broadcast | packages/cloudflare/src/relay.ts:209-215 | sends to every connection but the excepted one, once each |
| Relay.WebSocketRelay.Handle | packages/cloudflare/src/relay.ts:162-203 | answers a hello with what it lacks; merges a message that is not its own nor a delta for others, then passes it on under its sender's name |
| Relay.PeerAnswers | packages/runtime/src/broadcast.ts:140-162 | what a peer does with each message: which it ignores, what it takes in and what it sends back |
| Relay.HandlerIsSteps | packages/cloudflare/src/relay.ts:162-203 | the handler is the receiving step of the step system and the fan-out that follows a merge |
| Relay.StepTracks | packages/cloudflare/src/relay.ts:142-215 | after every step, what one side of a connection holds the other holds or is about to |
| Relay.NothingUnauthored | packages/cloudflare/src/relay.ts:142-215 | no store ever holds an event nobody authored |
| Relay.QuietMeansEqual | packages/cloudflare/src/relay.ts:142-215 | with nothing in flight, all stores hold exactly what was authored |
| Base32.ShiftKeepsPending | packages/core/src/base32.ts:11-12 | shifting a byte in keeps the pending bits although older ones overflow the word |
| Base32.ShiftOut | packages/core/src/base32.ts:13-16 | the five oldest pending bits come out, the rest stay |
| Base32.Encode | packages/core/src/base32.ts:6-20 | the loops compute the unpadded bit-stream encoding, of length ceil(8n/5) |
| Base32.DecodeEncoded | packages/core/src/base32.ts:6-20 | a decoder inverts the encoding |
| Base32.EncodedInjective | packages/core/src/base32.ts:6-20 | different byte strings have different encodings |
| Canonical.Hex | packages/core/src/value.ts:19-23 | two lower-case digits for each byte |
| Canonical.EscapeReadable | packages/core/src/value.ts:86-88 | a JSON string can be told from what follows it |
| Canonical.Readable | packages/core/src/value.ts:66-88 | a printed value can be told from what follows it |
| Canonical.NormalIsClean | packages/core/src/value.ts:54-83 | normalising removes negative zero everywhere |
| Canonical.CanonicalStringIff | packages/core/src/value.ts:54-88 | canonical strings are equal iff values are equal up to key order and signed zero |
| JsonText.CanonicalIsJson | packages/core/src/value.ts:54-88 | the canonical string is the JSON text of the tagged normal form |
| JsonText.NormalIs | packages/core/src/value.ts:54-83 | the normal form: entries in key order, negative zero as zero, all else as it is |
| Utf8.EncodeUtf8 | packages/core/src/value.ts:30-52 | the loop computes the encoding, a high surrogate taking the next unit with it |
| Utf8.DecodeEncoded | packages/core/src/value.ts:30-52 | decoding gives the text with a low surrogate put for whatever follows each high one |
| Utf8.SameBytesIff | packages/core/src/value.ts:30-52 | texts have the same bytes iff they are alike with that done |
| Utf8.Utf8Injective | packages/core/src/value.ts:30-52 | the decoder gives a text back iff its high surrogates are followed by low ones; of those no two share bytes |
| Utf8.OwnBytesIff | packages/core/src/value.ts:30-52 | a text shares its bytes with no other iff it holds no high surrogate |
| Utf8.LoneSurrogateCollides | packages/core/src/value.ts:41-49 | a text with a lone high surrogate and a well-formed one with the same bytes |
| Utf8.PrintWellFormed | packages/core/src/value.ts:86-93 | canonical text is well formed whatever the value holds |
| Utf8.CanonicalBytesIff | packages/core/src/value.ts:54-93 | canonical bytes are equal iff values are equal up to key order and signed zero |
| EventIdentity.KeyOrderIrrelevant | packages/core/src/value.ts:76-82 | objects are equal in normal form iff they map the same keys to the same normal values |
| EventIdentity.DecimalInjective | packages/core/src/value.ts:54-62 | different integers print differently |
| EventIdentity.DecimalRead | packages/core/src/value.ts:54-62 | an integer prints as the digits that read back to it, with a minus sign if negative |
| EventIdentity.PreimageFields | packages/core/src/event.ts:41-57 | the fields that are hashed, under which names and with which values, and no others |
| EventIdentity.PreimageIff | packages/core/src/event.ts:41-57 | preimages are equal in normal form iff the bodies are the same |
| EventIdentity.IdReads | packages/core/src/event.ts:60-62 | an id is "e_" and text that decodes to the hash of the canonical bytes of those fields |
| EventIdentity.EventIdIff | packages/core/src/event.ts:41-62 | two bodies have the same id iff they are the same body |

## Left out

- Names and ids that hold NUL: the source joins keys with it, and rows, change summaries and items are stated for names without it (`Text.JoinCollides` shows why).
- One fixed coordinate per projection: rebuilding and reconciling at different times is not compared.
- Reconciling.IncrementalEqualsRebuild: stated for a cardinality that does not depend on the log it is given; for any other, `ReconcileKeepsFoldIff` gives the exact condition of each step.
- Reconciling.ReconcileKeepsFold: the same.
- EventTable.EventStore.ScanAll: the filter arguments of a scan are not modelled here; `EventStorage.DurableObjectEventStore.Scan` has them.
- SqliteCurrent.ProjectionStore.Scan: only filters that name both e and a.
- SqliteCurrent.ProjectionStore.ReplaceMatching: only filters that name both e and a.
- SqliteCurrent.AppendAndReconcile: between append and reconcile the source also awaits `transport.publish` (packages/runtime/src/operations.ts, line 134); if that throws, the event is stored and its group is not reconciled. Cardinality does not depend on the log.
- A store's `merge` does not reconcile rows; only appends through the surface do.
- Closure: fact-id provenance and the order of provenance lists, rows marked stale, several rules for one closure attribute; nodes are compared as strings, and scan limits are not reached.
- IncrementalClosure.ExactIsRecomputed: the depth limit must not bind, since the delta ignores it.
- Live queries: the solver is any function of the rows that match each pattern's constants; socket failures, protocol and scope filters, timestamps, and writes interleaved with a running publish are not modelled, nor is the client's reconnecting.
- `localeCompare` and SQL ordering are one total order on strings.
- Storage writes of one operation are taken as atomic; a crash between storing an event and its index, or between returning and storing a timestamp, is not modelled.
- Timers: times are integers and `NaN` batch sizes do not occur; only the fields of runs and collections that ticks and submissions touch are kept.
- FactRow: `correction` events, reasons and rows without a hybrid logical clock; transaction time is the clock's physical time.
- CardinalityOne.WritePathMatchesFold: one (e, a) with cardinality one, on runs that keep one current row at every assert; `RunKeepsOneIff` says which those are.
- Flow.ParkAndWakeIff: no step writes the subject's type, which every segment checks anew.
- Flow: what an append makes of the current values is a parameter; issuing a collection at a collect step, its timers and the timeline store are not modelled. The library interpreter behind the SQLite surface (`stepFlow`) is not part of this model.
- Canonical: strings are taken as already in normalisation form C, finite numbers by the decimal text JavaScript prints, the hash as injective.
- EventIdentity.EventIdIff: integers in bodies print as plain decimals, as JavaScript does below 10^21.
- Planner: values are compared for equality where the source compares their JSON text; row limits of 500 and 1000 are not reached; an item's reason and the summary counts are left out.
- Compliance.MaterializeTwice: several requirements of which one takes its scope from an attribute that another keeps; `OnceIsEnoughIff` decides one requirement, `OnceIsEnoughForAllIff` any that do not do this.
- Rules.TaskMeaning: attribute names that begin with a question mark; `AttributeNames.MeantAsIff` shows that they are exactly those for which `Rules.RequirementMeaning` fails.
- Compliance.PlanIsSound: the same names, and so for `Compliance.PlanMeansRulesIff`, `StoredRules.PrintedTablePlanIff` and `StoredRules.AcceptedIsPlanned`.
- StoredRules.AcceptedDerivesSameIff: rules with negated clauses; `StoredRules.AcceptedDerivesLess` holds for them too.
- Rule clauses other than patterns and negations, and rules that emit anything but one triple.
- Relay: the answer to a hello is any part of the store, whatever its version vector; in the step system peers stay connected and are named by their replica ids; receiving clocks are not modelled.
- `DurableObjectProjectionStore` and the sequencers: the projection store does what its SQLite counterpart does, and a sequencer counts.
- Forms, submission validation, actions, HTTP, authentication, user interface, query paging and aggregation.
