/**
 * The live-query fan-out: subscriptions cache their last result and are re-run only when a change
 * matches one of their dependencies. A cached result is never stale, and the diffs sent to a
 * subscriber keep its rows up to date.
 */
module LiveQuery {
  import opened Seqs
  import opened Text
  import opened Core
  import opened Fold
  import opened Projection
  import opened EventTable
  import opened Reconciling
  import opened SqliteCurrent
  import opened LiveDependencies
  import Ordering

  /**
   * Query evaluation, row keys and value keys are parameters: `answer` may be any function of the rows
   * that match each pattern's constants, and may fail.
   */
  datatype Engine = Engine(
    answer: (Query, seq<set<Row>>) -> Option<QueryResult>,
    valueKey: Value -> Text,
    rowKey: Value -> Text)

  function Evaluate(engine: Engine, q: Query, rows: set<Row>): Option<QueryResult> {
    engine.answer(q, Map(PatternsOf(q), (p: Pattern) => MatchingRows(p, rows, engine.valueKey)))
  }

  datatype Sub = Sub(conn: Text, query: Query, deps: seq<Dependency>, lastResult: QueryResult)

  datatype Persisted = Persisted(conn: Text, query: Query, deps: seq<Dependency>, active: bool)

  /** The cached result is the query on the current rows, provided the dependencies cover the query. */
  ghost predicate FreshSub(engine: Engine, s: Sub, rows: set<Row>) {
    Covers(s.deps, s.query, engine.valueKey) ==> Evaluate(engine, s.query, rows) == Some(s.lastResult)
  }

  /** What the subscriber holds is, key for key, the cached result. */
  ghost predicate InStep(engine: Engine, s: Sub, view: set<Value>) {
    KeysOf(view, engine.rowKey) == KeysOf(SetOf(s.lastResult.rows), engine.rowKey)
  }

  type Subs = map<Text, Sub>
  type Views = map<Text, set<Value>>

  /** The state of the fan-out when the current rows are `rows`. */
  ghost predicate LiveState(engine: Engine, connections: set<Text>, subs: Subs, views: Views, rows: set<Row>) {
    views.Keys == subs.Keys &&
    forall id {:trigger subs[id]} :: id in subs ==>
      && subs[id].conn in connections && subs[id].deps == Dependencies(subs[id].query)
      && FreshSub(engine, subs[id], rows) && InStep(engine, subs[id], views[id])
  }

  // ---- publishing -------------------------------------------------------------------

  predicate Affected(s: Sub, connections: set<Text>, changed: seq<Change>) {
    s.conn in connections && Hears(s.deps, changed)
  }

  /** Subscriptions, subscribers' rows, and whether every query re-run so far succeeded. */
  datatype Outcome = Outcome(subs: Subs, views: Views, ok: bool)

  /** One subscription's turn. */
  function Refresh(engine: Engine, o: Outcome, id: Text, connections: set<Text>, changed: seq<Change>, rows: set<Row>): Outcome {
    if !o.ok || id !in o.subs || !Affected(o.subs[id], connections, changed) then o
    else
      var s := o.subs[id];
      match Evaluate(engine, s.query, rows)
      case None => o.(ok := false)
      case Some(result) =>
        var diff := ResultDiff(s.lastResult, result, engine.rowKey);
        var view := if id in o.views then o.views[id] else {};
        Outcome(o.subs[id := s.(lastResult := result)],
                o.views[id := ApplyDiff(view, diff, engine.rowKey)], true)
  }

  function ApplyDiff(view: set<Value>, d: Diff, rowKey: Value -> Text): (r: set<Value>)
    ensures r == ApplyRows(view, d, rowKey)
  {
    (set r | r in view && !HasKey(d.removed, rowKey, rowKey(r))) + (set r | r in d.added)
  }

  function PublishOver(engine: Engine, order: seq<Text>, o: Outcome, connections: set<Text>, changed: seq<Change>, rows: set<Row>): Outcome {
    if order == [] then o
    else
      Refresh(engine, PublishOver(engine, order[..|order| - 1], o, connections, changed, rows), order[|order| - 1],
              connections, changed, rows)
  }

  /** A refreshed subscription is fresh and its subscriber is in step with it. */
  lemma RefreshedSub(engine: Engine, s: Sub, view: set<Value>, result: QueryResult, rows: set<Row>)
    requires InStep(engine, s, view) && Evaluate(engine, s.query, rows) == Some(result)
    ensures var s' := s.(lastResult := result);
            FreshSub(engine, s', rows) &&
            InStep(engine, s', ApplyDiff(view, ResultDiff(s.lastResult, result, engine.rowKey), engine.rowKey))
  {
    DiffRestoresKeys(view, s.lastResult, result, engine.rowKey);
  }

  /** A subscription no change concerns stays fresh. */
  lemma UnaffectedSub(engine: Engine, s: Sub, connections: set<Text>, changed: seq<Change>, before: set<Row>, after: set<Row>)
    requires s.conn in connections && !Affected(s, connections, changed)
    requires FreshSub(engine, s, before) && Announces(changed, before, after)
    ensures FreshSub(engine, s, after)
  {
    if Covers(s.deps, s.query, engine.valueKey) {
      UnheardChangesNothing(s.query, s.deps, changed, before, after, engine.valueKey);
      assert Map(PatternsOf(s.query), (p: Pattern) => MatchingRows(p, before, engine.valueKey))
          == Map(PatternsOf(s.query), (p: Pattern) => MatchingRows(p, after, engine.valueKey));
    }
  }

  /** Where one subscription stands once `done` have had their turn. */
  ghost predicate SubAfter(engine: Engine, o: Outcome, o': Outcome, id: Text, done: set<Text>, connections: set<Text>, changed: seq<Change>, rows: set<Row>)
    requires id in o.subs && id in o.views && id in o'.subs && id in o'.views
  {
    var s, s' := o.subs[id], o'.subs[id];
    s'.conn == s.conn && s'.query == s.query && s'.deps == s.deps && InStep(engine, s', o'.views[id]) &&
    if id in done && Affected(s, connections, changed) then
      o'.ok ==> FreshSub(engine, s', rows)
    else
      s' == s && o'.views[id] == o.views[id]
  }

  ghost predicate AllAfter(engine: Engine, o: Outcome, o': Outcome, done: set<Text>, connections: set<Text>, changed: seq<Change>, rows: set<Row>) {
    && o'.subs.Keys == o.subs.Keys == o.views.Keys == o'.views.Keys
    && forall id {:trigger o'.subs[id]} :: id in o.subs ==> SubAfter(engine, o, o', id, done, connections, changed, rows)
  }

  lemma OneTurn(engine: Engine, o: Outcome, o': Outcome, done: set<Text>, id: Text, connections: set<Text>, changed: seq<Change>, rows: set<Row>)
    requires AllAfter(engine, o, o', done, connections, changed, rows) && id !in done
    ensures AllAfter(engine, o, Refresh(engine, o', id, connections, changed, rows), done + {id}, connections, changed, rows)
  {
    hide FreshSub, InStep, Evaluate, Affected, ApplyDiff, ResultDiff;
    var next := Refresh(engine, o', id, connections, changed, rows);
    forall k | k in o.subs ensures SubAfter(engine, o, next, k, done + {id}, connections, changed, rows) {
      assert SubAfter(engine, o, o', k, done, connections, changed, rows);
      if k == id && o'.ok && Affected(o.subs[id], connections, changed) && Evaluate(engine, o'.subs[id].query, rows).Some? {
        RefreshedSub(engine, o'.subs[id], o'.views[id], Evaluate(engine, o'.subs[id].query, rows).value, rows);
      }
    }
  }

  lemma {:induction false} PublishOverLaws(engine: Engine, order: seq<Text>, o: Outcome, connections: set<Text>, changed: seq<Change>, rows: set<Row>)
    requires NoDup(order) && AllAfter(engine, o, o, {}, connections, changed, rows) && o.ok
    ensures AllAfter(engine, o, PublishOver(engine, order, o, connections, changed, rows), SetOf(order), connections, changed, rows)
  {
    hide AllAfter, Refresh;
    if order == [] {
      assert SetOf(order) == {};
    } else {
      var init, last := order[..|order| - 1], order[|order| - 1];
      SplitLast(order);
      NotYet(order, |order| - 1);
      SetOfAppend(init, last);
      PublishOverLaws(engine, init, o, connections, changed, rows);
      OneTurn(engine, o, PublishOver(engine, init, o, connections, changed, rows), SetOf(init), last, connections, changed, rows);
    }
  }

  lemma NobodyYet(engine: Engine, o: Outcome, connections: set<Text>, changed: seq<Change>, before: set<Row>, after: set<Row>)
    requires LiveState(engine, connections, o.subs, o.views, before)
    ensures AllAfter(engine, o, o, {}, connections, changed, after)
  {
    hide FreshSub, InStep, Affected;
  }

  /** Never stale: a publish that announces what changed takes a live state to a live state. */
  lemma PublishKeepsLive(engine: Engine, order: seq<Text>, o: Outcome, connections: set<Text>, changed: seq<Change>, before: set<Row>, after: set<Row>)
    requires LiveState(engine, connections, o.subs, o.views, before) && o.ok
    requires NoDup(order) && SetOf(order) == o.subs.Keys && Announces(changed, before, after)
    ensures var o' := PublishOver(engine, order, o, connections, changed, after);
            o'.subs.Keys == o.subs.Keys && (o'.ok ==> LiveState(engine, connections, o'.subs, o'.views, after))
  {
    var o' := PublishOver(engine, order, o, connections, changed, after);
    NobodyYet(engine, o, connections, changed, before, after);
    PublishOverLaws(engine, order, o, connections, changed, after);
    hide PublishOver, FreshSub, InStep, Affected, Announces, Dependencies, RowsAt, SetOf;
    if o'.ok {
      forall id | id in o'.subs
        ensures o'.subs[id].conn in connections && o'.subs[id].deps == Dependencies(o'.subs[id].query)
        ensures FreshSub(engine, o'.subs[id], after) && InStep(engine, o'.subs[id], o'.views[id])
      {
        assert SubAfter(engine, o, o', id, SetOf(order), connections, changed, after);
        if !Affected(o.subs[id], connections, changed) {
          UnaffectedSub(engine, o.subs[id], connections, changed, before, after);
        }
      }
    }
  }

  /** No filter of the subscription matches a change. */
  ghost predicate HearsNone(s: Sub, changed: seq<Change>) {
    forall ch, d :: ch in changed && d in s.deps ==> (d.e.Some? && d.e.value != ch.e) || (d.a.Some? && d.a.value != ch.a)
  }

  /** A subscription that no change concerns is left alone, and its subscriber is sent nothing. */
  lemma UnheardStays(engine: Engine, order: seq<Text>, o: Outcome, connections: set<Text>, changed: seq<Change>, before: set<Row>, after: set<Row>, id: Text)
    requires LiveState(engine, connections, o.subs, o.views, before) && o.ok && NoDup(order)
    requires id in o.subs && HearsNone(o.subs[id], changed)
    ensures var o' := PublishOver(engine, order, o, connections, changed, after);
            id in o'.subs && id in o'.views && o'.subs[id] == o.subs[id] && o'.views[id] == o.views[id]
  {
    NobodyYet(engine, o, connections, changed, before, after);
    PublishOverLaws(engine, order, o, connections, changed, after);
    var o' := PublishOver(engine, order, o, connections, changed, after);
    hide PublishOver, FreshSub, InStep, Dependencies;
    assert SubAfter(engine, o, o', id, SetOf(order), connections, changed, after);
    assert !Affected(o.subs[id], connections, changed);
  }

  // ---- the fan-out ----------------------------------------------------------------------

  datatype SubscribeResult = Unbounded | UnknownConnection | QueryFailed | Subscribed(result: QueryResult)

  type StoredSubs = map<Text, Persisted>

  ghost predicate PersistedValid(persisted: StoredSubs) {
    forall id {:trigger persisted[id]} :: id in persisted ==> persisted[id].deps == Dependencies(persisted[id].query)
  }

  /** The stored queries a connection may take up again. */
  function ActiveOf(persisted: StoredSubs, conn: Text): set<Text> {
    set id | id in persisted && persisted[id].conn == conn && persisted[id].active
  }

  lemma ActiveMember(persisted: StoredSubs, conn: Text, id: Text)
    ensures id in ActiveOf(persisted, conn) <==> id in persisted && persisted[id].conn == conn && persisted[id].active
  {
  }

  /** The subscriptions after taking up those of `order`. */
  function HydrateOver(engine: Engine, order: seq<Text>, subs: Subs, persisted: StoredSubs, conn: Text, rows: set<Row>): Subs {
    if order == [] then subs
    else
      var done, id := HydrateOver(engine, order[..|order| - 1], subs, persisted, conn, rows), order[|order| - 1];
      if id !in persisted || Evaluate(engine, persisted[id].query, rows).None? then done
      else
        var p := persisted[id];
        done[id := Sub(conn, p.query, p.deps, Evaluate(engine, p.query, rows).value)]
  }

  /** Subscriptions that are not of a connection. */
  function NotOf(subs: Subs, conn: Text): Subs { map k | k in subs && subs[k].conn != conn :: subs[k] }

  ghost function ViewsOf(views: Views, subs: Subs): Views { map k | k in views && k in subs :: views[k] }

  function ClosedOf(persisted: StoredSubs, conn: Text): StoredSubs {
    map k | k in persisted :: if persisted[k].conn == conn then persisted[k].(active := false) else persisted[k]
  }

  /** The connection's subscriptions are gone; all others are as they were. */
  ghost predicate Dropped(before: Subs, after: Subs, conn: Text) {
    && (forall k :: k in after <==> k in before && before[k].conn != conn)
    && forall k :: k in after && k in before ==> after[k] == before[k]
  }

  /** The connection's stored subscriptions are inactive, and nothing else has changed. */
  ghost predicate Closed(before: StoredSubs, after: StoredSubs, conn: Text) {
    before.Keys == after.Keys && forall k :: k in after && k in before ==>
      after[k] == Persisted(before[k].conn, before[k].query, before[k].deps, before[k].active && before[k].conn != conn)
  }

  /** The hydrated subscriptions are the stored ones with fresh results, for the connection; the rest are as they were. */
  ghost predicate TakenUp(engine: Engine, order: seq<Text>, before: Subs, after: Subs, persisted: StoredSubs, conn: Text, rows: set<Row>) {
    && (forall k :: k !in order ==> (k in after <==> k in before) && (k in after && k in before ==> after[k] == before[k]))
    && (forall k :: k in order ==> k in persisted && k in after && after[k].conn == conn && after[k].query == persisted[k].query &&
                                   after[k].deps == persisted[k].deps && Evaluate(engine, persisted[k].query, rows) == Some(after[k].lastResult))
  }

  lemma TakenUpNext(engine: Engine, order: seq<Text>, id: Text, before: Subs, after: Subs, persisted: StoredSubs, conn: Text, rows: set<Row>)
    requires TakenUp(engine, order, before, after, persisted, conn, rows)
    requires id in persisted && Evaluate(engine, persisted[id].query, rows).Some?
    ensures var p := persisted[id];
            TakenUp(engine, order + [id], before, after[id := Sub(conn, p.query, p.deps, Evaluate(engine, p.query, rows).value)], persisted, conn, rows)
  {
    hide Evaluate;
  }

  lemma {:induction false} HydratedAre(engine: Engine, order: seq<Text>, subs: Subs, persisted: StoredSubs, conn: Text, rows: set<Row>)
    requires forall k :: k in order ==> k in persisted && Evaluate(engine, persisted[k].query, rows).Some?
    ensures TakenUp(engine, order, subs, HydrateOver(engine, order, subs, persisted, conn, rows), persisted, conn, rows)
  {
    hide Evaluate;
    if order != [] {
      var init, id := order[..|order| - 1], order[|order| - 1];
      HydratedAre(engine, init, subs, persisted, conn, rows);
      hide TakenUp;
      assert order == init + [id];
      TakenUpNext(engine, init, id, subs, HydrateOver(engine, init, subs, persisted, conn, rows), persisted, conn, rows);
    }
  }

  lemma DroppedIs(subs: Subs, persisted: StoredSubs, conn: Text)
    ensures Dropped(subs, NotOf(subs, conn), conn) && Closed(persisted, ClosedOf(persisted, conn), conn)
  {
  }

  lemma DropConnection(engine: Engine, connections: set<Text>, subs: Subs, views: Views, conn: Text, rows: set<Row>)
    requires LiveState(engine, connections, subs, views, rows)
    ensures LiveState(engine, connections - {conn}, NotOf(subs, conn), ViewsOf(views, NotOf(subs, conn)), rows)
  {
    hide FreshSub, InStep, Dependencies;
  }

  lemma CloseStored(persisted: StoredSubs, conn: Text)
    requires PersistedValid(persisted)
    ensures PersistedValid(ClosedOf(persisted, conn))
  {
    hide Dependencies;
  }

  lemma DropSubscription(engine: Engine, connections: set<Text>, subs: Subs, views: Views, id: Text, rows: set<Row>)
    requires LiveState(engine, connections, subs, views, rows)
    ensures LiveState(engine, connections, subs - {id}, views - {id}, rows)
  {
    hide FreshSub, InStep, Dependencies;
  }

  lemma AddSubscription(engine: Engine, connections: set<Text>, subs: Subs, views: Views, id: Text, s: Sub, rows: set<Row>)
    requires LiveState(engine, connections, subs, views, rows) && s.conn in connections
    requires s.deps == Dependencies(s.query) && Evaluate(engine, s.query, rows) == Some(s.lastResult)
    ensures LiveState(engine, connections, subs[id := s], views[id := RowSet(s.lastResult.rows)], rows)
  {
    hide FreshSub, InStep, Dependencies, Evaluate, RowSet;
    NewSub(engine, s, rows);
  }

  lemma NewSub(engine: Engine, s: Sub, rows: set<Row>)
    requires Evaluate(engine, s.query, rows) == Some(s.lastResult)
    ensures FreshSub(engine, s, rows) && InStep(engine, s, RowSet(s.lastResult.rows))
  {
  }

  function RowSet(rows: seq<Value>): (r: set<Value>)
    ensures r == SetOf(rows)
  {
    set x | x in rows
  }

  class Fanout {
    const engine: Engine
    var connections: set<Text>
    var subscriptions: Subs
    var persisted: StoredSubs
    /** What each subscriber holds after the messages it was sent. */
    ghost var views: Views

    /** The invariant of every run: no covered subscription is stale, every subscriber is in step. */
    ghost predicate Live(rows: set<Row>)
      reads this
    {
      LiveState(engine, connections, subscriptions, views, rows) && PersistedValid(persisted)
    }

    /** A fan-out starts, or restarts, with what is persisted and nobody connected. */
    constructor (engine: Engine, persisted: StoredSubs)
      requires PersistedValid(persisted)
      ensures this.engine == engine && this.persisted == persisted && connections == {} && subscriptions == map[]
      ensures forall rows :: Live(rows)
    {
      this.engine, this.persisted := engine, persisted;
      connections, subscriptions, views := {}, map[], map[];
    }

    method Connect(id: Text, ghost rows: set<Row>)
      requires Live(rows)
      modifies this`connections
      ensures Live(rows) && connections == old(connections) + {id}
    {
      connections := connections + {id};
    }

    /** Closing a connection drops its subscriptions and closes the stored ones. */
    method Disconnect(id: Text, ghost rows: set<Row>)
      requires Live(rows)
      modifies this
      ensures Live(rows) && connections == old(connections) - {id}
      ensures subscriptions == if id in old(connections) then NotOf(old(subscriptions), id) else old(subscriptions)
      ensures persisted == if id in old(connections) then ClosedOf(old(persisted), id) else old(persisted)
      ensures id in old(connections) ==> Dropped(old(subscriptions), subscriptions, id) && Closed(old(persisted), persisted, id)
    {
      DroppedIs(subscriptions, persisted, id);
      hide LiveState, NotOf, ClosedOf;
      DropConnection(engine, connections, subscriptions, views, id, rows);
      CloseStored(persisted, id);
      if id in connections {
        connections := connections - {id};
        subscriptions, views := NotOf(subscriptions, id), ViewsOf(views, NotOf(subscriptions, id));
        persisted := ClosedOf(persisted, id);
      }
    }

    method Subscribe(conn: Text, query: Query, id: Text, rows: set<Row>) returns (r: SubscribeResult)
      requires Live(rows)
      modifies this
      ensures Live(rows) && connections == old(connections)
      ensures r == Unbounded <==> Dependencies(query) == []
      ensures r == UnknownConnection <==> Dependencies(query) != [] && conn !in connections
      ensures r.Subscribed? <==> Dependencies(query) != [] && conn in connections && Evaluate(engine, query, rows).Some?
      ensures r.Subscribed? ==>
                && Evaluate(engine, query, rows) == Some(r.result)
                && subscriptions == old(subscriptions)[id := Sub(conn, query, Dependencies(query), r.result)]
                && persisted == old(persisted)[id := Persisted(conn, query, Dependencies(query), true)]
                && views == old(views)[id := SetOf(r.result.rows)]
      ensures !r.Subscribed? ==> subscriptions == old(subscriptions) && persisted == old(persisted)
    {
      hide Dependencies, Evaluate, LiveState;
      var deps := Dependencies(query);
      if deps == [] { return Unbounded; }
      if conn !in connections { return UnknownConnection; }
      var result := Evaluate(engine, query, rows);
      if result.None? { return QueryFailed; }
      AddSubscription(engine, connections, subscriptions, views, id, Sub(conn, query, deps, result.value), rows);
      subscriptions := subscriptions[id := Sub(conn, query, deps, result.value)];
      persisted := persisted[id := Persisted(conn, query, deps, true)];
      views := views[id := RowSet(result.value.rows)];
      r := Subscribed(result.value);
    }

    method Unsubscribe(conn: Text, id: Text, ghost rows: set<Row>) returns (removed: bool)
      requires Live(rows)
      modifies this
      ensures Live(rows) && connections == old(connections)
      ensures removed <==> id in old(subscriptions) && old(subscriptions)[id].conn == conn
      ensures subscriptions == if removed then old(subscriptions) - {id} else old(subscriptions)
      ensures persisted == if removed && id in old(persisted)
                           then old(persisted)[id := old(persisted)[id].(active := false)] else old(persisted)
    {
      hide LiveState, Dependencies;
      DropSubscription(engine, connections, subscriptions, views, id, rows);
      removed := id in subscriptions && subscriptions[id].conn == conn;
      if removed {
        subscriptions, views := subscriptions - {id}, views - {id};
        if id in persisted {
          persisted := persisted[id := persisted[id].(active := false)];
        }
      }
    }

    /** Take up a connection's stored queries again, in id order, until one fails. */
    method Hydrate(conn: Text, rows: set<Row>) returns (ok: bool, hydrated: seq<Text>, ghost order: seq<Text>)
      requires Live(rows)
      modifies this`subscriptions, this`views
      ensures Live(rows)
      ensures Ascending(order) && SetOf(order) == ActiveOf(persisted, conn) && hydrated <= order
      ensures subscriptions == HydrateOver(engine, hydrated, old(subscriptions), persisted, conn, rows)
      ensures TakenUp(engine, hydrated, old(subscriptions), subscriptions, persisted, conn, rows)
      ensures ok <==> conn in connections && hydrated == order
      ensures !ok ==> if conn !in connections then hydrated == []
                      else |hydrated| < |order| && order[|hydrated|] in persisted && Evaluate(engine, persisted[order[|hydrated|]].query, rows).None?
    {
      hide LiveState, Ascending, Evaluate, Dependencies, ActiveOf, TakenUp;
      var ids := Listing(ActiveOf(persisted, conn));
      SortedUniqueLaws(ids);
      ids := SortedUnique(ids);
      order := ids;
      ok, hydrated := conn in connections, [];
      var i := 0;
      while i < |ids| && ok
        invariant i <= |ids| && hydrated == ids[..i] && LiveState(engine, connections, subscriptions, views, rows)
        invariant subscriptions == HydrateOver(engine, hydrated, old(subscriptions), persisted, conn, rows)
        invariant forall k :: k in hydrated ==> k in persisted && Evaluate(engine, persisted[k].query, rows).Some?
        invariant ok ==> conn in connections
        invariant !ok ==> if conn !in connections then i == 0
                          else i < |ids| && ids[i] in persisted && Evaluate(engine, persisted[ids[i]].query, rows).None?
        decreases |ids| - i, ok
      {
        var id := ids[i];
        InSetOf(ids, i);
        ActiveMember(persisted, conn, id);
        TakeNext(ids, i);
        InitOfSnoc(hydrated, id);
        var result := Evaluate(engine, persisted[id].query, rows);
        if result.None? {
          ok := false;
        } else {
          var p := persisted[id];
          AddSubscription(engine, connections, subscriptions, views, id, Sub(conn, p.query, p.deps, result.value), rows);
          subscriptions := subscriptions[id := Sub(conn, p.query, p.deps, result.value)];
          views := views[id := RowSet(result.value.rows)];
          hydrated := hydrated + [id];
          i := i + 1;
        }
      }
      TakeAll(ids);
      HydratedAre(engine, hydrated, old(subscriptions), persisted, conn, rows);
    }

    /** Re-run what a change concerns and send each subscriber the difference. */
    method PublishChanges(changed: seq<Change>, rows: set<Row>, ghost before: set<Row>) returns (ok: bool)
      requires Live(before) && Announces(changed, before, rows)
      modifies this`subscriptions, this`views
      ensures ok ==> Live(rows)
      ensures subscriptions.Keys == old(subscriptions).Keys
      ensures exists order: seq<Text> ::
                Ascending(order) && SetOf(order) == old(subscriptions).Keys &&
                PublishOver(engine, order, Outcome(old(subscriptions), old(views), true), connections, changed, rows)
                == Outcome(subscriptions, views, ok)
    {
      hide Refresh, LiveState, Announces, Ascending;
      var order := Listing(subscriptions.Keys);
      SortedUniqueLaws(order);
      order := SortedUnique(order);
      AscendingNoDup(order);
      ghost var start := Outcome(subscriptions, views, true);
      ok := true;
      for i := 0 to |order|
        invariant Outcome(subscriptions, views, ok) == PublishOver(engine, order[..i], start, connections, changed, rows)
      {
        TakeNext(order, i);
        ok := RefreshOne(order[i], ok, changed, rows);
      }
      TakeAll(order);
      PublishKeepsLive(engine, order, start, connections, changed, before, rows);
    }

    /** One subscription's turn in a publish; once a query has failed the rest are left alone. */
    method RefreshOne(id: Text, okSoFar: bool, changed: seq<Change>, rows: set<Row>) returns (ok: bool)
      modifies this`subscriptions, this`views
      ensures Outcome(subscriptions, views, ok)
           == Refresh(engine, Outcome(old(subscriptions), old(views), okSoFar), id, connections, changed, rows)
    {
      ok := okSoFar;
      if ok && id in subscriptions && Affected(subscriptions[id], connections, changed) {
        var s := subscriptions[id];
        var result := Evaluate(engine, s.query, rows);
        if result.None? {
          ok := false;
        } else {
          var diff := ResultDiff(s.lastResult, result.value, engine.rowKey);
          subscriptions := subscriptions[id := s.(lastResult := result.value)];
          views := views[id := ApplyDiff(if id in views then views[id] else {}, diff, engine.rowKey)];
        }
      }
    }
  }

  // ---- write and publish --------------------------------------------------------------------

  /** Rows are determined by the events they stand for. */
  ghost predicate RowPerEvent(rows: set<Row>) {
    forall r, s :: r in rows && s in rows && r.eventId == s.eventId ==> r == s
  }

  lemma FoldRowPerEvent(log1: Log, log2: Log, c: Coord, card: CardinalityOf)
    requires SameContent(SetOf(log1) + SetOf(log2))
    ensures RowPerEvent(FoldRows(log1, c, card) + FoldRows(log2, c, card))
  {
    var all := SetOf(log1) + SetOf(log2);
    forall r | r in FoldRows(log1, c, card) + FoldRows(log2, c, card) ensures RowOfOne(r, all) {
      RowHasEvent(log1, c, card, r);
      RowHasEvent(log2, c, card, r);
    }
    hide FoldRows;
  }

  ghost predicate RowOfOne(r: Row, events: set<Event>) {
    exists x :: x in events && IsAssertWithValue(x) && ProjectionRow(x) == r
  }

  lemma RowHasEvent(log: Log, c: Coord, card: CardinalityOf, r: Row)
    ensures r in FoldRows(log, c, card) ==> exists x :: x in SetOf(log) && IsAssertWithValue(x) && ProjectionRow(x) == r
  {
    if r in FoldRows(log, c, card) {
      var x :| x in log && Survives(x, c, log, card) && ProjectionRow(x) == r;
      SurvivorIsCandidate(x, c, log, card);
      assert x in SetOf(log);
    }
  }

  /** A change summary announces every (e, a) whose rows differ, though it compares event ids only. */
  lemma SummaryAnnounces(changes: seq<Change>, before: set<Row>, after: set<Row>)
    requires Summarises(changes, before, after) && RowPerEvent(before + after)
    ensures Announces(changes, before, after)
  {
    forall e, a | RowsAt(before, e, a) != RowsAt(after, e, a) ensures Lists(changes, e, a) {
      if EventIdsAt(before, e, a) == EventIdsAt(after, e, a) {
        forall r ensures r in RowsAt(before, e, a) <==> r in RowsAt(after, e, a) {
          SameIdSameRow(before, after, e, a, r);
          SameIdSameRow(after, before, e, a, r);
        }
      }
    }
  }

  lemma SameIdSameRow(before: set<Row>, after: set<Row>, e: Text, a: Text, r: Row)
    requires RowPerEvent(before + after) && EventIdsAt(before, e, a) == EventIdsAt(after, e, a)
    ensures r in RowsAt(before, e, a) ==> r in RowsAt(after, e, a)
  {
    if r in RowsAt(before, e, a) {
      assert r.eventId in EventIdsAt(after, e, a);
      var s :| s in after && s.e == e && s.a == a && s.eventId == r.eventId;
      assert r in before + after && s in before + after;
    }
  }

  function ChangeKey(ch: Change): Text { Join(ch.e, ch.a) }

  predicate ChangeLess(x: Change, y: Change) { if x.e == y.e then Less(x.a, y.a) else Less(x.e, y.e) }

  function DedupeChanges(changed: seq<Change>): seq<Change> {
    Ordering.Sort(LastPerKey(changed, ChangeKey), ChangeLess)
  }

  ghost predicate CleanChanges(changed: seq<Change>) {
    forall ch :: ch in changed ==> NoNul(ch.e)
  }

  /** A change that is kept for each one there was. */
  lemma KeptFor(changed: seq<Change>, ch: Change) returns (k: Change)
    requires ch in changed
    ensures k in DedupeChanges(changed) && k in changed && ChangeKey(k) == ChangeKey(ch)
  {
    hide ChangeKey, ChangeLess;
    var kept := LastPerKey(changed, ChangeKey);
    LastPerKeyLaws(changed, ChangeKey);
    Ordering.SameElements(Ordering.Sort(kept, ChangeLess), kept);
    k :| k in kept && ChangeKey(k) == ChangeKey(ch);
  }

  ghost predicate LastChange(changed: seq<Change>, ch: Change) {
    exists i :: 0 <= i < |changed| && changed[i] == ch && forall j :: i < j < |changed| ==> changed[j].e != ch.e || changed[j].a != ch.a
  }

  /** The changes kept are the last of their (e, a), in the order of entity and attribute. */
  lemma DedupedAre(changed: seq<Change>)
    ensures var d := DedupeChanges(changed);
            && (forall ch :: ch in d ==> LastChange(changed, ch))
            && (forall i, j :: 0 <= i < j < |d| ==> Less(d[i].e, d[j].e) || (d[i].e == d[j].e && Less(d[i].a, d[j].a)))
  {
    var kept := LastPerKey(changed, ChangeKey);
    var d := Ordering.Sort(kept, ChangeLess);
    LastPerKeyIsLast(changed, ChangeKey);
    LastPerKeyLaws(changed, ChangeKey);
    Ordering.SameElements(d, kept);
    ChangeWeakOrder();
    Ordering.SortSorted(kept, ChangeLess);
    Ordering.SortApart(kept, ChangeLess, ChangeKey);
    forall ch | ch in d ensures LastChange(changed, ch) {
      assert LastOfKey(changed, ChangeKey, ch);
      var i :| 0 <= i < |changed| && changed[i] == ch && forall j :: i < j < |changed| ==> ChangeKey(changed[j]) != ChangeKey(ch);
    }
    forall i, j | 0 <= i < j < |d| ensures Less(d[i].e, d[j].e) || (d[i].e == d[j].e && Less(d[i].a, d[j].a)) {
      LessConnected(d[i].e, d[j].e);
      LessConnected(d[i].a, d[j].a);
      assert ChangeKey(d[i]) != ChangeKey(d[j]) && !ChangeLess(d[j], d[i]);
    }
  }

  lemma ChangeWeakOrder()
    ensures Ordering.WeakOrder(ChangeLess)
  {
    forall x, y | ChangeLess(x, y) ensures !ChangeLess(y, x) {
      if x.e == y.e { LessAsymmetric(x.a, y.a); } else { LessAsymmetric(x.e, y.e); }
    }
    forall x, y, z | ChangeLess(x, y) ensures ChangeLess(x, z) || ChangeLess(z, y) {
      LessNegTransitive(x.e, y.e, z.e);
      LessNegTransitive(x.a, y.a, z.a);
      LessConnected(x.e, z.e);
      LessConnected(z.e, y.e);
      LessIrreflexive(x.e);
    }
  }

  /** Keeping one change per (e, a) still announces everything. */
  lemma DedupeKeepsAnnouncing(changed: seq<Change>, before: set<Row>, after: set<Row>)
    requires CleanChanges(changed) && Announces(changed, before, after)
    ensures Announces(DedupeChanges(changed), before, after)
  {
    hide DedupeChanges, RowsAt, ChangeKey;
    forall e, a | RowsAt(before, e, a) != RowsAt(after, e, a) ensures Lists(DedupeChanges(changed), e, a) {
      var ch :| ch in changed && ch.e == e && ch.a == a;
      var k := KeptFor(changed, ch);
      SameChangeKey(k, ch);
    }
  }

  lemma SameChangeKey(k: Change, ch: Change)
    requires NoNul(k.e) && NoNul(ch.e) && ChangeKey(k) == ChangeKey(ch)
    ensures k.e == ch.e && k.a == ch.a
  {
    JoinInjective(k.e, k.a, ch.e, ch.a);
  }

  lemma SummaryClean(changes: seq<Change>, before: set<Row>, after: set<Row>)
    requires Summarises(changes, before, after) && Splittable(before) && Splittable(after)
    ensures CleanChanges(changes)
  {
    hide Ascending;
    forall ch | ch in changes ensures NoNul(ch.e) {
      assert RightChange(ch, before, after);
      if EventIdsAt(before, ch.e, ch.a) == {} && EventIdsAt(after, ch.e, ch.a) == {} {
        AscendingUnique(ch.beforeEventIds, ch.afterEventIds);
      } else {
        var id :| id in EventIdsAt(before, ch.e, ch.a) + EventIdsAt(after, ch.e, ch.a);
        var r :| (r in before || r in after) && r.e == ch.e;
      }
    }
  }

  lemma CleanAppend(c1: seq<Change>, c2: seq<Change>)
    requires CleanChanges(c1) && CleanChanges(c2)
    ensures CleanChanges(c1 + c2)
  {
  }

  /** What one reconciled append announces, for the rows of the log before and after it. */
  lemma AppendAnnounces(changes: seq<Change>, log1: Log, log2: Log, c: Coord, card: CardinalityOf)
    requires Summarises(changes, FoldRows(log1, c, card), FoldRows(log2, c, card))
    requires SameContent(SetOf(log1) + SetOf(log2)) && CleanNames(SetOf(log1)) && CleanNames(SetOf(log2))
    ensures Announces(changes, FoldRows(log1, c, card), FoldRows(log2, c, card)) && CleanChanges(changes)
  {
    hide FoldRows, Summarises, CleanNames;
    FoldRowPerEvent(log1, log2, c, card);
    SummaryAnnounces(changes, FoldRows(log1, c, card), FoldRows(log2, c, card));
    FoldRowsProper(log1, c, card);
    FoldRowsProper(log2, c, card);
    SummaryClean(changes, FoldRows(log1, c, card), FoldRows(log2, c, card));
  }

  /** One event of a write: built, or not possible to build (a value that cannot be encoded). */
  datatype Attempt = Built(event: Event) | Unbuildable

  /** The store takes in an event whose id is the address of its body. */
  predicate Taken(x: Attempt, address: Body -> EventId) { x.Built? && x.event.id == address(x.event.body) }

  predicate AllTaken(attempts: seq<Attempt>, address: Body -> EventId) {
    forall i :: 0 <= i < |attempts| ==> Taken(attempts[i], address)
  }

  /** The events ahead of the first that fails. */
  function TakenPrefix(attempts: seq<Attempt>, address: Body -> EventId): (r: seq<Event>)
    ensures |r| <= |attempts|
    ensures |r| == |attempts| <==> AllTaken(attempts, address)
    ensures forall i :: 0 <= i < |r| ==> attempts[i] == Built(r[i]) && Taken(attempts[i], address)
    ensures |r| < |attempts| ==> !Taken(attempts[|r|], address)
  {
    if attempts == [] || !Taken(attempts[0], address) then []
    else [attempts[0].event] + TakenPrefix(attempts[1..], address)
  }

  lemma NothingAnnounced(rows: set<Row>)
    ensures Announces([], rows, rows) && CleanChanges([])
  {
  }

  /** Ids determine content and names stay clean however far the write has come. */
  lemma StillClean(all: set<Event>, part: set<Event>)
    requires SameContent(all) && CleanNames(all) && part <= all
    ensures SameContent(part) && CleanNames(part)
  {
  }

  ghost predicate Addressable(stored: set<Event>, events: seq<Event>) {
    SameContent(stored + SetOf(events)) && CleanNames(stored + SetOf(events))
  }

  /** One more event of a write: what has been announced so far covers it too. */
  lemma AnnounceStep(changed: seq<Change>, more: seq<Change>, start: set<Row>, log1: Log, log2: Log, all: set<Event>, c: Coord, card: CardinalityOf)
    requires SameContent(all) && CleanNames(all) && SetOf(log1) <= all && SetOf(log2) <= all
    requires Announces(changed, start, FoldRows(log1, c, card)) && CleanChanges(changed)
    requires Summarises(more, FoldRows(log1, c, card), FoldRows(log2, c, card))
    ensures Announces(changed + more, start, FoldRows(log2, c, card)) && CleanChanges(changed + more)
  {
    hide FoldRows, Summarises, CleanNames, SameContent, Announces, CleanChanges;
    StillClean(all, SetOf(log1));
    StillClean(all, SetOf(log2));
    StillClean(all, SetOf(log1) + SetOf(log2));
    AppendAnnounces(more, log1, log2, c, card);
    AnnouncesTransitive(changed, more, start, FoldRows(log1, c, card), FoldRows(log2, c, card));
    CleanAppend(changed, more);
  }

  /** The events of one write, appended and reconciled in turn until one fails. */
  method AppendEach(store: EventStore, projection: ProjectionStore, attempts: seq<Attempt>, card: CardinalityOf, c: Coord)
    returns (appended: bool, changed: seq<Change>)
    requires store.Valid() && projection.Valid() && LogIndependent(card)
    requires Addressable(SetOf(EventsOf(store.rows)), TakenPrefix(attempts, store.address))
    requires projection.Rows() == FoldRows(EventsOf(store.rows), c, card)
    modifies store, projection
    ensures store.Valid() && projection.Valid()
    ensures appended <==> AllTaken(attempts, store.address)
    ensures projection.Rows() == FoldRows(EventsOf(store.rows), c, card)
    ensures SetOf(EventsOf(store.rows)) == SetOf(old(EventsOf(store.rows))) + SetOf(TakenPrefix(attempts, store.address))
    ensures Announces(changed, old(projection.Rows()), projection.Rows()) && CleanChanges(changed)
  {
    hide AllCarried, FoldRows, Summarises, CleanNames, SameContent, Announces, CleanChanges, EventsOf, SetOf, LogIndependent;
    ghost var log0 := EventsOf(store.rows);
    ghost var events := TakenPrefix(attempts, store.address);
    ghost var all := SetOf(log0) + SetOf(events);
    NothingAnnounced(projection.Rows());
    NoEvents(events);
    changed := [];
    var i := 0;
    while i < |attempts|
      invariant i <= |events| <= |attempts|
      invariant store.Valid() && projection.Valid()
      invariant projection.Rows() == FoldRows(EventsOf(store.rows), c, card)
      invariant SetOf(EventsOf(store.rows)) == SetOf(log0) + SetOf(events[..i])
      invariant SetOf(EventsOf(store.rows)) <= all
      invariant Announces(changed, old(projection.Rows()), projection.Rows()) && CleanChanges(changed)
    {
      if !Taken(attempts[i], store.address) {
        TakeAll(events);
        return false, changed;
      }
      ghost var log := EventsOf(store.rows);
      InSetOf(events, i);
      TakeNext(events, i);
      SetOfAppend(events[..i], events[i]);
      StillClean(all, SetOf(log) + {events[i]});
      var ok, r := AppendAndReconcile(store, projection, attempts[i].event, None, card, c);
      AnnounceStep(changed, r.changed, old(projection.Rows()), log, EventsOf(store.rows), all, c, card);
      changed := changed + r.changed;
      i := i + 1;
    }
    TakeAll(events);
    return true, changed;
  }

  lemma NoEvents(events: seq<Event>)
    ensures SetOf(events[..0]) == {}
  {
  }

  function Reads(q: Query, rows: set<Row>, valueKey: Value -> Text): seq<set<Row>> {
    Map(PatternsOf(q), (p: Pattern) => MatchingRows(p, rows, valueKey))
  }

  /** The change leaves every row that the query's patterns match. */
  ghost predicate Untouched(q: Query, before: set<Row>, after: set<Row>, valueKey: Value -> Text) {
    forall p :: p in PatternsOf(q) ==> MatchingRows(p, before, valueKey) == MatchingRows(p, after, valueKey)
  }

  lemma UntouchedIff(q: Query, before: set<Row>, after: set<Row>, valueKey: Value -> Text)
    ensures Untouched(q, before, after, valueKey) <==> Reads(q, before, valueKey) == Reads(q, after, valueKey)
  {
    var r1, r2 := Reads(q, before, valueKey), Reads(q, after, valueKey);
    if r1 == r2 {
      forall p | p in PatternsOf(q) ensures MatchingRows(p, before, valueKey) == MatchingRows(p, after, valueKey) {
        var i :| 0 <= i < |PatternsOf(q)| && PatternsOf(q)[i] == p;
        assert r1[i] == r2[i];
      }
    }
    if Untouched(q, before, after, valueKey) {
      forall i | 0 <= i < |r1| ensures r1[i] == r2[i] {
        assert PatternsOf(q)[i] in PatternsOf(q);
      }
    }
  }

  /** The covered subscriptions, told from their dependencies, whose patterns the change leaves alone. */
  ghost predicate CoveredUntouched(subs: Subs, before: set<Row>, after: set<Row>, valueKey: Value -> Text) {
    forall id {:trigger subs[id]} :: id in subs && Covers(subs[id].deps, subs[id].query, valueKey) ==>
      Untouched(subs[id].query, before, after, valueKey)
  }

  lemma UntouchedStaysLive(engine: Engine, connections: set<Text>, subs: Subs, views: Views, before: set<Row>, after: set<Row>)
    requires CoveredUntouched(subs, before, after, engine.valueKey) && LiveState(engine, connections, subs, views, before)
    ensures LiveState(engine, connections, subs, views, after)
  {
    forall id | id in subs ensures FreshSub(engine, subs[id], after) {
      assert FreshSub(engine, subs[id], before);
      UntouchedIff(subs[id].query, before, after, engine.valueKey);
    }
    hide FreshSub;
  }

  /**
   * Write and publish: the events of a write (one for an assert or a lifecycle event, several for a
   * submitted collection) are appended and reconciled in turn, and what changed is published once. If
   * every event is taken in and no query fails, every covered subscription holds its query on the new
   * rows. A failing event ends the write where it stands and nothing is published: then nothing is stale
   * provided the stored events change no row that a covered subscription reads.
   */
  method WriteAndPublish(store: EventStore, projection: ProjectionStore, fanout: Fanout, attempts: seq<Attempt>,
                         card: CardinalityOf, c: Coord)
    returns (appended: bool, ok: bool)
    requires store.Valid() && projection.Valid() && LogIndependent(card)
    requires Addressable(SetOf(EventsOf(store.rows)), TakenPrefix(attempts, store.address))
    requires projection.Rows() == FoldRows(EventsOf(store.rows), c, card) && fanout.Live(projection.Rows())
    modifies store, projection, fanout
    ensures store.Valid() && projection.Valid()
    ensures appended <==> AllTaken(attempts, store.address)
    ensures SetOf(EventsOf(store.rows)) == SetOf(old(EventsOf(store.rows))) + SetOf(TakenPrefix(attempts, store.address))
    ensures projection.Rows() == FoldRows(EventsOf(store.rows), c, card)
    ensures appended && ok ==> fanout.Live(projection.Rows())
    ensures !appended ==> !ok && unchanged(fanout)
    ensures !appended && CoveredUntouched(fanout.subscriptions, old(projection.Rows()), projection.Rows(), fanout.engine.valueKey) ==>
              fanout.Live(projection.Rows())
  {
    hide FoldRows, Addressable, Announces, CleanChanges, EventsOf, SetOf, LogIndependent, LiveState, DedupeChanges, PublishOver, CoveredUntouched;
    ghost var before := projection.Rows();
    var changed;
    appended, changed := AppendEach(store, projection, attempts, card, c);
    if !appended {
      if CoveredUntouched(fanout.subscriptions, before, projection.Rows(), fanout.engine.valueKey) {
        UntouchedStaysLive(fanout.engine, fanout.connections, fanout.subscriptions, fanout.views, before, projection.Rows());
      }
      return false, false;
    }
    DedupeKeepsAnnouncing(changed, before, projection.Rows());
    ok := fanout.PublishChanges(DedupeChanges(changed), projection.table.Values, before);
  }
}
