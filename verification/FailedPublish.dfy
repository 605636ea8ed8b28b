/** A publish that ends at a failing query: which subscriptions are then stale. */
module FailedPublish {
  import opened Seqs
  import opened Text
  import opened Core
  import opened Projection
  import opened SqliteCurrent
  import opened LiveDependencies
  import opened LiveQuery

  /** The subscription is re-run and its query fails. */
  predicate Fails(engine: Engine, o: Outcome, id: Text, connections: set<Text>, changed: seq<Change>, rows: set<Row>) {
    id in o.subs && Affected(o.subs[id], connections, changed) && Evaluate(engine, o.subs[id].query, rows).None?
  }

  /** The place of the first that fails, or the end. */
  function StopsAt(engine: Engine, order: seq<Text>, o: Outcome, connections: set<Text>, changed: seq<Change>, rows: set<Row>): (k: nat)
    ensures k <= |order|
    ensures forall i :: 0 <= i < k ==> !Fails(engine, o, order[i], connections, changed, rows)
    ensures k < |order| ==> Fails(engine, o, order[k], connections, changed, rows)
  {
    if order == [] then 0
    else
      var n := |order| - 1;
      var k := StopsAt(engine, order[..n], o, connections, changed, rows);
      if k < n || Fails(engine, o, order[n], connections, changed, rows) then k else |order|
  }

  /** A publish is what it was up to the first that fails. */
  lemma {:induction false} UpToFailing(engine: Engine, order: seq<Text>, o: Outcome, connections: set<Text>, changed: seq<Change>, rows: set<Row>)
    requires NoDup(order) && AllAfter(engine, o, o, {}, connections, changed, rows) && o.ok
    ensures var k := StopsAt(engine, order, o, connections, changed, rows);
            var part := PublishOver(engine, order[..k], o, connections, changed, rows);
            && part.ok && PublishOver(engine, order, o, connections, changed, rows) == part.(ok := k == |order|)
  {
    hide AllAfter, Affected, Evaluate, Refresh;
    if order != [] {
      var n := |order| - 1;
      var init, id := order[..n], order[n];
      var k := StopsAt(engine, order, o, connections, changed, rows);
      UpToFailing(engine, init, o, connections, changed, rows);
      NotYet(order, n);
      var before := PublishOver(engine, init, o, connections, changed, rows);
      PublishOverLaws(engine, init, o, connections, changed, rows);
      TurnOf(engine, o, before, SetOf(init), id, connections, changed, rows);
      TakeAll(order);
      TakeAll(init);
      assert k < n ==> init[..k] == order[..k];
    }
  }

  lemma TurnOf(engine: Engine, o: Outcome, o': Outcome, done: set<Text>, id: Text, connections: set<Text>, changed: seq<Change>, rows: set<Row>)
    requires AllAfter(engine, o, o', done, connections, changed, rows) && id !in done
    ensures var next := Refresh(engine, o', id, connections, changed, rows);
            && (!o'.ok ==> next == o') && (o'.ok ==> (next.ok <==> !Fails(engine, o, id, connections, changed, rows)))
            && (o'.ok && !next.ok ==> next == o'.(ok := false))
  {
    hide FreshSub, InStep, Evaluate, Affected, ApplyDiff, ResultDiff;
    if id in o.subs { assert SubAfter(engine, o, o', id, done, connections, changed, rows); }
  }

  /**
   * After a publish, complete or not, nothing is stale if and only if each covered subscription that was
   * affected and not reached has the result it had: those from the first failing one on, in id order.
   */
  lemma PublishLiveIff(engine: Engine, order: seq<Text>, o: Outcome, connections: set<Text>, changed: seq<Change>, before: set<Row>, after: set<Row>)
    requires LiveState(engine, connections, o.subs, o.views, before) && o.ok
    requires NoDup(order) && SetOf(order) == o.subs.Keys && Announces(changed, before, after)
    ensures var o' := PublishOver(engine, order, o, connections, changed, after);
            var k := StopsAt(engine, order, o, connections, changed, after);
            && (o'.ok <==> k == |order|)
            && (LiveState(engine, connections, o'.subs, o'.views, after) <==>
                  forall i :: k <= i < |order| ==> ResultStays(engine, o, order[i], connections, changed, before, after))
  {
    var o' := PublishOver(engine, order, o, connections, changed, after);
    var k := StopsAt(engine, order, o, connections, changed, after);
    hide *;
    forall id | id in o.subs ensures StandsAfter(engine, o, o', id, order[..k], connections, changed, before, after) {
      WhereItStands(engine, order, o, id, connections, changed, before, after);
    }
    NobodyYet(engine, o, connections, changed, before, after);
    UpToFailing(engine, order, o, connections, changed, after);
    AllAfterKeys(engine, o, o', SetOf(order), connections, changed, after) by { PublishOverLaws(engine, order, o, connections, changed, after); }
    InPrefix(order, k);
    LiveFromEach(engine, order, o, o', k, connections, changed, before, after);
  }

  lemma LiveFromEach(engine: Engine, order: seq<Text>, o: Outcome, o': Outcome, k: nat, connections: set<Text>,
                     changed: seq<Change>, before: set<Row>, after: set<Row>)
    requires LiveState(engine, connections, o.subs, o.views, before)
    requires NoDup(order) && SetOf(order) == o.subs.Keys && k <= |order| && o'.subs.Keys == o.subs.Keys == o'.views.Keys
    requires forall id :: id in o.subs ==> StandsAfter(engine, o, o', id, order[..k], connections, changed, before, after)
    ensures LiveState(engine, connections, o'.subs, o'.views, after) <==>
              forall i :: k <= i < |order| ==> ResultStays(engine, o, order[i], connections, changed, before, after)
  {
    hide FreshSub, InStep, Affected, Dependencies, Evaluate, ResultStays;
    InPrefix(order, k);
    forall id ensures id in o.subs <==> id in order { assert id in SetOf(order) <==> id in o.subs; }
    forall i | 0 <= i < |order| ensures order[i] in o.subs { assert order[i] in order; }
    if forall i :: k <= i < |order| ==> ResultStays(engine, o, order[i], connections, changed, before, after) {
      forall id | id in o.subs ensures FreshSub(engine, o'.subs[id], after) {
        assert StandsAfter(engine, o, o', id, order[..k], connections, changed, before, after);
        var i :| 0 <= i < |order| && order[i] == id;
      }
    }
  }

  lemma InPrefix(order: seq<Text>, k: nat)
    requires NoDup(order) && k <= |order|
    ensures forall i :: 0 <= i < |order| ==> (order[i] in order[..k] <==> i < k)
  {
    assert forall i :: 0 <= i < k ==> order[..k][i] == order[i];
  }

  /** Where a subscription stands after a publish that reached `reached`. */
  ghost predicate StandsAfter(engine: Engine, o: Outcome, o': Outcome, id: Text, reached: seq<Text>, connections: set<Text>,
                              changed: seq<Change>, before: set<Row>, after: set<Row>)
    requires id in o.subs
  {
    && id in o'.subs && id in o'.views && InStep(engine, o'.subs[id], o'.views[id])
    && o'.subs[id].conn == o.subs[id].conn && o'.subs[id].deps == o.subs[id].deps && o'.subs[id].query == o.subs[id].query
    && (FreshSub(engine, o'.subs[id], after) <==> id in reached || ResultStays(engine, o, id, connections, changed, before, after))
  }

  lemma WhereItStands(engine: Engine, order: seq<Text>, o: Outcome, id: Text, connections: set<Text>, changed: seq<Change>, before: set<Row>, after: set<Row>)
    requires LiveState(engine, connections, o.subs, o.views, before) && o.ok
    requires NoDup(order) && SetOf(order) == o.subs.Keys && Announces(changed, before, after) && id in o.subs
    ensures var k := StopsAt(engine, order, o, connections, changed, after);
            StandsAfter(engine, o, PublishOver(engine, order, o, connections, changed, after), id, order[..k], connections, changed, before, after)
  {
    hide *;
    var o' := PublishOver(engine, order, o, connections, changed, after);
    var k := StopsAt(engine, order, o, connections, changed, after);
    var part := PublishOver(engine, order[..k], o, connections, changed, after);
    NobodyYet(engine, o, connections, changed, before, after);
    UpToFailing(engine, order, o, connections, changed, after);
    NoDupPrefix(order, k);
    PublishOverLaws(engine, order[..k], o, connections, changed, after);
    AllAfterAt(engine, o, part, SetOf(order[..k]), id, connections, changed, after);
    WhoIsFresh(engine, o, part, o', id, order[..k], connections, changed, before, after);
  }

  lemma AllAfterKeys(engine: Engine, o: Outcome, o': Outcome, done: set<Text>, connections: set<Text>, changed: seq<Change>, rows: set<Row>)
    requires AllAfter(engine, o, o', done, connections, changed, rows)
    ensures o'.subs.Keys == o.subs.Keys == o'.views.Keys
  {
  }

  lemma NoDupPrefix(order: seq<Text>, k: nat)
    requires NoDup(order) && k <= |order|
    ensures NoDup(order[..k])
  {
  }

  lemma AllAfterAt(engine: Engine, o: Outcome, o': Outcome, done: set<Text>, id: Text, connections: set<Text>, changed: seq<Change>, rows: set<Row>)
    requires AllAfter(engine, o, o', done, connections, changed, rows) && id in o.subs
    ensures id in o.views && id in o'.subs && id in o'.views && SubAfter(engine, o, o', id, done, connections, changed, rows)
  {
  }

  /** A covered subscription that the change affects gets the same result from the new rows. */
  ghost predicate ResultStays(engine: Engine, o: Outcome, id: Text, connections: set<Text>, changed: seq<Change>, before: set<Row>, after: set<Row>) {
    id in o.subs && Affected(o.subs[id], connections, changed) && Covers(o.subs[id].deps, o.subs[id].query, engine.valueKey) ==>
      Evaluate(engine, o.subs[id].query, after) == Evaluate(engine, o.subs[id].query, before)
  }

  lemma WhoIsFresh(engine: Engine, o: Outcome, part: Outcome, o': Outcome, id: Text, reached: seq<Text>, connections: set<Text>,
                   changed: seq<Change>, before: set<Row>, after: set<Row>)
    requires LiveState(engine, connections, o.subs, o.views, before) && Announces(changed, before, after)
    requires id in o.subs && id in o.views && id in part.subs && id in part.views && part.ok && o' == part.(ok := o'.ok)
    requires SubAfter(engine, o, part, id, SetOf(reached), connections, changed, after)
    ensures StandsAfter(engine, o, o', id, reached, connections, changed, before, after)
  {
    hide Evaluate, Affected, Announces, Dependencies, InStep;
    if !Affected(o.subs[id], connections, changed) { UnaffectedSub(engine, o.subs[id], connections, changed, before, after); }
  }
}
