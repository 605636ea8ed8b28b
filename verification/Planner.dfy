/**
 * The compliance planner: a hand-written evaluator of the requirement rules, and the facts it keeps on
 * a worker. It plans what the printed rules mean, and materialising twice changes nothing.
 */
module Planner {
  import opened Seqs
  import opened Text
  import opened Core
  import opened Rules
  import Canonical
  import Ordering

  // ---- current facts --------------------------------------------------------------------

  /** The current facts, in the order they are listed. */
  type Db = seq<Fact>

  function AttrOf(e: Text, a: Text): Fact -> bool { (f: Fact) => f.e == e && f.a == a }

  /** The values of an entity's attribute. */
  function ValuesOf(db: Db, e: Text, a: Text): seq<Value> { Map(Filter(db, AttrOf(e, a)), (f: Fact) => f.v) }

  function FirstString(vs: seq<Value>): Option<Text> {
    if vs == [] then None else if vs[0].Str? then Some(vs[0].s) else FirstString(vs[1..])
  }

  /** The first value that is a string, if any is. */
  lemma {:induction false} FirstStringIsFirst(vs: seq<Value>)
    ensures match FirstString(vs)
            case None => forall v :: v in vs ==> !v.Str?
            case Some(s) => exists k :: 0 <= k < |vs| && vs[k] == Str(s) && forall j :: 0 <= j < k ==> !vs[j].Str?
  {
    if vs != [] {
      FirstStringIsFirst(vs[1..]);
      if vs[0].Str? {
        assert vs[0] == Str(vs[0].s);
      } else if FirstString(vs).Some? {
        var s, rest := FirstString(vs).value, vs[1..];
        var k :| 0 <= k < |rest| && rest[k] == Str(s) && forall j :: 0 <= j < k ==> !rest[j].Str?;
        assert vs[k + 1] == Str(s);
        forall j | 0 <= j < k + 1 ensures !vs[j].Str? { if j > 0 { assert vs[j] == rest[j - 1]; } }
      }
    }
  }

  function OfWorker(worker: Text): Fact -> bool { (f: Fact) => f.a == WORKER && f.v == Str(worker) }

  function PlacementIds(db: Db, worker: Text): seq<Text> {
    SortedUnique(Map(Filter(db, OfWorker(worker)), (f: Fact) => f.e))
  }

  lemma PlacementIdsMember(db: Db, worker: Text, p: Text)
    ensures p in PlacementIds(db, worker) <==> Fact(p, WORKER, Str(worker)) in db
  {
    var found := Filter(db, OfWorker(worker));
    var es := Map(found, (f: Fact) => f.e);
    SortedUniqueLaws(es);
    FilterMembers(db, OfWorker(worker));
    assert p in PlacementIds(db, worker) <==> p in SetOf(PlacementIds(db, worker));
    assert p in es <==> p in SetOf(es);
    if Fact(p, WORKER, Str(worker)) in db {
      var i :| 0 <= i < |found| && found[i] == Fact(p, WORKER, Str(worker));
      assert es[i] == p;
    }
    if p in es {
      var i :| 0 <= i < |es| && es[i] == p;
      assert found[i] in found;
    }
  }

  /** The scope a placement puts for a requirement, if the guard lets it through. */
  function ScopeFor(db: Db, p: Text, req: Spec): Option<Text> {
    var scope := FirstString(ValuesOf(db, p, req.scopeAttr));
    if scope.None? then None
    else if req.guard.Some? && Fact(scope.value, req.guard.value.attr, req.guard.value.value) !in db then None
    else scope
  }

  // ---- building the plan ------------------------------------------------------------------

  datatype Item = Item(form: Text, scope: Text, reuse: bool, placements: seq<Text>)

  type Items = map<Text, Item>

  function Submitted(db: Db, worker: Text, form: Text, scope: Text): bool { Fact(worker, SUBMITTED + form, Str(scope)) in db }

  /** One placement and one requirement. */
  function PlanOne(db: Db, worker: Text, items: Items, p: Text, req: Spec): Items {
    var scope := ScopeFor(db, p, req);
    if scope.None? then items
    else
      var key := Join(req.form, scope.value);
      var before := if key in items then items[key].placements else [];
      items[key := Item(req.form, scope.value, Submitted(db, worker, req.form, scope.value), SortedUnique(before + [p]))]
  }

  /** A requirement looked at for a placement. */
  datatype Visit = Visit(p: Text, req: Spec)

  predicate Puts(db: Db, visit: Visit, form: Text, scope: Text) {
    visit.req.form == form && ScopeFor(db, visit.p, visit.req) == Some(scope)
  }

  /** Some visit at the placement puts the item. */
  ghost predicate PutBy(db: Db, done: set<Visit>, p: Text, form: Text, scope: Text) {
    exists req :: Visit(p, req) in done && Puts(db, Visit(p, req), form, scope)
  }

  lemma PutByOneMore(db: Db, done: set<Visit>, visit: Visit, p: Text, form: Text, scope: Text)
    ensures PutBy(db, done + {visit}, p, form, scope) <==>
              PutBy(db, done, p, form, scope) || (visit.p == p && Puts(db, visit, form, scope))
  {
    hide Puts;
    if visit.p == p && Puts(db, visit, form, scope) { assert Visit(p, visit.req) in done + {visit}; }
    if PutBy(db, done, p, form, scope) {
      var req :| Visit(p, req) in done && Puts(db, Visit(p, req), form, scope);
      assert Visit(p, req) in done + {visit};
    }
  }

  ghost predicate ItemOk(db: Db, worker: Text, key: Text, item: Item, done: set<Visit>) {
    && key == Join(item.form, item.scope) && NoNul(item.form) && item.reuse == Submitted(db, worker, item.form, item.scope)
    && item.placements != [] && forall p :: p in item.placements <==> PutBy(db, done, p, item.form, item.scope)
  }

  /** The items are those the visits so far put, each with the placements that put it. */
  ghost predicate ItemsOf(db: Db, worker: Text, items: Items, done: set<Visit>) {
    && (forall key {:trigger items[key]} :: key in items ==> ItemOk(db, worker, key, items[key], done))
    && (forall p, form, scope :: PutBy(db, done, p, form, scope) ==> Join(form, scope) in items)
  }

  function PlacementsIn(items: Items, key: Text): seq<Text> { if key in items then items[key].placements else [] }

  lemma OneMorePlacement(before: seq<Text>, p: Text)
    ensures SortedUnique(before + [p]) != [] && forall q :: q in SortedUnique(before + [p]) <==> q in before || q == p
  {
    var s := SortedUnique(before + [p]);
    SortedUniqueLaws(before + [p]);
    assert forall q :: q in s <==> q in SetOf(s);
    assert forall q :: q in before + [p] <==> q in SetOf(before + [p]);
    assert (before + [p])[|before|] == p && p in s;
  }

  /** The item that a visit puts. */
  lemma PlanOneItem(db: Db, worker: Text, items: Items, done: set<Visit>, visit: Visit, scope: Text)
    requires ItemsOf(db, worker, items, done) && NoNul(visit.req.form) && Puts(db, visit, visit.req.form, scope)
    ensures var form, key := visit.req.form, Join(visit.req.form, scope);
            ItemOk(db, worker, key,
                   Item(form, scope, Submitted(db, worker, form, scope), SortedUnique(PlacementsIn(items, key) + [visit.p])), done + {visit})
  {
    hide Puts, PutBy, Submitted, SortedUnique;
    var form, key := visit.req.form, Join(visit.req.form, scope);
    var before := PlacementsIn(items, key);
    OneMorePlacement(before, visit.p);
    if key in items {
      assert ItemOk(db, worker, key, items[key], done);
      JoinInjective(items[key].form, items[key].scope, form, scope);
    }
    forall q ensures q in SortedUnique(before + [visit.p]) <==> PutBy(db, done + {visit}, q, form, scope) {
      PutByOneMore(db, done, visit, q, form, scope);
      assert PutBy(db, done, q, form, scope) ==> Join(form, scope) in items;
    }
  }

  /** An item that a visit does not put. */
  lemma OtherItemKeeps(db: Db, worker: Text, key: Text, item: Item, done: set<Visit>, visit: Visit)
    requires ItemOk(db, worker, key, item, done) && !Puts(db, visit, item.form, item.scope)
    ensures ItemOk(db, worker, key, item, done + {visit})
  {
    hide Puts, PutBy, Submitted;
    forall q ensures q in item.placements <==> PutBy(db, done + {visit}, q, item.form, item.scope) {
      PutByOneMore(db, done, visit, q, item.form, item.scope);
    }
  }

  lemma PlanOneKeeps(db: Db, worker: Text, items: Items, done: set<Visit>, visit: Visit)
    requires ItemsOf(db, worker, items, done) && NoNul(visit.req.form)
    ensures ItemsOf(db, worker, PlanOne(db, worker, items, visit.p, visit.req), done + {visit})
  {
    hide Submitted, SortedUnique, ScopeFor, ItemOk, PutBy;
    var items', scope := PlanOne(db, worker, items, visit.p, visit.req), ScopeFor(db, visit.p, visit.req);
    if scope.Some? { PlanOneItem(db, worker, items, done, visit, scope.value); }
    forall key | key in items' ensures ItemOk(db, worker, key, items'[key], done + {visit}) {
      if key in items {
        assert ItemOk(db, worker, key, items[key], done);
        ItemKeyIs(db, worker, key, items[key], done);
        if scope.None? || key != Join(visit.req.form, scope.value) {
          OtherItemKeeps(db, worker, key, items[key], done, visit);
        }
      }
    }
    forall p, form, s | PutBy(db, done + {visit}, p, form, s) ensures Join(form, s) in items' {
      PutByOneMore(db, done, visit, p, form, s);
    }
  }

  lemma ItemKeyIs(db: Db, worker: Text, key: Text, item: Item, done: set<Visit>)
    requires ItemOk(db, worker, key, item, done)
    ensures key == Join(item.form, item.scope) && NoNul(item.form) && item.reuse == Submitted(db, worker, item.form, item.scope)
  {
  }

  /** Every requirement at one placement. */
  method PlanPlacement(db: Db, worker: Text, p: Text, reqs: seq<Spec>, before: Items, ghost done: set<Visit>)
    returns (items: Items, ghost seen: set<Visit>)
    requires ItemsOf(db, worker, before, done) && forall r :: r in reqs ==> NoNul(r.form)
    ensures ItemsOf(db, worker, items, seen) && seen == done + set r | r in reqs :: Visit(p, r)
  {
    hide ItemsOf, PlanOne;
    items, seen := before, done;
    for i := 0 to |reqs|
      invariant ItemsOf(db, worker, items, seen) && seen == done + set r | r in reqs[..i] :: Visit(p, r)
    {
      assert reqs[i] in reqs;
      PlanOneKeeps(db, worker, items, seen, Visit(p, reqs[i]));
      NextVisit(p, reqs, i);
      items := PlanOne(db, worker, items, p, reqs[i]);
      seen := seen + {Visit(p, reqs[i])};
    }
    TakeAll(reqs);
  }

  lemma NextVisit(p: Text, reqs: seq<Spec>, i: nat)
    requires i < |reqs|
    ensures (set r | r in reqs[..i + 1] :: Visit(p, r)) == (set r | r in reqs[..i] :: Visit(p, r)) + {Visit(p, reqs[i])}
  {
    TakeNext(reqs, i);
  }

  predicate IsPlacement(db: Db, p: Text) { Fact(p, TYPE, Str(PLACEMENT)) in db }

  ghost function VisitsOf(db: Db, ids: seq<Text>, reqs: seq<Spec>): set<Visit> {
    set p, r | p in ids && IsPlacement(db, p) && r in reqs :: Visit(p, r)
  }

  method BuildItems(db: Db, worker: Text, reqs: seq<Spec>) returns (items: Items)
    requires forall r :: r in reqs ==> NoNul(r.form)
    ensures ItemsOf(db, worker, items, VisitsOf(db, PlacementIds(db, worker), reqs))
  {
    hide ItemsOf, PlacementIds;
    var ids := PlacementIds(db, worker);
    items := map[];
    ghost var seen: set<Visit> := {};
    NoItems(db, worker);
    for i := 0 to |ids|
      invariant ItemsOf(db, worker, items, seen) && seen == VisitsOf(db, ids[..i], reqs)
    {
      NextPlacement(db, ids, reqs, i);
      if IsPlacement(db, ids[i]) {
        items, seen := PlanPlacement(db, worker, ids[i], reqs, items, seen);
      }
    }
    TakeAll(ids);
  }

  lemma NoItems(db: Db, worker: Text)
    ensures ItemsOf(db, worker, map[], {})
  {
  }

  lemma NextPlacement(db: Db, ids: seq<Text>, reqs: seq<Spec>, i: nat)
    requires i < |ids|
    ensures VisitsOf(db, ids[..i + 1], reqs)
         == VisitsOf(db, ids[..i], reqs) + (if IsPlacement(db, ids[i]) then set r | r in reqs :: Visit(ids[i], r) else {})
  {
    TakeNext(ids, i);
  }

  // ---- the facts a plan calls for -------------------------------------------------------------

  datatype Desired = Desired(a: Text, value: Text)

  /** What the planner wants of a worker, told without its maps. */
  ghost predicate Wanted(db: Db, worker: Text, reqs: seq<Spec>, d: Desired) {
    exists p, req :: Wants(db, worker, reqs, d, p, req)
  }

  ghost predicate Wants(db: Db, worker: Text, reqs: seq<Spec>, d: Desired, p: Text, req: Spec) {
    && req in reqs && Fact(p, WORKER, Str(worker)) in db && IsPlacement(db, p) && ScopeFor(db, p, req) == Some(d.value)
    && (d.a == REQUIRES + req.form || (d.a == TASK + req.form && !Submitted(db, worker, req.form, d.value)))
  }

  function DesiredOf(item: Item): seq<Desired> {
    [Desired(REQUIRES + item.form, item.scope)] + (if item.reuse then [] else [Desired(TASK + item.form, item.scope)])
  }

  /** The text of a string in JSON. */
  function JsonString(s: Text): Text { Canonical.QuoteThen(s, []) }

  function DesiredKey(d: Desired): Text { Join(d.a, JsonString(d.value)) }

  predicate DesiredLess(x: Desired, y: Desired) { Less(DesiredKey(x), DesiredKey(y)) }

  lemma DesiredKeyInjective(x: Desired, y: Desired)
    requires NoNul(x.a) && NoNul(y.a) && DesiredKey(x) == DesiredKey(y)
    ensures x == y
  {
    JoinInjective(x.a, JsonString(x.value), y.a, JsonString(y.value));
    Canonical.QuoteReadable(x.value, [], y.value, []);
  }

  /** Collected by key and sorted; no fact is lost, keys telling facts apart. */
  method DesiredComplianceFacts(items: Items) returns (desired: seq<Desired>)
    requires forall key :: key in items ==> NoNul(items[key].form)
    ensures forall d :: d in desired <==> exists key :: key in items && d in DesiredOf(items[key])
    ensures forall i, j :: 0 <= i < j < |desired| ==> Less(DesiredKey(desired[i]), DesiredKey(desired[j]))
  {
    hide DesiredOf, DesiredKey;
    var keys := Listing(items.Keys);
    var all: seq<Desired> := [];
    for i := 0 to |keys|
      invariant forall d :: d in all <==> exists k :: k in keys[..i] && k in items && d in DesiredOf(items[k])
    {
      InSetOf(keys, i);
      TakeNext(keys, i);
      all := all + DesiredOf(items[keys[i]]);
    }
    TakeAll(keys);
    assert forall k :: k in items <==> k in SetOf(keys);
    DesiredClean(items, all);
    KeepAll(all);
    desired := Ordering.Sort(LastPerKey(all, DesiredKey), DesiredLess);
    Ordering.SameElements(desired, LastPerKey(all, DesiredKey));
    DesiredInOrder(all, desired);
  }

  lemma DesiredInOrder(all: seq<Desired>, desired: seq<Desired>)
    requires desired == Ordering.Sort(LastPerKey(all, DesiredKey), DesiredLess)
    ensures forall i, j :: 0 <= i < j < |desired| ==> Less(DesiredKey(desired[i]), DesiredKey(desired[j]))
  {
    var kept := LastPerKey(all, DesiredKey);
    LastPerKeyIsLast(all, DesiredKey);
    hide DesiredKey;
    forall x, y | DesiredLess(x, y) ensures !DesiredLess(y, x) { LessAsymmetric(DesiredKey(x), DesiredKey(y)); }
    forall x, y, z | DesiredLess(x, y) ensures DesiredLess(x, z) || DesiredLess(z, y) { LessNegTransitive(DesiredKey(x), DesiredKey(y), DesiredKey(z)); }
    Ordering.SortSorted(kept, DesiredLess);
    Ordering.SortApart(kept, DesiredLess, DesiredKey);
    forall i, j | 0 <= i < j < |desired| ensures Less(DesiredKey(desired[i]), DesiredKey(desired[j])) {
      LessConnected(DesiredKey(desired[i]), DesiredKey(desired[j]));
      assert DesiredKey(desired[i]) != DesiredKey(desired[j]) && !DesiredLess(desired[j], desired[i]);
    }
  }

  lemma DesiredClean(items: Items, all: seq<Desired>)
    requires forall key :: key in items ==> NoNul(items[key].form)
    requires forall d :: d in all ==> exists key :: key in items && d in DesiredOf(items[key])
    ensures forall d :: d in all ==> NoNul(d.a)
  {
    assert NoNul(REQUIRES) && NoNul(TASK);
    forall d | d in all ensures NoNul(d.a) {
      var key :| key in items && d in DesiredOf(items[key]);
    }
  }

  lemma KeepAll(all: seq<Desired>)
    requires forall d :: d in all ==> NoNul(d.a)
    ensures forall d :: d in LastPerKey(all, DesiredKey) <==> d in all
  {
    hide DesiredKey;
    LastPerKeyLaws(all, DesiredKey);
    forall d | d in all ensures d in LastPerKey(all, DesiredKey) {
      var k :| k in LastPerKey(all, DesiredKey) && DesiredKey(k) == DesiredKey(d);
      DesiredKeyInjective(k, d);
    }
  }

  /** The plan's facts are exactly the wanted ones. */
  lemma ItemsAreWanted(db: Db, worker: Text, reqs: seq<Spec>, items: Items, d: Desired)
    requires ItemsOf(db, worker, items, VisitsOf(db, PlacementIds(db, worker), reqs))
    requires forall r :: r in reqs ==> NoNul(r.form)
    ensures (exists key :: key in items && d in DesiredOf(items[key])) <==> Wanted(db, worker, reqs, d)
  {
    hide ScopeFor, Submitted, PlacementIds, IsPlacement;
    var visits := VisitsOf(db, PlacementIds(db, worker), reqs);
    if key :| key in items && d in DesiredOf(items[key]) {
      var item := items[key];
      assert ItemOk(db, worker, key, item, visits);
      assert item.placements[0] in item.placements;
      var p := item.placements[0];
      var req :| Visit(p, req) in visits && Puts(db, Visit(p, req), item.form, item.scope);
      PlacementIdsMember(db, worker, p);
      assert Wants(db, worker, reqs, d, p, req);
    }
    if Wanted(db, worker, reqs, d) {
      var p, req :| Wants(db, worker, reqs, d, p, req);
      WantedIsPut(db, worker, reqs, items, d, p, req);
    }
  }

  lemma WantedIsPut(db: Db, worker: Text, reqs: seq<Spec>, items: Items, d: Desired, p: Text, req: Spec)
    requires ItemsOf(db, worker, items, VisitsOf(db, PlacementIds(db, worker), reqs))
    requires (forall r :: r in reqs ==> NoNul(r.form)) && Wants(db, worker, reqs, d, p, req)
    ensures exists key :: key in items && d in DesiredOf(items[key])
  {
    hide ScopeFor, Submitted, PlacementIds, IsPlacement, PutBy;
    var visits := VisitsOf(db, PlacementIds(db, worker), reqs);
    PlacementIdsMember(db, worker, p);
    var key := Join(req.form, d.value);
    PutByVisit(db, visits, p, req, d.value);
    assert ItemOk(db, worker, key, items[key], visits);
    JoinInjective(items[key].form, items[key].scope, req.form, d.value);
    assert d in DesiredOf(items[key]);
  }

  lemma PutByVisit(db: Db, visits: set<Visit>, p: Text, req: Spec, scope: Text)
    requires Visit(p, req) in visits && ScopeFor(db, p, req) == Some(scope)
    ensures PutBy(db, visits, p, req.form, scope)
  {
    assert Puts(db, Visit(p, req), req.form, scope);
  }
}
