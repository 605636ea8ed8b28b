/** Materialising a worker's compliance a second time: when the first pass has changed what the plan reads. */
module SecondPass {
  import opened Seqs
  import opened Text
  import opened Core
  import opened Rules
  import opened Planner
  import opened Compliance

  /** For every worker, whatever facts are held, materialising again right away writes nothing. */
  ghost predicate OnceIsEnough(reqs: seq<Spec>) {
    forall db, worker, a1, r1, a2, r2 ::
      WritesOf(db, worker, reqs, a1, r1) && WritesOf(AfterWrites(db, worker, a1, r1), worker, reqs, a2, r2) ==> a2 == [] && r2 == []
  }

  /** The only string an attribute has is its first. */
  lemma OnlyString(db: Db, e: Text, a: Text, s: Text)
    requires Fact(e, a, Str(s)) in db && forall f: Fact :: f in db && f.e == e && f.a == a ==> f.v == Str(s)
    ensures FirstString(ValuesOf(db, e, a)) == Some(s)
  {
    hide ValuesOf, FirstString;
    FirstStringHolds(db, e, a);
  }

  /** Whatever the placement puts is a string that it has. */
  lemma ScopeHolds(db: Db, p: Text, req: Spec)
    ensures var s := ScopeFor(db, p, req);
            s.Some? ==> Fact(p, req.scopeAttr, Str(s.value)) in db &&
                        (req.guard.Some? ==> Fact(s.value, req.guard.value.attr, req.guard.value.value) in db)
  {
    hide ValuesOf, FirstString;
    FirstStringHolds(db, p, req.scopeAttr);
  }

  /** The worker has one placement at most. */
  ghost predicate Alone(db: Db, w: Text, p: Text) {
    forall q :: Fact(q, WORKER, Str(w)) in db && IsPlacement(db, q) ==> q == p
  }

  lemma OneScopeWanted(db: Db, w: Text, p: Text, req: Spec, s: Text, d: Desired)
    requires Alone(db, w, p) && Fact(p, WORKER, Str(w)) in db && IsPlacement(db, p) && ScopeFor(db, p, req) == Some(s)
    ensures Wanted(db, w, [req], d) <==>
              d.value == s && (d.a == REQUIRES + req.form || (d.a == TASK + req.form && !Submitted(db, w, req.form, s)))
  {
    hide ScopeFor, Submitted, IsPlacement;
    assert Wants(db, w, [req], d, p, req) <==>
             d.value == s && (d.a == REQUIRES + req.form || (d.a == TASK + req.form && !Submitted(db, w, req.form, d.value)));
  }

  lemma NothingWanted(db: Db, w: Text, p: Text, req: Spec, d: Desired)
    requires Alone(db, w, p) && ScopeFor(db, p, req) == None
    ensures !Wanted(db, w, [req], d)
  {
    hide ScopeFor, Submitted, IsPlacement;
  }

  // ---- a pass always has something to write ----------------------------------------------------------

  ghost function CouldWant(db: Db, reqs: seq<Spec>): set<Desired> {
    (set f, req | f in db && req in reqs && ScopeFor(db, f.e, req).Some? :: Desired(REQUIRES + req.form, ScopeFor(db, f.e, req).value)) +
    (set f, req | f in db && req in reqs && ScopeFor(db, f.e, req).Some? :: Desired(TASK + req.form, ScopeFor(db, f.e, req).value))
  }

  lemma WantedCould(db: Db, w: Text, reqs: seq<Spec>, d: Desired)
    ensures Wanted(db, w, reqs, d) ==> d in CouldWant(db, reqs)
  {
    hide ScopeFor, Submitted, IsPlacement;
    if Wanted(db, w, reqs, d) {
      var p, req :| Wants(db, w, reqs, d, p, req);
      assert Fact(p, WORKER, Str(w)).e == p;
    }
  }

  /** What a pass writes for a worker, whatever facts are held. */
  lemma SomeWrites(db: Db, w: Text, reqs: seq<Spec>) returns (asserted: seq<Desired>, retracted: seq<Fact>)
    requires Fact(w, TYPE, WORKER_TYPE) in db
    ensures WritesOf(db, w, reqs, asserted, retracted)
  {
    hide Wanted, Managed, CouldWant;
    forall d ensures Wanted(db, w, reqs, d) ==> d in CouldWant(db, reqs) { WantedCould(db, w, reqs, d); }
    asserted := SomeOrder(set d | d in CouldWant(db, reqs) && Wanted(db, w, reqs, d) && FactOf(w, d) !in db);
    retracted := SomeOrder(set f | f in db && f.e == w && Managed(f.a) && !(f.v.Str? && Wanted(db, w, reqs, Desired(f.a, f.v.s))));
  }

  lemma {:induction false} SomeOrder<T>(all: set<T>) returns (s: seq<T>)
    ensures forall x :: x in s <==> x in all
  {
    s := [];
    if all != {} {
      var x :| x in all;
      var rest := SomeOrder(all - {x});
      s := rest + [x];
    }
  }

  // ---- a guard that the first pass retracts ------------------------------------------------------

  /** Longer than the value of any guard. */
  function LongerThanGuards(reqs: seq<Spec>): (n: nat)
    ensures forall req :: req in reqs && req.guard.Some? && req.guard.value.value.Str? ==> |req.guard.value.value.s| < n
  {
    if reqs == [] then 0
    else
      var n, g := LongerThanGuards(reqs[1..]), reqs[0].guard;
      if g.Some? && g.value.value.Str? && n <= |g.value.value.s| then |g.value.value.s| + 1 else n
  }

  /** One placement, whose scope is the worker; the worker has the guard's value. */
  function GuardDb(req: Spec, g: Guard, w: Text, p: Text): Db {
    [Fact(w, TYPE, WORKER_TYPE), Fact(p, TYPE, Str(PLACEMENT)), Fact(p, WORKER, Str(w)), Fact(p, req.scopeAttr, Str(w)),
     Fact(w, g.attr, g.value)]
  }

  /** The same facts, told one by one. */
  predicate GuardFact(req: Spec, g: Guard, w: Text, p: Text, f: Fact) {
    || f == Fact(w, TYPE, WORKER_TYPE) || f == Fact(p, TYPE, Str(PLACEMENT)) || f == Fact(p, WORKER, Str(w))
    || f == Fact(p, req.scopeAttr, Str(w)) || f == Fact(w, g.attr, g.value)
  }

  lemma GuardFacts(req: Spec, g: Guard, w: Text, p: Text, f: Fact)
    ensures f in GuardDb(req, g, w, p) <==> GuardFact(req, g, w, p, f)
  {
    var db := GuardDb(req, g, w, p);
    assert db[0] in db && db[1] in db && db[2] in db && db[3] in db && db[4] in db;
  }

  /** The guard reads a managed attribute, nobody requires the same of every worker, and the worker's name is no guard's value. */
  ghost predicate GuardCase(reqs: seq<Spec>, req: Spec, g: Guard, w: Text, p: Text) {
    && (forall r :: r in reqs ==> Readable(r)) && req in reqs && req.guard == Some(g) && Managed(g.attr) && !GuardSettled(reqs, req)
    && p != w && forall r :: r in reqs && r.guard.Some? ==> r.guard.value.value != Str(w)
  }

  /** Before the first pass the requirement is wanted for the worker, and whatever is wanted is wanted for that scope. */
  lemma GuardPlan(reqs: seq<Spec>, req: Spec, g: Guard, w: Text, p: Text)
    requires GuardCase(reqs, req, g, w, p)
    ensures Wanted(GuardDb(req, g, w, p), w, reqs, Desired(REQUIRES + req.form, w))
    ensures forall d :: Wanted(GuardDb(req, g, w, p), w, reqs, d) ==> d.value == w
  {
    hide Managed, ValuesOf, FirstString, GuardDb, ScopeFor, Submitted, GuardSettled;
    var db := GuardDb(req, g, w, p);
    forall f ensures f in db <==> GuardFact(req, g, w, p, f) { GuardFacts(req, g, w, p, f); }
    UnmanagedNames(req.form);
    OnlyString(db, p, req.scopeAttr, w);
    ScopeIs(db, p, req, w);
    assert Wants(db, w, reqs, Desired(REQUIRES + req.form, w), p, req);
    forall d | Wanted(db, w, reqs, d) ensures d.value == w {
      var q, r :| Wants(db, w, reqs, d, q, r);
      ScopeHolds(db, q, r);
    }
  }

  lemma ScopeIs(db: Db, p: Text, req: Spec, s: Text)
    requires FirstString(ValuesOf(db, p, req.scopeAttr)) == Some(s)
    requires req.guard.Some? ==> Fact(s, req.guard.value.attr, req.guard.value.value) in db
    ensures ScopeFor(db, p, req) == Some(s)
  {
  }

  /** After it nothing wants the requirement any more. */
  lemma GuardGone(reqs: seq<Spec>, req: Spec, g: Guard, w: Text, p: Text, a1: seq<Desired>, r1: seq<Fact>)
    requires GuardCase(reqs, req, g, w, p) && (forall r :: r in reqs ==> NoNul(r.form))
    requires WritesOf(GuardDb(req, g, w, p), w, reqs, a1, r1)
    ensures !Wanted(AfterWrites(GuardDb(req, g, w, p), w, a1, r1), w, reqs, Desired(REQUIRES + req.form, w))
  {
    hide Managed, ValuesOf, FirstString, GuardDb, ScopeFor, Submitted, AfterWrites, WritesOf, Wanted, ManagedWrites;
    var db, d := GuardDb(req, g, w, p), Desired(REQUIRES + req.form, w);
    var db' := AfterWrites(db, w, a1, r1);
    WritesAreManaged(db, w, reqs, a1, r1);
    forall q, r ensures !Wants(db', w, reqs, d, q, r) {
      if Wants(db', w, reqs, d, q, r) {
        SamePlacement(req, g, w, p, a1, r1, q);
        SameScope(req, g, w, p, a1, r1, r);
        RequiresName(req.form, r.form);
        assert r.form == req.form && r.scopeAttr == req.scopeAttr;
        assert r.guard.Some?;
        GuardHeld(reqs, req, g, w, p, a1, r1, r);
      }
    }
    NobodyWants(db', w, reqs, d);
  }

  lemma NobodyWants(db: Db, w: Text, reqs: seq<Spec>, d: Desired)
    requires forall q, r :: !Wants(db, w, reqs, d, q, r)
    ensures !Wanted(db, w, reqs, d)
  {
  }

  lemma SamePlacement(req: Spec, g: Guard, w: Text, p: Text, a1: seq<Desired>, r1: seq<Fact>, q: Text)
    requires ManagedWrites(w, a1, r1) && Readable(req) && Managed(g.attr) && p != w
    requires Fact(q, WORKER, Str(w)) in AfterWrites(GuardDb(req, g, w, p), w, a1, r1)
    ensures q == p
  {
    UnmanagedNames(req.form);
    VariableNames();
    hide AfterWrites, GuardDb, ManagedWrites, Managed;
    OtherFactStays(GuardDb(req, g, w, p), w, a1, r1, Fact(q, WORKER, Str(w)));
    GuardFacts(req, g, w, p, Fact(q, WORKER, Str(w)));
  }

  lemma SameScope(req: Spec, g: Guard, w: Text, p: Text, a1: seq<Desired>, r1: seq<Fact>, r: Spec)
    requires ManagedWrites(w, a1, r1) && Readable(r) && p != w
    requires ScopeFor(AfterWrites(GuardDb(req, g, w, p), w, a1, r1), p, r) == Some(w)
    ensures r.scopeAttr == req.scopeAttr
    ensures r.guard.Some? ==> Fact(w, r.guard.value.attr, r.guard.value.value) in AfterWrites(GuardDb(req, g, w, p), w, a1, r1)
  {
    hide AfterWrites, GuardDb, ManagedWrites, Managed, ScopeFor;
    var db' := AfterWrites(GuardDb(req, g, w, p), w, a1, r1);
    ScopeHolds(db', p, r);
    OtherFactStays(GuardDb(req, g, w, p), w, a1, r1, Fact(p, r.scopeAttr, Str(w)));
    GuardFacts(req, g, w, p, Fact(p, r.scopeAttr, Str(w)));
  }

  /** A guard that the worker meets afterwards is one that every worker meets. */
  lemma GuardHeld(reqs: seq<Spec>, req: Spec, g: Guard, w: Text, p: Text, a1: seq<Desired>, r1: seq<Fact>, r: Spec)
    requires GuardCase(reqs, req, g, w, p) && WritesOf(GuardDb(req, g, w, p), w, reqs, a1, r1) && ManagedWrites(w, a1, r1)
    requires r in reqs && r.guard.Some?
    requires Fact(w, r.guard.value.attr, r.guard.value.value) in AfterWrites(GuardDb(req, g, w, p), w, a1, r1)
    ensures r.guard.value == Guard(TYPE, WORKER_TYPE)
  {
    hide AfterWrites, GuardDb, ManagedWrites, Managed, WritesOf, Wanted, GuardSettled;
    var f := Fact(w, r.guard.value.attr, r.guard.value.value);
    GuardPlan(reqs, req, g, w, p);
    if Managed(f.a) {
      WritesMakeExact(GuardDb(req, g, w, p), w, reqs, a1, r1, f);
    } else {
      OtherFactStays(GuardDb(req, g, w, p), w, a1, r1, f);
      GuardFacts(req, g, w, p, f);
    }
  }

  /** The second pass takes away what the first asserted. */
  lemma GuardNotEnough(reqs: seq<Spec>, req: Spec)
    requires (forall r :: r in reqs ==> Readable(r) && NoNul(r.form)) && req in reqs && !GuardSettled(reqs, req)
    ensures !OnceIsEnough(reqs)
  {
    hide WritesOf, AfterWrites, Managed, GuardDb, Wanted;
    var g := req.guard.value;
    var w: Text := seq(LongerThanGuards(reqs), _ => 119);
    var p := w + [112];
    assert |p| == |w| + 1;
    assert GuardCase(reqs, req, g, w, p);
    var db, f := GuardDb(req, g, w, p), Fact(w, REQUIRES + req.form, Str(w));
    GuardFacts(req, g, w, p, Fact(w, TYPE, WORKER_TYPE));
    var a1, r1 := SomeWrites(db, w, reqs);
    WritesAreManaged(db, w, reqs, a1, r1);
    IsWorkerStays(db, w, a1, r1);
    var db' := AfterWrites(db, w, a1, r1);
    var a2, r2 := SomeWrites(db', w, reqs);
    GuardPlan(reqs, req, g, w, p);
    GuardGone(reqs, req, g, w, p, a1, r1);
    RequiresIsManaged(req.form);
    WritesMakeExact(db, w, reqs, a1, r1, f);
    UnwantedIsRetracted(db', w, reqs, a2, r2, f);
  }

  lemma UnwantedIsRetracted(db: Db, w: Text, reqs: seq<Spec>, asserted: seq<Desired>, retracted: seq<Fact>, f: Fact)
    requires WritesOf(db, w, reqs, asserted, retracted) && f in db && f.e == w && Managed(f.a)
    requires f.v.Str? && !Wanted(db, w, reqs, Desired(f.a, f.v.s))
    ensures retracted != []
  {
    assert f in retracted;
  }

  // ---- a scope that the first pass retracts --------------------------------------------------------

  /** The worker is its own placement, has the form submitted for its scope, and the scope meets the guard. */
  function ScopeDb(req: Spec, w: Text, x: Text): Db {
    [Fact(w, TYPE, WORKER_TYPE), Fact(w, TYPE, Str(PLACEMENT)), Fact(w, WORKER, Str(w)), Fact(w, req.scopeAttr, Str(x)),
     Fact(w, SUBMITTED + req.form, Str(x)),
     if req.guard.Some? then Fact(x, req.guard.value.attr, req.guard.value.value) else Fact(w, TYPE, WORKER_TYPE)]
  }

  predicate ScopeFact(req: Spec, w: Text, x: Text, f: Fact) {
    || f == Fact(w, TYPE, WORKER_TYPE) || f == Fact(w, TYPE, Str(PLACEMENT)) || f == Fact(w, WORKER, Str(w))
    || f == Fact(w, req.scopeAttr, Str(x)) || f == Fact(w, SUBMITTED + req.form, Str(x))
    || (req.guard.Some? && f == Fact(x, req.guard.value.attr, req.guard.value.value))
  }

  ghost predicate ScopeCase(req: Spec, w: Text, x: Text) {
    Readable(req) && Managed(req.scopeAttr) && req.scopeAttr != REQUIRES + req.form && w != x
  }

  lemma ScopeFacts(req: Spec, w: Text, x: Text, f: Fact)
    ensures f in ScopeDb(req, w, x) <==> ScopeFact(req, w, x, f)
  {
    var db := ScopeDb(req, w, x);
    assert db[0] in db && db[1] in db && db[2] in db && db[3] in db && db[4] in db && db[5] in db;
  }

  lemma ScopePlan(req: Spec, w: Text, x: Text, d: Desired)
    requires ScopeCase(req, w, x)
    ensures Wanted(ScopeDb(req, w, x), w, [req], d) <==> d == Desired(REQUIRES + req.form, x)
  {
    hide Managed, ValuesOf, FirstString, ScopeDb, Wanted;
    var db := ScopeDb(req, w, x);
    forall f ensures f in db <==> ScopeFact(req, w, x, f) { ScopeFacts(req, w, x, f); }
    UnmanagedNames(req.form);
    OnlyString(db, w, req.scopeAttr, x);
    OneScopeWanted(db, w, w, req, x, d);
  }

  /** The first pass asserts the requirement and takes the scope away. */
  lemma ScopeFirst(req: Spec, w: Text, x: Text)
    requires ScopeCase(req, w, x)
    ensures WritesOf(ScopeDb(req, w, x), w, [req], [Desired(REQUIRES + req.form, x)], [Fact(w, req.scopeAttr, Str(x))])
  {
    hide Managed, ScopeDb, Wanted;
    var db := ScopeDb(req, w, x);
    forall f ensures f in db <==> ScopeFact(req, w, x, f) { ScopeFacts(req, w, x, f); }
    forall d ensures Wanted(db, w, [req], d) <==> d == Desired(REQUIRES + req.form, x) { ScopePlan(req, w, x, d); }
    UnmanagedNames(req.form);
    RequiresIsManaged(req.form);
  }

  /** The second takes the requirement away again. */
  lemma ScopeSecond(req: Spec, w: Text, x: Text, a1: seq<Desired>, r1: seq<Fact>)
    requires ScopeCase(req, w, x) && a1 == [Desired(REQUIRES + req.form, x)] && r1 == [Fact(w, req.scopeAttr, Str(x))]
    ensures WritesOf(AfterWrites(ScopeDb(req, w, x), w, a1, r1), w, [req], [], [Fact(w, REQUIRES + req.form, Str(x))])
  {
    hide Managed, ScopeDb, Wanted, AfterWrites, ScopeFor;
    var db := ScopeDb(req, w, x);
    var db' := AfterWrites(db, w, a1, r1);
    UnmanagedNames(req.form);
    RequiresIsManaged(req.form);
    forall f: Fact ensures f in db' <==>
                (ScopeFact(req, w, x, f) && f != Fact(w, req.scopeAttr, Str(x))) || f == Fact(w, REQUIRES + req.form, Str(x))
    {
      ScopeFacts(req, w, x, f);
      AfterMember(db, w, a1, r1, f);
    }
    ScopeHolds(db', w, req);
    forall d ensures !Wanted(db', w, [req], d) { NothingWanted(db', w, w, req, d); }
  }

  // ---- the exact condition ---------------------------------------------------------------------------

  lemma ScopeNotEnough(req: Spec)
    requires Readable(req) && Managed(req.scopeAttr) && req.scopeAttr != REQUIRES + req.form
    ensures !OnceIsEnough([req])
  {
    hide WritesOf, AfterWrites, Managed;
    var w: Text, x: Text := [119], [120];
    assert w[0] != x[0];
    ScopeFirst(req, w, x);
    ScopeSecond(req, w, x, [Desired(REQUIRES + req.form, x)], [Fact(w, req.scopeAttr, Str(x))]);
    ScopeFacts(req, w, x, Fact(w, TYPE, WORKER_TYPE));
  }

  /**
   * For a requirement of its own, once is enough exactly when the guard reads no managed attribute and the
   * scope none but the one that the requirement itself keeps.
   */
  lemma OnceIsEnoughIff(req: Spec)
    requires Readable(req) && NoNul(req.form)
    ensures OnceIsEnough([req]) <==> KeepsScope(req) && !ReadsManaged(req.guard)
  {
    hide WritesOf, AfterWrites, Managed, OnceIsEnough;
    UnmanagedNames(req.form);
    assert Settled([req]) <==> KeepsScope(req) && !ReadsManaged(req.guard);
    if !KeepsScope(req) { ScopeNotEnough(req); } else { OnceIsEnoughForAllIff([req]); }
  }

  /**
   * For requirements that each keep their scope, once is enough exactly when a guard on a managed attribute
   * is beside the point wherever there is one: the same form is required for the same scope of every worker.
   */
  lemma OnceIsEnoughForAllIff(reqs: seq<Spec>)
    requires forall r :: r in reqs ==> Readable(r) && NoNul(r.form) && KeepsScope(r)
    ensures OnceIsEnough(reqs) <==> Settled(reqs)
  {
    hide WritesOf, AfterWrites, Managed, GuardSettled, KeepsScope;
    if Settled(reqs) {
      forall db, worker, a1, r1, a2, r2 |
        WritesOf(db, worker, reqs, a1, r1) && WritesOf(AfterWrites(db, worker, a1, r1), worker, reqs, a2, r2)
        ensures a2 == [] && r2 == []
      {
        MaterializeTwice(db, worker, reqs, a1, r1, a2, r2);
      }
    } else {
      var req :| req in reqs && !GuardSettled(reqs, req);
      GuardNotEnough(reqs, req);
    }
  }
}
