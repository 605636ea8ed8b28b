/** Planning a worker's compliance from the enabled rules, and keeping the planned facts on the worker. */
module Compliance {
  import opened Seqs
  import opened Text
  import opened Core
  import opened Rules
  import opened Planner
  import Ordering

  const WORKER_TYPE := Str(Lit("Worker"))

  // ---- reading the rules -----------------------------------------------------------------

  /** Requirement rules that the parser understands, in the order of the table. */
  function RequirementsOf(rules: seq<Rule>): seq<Spec> {
    if rules == [] then []
    else
      var init, rule := RequirementsOf(rules[..|rules| - 1]), rules[|rules| - 1];
      var parsed := ParseRequirementRule(rule);
      if parsed.Requirement? then init + [parsed.spec] else init
  }

  /** A rule named as a requirement that the parser gives a reason against. */
  predicate NotUnderstood(rule: Rule): (r: bool)
    ensures r <==> !ParseRequirementRule(rule).NotRequirement? && !ParseRequirementRule(rule).Requirement?
  {
    REQUIRE <= rule.name && !ParseRequirementRule(rule).Requirement?
  }

  function UnsupportedOf(rules: seq<Rule>): seq<Text> { Map(Filter(rules, NotUnderstood), (r: Rule) => r.name) }

  predicate SpecLess(x: Spec, y: Spec) { Less(Join(x.form, x.scopeAttr), Join(y.form, y.scopeAttr)) }

  datatype Plan = NoWorker | NotAWorker | Planned(items: Items, unsupported: seq<Text>)

  ghost predicate CleanForms(rules: seq<Rule>) {
    forall r :: r in RequirementsOf(rules) ==> NoNul(r.form)
  }

  method ReadRequirements(rules: seq<Rule>) returns (reqs: seq<Spec>)
    ensures reqs == RequirementsOf(rules)
  {
    reqs := [];
    for i := 0 to |rules|
      invariant reqs == RequirementsOf(rules[..i])
    {
      TakeNext(rules, i);
      if REQUIRE <= rules[i].name {
        var parsed := ParseRequirementRule(rules[i]);
        if parsed.Requirement? { reqs := reqs + [parsed.spec]; }
      }
    }
    TakeAll(rules);
  }

  method BuildOwnedCompliancePlan(db: Db, worker: Text, rules: seq<Rule>) returns (plan: Plan)
    requires CleanForms(rules)
    ensures plan == NoWorker <==> forall f :: f in db ==> f.e != worker
    ensures plan == NotAWorker <==> plan != NoWorker && Fact(worker, TYPE, WORKER_TYPE) !in db
    ensures plan.Planned? ==>
              && multiset(plan.unsupported) == multiset(UnsupportedOf(rules))
              && (forall i, j :: 0 <= i < j < |plan.unsupported| ==> !Less(plan.unsupported[j], plan.unsupported[i]))
              && (forall key :: key in plan.items ==> NoNul(plan.items[key].form))
              && forall d :: (exists key :: key in plan.items && d in DesiredOf(plan.items[key])) <==> Wanted(db, worker, RequirementsOf(rules), d)
  {
    var isKnown := exists f :: f in db && f.e == worker;
    if !isKnown { return NoWorker; }
    if Fact(worker, TYPE, WORKER_TYPE) !in db { return NotAWorker; }
    hide ItemsOf, Wanted, DesiredOf, PlacementIds;
    var reqs := ReadRequirements(rules);
    var sorted := Ordering.Sort(reqs, SpecLess);
    Ordering.SameElements(sorted, reqs);
    var items := BuildItems(db, worker, sorted);
    forall d ensures (exists key :: key in items && d in DesiredOf(items[key])) <==> Wanted(db, worker, reqs, d) {
      ItemsAreWanted(db, worker, sorted, items, d);
      SameWanted(db, worker, sorted, reqs, d);
    }
    LessWeakOrder();
    Ordering.SortSorted(UnsupportedOf(rules), Less);
    plan := Planned(items, Ordering.Sort(UnsupportedOf(rules), Less));
  }

  lemma SameWanted(db: Db, worker: Text, r1: seq<Spec>, r2: seq<Spec>, d: Desired)
    requires forall r :: r in r1 <==> r in r2
    ensures Wanted(db, worker, r1, d) <==> Wanted(db, worker, r2, d)
  {
    hide ScopeFor, Submitted, IsPlacement;
    if p, req :| Wants(db, worker, r1, d, p, req) { assert Wants(db, worker, r2, d, p, req); }
    if p, req :| Wants(db, worker, r2, d, p, req) { assert Wants(db, worker, r1, d, p, req); }
  }

  // ---- the plan means what the rules mean --------------------------------------------------------

  /** The scopes a placement of the worker gives are single strings. */
  ghost predicate SingleScopes(db: Db, worker: Text, reqs: seq<Spec>) {
    forall p, req :: req in reqs && Fact(p, WORKER, Str(worker)) in db && IsPlacement(db, p) ==> OneString(db, p, req.scopeAttr)
  }

  ghost predicate OneString(db: Db, p: Text, a: Text) {
    forall v, w :: Fact(p, a, v) in db && Fact(p, a, w) in db ==> v.Str? && v == w
  }

  lemma ValuesMember(db: Db, e: Text, a: Text, v: Value)
    ensures v in ValuesOf(db, e, a) <==> Fact(e, a, v) in db
  {
    var found := Filter(db, AttrOf(e, a));
    FilterMembers(db, AttrOf(e, a));
    var vs := ValuesOf(db, e, a);
    if v in vs {
      var i :| 0 <= i < |vs| && vs[i] == v;
      assert found[i] in found;
    }
    if Fact(e, a, v) in db {
      var i :| 0 <= i < |found| && found[i] == Fact(e, a, v);
      assert vs[i] == v;
    }
  }

  lemma {:induction false} FirstStringIs(vs: seq<Value>)
    ensures FirstString(vs).Some? ==> Str(FirstString(vs).value) in vs
    ensures FirstString(vs).None? ==> forall v :: v in vs ==> !v.Str?
  {
    if vs != [] && !vs[0].Str? { FirstStringIs(vs[1..]); }
  }

  /** The scope the planner finds is one the rule finds. */
  lemma ScopeIsRuleScope(db: Db, worker: Text, p: Text, req: Spec, scope: Text)
    requires Fact(p, WORKER, Str(worker)) in db && IsPlacement(db, p) && ScopeFor(db, p, req) == Some(scope)
    ensures Requires(req, SetOf(db), p, worker, Str(scope))
  {
    var vs := ValuesOf(db, p, req.scopeAttr);
    FirstStringIs(vs);
    forall v ensures v in vs <==> Fact(p, req.scopeAttr, v) in db { ValuesMember(db, p, req.scopeAttr, v); }
    hide ValuesOf, FirstString;
  }

  /** Where scopes are single strings, the rule finds no other. */
  lemma RuleScopeIsScope(db: Db, worker: Text, reqs: seq<Spec>, p: Text, req: Spec, scope: Value)
    requires SingleScopes(db, worker, reqs) && req in reqs && Requires(req, SetOf(db), p, worker, scope)
    ensures Fact(p, WORKER, Str(worker)) in db && IsPlacement(db, p) && scope.Str? && ScopeFor(db, p, req) == Some(scope.s)
  {
    var vs := ValuesOf(db, p, req.scopeAttr);
    FirstStringIs(vs);
    forall v ensures v in vs <==> Fact(p, req.scopeAttr, v) in db { ValuesMember(db, p, req.scopeAttr, v); }
    hide ValuesOf, FirstString;
  }

  /** The fact a planned row becomes on the worker. */
  function FactOf(worker: Text, d: Desired): Fact { Fact(worker, d.a, Str(d.value)) }

  ghost predicate DerivedBy(reqs: seq<Spec>, db: set<Fact>, f: Fact) {
    exists req :: req in reqs && (Derives(RequirementRule(req), db, f) || Derives(TaskRule(req), db, f))
  }

  /** Some placement of the worker puts the scope for the form. */
  ghost predicate Reached(db: Db, worker: Text, reqs: seq<Spec>, form: Text, scope: Value) {
    scope.Str? && exists p, req :: Reaches(db, worker, reqs, form, scope.s, p, req)
  }

  ghost predicate Reaches(db: Db, worker: Text, reqs: seq<Spec>, form: Text, scope: Text, p: Text, req: Spec) {
    req in reqs && req.form == form && Fact(p, WORKER, Str(worker)) in db && IsPlacement(db, p) && ScopeFor(db, p, req) == Some(scope)
  }

  /** No scope a rule admits is shadowed, in every placement, by another value of its attribute. */
  ghost predicate NothingShadowed(db: Db, worker: Text, reqs: seq<Spec>) {
    forall p, req, scope :: req in reqs && Requires(req, SetOf(db), p, worker, scope) ==> Reached(db, worker, reqs, req.form, scope)
  }

  lemma WantedIff(db: Db, worker: Text, reqs: seq<Spec>, a: Text, scope: Text)
    ensures Wanted(db, worker, reqs, Desired(a, scope)) <==>
            exists form :: Reached(db, worker, reqs, form, Str(scope)) &&
                           (a == REQUIRES + form || (a == TASK + form && Fact(worker, SUBMITTED + form, Str(scope)) !in db))
  {
    hide ScopeFor, IsPlacement;
    var d := Desired(a, scope);
    if Wanted(db, worker, reqs, d) {
      var p, req :| Wants(db, worker, reqs, d, p, req);
      assert Reaches(db, worker, reqs, req.form, scope, p, req);
      assert Reached(db, worker, reqs, req.form, Str(scope));
    }
    if form :| Reached(db, worker, reqs, form, Str(scope)) &&
               (a == REQUIRES + form || (a == TASK + form && Fact(worker, SUBMITTED + form, Str(scope)) !in db))
    {
      var p, req :| Reaches(db, worker, reqs, form, scope, p, req);
      assert Wants(db, worker, reqs, d, p, req);
    }
  }

  lemma DerivedIff(db: Db, reqs: seq<Spec>, f: Fact)
    requires forall req :: req in reqs ==> Plain(req)
    ensures DerivedBy(reqs, SetOf(db), f) <==>
            exists req, p :: req in reqs && Requires(req, SetOf(db), p, f.e, f.v) &&
                             (f.a == REQUIRES + req.form || (f.a == TASK + req.form && Fact(f.e, SUBMITTED + req.form, f.v) !in db))
  {
    hide Derives, Requires, SetOf;
    forall req | req in reqs
      ensures Derives(RequirementRule(req), SetOf(db), f) <==> f.a == REQUIRES + req.form && exists p :: Requires(req, SetOf(db), p, f.e, f.v)
      ensures Derives(TaskRule(req), SetOf(db), f) <==>
                f.a == TASK + req.form && Fact(f.e, SUBMITTED + req.form, f.v) !in db && exists p :: Requires(req, SetOf(db), p, f.e, f.v)
    {
      RequirementMeaning(req, SetOf(db), f);
      TaskMeaning(req, SetOf(db), f);
      InDb(db, Fact(f.e, SUBMITTED + req.form, f.v));
    }
  }

  lemma InDb(db: Db, f: Fact)
    ensures f in SetOf(db) <==> f in db
  {
  }

  /** Whatever is planned, naive evaluation of the two printed rules of some requirement derives. */
  lemma PlanIsSound(db: Db, worker: Text, reqs: seq<Spec>, f: Fact)
    requires (forall req :: req in reqs ==> Plain(req)) && f.e == worker
    ensures f.v.Str? && Wanted(db, worker, reqs, Desired(f.a, f.v.s)) ==> DerivedBy(reqs, SetOf(db), f)
  {
    if f.v.Str? && Wanted(db, worker, reqs, Desired(f.a, f.v.s)) {
      WantedIff(db, worker, reqs, f.a, f.v.s);
      var form :| Reached(db, worker, reqs, form, f.v) &&
                  (f.a == REQUIRES + form || (f.a == TASK + form && Fact(worker, SUBMITTED + form, f.v) !in db));
      var p, req :| Reaches(db, worker, reqs, form, f.v.s, p, req);
      ScopeIsRuleScope(db, worker, p, req, f.v.s);
      hide ScopeFor, Requires, Derives;
      DerivedIff(db, reqs, f);
    }
  }

  lemma CompleteAt(db: Db, worker: Text, reqs: seq<Spec>, f: Fact)
    requires NothingShadowed(db, worker, reqs) && (forall req :: req in reqs ==> Plain(req)) && f.e == worker
    ensures DerivedBy(reqs, SetOf(db), f) ==> f.v.Str? && Wanted(db, worker, reqs, Desired(f.a, f.v.s))
  {
    hide Requires, Derives, DerivedBy, SetOf;
    if DerivedBy(reqs, SetOf(db), f) {
      DerivedIff(db, reqs, f);
      var req, p :| req in reqs && Requires(req, SetOf(db), p, f.e, f.v) &&
                    (f.a == REQUIRES + req.form || (f.a == TASK + req.form && Fact(f.e, SUBMITTED + req.form, f.v) !in db));
      assert Reached(db, worker, reqs, req.form, f.v);
      WantedIff(db, worker, reqs, f.a, f.v.s);
    }
  }

  lemma RequiresName(form1: Text, form2: Text)
    ensures REQUIRES + form1 == REQUIRES + form2 ==> form1 == form2
    ensures REQUIRES + form1 != TASK + form2
  {
    VariableNames();
    assert (REQUIRES + form1)[|REQUIRES|..] == form1 && (REQUIRES + form2)[|REQUIRES|..] == form2;
    assert (REQUIRES + form1)[0] == 114 && (TASK + form2)[0] == 116;
  }

  ghost predicate PlanAgrees(db: Db, worker: Text, reqs: seq<Spec>, f: Fact) {
    DerivedBy(reqs, SetOf(db), f) <==> f.v.Str? && Wanted(db, worker, reqs, Desired(f.a, f.v.s))
  }

  /**
   * The planned facts of a worker are exactly those that naive evaluation of the two printed rules of
   * each requirement derives for it, if and only if no scope is shadowed: the planner takes the first
   * string of a scope attribute where the rules take every value.
   */
  lemma PlanMeansRulesIff(db: Db, worker: Text, reqs: seq<Spec>)
    requires forall req :: req in reqs ==> Plain(req)
    ensures (forall f: Fact :: f.e == worker ==> PlanAgrees(db, worker, reqs, f)) <==> NothingShadowed(db, worker, reqs)
  {
    hide Requires, DerivedBy, Reached, Wanted;
    if NothingShadowed(db, worker, reqs) {
      forall f: Fact | f.e == worker ensures PlanAgrees(db, worker, reqs, f) {
        CompleteAt(db, worker, reqs, f);
        PlanIsSound(db, worker, reqs, f);
      }
    }
    if forall f: Fact :: f.e == worker ==> PlanAgrees(db, worker, reqs, f) {
      forall p, req, scope | req in reqs && Requires(req, SetOf(db), p, worker, scope)
        ensures Reached(db, worker, reqs, req.form, scope)
      {
        assert PlanAgrees(db, worker, reqs, Fact(worker, REQUIRES + req.form, scope));
        PlannedIsReached(db, worker, reqs, p, req, scope);
      }
    }
  }

  lemma PlannedIsReached(db: Db, worker: Text, reqs: seq<Spec>, p: Text, req: Spec, scope: Value)
    requires forall r :: r in reqs ==> Plain(r)
    requires req in reqs && Requires(req, SetOf(db), p, worker, scope)
    requires PlanAgrees(db, worker, reqs, Fact(worker, REQUIRES + req.form, scope))
    ensures Reached(db, worker, reqs, req.form, scope)
  {
    hide Requires, DerivedBy, Reached, Wanted;
    var f := Fact(worker, REQUIRES + req.form, scope);
    DerivedIff(db, reqs, f);
    WantedIff(db, worker, reqs, f.a, scope.s);
    forall form ensures f.a == REQUIRES + form ==> form == req.form
      ensures f.a != TASK + form
    {
      RequiresName(req.form, form);
    }
  }

  /** Single strings shadow nothing. */
  lemma SingleScopesShadowNothing(db: Db, worker: Text, reqs: seq<Spec>)
    requires SingleScopes(db, worker, reqs)
    ensures NothingShadowed(db, worker, reqs)
  {
    hide Requires, ScopeFor;
    forall p, req, scope | req in reqs && Requires(req, SetOf(db), p, worker, scope)
      ensures Reached(db, worker, reqs, req.form, scope)
    {
      RuleScopeIsScope(db, worker, reqs, p, req, scope);
      assert Reaches(db, worker, reqs, req.form, scope.s, p, req);
    }
  }

  const SITES: Db := [
    Fact(Lit("p"), TYPE, Str(PLACEMENT)), Fact(Lit("p"), WORKER, Str(Lit("w"))),
    Fact(Lit("p"), Lit("site"), Str(Lit("x"))), Fact(Lit("p"), Lit("site"), Str(Lit("y")))]

  const PER_SITE := Spec(Lit("form"), Lit("site"), None)

  lemma SiteNames()
    ensures |Lit("site")| == 4 && |TYPE| == 4 && |WORKER| == 6 && Lit("site") != TYPE && Lit("x") != Lit("y")
  {
    assert Lit("site")[0] == 115 && TYPE[0] == 116;
    assert Lit("x")[0] == 120 && Lit("y")[0] == 121;
  }

  lemma SitesInOrder()
    ensures FirstString(ValuesOf(SITES, Lit("p"), Lit("site"))) == Some(Lit("x"))
  {
    SiteNames();
    var keep := AttrOf(Lit("p"), Lit("site"));
    FilterNext(SITES, 0, keep);
    FilterNext(SITES, 1, keep);
    FilterNext(SITES, 2, keep);
    FilterNext(SITES, 3, keep);
    TakeAll(SITES);
    assert SITES[..0] == [];
    assert Filter(SITES, keep) == [SITES[2], SITES[3]];
  }

  /** A placement with two sites: the rules require the form for both, the plan for the first. */
  lemma SecondScopeIsShadowed()
    ensures Plain(PER_SITE) && !NothingShadowed(SITES, Lit("w"), [PER_SITE])
  {
    SiteNames();
    SitesInOrder();
    assert Lit("site")[0] == 115;
    assert SITES[0] in SITES && SITES[1] in SITES && SITES[3] in SITES;
    assert Requires(PER_SITE, SetOf(SITES), Lit("p"), Lit("w"), Str(Lit("y")));
    forall p, req ensures !Reaches(SITES, Lit("w"), [PER_SITE], PER_SITE.form, Lit("y"), p, req) {
      if Fact(p, WORKER, Str(Lit("w"))) in SITES { assert p == Lit("p"); }
    }
  }

  // ---- materialising --------------------------------------------------------------------------------

  predicate Managed(a: Text) { REQUIRES <= a || TASK <= a }

  function ManagedOf(worker: Text): Fact -> bool { (f: Fact) => f.e == worker && Managed(f.a) }

  function FactKey(json: Value -> Text, f: Fact): Text { Join(f.a, json(f.v)) }

  /** A string prints as its JSON text, and nothing else does. */
  ghost predicate PrintsStrings(json: Value -> Text) {
    forall s, v :: json(v) == JsonString(s) <==> v == Str(s)
  }

  datatype Materialized = Failed | Written(asserted: seq<Desired>, retracted: seq<Fact>)

  function Missing(json: Value -> Text, existing: seq<Fact>): Desired -> bool {
    (d: Desired) => DesiredKey(d) !in (set f | f in existing :: FactKey(json, f))
  }

  function Stale(json: Value -> Text, desired: seq<Desired>): Fact -> bool {
    (f: Fact) => FactKey(json, f) !in (set d | d in desired :: DesiredKey(d))
  }

  /** Assert what is missing, then retract what is stale. */
  method MaterializeOwnedCompliance(db: Db, worker: Text, rules: seq<Rule>, json: Value -> Text) returns (r: Materialized)
    requires CleanForms(rules) && PrintsStrings(json)
    requires forall f :: f in db && f.e == worker && Managed(f.a) ==> NoNul(f.a)
    ensures r == Failed <==>
              (forall f :: f in db ==> f.e != worker) || Fact(worker, TYPE, WORKER_TYPE) !in db || UnsupportedOf(rules) != []
    ensures r.Written? ==> WritesOf(db, worker, RequirementsOf(rules), r.asserted, r.retracted)
  {
    hide DesiredOf, Wanted, UnsupportedOf, PrintsStrings, Missing, Stale, ManagedOf, Managed, WritesOf;
    var plan := BuildOwnedCompliancePlan(db, worker, rules);
    if plan.Planned? { Ordering.SameElements(plan.unsupported, UnsupportedOf(rules)); }
    if !plan.Planned? || plan.unsupported != [] { return Failed; }
    var desired := DesiredComplianceFacts(plan.items);
    var existing := Filter(db, ManagedOf(worker));
    var asserted: seq<Desired>, retracted: seq<Fact> := [], [];
    for i := 0 to |desired|
      invariant asserted == Filter(desired[..i], Missing(json, existing))
    {
      FilterNext(desired, i, Missing(json, existing));
      if Missing(json, existing)(desired[i]) { asserted := asserted + [desired[i]]; }
    }
    for i := 0 to |existing|
      invariant retracted == Filter(existing[..i], Stale(json, desired))
    {
      FilterNext(existing, i, Stale(json, desired));
      if Stale(json, desired)(existing[i]) { retracted := retracted + [existing[i]]; }
    }
    TakeAll(desired);
    TakeAll(existing);
    WrittenIs(db, worker, RequirementsOf(rules), json, desired, existing);
    r := Written(asserted, retracted);
  }

  lemma WrittenIs(db: Db, worker: Text, reqs: seq<Spec>, json: Value -> Text, desired: seq<Desired>, existing: seq<Fact>)
    requires (forall r :: r in reqs ==> NoNul(r.form)) && PrintsStrings(json)
    requires forall d :: d in desired <==> Wanted(db, worker, reqs, d)
    requires existing == Filter(db, ManagedOf(worker)) && Fact(worker, TYPE, WORKER_TYPE) in db
    requires forall f :: f in db && f.e == worker && Managed(f.a) ==> NoNul(f.a)
    ensures WritesOf(db, worker, reqs, Filter(desired, Missing(json, existing)), Filter(existing, Stale(json, desired)))
  {
    hide Wanted, DesiredKey, FactKey, PrintsStrings, Managed;
    FilterMembers(db, ManagedOf(worker));
    FilterMembers(desired, Missing(json, existing));
    FilterMembers(existing, Stale(json, desired));
    forall d | d in desired ensures Managed(d.a) && NoNul(d.a) { WantedIsManaged(db, worker, reqs, d); }
    forall d | d in desired ensures Missing(json, existing)(d) <==> FactOf(worker, d) !in db {
      KeyOfDesired(db, worker, existing, json, d);
    }
    forall f | f in existing ensures Stale(json, desired)(f) <==> !(f.v.Str? && Desired(f.a, f.v.s) in desired) {
      KeyOfExisting(desired, json, f);
    }
  }

  lemma WantedIsManaged(db: Db, worker: Text, reqs: seq<Spec>, d: Desired)
    requires Wanted(db, worker, reqs, d) && forall r :: r in reqs ==> NoNul(r.form)
    ensures Managed(d.a) && NoNul(d.a)
  {
    hide ScopeFor, Submitted, IsPlacement;
    assert NoNul(REQUIRES) && NoNul(TASK);
    var p, req :| Wants(db, worker, reqs, d, p, req);
    assert (REQUIRES + req.form)[..|REQUIRES|] == REQUIRES && (TASK + req.form)[..|TASK|] == TASK;
  }

  /** A managed fact and a planned row have the same key only if the row becomes that fact. */
  lemma SameKey(worker: Text, json: Value -> Text, f: Fact, d: Desired)
    requires PrintsStrings(json) && NoNul(f.a) && NoNul(d.a) && f.e == worker
    ensures FactKey(json, f) == DesiredKey(d) <==> f == FactOf(worker, d)
  {
    if FactKey(json, f) == DesiredKey(d) {
      JoinInjective(f.a, json(f.v), d.a, JsonString(d.value));
    }
  }

  lemma KeyOfDesired(db: Db, worker: Text, existing: seq<Fact>, json: Value -> Text, d: Desired)
    requires PrintsStrings(json) && Managed(d.a) && NoNul(d.a)
    requires forall f :: f in existing <==> f in db && ManagedOf(worker)(f)
    requires forall f :: f in db && f.e == worker && Managed(f.a) ==> NoNul(f.a)
    ensures DesiredKey(d) in (set f | f in existing :: FactKey(json, f)) <==> FactOf(worker, d) in db
  {
    hide DesiredKey, FactKey;
    forall f | f in existing ensures FactKey(json, f) == DesiredKey(d) <==> f == FactOf(worker, d) { SameKey(worker, json, f, d); }
    if FactOf(worker, d) in db { assert FactOf(worker, d) in existing; }
  }

  lemma KeyOfExisting(desired: seq<Desired>, json: Value -> Text, f: Fact)
    requires PrintsStrings(json) && NoNul(f.a) && forall d :: d in desired ==> NoNul(d.a)
    ensures FactKey(json, f) in (set d | d in desired :: DesiredKey(d)) <==> f.v.Str? && Desired(f.a, f.v.s) in desired
  {
    hide DesiredKey, FactKey, PrintsStrings;
    forall d | d in desired ensures FactKey(json, f) == DesiredKey(d) <==> f == FactOf(f.e, d) { SameKey(f.e, json, f, d); }
    if f.v.Str? && Desired(f.a, f.v.s) in desired { assert f == FactOf(f.e, Desired(f.a, f.v.s)); }
  }

  // ---- materialising twice -----------------------------------------------------------------------------

  /** What the component's log makes of the writes: retracted facts go, asserted ones come last. */
  function AfterWrites(db: Db, worker: Text, asserted: seq<Desired>, retracted: seq<Fact>): Db {
    Filter(db, (f: Fact) => f !in retracted) + Map(asserted, (d: Desired) => FactOf(worker, d))
  }

  /** The scope reads no managed attribute but the one that the requirement itself keeps. */
  predicate KeepsScope(req: Spec) { Managed(req.scopeAttr) ==> req.scopeAttr == REQUIRES + req.form }

  predicate ReadsManaged(guard: Option<Guard>) { guard.Some? && Managed(guard.value.attr) }

  /** Every worker passes the guard. */
  predicate PassesWorkers(guard: Option<Guard>) { guard.None? || guard.value == Guard(TYPE, WORKER_TYPE) }

  /** A guard that reads a managed attribute is beside the point: the same is required of every worker. */
  predicate GuardSettled(reqs: seq<Spec>, req: Spec) {
    ReadsManaged(req.guard) ==>
      exists other :: other in reqs && other.form == req.form && other.scopeAttr == req.scopeAttr && PassesWorkers(other.guard)
  }

  predicate Settled(reqs: seq<Spec>) { forall req :: req in reqs ==> KeepsScope(req) && GuardSettled(reqs, req) }

  ghost predicate ManagedWrites(worker: Text, asserted: seq<Desired>, retracted: seq<Fact>) {
    (forall d :: d in asserted ==> Managed(d.a)) && (forall f :: f in retracted ==> ManagedOf(worker)(f))
  }

  lemma WritesAreManaged(db: Db, worker: Text, reqs: seq<Spec>, asserted: seq<Desired>, retracted: seq<Fact>)
    requires WritesOf(db, worker, reqs, asserted, retracted) && forall r :: r in reqs ==> NoNul(r.form)
    ensures ManagedWrites(worker, asserted, retracted)
  {
    hide Wanted, Managed;
    forall d | d in asserted ensures Managed(d.a) { WantedIsManaged(db, worker, reqs, d); }
  }

  lemma {:induction false} FilterFilter(db: Db, keep: Fact -> bool, p: Fact -> bool)
    requires forall f :: f in db && p(f) ==> keep(f)
    ensures Filter(Filter(db, keep), p) == Filter(db, p)
  {
    if db != [] {
      FilterFilter(db[1..], keep, p);
      if keep(db[0]) { FilterAppend([db[0]], Filter(db[1..], keep), p); FilterAppend([db[0]], db[1..], p); assert db == [db[0]] + db[1..]; }
    }
  }

  /** Nothing but the worker's managed facts changes, order included. */
  lemma OthersStay(db: Db, worker: Text, asserted: seq<Desired>, retracted: seq<Fact>, p: Fact -> bool)
    requires ManagedWrites(worker, asserted, retracted) && forall f :: p(f) ==> !ManagedOf(worker)(f)
    ensures Filter(AfterWrites(db, worker, asserted, retracted), p) == Filter(db, p)
  {
    var kept, more := Filter(db, (f: Fact) => f !in retracted), Map(asserted, (d: Desired) => FactOf(worker, d));
    FilterFilter(db, (f: Fact) => f !in retracted, p);
    FilterAppend(kept, more, p);
    forall i | 0 <= i < |more| ensures !p(more[i]) { assert asserted[i] in asserted; }
    FilterNone(more, p);
    AppendNil(Filter(kept, p));
  }

  /** What holds after the writes. */
  lemma AfterMember(db: Db, worker: Text, asserted: seq<Desired>, retracted: seq<Fact>, f: Fact)
    ensures f in AfterWrites(db, worker, asserted, retracted) <==>
              (f in db && f !in retracted) || (f.e == worker && f.v.Str? && Desired(f.a, f.v.s) in asserted)
  {
    var more := Map(asserted, (d: Desired) => FactOf(worker, d));
    FilterMember(db, (g: Fact) => g !in retracted, f);
    if f in more {
      var i :| 0 <= i < |more| && more[i] == f;
      assert asserted[i] in asserted && f == FactOf(worker, asserted[i]);
    }
    if f.e == worker && f.v.Str? && Desired(f.a, f.v.s) in asserted {
      var i :| 0 <= i < |asserted| && asserted[i] == Desired(f.a, f.v.s);
      assert more[i] == f;
    }
  }

  lemma OtherFactStays(db: Db, worker: Text, asserted: seq<Desired>, retracted: seq<Fact>, f: Fact)
    requires ManagedWrites(worker, asserted, retracted) && !ManagedOf(worker)(f)
    ensures f in AfterWrites(db, worker, asserted, retracted) <==> f in db
  {
    hide AfterWrites;
    AfterMember(db, worker, asserted, retracted, f);
  }

  lemma UnmanagedNames(form: Text)
    ensures !Managed(TYPE) && !Managed(WORKER) && !Managed(SUBMITTED + form)
  {
    assert REQUIRES[0] == 114 && TASK[0] == 116 && TASK[1] == 97;
    assert TYPE[0] == 116 && TYPE[1] == 121 && WORKER[0] == 119 && (SUBMITTED + form)[0] == SUBMITTED[0] == 115;
  }

  /** What materialising writes, for a plan that succeeded. */
  ghost predicate WritesOf(db: Db, worker: Text, reqs: seq<Spec>, asserted: seq<Desired>, retracted: seq<Fact>) {
    && Fact(worker, TYPE, WORKER_TYPE) in db
    && (forall d :: d in asserted <==> Wanted(db, worker, reqs, d) && FactOf(worker, d) !in db)
    && (forall f :: f in retracted <==>
          f in db && f.e == worker && Managed(f.a) && !(f.v.Str? && Wanted(db, worker, reqs, Desired(f.a, f.v.s))))
  }

  /** After the writes a worker's managed facts are exactly the wanted ones. */
  lemma WritesMakeExact(db: Db, worker: Text, reqs: seq<Spec>, asserted: seq<Desired>, retracted: seq<Fact>, f: Fact)
    requires WritesOf(db, worker, reqs, asserted, retracted)
    requires f.e == worker && Managed(f.a)
    ensures f in AfterWrites(db, worker, asserted, retracted) <==> f.v.Str? && Wanted(db, worker, reqs, Desired(f.a, f.v.s))
  {
    hide Wanted, Managed, AfterWrites;
    AfterMember(db, worker, asserted, retracted, f);
    assert f.v.Str? ==> FactOf(worker, Desired(f.a, f.v.s)) == f;
  }

  /** A scope whose guard reads nothing that the writes touch. */
  lemma ScopeStays(db: Db, worker: Text, asserted: seq<Desired>, retracted: seq<Fact>, p: Text, req: Spec, scope: Text)
    requires ManagedWrites(worker, asserted, retracted) && (p != worker || !Managed(req.scopeAttr))
    requires ReadsManaged(req.guard) ==> scope != worker
    ensures ScopeFor(AfterWrites(db, worker, asserted, retracted), p, req) == Some(scope) <==> ScopeFor(db, p, req) == Some(scope)
  {
    hide AfterWrites, Managed;
    OthersStay(db, worker, asserted, retracted, AttrOf(p, req.scopeAttr));
    if req.guard.Some? {
      OtherFactStays(db, worker, asserted, retracted, Fact(scope, req.guard.value.attr, req.guard.value.value));
    }
  }

  /** The first string of an attribute is the value of one of its facts; there is none if no fact has a string. */
  lemma FirstStringHolds(db: Db, e: Text, a: Text)
    ensures match FirstString(ValuesOf(db, e, a))
            case Some(s) => Fact(e, a, Str(s)) in db
            case None => forall s :: Fact(e, a, Str(s)) !in db
  {
    hide ValuesOf;
    var vs := ValuesOf(db, e, a);
    FirstStringIs(vs);
    forall v ensures v in vs <==> Fact(e, a, v) in db { ValuesMember(db, e, a, v); }
  }

  lemma {:induction false} FirstStringStays(vs: seq<Value>, more: seq<Value>)
    requires FirstString(vs).Some?
    ensures FirstString(vs + more) == FirstString(vs)
  {
    assert (vs + more)[0] == vs[0] && (vs + more)[1..] == vs[1..] + more;
    if !vs[0].Str? { FirstStringStays(vs[1..], more); }
  }

  lemma FirstStringNext(db: Db, e: Text, a: Text)
    requires db != []
    ensures FirstString(ValuesOf(db, e, a)) ==
              if AttrOf(e, a)(db[0]) && db[0].v.Str? then Some(db[0].v.s) else FirstString(ValuesOf(db[1..], e, a))
  {
    var rest, v := ValuesOf(db[1..], e, a), db[0].v;
    assert AttrOf(e, a)(db[0]) ==> ValuesOf(db, e, a) == [v] + rest;
    assert ([v] + rest)[1..] == rest;
  }

  /** A first string that is kept stays the first. */
  lemma {:induction false} FirstStays(db: Db, keep: Fact -> bool, e: Text, a: Text, s: Text)
    requires FirstString(ValuesOf(db, e, a)) == Some(s) && keep(Fact(e, a, Str(s)))
    ensures FirstString(ValuesOf(Filter(db, keep), e, a)) == Some(s)
  {
    if db != [] {
      hide ValuesOf, FirstString;
      var rest, f := db[1..], db[0];
      FirstStringNext(db, e, a);
      if keep(f) {
        FirstStringNext(Filter(db, keep), e, a);
        assert Filter(db, keep)[1..] == Filter(rest, keep);
      }
      if !(AttrOf(e, a)(f) && f.v.Str?) { FirstStays(rest, keep, e, a, s); }
    }
  }

  lemma SubmittedStays(db: Db, worker: Text, asserted: seq<Desired>, retracted: seq<Fact>, p: Text, form: Text, scope: Text)
    requires ManagedWrites(worker, asserted, retracted)
    ensures var db' := AfterWrites(db, worker, asserted, retracted);
            && (Fact(p, WORKER, Str(worker)) in db' <==> Fact(p, WORKER, Str(worker)) in db)
            && (IsPlacement(db', p) <==> IsPlacement(db, p)) && Submitted(db', worker, form, scope) == Submitted(db, worker, form, scope)
  {
    hide AfterWrites, Managed;
    UnmanagedNames(form);
    OtherFactStays(db, worker, asserted, retracted, Fact(p, WORKER, Str(worker)));
    OtherFactStays(db, worker, asserted, retracted, Fact(p, TYPE, Str(PLACEMENT)));
    OtherFactStays(db, worker, asserted, retracted, Fact(worker, SUBMITTED + form, Str(scope)));
  }

  /** A worker that is its own placement, its scope kept by the requirement itself. */
  predicate OwnScope(worker: Text, p: Text, req: Spec) { p == worker && req.scopeAttr == REQUIRES + req.form }

  lemma RequiresIsManaged(form: Text)
    ensures Managed(REQUIRES + form)
  {
    assert (REQUIRES + form)[..|REQUIRES|] == REQUIRES;
  }

  lemma OwnWantedBefore(db: Db, worker: Text, reqs: seq<Spec>, asserted: seq<Desired>, retracted: seq<Fact>, d: Desired, req: Spec)
    requires WritesOf(db, worker, reqs, asserted, retracted) && ManagedWrites(worker, asserted, retracted)
    requires OwnScope(worker, worker, req)
    requires Wants(AfterWrites(db, worker, asserted, retracted), worker, reqs, d, worker, req)
    ensures Wanted(db, worker, reqs, d)
  {
    hide AfterWrites, Managed, Submitted, WritesOf, ManagedWrites, ValuesOf, FirstString;
    var db' := AfterWrites(db, worker, asserted, retracted);
    FirstStringHolds(db', worker, req.scopeAttr);
    RequiresIsManaged(req.form);
    WritesMakeExact(db, worker, reqs, asserted, retracted, Fact(worker, req.scopeAttr, Str(d.value)));
    var p, other :| Wants(db, worker, reqs, Desired(req.scopeAttr, d.value), p, other);
    RequiresName(req.form, other.form);
    SubmittedStays(db, worker, asserted, retracted, p, req.form, d.value);
    assert Wants(db, worker, reqs, d, p, other);
  }

  lemma OwnWantedAfter(db: Db, worker: Text, reqs: seq<Spec>, asserted: seq<Desired>, retracted: seq<Fact>, d: Desired, req: Spec)
    requires WritesOf(db, worker, reqs, asserted, retracted) && ManagedWrites(worker, asserted, retracted)
    requires OwnScope(worker, worker, req) && (ReadsManaged(req.guard) ==> d.value != worker)
    requires Wants(db, worker, reqs, d, worker, req)
    ensures Wanted(AfterWrites(db, worker, asserted, retracted), worker, reqs, d)
  {
    hide Managed, Submitted, ValuesOf, FirstString;
    var db' := AfterWrites(db, worker, asserted, retracted);
    var own := Fact(worker, req.scopeAttr, Str(d.value));
    assert Wants(db, worker, reqs, Desired(req.scopeAttr, d.value), worker, req);
    var keep := (f: Fact) => f !in retracted;
    var more := Map(asserted, (d: Desired) => FactOf(worker, d));
    assert own !in retracted;
    FirstStays(db, keep, worker, req.scopeAttr, d.value);
    ValuesAppend(Filter(db, keep), more, worker, req.scopeAttr);
    FirstStringStays(ValuesOf(Filter(db, keep), worker, req.scopeAttr), ValuesOf(more, worker, req.scopeAttr));
    assert FirstString(ValuesOf(db', worker, req.scopeAttr)) == Some(d.value);
    if req.guard.Some? {
      OtherFactStays(db, worker, asserted, retracted, Fact(d.value, req.guard.value.attr, req.guard.value.value));
    }
    SubmittedStays(db, worker, asserted, retracted, worker, req.form, d.value);
    assert Wants(db', worker, reqs, d, worker, req);
  }

  lemma ValuesAppend(db: Db, more: Db, e: Text, a: Text)
    ensures ValuesOf(db + more, e, a) == ValuesOf(db, e, a) + ValuesOf(more, e, a)
  {
    FilterAppend(db, more, AttrOf(e, a));
  }

  /** Whoever wants it, a requirement wants it whose guard the writes leave alone. */
  lemma SettledWants(db: Db, worker: Text, reqs: seq<Spec>, d: Desired, p: Text, req: Spec) returns (other: Spec)
    requires Settled(reqs) && Fact(worker, TYPE, WORKER_TYPE) in db && Wants(db, worker, reqs, d, p, req)
    ensures Wants(db, worker, reqs, d, p, other) && (ReadsManaged(other.guard) ==> d.value != worker)
  {
    hide Managed, Submitted, ValuesOf, FirstString;
    UnmanagedNames(req.form);
    if ReadsManaged(req.guard) && d.value == worker {
      other :| other in reqs && other.form == req.form && other.scopeAttr == req.scopeAttr && PassesWorkers(other.guard);
    } else {
      other := req;
    }
  }

  lemma WantedAfter(db: Db, worker: Text, reqs: seq<Spec>, asserted: seq<Desired>, retracted: seq<Fact>, d: Desired, p: Text, req: Spec)
    requires WritesOf(db, worker, reqs, asserted, retracted) && ManagedWrites(worker, asserted, retracted)
    requires KeepsScope(req) && (ReadsManaged(req.guard) ==> d.value != worker) && Wants(db, worker, reqs, d, p, req)
    ensures Wanted(AfterWrites(db, worker, asserted, retracted), worker, reqs, d)
  {
    hide AfterWrites, ScopeFor, Managed, ManagedWrites, WritesOf, IsPlacement, Submitted, ReadsManaged;
    if OwnScope(worker, p, req) {
      OwnWantedAfter(db, worker, reqs, asserted, retracted, d, req);
    } else {
      SubmittedStays(db, worker, asserted, retracted, p, req.form, d.value);
      ScopeStays(db, worker, asserted, retracted, p, req, d.value);
      assert Wants(AfterWrites(db, worker, asserted, retracted), worker, reqs, d, p, req);
    }
  }

  lemma WantedBefore(db: Db, worker: Text, reqs: seq<Spec>, asserted: seq<Desired>, retracted: seq<Fact>, d: Desired, p: Text, req: Spec)
    requires WritesOf(db, worker, reqs, asserted, retracted) && ManagedWrites(worker, asserted, retracted)
    requires KeepsScope(req) && (ReadsManaged(req.guard) ==> d.value != worker)
    requires Wants(AfterWrites(db, worker, asserted, retracted), worker, reqs, d, p, req)
    ensures Wanted(db, worker, reqs, d)
  {
    hide AfterWrites, ScopeFor, Managed, ManagedWrites, WritesOf, IsPlacement, Submitted, ReadsManaged;
    if OwnScope(worker, p, req) {
      OwnWantedBefore(db, worker, reqs, asserted, retracted, d, req);
    } else {
      SubmittedStays(db, worker, asserted, retracted, p, req.form, d.value);
      ScopeStays(db, worker, asserted, retracted, p, req, d.value);
      assert Wants(db, worker, reqs, d, p, req);
    }
  }

  lemma IsWorkerStays(db: Db, worker: Text, asserted: seq<Desired>, retracted: seq<Fact>)
    requires ManagedWrites(worker, asserted, retracted)
    ensures Fact(worker, TYPE, WORKER_TYPE) in AfterWrites(db, worker, asserted, retracted) <==> Fact(worker, TYPE, WORKER_TYPE) in db
  {
    UnmanagedNames([]);
    hide AfterWrites, Managed;
    OtherFactStays(db, worker, asserted, retracted, Fact(worker, TYPE, WORKER_TYPE));
  }

  /** So the plan is the same before and after. */
  lemma WantedStays(db: Db, worker: Text, reqs: seq<Spec>, asserted: seq<Desired>, retracted: seq<Fact>, d: Desired)
    requires WritesOf(db, worker, reqs, asserted, retracted) && ManagedWrites(worker, asserted, retracted) && Settled(reqs)
    ensures Wanted(AfterWrites(db, worker, asserted, retracted), worker, reqs, d) <==> Wanted(db, worker, reqs, d)
  {
    hide AfterWrites, Managed, ManagedWrites, Wants, ReadsManaged, KeepsScope;
    var db' := AfterWrites(db, worker, asserted, retracted);
    IsWorkerStays(db, worker, asserted, retracted);
    if Wanted(db', worker, reqs, d) {
      var p, req :| Wants(db', worker, reqs, d, p, req);
      var other := SettledWants(db', worker, reqs, d, p, req);
      WantsIsOfReqs(db', worker, reqs, d, p, other);
      WantedBefore(db, worker, reqs, asserted, retracted, d, p, other);
    }
    if Wanted(db, worker, reqs, d) {
      var p, req :| Wants(db, worker, reqs, d, p, req);
      var other := SettledWants(db, worker, reqs, d, p, req);
      WantsIsOfReqs(db, worker, reqs, d, p, other);
      WantedAfter(db, worker, reqs, asserted, retracted, d, p, other);
    }
  }

  lemma WantsIsOfReqs(db: Db, worker: Text, reqs: seq<Spec>, d: Desired, p: Text, req: Spec)
    requires Wants(db, worker, reqs, d, p, req)
    ensures req in reqs
  {
  }

  /** Materialising again right away asserts and retracts nothing. */
  lemma MaterializeTwice(db: Db, worker: Text, reqs: seq<Spec>, a1: seq<Desired>, r1: seq<Fact>, a2: seq<Desired>, r2: seq<Fact>)
    requires (forall r :: r in reqs ==> NoNul(r.form)) && Settled(reqs)
    requires WritesOf(db, worker, reqs, a1, r1) && WritesOf(AfterWrites(db, worker, a1, r1), worker, reqs, a2, r2)
    ensures a2 == [] && r2 == []
  {
    hide Wanted, AfterWrites, ManagedWrites, Managed, Settled;
    var db' := AfterWrites(db, worker, a1, r1);
    WritesAreManaged(db, worker, reqs, a1, r1);
    forall d ensures Wanted(db', worker, reqs, d) <==> Wanted(db, worker, reqs, d) { WantedStays(db, worker, reqs, a1, r1, d); }
    if a2 != [] {
      var d := a2[0];
      assert d in a2;
      WantedIsManaged(db, worker, reqs, d);
      WritesMakeExact(db, worker, reqs, a1, r1, FactOf(worker, d));
    }
    if r2 != [] {
      var f := r2[0];
      assert f in r2;
      WritesMakeExact(db, worker, reqs, a1, r1, f);
    }
  }
}
