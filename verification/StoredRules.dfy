/**
 * The rules as they are stored: what the planner makes of a table of printed rules, and of requirement
 * rules that say more than the parser reads.
 */
module StoredRules {
  import opened Seqs
  import opened Text
  import opened Core
  import opened Rules
  import opened Planner
  import opened Compliance

  // ---- printed tables ----------------------------------------------------------------------

  /** The two printed rules of each requirement. */
  function PrintedTable(specs: seq<Spec>): seq<Rule> {
    if specs == [] then []
    else PrintedTable(specs[..|specs| - 1]) + [RequirementRule(specs[|specs| - 1]), TaskRule(specs[|specs| - 1])]
  }

  ghost predicate AllReadable(specs: seq<Spec>) { forall s :: s in specs ==> Readable(s) && Plain(s) }

  lemma RequirementsSnoc(rules: seq<Rule>, rule: Rule)
    ensures RequirementsOf(rules + [rule])
         == RequirementsOf(rules) + (if ParseRequirementRule(rule).Requirement? then [ParseRequirementRule(rule).spec] else [])
    ensures UnsupportedOf(rules + [rule]) == UnsupportedOf(rules) + (if NotUnderstood(rule) then [rule.name] else [])
  {
    hide ParseRequirementRule;
    InitOfSnoc(rules, rule);
    FilterAppend(rules, [rule], NotUnderstood);
    assert [rule][1..] == [];
  }

  lemma TaskIsNoRequirement(spec: Spec)
    ensures !(REQUIRE <= TaskRule(spec).name)
  {
    VariableNames();
    assert REQUIRE[0] == 114 && (TASK + spec.form)[0] == 116;
  }

  /** The requirements read from a printed table are the ones it was printed from; nothing is unsupported. */
  lemma {:induction false} PrintedTableIsRead(specs: seq<Spec>)
    requires AllReadable(specs)
    ensures RequirementsOf(PrintedTable(specs)) == specs && UnsupportedOf(PrintedTable(specs)) == []
  {
    if specs != [] {
      var init, spec := specs[..|specs| - 1], specs[|specs| - 1];
      PrintedTableIsRead(init);
      ParseInvertsPrintIff(spec);
      TaskIsNoRequirement(spec);
      assert !NotUnderstood(RequirementRule(spec)) && !NotUnderstood(TaskRule(spec)) && !ParseRequirementRule(TaskRule(spec)).Requirement?;
      assert ParseRequirementRule(RequirementRule(spec)) == Requirement(spec);
      hide ParseRequirementRule, RequirementsOf, UnsupportedOf, NotUnderstood, RequirementRule, TaskRule;
      RequirementsSnoc(PrintedTable(init), RequirementRule(spec));
      RequirementsSnoc(PrintedTable(init) + [RequirementRule(spec)], TaskRule(spec));
      AppendAssoc(PrintedTable(init), [RequirementRule(spec)], [TaskRule(spec)]);
      assert [RequirementRule(spec)] + [TaskRule(spec)] == [RequirementRule(spec), TaskRule(spec)];
      SplitLast(specs);
    }
  }

  ghost predicate DerivedByTable(rules: seq<Rule>, db: set<Fact>, f: Fact) {
    exists rule :: rule in rules && Derives(rule, db, f)
  }

  lemma {:induction false} PrintedTableMember(specs: seq<Spec>, rule: Rule)
    ensures rule in PrintedTable(specs) <==> exists s :: s in specs && (rule == RequirementRule(s) || rule == TaskRule(s))
  {
    hide RequirementRule, TaskRule;
    if specs != [] {
      var init, spec := specs[..|specs| - 1], specs[|specs| - 1];
      PrintedTableMember(init, rule);
      SplitLast(specs);
    }
  }

  /** What a table keeps planned for a worker. */
  ghost predicate PlanMeansTable(db: Db, worker: Text, rules: seq<Rule>, f: Fact) {
    DerivedByTable(rules, SetOf(db), f) <==> f.v.Str? && Wanted(db, worker, RequirementsOf(rules), Desired(f.a, f.v.s))
  }

  /**
   * From a stored table of printed rules, the plan is exactly what the stored rules derive for the
   * worker if and only if no scope is shadowed.
   */
  lemma PrintedTablePlanIff(db: Db, worker: Text, specs: seq<Spec>)
    requires AllReadable(specs)
    ensures (forall f: Fact :: f.e == worker ==> PlanMeansTable(db, worker, PrintedTable(specs), f)) <==> NothingShadowed(db, worker, specs)
  {
    PrintedTableIsRead(specs);
    forall f: Fact ensures PlanMeansTable(db, worker, PrintedTable(specs), f) <==> PlanAgrees(db, worker, specs, f) {
      TableDerives(specs, SetOf(db), f);
    }
    hide PlanMeansTable, PlanAgrees, NothingShadowed;
    PlanMeansRulesIff(db, worker, specs);
  }

  lemma TableDerives(specs: seq<Spec>, db: set<Fact>, f: Fact)
    ensures DerivedByTable(PrintedTable(specs), db, f) <==> DerivedBy(specs, db, f)
  {
    hide Derives, RequirementRule, TaskRule, PrintedTable;
    if DerivedByTable(PrintedTable(specs), db, f) {
      var rule :| rule in PrintedTable(specs) && Derives(rule, db, f);
      PrintedTableMember(specs, rule);
    }
    if DerivedBy(specs, db, f) {
      var s :| s in specs && (Derives(RequirementRule(s), db, f) || Derives(TaskRule(s), db, f));
      PrintedTableMember(specs, RequirementRule(s));
      PrintedTableMember(specs, TaskRule(s));
    }
  }

  // ---- any accepted requirement rule -----------------------------------------------------------

  predicate Accepts(rule: Rule, spec: Spec) { ParseRequirementRule(rule) == Requirement(spec) }

  /** An accepted rule holds every clause of the printed one. */
  lemma AcceptedHoldsPrinted(rule: Rule, spec: Spec)
    requires Accepts(rule, spec)
    ensures rule.where.Some? && rule.emit == RequirementRule(spec).emit
    ensures forall c :: c in RequirementWhere(spec) ==> c in rule.where.value
  {
    var patterns := rule.where.value;
    var scopes, guards := Filter(patterns, IsScope), Filter(patterns, IsGuard);
    assert scopes[0] in scopes && scopes[0] == ScopeClause(spec);
    if spec.guard.Some? { assert guards[0] in guards && guards[0] == GuardClauses(spec)[0]; }
    FilterMember(patterns, IsScope, scopes[0]);
  }

  /** So whatever it derives, the rule printed again from what was read derives. */
  lemma AcceptedDerivesLess(rule: Rule, spec: Spec, db: set<Fact>, f: Fact)
    requires Accepts(rule, spec) && Derives(rule, db, f)
    ensures Derives(RequirementRule(spec), db, f)
  {
    AcceptedHoldsPrinted(rule, spec);
    hide Accepts, RequirementWhere, Holds, Matches;
    var sigma: Text -> Value :| (forall c :: c in rule.where.value ==> Holds(c, sigma, db)) && Matches(rule.emit.value, sigma, f);
    assert RequirementRule(spec).where == Some(RequirementWhere(spec));
  }

  /** A term with terms put for its variables. */
  function Filled(t: Value, theta: Text -> Value): Value { if IsVariable(t) then theta(t.s[1..]) else t }

  function FilledIn(t: Triple, theta: Text -> Value): Triple { Triple(Filled(t.e, theta), Filled(t.a, theta), Filled(t.v, theta)) }

  /** The terms put for the variables leave the placement, the worker and the scope as they are. */
  predicate KeepsNames(theta: Text -> Value) { theta([112]) == P && theta([119]) == W && theta([115]) == S }

  ghost predicate FoldsBy(rule: Rule, spec: Spec, theta: Text -> Value) {
    && rule.where.Some? && KeepsNames(theta)
    && forall c :: c in rule.where.value ==> c.Pattern? && Pattern(FilledIn(c.t, theta)) in RequirementWhere(spec)
  }

  /**
   * The rule says nothing that the parser does not read: with terms put for its other variables each
   * clause is one of those of the printed rule.
   */
  ghost predicate FoldsInto(rule: Rule, spec: Spec) { exists theta: Text -> Value :: FoldsBy(rule, spec, theta) }

  function Composed(theta: Text -> Value, sigma: Text -> Value): Text -> Value { (x: Text) => Valued(theta(x), sigma) }

  lemma FilledThenValued(t: Triple, theta: Text -> Value, sigma: Text -> Value, f: Fact)
    ensures Matches(FilledIn(t, theta), sigma, f) <==> Matches(t, Composed(theta, sigma), f)
  {
  }

  lemma ClauseFolds(c: Clause, spec: Spec, theta: Text -> Value, sigma: Text -> Value, db: set<Fact>)
    requires c.Pattern? && Pattern(FilledIn(c.t, theta)) in RequirementWhere(spec)
    requires forall d :: d in RequirementWhere(spec) ==> Holds(d, sigma, db)
    ensures Holds(c, Composed(theta, sigma), db)
  {
    hide RequirementWhere, FilledIn, Matches, Composed;
    assert Holds(Pattern(FilledIn(c.t, theta)), sigma, db);
    var g :| g in db && Matches(FilledIn(c.t, theta), sigma, g);
    FilledThenValued(c.t, theta, sigma, g);
  }

  lemma FoldedDerives(rule: Rule, spec: Spec, theta: Text -> Value, db: set<Fact>, f: Fact)
    requires FoldsBy(rule, spec, theta) && rule.emit == RequirementRule(spec).emit && Derives(RequirementRule(spec), db, f)
    ensures Derives(rule, db, f)
  {
    EmitKept(rule, spec, theta);
    hide RequirementWhere, FilledIn, Matches, Composed, Holds, KeepsNames;
    var sigma: Text -> Value :|
      (forall c :: c in RequirementWhere(spec) ==> Holds(c, sigma, db)) && Matches(RequirementRule(spec).emit.value, sigma, f);
    forall c | c in rule.where.value ensures Holds(c, Composed(theta, sigma), db) { ClauseFolds(c, spec, theta, sigma, db); }
    FilledThenValued(rule.emit.value, theta, sigma, f);
  }

  lemma AcceptedDerivesSame(rule: Rule, spec: Spec, db: set<Fact>, f: Fact)
    requires Accepts(rule, spec) && FoldsInto(rule, spec)
    ensures Derives(rule, db, f) <==> Derives(RequirementRule(spec), db, f)
  {
    AcceptedHoldsPrinted(rule, spec);
    hide Accepts, RequirementRule, Derives, FoldsBy;
    if Derives(rule, db, f) { AcceptedDerivesLess(rule, spec, db, f); }
    if Derives(RequirementRule(spec), db, f) {
      var theta: Text -> Value :| FoldsBy(rule, spec, theta);
      FoldedDerives(rule, spec, theta, db, f);
    }
  }

  lemma EmitKept(rule: Rule, spec: Spec, theta: Text -> Value)
    requires KeepsNames(theta) && rule.emit == RequirementRule(spec).emit
    ensures rule.emit.Some? && FilledIn(rule.emit.value, theta) == rule.emit.value
  {
    VariableNames();
    PlainPrefix(REQUIRES, spec.form);
    assert W.s[1..] == [119] && S.s[1..] == [115];
  }

  // ---- rules of patterns only: when they derive the same --------------------------------------------

  function NameLength(v: Value): nat { if v.Str? then |v.s| else 0 }

  function TripleLength(t: Triple): nat { NameLength(t.e) + NameLength(t.a) + NameLength(t.v) }

  /** Longer than any name in the clauses. */
  function LongerThan(clauses: seq<Clause>): (n: nat)
    ensures forall c :: c in clauses ==> TripleLength(c.t) < n
  {
    if clauses == [] then 0
    else
      var n := LongerThan(clauses[1..]);
      if TripleLength(clauses[0].t) < n then n else TripleLength(clauses[0].t) + 1
  }

  /** Three names that no clause mentions, for a placement, its worker and their scope. */
  function NewName(n: nat, i: nat): (r: Text)
    ensures |r| == n + i + 1 && !IsVariable(Str(r))
  {
    seq(n + i + 1, _ => 48)
  }

  function NameOf(n: nat): Text -> Value {
    (x: Text) => Str(NewName(n, if x == [112] then 0 else if x == [119] then 1 else 2))
  }

  /** The variable that a new name stands for. */
  function Back(n: nat, v: Value): Value {
    if v == Str(NewName(n, 0)) then P else if v == Str(NewName(n, 1)) then W else if v == Str(NewName(n, 2)) then S else v
  }

  function BackFact(n: nat, f: Fact): Triple { Triple(Back(n, Str(f.e)), Back(n, Str(f.a)), Back(n, f.v)) }

  function FactFor(t: Triple, n: nat): Fact {
    var e, a := Valued(t.e, NameOf(n)), Valued(t.a, NameOf(n));
    Fact(if e.Str? then e.s else [], if a.Str? then a.s else [], Valued(t.v, NameOf(n)))
  }

  /** The printed rule's clauses, each as the one fact that meets it. */
  ghost function OwnFacts(spec: Spec, n: nat): set<Fact> { set c | c in RequirementWhere(spec) :: FactFor(c.t, n) }

  lemma PrintedTerms(spec: Spec, c: Clause)
    requires c in RequirementWhere(spec) && Plain(spec)
    ensures c.Pattern? && c.t.e in {P, S} && c.t.a.Str? && !IsVariable(c.t.a) && (c.t.v in {W, S} || !IsVariable(c.t.v))
  {
    VariableNames();
  }

  lemma TermBack(t: Value, n: nat)
    requires NameLength(t) <= n && (t in {P, W, S} || !IsVariable(t))
    ensures Back(n, Valued(t, NameOf(n))) == t
  {
    VariableNames();
    VariableValues(NameOf(n));
  }

  lemma FactBack(spec: Spec, c: Clause, n: nat)
    requires c in RequirementWhere(spec) && Plain(spec) && TripleLength(c.t) < n
    ensures Matches(c.t, NameOf(n), FactFor(c.t, n)) && BackFact(n, FactFor(c.t, n)) == c.t
  {
    PrintedTerms(spec, c);
    VariableNames();
    VariableValues(NameOf(n));
    TermBack(c.t.e, n);
    TermBack(c.t.a, n);
    TermBack(c.t.v, n);
  }

  lemma FactsBack(spec: Spec, n: nat, f: Fact)
    requires Plain(spec) && f in OwnFacts(spec, n) && forall c :: c in RequirementWhere(spec) ==> TripleLength(c.t) < n
    ensures Pattern(BackFact(n, f)) in RequirementWhere(spec)
  {
    hide RequirementWhere, BackFact, FactFor, TripleLength;
    var c :| c in RequirementWhere(spec) && f == FactFor(c.t, n);
    FactBack(spec, c, n);
    PrintedTerms(spec, c);
  }

  /** The printed rule derives the fact about the new names. */
  lemma PrintedDerivesOwn(spec: Spec, n: nat)
    requires Plain(spec) && forall c :: c in RequirementWhere(spec) ==> TripleLength(c.t) < n
    ensures Derives(RequirementRule(spec), OwnFacts(spec, n), Fact(NewName(n, 1), REQUIRES + spec.form, Str(NewName(n, 2))))
  {
    var sigma := NameOf(n);
    hide RequirementWhere, FactFor, TripleLength, NameOf;
    forall c | c in RequirementWhere(spec) ensures Holds(c, sigma, OwnFacts(spec, n)) {
      FactBack(spec, c, n);
      PrintedTerms(spec, c);
      assert FactFor(c.t, n) in OwnFacts(spec, n);
    }
    OwnEmit(spec, n);
  }

  lemma OwnEmit(spec: Spec, n: nat)
    ensures RequirementRule(spec).emit.Some? &&
            Matches(RequirementRule(spec).emit.value, NameOf(n), Fact(NewName(n, 1), REQUIRES + spec.form, Str(NewName(n, 2))))
  {
    PlainPrefix(REQUIRES, spec.form);
    EmitMatches(REQUIRES + spec.form, NameOf(n), Fact(NewName(n, 1), REQUIRES + spec.form, Str(NewName(n, 2))));
  }

  function BackBy(n: nat, sigma: Text -> Value): Text -> Value { (x: Text) => Back(n, sigma(x)) }

  lemma FilledBack(t: Value, n: nat, sigma: Text -> Value)
    requires NameLength(t) <= n
    ensures Filled(t, BackBy(n, sigma)) == Back(n, Valued(t, sigma))
  {
  }

  lemma ClauseBack(c: Clause, spec: Spec, n: nat, sigma: Text -> Value)
    requires Plain(spec) && c.Pattern? && TripleLength(c.t) < n && forall d :: d in RequirementWhere(spec) ==> TripleLength(d.t) < n
    requires Holds(c, sigma, OwnFacts(spec, n))
    ensures Pattern(FilledIn(c.t, BackBy(n, sigma))) in RequirementWhere(spec)
  {
    var f :| f in OwnFacts(spec, n) && Matches(c.t, sigma, f);
    hide OwnFacts, RequirementWhere, Back;
    FactsBack(spec, n, f);
    FilledBack(c.t.e, n, sigma);
    FilledBack(c.t.a, n, sigma);
    FilledBack(c.t.v, n, sigma);
  }

  /** The placement of the new names is the only one. */
  lemma OnePlacement(spec: Spec, n: nat, sigma: Text -> Value)
    requires Plain(spec) && Readable(spec) && forall c :: c in RequirementWhere(spec) ==> TripleLength(c.t) < n
    requires Holds(PLACEMENT_CLAUSE, sigma, OwnFacts(spec, n)) && Holds(WORKER_CLAUSE, sigma, OwnFacts(spec, n))
    ensures Back(n, sigma([112])) == P
  {
    HasBoth(spec);
    ClauseBack(PLACEMENT_CLAUSE, spec, n, sigma);
    ClauseBack(WORKER_CLAUSE, spec, n, sigma);
    FilledAttrs(n, sigma);
    hide FilledIn, RequirementWhere, Back, BackBy, Holds, OwnFacts, TripleLength, Plain;
    NamedByBoth(spec, Back(n, sigma([112])), FilledIn(PLACEMENT_CLAUSE.t, BackBy(n, sigma)), FilledIn(WORKER_CLAUSE.t, BackBy(n, sigma)));
  }

  lemma FilledAttrs(n: nat, sigma: Text -> Value)
    ensures FilledIn(PLACEMENT_CLAUSE.t, BackBy(n, sigma)).e == FilledIn(WORKER_CLAUSE.t, BackBy(n, sigma)).e == Back(n, sigma([112]))
    ensures FilledIn(PLACEMENT_CLAUSE.t, BackBy(n, sigma)).a == Str(TYPE) && FilledIn(WORKER_CLAUSE.t, BackBy(n, sigma)).a == Str(WORKER)
  {
    VariableNames();
    assert P.s[1..] == [112];
  }

  /** Only the placement has both a type and a worker in the printed clauses. */
  lemma NamedByBoth(spec: Spec, e: Value, t1: Triple, t2: Triple)
    requires Readable(spec) && Pattern(t1) in RequirementWhere(spec) && Pattern(t2) in RequirementWhere(spec)
    requires t1.e == t2.e == e && t1.a == Str(TYPE) && t2.a == Str(WORKER)
    ensures e == P
  {
    VariableNames();
  }

  lemma OwnNamesKept(spec: Spec, n: nat, sigma: Text -> Value)
    requires Plain(spec) && Readable(spec) && forall c :: c in RequirementWhere(spec) ==> TripleLength(c.t) < n
    requires Holds(PLACEMENT_CLAUSE, sigma, OwnFacts(spec, n)) && Holds(WORKER_CLAUSE, sigma, OwnFacts(spec, n))
    requires Matches(Triple(W, Str(REQUIRES + spec.form), S), sigma, Fact(NewName(n, 1), REQUIRES + spec.form, Str(NewName(n, 2))))
    ensures KeepsNames(BackBy(n, sigma))
  {
    PlainPrefix(REQUIRES, spec.form);
    EmitMatches(REQUIRES + spec.form, sigma, Fact(NewName(n, 1), REQUIRES + spec.form, Str(NewName(n, 2))));
    hide Holds, RequirementWhere, OwnFacts;
    OnePlacement(spec, n, sigma);
  }

  lemma AcceptedIsReadable(rule: Rule, spec: Spec)
    requires Accepts(rule, spec)
    ensures Readable(spec)
  {
    var patterns := rule.where.value;
    var scopes, guards := Filter(patterns, IsScope), Filter(patterns, IsGuard);
    FilterMember(patterns, IsScope, scopes[0]);
    if spec.guard.Some? { FilterMember(patterns, IsGuard, guards[0]); }
  }

  predicate OnlyPatterns(rule: Rule) { rule.where.Some? && forall c :: c in rule.where.value ==> c.Pattern? }

  lemma OwnFoldsBy(rule: Rule, spec: Spec, n: nat, sigma: Text -> Value)
    requires Readable(spec) && Plain(spec) && OnlyPatterns(rule) && forall c :: c in rule.where.value ==> TripleLength(c.t) < n
    requires forall c :: c in RequirementWhere(spec) ==> c in rule.where.value
    requires forall c :: c in rule.where.value ==> Holds(c, sigma, OwnFacts(spec, n))
    requires Matches(Triple(W, Str(REQUIRES + spec.form), S), sigma, Fact(NewName(n, 1), REQUIRES + spec.form, Str(NewName(n, 2))))
    ensures FoldsBy(rule, spec, BackBy(n, sigma))
  {
    HasBoth(spec);
    hide RequirementWhere, Matches, Holds, OwnFacts, TripleLength, Readable, Plain, KeepsNames, FilledIn, BackBy;
    OwnNamesKept(spec, n, sigma);
    forall c | c in rule.where.value ensures Pattern(FilledIn(c.t, BackBy(n, sigma))) in RequirementWhere(spec) {
      ClauseBack(c, spec, n, sigma);
    }
  }

  lemma HasBoth(spec: Spec)
    ensures PLACEMENT_CLAUSE in RequirementWhere(spec) && WORKER_CLAUSE in RequirementWhere(spec)
  {
    var where := RequirementWhere(spec);
    assert where[0] == PLACEMENT_CLAUSE && where[1] == WORKER_CLAUSE;
  }

  lemma OwnFolds(rule: Rule, spec: Spec, n: nat)
    requires Accepts(rule, spec) && Plain(spec) && OnlyPatterns(rule) && forall c :: c in rule.where.value ==> TripleLength(c.t) < n
    requires Derives(rule, OwnFacts(spec, n), Fact(NewName(n, 1), REQUIRES + spec.form, Str(NewName(n, 2))))
    ensures FoldsInto(rule, spec)
  {
    hide *;
    AcceptedHoldsPrinted(rule, spec);
    AcceptedIsReadable(rule, spec);
    PrintedEmit(spec);
    var sigma := SatisfiedBy(rule, OwnFacts(spec, n), Fact(NewName(n, 1), REQUIRES + spec.form, Str(NewName(n, 2))));
    OwnFoldsBy(rule, spec, n, sigma);
    FoldsByIsFold(rule, spec, BackBy(n, sigma));
  }

  lemma PrintedEmit(spec: Spec)
    ensures RequirementRule(spec).emit == Some(Triple(W, Str(REQUIRES + spec.form), S))
  {
  }

  lemma SatisfiedBy(rule: Rule, db: set<Fact>, f: Fact) returns (sigma: Text -> Value)
    requires Derives(rule, db, f)
    ensures rule.where.Some? && rule.emit.Some?
    ensures (forall c :: c in rule.where.value ==> Holds(c, sigma, db)) && Matches(rule.emit.value, sigma, f)
  {
    hide Holds, Matches;
    sigma :| (forall c :: c in rule.where.value ==> Holds(c, sigma, db)) && Matches(rule.emit.value, sigma, f);
  }

  lemma FoldsByIsFold(rule: Rule, spec: Spec, theta: Text -> Value)
    requires FoldsBy(rule, spec, theta)
    ensures FoldsInto(rule, spec)
  {
  }

  ghost predicate DerivesAlike(rule: Rule, spec: Spec, db: set<Fact>, f: Fact) {
    Derives(rule, db, f) <==> Derives(RequirementRule(spec), db, f)
  }

  /**
   * An accepted rule of patterns derives the same as the rule it is taken for, on all facts, exactly when
   * it says nothing that the parser does not read, clauses that follow from the others aside.
   */
  lemma AcceptedDerivesSameIff(rule: Rule, spec: Spec)
    requires Accepts(rule, spec) && Plain(spec) && OnlyPatterns(rule)
    ensures (forall db, f :: DerivesAlike(rule, spec, db, f)) <==> FoldsInto(rule, spec)
  {
    hide Accepts, Derives, FoldsInto, RequirementWhere, TripleLength, OwnFacts, RequirementRule, Plain, OnlyPatterns;
    if FoldsInto(rule, spec) {
      forall db, f ensures DerivesAlike(rule, spec, db, f) { AcceptedDerivesSame(rule, spec, db, f); }
    } else {
      var db, f := DerivesOwnOnly(rule, spec);
      assert !DerivesAlike(rule, spec, db, f);
    }
  }

  /** Otherwise there are facts from which the printed rule derives one that the stored rule does not. */
  lemma DerivesOwnOnly(rule: Rule, spec: Spec) returns (db: set<Fact>, f: Fact)
    requires Accepts(rule, spec) && Plain(spec) && OnlyPatterns(rule) && !FoldsInto(rule, spec)
    ensures Derives(RequirementRule(spec), db, f) && !Derives(rule, db, f)
  {
    AcceptedHoldsPrinted(rule, spec);
    var n := LongerThan(rule.where.value);
    assert forall c :: c in RequirementWhere(spec) ==> c in rule.where.value;
    hide Accepts, Derives, FoldsInto, RequirementWhere, TripleLength, OwnFacts, RequirementRule, Plain, NewName, DerivesAlike;
    db, f := OwnFacts(spec, n), Fact(NewName(n, 1), REQUIRES + spec.form, Str(NewName(n, 2)));
    PrintedDerivesOwn(spec, n);
    if Derives(rule, db, f) { OwnFolds(rule, spec, n); }
  }

  // ---- tables of accepted rules ---------------------------------------------------------------------

  lemma {:induction false} RequirementsMember(rules: seq<Rule>, spec: Spec)
    ensures spec in RequirementsOf(rules) <==> exists rule :: rule in rules && Accepts(rule, spec)
  {
    hide ParseRequirementRule;
    if rules != [] {
      var init, last := rules[..|rules| - 1], rules[|rules| - 1];
      RequirementsMember(init, spec);
      SplitLast(rules);
      RequirementsSnoc(init, last);
      assert forall rule :: rule in rules <==> rule in init || rule == last;
      assert Accepts(last, spec) ==> spec in RequirementsOf(rules) && last in rules;
    }
  }

  /** A requirement rule of the table that the parser accepts derives the fact. */
  ghost predicate DerivedByAccepted(rules: seq<Rule>, db: set<Fact>, f: Fact) {
    exists rule, spec :: rule in rules && Accepts(rule, spec) && Derives(rule, db, f)
  }

  lemma DerivedIsRequirement(reqs: seq<Spec>, db: Db, f: Fact)
    requires (forall req :: req in reqs ==> Plain(req)) && REQUIRES <= f.a
    ensures DerivedBy(reqs, SetOf(db), f) <==> exists req :: req in reqs && Derives(RequirementRule(req), SetOf(db), f)
  {
    hide Derives, SetOf;
    forall req | req in reqs ensures !Derives(TaskRule(req), SetOf(db), f) {
      TaskMeaning(req, SetOf(db), f);
      RequiresName(f.a[|REQUIRES|..], req.form);
      assert f.a == REQUIRES + f.a[|REQUIRES|..];
    }
  }

  /** Nothing that accepted rules derive is missing from the plan when no scope is shadowed. */
  lemma AcceptedIsPlanned(db: Db, worker: Text, rules: seq<Rule>, f: Fact)
    requires (forall req :: req in RequirementsOf(rules) ==> Plain(req)) && NothingShadowed(db, worker, RequirementsOf(rules))
    requires f.e == worker && DerivedByAccepted(rules, SetOf(db), f)
    ensures f.v.Str? && Wanted(db, worker, RequirementsOf(rules), Desired(f.a, f.v.s))
  {
    var rule, spec :| rule in rules && Accepts(rule, spec) && Derives(rule, SetOf(db), f);
    AcceptedDerivesLess(rule, spec, SetOf(db), f);
    RequirementsMember(rules, spec);
    hide Accepts, Derives, RequirementsOf, NothingShadowed, Wanted;
    CompleteAt(db, worker, RequirementsOf(rules), f);
  }

  ghost predicate RequirementsMeanTable(db: Db, worker: Text, rules: seq<Rule>, f: Fact) {
    DerivedByAccepted(rules, SetOf(db), f) <==> f.v.Str? && Wanted(db, worker, RequirementsOf(rules), Desired(f.a, f.v.s))
  }

  /**
   * From any stored table whose accepted requirement rules say no more than the parser reads, the planned
   * requirements are exactly those that the stored rules derive, if and only if no scope is shadowed.
   */
  lemma StoredRequirementsIff(db: Db, worker: Text, rules: seq<Rule>)
    requires forall rule, spec :: rule in rules && Accepts(rule, spec) ==> FoldsInto(rule, spec) && Plain(spec)
    ensures (forall f: Fact :: f.e == worker && REQUIRES <= f.a ==> RequirementsMeanTable(db, worker, rules, f))
            <==> NothingShadowed(db, worker, RequirementsOf(rules))
  {
    var reqs := RequirementsOf(rules);
    forall req | req in reqs ensures Plain(req) { RequirementsMember(rules, req); }
    forall f: Fact | f.e == worker && REQUIRES <= f.a
      ensures RequirementsMeanTable(db, worker, rules, f) <==> PlanAgrees(db, worker, reqs, f)
    {
      AcceptedAre(db, rules, f);
    }
    hide RequirementsMeanTable, PlanAgrees, Accepts, RequirementsOf;
    PlanMeansRulesIff(db, worker, reqs);
    hide Requires, Reached;
    if forall f: Fact :: f.e == worker && REQUIRES <= f.a ==> RequirementsMeanTable(db, worker, rules, f) {
      forall p, req, scope | req in reqs && Requires(req, SetOf(db), p, worker, scope) ensures Reached(db, worker, reqs, req.form, scope) {
        assert REQUIRES <= REQUIRES + req.form;
        PlannedIsReached(db, worker, reqs, p, req, scope);
      }
    }
  }

  lemma AcceptedAre(db: Db, rules: seq<Rule>, f: Fact)
    requires forall rule, spec :: rule in rules && Accepts(rule, spec) ==> FoldsInto(rule, spec) && Plain(spec)
    requires REQUIRES <= f.a
    ensures DerivedByAccepted(rules, SetOf(db), f) <==> DerivedBy(RequirementsOf(rules), SetOf(db), f)
  {
    var reqs := RequirementsOf(rules);
    hide Accepts, FoldsInto, Derives, RequirementsOf, RequirementRule, DerivedBy;
    forall req | req in reqs ensures Plain(req) { RequirementsMember(rules, req); }
    DerivedIsRequirement(reqs, db, f);
    forall rule, spec | rule in rules && Accepts(rule, spec)
      ensures spec in reqs && (Derives(rule, SetOf(db), f) <==> Derives(RequirementRule(spec), SetOf(db), f))
    {
      RequirementsMember(rules, spec);
      AcceptedDerivesSame(rule, spec, SetOf(db), f);
    }
    forall req | req in reqs ensures exists rule :: rule in rules && Accepts(rule, req) { RequirementsMember(rules, req); }
  }

  // ---- a clause that is passed over -------------------------------------------------------------

  const SITE := Lit("site")
  const FORM := Lit("form")
  const PER_ONE_SITE := Spec(FORM, SITE, None)
  const ACTIVE_ONLY := Pattern(Triple(P, Str(Lit("status")), Str(Lit("active"))))

  /** The printed requirement with one more clause: the placement is active. */
  const ACTIVE_RULE := Rule(REQUIRE + FORM, Some([PLACEMENT_CLAUSE, WORKER_CLAUSE, ScopeClause(PER_ONE_SITE), ACTIVE_ONLY]),
                            Some(Triple(W, Str(REQUIRES + FORM), S)))
  const ONE_SITE: Db := [
    Fact(Lit("p"), TYPE, Str(PLACEMENT)), Fact(Lit("p"), WORKER, Str(Lit("w"))), Fact(Lit("p"), SITE, Str(Lit("x")))]

  lemma ActiveNames()
    ensures SITE != TYPE && SITE != WORKER && Lit("status") != SITE && Lit("status") != TYPE && Lit("status") != WORKER
    ensures !IsVariable(Str(SITE)) && !IsVariable(Str(Lit("status"))) && !IsVariable(Str(Lit("active")))
  {
    assert |SITE| == 4 && |TYPE| == 4 && |WORKER| == 6 && |Lit("status")| == 6;
    assert SITE[0] == 115 && TYPE[0] == 116 && WORKER[0] == 119 && Lit("status")[0] == 115 && Lit("active")[0] == 97;
  }

  lemma ActiveIsAccepted()
    ensures Accepts(ACTIVE_RULE, PER_ONE_SITE)
  {
    ActiveNames();
    VariableNames();
    var where := ACTIVE_RULE.where.value;
    assert (REQUIRE + FORM)[..|REQUIRE|] == REQUIRE && (REQUIRE + FORM)[|REQUIRE|..] == FORM;
    assert where[0] == PLACEMENT_CLAUSE && where[1] == WORKER_CLAUSE;
    assert where == [PLACEMENT_CLAUSE, WORKER_CLAUSE, ScopeClause(PER_ONE_SITE)] + [ACTIVE_ONLY];
    FilterFour(PLACEMENT_CLAUSE, WORKER_CLAUSE, ScopeClause(PER_ONE_SITE), [ACTIVE_ONLY], IsScope);
    FilterFour(PLACEMENT_CLAUSE, WORKER_CLAUSE, ScopeClause(PER_ONE_SITE), [ACTIVE_ONLY], IsGuard);
  }

  /** Accepted, but the clause is dropped: a requirement is planned that the stored rule does not derive. */
  lemma ExtraClauseIsDropped()
    ensures RequirementsOf([ACTIVE_RULE]) == [PER_ONE_SITE] && !FoldsInto(ACTIVE_RULE, PER_ONE_SITE)
    ensures var f := Fact(Lit("w"), REQUIRES + FORM, Str(Lit("x")));
            Wanted(ONE_SITE, Lit("w"), RequirementsOf([ACTIVE_RULE]), Desired(f.a, Lit("x"))) && !Derives(ACTIVE_RULE, SetOf(ONE_SITE), f)
  {
    ActiveIsAccepted();
    RequirementsSnoc([], ACTIVE_RULE);
    assert [] + [ACTIVE_RULE] == [ACTIVE_RULE];
    ActiveNotPrinted();
    ActiveIsWanted();
    ActiveNotDerived(Fact(Lit("w"), REQUIRES + FORM, Str(Lit("x"))));
  }

  lemma ActiveNotPrinted()
    ensures !FoldsInto(ACTIVE_RULE, PER_ONE_SITE)
  {
    ActiveNames();
    assert ACTIVE_RULE.where.value[3] == ACTIVE_ONLY && ACTIVE_ONLY in ACTIVE_RULE.where.value;
    assert RequirementWhere(PER_ONE_SITE) == [PLACEMENT_CLAUSE, WORKER_CLAUSE, ScopeClause(PER_ONE_SITE)];
    forall theta: Text -> Value ensures FilledIn(ACTIVE_ONLY.t, theta).a == Str(Lit("status")) {
    }
  }

  lemma ActiveIsWanted()
    ensures Wanted(ONE_SITE, Lit("w"), [PER_ONE_SITE], Desired(REQUIRES + FORM, Lit("x")))
  {
    ActiveNames();
    var keep := AttrOf(Lit("p"), SITE);
    FilterNext(ONE_SITE, 0, keep);
    FilterNext(ONE_SITE, 1, keep);
    FilterNext(ONE_SITE, 2, keep);
    TakeAll(ONE_SITE);
    assert ONE_SITE[..0] == [];
    assert Filter(ONE_SITE, keep) == [ONE_SITE[2]];
    assert ScopeFor(ONE_SITE, Lit("p"), PER_ONE_SITE) == Some(Lit("x"));
    assert ONE_SITE[0] in ONE_SITE && ONE_SITE[1] in ONE_SITE;
    assert Wants(ONE_SITE, Lit("w"), [PER_ONE_SITE], Desired(REQUIRES + FORM, Lit("x")), Lit("p"), PER_ONE_SITE);
  }

  lemma ActiveNotDerived(f: Fact)
    ensures !Derives(ACTIVE_RULE, SetOf(ONE_SITE), f)
  {
    ActiveNames();
    forall sigma: Text -> Value ensures !Holds(ACTIVE_ONLY, sigma, SetOf(ONE_SITE)) {
      PatternIs(P, Lit("status"), Str(Lit("active")), sigma, SetOf(ONE_SITE));
    }
    assert ACTIVE_RULE.where.value[3] == ACTIVE_ONLY && ACTIVE_ONLY in ACTIVE_RULE.where.value;
  }
}
