/** Requirement rules: printed by the collection package, parsed back by the planner, and what they mean. */
module Rules {
  import opened Seqs
  import opened Text
  import opened Core

  datatype Guard = Guard(attr: Text, value: Value)

  datatype Spec = Spec(form: Text, scopeAttr: Text, guard: Option<Guard>)

  datatype Triple = Triple(e: Value, a: Value, v: Value)

  datatype Clause = Pattern(t: Triple) | Not(t: Triple)

  datatype Rule = Rule(name: Text, where: Option<seq<Clause>>, emit: Option<Triple>)

  // ---- the printer ---------------------------------------------------------------------

  const REQUIRE := Lit("require.")
  const REQUIRES := Lit("requires.")
  const TASK := Lit("task.")
  const SUBMITTED := Lit("submitted.")
  const TYPE := Lit("type")
  const WORKER := Lit("worker")
  const PLACEMENT := Lit("Placement")
  const P := Str(Lit("?p"))
  const W := Str(Lit("?w"))
  const S := Str(Lit("?s"))

  const PLACEMENT_CLAUSE := Pattern(Triple(P, Str(TYPE), Str(PLACEMENT)))
  const WORKER_CLAUSE := Pattern(Triple(P, Str(WORKER), W))

  function ScopeClause(spec: Spec): Clause { Pattern(Triple(P, Str(spec.scopeAttr), S)) }

  function GuardClauses(spec: Spec): seq<Clause> {
    if spec.guard.Some? then [Pattern(Triple(S, Str(spec.guard.value.attr), spec.guard.value.value))] else []
  }

  function RequirementWhere(spec: Spec): seq<Clause> {
    [PLACEMENT_CLAUSE, WORKER_CLAUSE, ScopeClause(spec)] + GuardClauses(spec)
  }

  function RequirementRule(spec: Spec): Rule {
    Rule(REQUIRE + spec.form, Some(RequirementWhere(spec)), Some(Triple(W, Str(REQUIRES + spec.form), S)))
  }

  function TaskRule(spec: Spec): Rule {
    Rule(TASK + spec.form, Some(RequirementWhere(spec) + [Not(Triple(W, Str(SUBMITTED + spec.form), S))]),
         Some(Triple(W, Str(TASK + spec.form), S)))
  }

  // ---- the parser -----------------------------------------------------------------------

  predicate IsVariable(v: Value) { v.Str? && v.s != [] && v.s[0] == 63 }

  predicate IsScope(c: Clause) {
    c.Pattern? && c.t.e == P && c.t.a.Str? && c.t.a.s != TYPE && c.t.a.s != WORKER && c.t.v == S
  }

  predicate IsGuard(c: Clause) { c.Pattern? && c.t.e == S && c.t.a.Str? && !IsVariable(c.t.v) }

  datatype Parsed =
    | Requirement(spec: Spec)
    | NotRequirement | MissingParts | WrongEmit | MissingPlacementOrWorker | NotOneScope | SeveralGuards

  function ParseRequirementRule(rule: Rule): Parsed {
    if !(REQUIRE <= rule.name) then NotRequirement
    else
      var form := rule.name[|REQUIRE|..];
      if rule.where.None? || rule.emit.None? then MissingParts
      else if rule.emit.value != Triple(W, Str(REQUIRES + form), S) then WrongEmit
      else
        var patterns := rule.where.value;
        if PLACEMENT_CLAUSE !in patterns || WORKER_CLAUSE !in patterns then MissingPlacementOrWorker
        else
          var scopes, guards := Filter(patterns, IsScope), Filter(patterns, IsGuard);
          if |scopes| != 1 then NotOneScope
          else if |guards| > 1 then SeveralGuards
          else
            Requirement(Spec(form, scopes[0].t.a.s,
                             if |guards| == 1 then Some(Guard(guards[0].t.a.s, guards[0].t.v)) else None))
  }

  lemma VariableNames()
    ensures IsVariable(P) && IsVariable(W) && IsVariable(S) && P != S && P != W && W != S
    ensures |REQUIRE| == 8 && |REQUIRES| == 9 && |TASK| == 5 && |SUBMITTED| == 10 && |TYPE| == 4 && |WORKER| == 6
    ensures !IsVariable(Str(TYPE)) && !IsVariable(Str(WORKER)) && !IsVariable(Str(PLACEMENT)) && TYPE != WORKER
  {
    assert P.s[1] == 112 && W.s[1] == 119 && S.s[1] == 115;
    assert TYPE[0] == 116 && WORKER[0] == 119 && PLACEMENT[0] == 80;
  }

  predicate Readable(spec: Spec) {
    spec.scopeAttr != TYPE && spec.scopeAttr != WORKER && (spec.guard.Some? ==> !IsVariable(spec.guard.value.value))
  }

  /**
   * The parser recovers a printed requirement exactly when its scope attribute is neither "type" nor
   * "worker" and its guard value, if any, does not look like a variable.
   */
  lemma ParseInvertsPrintIff(spec: Spec)
    ensures ParseRequirementRule(RequirementRule(spec)) == Requirement(spec) <==> Readable(spec)
  {
    VariableNames();
    var where := RequirementWhere(spec);
    assert (REQUIRE + spec.form)[..|REQUIRE|] == REQUIRE && (REQUIRE + spec.form)[|REQUIRE|..] == spec.form;
    assert where[0] == PLACEMENT_CLAUSE && where[1] == WORKER_CLAUSE;
    PrintedScopes(spec);
    PrintedGuards(spec);
  }

  lemma PrintedScopes(spec: Spec)
    ensures Filter(RequirementWhere(spec), IsScope)
         == if spec.scopeAttr != TYPE && spec.scopeAttr != WORKER then [ScopeClause(spec)] else []
  {
    VariableNames();
    FilterFour(PLACEMENT_CLAUSE, WORKER_CLAUSE, ScopeClause(spec), GuardClauses(spec), IsScope);
  }

  lemma PrintedGuards(spec: Spec)
    ensures Filter(RequirementWhere(spec), IsGuard)
         == if spec.guard.Some? && !IsVariable(spec.guard.value.value) then GuardClauses(spec) else []
  {
    VariableNames();
    FilterFour(PLACEMENT_CLAUSE, WORKER_CLAUSE, ScopeClause(spec), GuardClauses(spec), IsGuard);
  }

  lemma FilterFour(a: Clause, b: Clause, c: Clause, rest: seq<Clause>, p: Clause -> bool)
    requires |rest| <= 1 && !p(a) && !p(b)
    ensures Filter([a, b, c] + rest, p) == (if p(c) then [c] else []) + (if rest != [] && p(rest[0]) then rest else [])
  {
    hide Filter;
    FilterAppend([a, b, c], rest, p);
    FilterAppend([a, b], [c], p);
    assert [a, b] + [c] == [a, b, c];
    FilterNone([a, b], p);
    FilterOne(c, p);
    if rest == [] {
      FilterNone(rest, p);
    } else {
      FilterOne(rest[0], p);
      assert rest == [rest[0]];
    }
  }

  lemma FilterOne(c: Clause, p: Clause -> bool)
    ensures Filter([c], p) == if p(c) then [c] else []
  {
    assert [c][1..] == [];
  }

  // ---- what a rule means ---------------------------------------------------------------------

  datatype Fact = Fact(e: Text, a: Text, v: Value)

  /** A term under an assignment of values to variable names. */
  function Valued(t: Value, sigma: Text -> Value): Value { if IsVariable(t) then sigma(t.s[1..]) else t }

  predicate Matches(t: Triple, sigma: Text -> Value, f: Fact) {
    Valued(t.e, sigma) == Str(f.e) && Valued(t.a, sigma) == Str(f.a) && Valued(t.v, sigma) == f.v
  }

  ghost predicate Holds(c: Clause, sigma: Text -> Value, db: set<Fact>) {
    match c
    case Pattern(t) => exists f :: f in db && Matches(t, sigma, f)
    case Not(t) => forall f :: f in db ==> !Matches(t, sigma, f)
  }

  /** Naive evaluation: some assignment satisfies every clause and makes the emitted triple this fact. */
  ghost predicate Derives(rule: Rule, db: set<Fact>, f: Fact) {
    rule.where.Some? && rule.emit.Some? &&
    exists sigma: Text -> Value :: (forall c :: c in rule.where.value ==> Holds(c, sigma, db)) && Matches(rule.emit.value, sigma, f)
  }

  /** Names that are constants to the rule language. */
  predicate Plain(spec: Spec) {
    && !IsVariable(Str(spec.scopeAttr))
    && (spec.guard.Some? ==> !IsVariable(Str(spec.guard.value.attr)) && !IsVariable(spec.guard.value.value))
  }

  /** A placement of the worker puts the scope, and the scope meets the guard. */
  ghost predicate Requires(spec: Spec, db: set<Fact>, p: Text, worker: Text, scope: Value) {
    && Fact(p, Lit("type"), Str(Lit("Placement"))) in db && Fact(p, Lit("worker"), Str(worker)) in db
    && Fact(p, spec.scopeAttr, scope) in db
    && (spec.guard.Some? ==> scope.Str? && Fact(scope.s, spec.guard.value.attr, spec.guard.value.value) in db)
  }

  lemma VariableValues(sigma: Text -> Value)
    ensures Valued(P, sigma) == sigma([112]) && Valued(W, sigma) == sigma([119]) && Valued(S, sigma) == sigma([115])
  {
    VariableNames();
    assert P.s[1..] == [112] && W.s[1..] == [119] && S.s[1..] == [115];
  }

  /** A constant pattern attribute turns a clause into a lookup. */
  lemma PatternIs(e: Value, a: Text, v: Value, sigma: Text -> Value, db: set<Fact>)
    requires !IsVariable(Str(a))
    ensures Holds(Pattern(Triple(e, Str(a), v)), sigma, db) <==>
              Valued(e, sigma).Str? && Fact(Valued(e, sigma).s, a, Valued(v, sigma)) in db
    ensures Holds(Not(Triple(e, Str(a), v)), sigma, db) <==>
              !(Valued(e, sigma).Str? && Fact(Valued(e, sigma).s, a, Valued(v, sigma)) in db)
  {
    var t := Triple(e, Str(a), v);
    if Valued(e, sigma).Str? {
      var f := Fact(Valued(e, sigma).s, a, Valued(v, sigma));
      assert Matches(t, sigma, f);
    }
  }

  lemma WhereHolds(spec: Spec, sigma: Text -> Value, db: set<Fact>)
    requires Plain(spec)
    ensures (forall c :: c in RequirementWhere(spec) ==> Holds(c, sigma, db)) <==>
              sigma([112]).Str? && (exists w :: sigma([119]) == w && Fact(sigma([112]).s, WORKER, w) in db) &&
              Fact(sigma([112]).s, TYPE, Str(PLACEMENT)) in db && Fact(sigma([112]).s, spec.scopeAttr, sigma([115])) in db &&
              (spec.guard.Some? ==> sigma([115]).Str? && Fact(sigma([115]).s, spec.guard.value.attr, spec.guard.value.value) in db)
  {
    hide Holds, Valued;
    VariableNames();
    VariableValues(sigma);
    PatternIs(P, TYPE, Str(PLACEMENT), sigma, db);
    PatternIs(P, WORKER, W, sigma, db);
    PatternIs(P, spec.scopeAttr, S, sigma, db);
    ConstantValue(Str(PLACEMENT), sigma);
    var where := RequirementWhere(spec);
    assert where[0] == PLACEMENT_CLAUSE && where[1] == WORKER_CLAUSE && where[2] == ScopeClause(spec);
    if spec.guard.Some? {
      PatternIs(S, spec.guard.value.attr, spec.guard.value.value, sigma, db);
      ConstantValue(spec.guard.value.value, sigma);
      assert where[3] == GuardClauses(spec)[0];
      assert where == [where[0], where[1], where[2], where[3]];
    } else {
      assert where == [where[0], where[1], where[2]];
    }
  }

  lemma ConstantValue(v: Value, sigma: Text -> Value)
    requires !IsVariable(v)
    ensures Valued(v, sigma) == v
  {
  }

  function Assignment(p: Text, w: Text, s: Value): Text -> Value {
    (x: Text) => if x == [112] then Str(p) else if x == [119] then Str(w) else s
  }

  lemma EmitMatches(a: Text, sigma: Text -> Value, f: Fact)
    requires !IsVariable(Str(a))
    ensures Matches(Triple(W, Str(a), S), sigma, f) <==> sigma([119]) == Str(f.e) && f.a == a && f.v == sigma([115])
  {
    VariableValues(sigma);
  }

  /** What the printed requirement derives. */
  lemma RequirementMeaning(spec: Spec, db: set<Fact>, f: Fact)
    requires Plain(spec)
    ensures Derives(RequirementRule(spec), db, f) <==>
              f.a == Lit("requires.") + spec.form && exists p :: Requires(spec, db, p, f.e, f.v)
  {
    hide Holds, Matches;
    PlainPrefix(REQUIRES, spec.form);
    var rule := RequirementRule(spec);
    if Derives(rule, db, f) {
      var sigma: Text -> Value :| (forall c :: c in rule.where.value ==> Holds(c, sigma, db)) && Matches(rule.emit.value, sigma, f);
      WhereHolds(spec, sigma, db);
      EmitMatches(REQUIRES + spec.form, sigma, f);
      assert Requires(spec, db, sigma([112]).s, f.e, f.v);
    }
    if f.a == REQUIRES + spec.form && exists p :: Requires(spec, db, p, f.e, f.v) {
      var p :| Requires(spec, db, p, f.e, f.v);
      var sigma := Assignment(p, f.e, f.v);
      WhereHolds(spec, sigma, db);
      EmitMatches(REQUIRES + spec.form, sigma, f);
    }
  }

  /** What the printed task derives: the same, unless the worker has submitted the form for the scope. */
  lemma TaskMeaning(spec: Spec, db: set<Fact>, f: Fact)
    requires Plain(spec)
    ensures Derives(TaskRule(spec), db, f) <==>
              f.a == Lit("task.") + spec.form && Fact(f.e, Lit("submitted.") + spec.form, f.v) !in db &&
              exists p :: Requires(spec, db, p, f.e, f.v)
  {
    hide Holds, Matches;
    PlainPrefix(TASK, spec.form);
    PlainPrefix(SUBMITTED, spec.form);
    var rule, not := TaskRule(spec), Not(Triple(W, Str(SUBMITTED + spec.form), S));
    assert rule.where.value == RequirementWhere(spec) + [not];
    if Derives(rule, db, f) {
      var sigma: Text -> Value :| (forall c :: c in rule.where.value ==> Holds(c, sigma, db)) && Matches(rule.emit.value, sigma, f);
      forall c | c in RequirementWhere(spec) ensures Holds(c, sigma, db) { assert c in rule.where.value; }
      assert rule.where.value[|rule.where.value| - 1] == not;
      WhereHolds(spec, sigma, db);
      EmitMatches(TASK + spec.form, sigma, f);
      VariableValues(sigma);
      PatternIs(W, SUBMITTED + spec.form, S, sigma, db);
      assert Requires(spec, db, sigma([112]).s, f.e, f.v);
    }
    if f.a == TASK + spec.form && Fact(f.e, SUBMITTED + spec.form, f.v) !in db && exists p :: Requires(spec, db, p, f.e, f.v) {
      var p :| Requires(spec, db, p, f.e, f.v);
      var sigma := Assignment(p, f.e, f.v);
      WhereHolds(spec, sigma, db);
      EmitMatches(TASK + spec.form, sigma, f);
      VariableValues(sigma);
      PatternIs(W, SUBMITTED + spec.form, S, sigma, db);
    }
  }

  lemma PlainPrefix(prefix: Text, form: Text)
    requires prefix in {REQUIRES, TASK, SUBMITTED}
    ensures !IsVariable(Str(prefix + form))
  {
    assert REQUIRES[0] == 114 && TASK[0] == 116 && SUBMITTED[0] == 115;
    assert (prefix + form)[0] == prefix[0];
  }
}
