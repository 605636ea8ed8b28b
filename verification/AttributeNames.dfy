/**
 * Attribute names that look like variables: the rule language binds them, the planner looks them up as
 * they are written.
 */
module AttributeNames {
  import opened Seqs
  import opened Text
  import opened Core
  import opened Rules
  import opened Planner
  import opened Compliance

  /** The printed requirement derives the fact exactly when a placement puts it. */
  ghost predicate MeantAs(spec: Spec, db: set<Fact>, f: Fact) {
    Derives(RequirementRule(spec), db, f) <==> f.a == REQUIRES + spec.form && exists p :: Requires(spec, db, p, f.e, f.v)
  }

  const NAME := Lit("t")

  /** One name for everything: a placement, its worker, their scope and whatever attribute a variable may stand for. */
  function OneName(spec: Spec): Db {
    [Fact(NAME, TYPE, Str(PLACEMENT)), Fact(NAME, WORKER, Str(NAME)), Fact(NAME, AttrName(spec.scopeAttr), Str(NAME))] +
    (if spec.guard.Some? then [Fact(NAME, AttrName(spec.guard.value.attr), spec.guard.value.value)] else [])
  }

  function AttrName(a: Text): Text { if IsVariable(Str(a)) then NAME else a }

  function Constantly(v: Value): Text -> Value { (x: Text) => v }

  lemma OneNameHolds(spec: Spec)
    requires Readable(spec)
    ensures Derives(RequirementRule(spec), SetOf(OneName(spec)), Fact(NAME, REQUIRES + spec.form, Str(NAME)))
  {
    VariableNames();
    PlainPrefix(REQUIRES, spec.form);
    var sigma, db := Constantly(Str(NAME)), OneName(spec);
    var where := RequirementWhere(spec);
    forall i | 0 <= i < |where| ensures Holds(where[i], sigma, SetOf(db)) {
      assert db[i] in SetOf(db) && Matches(where[i].t, sigma, db[i]);
    }
    EmitMatches(REQUIRES + spec.form, sigma, Fact(NAME, REQUIRES + spec.form, Str(NAME)));
  }

  lemma NoSuchName(spec: Spec, f: Fact)
    requires Readable(spec) && f in OneName(spec)
    ensures !IsVariable(Str(f.a))
  {
    VariableNames();
    assert NAME[0] == 116;
  }

  /** No placement puts anything under a name that looks like a variable. */
  lemma OneNamePutsNothing(spec: Spec, p: Text, worker: Text, scope: Value)
    requires Readable(spec) && !Plain(spec)
    ensures !Requires(spec, SetOf(OneName(spec)), p, worker, scope)
  {
    hide OneName;
    if Requires(spec, SetOf(OneName(spec)), p, worker, scope) {
      if IsVariable(Str(spec.scopeAttr)) {
        NoSuchName(spec, Fact(p, spec.scopeAttr, scope));
      } else {
        NoSuchName(spec, Fact(scope.s, spec.guard.value.attr, spec.guard.value.value));
      }
    }
  }

  /**
   * A requirement that the parser can return means what it says, on all facts, exactly when no attribute
   * it names looks like a variable.
   */
  lemma MeantAsIff(spec: Spec)
    requires Readable(spec)
    ensures (forall db, f :: MeantAs(spec, db, f)) <==> Plain(spec)
  {
    hide Derives, Requires, RequirementRule, OneName;
    if Plain(spec) {
      forall db, f ensures MeantAs(spec, db, f) { RequirementMeaning(spec, db, f); }
    } else {
      OneNameHolds(spec);
      forall p ensures !Requires(spec, SetOf(OneName(spec)), p, NAME, Str(NAME)) { OneNamePutsNothing(spec, p, NAME, Str(NAME)); }
      assert !MeantAs(spec, SetOf(OneName(spec)), Fact(NAME, REQUIRES + spec.form, Str(NAME)));
    }
  }

  /** What the rule derives through such a name is not planned. */
  lemma VariableNameIsNotPlanned(spec: Spec, d: Desired)
    requires Readable(spec) && !Plain(spec)
    ensures Derives(RequirementRule(spec), SetOf(OneName(spec)), Fact(NAME, REQUIRES + spec.form, Str(NAME)))
    ensures !Wanted(OneName(spec), NAME, [spec], d)
  {
    OneNameHolds(spec);
    hide OneName, Requires, Derives;
    forall p, req ensures !Wants(OneName(spec), NAME, [spec], d, p, req) {
      if Wants(OneName(spec), NAME, [spec], d, p, req) {
        ScopeIsRuleScope(OneName(spec), NAME, p, spec, d.value);
        OneNamePutsNothing(spec, p, NAME, Str(d.value));
      }
    }
  }
}
