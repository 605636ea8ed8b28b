/**
 * The bounded flow interpreter, which parks at wait steps and is woken later: chaining it through its
 * parks does what one uninterrupted run with waits as no-ops would do.
 */
module Flow {
  import opened Seqs
  import opened Text
  import opened Core

  /** The current values of the subject's attributes. */
  type Attrs = map<Text, seq<Value>>

  datatype Pattern = Pattern(e: Value, a: Value, v: Value)

  datatype StepKind =
    | DoneStep
    | AssertStep(attr: Option<Text>, raw: Option<Value>)
    | NotifyStep
    | BranchStep(where: seq<Pattern>, subjectVar: Text, ifTrue: Text, ifFalse: Text)
    | CollectStep(form: Option<Text>, scope: Option<Value>)
    | ActionStep(resultAttr: Option<Text>, resultRaw: Option<Value>)
    | WaitStep
    | OtherStep

  /** An empty `next` stands for a missing one. */
  datatype Step = Step(id: Text, kind: StepKind, next: Text)

  /**
   * One run's surroundings: the flow's steps, the subject and the context. What an append makes of the
   * current values, how values are printed and how they convert to strings are parameters.
   */
  datatype Env = Env(
    steps: seq<Step>, subjectType: Option<Text>, subject: Text, context: map<Text, Value>,
    append: (Attrs, Text, Option<Value>) -> Attrs, json: Value -> Text, show: Value -> Text)

  const TYPE := Lit("type")
  const DONE := Lit("done")

  datatype Fact = Fact(a: Text, v: Option<Value>)

  datatype What =
    | Asserted(fact: Fact) | Notified | Branched(taken: bool, to: Text) | CollectSatisfied(form: Text, scope: Text)
    | CollectIssued(form: Text, scope: Text) | Acted(result: Option<Fact>) | Waited | Finished | NotSupported | Looped

  datatype Noted = Noted(stepId: Text, what: What)

  /** Why a segment ended; only `AtTimer` is woken by the scheduler. */
  datatype End = Completed | Unsupported | TooLong | AtCollect | AtTimer | Refused

  datatype Outcome = Outcome(end: End, at: Text, attrs: Attrs, facts: seq<Fact>, trace: seq<Noted>)

  // ---- values and conditions --------------------------------------------------------

  function ValuesOf(attrs: Attrs, a: Text): seq<Value> { if a in attrs then attrs[a] else [] }

  predicate HasValue(env: Env, attrs: Attrs, a: Text, v: Option<Value>) {
    v.Some? && exists x :: x in ValuesOf(attrs, a) && env.json(x) == env.json(v.value)
  }

  predicate StartsWith(t: Text, prefix: Text) { prefix <= t }

  const CTX := Lit("$ctx.")

  function Resolve(env: Env, raw: Option<Value>): Option<Value> {
    if raw.None? || !raw.value.Str? then raw
    else if raw.value.s == Lit("$subject") then Some(Str(env.subject))
    else if StartsWith(raw.value.s, CTX) then
      var name := raw.value.s[|CTX|..];
      if name in env.context then Some(env.context[name]) else None
    else raw
  }

  predicate SubjectTerm(env: Env, term: Value, subjectVar: Text) {
    term in {Str(Lit("?") + subjectVar), Str(Lit("$subject")), Str(env.subject)}
  }

  predicate PatternHolds(env: Env, attrs: Attrs, p: Pattern, subjectVar: Text) {
    && SubjectTerm(env, p.e, subjectVar) && p.a.Str?
    && !(p.v.Str? && StartsWith(p.v.s, Lit("?")))
    && HasValue(env, attrs, p.a.s, Resolve(env, Some(p.v)))
  }

  predicate BranchMatches(env: Env, attrs: Attrs, where: seq<Pattern>, subjectVar: Text) {
    where != [] && forall p :: p in where ==> PatternHolds(env, attrs, p, subjectVar)
  }

  function CollectScope(env: Env, raw: Option<Value>): Text {
    var v := Resolve(env, raw);
    if v.Some? then env.show(v.value) else []
  }

  function FindStep(steps: seq<Step>, id: Text): Option<Step> {
    if steps == [] then None else if steps[0].id == id then Some(steps[0]) else FindStep(steps[1..], id)
  }

  // ---- one iteration of the interpreter ----------------------------------------------------

  /** An iteration goes on to another step, halts, or parks at a wait. */
  datatype Move =
    | Go(attrs: Attrs, facts: seq<Fact>, trace: seq<Noted>, next: Text)
    | Halt(outcome: Outcome)
    | Park(at: Text, trace: seq<Noted>, next: Text)

  /** A missing next step completes the flow. */
  function Advance(attrs: Attrs, facts: seq<Fact>, trace: seq<Noted>, next: Text): Move {
    if next == [] then Halt(Outcome(Completed, DONE, attrs, facts, trace + [Noted(DONE, Finished)]))
    else Go(attrs, facts, trace, next)
  }

  function OrDone(id: Text): Text { if id == [] then DONE else id }

  function Do(env: Env, attrs: Attrs, id: Text): Move {
    var found := FindStep(env.steps, id);
    if found.None? || found.value.kind.DoneStep? then
      Halt(Outcome(Completed, OrDone(id), attrs, [], [Noted(OrDone(id), Finished)]))
    else
      var step := found.value;
      match step.kind
      case AssertStep(attr, raw) =>
        if attr.None? then Halt(Outcome(Unsupported, step.id, attrs, [], [Noted(step.id, NotSupported)]))
        else
          var fact := Fact(attr.value, Resolve(env, raw));
          Advance(env.append(attrs, fact.a, fact.v), [fact], [Noted(step.id, Asserted(fact))], step.next)
      case NotifyStep => Advance(attrs, [], [Noted(step.id, Notified)], step.next)
      case BranchStep(where, subjectVar, ifTrue, ifFalse) =>
        var taken := BranchMatches(env, attrs, where, subjectVar);
        var to := if taken then ifTrue else ifFalse;
        if to == [] then Halt(Outcome(Completed, DONE, attrs, [], [Noted(step.id, Branched(taken, to))]))
        else Go(attrs, [], [Noted(step.id, Branched(taken, to))], to)
      case CollectStep(form, scope) =>
        if form.None? then Halt(Outcome(Unsupported, step.id, attrs, [], [Noted(step.id, NotSupported)]))
        else
          var s := CollectScope(env, scope);
          if HasValue(env, attrs, Lit("submitted.") + form.value, Some(Str(s))) then
            Advance(attrs, [], [Noted(step.id, CollectSatisfied(form.value, s))], step.next)
          else
            Halt(Outcome(AtCollect, step.id, attrs, [], [Noted(step.id, CollectIssued(form.value, s))]))
      case ActionStep(resultAttr, raw) =>
        if resultAttr.None? then Advance(attrs, [], [Noted(step.id, Acted(None))], step.next)
        else
          var fact := Fact(resultAttr.value, Resolve(env, raw));
          Advance(env.append(attrs, fact.a, fact.v), [fact], [Noted(step.id, Acted(Some(fact)))], step.next)
      case WaitStep => Park(step.id, [Noted(step.id, Waited)], step.next)
      case _ => Halt(Outcome(Unsupported, step.id, attrs, [], [Noted(step.id, NotSupported)]))
  }

  function Prepend(facts: seq<Fact>, trace: seq<Noted>, o: Outcome): Outcome {
    o.(facts := facts + o.facts, trace := trace + o.trace)
  }

  /** At most `fuel` iterations from a step, parking at waits. */
  function Run(env: Env, attrs: Attrs, id: Text, fuel: nat): Outcome
    decreases fuel
  {
    if fuel == 0 then Outcome(TooLong, id, attrs, [], [Noted(id, Looped)])
    else
      match Do(env, attrs, id)
      case Halt(o) => o
      case Park(at, trace, next) => Outcome(AtTimer, at, attrs, [], trace)
      case Go(attrs', facts, trace, next) => Prepend(facts, trace, Run(env, attrs', next, fuel - 1))
  }

  const FUEL := 50

  predicate TypeOk(env: Env, attrs: Attrs) {
    env.subjectType.Some? ==> HasValue(env, attrs, TYPE, Some(Str(env.subjectType.value)))
  }

  /** One segment; it is refused when the subject is not of the flow's type. */
  function Segment(env: Env, attrs: Attrs, id: Text): Outcome {
    if TypeOk(env, attrs) then Run(env, attrs, id, FUEL) else Outcome(Refused, id, attrs, [], [])
  }

  lemma PrependAssoc(f1: seq<Fact>, t1: seq<Noted>, f2: seq<Fact>, t2: seq<Noted>, o: Outcome)
    ensures Prepend(f1, t1, Prepend(f2, t2, o)) == Prepend(f1 + f2, t1 + t2, o)
  {
    AppendAssoc(f1, f2, o.facts);
    AppendAssoc(t1, t2, o.trace);
  }

  // ---- what an outcome says, told from its trace ---------------------------------------------------

  /** The first step of that id. */
  ghost predicate IsStep(env: Env, id: Text, s: Step) {
    exists k :: 0 <= k < |env.steps| && env.steps[k] == s && s.id == id && forall j :: 0 <= j < k ==> env.steps[j].id != id
  }

  ghost predicate NoStep(env: Env, id: Text) { forall s :: s in env.steps ==> s.id != id }

  /** What a configured value stands for: the subject, a name of the context, or itself. */
  ghost predicate StandsFor(env: Env, raw: Option<Value>, v: Option<Value>) {
    && (raw.None? ==> v.None?)
    && (raw == Some(Str(Lit("$subject"))) ==> v == Some(Str(env.subject)))
    && (forall name :: raw == Some(Str(Lit("$ctx.") + name)) ==> v == if name in env.context then Some(env.context[name]) else None)
    && (raw.Some? && raw != Some(Str(Lit("$subject"))) && (forall name :: raw != Some(Str(Lit("$ctx.") + name))) ==> v == raw)
  }

  /** The attribute has a value that prints the same. */
  ghost predicate Held(env: Env, attrs: Attrs, a: Text, v: Option<Value>) {
    v.Some? && a in attrs && exists x :: x in attrs[a] && env.json(x) == env.json(v.value)
  }

  /** The pattern is about the subject and a value that the subject holds. */
  ghost predicate Met(env: Env, attrs: Attrs, p: Pattern, subjectVar: Text) {
    && (p.e == Str(Lit("?") + subjectVar) || p.e == Str(Lit("$subject")) || p.e == Str(env.subject))
    && p.a.Str? && !(p.v.Str? && p.v.s != [] && p.v.s[0] == 63)
    && exists v :: StandsFor(env, Some(p.v), v) && Held(env, attrs, p.a.s, v)
  }

  ghost predicate ScopeIs(env: Env, raw: Option<Value>, scope: Text) {
    exists v :: StandsFor(env, raw, v) && scope == if v.Some? then env.show(v.value) else []
  }

  ghost predicate SetBy(env: Env, fact: Fact, a: Text, raw: Option<Value>) { fact.a == a && StandsFor(env, raw, fact.v) }

  /** What a step of that kind notes when the subject holds these values. */
  ghost predicate Notes(env: Env, attrs: Attrs, kind: StepKind, what: What) {
    match kind
    case DoneStep => what == Finished
    case AssertStep(a, raw) => if a.None? then what == NotSupported else what.Asserted? && SetBy(env, what.fact, a.value, raw)
    case NotifyStep => what == Notified
    case BranchStep(where, subjectVar, ifTrue, ifFalse) =>
      && what.Branched? && what.to == (if what.taken then ifTrue else ifFalse)
      && (what.taken <==> where != [] && forall p :: p in where ==> Met(env, attrs, p, subjectVar))
    case CollectStep(form, raw) =>
      if form.None? then what == NotSupported
      else
        exists scope :: ScopeIs(env, raw, scope) &&
          what == if Held(env, attrs, Lit("submitted.") + form.value, Some(Str(scope))) then CollectSatisfied(form.value, scope)
                  else CollectIssued(form.value, scope)
    case ActionStep(a, raw) =>
      what.Acted? && if a.None? then what.result.None? else what.result.Some? && SetBy(env, what.result.value, a.value, raw)
    case WaitStep => what == Waited
    case OtherStep => what == NotSupported
  }

  /** One step of a run: where it was and what the subject held. */
  datatype Visit = Visit(id: Text, attrs: Attrs)

  ghost predicate NotedAt(env: Env, v: Visit, n: Noted) {
    (NoStep(env, v.id) && n == Noted(if v.id == [] then Lit("done") else v.id, Finished)) ||
    exists s :: IsStep(env, v.id, s) && Notes(env, v.attrs, s.kind, n.what) &&
      n.stepId == if s.kind.DoneStep? && v.id == [] then Lit("done") else v.id
  }

  predicate GoesOn(w: What) { w.Asserted? || w.Notified? || w.Branched? || w.CollectSatisfied? || w.Acted? }

  /** A branch leads to the arm it took, any other step to its next one. */
  ghost predicate LeadsTo(env: Env, id: Text, w: What, next: Text) {
    if w.Branched? then next == w.to else exists s :: IsStep(env, id, s) && next == s.next
  }

  function FactsIn(w: What): seq<Fact> {
    match w
    case Asserted(fact) => [fact]
    case Acted(Some(fact)) => [fact]
    case _ => []
  }

  function FactsOf(trace: seq<Noted>): seq<Fact> { FlatMap(trace, (n: Noted) => FactsIn(n.what)) }

  function Written(env: Env, attrs: Attrs, w: What): Attrs {
    match w
    case Asserted(fact) => env.append(attrs, fact.a, fact.v)
    case Acted(Some(fact)) => env.append(attrs, fact.a, fact.v)
    case _ => attrs
  }

  /** Each visit is at the step that the note before leads to, and sees what was written up to there. */
  ghost predicate Visited(env: Env, o: Outcome, visits: seq<Visit>) {
    && |visits| <= |o.trace|
    && (forall i :: 0 <= i < |visits| ==> NotedAt(env, visits[i], o.trace[i]))
    && (forall i :: 0 <= i < |visits| - 1 ==> Onward(env, visits[i], o.trace[i].what, visits[i + 1]))
  }

  ghost predicate Onward(env: Env, v: Visit, w: What, v': Visit) {
    GoesOn(w) && LeadsTo(env, v.id, w, v'.id) && v'.id != [] && v'.attrs == Written(env, v.attrs, w)
  }

  /** How it ended: halted or parked where the last note says, at a missing next step, or out of fuel. */
  ghost predicate EndedAt(env: Env, fuel: nat, o: Outcome, visits: seq<Visit>)
    requires visits != [] && |visits| <= |o.trace|
  {
    var n := |visits|;
    var w, v := o.trace[n - 1].what, visits[n - 1];
    if !GoesOn(w) then
      && |o.trace| == n && o.attrs == v.attrs && o.at == o.trace[n - 1].stepId
      && o.end == match w
                  case NotSupported => Unsupported
                  case CollectIssued(_, _) => AtCollect
                  case Waited => AtTimer
                  case _ => Completed
    else
      o.attrs == Written(env, v.attrs, w) && exists next :: LeadsTo(env, v.id, w, next) && EndsAhead(fuel, o, n, w, next)
  }

  ghost predicate EndsAhead(fuel: nat, o: Outcome, n: nat, w: What, next: Text)
    requires n <= |o.trace|
  {
    if next == [] then
      o.end == Completed && o.at == Lit("done") && o.trace[n..] == if w.Branched? then [] else [Noted(Lit("done"), Finished)]
    else
      n == fuel && o.end == TooLong && o.at == next && o.trace[n..] == [Noted(next, Looped)]
  }

  ghost predicate Follows(env: Env, attrs: Attrs, id: Text, fuel: nat, o: Outcome, visits: seq<Visit>) {
    && o.facts == FactsOf(o.trace) && |visits| <= fuel && Visited(env, o, visits)
    && if visits == [] then fuel == 0 && o == Outcome(TooLong, id, attrs, [], [Noted(id, Looped)])
       else visits[0] == Visit(id, attrs) && EndedAt(env, fuel, o, visits)
  }

  // ---- that this is what the interpreter does --------------------------------------------------------

  lemma {:induction false} FoundIsStep(steps: seq<Step>, id: Text)
    ensures match FindStep(steps, id)
            case None => forall s :: s in steps ==> s.id != id
            case Some(s) => exists k :: 0 <= k < |steps| && steps[k] == s && s.id == id && forall j :: 0 <= j < k ==> steps[j].id != id
  {
    if steps != [] && steps[0].id != id {
      FoundIsStep(steps[1..], id);
      if FindStep(steps[1..], id).Some? {
        var rest, s := steps[1..], FindStep(steps[1..], id).value;
        var k :| 0 <= k < |rest| && rest[k] == s && s.id == id && forall j :: 0 <= j < k ==> rest[j].id != id;
        assert steps[k + 1] == s;
        forall j | 0 <= j < k + 1 ensures steps[j].id != id { if j > 0 { assert steps[j] == rest[j - 1]; } }
      }
    }
  }

  lemma ResolveStandsFor(env: Env, raw: Option<Value>)
    ensures StandsFor(env, raw, Resolve(env, raw)) && forall v :: StandsFor(env, raw, v) ==> v == Resolve(env, raw)
  {
    if raw.Some? && raw.value.Str? {
      var t := raw.value.s;
      assert Lit("$subject")[1] == 115 && CTX[1] == 99;
      assert forall name: Text :: (CTX + name)[1] == CTX[1] && (CTX + name)[|CTX|..] == name && CTX <= CTX + name;
      if StartsWith(t, CTX) { assert t == CTX + t[|CTX|..]; }
    }
  }

  lemma HasValueHeld(env: Env, attrs: Attrs, a: Text, v: Option<Value>)
    ensures HasValue(env, attrs, a, v) <==> Held(env, attrs, a, v)
  {
  }

  lemma PatternMet(env: Env, attrs: Attrs, p: Pattern, subjectVar: Text)
    ensures PatternHolds(env, attrs, p, subjectVar) <==> Met(env, attrs, p, subjectVar)
  {
    hide Resolve, HasValue, Held, StandsFor;
    ResolveStandsFor(env, Some(p.v));
    assert Lit("?") == [63];
    if p.a.Str? { HasValueHeld(env, attrs, p.a.s, Resolve(env, Some(p.v))); }
  }

  lemma FactsOfOne(n: Noted)
    ensures FactsOf([n]) == FactsIn(n.what) && FactsOf([n, Noted(DONE, Finished)]) == FactsIn(n.what)
  {
    var f := (n: Noted) => FactsIn(n.what);
    assert [n][1..] == [] && [n, Noted(DONE, Finished)][1..] == [Noted(DONE, Finished)] && [Noted(DONE, Finished)][1..] == [];
    assert FlatMap([Noted(DONE, Finished)], f) == [];
    assert FactsIn(n.what) + [] == FactsIn(n.what);
  }

  /** What one iteration notes, and where it leaves things. */
  ghost predicate MoveNoted(env: Env, attrs: Attrs, id: Text, move: Move) {
    match move
    case Halt(o) => o.trace != [] && NotedAt(env, Visit(id, attrs), o.trace[0]) && o.facts == FactsOf(o.trace) && EndedAt(env, 1, o, [Visit(id, attrs)])
    case Park(at, trace, next) => trace == [Noted(at, Waited)] && NotedAt(env, Visit(id, attrs), Noted(at, Waited))
    case Go(attrs', facts, trace, next) =>
      |trace| == 1 && NotedAt(env, Visit(id, attrs), trace[0]) && facts == FactsOf(trace) && Onward(env, Visit(id, attrs), trace[0].what, Visit(next, attrs'))
  }

  lemma AdvanceNoted(env: Env, attrs: Attrs, s: Step, what: What)
    requires IsStep(env, s.id, s) && GoesOn(what) && !what.Branched? && NotedAt(env, Visit(s.id, attrs), Noted(s.id, what))
    ensures MoveNoted(env, attrs, s.id, Advance(Written(env, attrs, what), FactsIn(what), [Noted(s.id, what)], s.next))
  {
    FactsOfOne(Noted(s.id, what));
    hide NotedAt, IsStep;
    var n := Noted(s.id, what);
    assert LeadsTo(env, s.id, what, s.next);
    if s.next == [] {
      var o := Outcome(Completed, DONE, Written(env, attrs, what), FactsIn(what), [n] + [Noted(DONE, Finished)]);
      assert o.trace == [n, Noted(DONE, Finished)] && o.trace[1..] == [Noted(DONE, Finished)];
      assert EndsAhead(1, o, 1, what, []);
    }
  }

  lemma HaltNoted(env: Env, attrs: Attrs, id: Text, o: Outcome)
    requires |o.trace| == 1 && NotedAt(env, Visit(id, attrs), o.trace[0]) && !GoesOn(o.trace[0].what) && o.facts == [] && o.attrs == attrs
    requires o.at == o.trace[0].stepId
    requires o.end == match o.trace[0].what
                      case NotSupported => Unsupported
                      case CollectIssued(_, _) => AtCollect
                      case Waited => AtTimer
                      case _ => Completed
    ensures MoveNoted(env, attrs, id, Halt(o))
  {
    FactsOfOne(o.trace[0]);
    assert o.trace == [o.trace[0]];
  }

  lemma BranchNoted(env: Env, attrs: Attrs, s: Step, taken: bool, to: Text)
    requires NotedAt(env, Visit(s.id, attrs), Noted(s.id, Branched(taken, to)))
    ensures MoveNoted(env, attrs, s.id, if to == [] then Halt(Outcome(Completed, DONE, attrs, [], [Noted(s.id, Branched(taken, to))]))
                                        else Go(attrs, [], [Noted(s.id, Branched(taken, to))], to))
  {
    hide NotedAt;
    var n := Noted(s.id, Branched(taken, to));
    FactsOfOne(n);
    assert LeadsTo(env, s.id, n.what, to);
    if to == [] { assert EndsAhead(1, Outcome(Completed, DONE, attrs, [], [n]), 1, n.what, []); }
  }

  lemma NotedIs(env: Env, attrs: Attrs, s: Step, what: What)
    requires IsStep(env, s.id, s) && Notes(env, attrs, s.kind, what) && !s.kind.DoneStep?
    ensures NotedAt(env, Visit(s.id, attrs), Noted(s.id, what))
  {
    hide Notes, IsStep;
  }

  lemma BranchTaken(env: Env, attrs: Attrs, where: seq<Pattern>, subjectVar: Text)
    ensures BranchMatches(env, attrs, where, subjectVar) <==> where != [] && forall p :: p in where ==> Met(env, attrs, p, subjectVar)
  {
    hide PatternHolds, Met;
    forall p ensures PatternHolds(env, attrs, p, subjectVar) <==> Met(env, attrs, p, subjectVar) { PatternMet(env, attrs, p, subjectVar); }
  }

  lemma CollectNotes(env: Env, attrs: Attrs, form: Text, raw: Option<Value>)
    ensures var s := CollectScope(env, raw);
            Notes(env, attrs, CollectStep(Some(form), raw),
                  if HasValue(env, attrs, Lit("submitted.") + form, Some(Str(s))) then CollectSatisfied(form, s) else CollectIssued(form, s))
  {
    ResolveStandsFor(env, raw);
    hide StandsFor, Resolve, HasValue, Held;
    var s := CollectScope(env, raw);
    HasValueHeld(env, attrs, Lit("submitted.") + form, Some(Str(s)));
    assert ScopeIs(env, raw, s);
  }

  lemma DoNotes(env: Env, attrs: Attrs, id: Text)
    ensures MoveNoted(env, attrs, id, Do(env, attrs, id))
  {
    FoundIsStep(env.steps, id);
    var found := FindStep(env.steps, id);
    hide BranchMatches, HasValue, Held, Resolve, CollectScope, StandsFor, Met, MoveNoted, Advance, FindStep, NotedAt, ScopeIs;
    if found.None? || found.value.kind.DoneStep? {
      DoneNotes(env, attrs, id);
      HaltNoted(env, attrs, id, Outcome(Completed, OrDone(id), attrs, [], [Noted(OrDone(id), Finished)]));
    } else {
      var s := found.value;
      assert IsStep(env, id, s);
      match s.kind {
        case AssertStep(a, raw) =>
          ResolveStandsFor(env, raw);
          if a.None? {
            NotedIs(env, attrs, s, NotSupported);
            HaltNoted(env, attrs, id, Outcome(Unsupported, s.id, attrs, [], [Noted(s.id, NotSupported)]));
          } else {
            var what := Asserted(Fact(a.value, Resolve(env, raw)));
            NotedIs(env, attrs, s, what);
            AdvanceNoted(env, attrs, s, what);
          }
        case NotifyStep =>
          NotedIs(env, attrs, s, Notified);
          AdvanceNoted(env, attrs, s, Notified);
        case BranchStep(where, subjectVar, ifTrue, ifFalse) =>
          BranchTaken(env, attrs, where, subjectVar);
          var taken := BranchMatches(env, attrs, where, subjectVar);
          NotedIs(env, attrs, s, Branched(taken, if taken then ifTrue else ifFalse));
          BranchNoted(env, attrs, s, taken, if taken then ifTrue else ifFalse);
        case CollectStep(form, raw) =>
          if form.None? {
            NotedIs(env, attrs, s, NotSupported);
            HaltNoted(env, attrs, id, Outcome(Unsupported, s.id, attrs, [], [Noted(s.id, NotSupported)]));
          } else {
            CollectNotes(env, attrs, form.value, raw);
            var scope := CollectScope(env, raw);
            if HasValue(env, attrs, Lit("submitted.") + form.value, Some(Str(scope))) {
              NotedIs(env, attrs, s, CollectSatisfied(form.value, scope));
              AdvanceNoted(env, attrs, s, CollectSatisfied(form.value, scope));
            } else {
              NotedIs(env, attrs, s, CollectIssued(form.value, scope));
              HaltNoted(env, attrs, id, Outcome(AtCollect, s.id, attrs, [], [Noted(s.id, CollectIssued(form.value, scope))]));
            }
          }
        case ActionStep(a, raw) =>
          ResolveStandsFor(env, raw);
          var what := if a.None? then Acted(None) else Acted(Some(Fact(a.value, Resolve(env, raw))));
          NotedIs(env, attrs, s, what);
          AdvanceNoted(env, attrs, s, what);
        case WaitStep =>
          NotedIs(env, attrs, s, Waited);
          ParkNoted(env, attrs, s);
        case OtherStep =>
          NotedIs(env, attrs, s, NotSupported);
          HaltNoted(env, attrs, id, Outcome(Unsupported, s.id, attrs, [], [Noted(s.id, NotSupported)]));
      }
    }
  }

  lemma ParkNoted(env: Env, attrs: Attrs, s: Step)
    requires NotedAt(env, Visit(s.id, attrs), Noted(s.id, Waited))
    ensures MoveNoted(env, attrs, s.id, Park(s.id, [Noted(s.id, Waited)], s.next))
  {
    hide NotedAt;
  }

  lemma DoneNotes(env: Env, attrs: Attrs, id: Text)
    requires FindStep(env.steps, id).None? || FindStep(env.steps, id).value.kind.DoneStep?
    ensures NotedAt(env, Visit(id, attrs), Noted(OrDone(id), Finished))
  {
    FoundIsStep(env.steps, id);
    if FindStep(env.steps, id).Some? { assert IsStep(env, id, FindStep(env.steps, id).value); }
  }

  lemma FactsOfAppend(t1: seq<Noted>, t2: seq<Noted>)
    ensures FactsOf(t1 + t2) == FactsOf(t1) + FactsOf(t2)
  {
    FlatMapAppend(t1, t2, (n: Noted) => FactsIn(n.what));
  }

  lemma VisitedMore(env: Env, n: Noted, u: Visit, o: Outcome, visits: seq<Visit>, facts: seq<Fact>)
    requires NotedAt(env, u, n) && Visited(env, o, visits) && (visits != [] ==> Onward(env, u, n.what, visits[0]))
    ensures Visited(env, Prepend(facts, [n], o), [u] + visits)
  {
    var all, o' := [u] + visits, Prepend(facts, [n], o);
    hide NotedAt, Onward;
    forall i | 0 <= i < |all| ensures NotedAt(env, all[i], o'.trace[i]) {
      if i > 0 { assert all[i] == visits[i - 1] && o'.trace[i] == o.trace[i - 1]; }
    }
    forall i | 0 <= i < |all| - 1 ensures Onward(env, all[i], o'.trace[i].what, all[i + 1]) {
      if i > 0 { assert all[i] == visits[i - 1] && all[i + 1] == visits[i] && o'.trace[i] == o.trace[i - 1]; }
    }
  }

  lemma EndedMore(env: Env, fuel: nat, n: Noted, u: Visit, o: Outcome, visits: seq<Visit>, facts: seq<Fact>)
    requires fuel > 0 && visits != [] && |visits| <= |o.trace| && EndedAt(env, fuel - 1, o, visits)
    ensures EndedAt(env, fuel, Prepend(facts, [n], o), [u] + visits)
  {
    var all, o', k := [u] + visits, Prepend(facts, [n], o), |visits|;
    hide LeadsTo;
    assert all[k] == visits[k - 1] && o'.trace[k] == o.trace[k - 1] && o'.trace[k + 1..] == o.trace[k..];
    var w := o.trace[k - 1].what;
    if GoesOn(w) {
      var next :| LeadsTo(env, visits[k - 1].id, w, next) && EndsAhead(fuel - 1, o, k, w, next);
      assert EndsAhead(fuel, o', k + 1, w, next);
    }
  }

  lemma EndedFirst(env: Env, n: Noted, u: Visit, v: Visit, facts: seq<Fact>)
    requires Onward(env, u, n.what, v)
    ensures EndedAt(env, 1, Prepend(facts, [n], Outcome(TooLong, v.id, v.attrs, [], [Noted(v.id, Looped)])), [u])
  {
    hide LeadsTo;
    var o := Prepend(facts, [n], Outcome(TooLong, v.id, v.attrs, [], [Noted(v.id, Looped)]));
    assert o.trace[1..] == [Noted(v.id, Looped)];
    assert EndsAhead(1, o, 1, n.what, v.id);
  }

  lemma OneMoreVisit(env: Env, u: Visit, fuel: nat, n: Noted, v: Visit, o: Outcome, visits: seq<Visit>)
    requires fuel > 0 && NotedAt(env, u, n) && Onward(env, u, n.what, v)
    requires Follows(env, v.attrs, v.id, fuel - 1, o, visits)
    ensures Follows(env, u.attrs, u.id, fuel, Prepend(FactsOf([n]), [n], o), [u] + visits)
  {
    FactsOfAppend([n], o.trace);
    VisitedMore(env, n, u, o, visits, FactsOf([n]));
    if visits == [] {
      EndedFirst(env, n, u, v, FactsOf([n]));
      assert [u] + visits == [u];
    } else {
      EndedMore(env, fuel, n, u, o, visits, FactsOf([n]));
    }
    hide NotedAt, LeadsTo, EndedAt, Visited, FactsOf, Onward;
  }

  /** A run follows the steps: see the predicates above. */
  lemma {:induction false} RunFollows(env: Env, attrs: Attrs, id: Text, fuel: nat) returns (visits: seq<Visit>)
    ensures Follows(env, attrs, id, fuel, Run(env, attrs, id, fuel), visits)
    decreases fuel
  {
    hide *;
    if fuel == 0 {
      visits := [];
      OutOfFuel(env, attrs, id);
    } else if Do(env, attrs, id).Go? {
      var move := Do(env, attrs, id);
      visits := RunFollows(env, move.attrs, move.next, fuel - 1);
      visits := RunGoes(env, attrs, id, fuel, visits);
    } else {
      visits := RunEnds(env, attrs, id, fuel);
    }
  }

  lemma RunGoes(env: Env, attrs: Attrs, id: Text, fuel: nat, rest: seq<Visit>) returns (visits: seq<Visit>)
    requires fuel > 0 && Do(env, attrs, id).Go?
    requires var move := Do(env, attrs, id);
             Follows(env, move.attrs, move.next, fuel - 1, Run(env, move.attrs, move.next, fuel - 1), rest)
    ensures Follows(env, attrs, id, fuel, Run(env, attrs, id, fuel), visits)
  {
    DoNotes(env, attrs, id);
    RunOnce(env, attrs, id, fuel);
    hide Do, Run, Follows, NotedAt, Onward, FactsOf, Prepend;
    var move := Do(env, attrs, id);
    OneMoreVisit(env, Visit(id, attrs), fuel, move.trace[0], Visit(move.next, move.attrs), Run(env, move.attrs, move.next, fuel - 1), rest);
    assert move.trace == [move.trace[0]];
    visits := [Visit(id, attrs)] + rest;
  }

  lemma RunEnds(env: Env, attrs: Attrs, id: Text, fuel: nat) returns (visits: seq<Visit>)
    requires fuel > 0 && !Do(env, attrs, id).Go?
    ensures Follows(env, attrs, id, fuel, Run(env, attrs, id, fuel), visits)
  {
    DoNotes(env, attrs, id);
    RunOnce(env, attrs, id, fuel);
    HaltIsEnd(env, attrs, id);
    hide Do, Run, Follows, NotedAt, EndedAt, FactsOf;
    match Do(env, attrs, id) {
      case Halt(o) => visits := StopsHere(env, attrs, id, fuel, o);
      case Park(at, trace, next) => visits := ParksHere(env, attrs, id, fuel, at);
    }
  }

  lemma RunOnce(env: Env, attrs: Attrs, id: Text, fuel: nat)
    ensures Run(env, attrs, id, fuel) ==
              if fuel == 0 then Outcome(TooLong, id, attrs, [], [Noted(id, Looped)])
              else match Do(env, attrs, id)
                   case Halt(o) => o
                   case Park(at, trace, next) => Outcome(AtTimer, at, attrs, [], trace)
                   case Go(attrs', facts, trace, next) => Prepend(facts, trace, Run(env, attrs', next, fuel - 1))
  {
    hide Do;
  }

  lemma OutOfFuel(env: Env, attrs: Attrs, id: Text)
    ensures Follows(env, attrs, id, 0, Run(env, attrs, id, 0), [])
  {
    RunOnce(env, attrs, id, 0);
    FactsOfOne(Noted(id, Looped));
  }

  lemma HaltIsEnd(env: Env, attrs: Attrs, id: Text)
    ensures Do(env, attrs, id).Halt? ==> Do(env, attrs, id).outcome.end != TooLong
  {
    hide BranchMatches, HasValue, Resolve, CollectScope;
  }

  lemma ParksHere(env: Env, attrs: Attrs, id: Text, fuel: nat, at: Text) returns (visits: seq<Visit>)
    requires fuel > 0 && NotedAt(env, Visit(id, attrs), Noted(at, Waited))
    ensures Follows(env, attrs, id, fuel, Outcome(AtTimer, at, attrs, [], [Noted(at, Waited)]), visits)
  {
    FactsOfOne(Noted(at, Waited));
    hide NotedAt, FactsOf;
    visits := StopsHere(env, attrs, id, fuel, Outcome(AtTimer, at, attrs, [], [Noted(at, Waited)]));
  }

  lemma StopsHere(env: Env, attrs: Attrs, id: Text, fuel: nat, o: Outcome) returns (visits: seq<Visit>)
    requires fuel > 0 && o.trace != [] && NotedAt(env, Visit(id, attrs), o.trace[0]) && o.facts == FactsOf(o.trace)
    requires EndedAt(env, 1, o, [Visit(id, attrs)]) && o.end != TooLong
    ensures Follows(env, attrs, id, fuel, o, visits)
  {
    visits := [Visit(id, attrs)];
    hide NotedAt, LeadsTo;
    var w := o.trace[0].what;
    if GoesOn(w) {
      var next :| LeadsTo(env, id, w, next) && EndsAhead(1, o, 1, w, next);
      assert EndsAhead(fuel, o, 1, w, next);
    }
  }

  /** What a segment comes to. */
  ghost predicate SegmentSays(env: Env, attrs: Attrs, id: Text, o: Outcome) {
    if env.subjectType.Some? && !Held(env, attrs, Lit("type"), Some(Str(env.subjectType.value)))
    then o == Outcome(Refused, id, attrs, [], [])
    else exists visits :: Follows(env, attrs, id, 50, o, visits)
  }

  lemma SegmentFollows(env: Env, attrs: Attrs, id: Text)
    ensures SegmentSays(env, attrs, id, Segment(env, attrs, id))
  {
    hide Run, Follows;
    if env.subjectType.Some? { HasValueHeld(env, attrs, TYPE, Some(Str(env.subjectType.value))); }
    hide HasValue, Held;
    if TypeOk(env, attrs) {
      var visits := RunFollows(env, attrs, id, FUEL);
    }
  }

  /** The interpreter's loop. */
  method RunOwnedFlowFromStep(env: Env, current: Attrs, start: Text) returns (r: Outcome)
    ensures r == Segment(env, current, start)
    ensures SegmentSays(env, current, start, r)
  {
    SegmentFollows(env, current, start);
    hide Do, SegmentSays;
    if !TypeOk(env, current) { return Outcome(Refused, start, current, [], []); }
    var attrs, stepId := current, start;
    var asserted: seq<Fact>, events: seq<Noted> := [], [];
    NothingBefore(Run(env, current, start, FUEL));
    for i := 0 to FUEL
      invariant Prepend(asserted, events, Run(env, attrs, stepId, FUEL - i)) == Run(env, current, start, FUEL)
    {
      match Do(env, attrs, stepId) {
        case Halt(o) => return Prepend(asserted, events, o);
        case Park(at, trace, next) => return Prepend(asserted, events, Outcome(AtTimer, at, attrs, [], trace));
        case Go(attrs', facts, trace, next) =>
          PrependAssoc(asserted, events, facts, trace, Run(env, attrs', next, FUEL - i - 1));
          attrs, stepId := attrs', next;
          asserted, events := asserted + facts, events + trace;
      }
    }
    r := Prepend(asserted, events, Outcome(TooLong, stepId, attrs, [], [Noted(stepId, Looped)]));
  }

  lemma NothingBefore(o: Outcome)
    ensures Prepend([], [], o) == o
  {
  }

  // ---- waking -----------------------------------------------------------------------------------

  /** Where a wake resumes: after the wait, or at "done". */
  function WakeTarget(env: Env, at: Text): Text {
    var step := FindStep(env.steps, at);
    if step.Some? then OrDone(step.value.next) else DONE
  }

  /** The segments chained through their wait parks, woken at most `wakes` times. */
  function Chain(env: Env, attrs: Attrs, id: Text, wakes: nat): Outcome
    decreases wakes
  {
    var o := Segment(env, attrs, id);
    if o.end != AtTimer || wakes == 0 then o
    else Prepend(o.facts, o.trace, Chain(env, o.attrs, WakeTarget(env, o.at), wakes - 1))
  }

  /** The uninterrupted interpreter: a wait is recorded and passed over. */
  function Straight(env: Env, attrs: Attrs, id: Text, fuel: nat): Outcome
    decreases fuel
  {
    if fuel == 0 then Outcome(TooLong, id, attrs, [], [Noted(id, Looped)])
    else
      var move := match Do(env, attrs, id)
                  case Park(at, trace, next) => Advance(attrs, [], trace, next)
                  case other => other;
      match move
      case Halt(o) => o
      case Go(attrs', facts, trace, next) => Prepend(facts, trace, Straight(env, attrs', next, fuel - 1))
      case Park(_, _, _) => Outcome(TooLong, id, attrs, [], [])
  }

  /** No step but a final one is called "done". */
  predicate DoneReserved(env: Env) {
    var step := FindStep(env.steps, DONE);
    step.None? || step.value.kind.DoneStep?
  }

  /** No wait step that the interpreter can find ends the flow. */
  predicate WaitsLeadOn(env: Env) {
    forall s :: s in env.steps && s.kind.WaitStep? && FindStep(env.steps, s.id) == Some(s) ==> s.next != []
  }

  /** A wake never finds work under the name "done" that the uninterrupted run would not do. */
  predicate WakesSafely(env: Env) { DoneReserved(env) || WaitsLeadOn(env) }

  predicate WritesType(s: Step) {
    (s.kind.AssertStep? && s.kind.attr == Some(TYPE)) || (s.kind.ActionStep? && s.kind.resultAttr == Some(TYPE))
  }

  /** No step writes the subject's type, and writing one attribute leaves the type as it is. */
  ghost predicate TypeUntouched(env: Env) {
    && (forall s :: s in env.steps ==> !WritesType(s))
    && (forall attrs: Attrs, a: Text, v: Option<Value> :: a != TYPE ==> ValuesOf(env.append(attrs, a, v), TYPE) == ValuesOf(attrs, TYPE))
  }

  lemma {:induction false} FoundStep(steps: seq<Step>, id: Text)
    ensures FindStep(steps, id).Some? ==> FindStep(steps, id).value in steps && FindStep(steps, id).value.id == id
  {
    if steps != [] && steps[0].id != id { FoundStep(steps[1..], id); }
  }

  lemma DoKeepsType(env: Env, attrs: Attrs, id: Text)
    requires TypeUntouched(env)
    ensures Do(env, attrs, id).Go? ==> ValuesOf(Do(env, attrs, id).attrs, TYPE) == ValuesOf(attrs, TYPE)
  {
    hide BranchMatches, HasValue, Resolve, CollectScope;
    FoundStep(env.steps, id);
  }

  lemma DoParks(env: Env, attrs: Attrs, id: Text)
    ensures Do(env, attrs, id).Park? ==>
              FindStep(env.steps, id).Some? && Do(env, attrs, id).at == id && Do(env, attrs, id).next == FindStep(env.steps, id).value.next
    ensures Do(env, attrs, id).Halt? ==> Do(env, attrs, id).outcome.end !in {AtTimer, TooLong, Refused}
  {
    hide BranchMatches, HasValue, Resolve, CollectScope;
    FoundStep(env.steps, id);
  }

  /** At "done" the flow is over. */
  lemma DoneHalts(env: Env, attrs: Attrs)
    requires DoneReserved(env)
    ensures Do(env, attrs, DONE) == Halt(Outcome(Completed, DONE, attrs, [], [Noted(DONE, Finished)]))
  {
    assert |DONE| == 4;
  }

  /**
   * A segment that parks is the beginning of the straight run: what is left is the straight run from
   * where the wake resumes, with less fuel unless only "done" remains.
   */
  lemma {:induction false} ParkedIsPrefix(env: Env, attrs: Attrs, id: Text, f: nat, n: nat) returns (m: nat)
    requires WakesSafely(env) && TypeUntouched(env) && Straight(env, attrs, id, n).end != TooLong
    ensures var o := Run(env, attrs, id, f);
            && (o.end != AtTimer && o.end != TooLong ==> o == Straight(env, attrs, id, n))
            && (o.end == AtTimer ==>
                  Straight(env, attrs, id, n) == Prepend(o.facts, o.trace, Straight(env, o.attrs, WakeTarget(env, o.at), m)) &&
                  ValuesOf(o.attrs, TYPE) == ValuesOf(attrs, TYPE) && (m < n || (DoneReserved(env) && WakeTarget(env, o.at) == DONE)))
    decreases f
  {
    hide Do, WakeTarget, TypeUntouched;
    m := 0;
    DoParks(env, attrs, id);
    if f > 0 {
      match Do(env, attrs, id) {
        case Halt(o) =>
        case Park(at, trace, next) => m := ParkHere(env, attrs, id, n);
        case Go(attrs', facts, trace, next) =>
          DoKeepsType(env, attrs, id);
          m := ParkedIsPrefix(env, attrs', next, f - 1, n - 1);
          var o := Run(env, attrs', next, f - 1);
          PrependAssoc(facts, trace, o.facts, o.trace, Straight(env, o.attrs, WakeTarget(env, o.at), m));
      }
    }
  }

  /** With a missing next step after a wait, "done" must be reserved. */
  lemma ParkedStep(env: Env, attrs: Attrs, id: Text)
    ensures Do(env, attrs, id).Park? && Do(env, attrs, id).next == [] && WakesSafely(env) ==> DoneReserved(env)
  {
    hide BranchMatches, HasValue, Resolve, CollectScope;
    FoundStep(env.steps, id);
  }

  lemma ParkHere(env: Env, attrs: Attrs, id: Text, n: nat) returns (m: nat)
    requires WakesSafely(env) && Do(env, attrs, id).Park? && Straight(env, attrs, id, n).end != TooLong
    ensures var p := Do(env, attrs, id);
            Straight(env, attrs, id, n) == Prepend([], p.trace, Straight(env, attrs, WakeTarget(env, p.at), m))
    ensures m < n || (DoneReserved(env) && WakeTarget(env, Do(env, attrs, id).at) == DONE)
  {
    hide Do;
    DoParks(env, attrs, id);
    ParkedStep(env, attrs, id);
    var p := Do(env, attrs, id);
    if p.next == [] {
      DoneHalts(env, attrs);
      m := 1;
    } else {
      m := n - 1;
    }
  }

  /**
   * Parking and waking change nothing: if the straight run comes to an end, chaining the segments
   * through their waits ends the same way, with the same facts asserted and the same trace, branches
   * included, in the same order, unless some segment runs into the fifty-step bound.
   */
  lemma {:induction false} ChainIsStraight(env: Env, attrs: Attrs, id: Text, n: nat, wakes: nat)
    requires WakesSafely(env) && TypeUntouched(env) && TypeOk(env, attrs)
    requires Straight(env, attrs, id, n).end != TooLong && wakes > n
    ensures var o := Chain(env, attrs, id, wakes);
            o.end == TooLong || o == Straight(env, attrs, id, n)
    decreases wakes
  {
    hide Do, WakeTarget, TypeUntouched, Straight, Run, HasValue;
    var o := Segment(env, attrs, id);
    var m := ParkedIsPrefix(env, attrs, id, FUEL, n);
    if o.end == AtTimer {
      var next := WakeTarget(env, o.at);
      TypeStays(env, attrs, o.attrs);
      if next == DONE && DoneReserved(env) {
        ChainAtDone(env, o.attrs, wakes - 1, m);
      } else {
        ChainIsStraight(env, o.attrs, next, m, wakes - 1);
      }
    }
  }

  lemma TypeStays(env: Env, attrs: Attrs, attrs': Attrs)
    requires TypeOk(env, attrs) && ValuesOf(attrs', TYPE) == ValuesOf(attrs, TYPE)
    ensures TypeOk(env, attrs')
  {
  }

  lemma ChainAtDone(env: Env, attrs: Attrs, wakes: nat, m: nat)
    requires DoneReserved(env) && TypeOk(env, attrs)
    ensures Straight(env, attrs, DONE, m).end != TooLong ==> Chain(env, attrs, DONE, wakes) == Straight(env, attrs, DONE, m)
  {
    hide Do, HasValue;
    DoneHalts(env, attrs);
  }

  /** The other way: whatever a chain comes to, short of the bound, is what the straight run comes to. */
  lemma {:induction false} StraightIsChain(env: Env, attrs: Attrs, id: Text, wakes: nat) returns (n: nat)
    requires WakesSafely(env) && TypeUntouched(env) && TypeOk(env, attrs)
    requires Chain(env, attrs, id, wakes).end !in {TooLong, AtTimer}
    ensures Straight(env, attrs, id, n) == Chain(env, attrs, id, wakes)
    decreases wakes
  {
    hide Do, WakeTarget, TypeUntouched, Straight, Run, HasValue;
    var o := Segment(env, attrs, id);
    if o.end == AtTimer {
      ParkKeepsType(env, attrs, id, FUEL);
      TypeStays(env, attrs, o.attrs);
      var m := StraightIsChain(env, o.attrs, WakeTarget(env, o.at), wakes - 1);
      n := StraightThroughPark(env, attrs, id, FUEL, m);
    } else {
      n := FUEL;
      RunIsStraight(env, attrs, id, FUEL);
    }
  }

  lemma {:induction false} RunIsStraight(env: Env, attrs: Attrs, id: Text, f: nat)
    requires Run(env, attrs, id, f).end !in {TooLong, AtTimer}
    ensures Straight(env, attrs, id, f) == Run(env, attrs, id, f)
    decreases f
  {
    hide Do;
    match Do(env, attrs, id) {
      case Go(attrs', facts, trace, next) => RunIsStraight(env, attrs', next, f - 1);
      case _ =>
    }
  }

  lemma {:induction false} ParkKeepsType(env: Env, attrs: Attrs, id: Text, f: nat)
    requires TypeUntouched(env) && Run(env, attrs, id, f).end == AtTimer
    ensures ValuesOf(Run(env, attrs, id, f).attrs, TYPE) == ValuesOf(attrs, TYPE)
    decreases f
  {
    hide Do, TypeUntouched;
    DoParks(env, attrs, id);
    DoKeepsType(env, attrs, id);
    match Do(env, attrs, id) {
      case Go(attrs', facts, trace, next) => ParkKeepsType(env, attrs', next, f - 1);
      case _ =>
    }
  }

  lemma {:induction false} StraightThroughPark(env: Env, attrs: Attrs, id: Text, f: nat, m: nat) returns (n: nat)
    requires WakesSafely(env) && Run(env, attrs, id, f).end == AtTimer
    requires Straight(env, Run(env, attrs, id, f).attrs, WakeTarget(env, Run(env, attrs, id, f).at), m).end != TooLong
    ensures var o := Run(env, attrs, id, f);
            Straight(env, attrs, id, n) == Prepend(o.facts, o.trace, Straight(env, o.attrs, WakeTarget(env, o.at), m))
    decreases f
  {
    hide Do;
    n := 0;
    DoParks(env, attrs, id);
    match Do(env, attrs, id) {
      case Go(attrs', facts, trace, next) =>
        var k := StraightThroughPark(env, attrs', next, f - 1, m);
        n := k + 1;
        var o := Run(env, attrs', next, f - 1);
        PrependAssoc(facts, trace, o.facts, o.trace, Straight(env, o.attrs, WakeTarget(env, o.at), m));
      case Park(at, trace, next) =>
        n := m + 1;
        ParkedStep(env, attrs, id);
        if next == [] { DoneHalts(env, attrs); }
      case _ =>
    }
  }

  /** A run that fits into one segment's fuel stays within the bound. */
  lemma {:induction false} RunFits(env: Env, attrs: Attrs, id: Text, f: nat, n: nat)
    requires Straight(env, attrs, id, n).end != TooLong && n <= f
    ensures Run(env, attrs, id, f).end != TooLong
    decreases f
  {
    hide Do;
    DoParks(env, attrs, id);
    match Do(env, attrs, id) {
      case Go(attrs', facts, trace, next) => RunFits(env, attrs', next, f - 1, n - 1);
      case _ =>
    }
  }

  /** An uninterrupted run of at most fifty steps is what the chain does, without exception. */
  lemma {:induction false} ShortChainIsStraight(env: Env, attrs: Attrs, id: Text, n: nat, wakes: nat)
    requires WakesSafely(env) && TypeUntouched(env) && TypeOk(env, attrs)
    requires Straight(env, attrs, id, n).end != TooLong && n <= FUEL && wakes > n
    ensures Chain(env, attrs, id, wakes) == Straight(env, attrs, id, n)
    decreases wakes
  {
    hide Do, WakeTarget, TypeUntouched, Straight, Run, HasValue;
    var o := Segment(env, attrs, id);
    RunFits(env, attrs, id, FUEL, n);
    var m := ParkedIsPrefix(env, attrs, id, FUEL, n);
    if o.end == AtTimer {
      var next := WakeTarget(env, o.at);
      TypeStays(env, attrs, o.attrs);
      if next == DONE && DoneReserved(env) {
        ChainAtDone(env, o.attrs, wakes - 1, m);
      } else {
        ShortChainIsStraight(env, o.attrs, next, m, wakes - 1);
      }
    }
  }

  /** What an iteration notes first. */
  function FirstNote(move: Move): Option<Noted> {
    var trace := match move
                 case Go(_, _, trace, _) => trace
                 case Halt(o) => o.trace
                 case Park(_, trace, _) => trace;
    if trace == [] then None else Some(trace[0])
  }

  /** A working step called "done" never notes that the flow is finished. */
  lemma WorkingDoneNotes(env: Env, attrs: Attrs)
    requires !DoneReserved(env)
    ensures FirstNote(Do(env, attrs, DONE)).Some? && FirstNote(Do(env, attrs, DONE)) != Some(Noted(DONE, Finished))
  {
    hide BranchMatches, HasValue, Resolve, CollectScope;
  }

  lemma RunNotesFirst(env: Env, attrs: Attrs, id: Text, f: nat)
    requires f > 0 && FirstNote(Do(env, attrs, id)).Some?
    ensures var o := Run(env, attrs, id, f); o.trace != [] && Some(o.trace[0]) == FirstNote(Do(env, attrs, id))
  {
    hide Do;
  }

  /** What a wait without a next step comes to. */
  lemma LastWaitParks(env: Env, attrs: Attrs, s: Step)
    requires s.kind.WaitStep? && s.next == [] && FindStep(env.steps, s.id) == Some(s)
    ensures Do(env, attrs, s.id) == Park(s.id, [Noted(s.id, Waited)], []) && WakeTarget(env, s.id) == DONE
  {
    hide BranchMatches, HasValue, Resolve, CollectScope;
  }

  /** From such a wait, the chain does the work of "done" where the uninterrupted run is finished. */
  lemma LastWaitDiffers(env: Env, attrs: Attrs, s: Step, wakes: nat)
    requires !DoneReserved(env) && TypeOk(env, attrs) && wakes > 0
    requires s.kind.WaitStep? && s.next == [] && FindStep(env.steps, s.id) == Some(s)
    ensures Straight(env, attrs, s.id, 1).end == Completed && Chain(env, attrs, s.id, wakes) != Straight(env, attrs, s.id, 1)
  {
    LastWaitParks(env, attrs, s);
    WorkingDoneNotes(env, attrs);
    RunNotesFirst(env, attrs, DONE, FUEL);
    hide Do, FirstNote, HasValue, WakeTarget, DoneReserved;
    assert Straight(env, attrs, s.id, 1).trace == [Noted(s.id, Waited), Noted(DONE, Finished)];
    assert Segment(env, attrs, s.id) == Outcome(AtTimer, s.id, attrs, [], [Noted(s.id, Waited)]);
    var rest := Chain(env, attrs, DONE, wakes - 1);
    assert Chain(env, attrs, s.id, wakes) == Prepend([], [Noted(s.id, Waited)], rest);
    ChainNotesFirst(env, attrs, DONE, wakes - 1);
    assert Chain(env, attrs, s.id, wakes).trace[1] == rest.trace[0];
  }

  lemma ChainNotesFirst(env: Env, attrs: Attrs, id: Text, wakes: nat)
    requires TypeOk(env, attrs) && Run(env, attrs, id, FUEL).trace != []
    ensures var o := Chain(env, attrs, id, wakes); o.trace != [] && o.trace[0] == Run(env, attrs, id, FUEL).trace[0]
  {
    hide Run, WakeTarget, HasValue;
  }

  /** Parking and waking change nothing, wherever the flow is started and whatever the subject holds. */
  ghost predicate ParkAndWakeHolds(env: Env) {
    forall attrs: Attrs, id: Text, n: nat, wakes: nat ::
      TypeOk(env, attrs) && n <= FUEL && wakes > n && Straight(env, attrs, id, n).end != TooLong ==>
        Chain(env, attrs, id, wakes) == Straight(env, attrs, id, n)
  }

  /** That is so exactly when "done" names no working step, or no wait step that can be found ends the flow. */
  lemma ParkAndWakeIff(env: Env)
    requires TypeUntouched(env)
    ensures ParkAndWakeHolds(env) <==> WakesSafely(env)
  {
    hide TypeUntouched, TypeOk, Chain, Straight, DoneReserved;
    if WakesSafely(env) {
      forall attrs: Attrs, id: Text, n: nat, wakes: nat |
        TypeOk(env, attrs) && n <= FUEL && wakes > n && Straight(env, attrs, id, n).end != TooLong
        ensures Chain(env, attrs, id, wakes) == Straight(env, attrs, id, n)
      {
        ShortChainIsStraight(env, attrs, id, n, wakes);
      }
    } else {
      var s :| s in env.steps && s.kind.WaitStep? && FindStep(env.steps, s.id) == Some(s) && s.next == [];
      var attrs := OfType(env);
      LastWaitDiffers(env, attrs, s, 2);
      assert TypeOk(env, attrs) && 1 <= FUEL && Straight(env, attrs, s.id, 1).end != TooLong;
    }
  }

  lemma OfType(env: Env) returns (attrs: Attrs)
    ensures TypeOk(env, attrs)
  {
    attrs := map[TYPE := [Str(if env.subjectType.Some? then env.subjectType.value else [])]];
    if env.subjectType.Some? { assert Str(env.subjectType.value) in ValuesOf(attrs, TYPE); }
  }

  /** A flow of that kind: the fact its "done" step asserts appears only when the flow is woken. */
  lemma DoneStepRunsOnWake()
    ensures exists env: Env, attrs: Attrs, id: Text ::
              !DoneReserved(env) && Chain(env, attrs, id, 1).facts != Straight(env, attrs, id, 1).facts &&
              Chain(env, attrs, id, 1).end == Completed == Straight(env, attrs, id, 1).end
  {
    var wait, done := Step(Lit("w"), WaitStep, []), Step(DONE, AssertStep(Some(Lit("a")), Some(Null)), []);
    var env := Env([wait, done], None, [], map[], (attrs: Attrs, a: Text, v: Option<Value>) => attrs, (v: Value) => [], (v: Value) => []);
    var attrs: Attrs, id := map[], Lit("w");
    assert |Lit("w")| == 1 && |DONE| == 4;
    assert env.steps[0] == wait && env.steps[1..] == [done] && [done][0] == done;
    assert FindStep(env.steps, id) == Some(wait);
    assert FindStep([done], DONE) == Some(done);
    assert FindStep(env.steps, DONE) == Some(done);
    assert Do(env, attrs, id) == Park(id, [Noted(id, Waited)], []);
    assert Run(env, attrs, id, FUEL) == Outcome(AtTimer, id, attrs, [], [Noted(id, Waited)]);
    assert Straight(env, attrs, id, 1).facts == [];
    var fact := Fact(Lit("a"), Some(Null));
    assert Do(env, attrs, DONE) == Halt(Outcome(Completed, DONE, attrs, [fact], [Noted(DONE, Asserted(fact))] + [Noted(DONE, Finished)]));
    assert Chain(env, attrs, DONE, 0).facts == [fact];
    assert Chain(env, attrs, id, 1) == Prepend([], [Noted(id, Waited)], Chain(env, attrs, DONE, 0));
  }
}
