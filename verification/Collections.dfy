/**
 * Collections, their scheduled ticks and the flow-wait ticks of one Durable Object: what each surface
 * operation does to the tables, and what no run of operations can undo.
 */
module Collections {
  import opened Seqs
  import opened Text
  import opened Core
  import opened Timers

  datatype Status = Issued | Submitted | Expired

  datatype Collection = Collection(
    subject: Text, status: Status, issuedAt: int, expiresAt: Option<int>, submittedAt: Option<int>,
    remindedAt: Option<int>, escalatedAt: Option<int>, expiredAt: Option<int>, data: Option<Value>)

  datatype Phase = Reminder | Escalation | Expire

  datatype TickStatus = Pending | Fired | Skipped

  datatype Tick = Tick(token: Text, phase: Phase, fireAt: int, status: TickStatus, scheduledAt: int, firedAt: Option<int>)

  datatype Wait = Wait(runId: Text, stepId: Text, eventId: Text, fireAt: int, status: TickStatus, scheduledAt: int, firedAt: Option<int>)

  datatype RunStatus = Running | Waiting | Completed | Unsupported

  datatype Run = Run(subject: Text, status: RunStatus, currentStepId: Option<Text>, updatedAt: int, completedAt: Option<int>)

  datatype Assertion = Assertion(a: Text, v: Value)

  /** An assertion that a submission appended to the log. */
  datatype Lowered = Lowered(token: Text, subject: Text, assertion: Assertion)

  datatype State = State(
    collections: map<Text, Collection>, ticks: map<Text, Tick>, waits: map<Text, Wait>,
    runs: map<Text, Run>, dagEvents: set<Text>, log: seq<Lowered>)

  const EMPTY := State(map[], map[], map[], map[], {}, [])

  datatype Outcome = Done | Exists | Unknown | AlreadySubmitted | TokenExpired | AppendFailed | DuplicateEvent

  // ---- the operations -----------------------------------------------------------------

  predicate TooLate(c: Collection, at: int) {
    c.status == Expired || (c.expiresAt.Some? && at >= c.expiresAt.value)
  }

  function SubmitOutcome(st: State, token: Text, at: int, assertions: seq<Assertion>, appended: nat): Outcome {
    if token !in st.collections then Unknown
    else if st.collections[token].status == Submitted then AlreadySubmitted
    else if TooLate(st.collections[token], at) then TokenExpired
    else if appended < |assertions| then AppendFailed
    else Done
  }

  function LoweredFrom(token: Text, subject: Text, assertions: seq<Assertion>): seq<Lowered> {
    Map(assertions, (x: Assertion) => Lowered(token, subject, x))
  }

  lemma LoweredNext(token: Text, subject: Text, assertions: seq<Assertion>, i: nat)
    requires i < |assertions|
    ensures LoweredFrom(token, subject, assertions[..i + 1])
         == LoweredFrom(token, subject, assertions[..i]) + [Lowered(token, subject, assertions[i])]
  {
  }

  lemma LoweredNone(token: Text, subject: Text, log: seq<Lowered>)
    ensures log + LoweredFrom(token, subject, []) == log
  {
  }

  /** `appended` is how many of the assertions the log takes before one fails. */
  function Submit(st: State, token: Text, at: int, data: Option<Value>, assertions: seq<Assertion>, appended: nat): State {
    match SubmitOutcome(st, token, at, assertions, appended)
    case Unknown => st
    case AlreadySubmitted => st
    case TokenExpired =>
      if token !in st.collections then st
      else st.(collections := st.collections[token := st.collections[token].(status := Expired, expiredAt := Some(at))])
    case _ =>
      if token !in st.collections then st
      else
        var c := st.collections[token];
        st.(collections := st.collections[token := c.(status := Submitted, submittedAt := Some(at), data := data)],
            log := st.log + LoweredFrom(token, c.subject, Take(assertions, appended)))
  }

  function Issue(st: State, token: Text, subject: Text, at: int, expiresAt: Option<int>): State {
    if token in st.collections then st
    else st.(collections := st.collections[token := Collection(subject, Issued, at, expiresAt, None, None, None, None, None)])
  }

  function ScheduleTick(st: State, id: Text, token: Text, phase: Phase, fireAt: int, at: int): State {
    if token !in st.collections || id in st.ticks then st
    else st.(ticks := st.ticks[id := Tick(token, phase, fireAt, Pending, at, None)])
  }

  function AfterPhase(c: Collection, phase: Phase, at: int): Collection {
    match phase
    case Reminder => c.(remindedAt := Some(at))
    case Escalation => c.(escalatedAt := Some(at))
    case Expire => c.(status := Expired, expiredAt := Some(at))
  }

  function FireTick(st: State, id: Text, at: int): State {
    if id !in st.ticks || st.ticks[id].status != Pending then st
    else
      var t := st.ticks[id];
      if t.token !in st.collections || st.collections[t.token].status != Issued then
        st.(ticks := st.ticks[id := t.(status := Skipped, firedAt := Some(at))])
      else
        st.(ticks := st.ticks[id := t.(status := Fired, firedAt := Some(at))],
            collections := st.collections[t.token := AfterPhase(st.collections[t.token], t.phase, at)])
  }

  function ScheduleWait(st: State, id: Text, runId: Text, stepId: Text, eventId: Text, fireAt: int, at: int): State {
    if runId !in st.runs || id in st.waits then st
    else st.(waits := st.waits[id := Wait(runId, stepId, eventId, fireAt, Pending, at, None)])
  }

  /** The tick is marked and the run updated before the timeline event is inserted, which may fail. */
  function FireWait(st: State, id: Text, at: int): State {
    if id !in st.waits || st.waits[id].status != Pending then st
    else
      var w := st.waits[id];
      if w.runId !in st.runs || st.runs[w.runId].status != Waiting then
        st.(waits := st.waits[id := w.(status := Skipped, firedAt := Some(at))])
      else
        st.(waits := st.waits[id := w.(status := Fired, firedAt := Some(at))],
            runs := st.runs[w.runId := st.runs[w.runId].(status := Running, currentStepId := Some(w.stepId), updatedAt := at, completedAt := None)],
            dagEvents := st.dagEvents + {w.eventId})
  }

  function FireWaitOutcome(st: State, id: Text): Outcome {
    if id !in st.waits then Unknown
    else
      var w := st.waits[id];
      if w.status == Pending && w.runId in st.runs && st.runs[w.runId].status == Waiting && w.eventId in st.dagEvents
      then DuplicateEvent else Done
  }

  datatype Op =
    | DoIssue(token: Text, subject: Text, at: int, expiresAt: Option<int>)
    | DoSubmit(token: Text, at: int, data: Option<Value>, assertions: seq<Assertion>, appended: nat)
    | DoScheduleTick(id: Text, token: Text, phase: Phase, fireAt: int, at: int)
    | DoFireTick(id: Text, at: int)
    | DoScheduleWait(id: Text, runId: Text, stepId: Text, eventId: Text, fireAt: int, at: int)
    | DoFireWait(id: Text, at: int)
    | DoRecordRun(runId: Text, run: Run, eventIds: set<Text>)

  function Apply(st: State, op: Op): State {
    match op
    case DoIssue(token, subject, at, expiresAt) => Issue(st, token, subject, at, expiresAt)
    case DoSubmit(token, at, data, assertions, appended) => Submit(st, token, at, data, assertions, appended)
    case DoScheduleTick(id, token, phase, fireAt, at) => ScheduleTick(st, id, token, phase, fireAt, at)
    case DoFireTick(id, at) => FireTick(st, id, at)
    case DoScheduleWait(id, runId, stepId, eventId, fireAt, at) => ScheduleWait(st, id, runId, stepId, eventId, fireAt, at)
    case DoFireWait(id, at) => FireWait(st, id, at)
    case DoRecordRun(runId, run, eventIds) => st.(runs := st.runs[runId := run], dagEvents := st.dagEvents + eventIds)
  }

  function RunOps(st: State, ops: seq<Op>): State {
    if ops == [] then st else Apply(RunOps(st, ops[..|ops| - 1]), ops[|ops| - 1])
  }

  // ---- what every run keeps --------------------------------------------------------------

  /** Submission and expiry leave the marks they should, and no others. */
  ghost predicate CollectionOk(c: Collection) {
    && (c.submittedAt.Some? <==> c.status == Submitted)
    && (c.expiredAt.Some? <==> c.status == Expired)
    && (c.data.Some? ==> c.status == Submitted)
    && (c.submittedAt.Some? && c.expiresAt.Some? ==> c.submittedAt.value < c.expiresAt.value)
  }

  ghost predicate TickOk(t: Tick) { t.firedAt.None? <==> t.status == Pending }

  /** Only a submitted collection has put assertions into the log. */
  ghost predicate TokenOk(st: State, token: Text) {
    && (token in st.collections ==> CollectionOk(st.collections[token]))
    && (LoweredOf(st.log, token) != [] ==> token in st.collections && st.collections[token].status == Submitted)
  }

  ghost predicate TickIdOk(st: State, id: Text) {
    id in st.ticks ==> TickOk(st.ticks[id]) && st.ticks[id].token in st.collections
  }

  ghost predicate Consistent(st: State) {
    (forall token :: TokenOk(st, token)) && (forall id :: TickIdOk(st, id))
  }

  /** Issued may become submitted or expired; submitted is final; expired stays so, its time aside. */
  ghost predicate CollectionAdvances(c: Collection, c': Collection) {
    && c'.subject == c.subject && c'.issuedAt == c.issuedAt && c'.expiresAt == c.expiresAt
    && (c.status == Submitted ==> c' == c)
    && (c.status == Expired ==> c' == c.(expiredAt := c'.expiredAt))
  }

  /** A tick leaves pending at most once, and nothing moves it afterwards. */
  ghost predicate TickAdvances(t: Tick, t': Tick) {
    if t.status == Pending then t' == t.(status := t'.status, firedAt := t'.firedAt) else t' == t
  }

  function LoweredOf(log: seq<Lowered>, token: Text): seq<Lowered> {
    Filter(log, (l: Lowered) => l.token == token)
  }

  ghost predicate TokenAdvances(st: State, st': State, token: Text) {
    token in st.collections ==>
      token in st'.collections && CollectionAdvances(st.collections[token], st'.collections[token]) &&
      (st.collections[token].status != Issued ==> LoweredOf(st'.log, token) == LoweredOf(st.log, token))
  }

  ghost predicate TickIdAdvances(st: State, st': State, id: Text) {
    id in st.ticks ==> id in st'.ticks && TickAdvances(st.ticks[id], st'.ticks[id])
  }

  ghost predicate Advances(st: State, st': State) {
    (forall token :: TokenAdvances(st, st', token)) && (forall id :: TickIdAdvances(st, st', id))
  }

  lemma LoweredOfOther(log: seq<Lowered>, token: Text, subject: Text, assertions: seq<Assertion>, other: Text)
    ensures LoweredOf(log + LoweredFrom(token, subject, assertions), other)
         == LoweredOf(log, other) + (if other == token then LoweredFrom(token, subject, assertions) else [])
  {
    var more := LoweredFrom(token, subject, assertions);
    FilterAppend(log, more, (l: Lowered) => l.token == other);
    if other == token {
      FilterAll(more, (l: Lowered) => l.token == other);
    } else {
      FilterNone(more, (l: Lowered) => l.token == other);
    }
  }

  lemma StepKeeps(st: State, op: Op)
    requires Consistent(st)
    ensures Consistent(Apply(st, op)) && Advances(st, Apply(st, op))
  {
    hide LoweredOf, LoweredFrom, CollectionOk, CollectionAdvances, TickOk, TickAdvances;
    var st' := Apply(st, op);
    forall token ensures TokenOk(st', token) && TokenAdvances(st, st', token) {
      assert TokenOk(st, token);
      TokenStep(st, op, token);
    }
    forall id ensures TickIdOk(st', id) && TickIdAdvances(st, st', id) {
      assert TickIdOk(st, id);
      TickStep(st, op, id);
    }
  }

  lemma TokenStep(st: State, op: Op, token: Text)
    requires TokenOk(st, token)
    ensures TokenOk(Apply(st, op), token) && TokenAdvances(st, Apply(st, op), token)
  {
    hide LoweredOf, LoweredFrom, Submit, FireTick, FireWait, TokenOk, TokenAdvances;
    match op
    case DoSubmit(t, at, data, assertions, appended) => SubmitStep(st, t, at, data, assertions, appended, token);
    case DoFireTick(id, at) => FireStep(st, id, at, token);
    case _ => OtherStep(st, op, token);
  }

  lemma SubmitStep(st: State, t: Text, at: int, data: Option<Value>, assertions: seq<Assertion>, appended: nat, token: Text)
    requires TokenOk(st, token)
    ensures var st' := Submit(st, t, at, data, assertions, appended);
            TokenOk(st', token) && TokenAdvances(st, st', token)
  {
    hide LoweredOf, LoweredFrom;
    if t in st.collections {
      var subject, some := st.collections[t].subject, Take(assertions, appended);
      LoweredOfOther(st.log, t, subject, some, token);
      AppendNil(LoweredOf(st.log, token));
    }
  }

  lemma FireStep(st: State, id: Text, at: int, token: Text)
    requires TokenOk(st, token)
    ensures TokenOk(FireTick(st, id, at), token) && TokenAdvances(st, FireTick(st, id, at), token)
  {
    hide LoweredOf;
  }

  lemma OtherStep(st: State, op: Op, token: Text)
    requires TokenOk(st, token) && !op.DoSubmit? && !op.DoFireTick?
    ensures TokenOk(Apply(st, op), token) && TokenAdvances(st, Apply(st, op), token)
  {
    hide LoweredOf;
  }

  lemma TickStep(st: State, op: Op, id: Text)
    requires TickIdOk(st, id)
    ensures TickIdOk(Apply(st, op), id) && TickIdAdvances(st, Apply(st, op), id)
  {
    hide LoweredOf, LoweredFrom;
  }

  lemma AdvancesTransitive(s1: State, s2: State, s3: State)
    requires Advances(s1, s2) && Advances(s2, s3)
    ensures Advances(s1, s3)
  {
    hide LoweredOf;
    forall token ensures TokenAdvances(s1, s3, token) {
      assert TokenAdvances(s1, s2, token) && TokenAdvances(s2, s3, token);
    }
    forall id ensures TickIdAdvances(s1, s3, id) {
      assert TickIdAdvances(s1, s2, id) && TickIdAdvances(s2, s3, id);
    }
  }

  /**
   * Over every run: a collection only moves from issued to submitted or expired, is submitted before
   * it expires or not at all, keeps the data and the assertions of its one submission, and a tick
   * leaves pending at most once.
   */
  lemma {:induction false} EveryRunAdvances(st: State, ops: seq<Op>)
    requires Consistent(st)
    ensures Consistent(RunOps(st, ops)) && Advances(st, RunOps(st, ops))
  {
    hide LoweredOf;
    if ops != [] {
      hide Consistent, Advances;
      var init := ops[..|ops| - 1];
      EveryRunAdvances(st, init);
      StepKeeps(RunOps(st, init), ops[|ops| - 1]);
      AdvancesTransitive(st, RunOps(st, init), RunOps(st, ops));
    }
  }

  /** What an accepted submission writes. */
  lemma SubmitWrites(st: State, token: Text, at: int, data: Option<Value>, assertions: seq<Assertion>, appended: nat)
    requires TokenOk(st, token)
    requires SubmitOutcome(st, token, at, assertions, appended) in {Done, AppendFailed}
    ensures var st' := Submit(st, token, at, data, assertions, appended);
            && token in st.collections && token in st'.collections
            && st'.collections[token] == st.collections[token].(status := Submitted, submittedAt := Some(at), data := data)
            && LoweredOf(st'.log, token) == LoweredFrom(token, st.collections[token].subject, Take(assertions, appended))
  {
    hide LoweredOf, LoweredFrom;
    var subject, some := st.collections[token].subject, Take(assertions, appended);
    LoweredOfOther(st.log, token, subject, some, token);
    assert LoweredOf(st.log, token) == [];
    assert [] + LoweredFrom(token, subject, some) == LoweredFrom(token, subject, some);
  }

  /** It is there for good, whatever is run afterwards. */
  lemma SubmittedOnce(st: State, token: Text, at: int, data: Option<Value>, assertions: seq<Assertion>, appended: nat, ops: seq<Op>)
    requires Consistent(st)
    requires SubmitOutcome(st, token, at, assertions, appended) in {Done, AppendFailed}
    ensures var st' := RunOps(Submit(st, token, at, data, assertions, appended), ops);
            && token in st.collections && token in st'.collections
            && st'.collections[token] == st.collections[token].(status := Submitted, submittedAt := Some(at), data := data)
            && LoweredOf(st'.log, token) == LoweredFrom(token, st.collections[token].subject, Take(assertions, appended))
  {
    hide LoweredOf, LoweredFrom, RunOps, SubmitOutcome;
    var op := DoSubmit(token, at, data, assertions, appended);
    assert Apply(st, op) == Submit(st, token, at, data, assertions, appended);
    hide Submit;
    StepKeeps(st, op);
    assert TokenOk(st, token);
    SubmitWrites(st, token, at, data, assertions, appended);
    EveryRunAdvances(Apply(st, op), ops);
    assert TokenAdvances(Apply(st, op), RunOps(Apply(st, op), ops), token);
  }

  /** A tick acts only while pending, and only on an issued collection; otherwise nothing else changes. */
  lemma FiringActsOnIssuedOnly(st: State, id: Text, at: int)
    ensures var st' := FireTick(st, id, at);
            && (st'.collections != st.collections ==>
                  id in st.ticks && st.ticks[id].status == Pending && st.ticks[id].token in st.collections &&
                  st.collections[st.ticks[id].token].status == Issued && st'.ticks[id].status == Fired)
            && (id in st.ticks && st.ticks[id].status != Pending ==> st' == st)
            && FireTick(st', id, at) == st'
  {
  }

  /** Every state that operations lead to from empty tables is consistent. */
  lemma RunsAreConsistent(ops: seq<Op>)
    ensures Consistent(RunOps(EMPTY, ops))
  {
    EveryRunAdvances(EMPTY, ops);
  }
}
