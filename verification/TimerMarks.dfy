/**
 * What fired and skipped ticks leave behind: over every run the marks on collections and timelines are
 * explained by the ticks that fired, and every tick that fired has left its mark.
 */
module TimerMarks {
  import opened Seqs
  import opened Text
  import opened Collections

  ghost predicate FiredFor(st: State, id: Text, token: Text, phase: Phase, at: int) {
    id in st.ticks && st.ticks[id].token == token && st.ticks[id].phase == phase &&
    st.ticks[id].status == Fired && st.ticks[id].firedAt == Some(at)
  }

  /** A reminder or escalation was fired at the time noted; without an expiry time only a tick expires. */
  ghost predicate MarksExplained(st: State, token: Text) {
    token in st.collections ==>
      var c := st.collections[token];
      && (c.remindedAt.Some? ==> exists id :: FiredFor(st, id, token, Reminder, c.remindedAt.value))
      && (c.escalatedAt.Some? ==> exists id :: FiredFor(st, id, token, Escalation, c.escalatedAt.value))
      && (c.status == Expired && c.expiresAt.None? ==> exists id, at :: FiredFor(st, id, token, Expire, at))
  }

  /** A fired tick shows on its collection; the collection of a skipped one is no longer issued. */
  ghost predicate TickShown(st: State, id: Text) {
    id in st.ticks && st.ticks[id].token in st.collections ==>
      var t := st.ticks[id];
      var c := st.collections[t.token];
      && (t.status == Skipped ==> c.status != Issued)
      && (t.status == Fired ==>
            match t.phase
            case Reminder => c.remindedAt.Some?
            case Escalation => c.escalatedAt.Some?
            case Expire => c.status == Expired)
  }

  /** A fired wait has its timeline event. */
  ghost predicate WaitShown(st: State, id: Text) {
    id in st.waits ==>
      (st.waits[id].firedAt.None? <==> st.waits[id].status == Pending) &&
      (st.waits[id].status == Fired ==> st.waits[id].eventId in st.dagEvents)
  }

  ghost predicate TickHasCollection(st: State, id: Text) {
    id in st.ticks ==> st.ticks[id].token in st.collections
  }

  ghost predicate Marked(st: State) {
    && (forall token :: MarksExplained(st, token))
    && (forall id :: TickHasCollection(st, id) && TickShown(st, id) && WaitShown(st, id))
  }

  /** What was fired stays fired. */
  lemma FiredStays(st: State, op: Op, id: Text, token: Text, phase: Phase, at: int)
    requires FiredFor(st, id, token, phase, at)
    ensures FiredFor(Apply(st, op), id, token, phase, at)
  {
  }

  /** A mark is an old one or that of the tick the operation fired. */
  ghost predicate MarksFrom(st: State, st': State, op: Op, token: Text) {
    token in st'.collections ==>
      var c' := st'.collections[token];
      && (c'.remindedAt.Some? ==>
            (token in st.collections && c'.remindedAt == st.collections[token].remindedAt) ||
            (op.DoFireTick? && FiredFor(st', op.id, token, Reminder, c'.remindedAt.value)))
      && (c'.escalatedAt.Some? ==>
            (token in st.collections && c'.escalatedAt == st.collections[token].escalatedAt) ||
            (op.DoFireTick? && FiredFor(st', op.id, token, Escalation, c'.escalatedAt.value)))
      && (c'.status == Expired && c'.expiresAt.None? ==>
            (token in st.collections && st.collections[token].status == Expired && st.collections[token].expiresAt.None?) ||
            (op.DoFireTick? && FiredFor(st', op.id, token, Expire, op.at)))
  }

  lemma TickMarks(st: State, id: Text, at: int, token: Text)
    ensures MarksFrom(st, FireTick(st, id, at), DoFireTick(id, at), token)
  {
  }

  lemma SubmitMarks(st: State, op: Op, token: Text)
    requires op.DoSubmit?
    ensures MarksFrom(st, Submit(st, op.token, op.at, op.data, op.assertions, op.appended), op, token)
  {
    hide LoweredFrom;
  }

  lemma NewMarks(st: State, op: Op, token: Text)
    ensures MarksFrom(st, Apply(st, op), op, token)
  {
    match op
    case DoSubmit(_, _, _, _, _) =>
      hide FireTick, FireWait, Submit, MarksFrom;
      SubmitMarks(st, op, token);
    case DoFireTick(id, at) =>
      hide FireTick, FireWait, Submit, MarksFrom;
      TickMarks(st, id, at, token);
    case _ =>
      hide FireTick, Submit;
  }

  lemma ExplainedStep(st: State, op: Op, token: Text)
    requires MarksExplained(st, token)
    ensures MarksExplained(Apply(st, op), token)
  {
    var st' := Apply(st, op);
    if token in st'.collections {
      NewMarks(st, op, token);
      forall id, phase, at | FiredFor(st, id, token, phase, at) ensures FiredFor(st', id, token, phase, at) {
        FiredStays(st, op, id, token, phase, at);
      }
      hide FiredFor, Apply;
    }
  }

  lemma ShownStep(st: State, op: Op, id: Text)
    requires TickHasCollection(st, id) && TickShown(st, id) && WaitShown(st, id)
    ensures TickHasCollection(Apply(st, op), id) && TickShown(Apply(st, op), id) && WaitShown(Apply(st, op), id)
  {
    CollectionStays(st, op, id);
    hide LoweredFrom, SubmitOutcome;
  }

  /** Collections stay, keep their marks, and are not issued twice. */
  lemma CollectionStays(st: State, op: Op, id: Text)
    requires TickHasCollection(st, id)
    ensures id in st.ticks ==>
              var token := st.ticks[id].token;
              && token in Apply(st, op).collections
              && var c, c' := st.collections[token], Apply(st, op).collections[token];
                 && (c.remindedAt.Some? ==> c'.remindedAt.Some?) && (c.escalatedAt.Some? ==> c'.escalatedAt.Some?)
                 && (c.status != Issued ==> c'.status == c.status)
  {
    match op
    case DoSubmit(_, _, _, _, _) => hide FireTick, FireWait, LoweredFrom;
    case DoFireTick(_, _) => hide Submit, FireWait;
    case _ => hide Submit, FireTick;
  }

  lemma StepKeepsMarks(st: State, op: Op)
    requires Marked(st)
    ensures Marked(Apply(st, op))
  {
    hide MarksExplained, TickHasCollection, TickShown, WaitShown, Apply;
    forall token ensures MarksExplained(Apply(st, op), token) {
      ExplainedStep(st, op, token);
    }
    forall id ensures TickHasCollection(Apply(st, op), id) && TickShown(Apply(st, op), id) && WaitShown(Apply(st, op), id) {
      ShownStep(st, op, id);
    }
  }

  /** Marks and ticks tally in every state of every run. */
  lemma {:induction false} RunKeepsMarks(ops: seq<Op>)
    ensures Marked(RunOps(EMPTY, ops))
  {
    if ops != [] {
      RunKeepsMarks(ops[..|ops| - 1]);
      hide Marked;
      StepKeepsMarks(RunOps(EMPTY, ops[..|ops| - 1]), ops[|ops| - 1]);
    }
  }

  /** A wait leaves pending at most once, and nothing moves it afterwards. */
  ghost predicate WaitAdvances(w: Wait, w': Wait) {
    if w.status == Pending then w' == w.(status := w'.status, firedAt := w'.firedAt) else w' == w
  }

  lemma {:induction false} WaitsAdvance(st: State, ops: seq<Op>, id: Text)
    requires id in st.waits
    ensures id in RunOps(st, ops).waits && WaitAdvances(st.waits[id], RunOps(st, ops).waits[id])
  {
    if ops != [] {
      WaitsAdvance(st, ops[..|ops| - 1], id);
      WaitStep(RunOps(st, ops[..|ops| - 1]), ops[|ops| - 1], id);
    }
  }

  lemma WaitStep(st: State, op: Op, id: Text)
    requires id in st.waits
    ensures id in Apply(st, op).waits && WaitAdvances(st.waits[id], Apply(st, op).waits[id])
  {
    hide LoweredFrom, SubmitOutcome, AfterPhase;
  }

  /** Only the tick of a waiting run resumes it, at the step it names, and it puts the event on the timeline. */
  lemma OnlyWaitsResume(st: State, id: Text, at: int, runId: Text)
    requires runId in st.runs
    ensures var st' := FireWait(st, id, at);
            && runId in st'.runs
            && (st'.runs[runId] != st.runs[runId] ==>
                  && id in st.waits && st.waits[id].runId == runId && st.waits[id].status == Pending
                  && st.runs[runId].status == Waiting && st'.runs[runId].status == Running
                  && st'.runs[runId].currentStepId == Some(st.waits[id].stepId) && st.waits[id].eventId in st'.dagEvents)
            && st'.collections == st.collections && st'.ticks == st.ticks && st'.log == st.log
  {
  }
}
