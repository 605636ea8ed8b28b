/**
 * What was issued and scheduled, seen from later on: over every run a collection keeps the terms it was
 * issued on and is submitted on them, and a tick stays due at the time it was scheduled for.
 */
module Lifecycles {
  import opened Seqs
  import opened Text
  import opened Core
  import opened Timers
  import opened Collections
  import opened TimerMarks
  import opened Alarm

  // ---- collections ------------------------------------------------------------------

  predicate Fresh(c: Collection) {
    c.status == Issued && c.submittedAt.None? && c.remindedAt.None? && c.escalatedAt.None? && c.expiredAt.None? && c.data.None?
  }

  /** A new token is issued with nothing done to it yet; a known one stays as it is, and so do all others. */
  lemma IssuedNow(st: State, token: Text, subject: Text, at: int, expiresAt: Option<int>, other: Text)
    ensures var st' := Apply(st, DoIssue(token, subject, at, expiresAt));
            && token in st'.collections && (token !in st.collections ==> Fresh(st'.collections[token]))
            && (other in st.collections ==> other in st'.collections && st'.collections[other] == st.collections[other])
            && (other in st'.collections ==> other in st.collections || other == token)
            && st' == st.(collections := st'.collections)
  {
  }

  /** On every continuation the collection has the subject, the time and the expiry that it was issued with. */
  lemma IssuedKeepsTerms(st: State, token: Text, subject: Text, at: int, expiresAt: Option<int>, ops: seq<Op>)
    requires Consistent(st) && token !in st.collections
    ensures var st' := RunOps(Apply(st, DoIssue(token, subject, at, expiresAt)), ops);
            token in st'.collections && st'.collections[token].subject == subject &&
            st'.collections[token].issuedAt == at && st'.collections[token].expiresAt == expiresAt
  {
    var issued := Apply(st, DoIssue(token, subject, at, expiresAt));
    StepKeeps(st, DoIssue(token, subject, at, expiresAt));
    EveryRunAdvances(issued, ops);
    assert TokenAdvances(issued, RunOps(issued, ops), token);
  }

  predicate Accepted(r: Outcome) { r == Done || r == AppendFailed }

  /** A submission at or after the expiry is refused: it appends nothing, keeps the data there was and leaves the collection closed. */
  lemma LateIsRefused(st: State, token: Text, subject: Text, at: int, expiry: int, ops: seq<Op>,
                      submittedAt: int, data: Option<Value>, assertions: seq<Assertion>, appended: nat)
    requires Consistent(st) && token !in st.collections && submittedAt >= expiry
    ensures var st' := RunOps(Apply(st, DoIssue(token, subject, at, Some(expiry))), ops);
            var st'' := Apply(st', DoSubmit(token, submittedAt, data, assertions, appended));
            && !Accepted(SubmitOutcome(st', token, submittedAt, assertions, appended))
            && st''.log == st'.log && token in st'.collections && token in st''.collections
            && st''.collections[token].data == st'.collections[token].data && st''.collections[token].status != Issued
            && (st'.collections[token].status != Submitted ==>
                  st''.collections[token].status == Expired && st''.collections[token].expiredAt == Some(submittedAt))
  {
    IssuedKeepsTerms(st, token, subject, at, Some(expiry), ops);
  }

  /** What an accepted submission does to the log. */
  ghost predicate Appended(log: seq<Lowered>, log': seq<Lowered>, token: Text, subject: Text, assertions: seq<Assertion>, appended: nat) {
    && |log'| == |log| + (if appended < |assertions| then appended else |assertions|) && log'[..|log|] == log
    && forall i :: |log| <= i < |log'| ==> log'[i] == Lowered(token, subject, assertions[i - |log|])
  }

  lemma SubmitAppends(st: State, token: Text, at: int, data: Option<Value>, assertions: seq<Assertion>, appended: nat)
    requires token in st.collections && st.collections[token].status == Issued
    requires st.collections[token].expiresAt.Some? ==> at < st.collections[token].expiresAt.value
    ensures var st' := Apply(st, DoSubmit(token, at, data, assertions, appended));
            && Accepted(SubmitOutcome(st, token, at, assertions, appended))
            && token in st'.collections && st'.collections[token].status == Submitted
            && st'.collections[token].submittedAt == Some(at) && st'.collections[token].data == data
            && Appended(st.log, st'.log, token, st.collections[token].subject, assertions, appended)
  {
  }

  /** One in time, on a collection that is still issued, is accepted, with its data and its assertions up to the one that fails. */
  lemma TimelyIsAccepted(st: State, token: Text, subject: Text, at: int, expiresAt: Option<int>, ops: seq<Op>,
                         submittedAt: int, data: Option<Value>, assertions: seq<Assertion>, appended: nat)
    requires Consistent(st) && token !in st.collections && (expiresAt.Some? ==> submittedAt < expiresAt.value)
    requires var st' := RunOps(Apply(st, DoIssue(token, subject, at, expiresAt)), ops);
             token in st'.collections && st'.collections[token].status == Issued
    ensures var st' := RunOps(Apply(st, DoIssue(token, subject, at, expiresAt)), ops);
            var st'' := Apply(st', DoSubmit(token, submittedAt, data, assertions, appended));
            && Accepted(SubmitOutcome(st', token, submittedAt, assertions, appended))
            && token in st''.collections && st''.collections[token].status == Submitted
            && st''.collections[token].submittedAt == Some(submittedAt) && st''.collections[token].data == data
            && Appended(st'.log, st''.log, token, subject, assertions, appended)
  {
    hide RunOps, Apply, Consistent, Appended, SubmitOutcome;
    IssuedKeepsTerms(st, token, subject, at, expiresAt, ops);
    SubmitAppends(RunOps(Apply(st, DoIssue(token, subject, at, expiresAt)), ops), token, submittedAt, data, assertions, appended);
  }

  /** Why a submission is refused. */
  lemma RefusedBecause(st: State, token: Text, at: int, assertions: seq<Assertion>, appended: nat)
    ensures var r := SubmitOutcome(st, token, at, assertions, appended);
            && (r == Unknown <==> token !in st.collections)
            && (r == AlreadySubmitted <==> token in st.collections && st.collections[token].status == Submitted)
            && (token in st.collections && st.collections[token].status == Expired ==> r == TokenExpired)
            && (token in st.collections && st.collections[token].status == Issued ==>
                  (r == TokenExpired <==> st.collections[token].expiresAt.Some? && at >= st.collections[token].expiresAt.value))
            && (r == AppendFailed ==> appended < |assertions|) && (r == Done ==> appended >= |assertions|)
            && r in {Unknown, AlreadySubmitted, TokenExpired, AppendFailed, Done}
  {
  }

  // ---- ticks ------------------------------------------------------------------------

  /** A tick keeps its collection, its phase and the time it was scheduled for, whatever is run. */
  lemma ScheduledKeepsTime(st: State, id: Text, token: Text, phase: Phase, fireAt: int, at: int, ops: seq<Op>)
    requires Consistent(st) && token in st.collections && id !in st.ticks
    ensures var now := Apply(st, DoScheduleTick(id, token, phase, fireAt, at));
            var st' := RunOps(now, ops);
            && id in now.ticks && now.ticks[id].status == Pending
            && id in st'.ticks && st'.ticks[id].token == token && st'.ticks[id].phase == phase
            && st'.ticks[id].fireAt == fireAt && st'.ticks[id].scheduledAt == at
  {
    var now := Apply(st, DoScheduleTick(id, token, phase, fireAt, at));
    StepKeeps(st, DoScheduleTick(id, token, phase, fireAt, at));
    EveryRunAdvances(now, ops);
    assert TickIdAdvances(now, RunOps(now, ops), id);
  }

  /** As long as it is pending it is due from that time on, and not before. */
  lemma DueFromItsTime(st: State, id: Text, token: Text, phase: Phase, fireAt: int, at: int, ops: seq<Op>, time: int)
    requires Consistent(st) && token in st.collections && id !in st.ticks
    ensures var st' := RunOps(Apply(st, DoScheduleTick(id, token, phase, fireAt, at)), ops);
            id in st'.ticks && st'.ticks[id].status == Pending ==>
              (Due(fireAt, CollectionTick, id) in PendingUpTo(st', Some(time)) <==> fireAt <= time)
  {
    ScheduledKeepsTime(st, id, token, phase, fireAt, at, ops);
    var st' := RunOps(Apply(st, DoScheduleTick(id, token, phase, fireAt, at)), ops);
    PendingMember(st', Some(time), Due(fireAt, CollectionTick, id));
  }

  /** A wait keeps its run, its step, its timeline event and its time, and is due from then on. */
  lemma ScheduledWaitKeeps(st: State, id: Text, runId: Text, stepId: Text, eventId: Text, fireAt: int, at: int, ops: seq<Op>, time: int)
    requires runId in st.runs && id !in st.waits
    ensures var now := Apply(st, DoScheduleWait(id, runId, stepId, eventId, fireAt, at));
            var st' := RunOps(now, ops);
            && id in now.waits && now.waits[id].status == Pending && id in st'.waits
            && st'.waits[id] == Wait(runId, stepId, eventId, fireAt, st'.waits[id].status, at, st'.waits[id].firedAt)
            && (st'.waits[id].status == Pending ==> (Due(fireAt, FlowWait, id) in PendingUpTo(st', Some(time)) <==> fireAt <= time))
  {
    var now := Apply(st, DoScheduleWait(id, runId, stepId, eventId, fireAt, at));
    WaitsAdvance(now, ops, id);
    PendingMember(RunOps(now, ops), Some(time), Due(fireAt, FlowWait, id));
  }

  /** A tick leaves pending when it is fired, at that time: fired if its collection was issued, skipped otherwise. */
  lemma TickLeavesPending(st: State, op: Op, id: Text)
    requires Consistent(st) && id in st.ticks && st.ticks[id].status == Pending
    ensures var st' := Apply(st, op);
            && id in st'.ticks && st.ticks[id].token in st.collections
            && (st'.ticks[id].status == Pending <==> !(op.DoFireTick? && op.id == id))
            && (st'.ticks[id].status != Pending ==>
                  && st'.ticks[id].firedAt == Some(op.at)
                  && (st'.ticks[id].status == Fired <==> st.collections[st.ticks[id].token].status == Issued))
  {
    assert TickIdOk(st, id);
    hide LoweredFrom, AfterPhase;
  }

  /** A firing marks its collection with its own time, and in no other way than its phase says. */
  lemma FiringMarks(st: State, id: Text, at: int)
    requires id in st.ticks && st.ticks[id].status == Pending
    requires st.ticks[id].token in st.collections && st.collections[st.ticks[id].token].status == Issued
    ensures var token, phase := st.ticks[id].token, st.ticks[id].phase;
            var st' := Apply(st, DoFireTick(id, at));
            token in st'.collections &&
            var c, c' := st.collections[token], st'.collections[token];
            && c'.remindedAt == (if phase == Reminder then Some(at) else c.remindedAt)
            && c'.escalatedAt == (if phase == Escalation then Some(at) else c.escalatedAt)
            && c'.expiredAt == (if phase == Expire then Some(at) else c.expiredAt)
            && (c'.status == Expired <==> phase == Expire)
            && c'.data == c.data && c'.submittedAt == c.submittedAt
            && forall other :: other in st.collections && other != token ==> other in st'.collections && st'.collections[other] == st.collections[other]
  {
  }

  /** A wait leaves pending when it is fired, at that time: fired if its run was waiting, skipped otherwise. */
  lemma WaitLeavesPending(st: State, op: Op, id: Text)
    requires id in st.waits && st.waits[id].status == Pending
    ensures var st' := Apply(st, op);
            && id in st'.waits && (st'.waits[id].status == Pending <==> !(op.DoFireWait? && op.id == id))
            && (st'.waits[id].status != Pending ==>
                  && st'.waits[id].firedAt == Some(op.at)
                  && (st'.waits[id].status == Fired <==> IsWaiting(st, st.waits[id].runId)))
  {
    hide LoweredFrom, AfterPhase;
  }

  /** A resumed run is running at the wait's step from that time on, no longer completed, with the same subject. */
  lemma ResumedRun(st: State, id: Text, at: int)
    requires id in st.waits && st.waits[id].status == Pending && IsWaiting(st, st.waits[id].runId)
    ensures var w, st' := st.waits[id], Apply(st, DoFireWait(id, at));
            && w.runId in st'.runs
            && st'.runs[w.runId] == Run(st.runs[w.runId].subject, Running, Some(w.stepId), at, None)
            && st'.dagEvents == st.dagEvents + {w.eventId}
            && forall other :: other in st.runs && other != w.runId ==> other in st'.runs && st'.runs[other] == st.runs[other]
  {
  }
}
