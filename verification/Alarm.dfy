/** One alarm for two timer queues: arming it, and draining the ticks that are due. */
module Alarm {
  import opened Seqs
  import opened Text
  import opened Core
  import opened Timers
  import opened Collections

  function PendingTicks(st: State, upTo: Option<int>): set<Due> {
    set id | id in st.ticks && st.ticks[id].status == Pending && (upTo.Some? ==> st.ticks[id].fireAt <= upTo.value)
      :: Due(st.ticks[id].fireAt, CollectionTick, id)
  }

  function PendingWaits(st: State, upTo: Option<int>): set<Due> {
    set id | id in st.waits && st.waits[id].status == Pending && (upTo.Some? ==> st.waits[id].fireAt <= upTo.value)
      :: Due(st.waits[id].fireAt, FlowWait, id)
  }

  /** The pending ticks of both queues, up to a time. */
  ghost function PendingUpTo(st: State, upTo: Option<int>): set<Due> { PendingTicks(st, upTo) + PendingWaits(st, upTo) }

  function FireDue(st: State, d: Due, at: int): State {
    if d.kind == CollectionTick then FireTick(st, d.id, at) else FireWait(st, d.id, at)
  }

  function FireAll(st: State, due: seq<Due>, at: int): State {
    if due == [] then st else FireDue(FireAll(st, due[..|due| - 1], at), due[|due| - 1], at)
  }

  /** Firing takes its tick off the queue and leaves the others there. */
  lemma FiringLeavesRest(st: State, d: Due, at: int, upTo: Option<int>)
    requires d in PendingUpTo(st, None)
    ensures PendingTicks(FireDue(st, d, at), upTo) == PendingTicks(st, upTo) - {d}
    ensures PendingWaits(FireDue(st, d, at), upTo) == PendingWaits(st, upTo) - {d}
  {
    hide PendingTicks, PendingWaits;
    var st' := FireDue(st, d, at);
    PendingMember(st, None, d);
    forall x ensures x in PendingTicks(st', upTo) <==> x in PendingTicks(st, upTo) && x != d {
      PendingMember(st, upTo, x);
      PendingMember(st', upTo, x);
    }
    forall x ensures x in PendingWaits(st', upTo) <==> x in PendingWaits(st, upTo) && x != d {
      PendingMember(st, upTo, x);
      PendingMember(st', upTo, x);
    }
  }

  lemma PendingMember(st: State, upTo: Option<int>, x: Due)
    ensures x in PendingTicks(st, upTo) <==>
              x.kind == CollectionTick && x.id in st.ticks && st.ticks[x.id].status == Pending &&
              st.ticks[x.id].fireAt == x.fireAt && (upTo.Some? ==> x.fireAt <= upTo.value)
    ensures x in PendingWaits(st, upTo) <==>
              x.kind == FlowWait && x.id in st.waits && st.waits[x.id].status == Pending &&
              st.waits[x.id].fireAt == x.fireAt && (upTo.Some? ==> x.fireAt <= upTo.value)
  {
  }

  lemma {:induction false} FiringAllLeavesRest(st: State, due: seq<Due>, at: int, upTo: Option<int>)
    requires NoDup(due) && SetOf(due) <= PendingUpTo(st, None)
    ensures PendingUpTo(FireAll(st, due, at), upTo) == PendingUpTo(st, upTo) - SetOf(due)
    decreases |due|
  {
    hide FireDue, PendingTicks, PendingWaits;
    if due == [] {
      assert SetOf(due) == {};
    } else {
      var init, d := due[..|due| - 1], due[|due| - 1];
      SplitLast(due);
      NotYet(due, |due| - 1);
      SetOfAppend(init, d);
      FiringAllLeavesRest(st, init, at, upTo);
      FiringAllLeavesRest(st, init, at, None);
      var st' := FireAll(st, init, at);
      FiringLeavesRest(st', d, at, upTo);
      WithoutOne(PendingTicks(st', upTo), PendingWaits(st', upTo), d);
      assert PendingUpTo(st, upTo) - SetOf(due) == (PendingUpTo(st, upTo) - SetOf(init)) - {d};
    }
  }

  lemma WithoutOne<T>(a: set<T>, b: set<T>, d: T)
    ensures (a - {d}) + (b - {d}) == (a + b) - {d}
  {
  }

  function Clamp(n: int): (r: nat)
    ensures 1 <= r <= 1000 && (1 <= n <= 1000 ==> r == n)
  {
    if n > 1000 then 1000 else if n < 1 then 1 else n
  }

  /** A hundred unless asked for something else, never less than one nor more than a thousand. */
  function BatchLimit(batchSize: Option<int>): (n: nat)
    ensures 1 <= n <= 1000
    ensures batchSize.None? ==> n == 100
    ensures batchSize.Some? && 1 <= batchSize.value <= 1000 ==> n == batchSize.value
    ensures batchSize.Some? && batchSize.value < 1 ==> n == 1
    ensures batchSize.Some? && batchSize.value > 1000 ==> n == 1000
  {
    Clamp(if batchSize.Some? then batchSize.value else 100)
  }

  /** What a drain of at most `n` leaves of `due` ticks: repeated drains run out of due ticks. */
  function Remaining(due: nat, n: nat): (r: nat)
    ensures n > 0 && due > 0 ==> r < due
  {
    if due <= n then 0 else due - n
  }

  /** What one drain does: it fires the first due ticks, all `n` of them or up to a clash, at least one if any is due. */
  ghost predicate DrainStep(st: State, st': State, at: int, n: nat) {
    exists order, handled ::
      InOrder(order, PendingUpTo(st, Some(at))) && handled <= Take(order, n) &&
      (handled == [] ==> Take(order, n) == []) && st' == FireAll(st, handled, at)
  }

  /** The last tick handled is a wait whose timeline event existed already. */
  predicate ClashAtLast(st: State, handled: seq<Due>, at: int) {
    handled != [] && Clashes(FireAll(st, handled[..|handled| - 1], at), handled[|handled| - 1])
  }

  predicate Clashes(st: State, d: Due) { d.kind == FlowWait && FireWaitOutcome(st, d.id) == DuplicateEvent }

  /** No tick of the list clashes when its turn comes. */
  predicate NoClash(st: State, due: seq<Due>, at: int) {
    forall i :: 0 <= i < |due| ==> !Clashes(FireAll(st, due[..i], at), due[i])
  }

  lemma NoClashNext(st: State, due: seq<Due>, i: nat, at: int)
    requires i < |due|
    ensures NoClash(st, due[..i + 1], at) <==> NoClash(st, due[..i], at) && !Clashes(FireAll(st, due[..i], at), due[i])
  {
    hide Clashes, FireAll;
    var s := due[..i + 1];
    assert s[..i] == due[..i] && s[i] == due[i];
    assert forall j :: 0 <= j < i ==> s[..j] == due[..i][..j] && s[j] == due[..i][j];
  }

  lemma NoClashPrefix(st: State, due: seq<Due>, i: nat, at: int)
    requires i <= |due| && NoClash(st, due, at)
    ensures NoClash(st, due[..i], at)
  {
    hide Clashes, FireAll;
    assert forall j :: 0 <= j < i ==> due[..i][..j] == due[..j] && due[..i][j] == due[j];
  }

  // ---- when a drain goes through, told from the tables before it ---------------------------------

  /** The tick is a wait for the run. */
  predicate WaitsFor(st: State, d: Due, run: Text) { d.kind == FlowWait && d.id in st.waits && st.waits[d.id].runId == run }

  predicate IsWaiting(st: State, run: Text) { run in st.runs && st.runs[run].status == Waiting }

  /** The tick is the first of the list for a run that is waiting. */
  predicate Resumes(st: State, due: seq<Due>, i: nat)
    requires i < |due|
  {
    && due[i].kind == FlowWait && due[i].id in st.waits && IsWaiting(st, st.waits[due[i].id].runId)
    && forall j :: 0 <= j < i ==> !WaitsFor(st, due[j], st.waits[due[i].id].runId)
  }

  /** The tick resumes its run under the timeline event. */
  predicate ResumesUnder(st: State, due: seq<Due>, i: nat, event: Text)
    requires i < |due|
  {
    Resumes(st, due, i) && st.waits[due[i].id].eventId == event
  }

  /** The tick resumes a run, but its timeline event is there already or comes with an earlier tick. */
  predicate EventTaken(st: State, due: seq<Due>, i: nat)
    requires i < |due|
  {
    Resumes(st, due, i) && !EventFree(st, due, i, st.waits[due[i].id].eventId)
  }

  predicate EventsFree(st: State, due: seq<Due>) { forall i :: 0 <= i < |due| ==> !EventTaken(st, due, i) }

  predicate EventFree(st: State, due: seq<Due>, i: nat, event: Text)
    requires i < |due|
  {
    event !in st.dagEvents && forall j :: 0 <= j < i ==> !ResumesUnder(st, due, j, event)
  }

  ghost predicate AllPending(st: State, due: seq<Due>) { NoDup(due) && forall d :: d in due ==> d in PendingUpTo(st, None) }

  lemma PendingWait(st: State, due: seq<Due>, i: nat)
    requires AllPending(st, due) && i < |due| && due[i].kind == FlowWait
    ensures due[i].id in st.waits && st.waits[due[i].id].status == Pending && st.waits[due[i].id].fireAt == due[i].fireAt
  {
    assert due[i] in due;
    PendingMember(st, None, due[i]);
  }

  lemma OtherWait(st: State, due: seq<Due>, i: nat, j: nat)
    requires AllPending(st, due) && i < j < |due| && due[i].kind == due[j].kind == FlowWait
    ensures due[i].id != due[j].id
  {
    PendingWait(st, due, i);
    PendingWait(st, due, j);
  }

  /** A tick whose turn has not come is as it was. */
  lemma {:induction false} LaterWaitStays(st: State, due: seq<Due>, k: nat, at: int, j: nat)
    requires AllPending(st, due) && k <= j < |due| && due[j].kind == FlowWait
    ensures var st' := FireAll(st, due[..k], at);
            due[j].id in st.waits && due[j].id in st'.waits && st'.waits[due[j].id] == st.waits[due[j].id]
  {
    PendingWait(st, due, j);
    if k > 0 {
      TakeNext(due, k - 1);
      LaterWaitStays(st, due, k - 1, at, j);
      if due[k - 1].kind == FlowWait { OtherWait(st, due, k - 1, j); }
    }
  }

  lemma FiringWakes(st: State, d: Due, at: int, run: Text)
    requires d.kind == FlowWait ==> d.id in st.waits && st.waits[d.id].status == Pending
    ensures IsWaiting(FireDue(st, d, at), run) <==> IsWaiting(st, run) && !WaitsFor(st, d, run)
  {
  }

  /** A run still waits if it did and no tick so far was for it. */
  lemma {:induction false} WaitingAfter(st: State, due: seq<Due>, k: nat, at: int, run: Text)
    requires AllPending(st, due) && k <= |due|
    ensures IsWaiting(FireAll(st, due[..k], at), run) <==>
              IsWaiting(st, run) && forall j :: 0 <= j < k ==> !WaitsFor(st, due[j], run)
  {
    if k > 0 {
      var d, st' := due[k - 1], FireAll(st, due[..k - 1], at);
      TakeNext(due, k - 1);
      WaitingAfter(st, due, k - 1, at, run);
      if d.kind == FlowWait {
        LaterWaitStays(st, due, k - 1, at, k - 1);
        PendingWait(st, due, k - 1);
      }
      hide FireDue, IsWaiting, AllPending;
      FiringWakes(st', d, at, run);
    }
  }

  /** The timeline then holds the events of the ticks that resumed a run. */
  lemma {:induction false} EventsAfter(st: State, due: seq<Due>, k: nat, at: int, event: Text)
    requires AllPending(st, due) && k <= |due|
    ensures event in FireAll(st, due[..k], at).dagEvents <==>
              event in st.dagEvents || exists j :: 0 <= j < k && ResumesUnder(st, due, j, event)
  {
    if k > 0 {
      var d, st' := due[k - 1], FireAll(st, due[..k - 1], at);
      TakeNext(due, k - 1);
      EventsAfter(st, due, k - 1, at, event);
      if d.kind == FlowWait {
        LaterWaitStays(st, due, k - 1, at, k - 1);
        PendingWait(st, due, k - 1);
        WaitingAfter(st, due, k - 1, at, st.waits[d.id].runId);
      }
      assert event in FireDue(st', d, at).dagEvents <==> event in st'.dagEvents || ResumesUnder(st, due, k - 1, event);
    }
  }

  lemma ClashIff(st: State, due: seq<Due>, i: nat, at: int)
    requires AllPending(st, due) && i < |due|
    ensures Clashes(FireAll(st, due[..i], at), due[i]) <==> EventTaken(st, due, i)
  {
    hide FireAll, AllPending;
    if due[i].kind == FlowWait {
      LaterWaitStays(st, due, i, at, i);
      PendingWait(st, due, i);
      WaitingAfter(st, due, i, at, st.waits[due[i].id].runId);
      EventsAfter(st, due, i, at, st.waits[due[i].id].eventId);
    }
  }

  /** A drain goes through exactly when no tick that resumes a run has a taken or shared timeline event. */
  lemma NoClashIff(st: State, order: seq<Due>, n: nat, at: int)
    requires InOrder(order, PendingUpTo(st, Some(at)))
    ensures NoClash(st, Take(order, n), at) <==> EventsFree(st, Take(order, n))
  {
    hide Clashes, EventTaken, FireAll, PendingUpTo, InOrder, Take;
    var due := Take(order, n);
    DueArePending(st, order, n, at);
    forall i | 0 <= i < |due| ensures Clashes(FireAll(st, due[..i], at), due[i]) <==> EventTaken(st, due, i) {
      ClashIff(st, due, i, at);
    }
  }

  lemma DueArePending(st: State, order: seq<Due>, n: nat, at: int)
    requires InOrder(order, PendingUpTo(st, Some(at)))
    ensures AllPending(st, Take(order, n))
  {
    InOrderNoDup(order, PendingUpTo(st, Some(at)));
    TakePart(order, PendingUpTo(st, Some(at)), n);
    DueIsPending(st, at);
    assert forall d :: d in Take(order, n) ==> d in SetOf(Take(order, n));
  }

  /** The alarm is set for the earliest pending tick. */
  ghost predicate AtEarliest(alarm: Option<int>, pending: set<Due>) {
    && alarm.Some? && (exists d :: d in pending && d.fireAt == alarm.value)
    && forall d :: d in pending ==> alarm.value <= d.fireAt
  }

  /** Every drain with a due tick lowers the number of due ticks, also one that stops at a clash. */
  lemma DrainLowersDue(st: State, st': State, at: int, n: nat)
    requires DrainStep(st, st', at, n) && n > 0
    ensures PendingUpTo(st', Some(at)) <= PendingUpTo(st, Some(at))
    ensures PendingUpTo(st, Some(at)) != {} ==> |PendingUpTo(st', Some(at))| < |PendingUpTo(st, Some(at))|
  {
    hide FireAll, PendingUpTo, InOrder, Take;
    var due := PendingUpTo(st, Some(at));
    var order, handled :| InOrder(order, due) && handled <= Take(order, n) && (handled == [] ==> Take(order, n) == []) &&
                          st' == FireAll(st, handled, at);
    FirstOfDue(order, due, handled, n);
    DueIsPending(st, at);
    FiringAllLeavesRest(st, handled, at, Some(at));
    if due != {} {
      InSetOf(handled, 0);
      assert PendingUpTo(st', Some(at)) <= due - {handled[0]} < due;
      SubsetCount(PendingUpTo(st', Some(at)), due - {handled[0]});
    }
  }

  lemma DueIsPending(st: State, at: int)
    ensures PendingUpTo(st, Some(at)) <= PendingUpTo(st, None)
  {
  }

  lemma FirstOfDue(order: seq<Due>, due: set<Due>, handled: seq<Due>, n: nat)
    requires InOrder(order, due) && handled <= Take(order, n) && (handled == [] ==> Take(order, n) == []) && n > 0
    ensures NoDup(handled) && SetOf(handled) <= due && (due != {} ==> handled != [])
  {
    InOrderNoDup(order, due);
    assert handled == order[..|handled|];
    PrefixSet(order, |handled|);
    assert order == [] ==> SetOf(order) == {};
  }

  /** Drains one after another at a fixed time. */
  ghost predicate DrainRun(states: seq<State>, at: int, n: nat) {
    states != [] && forall i :: 0 <= i < |states| - 1 ==> DrainStep(states[i], states[i + 1], at, n)
  }

  /** Repeated drains run out of due ticks: after `k` of them, clashes or not, at least `k` fewer are due, or none. */
  lemma {:induction false} RepeatedDrainsEmpty(states: seq<State>, at: int, n: nat)
    requires DrainRun(states, at, n) && n > 0
    ensures var k := |states| - 1;
            var due, left := PendingUpTo(states[0], Some(at)), PendingUpTo(states[k], Some(at));
            && left <= due && (k >= |due| ==> left == {}) && (k < |due| ==> |left| <= |due| - k)
  {
    hide DrainStep, PendingUpTo;
    if |states| > 1 {
      var init, k := states[..|states| - 1], |states| - 1;
      assert forall i :: 0 <= i < k ==> init[i] == states[i];
      RepeatedDrainsEmpty(init, at, n);
      assert DrainStep(states[k - 1], states[k - 1 + 1], at, n);
      DrainLowersDue(states[k - 1], states[k], at, n);
    }
  }

  /** A drain is a run of surface operations: collections and ticks advance as in every run. */
  lemma {:induction false} DrainAdvances(st: State, due: seq<Due>, at: int)
    requires Consistent(st)
    ensures Consistent(FireAll(st, due, at)) && Advances(st, FireAll(st, due, at))
  {
    hide Consistent, Advances, Apply;
    if due == [] {
      EveryRunAdvances(st, []);
    } else {
      var init, d := due[..|due| - 1], due[|due| - 1];
      var op := if d.kind == CollectionTick then DoFireTick(d.id, at) else DoFireWait(d.id, at);
      DrainAdvances(st, init, at);
      StepKeeps(FireAll(st, init, at), op);
      FireIsOp(FireAll(st, init, at), d, at);
      AdvancesTransitive(st, FireAll(st, init, at), FireAll(st, due, at));
    }
  }

  lemma FireIsOp(st: State, d: Due, at: int)
    ensures FireDue(st, d, at) == Apply(st, if d.kind == CollectionTick then DoFireTick(d.id, at) else DoFireWait(d.id, at))
  {
  }

  class Surface {
    var collections: map<Text, Collection>
    var ticks: map<Text, Tick>
    var waits: map<Text, Wait>
    var runs: map<Text, Run>
    var dagEvents: set<Text>
    var log: seq<Lowered>
    /** The one alarm of the Durable Object, and whether its storage can delete it. */
    var alarm: Option<int>
    const canDelete: bool

    ghost function Now(): State
      reads this
    {
      State(collections, ticks, waits, runs, dagEvents, log)
    }

    constructor (canDelete: bool)
      ensures Now() == EMPTY && alarm == None && this.canDelete == canDelete
    {
      collections, ticks, waits, runs, dagEvents, log := map[], map[], map[], map[], {}, [];
      alarm, this.canDelete := None, canDelete;
    }

    method IssueCollection(token: Text, subject: Text, at: int, expiresAt: Option<int>) returns (r: Outcome)
      modifies this`collections
      ensures Now() == Apply(old(Now()), DoIssue(token, subject, at, expiresAt))
      ensures r == if token in old(collections) then Exists else Done
    {
      if token in collections { return Exists; }
      collections := collections[token := Collection(subject, Issued, at, expiresAt, None, None, None, None, None)];
      r := Done;
    }

    method ExpireCollection(token: Text, at: int)
      requires token in collections
      modifies this`collections
      ensures collections == old(collections)[token := AfterPhase(old(collections)[token], Expire, at)]
    {
      collections := collections[token := collections[token].(status := Expired, expiredAt := Some(at))];
    }

    /** Submit, then append the lowered assertions one after another until one fails. */
    method SubmitCollection(token: Text, at: int, data: Option<Value>, assertions: seq<Assertion>, appended: nat) returns (r: Outcome)
      modifies this`collections, this`log
      ensures Now() == Apply(old(Now()), DoSubmit(token, at, data, assertions, appended))
      ensures r == SubmitOutcome(old(Now()), token, at, assertions, appended)
    {
      if token !in collections { return Unknown; }
      var c := collections[token];
      if c.status == Submitted { return AlreadySubmitted; }
      if c.status == Expired || (c.expiresAt.Some? && at >= c.expiresAt.value) {
        ExpireCollection(token, at);
        return TokenExpired;
      }
      collections := collections[token := c.(status := Submitted, submittedAt := Some(at), data := data)];
      var i := 0;
      LoweredNone(token, c.subject, log);
      while i < |assertions| && i < appended
        invariant i <= |assertions| && i <= appended
        invariant collections == old(collections)[token := c.(status := Submitted, submittedAt := Some(at), data := data)]
        invariant log == old(log) + LoweredFrom(token, c.subject, assertions[..i])
      {
        LoweredNext(token, c.subject, assertions, i);
        AppendAssoc(old(log), LoweredFrom(token, c.subject, assertions[..i]), [Lowered(token, c.subject, assertions[i])]);
        log := log + [Lowered(token, c.subject, assertions[i])];
        i := i + 1;
      }
      TakeAll(assertions);
      assert assertions[..i] == Take(assertions, appended);
      r := if appended < |assertions| then AppendFailed else Done;
    }

    method ScheduleCollectionTick(id: Text, token: Text, phase: Phase, fireAt: int, at: int) returns (r: Outcome)
      modifies this`ticks
      ensures Now() == Apply(old(Now()), DoScheduleTick(id, token, phase, fireAt, at))
      ensures r == if token !in collections then Unknown else if id in old(ticks) then Exists else Done
    {
      if token !in collections { return Unknown; }
      if id in ticks { return Exists; }
      ticks := ticks[id := Tick(token, phase, fireAt, Pending, at, None)];
      r := Done;
    }

    method MarkTick(id: Text, status: TickStatus, at: int)
      requires id in ticks
      modifies this`ticks
      ensures ticks == old(ticks)[id := old(ticks)[id].(status := status, firedAt := Some(at))]
    {
      ticks := ticks[id := ticks[id].(status := status, firedAt := Some(at))];
    }

    method FireCollectionTick(id: Text, at: int) returns (r: Outcome)
      modifies this`collections, this`ticks
      ensures Now() == Apply(old(Now()), DoFireTick(id, at))
      ensures r == if id in old(ticks) then Done else Unknown
    {
      if id !in ticks { return Unknown; }
      var tick := ticks[id];
      r := Done;
      if tick.status != Pending { return; }
      if tick.token !in collections {
        MarkTick(id, Skipped, at);
      } else if collections[tick.token].status != Issued {
        MarkTick(id, Skipped, at);
      } else {
        match tick.phase {
          case Reminder => collections := collections[tick.token := collections[tick.token].(remindedAt := Some(at))];
          case Escalation => collections := collections[tick.token := collections[tick.token].(escalatedAt := Some(at))];
          case Expire => ExpireCollection(tick.token, at);
        }
        MarkTick(id, Fired, at);
      }
    }

    method ScheduleFlowWaitTick(id: Text, runId: Text, stepId: Text, eventId: Text, fireAt: int, at: int) returns (r: Outcome)
      modifies this`waits
      ensures Now() == Apply(old(Now()), DoScheduleWait(id, runId, stepId, eventId, fireAt, at))
      ensures r == if runId !in runs then Unknown else if id in old(waits) then Exists else Done
    {
      if runId !in runs { return Unknown; }
      if id in waits { return Exists; }
      waits := waits[id := Wait(runId, stepId, eventId, fireAt, Pending, at, None)];
      r := Done;
    }

    method MarkWait(id: Text, status: TickStatus, at: int)
      requires id in waits
      modifies this`waits
      ensures waits == old(waits)[id := old(waits)[id].(status := status, firedAt := Some(at))]
    {
      waits := waits[id := waits[id].(status := status, firedAt := Some(at))];
    }

    method FireFlowWaitTick(id: Text, at: int) returns (r: Outcome)
      modifies this`waits, this`runs, this`dagEvents
      ensures Now() == Apply(old(Now()), DoFireWait(id, at))
      ensures r == FireWaitOutcome(old(Now()), id)
    {
      if id !in waits { return Unknown; }
      var wait := waits[id];
      r := Done;
      if wait.status != Pending { return; }
      if wait.runId !in runs {
        MarkWait(id, Skipped, at);
      } else if runs[wait.runId].status != Waiting {
        MarkWait(id, Skipped, at);
      } else {
        MarkWait(id, Fired, at);
        runs := runs[wait.runId := runs[wait.runId].(status := Running, currentStepId := Some(wait.stepId), updatedAt := at, completedAt := None)];
        if wait.eventId in dagEvents {
          assert dagEvents + {wait.eventId} == dagEvents;
          r := DuplicateEvent;
        } else {
          dagEvents := dagEvents + {wait.eventId};
        }
      }
    }

    // ---- the alarm --------------------------------------------------------------------

    method ListCollectionTicks(upTo: Option<int>, limit: int) returns (out: seq<Due>, ghost queue: seq<Due>)
      ensures FirstOf(out, PendingTicks(Now(), upTo), Clamp(limit))
      ensures InOrder(queue, PendingTicks(Now(), upTo)) && out == Take(queue, Clamp(limit))
    {
      hide InOrder;
      var found := Listing(set id | id in ticks && ticks[id].status == Pending && (upTo.Some? ==> ticks[id].fireAt <= upTo.value)
                             :: Due(ticks[id].fireAt, CollectionTick, id));
      OrderedInOrder(found);
      queue := Ordered(found);
      out := Take(Ordered(found), Clamp(Clamp(limit)));
    }

    method ListFlowWaitTicks(upTo: Option<int>, limit: int) returns (out: seq<Due>, ghost queue: seq<Due>)
      ensures FirstOf(out, PendingWaits(Now(), upTo), Clamp(limit))
      ensures InOrder(queue, PendingWaits(Now(), upTo)) && out == Take(queue, Clamp(limit))
    {
      hide InOrder;
      var found := Listing(set id | id in waits && waits[id].status == Pending && (upTo.Some? ==> waits[id].fireAt <= upTo.value)
                             :: Due(waits[id].fireAt, FlowWait, id));
      OrderedInOrder(found);
      queue := Ordered(found);
      out := Take(Ordered(found), Clamp(Clamp(limit)));
    }

    /** The first `n` ticks of both queues by a time, in firing order. */
    method FirstPending(upTo: Option<int>, n: int) returns (first: seq<Due>, ghost order: seq<Due>)
      requires 1 <= n <= 1000
      ensures FirstOf(first, PendingUpTo(Now(), upTo), n)
      ensures InOrder(order, PendingUpTo(Now(), upTo)) && first == Take(order, n)
    {
      hide InOrder, Take, PendingTicks, PendingWaits, Ordered;
      var collectionTicks, flowWaits;
      ghost var q1, q2;
      collectionTicks, q1 := ListCollectionTicks(upTo, n);
      flowWaits, q2 := ListFlowWaitTicks(upTo, n);
      Kinds(Now(), upTo);
      order := WholeQueue(q1, PendingTicks(Now(), upTo), q2, PendingWaits(Now(), upTo));
      CutQueuesApart(q1, PendingTicks(Now(), upTo), q2, PendingWaits(Now(), upTo), n);
      OrderedInOrder(collectionTicks + flowWaits);
      FirstOfCutQueues(q1, PendingTicks(Now(), upTo), q2, PendingWaits(Now(), upTo), order, Ordered(collectionTicks + flowWaits), n);
      first := Take(Ordered(collectionTicks + flowWaits), n);
    }

    lemma Kinds(st: State, upTo: Option<int>)
      ensures forall x :: x in PendingTicks(st, upTo) ==> x.kind == CollectionTick
      ensures forall x :: x in PendingWaits(st, upTo) ==> x.kind == FlowWait
    {
    }

    lemma WholeQueue(q1: seq<Due>, d1: set<Due>, q2: seq<Due>, d2: set<Due>) returns (order: seq<Due>)
      requires InOrder(q1, d1) && InOrder(q2, d2) && (forall x :: x in d1 ==> x.kind == CollectionTick) && (forall x :: x in d2 ==> x.kind == FlowWait)
      ensures InOrder(order, d1 + d2)
    {
      InOrderNoDup(q1, d1);
      InOrderNoDup(q2, d2);
      assert forall x :: x in q1 ==> x in SetOf(q1);
      assert forall x :: x in q2 ==> x in SetOf(q2);
      AppendNoDup(q1, q2);
      OrderedInOrder(q1 + q2);
      order := Ordered(q1 + q2);
    }

    lemma CutQueuesApart(q1: seq<Due>, d1: set<Due>, q2: seq<Due>, d2: set<Due>, n: nat)
      requires InOrder(q1, d1) && InOrder(q2, d2) && (forall x :: x in d1 ==> x.kind == CollectionTick) && (forall x :: x in d2 ==> x.kind == FlowWait)
      ensures NoDup(Take(q1, n) + Take(q2, n)) && SetOf(Take(q1, n) + Take(q2, n)) == SetOf(Take(q1, n)) + SetOf(Take(q2, n))
    {
      InOrderNoDup(q1, d1);
      InOrderNoDup(q2, d2);
      TakePart(q1, d1, n);
      TakePart(q2, d2, n);
      assert forall x :: x in Take(q1, n) ==> x in SetOf(Take(q1, n));
      assert forall x :: x in Take(q2, n) ==> x in SetOf(Take(q2, n));
      AppendNoDup(Take(q1, n), Take(q2, n));
    }

    /** Set the alarm for the earliest pending tick, or take it off when there is none. */
    method Arm() returns (next: Option<Due>)
      modifies this`alarm
      ensures next.None? <==> PendingUpTo(Now(), None) == {}
      ensures next.Some? ==> next.value in PendingUpTo(Now(), None) &&
                             forall d :: d in PendingUpTo(Now(), None) ==> d == next.value || DueLess(next.value, d)
      ensures alarm == if next.Some? then Some(next.value.fireAt) else if canDelete then None else old(alarm)
    {
      var first;
      ghost var order;
      first, order := FirstPending(None, 1);
      HeadIsFirst(order, PendingUpTo(Now(), None));
      if first == [] {
        next := None;
        if canDelete { alarm := None; }
      } else {
        next, alarm := Some(first[0]), Some(first[0].fireAt);
      }
    }

    lemma HeadIsFirst(order: seq<Due>, due: set<Due>)
      requires InOrder(order, due)
      ensures Take(order, 1) == [] <==> due == {}
      ensures Take(order, 1) != [] ==> Take(order, 1)[0] in due && forall d :: d in due ==> d == order[0] || DueLess(order[0], d)
    {
      assert order != [] ==> order[0] in SetOf(order);
      forall d | d in due ensures order != [] && (d == order[0] || DueLess(order[0], d)) {
        assert d in SetOf(order);
      }
    }

    /** Fire one tick of a queue. */
    method Fire(d: Due, at: int) returns (ok: bool)
      modifies this`collections, this`ticks, this`waits, this`runs, this`dagEvents
      ensures Now() == FireDue(old(Now()), d, at)
      ensures ok <==> !Clashes(old(Now()), d)
    {
      var r;
      if d.kind == CollectionTick {
        r := FireCollectionTick(d.id, at);
        ok := true;
      } else {
        r := FireFlowWaitTick(d.id, at);
        ok := r != DuplicateEvent;
      }
    }

    /**
     * Drain: `handled` is what left the queues. Unless a timeline event clashes, that is exactly the
     * first `limit` due ticks of the two queues together, the alarm is set for the earliest tick still
     * pending, and the number of due ticks has gone down by the number handled.
     */
    method Drain(dueAt: int, batchSize: Option<int>) returns (ok: bool, handled: seq<Due>, ghost order: seq<Due>)
      modifies this
      ensures InOrder(order, PendingUpTo(old(Now()), Some(dueAt)))
      ensures handled <= Take(order, BatchLimit(batchSize)) && (ok ==> handled == Take(order, BatchLimit(batchSize)))
      ensures Now() == FireAll(old(Now()), handled, dueAt)
      ensures forall upTo :: PendingUpTo(Now(), upTo) == PendingUpTo(old(Now()), upTo) - SetOf(handled)
      ensures ok ==> |PendingUpTo(Now(), Some(dueAt))| == Remaining(|order|, BatchLimit(batchSize))
      ensures DrainStep(old(Now()), Now(), dueAt, BatchLimit(batchSize))
      ensures ok && PendingUpTo(Now(), None) == {} ==> alarm == if canDelete then None else old(alarm)
      ensures ok && PendingUpTo(Now(), None) != {} ==> AtEarliest(alarm, PendingUpTo(Now(), None))
      ensures !ok ==> alarm == old(alarm) && ClashAtLast(old(Now()), handled, dueAt)
      ensures ok <==> EventsFree(old(Now()), Take(order, BatchLimit(batchSize)))
    {
      hide FireDue, InOrder, PendingTicks, PendingWaits, PendingUpTo, Take, Clashes, ClashAtLast, AtEarliest, DrainStep, NoClash, EventsFree;
      ghost var start := Now();
      var due;
      due, order := FirstPending(Some(dueAt), BatchLimit(batchSize));
      ok := true;
      var i := 0;
      NoneClash(start, dueAt);
      while i < |due| && ok
        invariant i <= |due| && Now() == FireAll(start, due[..i], dueAt) && alarm == old(alarm)
        invariant !ok ==> i > 0 && ClashAtLast(start, due[..i], dueAt)
        invariant ok <==> NoClash(start, due[..i], dueAt)
        decreases |due| - i
      {
        TakeNext(due, i);
        LastClashes(start, due[..i], due[i], dueAt);
        NoClashNext(start, due, i, dueAt);
        ok := Fire(due[i], dueAt);
        i := i + 1;
      }
      handled := due[..i];
      DrainedQueues(start, order, due, BatchLimit(batchSize), i, dueAt);
      if ok {
        TakeAll(due);
        var next := Arm();
        EarliestTime(next, PendingUpTo(Now(), None));
      }
      DrainIsStep(start, order, handled, BatchLimit(batchSize), dueAt);
      ClashStops(start, order, BatchLimit(batchSize), i, dueAt);
    }

    lemma NoneClash(st: State, at: int)
      ensures NoClash(st, [], at)
    {
    }

    lemma ClashStops(start: State, order: seq<Due>, n: nat, i: nat, at: int)
      requires InOrder(order, PendingUpTo(start, Some(at))) && i <= |Take(order, n)|
      ensures !NoClash(start, Take(order, n)[..i], at) ==> !EventsFree(start, Take(order, n))
      ensures i == |Take(order, n)| && NoClash(start, Take(order, n)[..i], at) ==> EventsFree(start, Take(order, n))
    {
      hide InOrder, PendingUpTo, Take, NoClash, EventsFree;
      NoClashIff(start, order, n, at);
      TakeAll(Take(order, n));
      if NoClash(start, Take(order, n), at) { NoClashPrefix(start, Take(order, n), i, at); }
    }

    lemma LastClashes(start: State, before: seq<Due>, d: Due, at: int)
      ensures ClashAtLast(start, before + [d], at) <==> Clashes(FireAll(start, before, at), d)
    {
      hide FireAll, Clashes;
      assert (before + [d])[..|before|] == before;
    }

    lemma DrainIsStep(start: State, order: seq<Due>, handled: seq<Due>, n: nat, at: int)
      requires InOrder(order, PendingUpTo(start, Some(at))) && handled <= Take(order, n)
      requires handled == [] ==> Take(order, n) == []
      ensures DrainStep(start, FireAll(start, handled, at), at, n)
    {
      hide FireAll, PendingUpTo, InOrder, Take;
    }

    lemma EarliestTime(next: Option<Due>, pending: set<Due>)
      requires next.Some? ==> next.value in pending && forall d :: d in pending ==> d == next.value || DueLess(next.value, d)
      ensures next.Some? ==> AtEarliest(Some(next.value.fireAt), pending)
    {
    }

    lemma DrainedQueues(start: State, order: seq<Due>, due: seq<Due>, n: nat, i: nat, at: int)
      requires InOrder(order, PendingUpTo(start, Some(at))) && due == Take(order, n) && i <= |due|
      ensures due[..i] <= due
      ensures forall upTo :: PendingUpTo(FireAll(start, due[..i], at), upTo) == PendingUpTo(start, upTo) - SetOf(due[..i])
      ensures i == |due| ==> |PendingUpTo(FireAll(start, due[..i], at), Some(at))| == Remaining(|order|, n)
    {
      var pending := PendingUpTo(start, Some(at));
      InOrderNoDup(order, pending);
      TakePart(order, pending, n);
      PrefixSet(due, i);
      assert pending <= PendingUpTo(start, None);
      forall upTo ensures PendingUpTo(FireAll(start, due[..i], at), upTo) == PendingUpTo(start, upTo) - SetOf(due[..i]) {
        FiringAllLeavesRest(start, due[..i], at, upTo);
      }
      if i == |due| {
        TakeAll(due);
        LeftCount(pending, order, n);
        NoDupCount(order);
      }
    }
  }
}
