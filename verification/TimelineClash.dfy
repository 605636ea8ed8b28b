/** A drain that stops: a wait tick whose timeline event is there already. */
module TimelineClash {
  import opened Seqs
  import opened Text
  import opened Core
  import opened Timers
  import opened Collections
  import opened Alarm

  const RUN: Text := [114]
  const FIRST: Text := [49]
  const SECOND: Text := [50]
  const STEP: Text := [115]
  const EVENT: Text := [120]

  const PARKED := Run([101], Waiting, Some(STEP), 0, None)

  /** A run parks with an event in its timeline, and two waits are scheduled for it, the first under that event. */
  const SCHEDULED: seq<Op> := [
    DoRecordRun(RUN, PARKED, {EVENT}),
    DoScheduleWait(FIRST, RUN, STEP, EVENT, 5, 0),
    DoScheduleWait(SECOND, RUN, STEP, [121], 7, 0)]

  const TAKEN := State(
    map[], map[], map[FIRST := Wait(RUN, STEP, EVENT, 5, Pending, 0, None), SECOND := Wait(RUN, STEP, [121], 7, Pending, 0, None)],
    map[RUN := PARKED], {EVENT}, [])

  const DUE_NOW := Due(5, FlowWait, FIRST)
  const DUE_LATER := Due(7, FlowWait, SECOND)

  lemma TakenIsReached()
    ensures RunOps(EMPTY, SCHEDULED) == TAKEN
  {
    var ops := SCHEDULED;
    assert ops[..2][..1] == [ops[0]] && ops[..2][1] == ops[1] && ops[..1][..0] == [];
    assert FIRST[0] != SECOND[0];
    assert RunOps(EMPTY, []) == EMPTY;
    assert RunOps(EMPTY, [ops[0]]) == Apply(EMPTY, ops[0]);
    assert RunOps(EMPTY, ops[..2]) == Apply(Apply(EMPTY, ops[0]), ops[1]);
    assert RunOps(EMPTY, ops) == Apply(RunOps(EMPTY, ops[..2]), ops[2]);
  }

  lemma TakenPending(upTo: Option<int>)
    ensures PendingUpTo(TAKEN, upTo) ==
              if upTo.Some? && upTo.value < 5 then {} else if upTo.Some? && upTo.value < 7 then {DUE_NOW} else {DUE_NOW, DUE_LATER}
  {
    assert FIRST[0] != SECOND[0];
    hide PendingTicks, PendingWaits;
    forall d { PendingMember(TAKEN, upTo, d); }
  }

  lemma OneInOrder(order: seq<Due>, d: Due)
    requires InOrder(order, {d})
    ensures order == [d]
  {
    InOrderNoDup(order, {d});
    NoDupCount(order);
    assert order[0] in SetOf(order);
  }

  /** The drain stops at the first wait, which is fired all the same and whose run goes on; the other stays pending. */
  lemma TakenEventStops(order: seq<Due>, n: nat)
    requires InOrder(order, PendingUpTo(TAKEN, Some(5))) && n > 0
    ensures Take(order, n) == [DUE_NOW] && !EventsFree(TAKEN, [DUE_NOW])
    ensures var st' := FireAll(TAKEN, [DUE_NOW], 5);
            && FIRST in st'.waits && st'.waits[FIRST].status == Fired && RUN in st'.runs && st'.runs[RUN].status == Running
            && PendingUpTo(st', None) == {DUE_LATER}
  {
    TakenPending(Some(5));
    OneInOrder(order, DUE_NOW);
    TakenPending(None);
    var due := [DUE_NOW];
    assert EventTaken(TAKEN, due, 0);
    assert due[..0] == [] && SetOf(due) == {DUE_NOW};
    assert FireAll(TAKEN, due, 5) == FireWait(TAKEN, FIRST, 5);
    assert FIRST[0] != SECOND[0];
    assert DUE_NOW != DUE_LATER;
    FiringAllLeavesRest(TAKEN, due, 5, None);
  }

  /** So the alarm is not set for the wait that is left. */
  method DrainForgetsTheOther(s: Surface)
    requires s.Now() == TAKEN
    modifies s
    ensures PendingUpTo(s.Now(), None) == {DUE_LATER} && s.alarm == old(s.alarm)
  {
    hide PendingUpTo, EventsFree, FireAll, InOrder, Take;
    ghost var order;
    var ok, handled;
    ok, handled, order := s.Drain(5, None);
    TakenEventStops(order, BatchLimit(None));
    assert handled == [DUE_NOW] by { FirstHandled(handled, order, BatchLimit(None)); }
  }

  lemma FirstHandled(handled: seq<Due>, order: seq<Due>, n: nat)
    requires Take(order, n) == [DUE_NOW] && handled <= Take(order, n) && handled != []
    ensures handled == [DUE_NOW]
  {
  }
}
