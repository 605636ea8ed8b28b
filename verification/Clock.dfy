/**
 * Hybrid logical clocks kept across restarts: over every run of several replicas the timestamps they
 * return are unique, grow along happens-before and never outrun the clocks on the wall.
 */
module Clock {
  import opened Seqs
  import opened Text
  import opened Core

  function Max(a: int, b: int): int { if a > b then a else b }

  function Ticked(clock: Hlc, wall: int, self: Text): Hlc {
    var pt := Max(clock.pt, wall);
    Hlc(pt, if pt == clock.pt then clock.l + 1 else 0, self)
  }

  function Received(clock: Hlc, incoming: Hlc, wall: int, self: Text): Hlc {
    var pt := Max(Max(clock.pt, incoming.pt), wall);
    var l :=
      if pt == clock.pt && pt == incoming.pt then Max(clock.l, incoming.l) + 1
      else if pt == clock.pt then clock.l + 1
      else if pt == incoming.pt then incoming.l + 1
      else 0;
    Hlc(pt, l, self)
  }

  function InitialClock(self: Text): Hlc { Hlc(0, 0, self) }

  predicate Before(a: Hlc, b: Hlc) { CompareHlc(a, b) < 0 }

  /** A received timestamp and the own clock are both passed. */
  lemma ReceiveIsAbove(clock: Hlc, incoming: Hlc, wall: int, self: Text)
    ensures Before(clock, Received(clock, incoming, wall, self)) && Before(incoming, Received(clock, incoming, wall, self))
    ensures Before(clock, Ticked(clock, wall, self))
  {
  }

  /**
   * A tick: physical time is the later of the clock and the wall; the counter starts again when the wall
   * is ahead and goes up by one otherwise.
   */
  predicate TicksTo(clock: Hlc, wall: int, self: Text, r: Hlc) {
    && r.r == self && clock.pt <= r.pt && wall <= r.pt && (r.pt == clock.pt || r.pt == wall)
    && r.l == if wall > clock.pt then 0 else clock.l + 1
  }

  /**
   * A receipt: physical time is the latest of the clock, the incoming timestamp and the wall; the counter
   * passes those of the two that have that time, by one, and starts again when neither has.
   */
  predicate ReceivesTo(clock: Hlc, incoming: Hlc, wall: int, self: Text, r: Hlc) {
    && r.r == self && clock.pt <= r.pt && incoming.pt <= r.pt && wall <= r.pt && r.pt in {clock.pt, incoming.pt, wall}
    && (clock.pt == r.pt ==> clock.l < r.l) && (incoming.pt == r.pt ==> incoming.l < r.l)
    && (r.l == 0 || Hlc(r.pt, r.l - 1, clock.r) == clock || Hlc(r.pt, r.l - 1, incoming.r) == incoming)
    && (clock.pt < r.pt && incoming.pt < r.pt ==> r.l == 0)
  }

  lemma ClockSteps(clock: Hlc, incoming: Hlc, wall: int, self: Text)
    ensures TicksTo(clock, wall, self, Ticked(clock, wall, self))
    ensures ReceivesTo(clock, incoming, wall, self, Received(clock, incoming, wall, self))
  {
  }

  /** What a restart finds: the stored clock if it is this replica's, a new one otherwise. */
  function Restored(stored: Option<Hlc>, self: Text): Hlc {
    if stored.Some? && stored.value.r == self then stored.value else InitialClock(self)
  }

  class DurableObjectClock {
    const replicaId: Text
    var clock: Hlc
    /** The clock as the storage holds it. */
    var stored: Option<Hlc>

    /** Nothing is lost by restarting now. */
    ghost predicate Valid()
      reads this
    {
      clock == Restored(stored, replicaId)
    }

    constructor (stored: Option<Hlc>, replicaId: Text)
      ensures Valid() && this.replicaId == replicaId && this.stored == stored && clock == Restored(stored, replicaId)
      ensures stored.Some? && stored.value.r == replicaId ==> clock == stored.value
      ensures stored.None? || stored.value.r != replicaId ==> clock == Hlc(0, 0, replicaId)
    {
      this.replicaId, this.stored := replicaId, stored;
      clock := if stored.Some? && stored.value.r == replicaId then stored.value else InitialClock(replicaId);
    }

    method Tick(wall: int) returns (r: Hlc)
      modifies this
      ensures Valid() && r == clock == Ticked(old(clock), wall, replicaId) && Before(old(clock), r)
      ensures TicksTo(old(clock), wall, replicaId, r) && stored == Some(r)
    {
      ClockSteps(clock, clock, wall, replicaId);
      ReceiveIsAbove(clock, clock, wall, replicaId);
      clock := Ticked(clock, wall, replicaId);
      stored := Some(clock);
      r := clock;
    }

    method Receive(remote: Hlc, wall: int) returns (r: Hlc)
      modifies this
      ensures Valid() && r == clock == Received(old(clock), remote, wall, replicaId)
      ensures Before(old(clock), r) && Before(remote, r)
      ensures ReceivesTo(old(clock), remote, wall, replicaId, r) && stored == Some(r)
    {
      ClockSteps(clock, remote, wall, replicaId);
      ReceiveIsAbove(clock, remote, wall, replicaId);
      clock := Received(clock, remote, wall, replicaId);
      stored := Some(clock);
      r := clock;
    }
  }

  // ---- several replicas ---------------------------------------------------------------

  /** A returned timestamp, the replica that returned it, the one it was received from, if any, and the wall reading. */
  datatype Stamp = Stamp(ts: Hlc, at: Text, from: Option<nat>, wall: int)

  datatype Net = Net(stored: map<Text, Hlc>, clocks: map<Text, Hlc>, history: seq<Stamp>, maxWall: int)

  /** No replica has read a clock yet; the logical clocks start at physical time zero. */
  const START := Net(map[], map[], [], 0)

  datatype Step = DoTick(at: Text, wall: int) | DoReceive(at: Text, from: nat, wall: int) | DoRestart(at: Text)

  function Stored(net: Net, at: Text): Option<Hlc> { if at in net.stored then Some(net.stored[at]) else None }

  function ClockOf(net: Net, at: Text): Hlc { if at in net.clocks then net.clocks[at] else Restored(Stored(net, at), at) }

  /** The clock moves on, is stored, and is returned. */
  function Returned(net: Net, at: Text, ts: Hlc, from: Option<nat>, wall: int): Net {
    Net(net.stored[at := ts], net.clocks[at := ts], net.history + [Stamp(ts, at, from, wall)], Max(net.maxWall, wall))
  }

  function Apply(net: Net, s: Step): Net {
    match s
    case DoTick(at, wall) => Returned(net, at, Ticked(ClockOf(net, at), wall, at), None, wall)
    case DoReceive(at, from, wall) =>
      if from < |net.history| then Returned(net, at, Received(ClockOf(net, at), net.history[from].ts, wall, at), Some(from), wall) else net
    case DoRestart(at) => net.(clocks := net.clocks[at := Restored(Stored(net, at), at)])
  }

  function RunSteps(steps: seq<Step>): Net {
    if steps == [] then START else Apply(RunSteps(steps[..|steps| - 1]), steps[|steps| - 1])
  }

  // ---- the invariant ------------------------------------------------------------------------

  /** A stamp names its replica, stays below the wall clocks read so far and above what it was received from. */
  ghost predicate StampOk(net: Net, j: nat)
    requires j < |net.history|
  {
    var s := net.history[j];
    && s.ts.r == s.at && s.ts.pt <= net.maxWall
    && (s.from.Some? ==> s.from.value < j && Before(net.history[s.from.value].ts, s.ts))
  }

  ghost predicate InOrder(net: Net) {
    forall i, j :: 0 <= i < j < |net.history| && net.history[i].at == net.history[j].at ==>
      Before(net.history[i].ts, net.history[j].ts)
  }

  /** A replica's clock, running or stored, is its own and not below anything it has returned. */
  ghost predicate ClockOk(net: Net, at: Text) {
    && ClockOf(net, at) == Restored(Stored(net, at), at) && ClockOf(net, at).r == at && ClockOf(net, at).pt <= net.maxWall
    && forall i :: 0 <= i < |net.history| && net.history[i].at == at ==>
         net.history[i].ts == ClockOf(net, at) || Before(net.history[i].ts, ClockOf(net, at))
  }

  ghost predicate Inv(net: Net) {
    0 <= net.maxWall && (forall j :: 0 <= j < |net.history| ==> StampOk(net, j)) && InOrder(net) && (forall at :: ClockOk(net, at))
  }

  lemma ReturnedKeepsInv(net: Net, at: Text, ts: Hlc, from: Option<nat>, wall: int)
    requires Inv(net) && ts.r == at && ts.pt <= Max(net.maxWall, wall) && Before(ClockOf(net, at), ts)
    requires from.Some? ==> from.value < |net.history| && Before(net.history[from.value].ts, ts)
    ensures Inv(Returned(net, at, ts, from, wall))
  {
    hide CompareHlc;
    var net', n := Returned(net, at, ts, from, wall), |net.history|;
    assert ClockOk(net, at);
    forall i | 0 <= i < n && net.history[i].at == at ensures Before(net.history[i].ts, ts) {
      CompareHlcLaws(net.history[i].ts, ClockOf(net, at), ts);
    }
    forall j | 0 <= j < n + 1 ensures StampOk(net', j) {
      if j < n { assert StampOk(net, j); }
    }
    forall b ensures ClockOk(net', b) { assert ClockOk(net, b); }
    forall i, j | 0 <= i < j < n + 1 && net'.history[i].at == net'.history[j].at
      ensures Before(net'.history[i].ts, net'.history[j].ts)
    {
      if j < n { assert Before(net.history[i].ts, net.history[j].ts); }
    }
  }

  lemma StepKeepsInv(net: Net, s: Step)
    requires Inv(net)
    ensures Inv(Apply(net, s))
  {
    assert ClockOk(net, s.at);
    match s
    case DoTick(at, wall) =>
      ReceiveIsAbove(ClockOf(net, at), ClockOf(net, at), wall, at);
      ReturnedKeepsInv(net, at, Ticked(ClockOf(net, at), wall, at), None, wall);
    case DoReceive(at, from, wall) =>
      if from < |net.history| {
        assert StampOk(net, from);
        ReceiveIsAbove(ClockOf(net, at), net.history[from].ts, wall, at);
        ReturnedKeepsInv(net, at, Received(ClockOf(net, at), net.history[from].ts, wall, at), Some(from), wall);
      }
    case DoRestart(at) => RestartKeepsInv(net, at);
  }

  /** A restart resumes exactly where the replica was. */
  lemma RestartKeepsInv(net: Net, at: Text)
    requires Inv(net)
    ensures var net' := Apply(net, DoRestart(at));
            Inv(net') && forall b :: ClockOf(net', b) == ClockOf(net, b)
  {
    hide CompareHlc;
    var net' := Apply(net, DoRestart(at));
    assert ClockOk(net, at);
    forall b ensures ClockOk(net', b) && ClockOf(net', b) == ClockOf(net, b) { assert ClockOk(net, b); }
    forall j | 0 <= j < |net'.history| ensures StampOk(net', j) { assert StampOk(net, j); }
  }

  lemma {:induction false} RunKeepsInv(steps: seq<Step>)
    ensures Inv(RunSteps(steps))
  {
    if steps == [] {
      forall at ensures ClockOk(START, at) { }
    } else {
      RunKeepsInv(steps[..|steps| - 1]);
      StepKeepsInv(RunSteps(steps[..|steps| - 1]), steps[|steps| - 1]);
    }
  }

  // ---- what every run gives ----------------------------------------------------------------------

  /** One stamp leads directly to another: same replica later, or received from it. */
  predicate Leads(h: seq<Stamp>, i: nat, j: nat) {
    i < j < |h| && (h[i].at == h[j].at || h[j].from == Some(i))
  }

  ghost predicate HappensBefore(h: seq<Stamp>, i: nat, j: nat)
    decreases j
  {
    Leads(h, i, j) || exists k: nat :: k < j && HappensBefore(h, i, k) && Leads(h, k, j)
  }

  lemma {:induction false} HappensBeforeIsOrdered(net: Net, i: nat, j: nat)
    requires Inv(net) && HappensBefore(net.history, i, j)
    ensures i < j < |net.history| && Before(net.history[i].ts, net.history[j].ts)
    decreases j
  {
    hide CompareHlc;
    if Leads(net.history, i, j) {
      assert StampOk(net, j);
    } else {
      var k: nat :| k < j && HappensBefore(net.history, i, k) && Leads(net.history, k, j);
      HappensBeforeIsOrdered(net, i, k);
      assert StampOk(net, j);
      CompareHlcLaws(net.history[i].ts, net.history[k].ts, net.history[j].ts);
    }
  }

  /**
   * Over every run of ticks, receipts and restarts at any replicas: no timestamp is returned twice,
   * happens-before is respected, and physical time stays within the largest wall reading.
   */
  lemma TimestampsOfRun(steps: seq<Step>)
    ensures var net := RunSteps(steps);
            && (forall i, j :: 0 <= i < j < |net.history| ==> net.history[i].ts != net.history[j].ts)
            && (forall i: nat, j: nat :: HappensBefore(net.history, i, j) ==> j < |net.history| && i < j && Before(net.history[i].ts, net.history[j].ts))
            && (forall i :: 0 <= i < |net.history| ==> net.history[i].ts.pt <= net.maxWall)
  {
    hide CompareHlc, HappensBefore;
    var net := RunSteps(steps);
    RunKeepsInv(steps);
    forall i, j | 0 <= i < j < |net.history| ensures net.history[i].ts != net.history[j].ts {
      assert StampOk(net, i) && StampOk(net, j);
      CompareHlcLaws(net.history[i].ts, net.history[j].ts, net.history[i].ts);
    }
    forall i: nat, j: nat | HappensBefore(net.history, i, j)
      ensures j < |net.history| && i < j && Before(net.history[i].ts, net.history[j].ts)
    {
      HappensBeforeIsOrdered(net, i, j);
    }
    forall i | 0 <= i < |net.history| ensures net.history[i].ts.pt <= net.maxWall { assert StampOk(net, i); }
  }

  // ---- physical time is a wall reading ------------------------------------------------------------

  /** Physical time is no earlier than the wall or any stamp that leads here, and is that of one of these, or zero. */
  ghost predicate StampTime(h: seq<Stamp>, j: nat)
    requires j < |h|
  {
    && h[j].wall <= h[j].ts.pt && (forall m: nat :: Leads(h, m, j) ==> h[m].ts.pt <= h[j].ts.pt)
    && (h[j].ts.pt == 0 || h[j].ts.pt == h[j].wall || exists m: nat :: Leads(h, m, j) && h[m].ts.pt == h[j].ts.pt)
  }

  /** A replica's clock is the last timestamp it returned, or a new one. */
  ghost predicate ClockTime(net: Net, at: Text) {
    ClockOf(net, at).pt == 0 || exists i: nat :: i < |net.history| && net.history[i].at == at && net.history[i].ts == ClockOf(net, at)
  }

  ghost predicate Timed(net: Net) {
    (forall j: nat :: j < |net.history| ==> StampTime(net.history, j)) && forall at :: ClockTime(net, at)
  }

  lemma ReturnedTimed(net: Net, at: Text, ts: Hlc, from: Option<nat>, wall: int)
    requires Inv(net) && Timed(net) && Before(ClockOf(net, at), ts) && wall <= ts.pt
    requires from.Some? ==> from.value < |net.history| && net.history[from.value].ts.pt <= ts.pt
    requires ts.pt == ClockOf(net, at).pt || ts.pt == wall || (from.Some? && ts.pt == net.history[from.value].ts.pt)
    ensures Timed(Returned(net, at, ts, from, wall))
  {
    hide Inv, Before;
    var net', h, n := Returned(net, at, ts, from, wall), net.history, |net.history|;
    var h' := net'.history;
    assert ClockTime(net, at);
    forall j: nat, m: nat | j < n ensures Leads(h', m, j) <==> Leads(h, m, j) {
    }
    forall j: nat | j < n ensures StampTime(h', j) {
      assert StampTime(h, j);
      if m: nat :| Leads(h, m, j) && h[m].ts.pt == h[j].ts.pt { assert Leads(h', m, j) && h'[m].ts.pt == h'[j].ts.pt; }
    }
    forall m: nat | Leads(h', m, n) ensures h'[m].ts.pt <= ts.pt {
      if h[m].at == at { EarlierIsBelow(net, at, m, ts); }
    }
    LastStampTime(net, at, ts, from, wall);
    forall b ensures ClockTime(net', b) {
      assert ClockTime(net, b);
      if b == at {
        assert h'[n].at == at && h'[n].ts == ClockOf(net', at);
      } else if i: nat :| i < n && h[i].at == b && h[i].ts == ClockOf(net, b) {
        assert h'[i] == h[i] && ClockOf(net', b) == ClockOf(net, b);
      }
    }
  }

  lemma EarlierIsBelow(net: Net, at: Text, m: nat, ts: Hlc)
    requires Inv(net) && m < |net.history| && net.history[m].at == at && Before(ClockOf(net, at), ts)
    ensures net.history[m].ts.pt <= ts.pt
  {
    assert ClockOk(net, at);
  }

  lemma LastStampTime(net: Net, at: Text, ts: Hlc, from: Option<nat>, wall: int)
    requires ClockTime(net, at) && wall <= ts.pt && (from.Some? ==> from.value < |net.history|)
    requires ts.pt == ClockOf(net, at).pt || ts.pt == wall || (from.Some? && ts.pt == net.history[from.value].ts.pt)
    requires var h' := Returned(net, at, ts, from, wall).history;
             forall m: nat :: Leads(h', m, |net.history|) ==> h'[m].ts.pt <= ts.pt
    ensures StampTime(Returned(net, at, ts, from, wall).history, |net.history|)
  {
    var h', n := Returned(net, at, ts, from, wall).history, |net.history|;
    if ts.pt == ClockOf(net, at).pt && ts.pt != 0 {
      var i: nat :| i < n && net.history[i].at == at && net.history[i].ts == ClockOf(net, at);
      assert Leads(h', i, n) && h'[i].ts.pt == h'[n].ts.pt;
    } else if from.Some? && ts.pt == net.history[from.value].ts.pt {
      assert Leads(h', from.value, n) && h'[from.value].ts.pt == h'[n].ts.pt;
    }
  }

  lemma StepKeepsTimed(net: Net, s: Step)
    requires Inv(net) && Timed(net)
    ensures Timed(Apply(net, s))
  {
    hide Inv, Timed, Before, Ticked, Received;
    match s
    case DoTick(at, wall) =>
      ReceiveIsAbove(ClockOf(net, at), ClockOf(net, at), wall, at);
      ClockSteps(ClockOf(net, at), ClockOf(net, at), wall, at);
      ReturnedTimed(net, at, Ticked(ClockOf(net, at), wall, at), None, wall);
    case DoReceive(at, from, wall) =>
      if from < |net.history| {
        ReceiveIsAbove(ClockOf(net, at), net.history[from].ts, wall, at);
        ClockSteps(ClockOf(net, at), net.history[from].ts, wall, at);
        ReturnedTimed(net, at, Received(ClockOf(net, at), net.history[from].ts, wall, at), Some(from), wall);
      }
    case DoRestart(at) => RestartTimed(net, at);
  }

  lemma RestartTimed(net: Net, at: Text)
    requires Inv(net) && Timed(net)
    ensures Timed(Apply(net, DoRestart(at)))
  {
    RestartKeepsInv(net, at);
    var net' := Apply(net, DoRestart(at));
    hide Inv, ClockOf, StampTime;
    forall b ensures ClockTime(net', b) { assert ClockTime(net, b); }
  }

  lemma {:induction false} RunIsTimed(steps: seq<Step>)
    ensures Timed(RunSteps(steps))
  {
    if steps != [] {
      var init := steps[..|steps| - 1];
      RunIsTimed(init);
      RunKeepsInv(init);
      hide Timed, Inv;
      StepKeepsTimed(RunSteps(init), steps[|steps| - 1]);
    }
  }

  /** The stamp itself or one that happens before it. */
  ghost predicate Past(h: seq<Stamp>, i: nat, j: nat) { i < |h| && (i == j || HappensBefore(h, i, j)) }

  /** Physical time is the largest wall reading in a stamp's causal past, or zero where clocks start. */
  ghost predicate LargestWall(h: seq<Stamp>, j: nat)
    requires j < |h|
  {
    && (forall i: nat :: Past(h, i, j) ==> h[i].wall <= h[j].ts.pt)
    && (h[j].ts.pt == 0 || exists i: nat :: Past(h, i, j) && h[i].wall == h[j].ts.pt)
  }

  lemma {:induction false} TimeOfStamp(net: Net, j: nat)
    requires Timed(net) && j < |net.history|
    ensures LargestWall(net.history, j)
    decreases j
  {
    var h := net.history;
    assert StampTime(h, j);
    forall m: nat | Leads(h, m, j) ensures LargestWall(h, m) { TimeOfStamp(net, m); }
    forall i: nat | Past(h, i, j) ensures h[i].wall <= h[j].ts.pt { PastIsBelow(h, i, j); }
    if h[j].ts.pt == h[j].wall {
      assert Past(h, j, j);
    } else if h[j].ts.pt != 0 {
      var m: nat :| Leads(h, m, j) && h[m].ts.pt == h[j].ts.pt;
      var i: nat :| Past(h, i, m) && h[i].wall == h[m].ts.pt;
      assert HappensBefore(h, i, j);
      assert Past(h, i, j);
    }
  }

  lemma PastIsBelow(h: seq<Stamp>, i: nat, j: nat)
    requires j < |h| && StampTime(h, j) && Past(h, i, j) && forall m: nat :: Leads(h, m, j) ==> LargestWall(h, m)
    ensures h[i].wall <= h[j].ts.pt
  {
    if i != j {
      if Leads(h, i, j) {
        assert Past(h, i, i);
      } else {
        var k: nat :| k < j && HappensBefore(h, i, k) && Leads(h, k, j);
        assert Past(h, i, k);
      }
    }
  }

  /** Over every run. */
  lemma TimesOfRun(steps: seq<Step>, j: nat)
    requires j < |RunSteps(steps).history|
    ensures LargestWall(RunSteps(steps).history, j)
  {
    RunIsTimed(steps);
    TimeOfStamp(RunSteps(steps), j);
  }

  /** The bound is the largest wall reading of the run (or zero, where clocks start). */
  lemma {:induction false} MaxWallIsRead(steps: seq<Step>)
    ensures var w := RunSteps(steps).maxWall;
            w == 0 || exists s :: s in steps && !s.DoRestart? && s.wall == w
    ensures forall s :: s in steps && s.DoTick? ==> s.wall <= RunSteps(steps).maxWall
  {
    if steps != [] {
      MaxWallIsRead(steps[..|steps| - 1]);
      SplitLast(steps);
    }
  }
}
