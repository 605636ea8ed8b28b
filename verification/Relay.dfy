/**
 * A star of replicas around one relay: every message merges into the relay's store and fans out to the
 * other connections. Nothing unauthored ever appears, and when nothing is left in flight all stores
 * are equal.
 */
module Relay {
  import opened Seqs
  import opened Text
  import opened Core

  datatype Msg =
    | Events(from: Text, events: set<Event>)
    | Delta(from: Text, to: Text, events: set<Event>)
    | Hello(from: Text)

  function EventsIn(m: Msg): set<Event> { if m.Hello? then {} else m.events }

  /** What a replica does not ignore: messages not its own, and deltas only when addressed to it. */
  predicate Merges(m: Msg, self: Text) {
    m.from != self && !m.Hello? && (m.Delta? ==> m.to == self)
  }

  /** A message on the connection of a peer. */
  datatype Packet = Packet(peer: Text, msg: Msg)

  /** A fan-out still to be sent, to all connections but one. */
  datatype Fanout = Fanout(msg: Msg, except: Option<Text>)

  function Recipients(connections: set<Text>, f: Fanout): set<Packet> {
    set p | p in connections && Some(p) != f.except :: Packet(p, f.msg)
  }

  // ---- the relay object -----------------------------------------------------------------

  class WebSocketRelay {
    const replicaId: Text
    const announceOnConnect: bool
    /** Connections in the order they were made. */
    var connections: seq<Text>
    var store: set<Event>
    var sent: multiset<Packet>

    constructor (replicaId: Text, announceOnConnect: bool)
      ensures this.replicaId == replicaId && this.announceOnConnect == announceOnConnect
      ensures connections == [] && store == {} && sent == multiset{}
    {
      this.replicaId, this.announceOnConnect := replicaId, announceOnConnect;
      connections, store, sent := [], {}, multiset{};
    }

    method Connect(id: Text)
      requires NoDup(connections)
      modifies this`connections, this`sent
      ensures NoDup(connections) && SetOf(connections) == SetOf(old(connections)) + {id}
      ensures sent == old(sent) + (if announceOnConnect then multiset{Packet(id, Hello(replicaId))} else multiset{})
    {
      if id !in connections {
        SetOfAppend(connections, id);
        connections := connections + [id];
      } else {
        assert SetOf(connections) + {id} == SetOf(connections);
      }
      if announceOnConnect {
        sent := sent + multiset{Packet(id, Hello(replicaId))};
      }
    }

    method Disconnect(id: Text)
      requires NoDup(connections)
      modifies this`connections
      ensures NoDup(connections) && SetOf(connections) == SetOf(old(connections)) - {id}
    {
      var others := (c: Text) => c != id;
      FilterNoDup(connections, others);
      FilterMembers(connections, others);
      connections := Filter(connections, others);
    }

    method Broadcast(f: Fanout)
      requires NoDup(connections)
      modifies this`sent
      ensures sent == old(sent) + multiset(Recipients(SetOf(connections), f))
    {
      NoRecipients(f);
      for i := 0 to |connections|
        invariant sent == old(sent) + multiset(Recipients(SetOf(connections[..i]), f))
      {
        var id := connections[i];
        NotYet(connections, i);
        TakeNext(connections, i);
        SetOfAppend(connections[..i], id);
        OneRecipient(SetOf(connections[..i]), id, f);
        if Some(id) != f.except {
          sent := sent + multiset{Packet(id, f.msg)};
        }
      }
      TakeAll(connections);
    }

    /** Events written at the relay go to every connection. */
    method Publish(events: set<Event>)
      requires NoDup(connections)
      modifies this`sent
      ensures sent == old(sent) + (if events == {} then multiset{}
                                   else multiset(Recipients(SetOf(connections), Fanout(Events(replicaId, events), None))))
      ensures sent == old(sent) + multiset(set p | p in connections && events != {} :: Packet(p, Events(replicaId, events)))
    {
      ToAll(connections, Events(replicaId, events), None);
      if events == {} { return; }
      Broadcast(Fanout(Events(replicaId, events), None));
    }

    /** Take in a message of a connection; `delta` is what a hello's version vector says is missing. */
    method Handle(from: Text, m: Msg, delta: set<Event>)
      requires NoDup(connections) && (m.Hello? ==> delta <= store)
      modifies this`store, this`sent
      ensures store == HandledStore(replicaId, old(store), m)
      ensures sent == old(sent) + HandledSent(replicaId, SetOf(connections), from, m, delta)
      ensures m.Hello? || m.from == replicaId || (m.Delta? && m.to != replicaId) ==> store == old(store)
      ensures m.Hello? && m.from != replicaId && delta != {} && from in connections ==>
                sent == old(sent) + multiset{Packet(from, Delta(replicaId, m.from, delta))}
      ensures m.from == replicaId || (m.Hello? && (delta == {} || from !in connections)) || (m.Delta? && m.to != replicaId) ==> sent == old(sent)
      ensures !m.Hello? && m.from != replicaId && (m.Delta? ==> m.to == replicaId) ==>
                && store == old(store) + m.events
                && sent == old(sent) + multiset(set p | p in connections && p != from :: Packet(p, Events(m.from, m.events)))
    {
      if !m.Hello? { ToAll(connections, Events(m.from, m.events), Some(from)); }
      if m.from == replicaId { return; }
      if m.Hello? {
        if delta != {} && from in connections {
          sent := sent + multiset{Packet(from, Delta(replicaId, m.from, delta))};
        }
        return;
      }
      if m.Delta? && m.to != replicaId { return; }
      store := store + m.events;
      Broadcast(Fanout(Events(m.from, m.events), Some(from)));
    }
  }

  lemma ToAll(connections: seq<Text>, m: Msg, except: Option<Text>)
    ensures Recipients(SetOf(connections), Fanout(m, except)) == set p | p in connections && Some(p) != except :: Packet(p, m)
    ensures except.Some? ==> Recipients(SetOf(connections), Fanout(m, except)) == set p | p in connections && p != except.value :: Packet(p, m)
    ensures except.None? ==> Recipients(SetOf(connections), Fanout(m, except)) == set p | p in connections :: Packet(p, m)
  {
  }

  /** A merge takes in the events of a message that is not ignored. */
  function HandledStore(self: Text, store: set<Event>, m: Msg): set<Event> {
    if Merges(m, self) then store + m.events else store
  }

  /** A hello is answered, anything merged is passed on to the others under its sender's name. */
  ghost function HandledSent(self: Text, connections: set<Text>, from: Text, m: Msg, delta: set<Event>): multiset<Packet> {
    if m.Hello? then
      if m.from == self || delta == {} || from !in connections then multiset{} else multiset{Packet(from, Delta(self, m.from, delta))}
    else if Merges(m, self) then
      multiset(Recipients(connections, Fanout(Events(m.from, m.events), Some(from))))
    else multiset{}
  }

  lemma NoRecipients(f: Fanout)
    ensures Recipients(SetOf([]), f) == {}
  {
  }

  lemma OneRecipient(done: set<Text>, id: Text, f: Fanout)
    requires id !in done
    ensures multiset(Recipients(done + {id}, f))
         == multiset(Recipients(done, f)) + (if Some(id) != f.except then multiset{Packet(id, f.msg)} else multiset{})
  {
    if Some(id) == f.except {
      assert Recipients(done + {id}, f) == Recipients(done, f);
    } else {
      assert Recipients(done + {id}, f) == Recipients(done, f) + {Packet(id, f.msg)};
      assert Packet(id, f.msg) !in Recipients(done, f);
    }
  }

  // ---- the star as a step system -------------------------------------------------------------

  /** Peers are named by their replica ids; merging, fanning out and publishing are steps of their own. */
  datatype Star = Star(
    relay: Text, relayStore: set<Event>, stores: map<Text, set<Event>>,
    up: multiset<Packet>, down: multiset<Packet>, fanouts: multiset<Fanout>, unpublished: multiset<Packet>,
    authored: set<Event>)

  datatype Step =
    | PeerWrites(peer: Text, event: Event)
    | RelayWrites(event: Event)
    | PeerPublishes(p: Packet)
    | RelayFansOut(f: Fanout)
    | PeerSaysHello(peer: Text)
    | RelaySaysHello(peer: Text)
    /** `delta` is what a hello is answered with: any part of the store. */
    | RelayReceives(p: Packet, delta: set<Event>)
    | PeerReceives(p: Packet, delta: set<Event>)

  function PeerWrite(s: Star, peer: Text, event: Event): Star {
    if peer !in s.stores then s
    else s.(stores := s.stores[peer := s.stores[peer] + {event}], authored := s.authored + {event},
            unpublished := s.unpublished + multiset{Packet(peer, Events(peer, {event}))})
  }

  function RelayWrite(s: Star, event: Event): Star {
    s.(relayStore := s.relayStore + {event}, authored := s.authored + {event},
       fanouts := s.fanouts + multiset{Fanout(Events(s.relay, {event}), None)})
  }

  function Publish(s: Star, p: Packet): Star {
    if p !in s.unpublished then s else s.(unpublished := s.unpublished - multiset{p}, up := s.up + multiset{p})
  }

  function FanOut(s: Star, f: Fanout): Star {
    if f !in s.fanouts then s
    else s.(fanouts := s.fanouts - multiset{f}, down := s.down + multiset(Recipients(s.stores.Keys, f)))
  }

  function SendUp(s: Star, p: Packet): Star { s.(up := s.up + multiset{p}) }

  function SendDown(s: Star, p: Packet): Star { s.(down := s.down + multiset{p}) }

  /** A hello is answered with what the other side may lack; an empty answer is not sent. */
  function RelayReceive(s: Star, p: Packet, delta: set<Event>): Star {
    if p !in s.up then s
    else
      var s' := s.(up := s.up - multiset{p});
      if p.msg.Hello? then
        if p.msg.from == s.relay || !(delta <= s.relayStore) || delta == {} then s'
        else SendDown(s', Packet(p.peer, Delta(s.relay, p.msg.from, delta)))
      else if Merges(p.msg, s.relay) then
        s'.(relayStore := s.relayStore + p.msg.events,
            fanouts := s.fanouts + multiset{Fanout(Events(p.msg.from, p.msg.events), Some(p.peer))})
      else s'
  }

  function PeerReceive(s: Star, p: Packet, delta: set<Event>): Star {
    if p !in s.down || p.peer !in s.stores then s
    else
      var s' := s.(down := s.down - multiset{p});
      if p.msg.Hello? then
        if p.msg.from == p.peer || !(delta <= s.stores[p.peer]) || delta == {} then s'
        else SendUp(s', Packet(p.peer, Delta(p.peer, p.msg.from, delta)))
      else if Merges(p.msg, p.peer) then
        s'.(stores := s.stores[p.peer := s.stores[p.peer] + p.msg.events])
      else s'
  }

  function Apply(s: Star, step: Step): Star {
    match step
    case PeerWrites(peer, event) => PeerWrite(s, peer, event)
    case RelayWrites(event) => RelayWrite(s, event)
    case PeerPublishes(p) => Publish(s, p)
    case RelayFansOut(f) => FanOut(s, f)
    case PeerSaysHello(peer) => if peer in s.stores then SendUp(s, Packet(peer, Hello(peer))) else s
    case RelaySaysHello(peer) => if peer in s.stores then SendDown(s, Packet(peer, Hello(s.relay))) else s
    case RelayReceives(p, delta) => RelayReceive(s, p, delta)
    case PeerReceives(p, delta) => PeerReceive(s, p, delta)
  }

  /** A peer takes in what is meant for it, and answers the hello of another with what that may lack. */
  lemma PeerAnswers(s: Star, p: Packet, delta: set<Event>)
    requires p in s.down && p.peer in s.stores
    ensures var t := PeerReceive(s, p, delta);
            && t.down == s.down - multiset{p}
            && (p.msg.Hello? && p.msg.from != p.peer && delta <= s.stores[p.peer] && delta != {} ==>
                  t.stores == s.stores && t.up == s.up + multiset{Packet(p.peer, Delta(p.peer, p.msg.from, delta))})
            && (!p.msg.Hello? && p.msg.from != p.peer && (p.msg.Delta? ==> p.msg.to == p.peer) ==>
                  t.stores == s.stores[p.peer := s.stores[p.peer] + p.msg.events] && t.up == s.up)
            && (p.msg.from == p.peer || (p.msg.Delta? && p.msg.to != p.peer) ==> t.stores == s.stores && t.up == s.up)
  {
  }

  /** What the relay has done with a message once it has fanned out what it merged. */
  ghost predicate Handled(s: Star, t: Star, p: Packet, delta: set<Event>) {
    && t.relayStore == HandledStore(s.relay, s.relayStore, p.msg)
    && t.down == s.down + HandledSent(s.relay, s.stores.Keys, p.peer, p.msg, delta)
    && t.up == s.up - multiset{p} && t.fanouts == s.fanouts && t.stores == s.stores
  }

  lemma MergeIsSteps(s: Star, p: Packet, delta: set<Event>)
    requires p in s.up && Merges(p.msg, s.relay)
    ensures Handled(s, FanOut(RelayReceive(s, p, delta), Fanout(Events(p.msg.from, p.msg.events), Some(p.peer))), p, delta)
  {
    var f := Fanout(Events(p.msg.from, p.msg.events), Some(p.peer));
    hide Recipients;
    assert s.fanouts + multiset{f} - multiset{f} == s.fanouts;
  }

  lemma NoMergeIsStep(s: Star, p: Packet, delta: set<Event>)
    requires p in s.up && p.peer in s.stores && !Merges(p.msg, s.relay) && (p.msg.Hello? ==> delta <= s.relayStore)
    ensures Handled(s, RelayReceive(s, p, delta), p, delta)
  {
    hide Recipients;
  }

  /** The relay's handler is the receiving step and, after a merge, the fan-out it left to be sent. */
  lemma HandlerIsSteps(s: Star, p: Packet, delta: set<Event>)
    requires p in s.up && p.peer in s.stores && (p.msg.Hello? ==> delta <= s.relayStore)
    ensures var received := Apply(s, RelayReceives(p, delta));
            Handled(s, if Merges(p.msg, s.relay)
                       then Apply(received, RelayFansOut(Fanout(Events(p.msg.from, p.msg.events), Some(p.peer)))) else received,
                    p, delta)
  {
    hide Handled, RelayReceive, FanOut;
    if Merges(p.msg, s.relay) { MergeIsSteps(s, p, delta); } else { NoMergeIsStep(s, p, delta); }
  }

  function RunSteps(s: Star, steps: seq<Step>): Star {
    if steps == [] then s else Apply(RunSteps(s, steps[..|steps| - 1]), steps[|steps| - 1])
  }

  // ---- the invariant ---------------------------------------------------------------------------

  ghost predicate OnWayDown(s: Star, p: Text, e: Event) {
    || (exists f :: f in s.fanouts && e in EventsIn(f.msg) && f.except != Some(p))
    || (exists m :: Packet(p, m) in s.down && Merges(m, p) && e in EventsIn(m))
  }

  ghost predicate OnWayUp(s: Star, p: Text, e: Event) {
    || (exists m :: Packet(p, m) in s.unpublished && Merges(m, s.relay) && e in EventsIn(m))
    || (exists m :: Packet(p, m) in s.up && Merges(m, s.relay) && e in EventsIn(m))
  }

  /** Whatever one side holds, the other holds or is about to. */
  ghost predicate Tracked(s: Star, p: Text, e: Event) {
    p in s.stores ==>
      && (e in s.relayStore ==> e in s.stores[p] || OnWayDown(s, p, e))
      && (e in s.stores[p] ==> e in s.relayStore || OnWayUp(s, p, e))
  }

  ghost predicate UpOk(s: Star, p: Packet) {
    p.peer in s.stores && p.msg.from == p.peer && EventsIn(p.msg) <= s.stores[p.peer]
  }

  ghost predicate DownOk(s: Star, p: Packet) { p.peer in s.stores && EventsIn(p.msg) <= s.relayStore }

  ghost predicate FanoutOk(s: Star, f: Fanout) {
    && f.msg.Events? && f.msg.events <= s.relayStore
    && ((f.except.None? && f.msg.from == s.relay) || f.except == Some(f.msg.from))
  }

  ghost predicate OnlyAuthored(s: Star) {
    s.relayStore <= s.authored && forall p :: p in s.stores ==> s.stores[p] <= s.authored
  }

  ghost predicate NothingLost(s: Star, e: Event) {
    e in s.authored ==> e in s.relayStore || exists p :: p in s.stores && e in s.stores[p]
  }

  ghost predicate TrafficOk(s: Star) {
    && s.relay !in s.stores
    && (forall p :: p in s.up ==> UpOk(s, p))
    && (forall p :: p in s.unpublished ==> UpOk(s, p) && p.msg.Events?)
    && (forall p :: p in s.down ==> DownOk(s, p))
    && (forall f :: f in s.fanouts ==> FanoutOk(s, f))
  }

  ghost predicate Inv(s: Star) {
    && TrafficOk(s) && OnlyAuthored(s)
    && (forall e :: NothingLost(s, e))
    && (forall p, e :: Tracked(s, p, e))
  }

  /** Equal stores, nothing in flight. */
  ghost predicate Initial(s: Star) {
    && s.relay !in s.stores && (forall p :: p in s.stores ==> s.stores[p] == s.relayStore) && s.authored == s.relayStore
    && Quiet(s)
  }

  ghost predicate Quiet(s: Star) {
    s.up == multiset{} && s.down == multiset{} && s.fanouts == multiset{} && s.unpublished == multiset{}
  }

  /** Stores only grow, and the peers stay. */
  ghost predicate Grows(s: Star, s': Star) {
    && s'.relay == s.relay && s'.stores.Keys == s.stores.Keys && s.relayStore <= s'.relayStore && s.authored <= s'.authored
    && forall p :: p in s.stores ==> s.stores[p] <= s'.stores[p]
  }

  lemma WriteGrows(s: Star, peer: Text, event: Event)
    ensures Grows(s, PeerWrite(s, peer, event))
  {
  }

  lemma RelayReceiveGrows(s: Star, p: Packet, delta: set<Event>)
    ensures Grows(s, RelayReceive(s, p, delta))
  {
  }

  lemma PeerReceiveGrows(s: Star, p: Packet, delta: set<Event>)
    ensures Grows(s, PeerReceive(s, p, delta))
  {
  }

  ghost predicate SameStores(s: Star, s': Star) {
    s'.relay == s.relay && s'.stores == s.stores && s'.relayStore == s.relayStore && s'.authored == s.authored
  }

  lemma MovingKeepsStores(s: Star, p: Packet, f: Fanout)
    ensures SameStores(s, Publish(s, p)) && SameStores(s, SendUp(s, p)) && SameStores(s, SendDown(s, p)) && SameStores(s, FanOut(s, f))
  {
    hide Recipients;
  }

  /** Steps that move messages change no store. */
  lemma SendingKeepsStores(s: Star, step: Step)
    requires step.PeerPublishes? || step.RelayFansOut? || step.PeerSaysHello? || step.RelaySaysHello?
    ensures SameStores(s, Apply(s, step))
  {
    hide PeerWrite, RelayWrite, RelayReceive, PeerReceive, Publish, FanOut, SendUp, SendDown;
    var nobody := Fanout(Hello([]), None);
    match step
    case PeerPublishes(p) => MovingKeepsStores(s, p, nobody);
    case RelayFansOut(f) => MovingKeepsStores(s, Packet([], Hello([])), f);
    case PeerSaysHello(peer) => MovingKeepsStores(s, Packet(peer, Hello(peer)), nobody);
    case RelaySaysHello(peer) => MovingKeepsStores(s, Packet(peer, Hello(s.relay)), nobody);
  }

  lemma StepGrows(s: Star, step: Step)
    ensures Grows(s, Apply(s, step))
  {
    hide PeerWrite, RelayReceive, PeerReceive, Publish, FanOut, SendUp, SendDown;
    match step
    case PeerWrites(peer, event) => WriteGrows(s, peer, event);
    case RelayWrites(event) =>
    case RelayReceives(p, delta) => RelayReceiveGrows(s, p, delta);
    case PeerReceives(p, delta) => PeerReceiveGrows(s, p, delta);
    case _ => SendingKeepsStores(s, step);
  }

  lemma StaysOk(s: Star, s': Star)
    requires Grows(s, s')
    ensures forall p :: UpOk(s, p) ==> UpOk(s', p)
    ensures forall p :: DownOk(s, p) ==> DownOk(s', p)
    ensures forall f :: FanoutOk(s, f) ==> FanoutOk(s', f)
  {
  }

  /** What is in flight after a step was in flight before or is in order. */
  lemma TrafficFrom(s: Star, s': Star)
    requires TrafficOk(s) && Grows(s, s')
    requires forall p :: p in s'.up ==> p in s.up || p in s.unpublished || UpOk(s', p)
    requires forall p :: p in s'.unpublished ==> p in s.unpublished || (UpOk(s', p) && p.msg.Events?)
    requires forall p :: p in s'.down ==> p in s.down || DownOk(s', p)
    requires forall f :: f in s'.fanouts ==> f in s.fanouts || FanoutOk(s', f)
    ensures TrafficOk(s')
  {
    StaysOk(s, s');
    hide UpOk, DownOk, FanoutOk, Grows;
    assert s'.relay !in s'.stores by { GrowsKeeps(s, s'); }
  }

  lemma GrowsKeeps(s: Star, s': Star)
    requires Grows(s, s')
    ensures s'.relay == s.relay && s'.stores.Keys == s.stores.Keys
  {
  }

  lemma StepKeepsTraffic(s: Star, step: Step)
    requires TrafficOk(s)
    ensures TrafficOk(Apply(s, step))
  {
    StepGrows(s, step);
    hide PeerWrite, RelayWrite, RelayReceive, PeerReceive, Publish, FanOut, SendUp, SendDown, TrafficOk, Grows;
    match step
    case PeerWrites(peer, event) => WriteKeepsTraffic(s, peer, event);
    case RelayWrites(event) => RelayWriteKeepsTraffic(s, event);
    case RelayReceives(p, delta) => ReceiveUpKeepsTraffic(s, p, delta);
    case PeerReceives(p, delta) => ReceiveDownKeepsTraffic(s, p, delta);
    case RelayFansOut(f) => FanOutKeepsTraffic(s, f);
    case PeerPublishes(p) => PublishKeepsTraffic(s, p);
    case PeerSaysHello(peer) => HelloKeepsTraffic(s, peer);
    case RelaySaysHello(peer) => HelloKeepsTraffic(s, peer);
  }

  lemma WriteKeepsTraffic(s: Star, peer: Text, event: Event)
    requires TrafficOk(s) && Grows(s, PeerWrite(s, peer, event))
    ensures TrafficOk(PeerWrite(s, peer, event))
  {
    TrafficFrom(s, PeerWrite(s, peer, event));
  }

  lemma RelayWriteKeepsTraffic(s: Star, event: Event)
    requires TrafficOk(s) && Grows(s, RelayWrite(s, event))
    ensures TrafficOk(RelayWrite(s, event))
  {
    TrafficFrom(s, RelayWrite(s, event));
  }

  lemma PublishKeepsTraffic(s: Star, p: Packet)
    requires TrafficOk(s) && Grows(s, Publish(s, p))
    ensures TrafficOk(Publish(s, p))
  {
    TrafficFrom(s, Publish(s, p));
  }

  lemma SendKeepsTraffic(s: Star, p: Packet)
    requires TrafficOk(s)
    ensures UpOk(s, p) ==> TrafficOk(SendUp(s, p))
    ensures DownOk(s, p) ==> TrafficOk(SendDown(s, p))
  {
    TrafficFrom(s, s);
    if UpOk(s, p) { TrafficFrom(s, SendUp(s, p)); }
    if DownOk(s, p) { TrafficFrom(s, SendDown(s, p)); }
  }

  lemma HelloKeepsTraffic(s: Star, peer: Text)
    requires TrafficOk(s)
    ensures TrafficOk(Apply(s, PeerSaysHello(peer))) && TrafficOk(Apply(s, RelaySaysHello(peer)))
  {
    hide TrafficOk, SendUp, SendDown;
    SendKeepsTraffic(s, Packet(peer, Hello(peer)));
    SendKeepsTraffic(s, Packet(peer, Hello(s.relay)));
  }

  /** The relay takes a message off a connection. */
  function TakeUp(s: Star, p: Packet): Star { s.(up := s.up - multiset{p}) }

  function TakeDown(s: Star, p: Packet): Star { s.(down := s.down - multiset{p}) }

  lemma TakeKeepsTraffic(s: Star, p: Packet)
    requires TrafficOk(s)
    ensures TrafficOk(TakeUp(s, p)) && TrafficOk(TakeDown(s, p))
  {
    assert Grows(s, TakeUp(s, p)) && Grows(s, TakeDown(s, p));
    hide UpOk, DownOk, FanoutOk, Grows;
    TrafficFrom(s, TakeUp(s, p));
    TrafficFrom(s, TakeDown(s, p));
  }

  lemma ReceiveUpKeepsTraffic(s: Star, p: Packet, delta: set<Event>)
    requires TrafficOk(s) && Grows(s, RelayReceive(s, p, delta))
    ensures TrafficOk(RelayReceive(s, p, delta))
  {
    if p in s.up {
      assert UpOk(s, p);
      TakeKeepsTraffic(s, p);
      if p.msg.Hello? {
        SendKeepsTraffic(TakeUp(s, p), Packet(p.peer, Delta(s.relay, p.msg.from, delta)));
      } else if Merges(p.msg, s.relay) {
        MergeUpKeepsTraffic(s, p, delta);
      }
    }
  }

  lemma MergeUpKeepsTraffic(s: Star, p: Packet, delta: set<Event>)
    requires TrafficOk(s) && p in s.up && UpOk(s, p) && Merges(p.msg, s.relay) && Grows(s, RelayReceive(s, p, delta))
    ensures TrafficOk(RelayReceive(s, p, delta))
  {
    var s' := RelayReceive(s, p, delta);
    assert FanoutOk(s', Fanout(Events(p.msg.from, p.msg.events), Some(p.peer)));
    hide UpOk, DownOk, FanoutOk, Grows;
    TrafficFrom(s, s');
  }

  lemma ReceiveDownKeepsTraffic(s: Star, p: Packet, delta: set<Event>)
    requires TrafficOk(s) && Grows(s, PeerReceive(s, p, delta))
    ensures TrafficOk(PeerReceive(s, p, delta))
  {
    if p in s.down && p.peer in s.stores {
      TakeKeepsTraffic(s, p);
      if p.msg.Hello? {
        SendKeepsTraffic(TakeDown(s, p), Packet(p.peer, Delta(p.peer, p.msg.from, delta)));
      } else {
        TrafficFrom(s, PeerReceive(s, p, delta));
      }
    }
  }

  lemma FanOutKeepsTraffic(s: Star, f: Fanout)
    requires TrafficOk(s) && Grows(s, FanOut(s, f))
    ensures TrafficOk(FanOut(s, f))
  {
    if f in s.fanouts { assert FanoutOk(s, f); }
    TrafficFrom(s, FanOut(s, f));
  }

  lemma StepKeepsAuthored(s: Star, step: Step)
    requires TrafficOk(s) && OnlyAuthored(s)
    ensures OnlyAuthored(Apply(s, step))
  {
    hide RelayReceive, PeerReceive, Publish, FanOut, SendUp, SendDown;
    match step
    case PeerWrites(peer, event) =>
    case RelayWrites(event) =>
    case RelayReceives(p, delta) => ReceiveKeepsAuthored(s, p, delta);
    case PeerReceives(p, delta) => ReceiveKeepsAuthored(s, p, delta);
    case _ => SendingKeepsStores(s, step);
  }

  /** What a merge takes in was in the sender's store. */
  lemma ReceiveKeepsAuthored(s: Star, p: Packet, delta: set<Event>)
    requires TrafficOk(s) && OnlyAuthored(s)
    ensures OnlyAuthored(RelayReceive(s, p, delta)) && OnlyAuthored(PeerReceive(s, p, delta))
  {
    assert p in s.up ==> UpOk(s, p);
    assert p in s.down ==> DownOk(s, p);
    hide TrafficOk, UpOk, DownOk;
    if p in s.up { UpAuthored(s, p); }
  }

  lemma UpAuthored(s: Star, p: Packet)
    requires UpOk(s, p) && OnlyAuthored(s)
    ensures EventsIn(p.msg) <= s.authored
  {
  }

  lemma StepLosesNothing(s: Star, step: Step, e: Event)
    requires NothingLost(s, e)
    ensures NothingLost(Apply(s, step), e)
  {
    StepGrows(s, step);
    if p :| p in s.stores && e in s.stores[p] {
      assert e in Apply(s, step).stores[p];
    }
    if step.PeerWrites? && step.peer in s.stores { assert step.event in Apply(s, step).stores[step.peer]; }
  }

  // ---- every event stays tracked ----------------------------------------------------------------

  /** What a step must see to for one peer and one event. */
  lemma TracksFrom(s: Star, s': Star, p: Text, e: Event)
    requires Tracked(s, p, e) && Grows(s, s') && p in s.stores
    requires forall f :: f in s.fanouts && e in EventsIn(f.msg) && f.except != Some(p) ==>
               f in s'.fanouts || e in s'.stores[p] || OnWayDown(s', p, e)
    requires forall m :: Packet(p, m) in s.down && Merges(m, p) && e in EventsIn(m) ==> Packet(p, m) in s'.down || e in s'.stores[p]
    requires forall m :: Packet(p, m) in s.unpublished && Merges(m, s.relay) && e in EventsIn(m) ==>
               Packet(p, m) in s'.unpublished || Packet(p, m) in s'.up
    requires forall m :: Packet(p, m) in s.up && Merges(m, s.relay) && e in EventsIn(m) ==> Packet(p, m) in s'.up || e in s'.relayStore
    requires e in s'.relayStore && e !in s.relayStore ==> e in s'.stores[p] || OnWayDown(s', p, e)
    requires e in s'.stores[p] && e !in s.stores[p] ==> e in s'.relayStore || OnWayUp(s', p, e)
    ensures Tracked(s', p, e)
  {
    if e in s.relayStore && e !in s'.stores[p] && !OnWayDown(s', p, e) {
      if f :| f in s.fanouts && e in EventsIn(f.msg) && f.except != Some(p) { }
    }
  }

  lemma WriteTracks(s: Star, peer: Text, event: Event, p: Text, e: Event)
    requires TrafficOk(s) && Tracked(s, p, e)
    ensures Tracked(PeerWrite(s, peer, event), p, e)
  {
    if p in s.stores && peer in s.stores {
      var s', m := PeerWrite(s, peer, event), Events(peer, {event});
      StepGrows(s, PeerWrites(peer, event));
      assert Packet(peer, m) in s'.unpublished && Merges(m, s.relay) && event in EventsIn(m);
      TracksFrom(s, s', p, e);
    }
  }

  lemma RelayWriteTracks(s: Star, event: Event, p: Text, e: Event)
    requires TrafficOk(s) && Tracked(s, p, e)
    ensures Tracked(RelayWrite(s, event), p, e)
  {
    if p in s.stores {
      var s', f := RelayWrite(s, event), Fanout(Events(s.relay, {event}), None);
      StepGrows(s, RelayWrites(event));
      assert f in s'.fanouts && event in EventsIn(f.msg) && f.except != Some(p);
      TracksFrom(s, s', p, e);
    }
  }

  lemma FanOutTracks(s: Star, f: Fanout, p: Text, e: Event)
    requires TrafficOk(s) && Tracked(s, p, e)
    ensures Tracked(FanOut(s, f), p, e)
  {
    if p in s.stores && f in s.fanouts {
      var s' := FanOut(s, f);
      StepGrows(s, RelayFansOut(f));
      assert FanoutOk(s, f);
      if f.except != Some(p) && e in EventsIn(f.msg) {
        assert Packet(p, f.msg) in Recipients(s.stores.Keys, f);
        assert Packet(p, f.msg) in s'.down && Merges(f.msg, p);
      }
      TracksFrom(s, s', p, e);
    }
  }

  lemma RelayReceiveTracks(s: Star, q: Packet, delta: set<Event>, p: Text, e: Event)
    requires TrafficOk(s) && Tracked(s, p, e)
    ensures Tracked(RelayReceive(s, q, delta), p, e)
  {
    if p in s.stores && q in s.up {
      var s' := RelayReceive(s, q, delta);
      StepGrows(s, RelayReceives(q, delta));
      assert UpOk(s, q);
      if Merges(q.msg, s.relay) {
        var f := Fanout(Events(q.msg.from, q.msg.events), Some(q.peer));
        assert f in s'.fanouts && EventsIn(f.msg) == q.msg.events;
      }
      TracksFrom(s, s', p, e);
    }
  }

  lemma PeerReceiveTracks(s: Star, q: Packet, delta: set<Event>, p: Text, e: Event)
    requires TrafficOk(s) && Tracked(s, p, e)
    ensures Tracked(PeerReceive(s, q, delta), p, e)
  {
    if p in s.stores && q in s.down && q.peer in s.stores {
      var s' := PeerReceive(s, q, delta);
      StepGrows(s, PeerReceives(q, delta));
      assert DownOk(s, q);
      PeerReceiveEffect(s, q, delta, p, e);
      hide PeerReceive, TrafficOk, OnWayDown, OnWayUp;
      TracksFrom(s, s', p, e);
    }
  }

  lemma PeerReceiveEffect(s: Star, q: Packet, delta: set<Event>, p: Text, e: Event)
    requires DownOk(s, q) && q in s.down && q.peer in s.stores && p in s.stores
    ensures var s' := PeerReceive(s, q, delta);
            && p in s'.stores && s'.fanouts == s.fanouts && s'.unpublished == s.unpublished && s'.relayStore == s.relayStore
            && (forall m :: Packet(p, m) in s.up ==> Packet(p, m) in s'.up)
            && (forall m :: Packet(p, m) in s.down && Merges(m, p) && e in EventsIn(m) ==> Packet(p, m) in s'.down || e in s'.stores[p])
            && (e in s'.stores[p] && e !in s.stores[p] ==> e in s'.relayStore)
  {
  }

  lemma PublishTracks(s: Star, q: Packet, p: Text, e: Event)
    requires Tracked(s, p, e)
    ensures Tracked(Publish(s, q), p, e)
  {
    if p in s.stores { TracksFrom(s, Publish(s, q), p, e); }
  }

  lemma SendTracks(s: Star, q: Packet, p: Text, e: Event)
    requires Tracked(s, p, e)
    ensures Tracked(SendUp(s, q), p, e) && Tracked(SendDown(s, q), p, e)
  {
    if p in s.stores {
      TracksFrom(s, SendUp(s, q), p, e);
      TracksFrom(s, SendDown(s, q), p, e);
    }
  }

  lemma StepTracks(s: Star, step: Step, p: Text, e: Event)
    requires TrafficOk(s) && Tracked(s, p, e)
    ensures Tracked(Apply(s, step), p, e)
  {
    hide Tracked, TrafficOk, PeerWrite, RelayWrite, RelayReceive, PeerReceive, Publish, FanOut, SendUp, SendDown;
    match step
    case PeerWrites(peer, event) => WriteTracks(s, peer, event, p, e);
    case RelayWrites(event) => RelayWriteTracks(s, event, p, e);
    case RelayFansOut(f) => FanOutTracks(s, f, p, e);
    case RelayReceives(q, delta) => RelayReceiveTracks(s, q, delta, p, e);
    case PeerReceives(q, delta) => PeerReceiveTracks(s, q, delta, p, e);
    case PeerPublishes(q) => PublishTracks(s, q, p, e);
    case PeerSaysHello(peer) => SendTracks(s, Packet(peer, Hello(peer)), p, e);
    case RelaySaysHello(peer) => SendTracks(s, Packet(peer, Hello(s.relay)), p, e);
  }

  lemma {:induction false} RunKeepsInv(s: Star, steps: seq<Step>)
    requires Inv(s)
    ensures Inv(RunSteps(s, steps))
  {
    hide TrafficOk, OnlyAuthored, NothingLost, Tracked, Apply;
    if steps != [] {
      var t, step := RunSteps(s, steps[..|steps| - 1]), steps[|steps| - 1];
      RunKeepsInv(s, steps[..|steps| - 1]);
      StepKeepsTraffic(t, step);
      StepKeepsAuthored(t, step);
      forall e ensures NothingLost(Apply(t, step), e) { StepLosesNothing(t, step, e); }
      forall p, e ensures Tracked(Apply(t, step), p, e) { StepTracks(t, step, p, e); }
    }
  }

  lemma InitialInv(s: Star)
    requires Initial(s)
    ensures Inv(s)
  {
  }

  /** In every state of every run, no store holds an event nobody authored. */
  lemma NothingUnauthored(s: Star, steps: seq<Step>)
    requires Initial(s)
    ensures OnlyAuthored(RunSteps(s, steps))
  {
    InitialInv(s);
    RunKeepsInv(s, steps);
  }

  /** With nothing in flight and nothing left to send, every store holds exactly what was authored. */
  lemma QuietMeansEqual(s: Star, steps: seq<Step>)
    requires Initial(s) && Quiet(RunSteps(s, steps))
    ensures var t := RunSteps(s, steps);
            t.relayStore == t.authored && forall p :: p in t.stores ==> t.stores[p] == t.authored
  {
    InitialInv(s);
    RunKeepsInv(s, steps);
    var t := RunSteps(s, steps);
    forall p, e | p in t.stores ensures e in t.relayStore <==> e in t.stores[p] { assert Tracked(t, p, e); }
    forall e | e in t.authored ensures e in t.relayStore { assert NothingLost(t, e); }
    forall p | p in t.stores ensures t.stores[p] == t.authored {
      forall e ensures e in t.stores[p] <==> e in t.authored { assert e in t.relayStore <==> e in t.stores[p]; }
    }
  }
}
