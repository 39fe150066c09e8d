/**
 A session's outgoing command stream over whole runs: packets are sent,
 acknowledged by their 16-bit ids and retransmitted until they are; and what
 the other end makes of whatever the network delivers of it.
 */
module ReliableSessions {
  import opened Basics
  import opened PacketSequences
  import opened SessionTransports
  import Windows = CommandReceiveWindows
  import Fragmenters = CommandFragmenters
  import Queues = ReliableCommandQueues
  import Streams = CommandStreams

  /** The sender and all packets it has sent in order, from position `start` on. */
  datatype Session = Session(sender: Sender, start: nat, packets: seq<Windows.Packet>)

  datatype Event = Send(packet: Windows.Packet, now: Time) | Ack(packetId: u16) | Tick(now: Time)

  function Initial(start: nat): Session {
    Session(Sender(start, map[], [], None), start, [])
  }

  /** One event; an error ends the session. */
  function Step(s: Session, event: Event): (r: Option<Session>)
    requires s.sender.next <= MAX_KEY
    ensures r.Some? ==> r.value.sender.next <= MAX_KEY
  {
    match event
    case Send(packet, now) =>
      AfterSending(s, [packet], SendStep(s.sender, packet, now))
    case Ack(packetId) =>
      var (table, r) := Queues.AcknowledgeStep(s.sender.table, packetId);
      if r.Err? then None else Some(s.(sender := s.sender.(table := table)))
    case Tick(now) =>
      var (table, due) := Queues.CollectStep(s.sender.table, now);
      if due.Err? then None else Some(s.(sender := s.sender.(table := table, wire := s.sender.wire + due.value)))
  }

  function RunFrom(s: Session, events: seq<Event>): (r: Option<Session>)
    requires s.sender.next <= MAX_KEY
    ensures r.Some? ==> r.value.sender.next <= MAX_KEY
  {
    if events == [] then Some(s) else
    var earlier := RunFrom(s, events[..|events| - 1]);
    if earlier.None? then None else Step(earlier.value, events[|events| - 1])
  }

  function Run(start: nat, events: seq<Event>): (r: Option<Session>)
    requires start <= MAX_KEY
    ensures r.Some? ==> r.value.sender.next <= MAX_KEY
  {
    RunFrom(Initial(start), events)
  }

  // ---------------------------------------------------------------- a command is its packets

  /** The packets of a command as events, from the i-th on. */
  function SendsOf(packets: seq<Windows.Packet>, i: nat, clock: nat -> Time): seq<Event>
    requires i <= |packets|
    decreases |packets| - i
  {
    if i == |packets| then [] else [Send(packets[i], clock(i))] + SendsOf(packets, i + 1, clock)
  }

  /** The same run, told from its first event. */
  lemma {:induction false} RunFirst(s: Session, event: Event, events: seq<Event>)
    requires s.sender.next <= MAX_KEY
    ensures RunFrom(s, [event] + events) == Then(Step(s, event), events)
  {
    var all := [event] + events;
    if events == [] {
      assert all == [event] && all[..0] == [];
    } else {
      assert all[..|events|] == [event] + events[..|events| - 1];
      RunFirst(s, event, events[..|events| - 1]);
    }
  }

  function Then(s: Option<Session>, events: seq<Event>): Option<Session>
    requires s.Some? ==> s.value.sender.next <= MAX_KEY
  {
    if s.None? then None else RunFrom(s.value, events)
  }

  /** A session that has sent more packets, or none if one was refused. */
  function AfterSending(s: Session, packets: seq<Windows.Packet>, sent: (Sender, Result<u16, Error>)): Option<Session> {
    if sent.1.Err? then None else Some(Session(sent.0, s.start, s.packets + packets))
  }

  lemma SendsRest(s: Session, packets: seq<Windows.Packet>, i: nat, first: (Sender, Result<u16, Error>), rest: (Sender, Result<u16, Error>))
    requires i < |packets|
    ensures first.1.Ok? ==>
              AfterSending(AfterSending(s, [packets[i]], first).value, packets[i + 1..], rest) == AfterSending(s, packets[i..], rest)
  {
    assert s.packets + [packets[i]] + packets[i + 1..] == s.packets + packets[i..];
  }

  lemma {:induction false} SendsAreSent(s: Session, packets: seq<Windows.Packet>, i: nat, lastId: u16, clock: nat -> Time)
    requires s.sender.next <= MAX_KEY && i <= |packets|
    ensures RunFrom(s, SendsOf(packets, i, clock)) == AfterSending(s, packets[i..], SendFrom(s.sender, packets, i, lastId, clock))
    decreases |packets| - i
  {
    if i == |packets| {
      assert s.packets + packets[i..] == s.packets;
    } else {
      var first := SendStep(s.sender, packets[i], clock(i));
      RunFirst(s, Send(packets[i], clock(i)), SendsOf(packets, i + 1, clock));
      if first.1.Ok? {
        SendsAreSent(AfterSending(s, [packets[i]], first).value, packets, i + 1, first.1.value, clock);
        SendsRest(s, packets, i, first, SendFrom(first.0, packets, i + 1, first.1.value, clock));
      }
    }
  }

  /** Sending a command is sending its packets, whatever has happened in the session before. */
  lemma {:induction false} CommandIsItsPackets(s: Session, command: Windows.Bytes, clock: nat -> Time)
    requires s.sender.next <= MAX_KEY && Fragmenters.WithinLimit(command)
    ensures var packets := Fragmenters.PacketsOf(command);
            RunFrom(s, SendsOf(packets, 0, clock)) == AfterSending(s, packets, SendCommandStep(s.sender, command, clock))
  {
    var packets := Fragmenters.PacketsOf(command);
    SendsAreSent(s, packets, 0, 0, clock);
    assert packets[0..] == packets;
  }

  // ---------------------------------------------------------------- what the events say

  function SendCount(events: seq<Event>): nat {
    if events == [] then 0 else SendCount(events[..|events| - 1]) + if events[|events| - 1].Send? then 1 else 0
  }

  /** The i-th event sends the packet at position `k`. */
  predicate Sends(start: nat, events: seq<Event>, i: nat, k: nat) {
    i < |events| && events[i].Send? && start + SendCount(events[..i]) == k
  }

  /** An acknowledgement with the id of position `k` came after its packet was sent. */
  ghost predicate Acknowledged(start: nat, events: seq<Event>, k: nat) {
    exists i: nat, j: nat :: Sends(start, events, i, k) && i < j < |events| && events[j] == Ack(PacketIdOf(k))
  }

  ghost predicate IsSent(start: nat, events: seq<Event>, k: nat) {
    exists i: nat :: Sends(start, events, i, k)
  }

  /** Earlier events keep their place when another one follows. */
  lemma SendsEarlier(start: nat, events: seq<Event>, event: Event, i: nat, k: nat)
    requires i < |events|
    ensures Sends(start, events + [event], i, k) <==> Sends(start, events, i, k)
  {
    assert (events + [event])[..i] == events[..i];
  }

  /** The positions sent are numbered without gap. */
  lemma {:induction false} SentPositions(start: nat, events: seq<Event>, k: nat)
    ensures IsSent(start, events, k) <==> start <= k < start + SendCount(events)
  {
    if events != [] {
      var last := |events| - 1;
      var earlier := events[..last];
      assert events == earlier + [events[last]];
      SentPositions(start, earlier, k);
      if i: nat :| Sends(start, earlier, i, k) {
        SendsEarlier(start, earlier, events[last], i, k);
      }
      assert Sends(start, events, last, k) <==> events[last].Send? && k == start + SendCount(earlier);
      if i: nat :| Sends(start, events, i, k) {
        if i < last {
          SendsEarlier(start, earlier, events[last], i, k);
        }
      }
    }
  }

  /** An acknowledgement stays one when more happens. */
  lemma StillAcknowledged(start: nat, events: seq<Event>, event: Event, k: nat)
    requires Acknowledged(start, events, k) || (event == Ack(PacketIdOf(k)) && start <= k < start + SendCount(events))
    ensures Acknowledged(start, events + [event], k)
  {
    var all := events + [event];
    if Acknowledged(start, events, k) {
      var i: nat, j: nat :| Sends(start, events, i, k) && i < j < |events| && events[j] == Ack(PacketIdOf(k));
      SendsEarlier(start, events, event, i, k);
      assert all[j] == Ack(PacketIdOf(k));
    } else {
      SentPositions(start, events, k);
      var i: nat :| Sends(start, events, i, k);
      SendsEarlier(start, events, event, i, k);
      assert all[|events|] == Ack(PacketIdOf(k));
    }
  }

  /** One more event acknowledges a position exactly if it carries the id and the position has been sent. */
  lemma AcknowledgedNext(start: nat, events: seq<Event>, event: Event, k: nat)
    ensures Acknowledged(start, events + [event], k) <==>
            Acknowledged(start, events, k) || (event == Ack(PacketIdOf(k)) && start <= k < start + SendCount(events))
  {
    var all := events + [event];
    if Acknowledged(start, all, k) {
      var i: nat, j: nat :| Sends(start, all, i, k) && i < j < |all| && all[j] == Ack(PacketIdOf(k));
      SendsEarlier(start, events, event, i, k);
      SentPositions(start, events, k);
      assert j < |events| ==> events[j] == Ack(PacketIdOf(k));
    } else if Acknowledged(start, events, k) || (event == Ack(PacketIdOf(k)) && start <= k < start + SendCount(events)) {
      StillAcknowledged(start, events, event, k);
    }
  }

  /** The retransmission queue holds exactly what has been sent and not acknowledged since. */
  ghost predicate PendingIsUnacknowledged(start: nat, events: seq<Event>, table: Queues.Table) {
    forall k: nat :: k in table <==> start <= k < start + SendCount(events) && !Acknowledged(start, events, k)
  }

  // ---------------------------------------------------------------- the invariant

  function PositionOf(d: Datagram): nat {
    SequenceKey(d.packetId, d.generationId)
  }

  /** The packets of the stream are numbered from `start`; `d` is the one at `k`. */
  ghost predicate SentAt(start: nat, packets: seq<Windows.Packet>, k: nat, d: Datagram) {
    PositionOf(d) == k && start <= k < start + |packets| && Windows.Packet(d.flags, d.data) == packets[k - start]
  }

  /** A datagram is a packet of the stream, sealed at its own position. */
  ghost predicate OnStream(start: nat, packets: seq<Windows.Packet>, d: Datagram) {
    exists k :: SentAt(start, packets, k, d)
  }

  ghost predicate WireKept(start: nat, packets: seq<Windows.Packet>, wire: seq<Datagram>) {
    forall i :: 0 <= i < |wire| ==> OnStream(start, packets, wire[i])
  }

  ghost predicate TableKept(start: nat, packets: seq<Windows.Packet>, table: Queues.Table) {
    forall k :: k in table ==> SentAt(start, packets, k, table[k].packet)
  }

  /** Every packet has gone out, and not before its turn: what preceded it were packets before it. */
  ghost predicate InTurn(start: nat, packets: seq<Windows.Packet>, wire: seq<Datagram>) {
    forall k: nat :: start <= k < start + |packets| ==> HasGoneOut(start, packets, wire, k)
  }

  ghost predicate HasGoneOut(start: nat, packets: seq<Windows.Packet>, wire: seq<Datagram>, k: nat) {
    exists i: nat :: GoesOut(start, packets, wire, k, i)
  }

  ghost predicate GoesOut(start: nat, packets: seq<Windows.Packet>, wire: seq<Datagram>, k: nat, i: nat) {
    i < |wire| && SentAt(start, packets, k, wire[i]) && start <= k && WireKept(start, packets[..k - start], wire[..i])
  }

  ghost predicate StreamKept(start: nat, packets: seq<Windows.Packet>, table: Queues.Table, wire: seq<Datagram>) {
    TableKept(start, packets, table) && WireKept(start, packets, wire) && InTurn(start, packets, wire)
  }

  ghost predicate Kept(s: Session) {
    && s.sender.next == s.start + |s.packets| <= MAX_KEY && Queues.WellFormed(s.sender.table)
    && StreamKept(s.start, s.packets, s.sender.table, s.sender.wire)
  }

  lemma StillOnStream(start: nat, packets: seq<Windows.Packet>, packet: Windows.Packet, d: Datagram)
    requires OnStream(start, packets, d)
    ensures OnStream(start, packets + [packet], d)
  {
    var k :| SentAt(start, packets, k, d);
    assert SentAt(start, packets + [packet], k, d);
  }

  lemma SendKeepsWire(start: nat, packets: seq<Windows.Packet>, packet: Windows.Packet, wire: seq<Datagram>)
    requires WireKept(start, packets, wire) && start + |packets| <= MAX_KEY
    ensures WireKept(start, packets + [packet], wire + [Seal(start + |packets|, packet)])
  {
    var wire', packets' := wire + [Seal(start + |packets|, packet)], packets + [packet];
    forall i | 0 <= i < |wire'|
      ensures OnStream(start, packets', wire'[i])
    {
      if i < |wire| {
        StillOnStream(start, packets, packet, wire[i]);
      } else {
        assert SentAt(start, packets', start + |packets|, wire'[i]);
      }
    }
  }

  /** More on the wire, and more packets after it, leave every packet its turn. */
  lemma TurnKept(start: nat, packets: seq<Windows.Packet>, more: seq<Windows.Packet>, wire: seq<Datagram>, rest: seq<Datagram>, k: nat)
    requires InTurn(start, packets, wire) && start <= k < start + |packets|
    ensures HasGoneOut(start, packets + more, wire + rest, k)
  {
    assert HasGoneOut(start, packets, wire, k);
    var i: nat :| GoesOut(start, packets, wire, k, i);
    assert (packets + more)[..k - start] == packets[..k - start] && (wire + rest)[..i] == wire[..i];
    assert GoesOut(start, packets + more, wire + rest, k, i);
  }

  lemma SendKeepsTurn(start: nat, packets: seq<Windows.Packet>, packet: Windows.Packet, wire: seq<Datagram>)
    requires WireKept(start, packets, wire) && InTurn(start, packets, wire) && start + |packets| <= MAX_KEY
    ensures InTurn(start, packets + [packet], wire + [Seal(start + |packets|, packet)])
  {
    var wire', packets' := wire + [Seal(start + |packets|, packet)], packets + [packet];
    forall k: nat | start <= k < start + |packets'|
      ensures HasGoneOut(start, packets', wire', k)
    {
      if k < start + |packets| {
        TurnKept(start, packets, [packet], wire, [Seal(start + |packets|, packet)], k);
      } else {
        assert packets'[..|packets|] == packets && wire'[..|wire|] == wire;
        assert GoesOut(start, packets', wire', k, |wire|);
      }
    }
  }

  lemma ResendKeepsTurn(start: nat, packets: seq<Windows.Packet>, wire: seq<Datagram>, rest: seq<Datagram>)
    requires InTurn(start, packets, wire)
    ensures InTurn(start, packets, wire + rest)
  {
    forall k: nat | start <= k < start + |packets|
      ensures HasGoneOut(start, packets, wire + rest, k)
    {
      TurnKept(start, packets, [], wire, rest, k);
      assert packets + [] == packets;
    }
  }

  /** Sending puts the packet at the next position into the queue and on the wire. */
  lemma SendOutcome(s: Session, packet: Windows.Packet, now: Time)
    requires s.sender.next <= MAX_KEY && Step(s, Send(packet, now)).Some?
    ensures var position, sealed := s.sender.next, Seal(s.sender.next, packet);
            var entry := Queues.Fresh(sealed.packetId, sealed.generationId, sealed, now);
            var s' := Step(s, Send(packet, now)).value;
            && position < MAX_KEY
            && Queues.AddStep(s.sender.table, sealed.packetId, sealed.generationId, sealed, now) == (s.sender.table[position := entry], None)
            && s' == Session(Sender(position + 1, s.sender.table[position := entry], s.sender.wire + [sealed], s'.sender.first),
                             s.start, s.packets + [packet])
  {
  }

  lemma SendKeepsStream(start: nat, packets: seq<Windows.Packet>, packet: Windows.Packet, table: Queues.Table, entry: Queues.Pending, wire: seq<Datagram>)
    requires StreamKept(start, packets, table, wire) && start + |packets| <= MAX_KEY && entry.packet == Seal(start + |packets|, packet)
    ensures StreamKept(start, packets + [packet], table[start + |packets| := entry], wire + [Seal(start + |packets|, packet)])
  {
    SendKeepsWire(start, packets, packet, wire);
    SendKeepsTurn(start, packets, packet, wire);
  }

  lemma {:induction false} SendKeeps(s: Session, packet: Windows.Packet, now: Time)
    requires Kept(s) && Step(s, Send(packet, now)).Some?
    ensures Kept(Step(s, Send(packet, now)).value)
  {
    var sealed := Seal(s.sender.next, packet);
    SendOutcome(s, packet, now);
    Queues.AddKeepsIdsUnique(s.sender.table, sealed.packetId, sealed.generationId, sealed, now);
    SendKeepsStream(s.start, s.packets, packet, s.sender.table,
                    Queues.Fresh(sealed.packetId, sealed.generationId, sealed, now), s.sender.wire);
  }

  lemma {:induction false} AckKeeps(s: Session, packetId: u16)
    requires Kept(s)
    ensures Step(s, Ack(packetId)).Some? && Kept(Step(s, Ack(packetId)).value)
  {
    Queues.AcknowledgementIsUnambiguous(s.sender.table, packetId);
  }

  /** What is resent has been sent before. */
  lemma {:induction false} ResentAreSent(start: nat, packets: seq<Windows.Packet>, table: Queues.Table, keys: set<nat>)
    requires keys <= table.Keys && TableKept(start, packets, table)
    ensures WireKept(start, packets, Queues.PacketsAt(table, keys))
    decreases |keys|
  {
    if keys != {} {
      var key := Least(keys);
      ResentAreSent(start, packets, table, keys - {key});
      assert SentAt(start, packets, key, table[key].packet);
    }
  }

  lemma {:induction false} TickKeeps(s: Session, now: Time)
    requires Kept(s) && Step(s, Tick(now)).Some?
    ensures Kept(Step(s, Tick(now)).value)
  {
    var s' := Step(s, Tick(now)).value;
    Queues.CollectResendsTheDue(s.sender.table, now);
    Queues.VisitKeepsIdsUnique(s.sender.table, now, s'.sender.table);
    var due := Queues.PacketsAt(s.sender.table, Queues.Due(s.sender.table, s.sender.table.Keys, now));
    ResentAreSent(s.start, s.packets, s.sender.table, Queues.Due(s.sender.table, s.sender.table.Keys, now));
    ResendKeepsTurn(s.start, s.packets, s.sender.wire, due);
  }

  lemma {:induction false} StepKeeps(s: Session, event: Event)
    requires Kept(s) && Step(s, event).Some?
    ensures Kept(Step(s, event).value) && Step(s, event).value.start == s.start
  {
    match event
    case Send(packet, now) => SendKeeps(s, packet, now);
    case Ack(packetId) => AckKeeps(s, packetId);
    case Tick(now) => TickKeeps(s, now);
  }

  /** Which positions are pending after an event. */
  lemma {:induction false} PendingNext(s: Session, event: Event, k: nat)
    requires Kept(s) && Step(s, event).Some?
    ensures k in Step(s, event).value.sender.table <==>
            match event
            case Send(_, _) => k in s.sender.table || k == s.sender.next
            case Ack(packetId) => k in s.sender.table && PacketIdOf(k) != packetId
            case Tick(_) => k in s.sender.table
  {
    match event
    case Send(packet, now) => SendOutcome(s, packet, now);
    case Ack(packetId) =>
      Queues.AcknowledgementIsUnambiguous(s.sender.table, packetId);
      if k in s.sender.table {
        KeyParts(s.sender.table[k].packetId, s.sender.table[k].generationId, k);
      }
    case Tick(now) => Queues.CollectResendsTheDue(s.sender.table, now);
  }

  /** Where a run of events has led, in terms of the events alone. */
  ghost predicate Accounted(start: nat, events: seq<Event>, s: Session) {
    && Kept(s) && s.start == start && |s.packets| == SendCount(events)
    && PendingIsUnacknowledged(start, events, s.sender.table)
  }

  lemma {:induction false} StepAccounts(start: nat, events: seq<Event>, s: Session, event: Event)
    requires Accounted(start, events, s) && Step(s, event).Some?
    ensures Accounted(start, events + [event], Step(s, event).value)
  {
    StepKeeps(s, event);
    var s' := Step(s, event).value;
    assert (events + [event])[..|events|] == events;
    forall k: nat
      ensures k in s'.sender.table <==>
              start <= k < start + SendCount(events + [event]) && !Acknowledged(start, events + [event], k)
    {
      PendingNext(s, event, k);
      AcknowledgedNext(start, events, event, k);
      SentPositions(start, events, k);
    }
  }

  // ---------------------------------------------------------------- whole runs

  /**
   In every run the retransmission queue holds exactly the packets sent that no
   later acknowledgement has named; every packet went out in its turn; and
   whatever goes over the wire, first or again, is a packet of the stream at its
   own position.
   */
  lemma {:induction false} NothingIsForgotten(start: nat, events: seq<Event>)
    requires start <= MAX_KEY && Run(start, events).Some?
    ensures Accounted(start, events, Run(start, events).value)
  {
    if events == [] {
      assert PendingIsUnacknowledged(start, events, map[]);
    } else {
      var earlier, last := events[..|events| - 1], events[|events| - 1];
      NothingIsForgotten(start, earlier);
      StepAccounts(start, earlier, Run(start, earlier).value, last);
      assert events == earlier + [last];
    }
  }

  // ---------------------------------------------------------------- the other end

  /** A datagram as the other end receives it. */
  function AsReceived(d: Datagram): Streams.ServerPacket {
    Streams.ServerPacket(d.packetId, d.generationId, Windows.Packet(d.flags, d.data))
  }

  ghost predicate OnWire(wire: seq<Datagram>, deliveries: seq<nat>) {
    forall i :: 0 <= i < |deliveries| ==> deliveries[i] < |wire|
  }

  function Positions(wire: seq<Datagram>, deliveries: seq<nat>): seq<nat>
    requires OnWire(wire, deliveries)
  {
    seq(|deliveries|, i requires 0 <= i < |deliveries| => PositionOf(wire[deliveries[i]]))
  }

  /** The network delivers any datagrams that went over the wire, in any order, any number of times. */
  function Deliver(s: Streams.Receiver, wire: seq<Datagram>, deliveries: seq<nat>): (r: (Streams.Receiver, Option<Streams.Failure>))
    requires s.window.expected <= MAX_KEY && OnWire(wire, deliveries)
    ensures r.0.window.expected <= MAX_KEY
  {
    if deliveries == [] then (s, None) else
    var last := |deliveries| - 1;
    var (s', failure) := Deliver(s, wire, deliveries[..last]);
    if failure.Some? then (s', failure) else Streams.ReceiveStep(s', AsReceived(wire[deliveries[last]]))
  }

  /** Every datagram, resent ones included, is the packet of the stream at its own position. */
  lemma WireArrives(start: nat, packets: seq<Windows.Packet>, wire: seq<Datagram>, i: nat)
    requires WireKept(start, packets, wire) && i < |wire|
    ensures var stream, position := Streams.Stream(start, packets), PositionOf(wire[i]);
            stream.Has(position) && AsReceived(wire[i]) == stream.At(position)
  {
    assert OnStream(start, packets, wire[i]);
    var k :| SentAt(start, packets, k, wire[i]);
    KeyParts(wire[i].packetId, wire[i].generationId, k);
  }

  /** What the other end does with deliveries from the wire is what it does with arrivals of the stream. */
  lemma {:induction false} DeliveryIsArrival(start: nat, packets: seq<Windows.Packet>, wire: seq<Datagram>, deliveries: seq<nat>)
    requires start <= MAX_KEY && WireKept(start, packets, wire) && OnWire(wire, deliveries)
    requires forall position :: position in Positions(wire, deliveries) ==> Streams.Stream(start, packets).Has(position)
    ensures Deliver(Streams.Initial(start), wire, deliveries) ==
            Streams.Run(Streams.Initial(start), Streams.Stream(start, packets), Positions(wire, deliveries))
  {
    if deliveries != [] {
      var last := |deliveries| - 1;
      var earlier := deliveries[..last];
      DeliveryIsArrival(start, packets, wire, earlier);
      WireArrives(start, packets, wire, deliveries[last]);
      assert Positions(wire, deliveries)[..last] == Positions(wire, earlier);
    }
  }

  /** Whenever a datagram is delivered, its position is within reach of the one the receiver expects. */
  ghost predicate TimelyDelivery(start: nat, wire: seq<Datagram>, deliveries: seq<nat>)
    requires start <= MAX_KEY && OnWire(wire, deliveries)
  {
    forall n {:trigger deliveries[..n]} :: 0 <= n < |deliveries| ==>
      var (s, failure) := Deliver(Streams.Initial(start), wire, deliveries[..n]);
      failure.None? ==> Streams.Timely(s.window.expected, PositionOf(wire[deliveries[n]]))
  }

  lemma {:induction false} TimelyDeliveryIsTimelyRun(start: nat, packets: seq<Windows.Packet>, wire: seq<Datagram>, deliveries: seq<nat>)
    requires start <= MAX_KEY && WireKept(start, packets, wire) && OnWire(wire, deliveries) && TimelyDelivery(start, wire, deliveries)
    requires forall position :: position in Positions(wire, deliveries) ==> Streams.Stream(start, packets).Has(position)
    ensures Streams.TimelyRun(Streams.Initial(start), Streams.Stream(start, packets), Positions(wire, deliveries))
  {
    var positions := Positions(wire, deliveries);
    forall n | 0 <= n < |positions|
      ensures Streams.Run(Streams.Initial(start), Streams.Stream(start, packets), positions[..n]).1.None? ==>
                Streams.Timely(Streams.Run(Streams.Initial(start), Streams.Stream(start, packets), positions[..n]).0.window.expected, positions[n])
    {
      var earlier := deliveries[..n];
      assert positions[..n] == Positions(wire, earlier);
      DeliveryIsArrival(start, packets, wire, earlier);
    }
  }

  /** The receiver holds the commands before the first gap, and all of them once every position has been delivered. */
  ghost predicate CarriedAcross(start: nat, commands: seq<Windows.Bytes>, wire: seq<Datagram>, deliveries: seq<nat>)
    requires start <= MAX_KEY && OnWire(wire, deliveries)
  {
    var stream := Streams.Stream(start, Fragmenters.PacketsOfAll(commands));
    var positions := Positions(wire, deliveries);
    && (forall position :: position in positions ==> stream.Has(position))
    && Fragmenters.Carried(start, commands, positions)
    && Deliver(Streams.Initial(start), wire, deliveries) == Streams.Run(Streams.Initial(start), stream, positions)
  }

  /**
   From sender to receiver: commands are sent as their packets, with
   acknowledgements and retransmissions anywhere in between. Whatever of the
   wire the network delivers, resent packets included, in whatever order and
   however often, is carried across.
   */
  lemma {:induction false} SentCommandsArrive(start: nat, events: seq<Event>, commands: seq<Windows.Bytes>, deliveries: seq<nat>)
    requires start <= MAX_KEY && Run(start, events).Some?
    requires Run(start, events).value.packets == Fragmenters.PacketsOfAll(commands)
    requires forall c :: c in commands ==> Fragmenters.WithinLimit(c)
    requires OnWire(Run(start, events).value.sender.wire, deliveries)
    requires TimelyDelivery(start, Run(start, events).value.sender.wire, deliveries)
    ensures CarriedAcross(start, commands, Run(start, events).value.sender.wire, deliveries)
  {
    NothingIsForgotten(start, events);
    var s := Run(start, events).value;
    var wire := s.sender.wire;
    TimelyDeliveryIsTimelyRun(start, s.packets, wire, deliveries);
    DeliveryIsArrival(start, s.packets, wire, deliveries);
    Fragmenters.CommandsSurviveTheNetwork(start, commands, Positions(wire, deliveries));
  }

  // ---------------------------------------------------------------- the first acknowledgement

  /** Once anything has been sent, the first id of the session is that of its first position. */
  lemma {:induction false} FirstIsStart(start: nat, events: seq<Event>)
    requires start <= MAX_KEY && Run(start, events).Some?
    ensures Run(start, events).value.sender.first == if SendCount(events) == 0 then None else Some(PacketIdOf(start))
  {
    if events != [] {
      var earlier, last := events[..|events| - 1], events[|events| - 1];
      FirstIsStart(start, earlier);
      NothingIsForgotten(start, earlier);
      if last.Send? {
        SendTells(Run(start, earlier).value.sender, last.packet, last.now);
      }
    }
  }

  /** So the first acknowledgement of a session is for the first packet it has sent. */
  lemma FirstAckIsForTheFirst(start: nat, events: seq<Event>, ack: AckPacket)
    requires start <= MAX_KEY && Run(start, events).Some? && SendCount(events) > 0 && ack.packetId == 1
    ensures AckNames(Run(start, events).value.sender.first, ack, 0) == Ok(Some(PacketIdOf(start)))
  {
    FirstIsStart(start, events);
  }
}
