/** The sending side of a session: commands with their retransmission, and keepalive pings. */
module SessionTransports {
  import opened Basics
  import opened PacketSequences
  import Windows = CommandReceiveWindows
  import Fragmenters = CommandFragmenters
  import Queues = ReliableCommandQueues

  type Time = Queues.Time
  type Datagram = Queues.Datagram

  const PING_INTERVAL := 1000

  datatype Error =
    | TooLarge | Unreliable(cause: Queues.Error) | Overflow
    | Unresolved(reason: ResolveError) | NotAuthentic | UnexpectedSize | Encrypted

  // ---------------------------------------------------------------- sending commands

  /** The next position, the packets awaiting acknowledgement, all packets put on the wire, and the first id of the session. */
  datatype Sender = Sender(next: nat, table: Queues.Table, wire: seq<Datagram>, first: Option<u16>)

  function Seal(position: nat, packet: Windows.Packet): Datagram
    requires position <= MAX_KEY
  {
    Queues.Datagram(PacketIdOf(position), position / SEQUENCE_SIZE, packet.flags, packet.data)
  }

  /** Send one packet at the next position; its id is returned. */
  function SendStep(s: Sender, packet: Windows.Packet, now: Time): (r: (Sender, Result<u16, Error>))
    requires s.next <= MAX_KEY
    ensures r.0.next <= MAX_KEY
  {
    var sealed := Seal(s.next, packet);
    var (table, error) := Queues.AddStep(s.table, sealed.packetId, sealed.generationId, sealed, now);
    if error.Some? then (s, Err(Unreliable(error.value)))
    else
      var first := if s.first.None? then Some(sealed.packetId) else s.first;
      var sent := Sender(s.next, table, s.wire + [sealed], first);
      if s.next == MAX_KEY then (sent, Err(Overflow)) else (sent.(next := s.next + 1), Ok(sealed.packetId))
  }

  /** Send packets from the i-th on until one is refused, returning the last id; `clock(i)` is the time of the i-th. */
  function SendFrom(s: Sender, packets: seq<Windows.Packet>, i: nat, lastId: u16, clock: nat -> Time)
    : (r: (Sender, Result<u16, Error>))
    requires s.next <= MAX_KEY && i <= |packets|
    ensures r.0.next <= MAX_KEY
    decreases |packets| - i
  {
    if i == |packets| then (s, Ok(lastId)) else
    var (s', id) := SendStep(s, packets[i], clock(i));
    if id.Err? then (s', id) else SendFrom(s', packets, i + 1, id.value, clock)
  }

  function SendCommandStep(s: Sender, command: Windows.Bytes, clock: nat -> Time): (r: (Sender, Result<u16, Error>))
    requires s.next <= MAX_KEY
    ensures r.0.next <= MAX_KEY
  {
    if |command| > Windows.MAX_COMMAND_SIZE then (s, Err(TooLarge))
    else SendFrom(s, Fragmenters.PacketsOf(command), 0, 0, clock)
  }

  /** As many positions are taken, the last of them is named, and the first of the session is set if there was none before. */
  predicate Took(s: Sender, s': Sender, lastId: u16, count: nat) {
    && count > 0 && s.next + count == s'.next <= MAX_KEY && lastId == PacketIdOf(s'.next - 1)
    && s'.first == if s.first.None? then Some(PacketIdOf(s.next)) else s.first
  }

  lemma SendTells(s: Sender, packet: Windows.Packet, now: Time)
    requires s.next <= MAX_KEY && SendStep(s, packet, now).1.Ok?
    ensures Took(s, SendStep(s, packet, now).0, SendStep(s, packet, now).1.value, 1)
  {
  }

  lemma TookMore(s: Sender, next: Sender, id: u16, s': Sender, lastId: u16, count: nat)
    requires Took(s, next, id, 1) && Took(next, s', lastId, count)
    ensures Took(s, s', lastId, count + 1)
  {
  }

  lemma SendFromNext(s: Sender, packets: seq<Windows.Packet>, i: nat, lastId: u16, clock: nat -> Time, s': Sender, id: u16)
    requires s.next <= MAX_KEY && i < |packets| && SendStep(s, packets[i], clock(i)) == (s', Ok(id))
    ensures s'.next <= MAX_KEY && SendFrom(s, packets, i, lastId, clock) == SendFrom(s', packets, i + 1, id, clock)
  {
  }

  /** The id returned is that of the last packet sent, and the first id of the session is set by the first packet and then kept. */
  lemma {:induction false} AllSentTell(s: Sender, packets: seq<Windows.Packet>, i: nat, lastId: u16, clock: nat -> Time)
    requires s.next <= MAX_KEY && i < |packets| && SendFrom(s, packets, i, lastId, clock).1.Ok?
    ensures var (s', id) := SendFrom(s, packets, i, lastId, clock);
            Took(s, s', id.value, |packets| - i)
    decreases |packets| - i
  {
    var (next, id) := SendStep(s, packets[i], clock(i));
    SendTells(s, packets[i], clock(i));
    SendFromNext(s, packets, i, lastId, clock, next, id.value);
    var (s', last) := SendFrom(s, packets, i, lastId, clock);
    if i + 1 < |packets| {
      AllSentTell(next, packets, i + 1, id.value, clock);
      TookMore(s, next, id.value, s', last.value, |packets| - i - 1);
    }
  }

  /** A command that is sent is within the limit and takes as many positions as it has packets; one over the limit changes nothing. */
  lemma SentCommandTells(s: Sender, command: Windows.Bytes, clock: nat -> Time)
    requires s.next <= MAX_KEY
    ensures var (s', id) := SendCommandStep(s, command, clock);
            && (id.Ok? ==> Fragmenters.WithinLimit(command) && Took(s, s', id.value, |Fragmenters.PacketsOf(command)|))
            && (!Fragmenters.WithinLimit(command) ==> s' == s && id == Err(TooLarge))
  {
    if SendCommandStep(s, command, clock).1.Ok? {
      AllSentTell(s, Fragmenters.PacketsOf(command), 0, 0, clock);
    }
  }

  // ---------------------------------------------------------------- acknowledgements

  /** A packet of the peer's acknowledgement stream; encrypted ones open only under the generation they were sealed in. */
  datatype AckPacket = AckPacket(packetId: u16, generationId: u32, unencrypted: bool, macMatches: bool, data: Windows.Bytes)

  function U16Big(data: Windows.Bytes): u16
    requires |data| == 2
  {
    (data[0] as nat) * 0x100 + data[1]
  }

  /** The id an acknowledgement names: the first of a session carries none and stands for the first command. */
  function AckNames(first: Option<u16>, ack: AckPacket, generationId: u32): Result<Option<u16>, Error> {
    if generationId == 0 && ack.packetId == 1 then Ok(first)
    else if ack.unencrypted && !ack.macMatches then Err(NotAuthentic)
    else if !ack.unencrypted && ack.generationId != generationId then Err(NotAuthentic)
    else if |ack.data| != 2 then Err(UnexpectedSize)
    else Ok(Some(U16Big(ack.data)))
  }

  /** The next position expected after one has been seen: only a new one moves it. */
  function Passed(expected: nat, key: nat): (nat, Option<Error>) {
    if key < expected then (expected, None)
    else if key >= MAX_KEY then (key, Some(Overflow))
    else (key + 1, None)
  }

  /** The queue and the expected position of the acknowledgement stream after an acknowledgement. */
  function AckStep(table: Queues.Table, expected: nat, first: Option<u16>, ack: AckPacket): (r: (Queues.Table, nat, Option<Error>))
    requires expected <= MAX_KEY
    ensures r.1 <= MAX_KEY
  {
    var generation := ResolveAt(expected, ack.packetId);
    if generation.Err? then (table, expected, Some(Unresolved(generation.error))) else
    var named := AckNames(first, ack, generation.value);
    if named.Err? then (table, expected, Some(named.error)) else
    var (table', r) := if named.value.None? then (table, Ok(None)) else Queues.AcknowledgeStep(table, named.value.value);
    if r.Err? then (table', expected, Some(Unreliable(r.error))) else
    var (expected', error) := Passed(expected, SequenceKey(ack.packetId, generation.value));
    (table', expected', error)
  }

  /** Which packet an acknowledgement is for: the first of all is for the first command, others must be authentic and name two bytes, high byte first. */
  lemma AckMeaning(table: Queues.Table, expected: nat, first: Option<u16>, ack: AckPacket, generationId: u32)
    requires expected <= MAX_KEY && ResolveAt(expected, ack.packetId) == Ok(generationId)
    ensures var isFirst := generationId == 0 && ack.packetId == 1;
            var authentic := if ack.unencrypted then ack.macMatches else ack.generationId == generationId;
            && (!isFirst && !authentic ==> AckStep(table, expected, first, ack) == (table, expected, Some(NotAuthentic)))
            && (!isFirst && authentic && |ack.data| != 2 ==> AckStep(table, expected, first, ack) == (table, expected, Some(UnexpectedSize)))
            && (isFirst && first.Some? ==> AckStep(table, expected, first, ack).0 == Queues.AcknowledgeStep(table, first.value).0)
            && (isFirst && first.None? ==> AckStep(table, expected, first, ack).0 == table)
            && (!isFirst && authentic && |ack.data| == 2 ==>
                  AckStep(table, expected, first, ack).0 ==
                  Queues.AcknowledgeStep(table, (ack.data[0] as nat) * 0x100 + ack.data[1]).0)
  {
  }

  // ---------------------------------------------------------------- keepalive

  datatype Ping = Ping(packetId: u16, sentAt: Time)

  /** The keepalive state, with the position of the next ping and the times of all pings sent. */
  datatype Keepalive = Keepalive(connected: bool, lastReceiveAt: Time, pending: Option<Ping>, next: nat, pings: seq<Time>)

  function PingStep(k: Keepalive, now: Time): (Keepalive, Option<Error>) {
    var sent := k.(pings := k.pings + [now]);
    if k.next >= MAX_KEY then (sent, Some(Overflow))
    else (sent.(pending := Some(Ping(PacketIdOf(k.next), now)), next := k.next + 1), None)
  }

  function TimersStep(k: Keepalive, commandsPending: bool, now: Time): (Keepalive, Option<Error>) {
    if !k.connected || commandsPending then (k, None)
    else if k.pending.Some? then
      if k.lastReceiveAt > k.pending.value.sentAt then (k.(pending := None), None)
      else if now - k.pending.value.sentAt >= PING_INTERVAL then PingStep(k.(pending := None), now)
      else (k, None)
    else if now - k.lastReceiveAt >= PING_INTERVAL then PingStep(k, now)
    else (k, None)
  }

  function ReceiveStep(k: Keepalive, now: Time): Keepalive {
    if k.connected then k.(lastReceiveAt := now) else k
  }

  function PongStep(k: Keepalive, pingId: u16): Keepalive {
    if k.pending.Some? && k.pending.value.packetId == pingId then k.(pending := None) else k
  }

  datatype PongPacket = PongPacket(unencrypted: bool, macMatches: bool, data: Windows.Bytes)

  /** Pongs come unencrypted, carry the shared authentication code and name the ping they answer. */
  function PongError(pong: PongPacket): (error: Option<Error>)
    ensures error.None? <==> pong.unencrypted && pong.macMatches && |pong.data| == 2
    ensures error == Some(Encrypted) <==> !pong.unencrypted
    ensures error == Some(NotAuthentic) <==> pong.unencrypted && !pong.macMatches
  {
    if !pong.unencrypted then Some(Encrypted)
    else if !pong.macMatches then Some(NotAuthentic)
    else if |pong.data| != 2 then Some(UnexpectedSize)
    else None
  }

  function ConnectStep(k: Keepalive, now: Time): Keepalive {
    k.(connected := true, lastReceiveAt := now, pending := None)
  }

  datatype Event = Timers(commandsPending: bool) | Pong(pingId: u16) | OtherPacket | Connected

  function KeepaliveStep(k: Keepalive, event: Event, now: Time): (Keepalive, Option<Error>) {
    match event
    case Timers(commandsPending) => TimersStep(k, commandsPending, now)
    case Pong(pingId) => (ReceiveStep(PongStep(k, pingId), now), None)
    case OtherPacket => (ReceiveStep(k, now), None)
    case Connected => (ConnectStep(k, now), None)
  }

  function RunKeepalive(events: seq<(Event, Time)>): (Keepalive, Option<Error>) {
    if events == [] then (Keepalive(false, 0, None, 1, []), None) else
    var last := |events| - 1;
    var (k, error) := RunKeepalive(events[..last]);
    if error.Some? then (k, error) else KeepaliveStep(k, events[last].0, events[last].1)
  }

  ghost predicate Monotone(events: seq<(Event, Time)>) {
    forall i, j :: 0 <= i <= j < |events| ==> events[i].1 <= events[j].1
  }

  ghost predicate Apart(pings: seq<Time>) {
    forall i :: 0 <= i < |pings| - 1 ==> pings[i + 1] - pings[i] >= PING_INTERVAL
  }

  /** After a ping, either it is pending, or something has been received since. */
  ghost predicate Accounted(k: Keepalive, now: Time) {
    && Apart(k.pings)
    && (k.pending.Some? ==> k.pings != [] && k.pending.value.sentAt == k.pings[|k.pings| - 1])
    && (k.pings != [] ==> k.connected && k.pings[|k.pings| - 1] <= now)
    && (k.pings != [] && k.pending.None? ==> k.pings[|k.pings| - 1] <= k.lastReceiveAt)
  }

  lemma KeepaliveAccounts(k: Keepalive, event: Event, before: Time, now: Time)
    requires Accounted(k, before) && before <= now
    ensures var (k', error) := KeepaliveStep(k, event, now);
            Apart(k'.pings) && (error.None? ==> Accounted(k', now))
  {
  }

  lemma {:induction false} EveryRunAccounts(events: seq<(Event, Time)>)
    requires Monotone(events)
    ensures var (k, error) := RunKeepalive(events);
            Apart(k.pings) && (error.None? && events != [] ==> Accounted(k, events[|events| - 1].1))
  {
    if events != [] {
      var last := |events| - 1;
      EveryRunAccounts(events[..last]);
      var (k, error) := RunKeepalive(events[..last]);
      if error.None? {
        var before := if last == 0 then events[0].1 else events[last - 1].1;
        KeepaliveAccounts(k, events[last].0, before, events[last].1);
      }
    }
  }

  /** Whatever happens between them, two consecutive pings are at least a ping interval apart. */
  lemma PingsAreApart(events: seq<(Event, Time)>, i: nat)
    requires Monotone(events) && i + 1 < |RunKeepalive(events).0.pings|
    ensures RunKeepalive(events).0.pings[i + 1] - RunKeepalive(events).0.pings[i] >= PING_INTERVAL
  {
    EveryRunAccounts(events);
  }

  // ---------------------------------------------------------------- the session object

  class SessionTransport {
    const commands: PacketSequence
    const pingSequence: PacketSequence
    const ackSequence: PacketSequence
    const reliable: Queues.ReliableCommandQueue
    var connected: bool
    var lastReceiveAt: Time
    var pendingPing: Option<Ping>
    var firstCommand: Option<u16>

    /** What has been handed to the socket. */
    var wire: seq<Datagram>
    var pings: seq<Time>

    ghost predicate Valid() {
      commands != pingSequence && commands != ackSequence && pingSequence != ackSequence
    }

    ghost function SenderView(): Sender
      reads this, commands, reliable
    {
      Sender(commands.Key(), reliable.pending, wire, firstCommand)
    }

    ghost function KeepaliveView(): Keepalive
      reads this, pingSequence
    {
      Keepalive(connected, lastReceiveAt, pendingPing, pingSequence.Key(), pings)
    }

    constructor ()
      ensures Valid() && SenderView() == Sender(1, map[], [], None) && KeepaliveView() == Keepalive(false, 0, None, 1, [])
      ensures fresh(commands) && fresh(pingSequence) && fresh(ackSequence) && fresh(reliable)
      ensures ackSequence.Key() == 1
    {
      commands := new PacketSequence(1, 0);
      pingSequence := new PacketSequence(1, 0);
      ackSequence := new PacketSequence(1, 0);
      reliable := new Queues.ReliableCommandQueue();
      connected, lastReceiveAt, pendingPing, firstCommand, wire, pings := false, 0, None, None, [], [];
    }

    method SendCommandPacket(packet: Windows.Packet, now: Time) returns (id: Result<u16, Error>)
      requires Valid()
      modifies this`wire, this`firstCommand, commands, reliable
      ensures (SenderView(), id) == SendStep(old(SenderView()), packet, now)
    {
      var packetId := commands.packetId;
      var sealed := Queues.Datagram(packetId, commands.generationId, packet.flags, packet.data);
      var refused := reliable.Add(packetId, commands.generationId, sealed, now);
      if refused.Some? {
        return Err(Unreliable(refused.value));
      }
      if firstCommand.None? {
        firstCommand := Some(packetId);
      }
      wire := wire + [sealed];
      var advanced := commands.Advance();
      return if advanced then Ok(packetId) else Err(Overflow);
    }

    method SendCommand(command: Windows.Bytes, clock: nat -> Time) returns (lastId: Result<u16, Error>)
      requires Valid()
      modifies this`wire, this`firstCommand, commands, reliable
      ensures (SenderView(), lastId) == SendCommandStep(old(SenderView()), command, clock)
    {
      var plan := Fragmenters.Plan(|command|);
      if plan.Err? {
        return Err(TooLarge);
      }
      lastId := Ok(0);
      ghost var packets := Fragmenters.PacketsOf(command);
      ghost var goal := SendFrom(SenderView(), packets, 0, 0, clock);
      for i := 0 to |plan.value|
        invariant lastId.Ok? && SendFrom(SenderView(), packets, i, lastId.value, clock) == goal
      {
        Fragmenters.PlannedFits(|command|, i);
        lastId := SendCommandPacket(Fragmenters.PacketOf(command, plan.value[i]), clock(i));
        if lastId.Err? {
          return;
        }
      }
    }

    /** An acknowledgement from the peer. */
    method HandleAck(ack: AckPacket) returns (error: Option<Error>)
      requires Valid()
      modifies ackSequence, reliable
      ensures (reliable.pending, ackSequence.Key(), error) ==
              AckStep(old(reliable.pending), old(ackSequence.Key()), firstCommand, ack)
    {
      var generation := ResolveGeneration(ackSequence.packetId, ackSequence.generationId, ack.packetId);
      if generation.Err? {
        return Some(Unresolved(generation.error));
      }
      var named := AckNames(firstCommand, ack, generation.value);
      if named.Err? {
        return Some(named.error);
      }
      if named.value.Some? {
        var acknowledged := reliable.Acknowledge(named.value.value);
        if acknowledged.Err? {
          return Some(Unreliable(acknowledged.error));
        }
      }
      error := PassAck(ack.packetId, generation.value);
    }

    method PassAck(packetId: u16, generationId: u32) returns (error: Option<Error>)
      requires Valid()
      modifies ackSequence
      ensures (ackSequence.Key(), error) == Passed(old(ackSequence.Key()), SequenceKey(packetId, generationId))
    {
      if SequenceKey(packetId, generationId) < ackSequence.Key() {
        return None;
      }
      ackSequence.packetId, ackSequence.generationId := packetId, generationId;
      var advanced := ackSequence.Advance();
      return if advanced then None else Some(Overflow);
    }

    method SetConnected(now: Time)
      requires Valid()
      modifies this`connected, this`lastReceiveAt, this`pendingPing
      ensures KeepaliveView() == ConnectStep(old(KeepaliveView()), now)
    {
      connected, lastReceiveAt, pendingPing := true, now, None;
    }

    method SendPing(now: Time) returns (error: Option<Error>)
      requires Valid()
      modifies this`pendingPing, this`pings, pingSequence
      ensures (KeepaliveView(), error) == PingStep(old(KeepaliveView()), now)
    {
      var packetId := pingSequence.packetId;
      pings := pings + [now];
      var advanced := pingSequence.Advance();
      if !advanced {
        return Some(Overflow);
      }
      pendingPing := Some(Ping(packetId, now));
      return None;
    }

    /** A Pong, up to and including the bookkeeping common to all packets; one that is refused changes nothing. */
    method ProcessPong(pong: PongPacket, now: Time) returns (error: Option<Error>)
      requires Valid()
      modifies this`lastReceiveAt, this`pendingPing
      ensures error == PongError(pong)
      ensures error.None? <==> pong.unencrypted && pong.macMatches && |pong.data| == 2
      ensures KeepaliveView() == if error.Some? then old(KeepaliveView())
                                 else ReceiveStep(PongStep(old(KeepaliveView()), U16Big(pong.data)), now)
    {
      if !pong.unencrypted {
        return Some(Encrypted);
      }
      if !pong.macMatches {
        return Some(NotAuthentic);
      }
      if |pong.data| != 2 {
        return Some(UnexpectedSize);
      }
      if pendingPing.Some? && pendingPing.value.packetId == U16Big(pong.data) {
        pendingPing := None;
      }
      if connected {
        lastReceiveAt := now;
      }
      return None;
    }

    method ProcessTimers(now: Time) returns (error: Option<Error>)
      requires Valid()
      modifies this`wire, this`pendingPing, this`pings, reliable, pingSequence
      ensures var (table, due) := Queues.CollectStep(old(reliable.pending), now);
              && reliable.pending == table
              && if due.Err? then error == Some(Unreliable(due.error)) && KeepaliveView() == old(KeepaliveView())
                                  && wire == old(wire)
                 else wire == old(wire) + due.value
                      && (KeepaliveView(), error) == TimersStep(old(KeepaliveView()), table != map[], now)
    {
      var due := reliable.CollectDue(now);
      if due.Err? {
        return Some(Unreliable(due.error));
      }
      wire := wire + due.value;
      if !connected || |reliable.pending| != 0 {
        return None;
      }
      if pendingPing.Some? {
        if lastReceiveAt > pendingPing.value.sentAt {
          pendingPing := None;
          return None;
        }
        if now - pendingPing.value.sentAt >= PING_INTERVAL {
          pendingPing := None;
          error := SendPing(now);
          return;
        }
        return None;
      }
      if now - lastReceiveAt >= PING_INTERVAL {
        error := SendPing(now);
        return;
      }
      return None;
    }
  }
}
