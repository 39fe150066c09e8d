/**
 A reliable command stream end to end: packets of an authentic stream arrive in
 any order, with losses and duplicates, carrying only 16 bits of their position.
 */
module CommandStreams {
  import opened Basics
  import opened PacketSequences
  import opened CommandReceiveWindows

  /**
   A packet from the server. Authenticated encryption is abstracted to its
   contract: the packet opens only under the generation it was sealed in.
   */
  datatype ServerPacket = ServerPacket(packetId: u16, generationId: u32, content: Packet)

  datatype Failure = Unresolved(cause: ResolveError) | NotAuthentic | Rejected(error: Error)

  /** The receiving end: window, completed commands not yet taken, acknowledgements sent. */
  datatype Receiver = Receiver(window: Window, ready: seq<Bytes>, acks: seq<u16>)

  function Decrypt(packet: ServerPacket, generationId: u32): Option<Packet> {
    if packet.generationId == generationId then Some(packet.content) else None
  }

  function ReceiveStep(s: Receiver, packet: ServerPacket): (r: (Receiver, Option<Failure>))
    requires s.window.expected <= MAX_KEY
    ensures r.0.window.expected <= MAX_KEY
  {
    var generation := ResolveAt(s.window.expected, packet.packetId);
    if generation.Err? then (s, Some(Unresolved(generation.error))) else
    var plaintext := Decrypt(packet, generation.value);
    if plaintext.None? then (s, Some(NotAuthentic)) else
    var acknowledged := s.(acks := s.acks + [packet.packetId]);
    var (window, commands) := FeedStep(s.window, SequenceKey(packet.packetId, generation.value), plaintext.value);
    if commands.Err? then (acknowledged.(window := window), Some(Rejected(commands.error)))
    else (acknowledged.(window := window, ready := s.ready + commands.value), None)
  }

  /** The session's receiving objects, with crypto and the outgoing acknowledgement abstracted. */
  class CommandReceiver {
    const expected: PacketSequence
    const window: CommandReceiveWindow
    var readyCommands: seq<Bytes>
    var acks: seq<u16>

    ghost predicate Valid()
      reads this, window
    {
      |window.fragments| <= MAX_COMMAND_SIZE
    }

    ghost function View(): Receiver
      reads this, window, expected
    {
      Receiver(window.View(expected), readyCommands, acks)
    }

    constructor (packetId: u16, generationId: u32)
      ensures Valid() && View() == Initial(SequenceKey(packetId, generationId)) && fresh(expected) && fresh(window)
    {
      expected := new PacketSequence(packetId, generationId);
      window := new CommandReceiveWindow();
      readyCommands, acks := [], [];
    }

    method ProcessIncomingCommand(packet: ServerPacket) returns (failure: Option<Failure>)
      requires Valid()
      modifies this, window, expected
      ensures Valid() && (View(), failure) == ReceiveStep(old(View()), packet)
    {
      var generation := ResolveGeneration(expected.packetId, expected.generationId, packet.packetId);
      if generation.Err? {
        return Some(Unresolved(generation.error));
      }
      var plaintext := Decrypt(packet, generation.value);
      if plaintext.None? {
        return Some(NotAuthentic);
      }
      acks := acks + [packet.packetId];
      var content := plaintext.value;
      var commands := window.Feed(expected, packet.packetId, generation.value, content.flags, content.data);
      if commands.Err? {
        return Some(Rejected(commands.error));
      }
      readyCommands := readyCommands + commands.value;
      return None;
    }
  }

  // ---------------------------------------------------------------- reference and runs

  function Initial(start: nat): Receiver {
    Receiver(Window(start, map[], EMPTY), [], [])
  }

  /** All packets of a stream that starts at position `start`, consumed in order: the reference. */
  function InOrder(start: nat, packets: seq<Packet>): (Assembly, Result<seq<Bytes>, Error>) {
    if packets == [] then (EMPTY, Ok([])) else
    var last := |packets| - 1;
    var (assembly, done) := InOrder(start, packets[..last]);
    if done.Err? then (assembly, done) else
    var (assembly', commands) := Ordered(assembly, packets[last]);
    if commands.Err? then (assembly', commands)
    else if start + last >= MAX_KEY then (assembly', Err(Overflow))
    else (assembly', Ok(done.value + commands.value))
  }

  /** The stream: its i-th packet has position `start + i`. */
  datatype Stream = Stream(start: nat, packets: seq<Packet>) {
    predicate Has(position: nat) {
      start <= position < start + |packets| && position <= MAX_KEY
    }

    function At(position: nat): ServerPacket
      requires Has(position)
    {
      ServerPacket(PacketIdOf(position), position / SEQUENCE_SIZE, packets[position - start])
    }

    /** The reference result once everything before `end` has been consumed. */
    function Before(end: nat): (Assembly, Result<seq<Bytes>, Error>)
      requires start <= end <= start + |packets|
    {
      InOrder(start, packets[..end - start])
    }
  }

  /** Packets arrive one after the other until one of them makes the session fail. */
  function Run(s: Receiver, stream: Stream, arrivals: seq<nat>): (r: (Receiver, Option<Failure>))
    requires s.window.expected <= MAX_KEY
    ensures r.0.window.expected <= MAX_KEY
    requires forall position :: position in arrivals ==> stream.Has(position)
  {
    if arrivals == [] then (s, None) else
    var last := |arrivals| - 1;
    var (s', failure) := Run(s, stream, arrivals[..last]);
    if failure.Some? then (s', failure)
    else ReceiveStep(s', stream.At(arrivals[last]))
  }

  /** A packet is timely if its generation can be told and it is no further ahead than the window reaches. */
  predicate Timely(expected: nat, position: nat) {
    WithinHalfSequence(expected, position) && position <= expected + MAX_QUEUED_PACKETS
  }

  ghost predicate TimelyRun(s: Receiver, stream: Stream, arrivals: seq<nat>)
    requires s.window.expected <= MAX_KEY
    requires forall position :: position in arrivals ==> stream.Has(position)
  {
    forall i {:trigger arrivals[..i]} :: 0 <= i < |arrivals| ==>
      Run(s, stream, arrivals[..i]).1.None? ==> Timely(Run(s, stream, arrivals[..i]).0.window.expected, arrivals[i])
  }

  // ---------------------------------------------------------------- the invariant

  /** Everything before the expected position has been received; what is queued is what was received from it on. */
  ghost predicate QueueIsRest(expected: nat, queued: map<nat, Packet>, stream: Stream, received: set<nat>) {
    && (forall k :: stream.start <= k < expected ==> k in received)
    && (forall k :: k in queued ==> expected <= k <= expected + MAX_QUEUED_PACKETS && k in received)
    && (forall k :: k in received && k >= expected ==> k in queued)
    && (forall k :: k in received ==> stream.Has(k))
    && (forall k :: k in queued ==> queued[k] == stream.packets[k - stream.start])
  }

  /** What is consumed is the received prefix. */
  ghost predicate Prefix(w: Window, ready: seq<Bytes>, stream: Stream, received: set<nat>) {
    && stream.start <= w.expected <= MAX_KEY && w.expected <= stream.start + |stream.packets|
    && QueueIsRest(w.expected, w.queued, stream, received)
    && stream.Before(w.expected) == (w.assembly, Ok(ready))
  }

  /** The state between packets: the expected packet itself has not been received. */
  ghost predicate Settled(s: Receiver, stream: Stream, received: set<nat>) {
    Prefix(s.window, s.ready, stream, received) && s.window.expected !in received
  }

  /** The failure is that of the reference on the received prefix. */
  ghost predicate FailsInOrder(expected: nat, error: Error, stream: Stream, received: set<nat>) {
    && stream.start <= expected < stream.start + |stream.packets|
    && (forall k :: stream.start <= k <= expected ==> k in received)
    && stream.Before(expected + 1).1 == Err(error)
  }

  lemma BeforeNext(stream: Stream, end: nat)
    requires stream.start <= end < stream.start + |stream.packets|
    requires stream.Before(end).1.Ok?
    ensures var (assembly, commands) := Ordered(stream.Before(end).0, stream.packets[end - stream.start]);
            stream.Before(end + 1) ==
            (assembly, if commands.Err? then commands else if end >= MAX_KEY then Err(Overflow)
                       else Ok(stream.Before(end).1.value + commands.value))
  {
    var n := end - stream.start;
    assert stream.packets[..n + 1][..n] == stream.packets[..n];
  }

  lemma QueueShrinks(expected: nat, queued: map<nat, Packet>, stream: Stream, received: set<nat>)
    requires QueueIsRest(expected, queued, stream, received) && expected in queued
    ensures QueueIsRest(expected + 1, queued - {expected}, stream, received)
  {
  }

  /** Consuming the expected packet follows the reference by one packet. */
  lemma ConsumeFollows(w: Window, ready: seq<Bytes>, stream: Stream, received: set<nat>)
    requires Prefix(w, ready, stream, received) && w.expected in w.queued
    ensures var (w', commands) := Consume(w.(queued := w.queued - {w.expected}), w.queued[w.expected]);
            if commands.Ok? then Prefix(w', ready + commands.value, stream, received)
            else FailsInOrder(w'.expected, commands.error, stream, received)
  {
    assert stream.Has(w.expected) && w.queued[w.expected] == stream.packets[w.expected - stream.start];
    BeforeNext(stream, w.expected);
    QueueShrinks(w.expected, w.queued, stream, received);
  }

  lemma {:induction false} DrainSettles(w: Window, ready: seq<Bytes>, base: seq<Bytes>, stream: Stream, received: set<nat>)
    requires Prefix(w, base + ready, stream, received)
    ensures var (w', commands) := Drain(w, ready);
            if commands.Ok? then Prefix(w', base + commands.value, stream, received) && w'.expected !in received
            else FailsInOrder(w'.expected, commands.error, stream, received)
    decreases |w.queued|
  {
    if w.expected in w.queued {
      ConsumeFollows(w, base + ready, stream, received);
      var (w', commands) := Consume(w.(queued := w.queued - {w.expected}), w.queued[w.expected]);
      if commands.Ok? {
        assert base + (ready + commands.value) == base + ready + commands.value;
        DrainSettles(w', ready + commands.value, base, stream, received);
      }
    }
  }

  /** Feeding the expected packet is draining a queue it has been put into. */
  lemma FeedExpectedIsDrain(w: Window, p: Packet)
    requires w.expected !in w.queued
    ensures FeedStep(w, w.expected, p) == Drain(w.(queued := w.queued[w.expected := p]), [])
  {
    assert w.queued[w.expected := p] - {w.expected} == w.queued;
    var (w', commands) := Consume(w, p);
    assert commands.Ok? ==> [] + commands.value == commands.value;
  }

  /** A packet ahead of the expected one is queued, unless it already is. */
  lemma QueueSettles(w: Window, ready: seq<Bytes>, stream: Stream, received: set<nat>, position: nat)
    requires Prefix(w, ready, stream, received) && w.expected !in received
    requires stream.Has(position) && w.expected < position <= w.expected + MAX_QUEUED_PACKETS
    ensures var (w', commands) := FeedStep(w, position, stream.packets[position - stream.start]);
            commands == Ok([]) && Prefix(w', ready, stream, received + {position}) && w'.expected == w.expected
  {
    FeedStaysInWindow(w, position, stream.packets[position - stream.start]);
    assert position in w.queued ==> received + {position} == received;
  }

  /** The expected packet is consumed, and with it the run of queued packets behind it. */
  lemma {:induction false} ExpectedSettles(w: Window, ready: seq<Bytes>, stream: Stream, received: set<nat>)
    requires Prefix(w, ready, stream, received) && w.expected !in received && stream.Has(w.expected)
    ensures var (w', commands) := FeedStep(w, w.expected, stream.packets[w.expected - stream.start]);
            if commands.Ok?
            then Prefix(w', ready + commands.value, stream, received + {w.expected}) && w'.expected !in received + {w.expected}
            else FailsInOrder(w'.expected, commands.error, stream, received + {w.expected})
  {
    var p := stream.packets[w.expected - stream.start];
    FeedExpectedIsDrain(w, p);
    assert ready + [] == ready;
    DrainSettles(w.(queued := w.queued[w.expected := p]), [], ready, stream, received + {w.expected});
  }

  lemma {:induction false} FeedSettles(w: Window, ready: seq<Bytes>, stream: Stream, received: set<nat>, position: nat)
    requires Prefix(w, ready, stream, received) && w.expected !in received
    requires stream.Has(position) && position <= w.expected + MAX_QUEUED_PACKETS
    ensures var (w', commands) := FeedStep(w, position, stream.packets[position - stream.start]);
            if commands.Ok?
            then Prefix(w', ready + commands.value, stream, received + {position}) && w'.expected !in received + {position}
            else FailsInOrder(w'.expected, commands.error, stream, received + {position})
  {
    assert ready + [] == ready;
    if position == w.expected {
      ExpectedSettles(w, ready, stream, received);
    } else if position > w.expected {
      QueueSettles(w, ready, stream, received, position);
    } else {
      assert received + {position} == received;
    }
  }

  /** A timely packet is resolved to its own position, opened and acknowledged. */
  lemma TimelyPacketOpens(s: Receiver, stream: Stream, position: nat)
    requires s.window.expected <= MAX_KEY && stream.Has(position) && Timely(s.window.expected, position)
    ensures var (window, commands) := FeedStep(s.window, position, stream.packets[position - stream.start]);
            var acks := s.acks + [PacketIdOf(position)];
            ReceiveStep(s, stream.At(position)) ==
            if commands.Err? then (Receiver(window, s.ready, acks), Some(Rejected(commands.error)))
            else (Receiver(window, s.ready + commands.value, acks), None)
  {
    ResolutionRecoversPosition(s.window.expected, position);
    assert SequenceKey(PacketIdOf(position), position / SEQUENCE_SIZE) == position;
  }

  /** A packet that does not open, because its generation is told wrongly or not at all, changes nothing. */
  lemma ForeignPacketIsRefused(s: Receiver, packet: ServerPacket)
    requires s.window.expected <= MAX_KEY
    requires ResolveAt(s.window.expected, packet.packetId) != Ok(packet.generationId)
    ensures ReceiveStep(s, packet).0 == s && ReceiveStep(s, packet).1.Some?
    ensures ReceiveStep(s, packet).1.value.NotAuthentic? || ReceiveStep(s, packet).1.value.Unresolved?
  {
  }

  /** A packet half a sequence or more away from the expected one is never taken for another. */
  lemma DistantPacketIsRefused(s: Receiver, stream: Stream, position: nat)
    requires s.window.expected <= MAX_KEY && stream.Has(position) && !WithinHalfSequence(s.window.expected, position)
    ensures ReceiveStep(s, stream.At(position)).0 == s && ReceiveStep(s, stream.At(position)).1.Some?
  {
    ResolutionRecoversPosition(s.window.expected, position);
    ForeignPacketIsRefused(s, stream.At(position));
  }

  /** A packet further ahead than the window reaches is acknowledged but not kept. */
  lemma PacketBeyondWindow(s: Receiver, stream: Stream, position: nat)
    requires s.window.expected <= MAX_KEY && stream.Has(position) && WithinHalfSequence(s.window.expected, position)
    requires position > s.window.expected + MAX_QUEUED_PACKETS
    ensures ReceiveStep(s, stream.At(position)) == (s.(acks := s.acks + [PacketIdOf(position)]), Some(Rejected(OutsideWindow)))
  {
    ResolutionRecoversPosition(s.window.expected, position);
    assert SequenceKey(PacketIdOf(position), position / SEQUENCE_SIZE) == position;
  }

  lemma {:induction false} StepSettles(s: Receiver, stream: Stream, received: set<nat>, position: nat)
    requires Settled(s, stream, received) && stream.Has(position) && Timely(s.window.expected, position)
    ensures var (s', failure) := ReceiveStep(s, stream.At(position));
            && s'.acks == s.acks + [PacketIdOf(position)]
            && if failure.None? then Settled(s', stream, received + {position})
               else failure.value.Rejected?
                    && FailsInOrder(s'.window.expected, failure.value.error, stream, received + {position})
  {
    TimelyPacketOpens(s, stream, position);
    FeedSettles(s.window, s.ready, stream, received, position);
  }

  // ---------------------------------------------------------------- whole runs

  function IdsOf(arrivals: seq<nat>): seq<u16> {
    seq(|arrivals|, i requires 0 <= i < |arrivals| => PacketIdOf(arrivals[i]))
  }

  function Arrived(arrivals: seq<nat>): set<nat> {
    set position | position in arrivals
  }

  /**
   For every timely arrival order, with any losses and duplicates, the receiver
   is where in-order consumption of the received prefix would be: the same
   commands in the same order, each packet consumed once, everything received
   beyond the first gap still queued. It fails only where the in-order
   consumer of that prefix fails, with the same error. Every packet is
   acknowledged.
   */
  lemma {:induction false} ReceivesInOrder(stream: Stream, arrivals: seq<nat>)
    requires stream.start <= MAX_KEY
    requires forall position :: position in arrivals ==> stream.Has(position)
    requires TimelyRun(Initial(stream.start), stream, arrivals)
    ensures var (s, failure) := Run(Initial(stream.start), stream, arrivals);
            if failure.None? then Settled(s, stream, Arrived(arrivals)) && s.acks == IdsOf(arrivals)
            else failure.value.Rejected?
                 && FailsInOrder(s.window.expected, failure.value.error, stream, Arrived(arrivals))
    decreases |arrivals|
  {
    if arrivals != [] {
      var last := |arrivals| - 1;
      var earlier := arrivals[..last];
      forall i | 0 <= i < |earlier|
        ensures earlier[..i] == arrivals[..i]
      {
      }
      assert arrivals == earlier + [arrivals[last]];
      ReceivesInOrder(stream, earlier);
      var (s, failure) := Run(Initial(stream.start), stream, earlier);
      assert Arrived(arrivals) == Arrived(earlier) + {arrivals[last]};
      if failure.None? {
        StepSettles(s, stream, Arrived(earlier), arrivals[last]);
        assert IdsOf(arrivals) == IdsOf(earlier) + [PacketIdOf(arrivals[last])];
      }
    }
  }
}
