/**
 Both ends together: a peer that receives and acknowledges as this client does,
 and a network that loses, delays, repeats and reorders packets and
 acknowledgements. What the sender has given up retransmitting, the peer has.
 */
module ClosedLoops {
  import opened Basics
  import opened PacketSequences
  import opened SessionTransports
  import opened ReliableSessions
  import Windows = CommandReceiveWindows
  import Queues = ReliableCommandQueues
  import Streams = CommandStreams

  /** The position an acknowledgement is for, and the one the peer expected when it sent it. */
  datatype Receipt = Receipt(position: nat, expected: nat)

  /** The j-th acknowledgement of the peer has position `ackStart + j` of its own stream. */
  datatype World = World(session: Session, peer: Streams.Receiver, ackStart: nat, ackExpected: nat, log: seq<Receipt>) {
    predicate Fits() {
      session.sender.next <= MAX_KEY && peer.window.expected <= MAX_KEY && ackExpected <= MAX_KEY
    }
  }

  datatype Event =
    | Send(packet: Windows.Packet, now: Time)
    | Tick(now: Time)
    | Deliver(index: nat)      // a datagram from the wire reaches the peer
    | AckArrives(index: nat)   // an acknowledgement of the peer reaches the sender

  function AckOf(position: nat, id: u16): AckPacket
    requires position <= MAX_KEY
  {
    AckPacket(PacketIdOf(position), position / SEQUENCE_SIZE, false, true, [id / 0x100, id % 0x100])
  }

  function Outcome(w: World, session: Option<Session>): Option<World> {
    if session.None? then None else Some(w.(session := session.value))
  }

  function DeliverStep(w: World, index: nat): Option<World>
    requires w.Fits()
  {
    if index >= |w.session.sender.wire| then Some(w) else
    var d := w.session.sender.wire[index];
    var (peer, failure) := Streams.ReceiveStep(w.peer, AsReceived(d));
    if failure.Some? || w.ackStart + |w.log| > MAX_KEY then None
    else Some(w.(peer := peer, log := w.log + [Receipt(PositionOf(d), w.peer.window.expected)]))
  }

  function TakeAck(w: World, r: (Queues.Table, nat, Option<Error>)): Option<World> {
    if r.2.Some? then None
    else Some(w.(session := w.session.(sender := w.session.sender.(table := r.0)), ackExpected := r.1))
  }

  function AckArrivesStep(w: World, index: nat): Option<World>
    requires w.Fits()
  {
    if index >= |w.peer.acks| || w.ackStart + index > MAX_KEY then Some(w)
    else TakeAck(w, HandledAck(w.session.sender, w.ackExpected, w.ackStart + index, w.peer.acks[index]))
  }

  /** The sender handles the acknowledgement at a position of the peer's stream. */
  function HandledAck(sender: Sender, expected: nat, position: nat, id: u16): (r: (Queues.Table, nat, Option<Error>))
    requires expected <= MAX_KEY && position <= MAX_KEY
    ensures r.1 <= MAX_KEY
  {
    AckStep(sender.table, expected, sender.first, AckOf(position, id))
  }

  /** One step of either end; a failure ends the run. */
  function Step(w: World, event: Event): (r: Option<World>)
    requires w.Fits()
    ensures r.Some? ==> r.value.Fits()
  {
    match event
    case Send(packet, now) => Outcome(w, ReliableSessions.Step(w.session, ReliableSessions.Send(packet, now)))
    case Tick(now) => Outcome(w, ReliableSessions.Step(w.session, ReliableSessions.Tick(now)))
    case Deliver(index) => DeliverStep(w, index)
    case AckArrives(index) => AckArrivesStep(w, index)
  }

  function Start(start: nat, ackStart: nat): World {
    World(ReliableSessions.Initial(start), Streams.Initial(start), ackStart, ackStart, [])
  }

  function Run(start: nat, ackStart: nat, events: seq<Event>): (r: Option<World>)
    requires start <= MAX_KEY && ackStart <= MAX_KEY
    ensures r.Some? ==> r.value.Fits()
  {
    if events == [] then Some(Start(start, ackStart)) else
    var earlier := Run(start, ackStart, events[..|events| - 1]);
    if earlier.None? then None else Step(earlier.value, events[|events| - 1])
  }

  // ---------------------------------------------------------------- what the peer has

  predicate Has(w: Windows.Window, k: nat) {
    k < w.expected || k in w.queued
  }

  /** The peer keeps what it has. */
  ghost predicate Keeps(w: Windows.Window, w': Windows.Window) {
    w.expected <= w'.expected && forall k :: Has(w, k) ==> Has(w', k)
  }

  lemma {:induction false} DrainKeeps(w: Windows.Window, ready: seq<Windows.Bytes>)
    requires Windows.Drain(w, ready).1.Ok?
    ensures Keeps(w, Windows.Drain(w, ready).0)
    decreases |w.queued|
  {
    if w.expected in w.queued {
      var (w', commands) := Windows.Consume(w.(queued := w.queued - {w.expected}), w.queued[w.expected]);
      DrainKeeps(w', ready + commands.value);
    }
  }

  lemma FeedKeeps(w: Windows.Window, key: nat, p: Windows.Packet)
    requires Windows.FeedStep(w, key, p).1.Ok?
    ensures var w' := Windows.FeedStep(w, key, p).0;
            Keeps(w, w') && Has(w', key) && key <= w.expected + Windows.MAX_QUEUED_PACKETS
  {
    if key == w.expected {
      var (w', commands) := Windows.Consume(w, p);
      DrainKeeps(w', commands.value);
    }
  }

  /** A delivery that does not fail leaves the peer with that position, acknowledged. */
  lemma DeliveryIsKept(peer: Streams.Receiver, d: Datagram)
    requires peer.window.expected <= MAX_KEY && Streams.ReceiveStep(peer, AsReceived(d)).1.None?
    ensures var peer' := Streams.ReceiveStep(peer, AsReceived(d)).0;
            && Keeps(peer.window, peer'.window) && Has(peer'.window, PositionOf(d))
            && PositionOf(d) <= peer.window.expected + Windows.MAX_QUEUED_PACKETS
            && peer'.acks == peer.acks + [PacketIdOf(PositionOf(d))]
  {
    KeyParts(d.packetId, d.generationId, PositionOf(d));
    FeedKeeps(peer.window, PositionOf(d), AsReceived(d).content);
  }

  // ---------------------------------------------------------------- the invariant

  /** The acknowledgements on the log are for positions the peer has, none too far from what it expected then. */
  ghost predicate LogFits(w: World, late: nat) {
    && |w.log| == |w.peer.acks|
    && (forall j :: 0 <= j < |w.log| ==> ReceiptFits(w, late, j))
    && (forall i, j :: 0 <= i <= j < |w.log| ==> w.log[i].expected <= w.log[j].expected)
  }

  ghost predicate ReceiptFits(w: World, late: nat, j: nat)
    requires j < |w.log| == |w.peer.acks|
  {
    var r := w.log[j];
    && w.peer.acks[j] == PacketIdOf(r.position) && Has(w.peer.window, r.position)
    && w.session.start <= r.position < w.session.sender.next
    && r.position <= r.expected + Windows.MAX_QUEUED_PACKETS && r.expected <= r.position + late
    && r.expected <= w.peer.window.expected
  }

  /** An acknowledgement for the position has been passed. */
  ghost predicate AckPassed(w: World, k: nat) {
    exists j: nat :: PassedAt(w, j, k)
  }

  ghost predicate PassedAt(w: World, j: nat, k: nat) {
    j < |w.log| && w.log[j].position == k && w.ackStart + j < w.ackExpected
  }

  /** Whatever has left the queue left it for an acknowledgement of its own. */
  ghost predicate RemovedArePassed(w: World) {
    forall k: nat :: w.session.start <= k < w.session.sender.next && k !in w.session.sender.table ==> AckPassed(w, k)
  }

  /** Nothing pending is a whole sequence old. */
  ghost predicate Young(table: Queues.Table, next: nat) {
    forall k :: k in table ==> k < next <= k + SEQUENCE_SIZE
  }

  ghost predicate Closed(w: World, late: nat) {
    && w.Fits() && Kept(w.session) && LogFits(w, late) && RemovedArePassed(w)
    && Young(w.session.sender.table, w.session.sender.next)
    && 2 <= w.ackStart && w.ackExpected <= w.ackStart + |w.log|
  }

  /** The position is among those of the first `n` receipts. */
  ghost predicate InLog(log: seq<Receipt>, n: nat, k: nat)
    requires n <= |log|
  {
    exists i :: 0 <= i < n && log[i].position == k
  }

  /** The first `n` receipts are for everything before `expected`, and not for it. */
  ghost predicate Explains(log: seq<Receipt>, n: nat, start: nat, expected: nat)
    requires n <= |log|
  {
    !InLog(log, n, expected) && forall k :: start <= k < expected ==> InLog(log, n, k)
  }

  /** The log tells what the peer has, and what it expected when. */
  ghost predicate Told(w: World) {
    && w.peer.window.expected !in w.peer.window.queued
    && (forall k: nat :: w.session.start <= k && Has(w.peer.window, k) ==> InLog(w.log, |w.log|, k))
    && (forall i :: 0 <= i < |w.log| ==> Has(w.peer.window, w.log[i].position))
    && forall j :: 0 <= j < |w.log| ==> Explains(w.log, j, w.session.start, w.log[j].expected)
  }

  // ---------------------------------------------------------------- the sender's own steps

  lemma WholeSequenceLater(table: Queues.Table, k: nat)
    requires Queues.WellFormed(table) && k in table
    ensures Queues.IdPending(table, PacketIdOf(k + SEQUENCE_SIZE))
  {
    KeyParts(table[k].packetId, table[k].generationId, k);
  }

  lemma {:induction false} SendStaysYoung(s: Session, packet: Windows.Packet, now: Time)
    requires Kept(s) && Young(s.sender.table, s.sender.next)
    requires ReliableSessions.Step(s, ReliableSessions.Send(packet, now)).Some?
    ensures var s' := ReliableSessions.Step(s, ReliableSessions.Send(packet, now)).value;
            Young(s'.sender.table, s'.sender.next)
  {
    SendOutcome(s, packet, now);
    forall k | k in s.sender.table
      ensures s.sender.next != k + SEQUENCE_SIZE
    {
      WholeSequenceLater(s.sender.table, k);
    }
  }

  /** A session that has only moved on leaves the peer's side as it is. */
  lemma {:induction false} SessionMovesOn(w: World, s: Session, late: nat)
    requires Closed(w, late) && Kept(s) && s.start == w.session.start && s.sender.next >= w.session.sender.next
    requires Young(s.sender.table, s.sender.next)
    requires forall k: nat :: s.start <= k < s.sender.next && k !in s.sender.table ==>
               k < w.session.sender.next && k !in w.session.sender.table
    ensures Closed(w.(session := s), late)
  {
    var w' := w.(session := s);
    forall j | 0 <= j < |w'.log|
      ensures ReceiptFits(w', late, j)
    {
      assert ReceiptFits(w, late, j);
    }
    forall k: nat | s.start <= k < s.sender.next && k !in s.sender.table
      ensures AckPassed(w', k)
    {
      assert AckPassed(w, k);
      var j: nat :| PassedAt(w, j, k);
      assert PassedAt(w', j, k);
    }
  }

  lemma {:induction false} SendCloses(w: World, packet: Windows.Packet, now: Time, late: nat)
    requires Closed(w, late) && ReliableSessions.Step(w.session, ReliableSessions.Send(packet, now)).Some?
    ensures Closed(w.(session := ReliableSessions.Step(w.session, ReliableSessions.Send(packet, now)).value), late)
  {
    var event := ReliableSessions.Send(packet, now);
    var s := ReliableSessions.Step(w.session, event).value;
    StepKeeps(w.session, event);
    SendOutcome(w.session, packet, now);
    SendStaysYoung(w.session, packet, now);
    SessionMovesOn(w, s, late);
  }

  lemma {:induction false} TickCloses(w: World, now: Time, late: nat)
    requires Closed(w, late) && ReliableSessions.Step(w.session, ReliableSessions.Tick(now)).Some?
    ensures Closed(w.(session := ReliableSessions.Step(w.session, ReliableSessions.Tick(now)).value), late)
  {
    var event := ReliableSessions.Tick(now);
    var s := ReliableSessions.Step(w.session, event).value;
    StepKeeps(w.session, event);
    forall k: nat
      ensures k in s.sender.table <==> k in w.session.sender.table
    {
      PendingNext(w.session, event, k);
    }
    SessionMovesOn(w, s, late);
  }

  // ---------------------------------------------------------------- deliveries

  lemma {:induction false} DeliverCloses(w: World, index: nat, late: nat)
    requires Closed(w, late) && index < |w.session.sender.wire| && DeliverStep(w, index).Some?
    requires w.peer.window.expected <= PositionOf(w.session.sender.wire[index]) + late
    ensures Closed(DeliverStep(w, index).value, late)
  {
    var d, w' := w.session.sender.wire[index], DeliverStep(w, index).value;
    DeliveryIsKept(w.peer, d);
    WireArrives(w.session.start, w.session.packets, w.session.sender.wire, index);
    forall j | 0 <= j < |w'.log|
      ensures ReceiptFits(w', late, j)
    {
      assert j < |w.log| ==> ReceiptFits(w, late, j);
    }
    forall i, j | 0 <= i <= j < |w'.log|
      ensures w'.log[i].expected <= w'.log[j].expected
    {
      assert i < |w.log| ==> ReceiptFits(w, late, i);
    }
    DeliveryKeepsPassed(w, w');
  }

  lemma DeliveryKeepsPassed(w: World, w': World)
    requires RemovedArePassed(w) && w'.session == w.session && w.log <= w'.log
    requires w'.ackStart == w.ackStart && w'.ackExpected >= w.ackExpected
    ensures RemovedArePassed(w')
  {
    forall k: nat | w.session.start <= k < w.session.sender.next && k !in w.session.sender.table
      ensures AckPassed(w', k)
    {
      assert AckPassed(w, k);
      var j: nat :| PassedAt(w, j, k);
      assert PassedAt(w', j, k);
    }
  }

  /** What the peer has afterwards it had before or has just received; and it never holds back what it expects. */
  ghost predicate Gains(w: Windows.Window, w': Windows.Window, key: nat) {
    w'.expected !in w'.queued && forall k :: Has(w', k) ==> Has(w, k) || k == key
  }

  lemma {:induction false} DrainGains(w: Windows.Window, ready: seq<Windows.Bytes>, key: nat)
    requires Windows.Drain(w, ready).1.Ok?
    ensures Gains(w, Windows.Drain(w, ready).0, key)
    decreases |w.queued|
  {
    if w.expected in w.queued {
      var (w', commands) := Windows.Consume(w.(queued := w.queued - {w.expected}), w.queued[w.expected]);
      DrainGains(w', ready + commands.value, key);
    }
  }

  lemma FeedGains(w: Windows.Window, key: nat, p: Windows.Packet)
    requires Windows.FeedStep(w, key, p).1.Ok? && w.expected !in w.queued
    ensures Gains(w, Windows.FeedStep(w, key, p).0, key)
  {
    if key == w.expected {
      var (w', commands) := Windows.Consume(w, p);
      DrainGains(w', commands.value, key);
    }
  }

  lemma LogGrows(log: seq<Receipt>, r: Receipt, n: nat, k: nat)
    requires n <= |log|
    ensures InLog(log, n, k) <==> InLog(log + [r], n, k)
    ensures InLog(log + [r], |log| + 1, k) <==> InLog(log, |log|, k) || k == r.position
  {
    var grown := log + [r];
    assert forall i :: 0 <= i < |log| ==> grown[i] == log[i];
    assert grown[|log|] == r;
  }

  lemma DeliverTells(w: World, index: nat)
    requires w.Fits() && Told(w) && index < |w.session.sender.wire| && DeliverStep(w, index).Some?
    ensures Told(DeliverStep(w, index).value)
  {
    var d, w' := w.session.sender.wire[index], DeliverStep(w, index).value;
    DeliveryIsKept(w.peer, d);
    DeliveryGains(w.peer, d);
    ReceiptTells(w, w', Receipt(PositionOf(d), w.peer.window.expected));
  }

  lemma DeliveryGains(peer: Streams.Receiver, d: Datagram)
    requires peer.window.expected <= MAX_KEY && Streams.ReceiveStep(peer, AsReceived(d)).1.None?
    requires peer.window.expected !in peer.window.queued
    ensures Gains(peer.window, Streams.ReceiveStep(peer, AsReceived(d)).0.window, PositionOf(d))
  {
    FeedGains(peer.window, PositionOf(d), AsReceived(d).content);
  }

  lemma ReceiptTells(w: World, w': World, r: Receipt)
    requires Told(w) && w'.log == w.log + [r] && w'.session.start == w.session.start && r.expected == w.peer.window.expected
    requires Keeps(w.peer.window, w'.peer.window) && Has(w'.peer.window, r.position)
    requires Gains(w.peer.window, w'.peer.window, r.position)
    ensures Told(w')
  {
    forall k: nat | w'.session.start <= k && Has(w'.peer.window, k)
      ensures InLog(w'.log, |w'.log|, k)
    {
      LogGrows(w.log, r, |w.log|, k);
    }
    forall j | 0 <= j < |w'.log|
      ensures Explains(w'.log, j, w'.session.start, w'.log[j].expected)
    {
      ReceiptExplains(w, r, j);
    }
  }

  lemma ReceiptExplains(w: World, r: Receipt, j: nat)
    requires Told(w) && r.expected == w.peer.window.expected && j <= |w.log|
    ensures Explains(w.log + [r], j, w.session.start, (w.log + [r])[j].expected)
  {
    var expected := (w.log + [r])[j].expected;
    if j < |w.log| {
      assert Explains(w.log, j, w.session.start, expected);
    }
    LogGrows(w.log, r, j, expected);
    forall k | w.session.start <= k < expected
      ensures InLog(w.log + [r], j, k)
    {
      LogGrows(w.log, r, j, k);
      assert j == |w.log| ==> Has(w.peer.window, k);
    }
  }

  // ---------------------------------------------------------------- acknowledgements

  function AckTaken(a: (Queues.Table, Result<Option<Queues.Acknowledgement>, Queues.Error>), expected: nat, position: nat)
    : (Queues.Table, nat, Option<Error>)
  {
    if a.1.Err? then (a.0, expected, Some(Unreliable(a.1.error)))
    else (a.0, Passed(expected, position).0, Passed(expected, position).1)
  }

  /** An acknowledgement within half a sequence of the expected one is opened and names its own id. */
  lemma AckNamesItsId(sender: Sender, expected: nat, position: nat, id: u16)
    requires expected <= MAX_KEY && 2 <= position <= MAX_KEY && WithinHalfSequence(expected, position)
    ensures HandledAck(sender, expected, position, id) == AckTaken(Queues.AcknowledgeStep(sender.table, id), expected, position)
  {
    var ack := AckOf(position, id);
    ResolutionRecoversPosition(expected, position);
    KeyParts(ack.packetId, ack.generationId, position);
    assert !(ack.generationId == 0 && ack.packetId == 1);
    assert U16Big(ack.data) == id;
  }

  /** Positions that each have a receipt of their own in a part of the log are no more than the receipts. */
  lemma {:induction false} ReceiptsCount(log: seq<Receipt>, low: nat, high: nat, positions: set<nat>)
    requires low <= high <= |log|
    requires forall k :: k in positions ==> exists j :: low <= j < high && log[j].position == k
    ensures |positions| <= high - low
    decreases high - low
  {
    if low == high {
      assert positions == {};
    } else {
      var last := log[high - 1].position;
      var rest := positions - {last};
      ReceiptsCount(log, low, high - 1, rest);
      assert positions == rest || positions == rest + {last};
    }
  }

  /** The positions in a range that have left the queue. */
  function Removed(table: Queues.Table, low: nat, high: nat): set<nat> {
    Interval(low, high) - table.Keys
  }

  lemma {:induction false} RemovedCount(table: Queues.Table, low: nat, high: nat)
    requires low <= high
    ensures |Removed(table, low, high)| + |table| >= high - low
  {
    var pending := Interval(low, high) * table.Keys;
    SubsetSize(pending, table.Keys);
    IntervalSize(low, high);
    assert |table| == |table.Keys|;
    assert Removed(table, low, high) + pending == Interval(low, high);
  }

  /** A position beyond the window of a receipt was received after it. */
  lemma LaterReceipt(w: World, late: nat, i: nat, j: nat)
    requires Closed(w, late) && i < |w.log| && j < |w.log|
    requires w.log[i].position > w.log[j].expected + Windows.MAX_QUEUED_PACKETS
    ensures i > j && w.log[i].expected > w.log[j].expected
  {
    assert ReceiptFits(w, late, i) && ReceiptFits(w, late, j);
  }

  /** What a receipt found expected is received between it and any receipt that found more. */
  lemma ExpectedReceipt(w: World, i: nat, j: nat) returns (n: nat)
    requires Told(w) && j < i < |w.log| && w.log[i].expected > w.log[j].expected >= w.session.start
    requires w.log[j].position != w.log[j].expected
    ensures j < n < i && w.log[n].position == w.log[j].expected
  {
    assert Explains(w.log, i, w.session.start, w.log[i].expected) && Explains(w.log, j, w.session.start, w.log[j].expected);
    assert InLog(w.log, i, w.log[j].expected);
    n :| 0 <= n < i && w.log[n].position == w.log[j].expected;
  }

  /** How far an acknowledgement is behind the next one expected. */
  function Lag(w: World, j: nat): nat {
    if w.ackExpected > w.ackStart + j then w.ackExpected - (w.ackStart + j) else 1
  }

  function AtLeast(a: nat, b: nat): nat {
    if a < b then b else a
  }

  /** The positions beyond the window of a receipt that have left the queue. */
  function Beyond(w: World, j: nat): set<nat>
    requires j < |w.log|
  {
    Removed(w.session.sender.table, w.log[j].expected + Windows.MAX_QUEUED_PACKETS + 1, w.session.sender.next)
  }

  lemma BeyondIsLater(w: World, late: nat, j: nat, k: nat) returns (i: nat)
    requires Closed(w, late) && j < |w.log| && k in Beyond(w, j)
    ensures j < i < j + Lag(w, j) && i < |w.log| && w.log[i].position == k && w.log[i].expected > w.log[j].expected
  {
    assert ReceiptFits(w, late, j);
    assert Within(k, w.log[j].expected + Windows.MAX_QUEUED_PACKETS + 1, w.session.sender.next);
    assert AckPassed(w, k);
    i :| PassedAt(w, i, k);
    LaterReceipt(w, late, i, j);
  }

  /** Each of them has a receipt of its own after the given one. */
  lemma BeyondReceived(w: World, late: nat, j: nat)
    requires Closed(w, late) && j < |w.log|
    ensures forall k :: k in Beyond(w, j) ==> exists i :: j + 1 <= i < j + Lag(w, j) && w.log[i].position == k
    ensures j + Lag(w, j) <= |w.log|
  {
    forall k | k in Beyond(w, j)
      ensures exists i :: j + 1 <= i < j + Lag(w, j) && w.log[i].position == k
    {
      var i := BeyondIsLater(w, late, j, k);
    }
  }

  /** And so has the position expected then, if it is not the one received. */
  lemma ExpectedReceived(w: World, late: nat, j: nat)
    requires Closed(w, late) && Told(w) && j < |w.log| && Beyond(w, j) != {} && w.log[j].position < w.log[j].expected
    ensures exists i :: j + 1 <= i < j + Lag(w, j) && w.log[i].position == w.log[j].expected
    ensures w.log[j].expected !in Beyond(w, j)
  {
    var k :| k in Beyond(w, j);
    var i := BeyondIsLater(w, late, j, k);
    assert ReceiptFits(w, late, j);
    var n := ExpectedReceipt(w, i, j);
  }

  lemma BeyondCount(w: World, late: nat, j: nat)
    requires Closed(w, late) && Told(w) && j < |w.log|
    ensures |Beyond(w, j)| < Lag(w, j)
    ensures Beyond(w, j) != {} && w.log[j].position < w.log[j].expected ==> |Beyond(w, j)| + 1 < Lag(w, j)
  {
    var gone, expected := Beyond(w, j), w.log[j].expected;
    BeyondReceived(w, late, j);
    ReceiptsCount(w.log, j + 1, j + Lag(w, j), gone);
    if gone != {} && w.log[j].position < expected {
      ExpectedReceived(w, late, j);
      ReceiptsCount(w.log, j + 1, j + Lag(w, j), gone + {expected});
    }
  }

  /** How much older than the newest packet the one acknowledged can be, given how late the acknowledgement is. */
  lemma AckIsRecent(w: World, late: nat, j: nat)
    requires Closed(w, late) && Told(w) && j < |w.log|
    ensures w.session.sender.next - w.log[j].position <
            AtLeast(late, 1) + Windows.MAX_QUEUED_PACKETS + Queues.MAX_PENDING_COMMANDS + AtLeast(Lag(w, j), 2)
  {
    var low := w.log[j].expected + Windows.MAX_QUEUED_PACKETS + 1;
    assert ReceiptFits(w, late, j);
    if low <= w.session.sender.next {
      RemovedCount(w.session.sender.table, low, w.session.sender.next);
      BeyondCount(w, late, j);
    }
  }

  /** The bound on lateness: a whole sequence less the window and the queue, and one more. */
  const LATENESS_LIMIT := SEQUENCE_SIZE - Windows.MAX_QUEUED_PACKETS - Queues.MAX_PENDING_COMMANDS + 1

  /** Neither can be late by half a sequence or more without being refused. */
  ghost predicate Safe(late: nat, ackLate: nat) {
    late < HALF_SEQUENCE_SIZE && ackLate < HALF_SEQUENCE_SIZE && late + ackLate <= LATENESS_LIMIT
  }

  /** A recent acknowledgement can only mean the position it was sent for. */
  lemma {:induction false} AckMeansItself(w: World, late: nat, j: nat, k: nat)
    requires Closed(w, late) && Told(w) && j < |w.log| && Safe(late, Lag(w, j))
    requires k in w.session.sender.table && PacketIdOf(k) == PacketIdOf(w.log[j].position)
    ensures k == w.log[j].position
  {
    AckIsRecent(w, late, j);
    assert ReceiptFits(w, late, j);
    SameIdApart(k, w.log[j].position);
  }

  lemma {:induction false} SameIdApart(a: nat, b: nat)
    requires PacketIdOf(a) == PacketIdOf(b)
    ensures a == b || a >= b + SEQUENCE_SIZE || b >= a + SEQUENCE_SIZE
  {
    assert (a - b) % SEQUENCE_SIZE == 0;
  }

  ghost predicate AckIsPrompt(w: World, j: nat, ackLate: nat) {
    WithinHalfSequence(w.ackExpected, w.ackStart + j) && w.ackExpected <= w.ackStart + j + ackLate
  }

  function Bounded(n: nat): nat {
    if n < HALF_SEQUENCE_SIZE then n else HALF_SEQUENCE_SIZE - 1
  }

  /** The world after the sender has taken the j-th acknowledgement. */
  ghost predicate Acknowledges(w: World, j: nat, w': World)
    requires j < |w.peer.acks| && w.session.sender.next <= MAX_KEY
  {
    && ReliableSessions.Step(w.session, ReliableSessions.Ack(w.peer.acks[j])) == Some(w'.session)
    && w' == w.(session := w'.session, ackExpected := w'.ackExpected)
    && Passed(w.ackExpected, w.ackStart + j) == (w'.ackExpected, None) && w'.ackExpected <= MAX_KEY
  }

  /** The sender takes a prompt acknowledgement of the peer as the event it is. */
  lemma {:induction false} AckArrivalIsAck(w: World, j: nat, handled: (Queues.Table, nat, Option<Error>))
    requires w.Fits() && j < |w.peer.acks| && w.ackStart >= 2 && w.ackStart + j <= MAX_KEY
    requires WithinHalfSequence(w.ackExpected, w.ackStart + j)
    requires handled == HandledAck(w.session.sender, w.ackExpected, w.ackStart + j, w.peer.acks[j]) && TakeAck(w, handled).Some?
    ensures Acknowledges(w, j, TakeAck(w, handled).value)
  {
    AckNamesItsId(w.session.sender, w.ackExpected, w.ackStart + j, w.peer.acks[j]);
    TakenIsAcknowledged(w, j, handled);
  }

  lemma {:induction false} TakenIsAcknowledged(w: World, j: nat, r: (Queues.Table, nat, Option<Error>))
    requires w.Fits() && j < |w.peer.acks| && w.ackStart + j <= MAX_KEY && TakeAck(w, r).Some?
    requires r == AckTaken(Queues.AcknowledgeStep(w.session.sender.table, w.peer.acks[j]), w.ackExpected, w.ackStart + j)
    ensures Acknowledges(w, j, TakeAck(w, r).value)
  {
  }

  lemma {:induction false} AckKeepsPassed(w: World, j: nat, w': World, late: nat)
    requires Closed(w, late) && Told(w) && j < |w.log| && Safe(late, Lag(w, j)) && Acknowledges(w, j, w')
    ensures RemovedArePassed(w')
  {
    assert ReceiptFits(w, late, j);
    assert PassedAt(w', j, w.log[j].position);
    forall k: nat | w'.session.start <= k < w'.session.sender.next && k !in w'.session.sender.table
      ensures AckPassed(w', k)
    {
      PendingNext(w.session, ReliableSessions.Ack(w.peer.acks[j]), k);
      if k in w.session.sender.table {
        AckMeansItself(w, late, j, k);
      } else {
        assert AckPassed(w, k);
        var i: nat :| PassedAt(w, i, k);
        assert PassedAt(w', i, k);
      }
    }
  }

  lemma {:induction false} AckClosesTo(w: World, j: nat, w': World, late: nat)
    requires Closed(w, late) && Told(w) && j < |w.log| && Safe(late, Lag(w, j)) && Acknowledges(w, j, w')
    ensures Closed(w', late)
  {
    var event := ReliableSessions.Ack(w.peer.acks[j]);
    StepKeeps(w.session, event);
    AckKeepsPassed(w, j, w', late);
    AckKeepsRest(w, w', event, late);
  }

  lemma {:induction false} AckCloses(w: World, j: nat, handled: (Queues.Table, nat, Option<Error>), late: nat, ackLate: nat)
    requires Closed(w, late) && Told(w) && j < |w.log| && w.ackStart + j <= MAX_KEY && AckIsPrompt(w, j, ackLate)
    requires Safe(late, Bounded(ackLate))
    requires handled == HandledAck(w.session.sender, w.ackExpected, w.ackStart + j, w.peer.acks[j]) && TakeAck(w, handled).Some?
    ensures Closed(TakeAck(w, handled).value, late)
  {
    AckArrivalIsAck(w, j, handled);
    AckClosesTo(w, j, TakeAck(w, handled).value, late);
  }

  lemma {:induction false} AckKeepsRest(w: World, w': World, event: ReliableSessions.Event, late: nat)
    requires Closed(w, late) && event.Ack? && ReliableSessions.Step(w.session, event).Some?
    requires w' == w.(session := ReliableSessions.Step(w.session, event).value, ackExpected := w'.ackExpected)
    ensures LogFits(w', late) && Young(w'.session.sender.table, w'.session.sender.next)
  {
    forall j | 0 <= j < |w'.log|
      ensures ReceiptFits(w', late, j)
    {
      assert ReceiptFits(w, late, j);
    }
    forall k | k in w'.session.sender.table
      ensures k in w.session.sender.table
    {
      PendingNext(w.session, event, k);
    }
  }

  // ---------------------------------------------------------------- whole runs

  /** Packets reach the peer at most `late` positions after what it expects, acknowledgements the sender at most `ackLate`. */
  ghost predicate Prompt(w: World, event: Event, late: nat, ackLate: nat) {
    match event
    case Deliver(index) =>
      index < |w.session.sender.wire| ==> w.peer.window.expected <= PositionOf(w.session.sender.wire[index]) + late
    case AckArrives(index) => index < |w.peer.acks| ==> AckIsPrompt(w, index, ackLate)
    case _ => true
  }

  ghost predicate PromptRun(start: nat, ackStart: nat, events: seq<Event>, late: nat, ackLate: nat)
    requires start <= MAX_KEY && ackStart <= MAX_KEY
  {
    forall i :: 0 <= i < |events| ==> PromptAt(start, ackStart, events, i, late, ackLate)
  }

  ghost predicate PromptAt(start: nat, ackStart: nat, events: seq<Event>, i: nat, late: nat, ackLate: nat)
    requires start <= MAX_KEY && ackStart <= MAX_KEY && i < |events|
  {
    Run(start, ackStart, events[..i]).Some? ==> Prompt(Run(start, ackStart, events[..i]).value, events[i], late, ackLate)
  }

  lemma {:induction false} StepCloses(w: World, event: Event, late: nat, ackLate: nat)
    requires Closed(w, Bounded(late)) && Told(w) && Step(w, event).Some? && Prompt(w, event, late, ackLate)
    requires Safe(Bounded(late), Bounded(ackLate))
    ensures Closed(Step(w, event).value, Bounded(late))
  {
    match event
    case Send(packet, now) => SendCloses(w, packet, now, Bounded(late));
    case Tick(now) => TickCloses(w, now, Bounded(late));
    case Deliver(index) =>
      if index < |w.session.sender.wire| {
        OpenedIsWithinHalf(w.peer, w.session.sender.wire[index]);
        DeliverCloses(w, index, Bounded(late));
      }
    case AckArrives(index) =>
      AckArrivalCloses(w, index, Bounded(late), ackLate);
  }

  /** A datagram half a sequence late does not open. */
  lemma OpenedIsWithinHalf(peer: Streams.Receiver, d: Datagram)
    requires peer.window.expected <= MAX_KEY && Streams.ReceiveStep(peer, AsReceived(d)).1.None?
    ensures WithinHalfSequence(peer.window.expected, PositionOf(d))
  {
    ResolutionIsNearest(peer.window.expected, d.packetId);
  }

  lemma StepTells(w: World, event: Event)
    requires w.Fits() && Told(w) && Step(w, event).Some?
    ensures Told(Step(w, event).value)
  {
    match event
    case Deliver(index) =>
      if index < |w.session.sender.wire| {
        DeliverTells(w, index);
      }
    case _ =>
      assert Step(w, event).value.peer == w.peer && Step(w, event).value.log == w.log;
  }

  lemma {:induction false} AckArrivalCloses(w: World, index: nat, late: nat, ackLate: nat)
    requires Closed(w, late) && Told(w) && AckArrivesStep(w, index).Some?
    requires index < |w.peer.acks| ==> AckIsPrompt(w, index, ackLate)
    requires Safe(late, Bounded(ackLate))
    ensures Closed(AckArrivesStep(w, index).value, late)
  {
    if index < |w.peer.acks| && w.ackStart + index <= MAX_KEY {
      AckCloses(w, index, HandledAck(w.session.sender, w.ackExpected, w.ackStart + index, w.peer.acks[index]), late, ackLate);
    }
  }

  lemma {:induction false} PromptEarlier(start: nat, ackStart: nat, events: seq<Event>, late: nat, ackLate: nat)
    requires start <= MAX_KEY && ackStart <= MAX_KEY && events != [] && PromptRun(start, ackStart, events, late, ackLate)
    ensures var earlier := events[..|events| - 1];
            && PromptRun(start, ackStart, earlier, late, ackLate)
            && (Run(start, ackStart, earlier).Some? ==>
                  Prompt(Run(start, ackStart, earlier).value, events[|events| - 1], late, ackLate))
  {
    var earlier := events[..|events| - 1];
    assert PromptAt(start, ackStart, events, |events| - 1, late, ackLate);
    forall i | 0 <= i < |earlier|
      ensures PromptAt(start, ackStart, earlier, i, late, ackLate)
    {
      assert earlier[..i] == events[..i];
      assert PromptAt(start, ackStart, events, i, late, ackLate);
    }
  }

  lemma {:induction false} EveryRunCloses(start: nat, ackStart: nat, events: seq<Event>, late: nat, ackLate: nat)
    requires start <= MAX_KEY && 2 <= ackStart <= MAX_KEY && Safe(Bounded(late), Bounded(ackLate))
    requires PromptRun(start, ackStart, events, late, ackLate) && Run(start, ackStart, events).Some?
    ensures var w := Run(start, ackStart, events).value; Closed(w, Bounded(late)) && Told(w) && w.session.start == start
  {
    if events != [] {
      var last := |events| - 1;
      var earlier := events[..last];
      PromptEarlier(start, ackStart, events, late, ackLate);
      EveryRunCloses(start, ackStart, earlier, late, ackLate);
      var w := Run(start, ackStart, earlier).value;
      StepCloses(w, events[last], late, ackLate);
      StepTells(w, events[last]);
    }
  }

  /** Whatever has left the retransmission queue is with the peer. */
  ghost predicate NothingIsLost(w: World) {
    forall k: nat :: w.session.start <= k < w.session.sender.next && k !in w.session.sender.table ==> Has(w.peer.window, k)
  }

  /**
   In every run in which packets and acknowledgements are together late by no
   more than the limit, nothing is lost, although both carry only 16 bits of
   their positions.
   */
  lemma {:induction false} RemovedWasReceived(start: nat, ackStart: nat, events: seq<Event>, late: nat, ackLate: nat)
    requires start <= MAX_KEY && 2 <= ackStart <= MAX_KEY && Bounded(late) + Bounded(ackLate) <= LATENESS_LIMIT
    requires PromptRun(start, ackStart, events, late, ackLate) && Run(start, ackStart, events).Some?
    ensures NothingIsLost(Run(start, ackStart, events).value)
  {
    EveryRunCloses(start, ackStart, events, late, ackLate);
    var w := Run(start, ackStart, events).value;
    forall k: nat | start <= k < w.session.sender.next && k !in w.session.sender.table
      ensures Has(w.peer.window, k)
    {
      assert AckPassed(w, k);
      var j: nat :| PassedAt(w, j, k);
      assert ReceiptFits(w, Bounded(late), j);
    }
  }
}
