/** The bound on lateness is exact: a run just beyond it in which the sender gives up a packet the peer never had. */
module AckLateness {
  import opened Basics
  import opened PacketSequences
  import opened SessionTransports
  import opened ReliableSessions
  import opened ClosedLoops
  import Windows = CommandReceiveWindows
  import Queues = ReliableCommandQueues
  import Streams = CommandStreams

  // ---------------------------------------------------------------- prompt runs, one step at a time

  /** Worlds that prompt steps do not lead out of, for packets and acknowledgements as late as given. */
  datatype Reach = Reach(worlds: iset<World>, late: nat, ackLate: nat)

  ghost predicate Goes(r: Reach, w: World, event: ClosedLoops.Event) {
    w in r.worlds && w.Fits() && Prompt(w, event, r.late, r.ackLate) && ClosedLoops.Step(w, event).Some? ==>
      ClosedLoops.Step(w, event).value in r.worlds
  }

  ghost predicate StepClosed(r: Reach) {
    forall w, event :: Goes(r, w, event)
  }

  lemma StepIsReached(r: Reach, w: World, event: ClosedLoops.Event, w': World)
    requires StepClosed(r) && w in r.worlds && w.Fits() && Prompt(w, event, r.late, r.ackLate)
    requires ClosedLoops.Step(w, event) == Some(w')
    ensures w' in r.worlds
  {
    assert Goes(r, w, event);
  }

  // ---------------------------------------------------------------- states of the run

  /** Every packet is a command of its own. */
  const PLAIN := Windows.Packet(Windows.NEW_PROTOCOL, [])

  lemma PlainIsCommand()
    ensures Windows.Ordered(Windows.EMPTY, PLAIN) == (Windows.EMPTY, Ok([[]]))
  {
  }

  /** What the sender has: the next position, the positions pending, one datagram each on the wire. */
  ghost predicate SenderAt(s: Sender, next: nat, pending: set<nat>) {
    && s.next == next > 0 && s.table.Keys == pending && Queues.WellFormed(s.table)
    && |s.wire| == next - 1 && next <= MAX_KEY && AllPlain(s.wire)
  }

  ghost predicate AllPlain(wire: seq<Datagram>) {
    forall i {:trigger PlainAt(wire, i)} :: 0 <= i < |wire| ==> PlainAt(wire, i)
  }

  ghost predicate PlainAt(wire: seq<Datagram>, i: nat)
    requires i < |wire|
  {
    i < MAX_KEY && wire[i] == Seal(i + 1, PLAIN)
  }

  lemma PlainGrows(wire: seq<Datagram>)
    requires AllPlain(wire) && |wire| < MAX_KEY
    ensures AllPlain(wire + [Seal(|wire| + 1, PLAIN)])
  {
    var longer := wire + [Seal(|wire| + 1, PLAIN)];
    forall i | 0 <= i < |longer|
      ensures PlainAt(longer, i)
    {
      assert i < |wire| ==> PlainAt(wire, i);
    }
  }

  /** What the peer has: the position expected, those queued, nothing half assembled. */
  ghost predicate WindowAt(w: Windows.Window, expected: nat, queued: set<nat>) {
    && w.expected == expected <= MAX_KEY && w.queued.Keys == queued && w.assembly == Windows.EMPTY
    && forall k :: k in w.queued ==> w.queued[k] == PLAIN
  }

  ghost predicate AcksAt(w: World, passed: nat, sent: nat) {
    w.ackStart == 2 && w.ackExpected == 2 + passed <= MAX_KEY && |w.log| == |w.peer.acks| == sent
  }

  /** The sender's next position and what is pending, the peer's expected one and what is queued, acknowledgements passed and sent. */
  datatype State = State(next: nat, pending: set<nat>, expected: nat, queued: set<nat>, passed: nat, sent: nat)

  ghost predicate At(w: World, s: State) {
    && w.session.start == 1 && SenderAt(w.session.sender, s.next, s.pending)
    && WindowAt(w.peer.window, s.expected, s.queued) && AcksAt(w, s.passed, s.sent)
  }

  /** A state some prompt run leads to. */
  ghost predicate Comes(r: Reach, w: World, s: State) {
    StepClosed(r) && w in r.worlds && At(w, s)
  }

  // ---------------------------------------------------------------- sending

  lemma NoIdPending(table: Queues.Table, next: nat)
    requires Queues.WellFormed(table) && forall k :: k in table ==> k < next < k + SEQUENCE_SIZE
    ensures !Queues.IdPending(table, PacketIdOf(next))
  {
    forall k | k in table
      ensures table[k].packetId != PacketIdOf(next)
    {
      KeyParts(table[k].packetId, table[k].generationId, k);
      if PacketIdOf(k) == PacketIdOf(next) {
        SameIdApart(k, next);
      }
    }
  }

  lemma SendAt(s: Sender, next: nat, pending: set<nat>)
    requires SenderAt(s, next, pending) && next < MAX_KEY && |pending| < Queues.MAX_PENDING_COMMANDS
    requires forall k :: k in pending ==> k < next < k + SEQUENCE_SIZE
    ensures SendStep(s, PLAIN, 0).1.Ok? && SenderAt(SendStep(s, PLAIN, 0).0, next + 1, pending + {next})
  {
    var sealed := Seal(next, PLAIN);
    NoIdPending(s.table, next);
    SealedHere(next);
    PlainGrows(s.wire);
    assert |s.table| == |s.table.Keys|;
    Queues.AddKeepsIdsUnique(s.table, sealed.packetId, sealed.generationId, sealed, 0);
  }

  lemma SealedHere(position: nat)
    requires position <= MAX_KEY
    ensures PositionOf(Seal(position, PLAIN)) == position && AsReceived(Seal(position, PLAIN)).content == PLAIN
  {
    KeyParts(PacketIdOf(position), position / SEQUENCE_SIZE, position);
  }

  lemma Sends(r: Reach, w: World, s: State) returns (w': World)
    requires Comes(r, w, s) && s.next < MAX_KEY && |s.pending| < Queues.MAX_PENDING_COMMANDS
    requires forall k :: k in s.pending ==> k < s.next < k + SEQUENCE_SIZE
    ensures Comes(r, w', s.(next := s.next + 1, pending := s.pending + {s.next})) && w'.peer == w.peer
  {
    SendAt(w.session.sender, s.next, s.pending);
    var event := ClosedLoops.Send(PLAIN, 0);
    w' := ClosedLoops.Step(w, event).value;
    StepIsReached(r, w, event, w');
  }

  // ---------------------------------------------------------------- delivering

  lemma OpensAt(peer: Streams.Receiver, position: nat)
    requires peer.window.expected <= MAX_KEY && position <= MAX_KEY && WithinHalfSequence(peer.window.expected, position)
    requires Windows.FeedStep(peer.window, position, PLAIN).1.Ok?
    ensures var (window, commands) := Windows.FeedStep(peer.window, position, PLAIN);
            Streams.ReceiveStep(peer, AsReceived(Seal(position, PLAIN)))
            == (Streams.Receiver(window, peer.ready + commands.value, peer.acks + [PacketIdOf(position)]), None)
  {
    ResolutionRecoversPosition(peer.window.expected, position);
    SealedHere(position);
  }

  /** A packet ahead is queued. */
  lemma FeedAhead(w: Windows.Window, expected: nat, position: nat)
    requires WindowAt(w, expected, Interval(expected + 1, position))
    requires expected < position <= expected + Windows.MAX_QUEUED_PACKETS
    ensures Windows.FeedStep(w, position, PLAIN).1 == Ok([])
    ensures WindowAt(Windows.FeedStep(w, position, PLAIN).0, expected, Interval(expected + 1, position + 1))
  {
    IntervalSize(expected + 1, position);
    assert |w.queued| == |w.queued.Keys|;
    assert Interval(expected + 1, position + 1) == Interval(expected + 1, position) + {position};
  }

  lemma {:induction false} DrainRun(w: Windows.Window, expected: nat, end: nat, ready: seq<Windows.Bytes>)
    requires expected <= end <= MAX_KEY && WindowAt(w, expected, Interval(expected, end))
    ensures Windows.Drain(w, ready).1.Ok? && WindowAt(Windows.Drain(w, ready).0, end, {})
    decreases end - expected
  {
    if expected < end {
      PlainIsCommand();
      assert Within(expected, expected, end);
      var (w', commands) := Windows.Consume(w.(queued := w.queued - {expected}), w.queued[expected]);
      assert Interval(expected, end) - {expected} == Interval(expected + 1, end);
      DrainRun(w', expected + 1, end, ready + commands.value);
    } else {
      assert Interval(expected, end) == {};
    }
  }

  /** The expected packet is consumed with everything queued behind it. */
  lemma FeedExpected(w: Windows.Window, expected: nat, end: nat)
    requires expected < end <= MAX_KEY && WindowAt(w, expected, Interval(expected + 1, end))
    ensures Windows.FeedStep(w, expected, PLAIN).1.Ok? && WindowAt(Windows.FeedStep(w, expected, PLAIN).0, end, {})
  {
    Streams.FeedExpectedIsDrain(w, PLAIN);
    assert Interval(expected, end) == Interval(expected + 1, end) + {expected};
    DrainRun(w.(queued := w.queued[expected := PLAIN]), expected, end, []);
  }

  lemma DeliverTold(w: World, index: nat, d: Datagram, peer: Streams.Receiver)
    requires w.Fits() && index < |w.session.sender.wire| && w.session.sender.wire[index] == d && w.ackStart + |w.log| <= MAX_KEY
    requires Streams.ReceiveStep(w.peer, AsReceived(d)) == (peer, None)
    ensures ClosedLoops.Step(w, ClosedLoops.Deliver(index))
            == Some(w.(peer := peer, log := w.log + [Receipt(PositionOf(d), w.peer.window.expected)]))
  {
  }

  /** A datagram reaches the peer. */
  lemma Delivers(r: Reach, w: World, s: State, position: nat, expected: nat, queued: set<nat>) returns (w': World)
    requires Comes(r, w, s) && 2 + s.sent <= MAX_KEY
    requires 1 <= position < s.next && WithinHalfSequence(s.expected, position) && s.expected <= position + r.late
    requires Windows.FeedStep(w.peer.window, position, PLAIN).1.Ok?
    requires WindowAt(Windows.FeedStep(w.peer.window, position, PLAIN).0, expected, queued)
    ensures Comes(r, w', s.(expected := expected, queued := queued, sent := s.sent + 1))
    ensures w'.peer.acks == w.peer.acks + [PacketIdOf(position)]
  {
    var d := Seal(position, PLAIN);
    assert PlainAt(w.session.sender.wire, position - 1);
    SealedHere(position);
    OpensAt(w.peer, position);
    var peer := Streams.ReceiveStep(w.peer, AsReceived(d)).0;
    DeliverTold(w, position - 1, d, peer);
    w' := w.(peer := peer, log := w.log + [Receipt(position, s.expected)]);
    StepIsReached(r, w, ClosedLoops.Deliver(position - 1), w');
  }

  // ---------------------------------------------------------------- acknowledging

  /** The pending positions that do not carry an id. */
  function Others(pending: set<nat>, id: u16): set<nat> {
    set k | k in pending && PacketIdOf(k) != id
  }

  lemma AckAt(s: Sender, next: nat, pending: set<nat>, id: u16)
    requires SenderAt(s, next, pending)
    ensures var (table, r) := Queues.AcknowledgeStep(s.table, id);
            r.Ok? && SenderAt(s.(table := table), next, Others(pending, id))
  {
    Queues.AcknowledgementIsUnambiguous(s.table, id);
    forall k | k in s.table
      ensures s.table[k].packetId == PacketIdOf(k)
    {
      KeyParts(s.table[k].packetId, s.table[k].generationId, k);
    }
  }

  lemma AckHandled(s: Sender, next: nat, pending: set<nat>, passed: nat, j: nat, id: u16) returns (table: Queues.Table)
    requires SenderAt(s, next, pending) && 2 + passed <= MAX_KEY && 2 + j < MAX_KEY && WithinHalfSequence(2 + passed, 2 + j)
    ensures HandledAck(s, 2 + passed, 2 + j, id) == (table, 2 + AtLeast(passed, j + 1), None)
    ensures SenderAt(s.(table := table), next, Others(pending, id))
  {
    table := Queues.AcknowledgeStep(s.table, id).0;
    AckAt(s, next, pending, id);
    AckNamesItsId(s, 2 + passed, 2 + j, id);
  }

  lemma AckTold(w: World, j: nat, handled: (Queues.Table, nat, Option<Error>))
    requires w.Fits() && j < |w.peer.acks| && w.ackStart + j <= MAX_KEY
    requires handled == HandledAck(w.session.sender, w.ackExpected, w.ackStart + j, w.peer.acks[j])
    ensures ClosedLoops.Step(w, ClosedLoops.AckArrives(j)) == TakeAck(w, handled)
  {
  }

  /** An acknowledgement reaches the sender. */
  lemma Acks(r: Reach, w: World, s: State, j: nat) returns (w': World)
    requires Comes(r, w, s) && j < s.sent && 2 + j < MAX_KEY
    requires WithinHalfSequence(2 + s.passed, 2 + j) && s.passed <= j + r.ackLate
    ensures w'.peer == w.peer
    ensures Comes(r, w', s.(pending := Others(s.pending, w.peer.acks[j]), passed := AtLeast(s.passed, j + 1)))
  {
    var table := AckHandled(w.session.sender, s.next, s.pending, s.passed, j, w.peer.acks[j]);
    w' := Taken(r, w, s, j, (table, 2 + AtLeast(s.passed, j + 1), None));
  }

  lemma Taken(r: Reach, w: World, s: State, j: nat, handled: (Queues.Table, nat, Option<Error>)) returns (w': World)
    requires Comes(r, w, s) && j < s.sent && 2 + j < MAX_KEY
    requires WithinHalfSequence(2 + s.passed, 2 + j) && s.passed <= j + r.ackLate
    requires handled == HandledAck(w.session.sender, 2 + s.passed, 2 + j, w.peer.acks[j])
    requires handled.1 == 2 + AtLeast(s.passed, j + 1) && handled.2.None?
    requires SenderAt(w.session.sender.(table := handled.0), s.next, Others(s.pending, w.peer.acks[j]))
    ensures w'.peer == w.peer
    ensures Comes(r, w', s.(pending := Others(s.pending, w.peer.acks[j]), passed := AtLeast(s.passed, j + 1)))
  {
    AckTold(w, j, handled);
    w' := TakeAck(w, handled).value;
    StepIsReached(r, w, ClosedLoops.AckArrives(j), w');
  }

  lemma OthersOfOne(pending: set<nat>, k: nat)
    requires forall j :: j in pending ==> k < j + SEQUENCE_SIZE && j < k + SEQUENCE_SIZE
    ensures Others(pending, PacketIdOf(k)) == pending - {k}
  {
    forall j | j in pending && PacketIdOf(j) == PacketIdOf(k)
      ensures j == k
    {
      SameIdApart(j, k);
    }
  }

  // ---------------------------------------------------------------- rounds of send, delivery, acknowledgement

  /** One packet is sent, delivered and acknowledged at once. */
  lemma Round(r: Reach, w: World, s: State, expected: nat, queued: set<nat>) returns (w': World)
    requires Comes(r, w, s) && s.passed == s.sent && s.next < MAX_KEY && 3 + s.sent <= MAX_KEY
    requires |s.pending| < Queues.MAX_PENDING_COMMANDS && forall k :: k in s.pending ==> k < s.next < k + SEQUENCE_SIZE
    requires WithinHalfSequence(s.expected, s.next) && s.expected <= s.next + r.late
    requires Windows.FeedStep(w.peer.window, s.next, PLAIN).1.Ok?
    requires WindowAt(Windows.FeedStep(w.peer.window, s.next, PLAIN).0, expected, queued)
    ensures Comes(r, w', State(s.next + 1, s.pending, expected, queued, s.sent + 1, s.sent + 1))
    ensures w.peer.acks <= w'.peer.acks
  {
    var more := s.pending + {s.next};
    var w1 := Sends(r, w, s);
    var s1 := s.(next := s.next + 1, pending := more);
    var w2 := Delivers(r, w1, s1, s.next, expected, queued);
    var s2 := s1.(expected := expected, queued := queued, sent := s.sent + 1);
    w' := Acks(r, w2, s2, s.sent);
    OthersOfOne(more, s.next);
    assert more - {s.next} == s.pending;
  }

  function InOrder(next: nat, sent: nat): State {
    State(next, {}, next, {}, sent, sent)
  }

  lemma {:induction false} RoundsInOrder(r: Reach, w: World, next: nat, sent: nat, count: nat) returns (w': World)
    requires Comes(r, w, InOrder(next, sent)) && next + count < MAX_KEY && 3 + sent + count <= MAX_KEY
    ensures Comes(r, w', InOrder(next + count, sent + count)) && w.peer.acks <= w'.peer.acks
    decreases count
  {
    w' := w;
    if count > 0 {
      assert Interval(next + 1, next + 1) == {};
      FeedExpected(w.peer.window, next, next + 1);
      var w1 := Round(r, w, InOrder(next, sent), next + 1, {});
      w' := RoundsInOrder(r, w1, next + 1, sent + 1, count - 1);
    }
  }

  /** The packet at `gap` is missing, and those behind it up to `next` are queued. */
  function Ahead(gap: nat, next: nat, sent: nat): State {
    State(next, {gap}, gap, Interval(gap + 1, next), sent, sent)
  }

  lemma {:induction false} RoundsAhead(r: Reach, w: World, gap: nat, next: nat, sent: nat, count: nat) returns (w': World)
    requires Comes(r, w, Ahead(gap, next, sent)) && next + count < MAX_KEY && 3 + sent + count <= MAX_KEY
    requires gap < next && next + count <= gap + 1 + Windows.MAX_QUEUED_PACKETS
    ensures Comes(r, w', Ahead(gap, next + count, sent + count)) && w.peer.acks <= w'.peer.acks
    decreases count
  {
    w' := w;
    if count > 0 {
      FeedAhead(w.peer.window, gap, next);
      var w1 := Round(r, w, Ahead(gap, next, sent), gap, Interval(gap + 1, next + 1));
      w' := RoundsAhead(r, w1, gap, next + 1, sent + 1, count - 1);
    }
  }

  /** Packets from `first` on are sent and lost. */
  function Unanswered(first: nat, next: nat, sent: nat): State {
    State(next, Interval(first, next), first, {}, sent, sent)
  }

  lemma IntervalGrows(first: nat, next: nat)
    requires first <= next
    ensures |Interval(first, next)| == next - first && Interval(first, next) + {next} == Interval(first, next + 1)
    ensures forall k :: k in Interval(first, next) ==> first <= k < next
  {
    IntervalSize(first, next);
  }

  lemma {:induction false} SendsUnanswered(r: Reach, w: World, first: nat, next: nat, sent: nat, count: nat)
    returns (w': World)
    requires Comes(r, w, Unanswered(first, next, sent)) && next + count < MAX_KEY
    requires first <= next && next + count <= first + Queues.MAX_PENDING_COMMANDS
    ensures Comes(r, w', Unanswered(first, next + count, sent)) && w'.peer == w.peer
    decreases count
  {
    w' := w;
    if count > 0 {
      IntervalGrows(first, next);
      var w1 := Sends(r, w, Unanswered(first, next, sent));
      w' := SendsUnanswered(r, w1, first, next + 1, sent, count - 1);
    }
  }

  // ---------------------------------------------------------------- the failing run

  /** Position 1 is delivered again `l` positions late, just before the missing packet; that acknowledgement is held back. */
  lemma Repeats(r: Reach, w: World, l: nat) returns (w': World)
    requires 0 < l < HALF_SEQUENCE_SIZE && l <= r.late && Comes(r, w, Ahead(l + 1, l + 66, l + 64))
    ensures Comes(r, w', InOrder(l + 66, l + 66))
    ensures |w'.peer.acks| > l + 64 && w'.peer.acks[l + 64] == PacketIdOf(1)
  {
    var s := Ahead(l + 1, l + 66, l + 64);
    var w1 := Delivers(r, w, s, 1, l + 1, s.queued);
    var s1 := s.(sent := l + 65);
    FeedExpected(w1.peer.window, l + 1, l + 66);
    var w2 := Delivers(r, w1, s1, l + 1, l + 66, {});
    var s2 := s1.(expected := l + 66, queued := {}, sent := l + 66);
    w' := Acks(r, w2, s2, l + 65);
    OthersOfOne({l + 1}, l + 1);
    assert {l + 1} - {l + 1} == {};
  }

  lemma Starts(r: Reach)
    requires StepClosed(r) && Start(1, 2) in r.worlds
    ensures Comes(r, Start(1, 2), InOrder(1, 0))
  {
  }

  /** All packets up to the missing one arrive, and those after it as far as the window reaches. */
  lemma FillsWindow(r: Reach, w: World, l: nat) returns (w': World)
    requires Comes(r, w, InOrder(l + 1, l)) && l < HALF_SEQUENCE_SIZE
    ensures Comes(r, w', Ahead(l + 1, l + 66, l + 64))
  {
    var w1 := Sends(r, w, InOrder(l + 1, l));
    assert {} + {l + 1} == {l + 1} && Interval(l + 2, l + 2) == {};
    w' := RoundsAhead(r, w1, l + 1, l + 2, l, 64);
  }

  lemma FirstHalf(r: Reach, l: nat) returns (w: World)
    requires StepClosed(r) && Start(1, 2) in r.worlds && 0 < l < HALF_SEQUENCE_SIZE && l <= r.late
    ensures Comes(r, w, InOrder(l + 66, l + 66))
    ensures |w.peer.acks| > l + 64 && w.peer.acks[l + 64] == PacketIdOf(1)
  {
    Starts(r);
    var w1 := RoundsInOrder(r, Start(1, 2), 1, 0, l);
    var w2 := FillsWindow(r, w1, l);
    w := Repeats(r, w2, l);
  }

  /** The held back acknowledgement arrives `m` late, when the position a whole sequence after 1 is pending. */
  lemma SecondHalf(r: Reach, w: World, l: nat, m: nat) returns (w': World)
    requires Comes(r, w, InOrder(l + 66, l + 66))
    requires |w.peer.acks| > l + 64 && w.peer.acks[l + 64] == PacketIdOf(1)
    requires 2 <= m < HALF_SEQUENCE_SIZE && m <= r.ackLate && l + m == LATENESS_LIMIT + 1
    ensures w' in r.worlds && !NothingIsLost(w')
  {
    var w1 := RoundsInOrder(r, w, l + 66, l + 66, m - 2);
    var first := l + m + 64;
    assert Interval(first, first) == {};
    var w2 := SendsUnanswered(r, w1, first, first, first, 1024);
    w' := Acks(r, w2, Unanswered(first, first + 1024, first), l + 64);
    LosesOne(w', first, first);
  }

  /** With nothing of its id pending any more, the position a whole sequence after 1 is lost. */
  lemma LosesOne(w: World, first: nat, sent: nat)
    requires first <= SEQUENCE_SIZE < first + 1023
    requires At(w, Unanswered(first, first + 1024, sent).(pending := Others(Interval(first, first + 1024), PacketIdOf(1))))
    ensures !NothingIsLost(w)
  {
    var lost := 1 + SEQUENCE_SIZE;
    assert PacketIdOf(lost) == PacketIdOf(1);
    assert lost !in w.session.sender.table && !Has(w.peer.window, lost);
  }

  /** Some prompt run from position 1, with acknowledgements from position 2 on, leads here. */
  ghost predicate Reached(w: World, late: nat, ackLate: nat) {
    exists events :: Leads(events, w, late, ackLate)
  }

  ghost predicate Leads(events: seq<ClosedLoops.Event>, w: World, late: nat, ackLate: nat) {
    PromptRun(1, 2, events, late, ackLate) && ClosedLoops.Run(1, 2, events) == Some(w)
  }

  lemma ReachedGoesOn(w: World, event: ClosedLoops.Event, late: nat, ackLate: nat)
    requires Reached(w, late, ackLate) && w.Fits() && Prompt(w, event, late, ackLate) && ClosedLoops.Step(w, event).Some?
    ensures Reached(ClosedLoops.Step(w, event).value, late, ackLate)
  {
    var events :| Leads(events, w, late, ackLate);
    var longer := events + [event];
    assert longer[..|events|] == events;
    forall i | 0 <= i < |longer|
      ensures PromptAt(1, 2, longer, i, late, ackLate)
    {
      assert longer[..i] == events[..i];
      assert i < |events| ==> PromptAt(1, 2, events, i, late, ackLate);
      assert events[..|events|] == events;
    }
    assert Leads(longer, ClosedLoops.Step(w, event).value, late, ackLate);
  }

  ghost function ReachOf(late: nat, ackLate: nat): Reach {
    Reach((iset w: World | Reached(w, late, ackLate)), late, ackLate)
  }

  lemma ReachedIsClosed(late: nat, ackLate: nat)
    ensures StepClosed(ReachOf(late, ackLate)) && Reached(Start(1, 2), late, ackLate)
  {
    var r := ReachOf(late, ackLate);
    forall w, event
      ensures Goes(r, w, event)
    {
      if w in r.worlds && w.Fits() && Prompt(w, event, late, ackLate) && ClosedLoops.Step(w, event).Some? {
        ReachedGoesOn(w, event, late, ackLate);
      }
    }
    assert Leads([], Start(1, 2), late, ackLate);
  }

  /** Beyond the limit some prompt run loses a packet. */
  lemma BeyondTheLimit(late: nat, ackLate: nat) returns (w: World)
    requires Bounded(late) + Bounded(ackLate) > LATENESS_LIMIT
    ensures Reached(w, late, ackLate) && !NothingIsLost(w)
  {
    var r, l := ReachOf(late, ackLate), Bounded(late);
    ReachedIsClosed(late, ackLate);
    var w1 := FirstHalf(r, l);
    w := SecondHalf(r, w1, l, LATENESS_LIMIT + 1 - l);
  }

  // ---------------------------------------------------------------- the exact limit

  ghost predicate RunIsSafe(start: nat, ackStart: nat, events: seq<ClosedLoops.Event>, late: nat, ackLate: nat)
    requires start <= MAX_KEY && ackStart <= MAX_KEY
  {
    PromptRun(start, ackStart, events, late, ackLate) && ClosedLoops.Run(start, ackStart, events).Some? ==>
      NothingIsLost(ClosedLoops.Run(start, ackStart, events).value)
  }

  /** In no run in which packets are at most `late` and acknowledgements at most `ackLate` positions late is anything lost. */
  ghost predicate AlwaysSafe(late: nat, ackLate: nat) {
    forall start: nat, ackStart: nat, events :: start <= MAX_KEY && 2 <= ackStart <= MAX_KEY ==>
      RunIsSafe(start, ackStart, events, late, ackLate)
  }

  /**
   What has left the retransmission queue is always with the peer if and only if
   packets and acknowledgements, each refused when half a sequence late, are
   together late by no more than a sequence less the window and the queue, and
   one more.
   */
  lemma LatenessLimitIsExact(late: nat, ackLate: nat)
    ensures AlwaysSafe(late, ackLate) <==> Bounded(late) + Bounded(ackLate) <= LATENESS_LIMIT
  {
    if Bounded(late) + Bounded(ackLate) <= LATENESS_LIMIT {
      forall start: nat, ackStart: nat, events | start <= MAX_KEY && 2 <= ackStart <= MAX_KEY
        ensures RunIsSafe(start, ackStart, events, late, ackLate)
      {
        if PromptRun(start, ackStart, events, late, ackLate) && ClosedLoops.Run(start, ackStart, events).Some? {
          RemovedWasReceived(start, ackStart, events, late, ackLate);
        }
      }
    } else {
      var w := BeyondTheLimit(late, ackLate);
      var events :| Leads(events, w, late, ackLate);
      assert !RunIsSafe(1, 2, events, late, ackLate);
    }
  }
}
