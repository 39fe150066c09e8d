/**
 Commands as they travel: one packet or several, plain or as a QuickLZ block. A
 stream of such messages is carried across the network, and nothing but a block
 that does not decompress can make the receiver fail.
 */
module CommandMessages {
  import opened Basics
  import opened PacketSequences
  import opened CommandReceiveWindows
  import opened CommandStreams
  import QuickLz

  /** The packets of one command. */
  type Message = seq<Packet>

  function Joined(packets: seq<Packet>): Bytes {
    if packets == [] then [] else Joined(packets[..|packets| - 1]) + packets[|packets| - 1].data
  }

  /** Alone a packet is not marked; of several the first and the last are marked as fragments. The joined parts are within the limit. */
  ghost predicate WellMarked(message: Message) {
    && message != [] && |Joined(message)| <= MAX_COMMAND_SIZE
    && forall i :: 0 <= i < |message| ==>
         (HasBit(message[i].flags, FRAGMENTED) <==> |message| > 1 && (i == 0 || i == |message| - 1))
  }

  /** The first packet says whether the joined parts are a block or the command itself. */
  predicate IsBlock(message: Message) {
    message != [] && HasBit(message[0].flags, COMPRESSED)
  }

  /** The command a message stands for, or the decompressor's objection. */
  function Payload(message: Message): Result<Bytes, Error> {
    if !IsBlock(message) then Ok(Joined(message)) else
    match QuickLz.Decompressed(Joined(message), MAX_COMMAND_SIZE)
    case Ok(command) => Ok(command)
    case Err(cause) => Err(Compression(cause))
  }

  // ---------------------------------------------------------------- one message

  /** What the receiver has assembled after the first `n` packets of a message, when it is not done. */
  function Partial(message: Message, n: nat): Assembly
    requires n <= |message|
  {
    if n == 0 then EMPTY else Assembly(true, IsBlock(message), Joined(message[..n]))
  }

  lemma {:induction false} JoinedGrows(message: Message, n: nat)
    requires n < |message|
    ensures Joined(message[..n + 1]) == Joined(message[..n]) + message[n].data
    ensures |Joined(message[..n + 1])| <= |Joined(message)|
    decreases |message| - n
  {
    assert message[..n + 1][..n] == message[..n];
    if n + 1 < |message| {
      JoinedGrows(message, n + 1);
    } else {
      assert message[..n + 1] == message;
    }
  }

  /** Every packet but the last extends the assembly. */
  lemma OneMorePacket(message: Message, n: nat)
    requires WellMarked(message) && n + 1 < |message|
    ensures Ordered(Partial(message, n), message[n]) == (Partial(message, n + 1), Ok([]))
  {
    JoinedGrows(message, n);
    assert n == 0 ==> Joined(message[..1]) == [] + message[0].data == message[0].data;
  }

  /** The last packet yields the command and leaves nothing behind, or raises the objection to it and leaves the joined parts. */
  lemma LastPacket(message: Message, n: nat)
    requires WellMarked(message) && n + 1 == |message|
    ensures var (assembly, commands) := Ordered(Partial(message, n), message[n]);
            && commands == (if Payload(message).Ok? then Ok([Payload(message).value]) else Err(Payload(message).error))
            && assembly == if commands.Ok? || n == 0 then EMPTY else Assembly(true, IsBlock(message), Joined(message))
  {
    JoinedGrows(message, n);
    assert message[..n + 1] == message;
    assert n == 0 ==> Joined(message[..1]) == [] + message[0].data == message[0].data;
  }

  /** The packet with which the parts of a message exceed the limit is refused, and what was assembled stays. */
  lemma PacketTooMany(message: Message, n: nat)
    requires n < |message| && |Joined(message[..n + 1])| > MAX_COMMAND_SIZE
    ensures Ordered(Partial(message, n), message[n]) == (Partial(message, n), Err(CommandTooLarge))
  {
    JoinedGrows(message, n);
  }

  // ---------------------------------------------------------------- streams of messages

  function Flattened(messages: seq<Message>): seq<Packet> {
    if messages == [] then [] else Flattened(messages[..|messages| - 1]) + messages[|messages| - 1]
  }

  /** How many leading messages have all their packets among the first `n`. */
  function Completed(messages: seq<Message>, n: nat): (count: nat)
    ensures count <= |messages|
    ensures |Flattened(messages)| <= n ==> count == |messages|
  {
    if messages == [] || |Flattened(messages)| <= n then |messages|
    else Completed(messages[..|messages| - 1], n)
  }

  /** What each message stands for. */
  function Payloads(messages: seq<Message>): seq<Result<Bytes, Error>> {
    seq(|messages|, i requires 0 <= i < |messages| => Payload(messages[i]))
  }

  ghost predicate ArePayloads(messages: seq<Message>, payloads: seq<Result<Bytes, Error>>) {
    |payloads| == |messages|
    && forall i {:trigger IsPayload(messages, payloads, i)} :: 0 <= i < |messages| ==> IsPayload(messages, payloads, i)
  }

  predicate IsPayload(messages: seq<Message>, payloads: seq<Result<Bytes, Error>>, i: nat)
    requires i < |messages| == |payloads|
  {
    payloads[i] == Payload(messages[i])
  }

  /** The commands in their order, or the first objection. */
  function Collected(payloads: seq<Result<Bytes, Error>>): (r: Result<seq<Bytes>, Error>) {
    if payloads == [] then Ok([]) else
    var last := payloads[|payloads| - 1];
    var earlier := Collected(payloads[..|payloads| - 1]);
    if earlier.Err? then earlier
    else if last.Err? then Err(last.error)
    else Ok(earlier.value + [last.value])
  }

  ghost predicate AllAre(payloads: seq<Result<Bytes, Error>>, commands: seq<Bytes>) {
    |commands| == |payloads| && forall i :: 0 <= i < |payloads| ==> payloads[i] == Ok(commands[i])
  }

  ghost predicate FirstObjection(payloads: seq<Result<Bytes, Error>>, i: nat, error: Error) {
    && i < |payloads| && payloads[i] == Err(error)
    && forall j :: 0 <= j < i ==> payloads[j].Ok?
  }

  /** What collecting means for each message. */
  lemma {:induction false} CollectedMeaning(payloads: seq<Result<Bytes, Error>>)
    ensures Collected(payloads).Ok? ==> AllAre(payloads, Collected(payloads).value)
    ensures Collected(payloads).Err? ==> exists i: nat :: FirstObjection(payloads, i, Collected(payloads).error)
  {
    if payloads != [] {
      var earlier, last := payloads[..|payloads| - 1], payloads[|payloads| - 1];
      CollectedMeaning(earlier);
      match Collected(earlier)
      case Ok(_) =>
        if last.Err? {
          assert FirstObjection(payloads, |earlier|, last.error);
        } else {
          assert AllAre(payloads, Collected(earlier).value + [last.value]);
        }
      case Err(error) =>
        var i: nat :| FirstObjection(earlier, i, error);
        assert FirstObjection(payloads, i, error);
    }
  }

  ghost predicate AllWellMarked(messages: seq<Message>) {
    forall i :: 0 <= i < |messages| ==> WellMarked(messages[i])
  }

  /** One packet after another. */
  lemma InOrderStep(start: nat, seen: seq<Packet>, done: seq<Bytes>, a: Assembly, p: Packet, a': Assembly, r: Result<seq<Bytes>, Error>)
    requires start + |seen| < MAX_KEY
    requires InOrder(start, seen) == (a, Ok(done)) && Ordered(a, p) == (a', r)
    ensures InOrder(start, seen + [p]) == (a', if r.Ok? then Ok(done + r.value) else r)
  {
    assert (seen + [p])[..|seen|] == seen;
  }

  /** A failure stays. */
  lemma {:induction false} InOrderFailed(start: nat, seen: seq<Packet>, more: seq<Packet>)
    requires InOrder(start, seen).1.Err?
    ensures InOrder(start, seen + more) == InOrder(start, seen)
    decreases |more|
  {
    if more == [] {
      assert seen + more == seen;
    } else {
      var rest := more[..|more| - 1];
      InOrderFailed(start, seen, rest);
      assert (seen + more)[..|seen + more| - 1] == seen + rest;
    }
  }

  /** The first packets of one more message complete nothing. */
  lemma {:induction false} PartialInOrder(start: nat, before: seq<Packet>, done: seq<Bytes>, message: Message, n: nat)
    requires WellMarked(message) && n < |message| && start + |before| + n <= MAX_KEY
    requires InOrder(start, before) == (EMPTY, Ok(done))
    ensures InOrder(start, before + message[..n]) == (Partial(message, n), Ok(done))
  {
    if n == 0 {
      assert before + message[..0] == before;
    } else {
      PartialInOrder(start, before, done, message, n - 1);
      PartialNext(start, before + message[..n - 1], done, message, n - 1, before + message[..n]);
    }
  }

  lemma PartialNext(start: nat, seen: seq<Packet>, done: seq<Bytes>, message: Message, n: nat, seen': seq<Packet>)
    requires WellMarked(message) && n + 1 < |message| && start + |seen| < MAX_KEY && seen' == seen + [message[n]]
    requires InOrder(start, seen) == (Partial(message, n), Ok(done))
    ensures InOrder(start, seen') == (Partial(message, n + 1), Ok(done))
  {
    OneMorePacket(message, n);
    InOrderStep(start, seen, done, Partial(message, n), message[n], Partial(message, n + 1), Ok([]));
    assert done + [] == done;
  }

  /** What in-order consumption makes of whole messages. */
  ghost predicate Consumed(start: nat, packets: seq<Packet>, payloads: seq<Result<Bytes, Error>>) {
    && InOrder(start, packets).1 == Collected(payloads)
    && (Collected(payloads).Ok? ==> InOrder(start, packets).0 == EMPTY)
  }

  lemma MessageInOrder(start: nat, before: seq<Packet>, done: seq<Bytes>, message: Message)
    requires WellMarked(message) && start + |before| + |message| <= MAX_KEY
    requires InOrder(start, before) == (EMPTY, Ok(done))
    ensures InOrder(start, before + message).1 ==
            if Payload(message).Ok? then Ok(done + [Payload(message).value]) else Err(Payload(message).error)
    ensures Payload(message).Ok? ==> InOrder(start, before + message).0 == EMPTY
  {
    var last := |message| - 1;
    PartialInOrder(start, before, done, message, last);
    LastPacket(message, last);
    var (assembly, commands) := Ordered(Partial(message, last), message[last]);
    InOrderStep(start, before + message[..last], done, Partial(message, last), message[last], assembly, commands);
    assert before + message == before + message[..last] + [message[last]];
  }

  lemma {:induction false} AllInOrder(start: nat, messages: seq<Message>, payloads: seq<Result<Bytes, Error>>)
    requires AllWellMarked(messages) && ArePayloads(messages, payloads) && start + |Flattened(messages)| <= MAX_KEY
    ensures Consumed(start, Flattened(messages), payloads)
  {
    if messages != [] {
      var last := |messages| - 1;
      var earlier, earlierPayloads := messages[..last], payloads[..last];
      EarlierPayloads(messages, payloads);
      AllInOrder(start, earlier, earlierPayloads);
      if Collected(earlierPayloads).Ok? {
        assert IsPayload(messages, payloads, last);
        MessageInOrder(start, Flattened(earlier), Collected(earlierPayloads).value, messages[last]);
      } else {
        InOrderFailed(start, Flattened(earlier), messages[last]);
      }
    }
  }

  lemma EarlierPayloads(messages: seq<Message>, payloads: seq<Result<Bytes, Error>>)
    requires ArePayloads(messages, payloads) && messages != []
    ensures ArePayloads(messages[..|messages| - 1], payloads[..|messages| - 1])
  {
    var earlier, earlierPayloads := messages[..|messages| - 1], payloads[..|messages| - 1];
    forall i | 0 <= i < |earlier| ensures IsPayload(earlier, earlierPayloads, i) {
      assert IsPayload(messages, payloads, i);
    }
  }

  /** The first packets of a stream of messages belong to the earlier messages, then to the last. */
  lemma PacketsSplit(messages: seq<Message>, n: nat)
    requires messages != [] && n <= |Flattened(messages)|
    ensures var earlier, last := messages[..|messages| - 1], messages[|messages| - 1];
            var before := Flattened(earlier);
            Flattened(messages)[..n] == if n <= |before| then before[..n] else before + last[..n - |before|]
  {
  }

  /** After any number of packets, the commands output are those of the messages complete so far. */
  lemma {:induction false} MessagesInOrder(start: nat, messages: seq<Message>, payloads: seq<Result<Bytes, Error>>, n: nat)
    requires AllWellMarked(messages) && ArePayloads(messages, payloads)
    requires n <= |Flattened(messages)| && start + n <= MAX_KEY
    ensures InOrder(start, Flattened(messages)[..n]).1 == Collected(payloads[..Completed(messages, n)])
    decreases |messages|
  {
    if n == |Flattened(messages)| {
      assert Flattened(messages)[..n] == Flattened(messages) && payloads[..|messages|] == payloads;
      AllInOrder(start, messages, payloads);
    } else {
      var last := |messages| - 1;
      var earlier, earlierPayloads := messages[..last], payloads[..last];
      EarlierPayloads(messages, payloads);
      PacketsSplit(messages, n);
      var count := Completed(earlier, n);
      assert payloads[..count] == earlierPayloads[..count];
      if n <= |Flattened(earlier)| {
        MessagesInOrder(start, earlier, earlierPayloads, n);
      } else {
        assert earlierPayloads[..count] == earlierPayloads;
        PartOfLast(start, earlier, earlierPayloads, messages[last], n - |Flattened(earlier)|);
      }
    }
  }

  lemma PartOfLast(start: nat, earlier: seq<Message>, payloads: seq<Result<Bytes, Error>>, last: Message, n: nat)
    requires AllWellMarked(earlier) && ArePayloads(earlier, payloads) && WellMarked(last)
    requires n < |last| && start + |Flattened(earlier)| + n <= MAX_KEY
    ensures InOrder(start, Flattened(earlier) + last[..n]).1 == Collected(payloads)
  {
    AllInOrder(start, earlier, payloads);
    if Collected(payloads).Ok? {
      PartialInOrder(start, Flattened(earlier), Collected(payloads).value, last, n);
    } else {
      InOrderFailed(start, Flattened(earlier), last[..n]);
    }
  }

  // ---------------------------------------------------------------- across the network

  /** The receiver holds the commands of the messages whose packets all lie before the first gap, and all once nothing is missing. */
  ghost predicate Holds(start: nat, messages: seq<Message>, payloads: seq<Result<Bytes, Error>>, s: Receiver, received: set<nat>)
    requires |payloads| == |messages|
  {
    var stream := Stream(start, Flattened(messages));
    && Settled(s, stream, received)
    && Ok(s.ready) == Collected(payloads[..Completed(messages, s.window.expected - start)])
    && ((forall position :: stream.Has(position) ==> position in received) ==>
          Ok(s.ready) == Collected(payloads) && s.window.queued == map[] && s.window.assembly == EMPTY)
  }

  /** The error is the first objection among the messages received in full before the first gap. */
  ghost predicate Objects(start: nat, messages: seq<Message>, payloads: seq<Result<Bytes, Error>>, expected: nat, error: Error, received: set<nat>)
    requires |payloads| == |messages|
  {
    && start <= expected && (forall position :: start <= position <= expected ==> position in received)
    && Collected(payloads[..Completed(messages, expected + 1 - start)]) == Err(error)
  }

  lemma AllReceived(start: nat, messages: seq<Message>, payloads: seq<Result<Bytes, Error>>, s: Receiver, received: set<nat>)
    requires AllWellMarked(messages) && ArePayloads(messages, payloads) && start + |Flattened(messages)| <= MAX_KEY
    requires Settled(s, Stream(start, Flattened(messages)), received)
    requires forall position :: Stream(start, Flattened(messages)).Has(position) ==> position in received
    ensures Ok(s.ready) == Collected(payloads) && s.window.queued == map[] && s.window.assembly == EMPTY
  {
    var stream := Stream(start, Flattened(messages));
    assert !stream.Has(s.window.expected);
    assert stream.packets[..s.window.expected - start] == stream.packets;
    AllInOrder(start, messages, payloads);
    assert forall k :: k in s.window.queued ==> stream.Has(k);
  }

  lemma SettledHolds(start: nat, messages: seq<Message>, payloads: seq<Result<Bytes, Error>>, s: Receiver, received: set<nat>)
    requires AllWellMarked(messages) && ArePayloads(messages, payloads) && start + |Flattened(messages)| <= MAX_KEY
    requires Settled(s, Stream(start, Flattened(messages)), received)
    ensures Holds(start, messages, payloads, s, received)
  {
    MessagesInOrder(start, messages, payloads, s.window.expected - start);
    if forall position :: Stream(start, Flattened(messages)).Has(position) ==> position in received {
      AllReceived(start, messages, payloads, s, received);
    }
  }

  lemma FailureObjects(start: nat, messages: seq<Message>, payloads: seq<Result<Bytes, Error>>, expected: nat, error: Error, received: set<nat>)
    requires AllWellMarked(messages) && ArePayloads(messages, payloads) && start + |Flattened(messages)| <= MAX_KEY
    requires FailsInOrder(expected, error, Stream(start, Flattened(messages)), received)
    ensures Objects(start, messages, payloads, expected, error, received)
  {
    MessagesInOrder(start, messages, payloads, expected + 1 - start);
  }

  /** Without failure the messages are held; the only failure is a message that does not decompress. */
  ghost predicate Carried(start: nat, messages: seq<Message>, payloads: seq<Result<Bytes, Error>>, arrivals: seq<nat>)
    requires start <= MAX_KEY && |payloads| == |messages|
    requires forall position :: position in arrivals ==> Stream(start, Flattened(messages)).Has(position)
  {
    var (s, failure) := Run(Initial(start), Stream(start, Flattened(messages)), arrivals);
    if failure.None? then Holds(start, messages, payloads, s, Arrived(arrivals))
    else failure.value.Rejected? && Objects(start, messages, payloads, s.window.expected, failure.value.error, Arrived(arrivals))
  }

  lemma {:induction false} ArrivalsCarry(start: nat, messages: seq<Message>, payloads: seq<Result<Bytes, Error>>, arrivals: seq<nat>)
    requires AllWellMarked(messages) && ArePayloads(messages, payloads) && start + |Flattened(messages)| <= MAX_KEY
    requires forall position :: position in arrivals ==> Stream(start, Flattened(messages)).Has(position)
    requires TimelyRun(Initial(start), Stream(start, Flattened(messages)), arrivals)
    ensures Carried(start, messages, payloads, arrivals)
  {
    var stream := Stream(start, Flattened(messages));
    var (s, failure) := Run(Initial(start), stream, arrivals);
    ReceivesInOrder(stream, arrivals);
    if failure.None? {
      SettledHolds(start, messages, payloads, s, Arrived(arrivals));
    } else {
      FailureObjects(start, messages, payloads, s.window.expected, failure.value.error, Arrived(arrivals));
    }
  }

  /**
   End to end: the packets of any messages, plain or compressed, whole or in
   parts, arrive in any timely order with losses and duplicates, and the
   messages are carried across. The only error there can be is the
   decompressor's own, to a message that has arrived.
   */
  lemma MessagesSurviveTheNetwork(start: nat, messages: seq<Message>, arrivals: seq<nat>)
    requires AllWellMarked(messages) && start + |Flattened(messages)| <= MAX_KEY
    requires forall position :: position in arrivals ==> Stream(start, Flattened(messages)).Has(position)
    requires TimelyRun(Initial(start), Stream(start, Flattened(messages)), arrivals)
    ensures Carried(start, messages, Payloads(messages), arrivals)
    ensures forall i :: 0 <= i < |messages| && Payload(messages[i]).Err? ==>
              IsBlock(messages[i]) && Payload(messages[i]).error.Compression?
  {
    forall i | 0 <= i < |messages| ensures IsPayload(messages, Payloads(messages), i) {
    }
    ArrivalsCarry(start, messages, Payloads(messages), arrivals);
  }
}
