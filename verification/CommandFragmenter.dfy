/** Cutting commands into packets, and the proof that a stream of such packets carries them. */
module CommandFragmenters {
  import opened Basics
  import opened PacketSequences
  import opened CommandReceiveWindows
  import opened CommandStreams
  import Messages = CommandMessages

  const MAX_CLIENT_PAYLOAD := 487

  datatype Fragment = Fragment(offset: nat, size: nat, flags: u8)

  function FragmentSize(offset: nat, commandSize: nat): nat
    requires offset <= commandSize
  {
    if commandSize - offset < MAX_CLIENT_PAYLOAD then commandSize - offset else MAX_CLIENT_PAYLOAD
  }

  /** The fragment that starts at `offset`: only the first and the last are marked. */
  function FragmentAt(offset: nat, commandSize: nat): Fragment
    requires offset <= commandSize
  {
    var size := FragmentSize(offset, commandSize);
    Fragment(offset, size,
             if offset == 0 || offset + size == commandSize then NEW_PROTOCOL + FRAGMENTED else NEW_PROTOCOL)
  }

  function PlanFrom(offset: nat, commandSize: nat): seq<Fragment>
    requires offset <= commandSize
    decreases commandSize - offset
  {
    if offset == commandSize then []
    else [FragmentAt(offset, commandSize)] + PlanFrom(offset + FragmentSize(offset, commandSize), commandSize)
  }

  function Planned(commandSize: nat): seq<Fragment> {
    if commandSize <= MAX_CLIENT_PAYLOAD then [Fragment(0, commandSize, NEW_PROTOCOL)] else PlanFrom(0, commandSize)
  }

  method Plan(commandSize: nat) returns (r: Result<seq<Fragment>, Error>)
    ensures r == if commandSize > MAX_COMMAND_SIZE then Err(CommandTooLarge) else Ok(Planned(commandSize))
  {
    if commandSize > MAX_COMMAND_SIZE {
      return Err(CommandTooLarge);
    }
    if commandSize <= MAX_CLIENT_PAYLOAD {
      return Ok([Fragment(0, commandSize, NEW_PROTOCOL)]);
    }
    var fragments: seq<Fragment> := [];
    var offset := 0;
    while offset < commandSize
      invariant 0 <= offset <= commandSize
      invariant fragments + PlanFrom(offset, commandSize) == PlanFrom(0, commandSize)
    {
      var fragmentSize := FragmentSize(offset, commandSize);
      var firstFragment := offset == 0;
      var lastFragment := offset + fragmentSize == commandSize;
      var flags: u8 := NEW_PROTOCOL;
      if firstFragment || lastFragment {
        flags := NEW_PROTOCOL + FRAGMENTED;
      }
      ghost var rest := PlanFrom(offset + fragmentSize, commandSize);
      assert fragments + ([Fragment(offset, fragmentSize, flags)] + rest)
          == fragments + [Fragment(offset, fragmentSize, flags)] + rest;
      fragments := fragments + [Fragment(offset, fragmentSize, flags)];
      offset := offset + fragmentSize;
    }
    assert fragments + [] == fragments;
    return Ok(fragments);
  }

  // ---------------------------------------------------------------- packets of one command

  predicate WithinLimit(command: Bytes) {
    |command| <= MAX_COMMAND_SIZE
  }

  /** The end of the first `n` fragments. */
  function Cut(commandSize: nat, n: nat): nat {
    if n * MAX_CLIENT_PAYLOAD < commandSize then n * MAX_CLIENT_PAYLOAD else commandSize
  }

  function PacketOf(command: Bytes, fragment: Fragment): Packet
    requires fragment.offset + fragment.size <= |command|
  {
    Packet(fragment.flags, command[fragment.offset..fragment.offset + fragment.size])
  }

  /** The fragments of a plan follow each other without gap or overlap. */
  lemma {:induction false} PlanIndex(start: nat, commandSize: nat, i: nat)
    requires start * MAX_CLIENT_PAYLOAD <= commandSize
    requires i < |PlanFrom(start * MAX_CLIENT_PAYLOAD, commandSize)|
    ensures var offset := (start + i) * MAX_CLIENT_PAYLOAD;
            offset < commandSize && PlanFrom(start * MAX_CLIENT_PAYLOAD, commandSize)[i] == FragmentAt(offset, commandSize)
    ensures i + 1 == |PlanFrom(start * MAX_CLIENT_PAYLOAD, commandSize)| <==>
            (start + i + 1) * MAX_CLIENT_PAYLOAD >= commandSize
    decreases i
  {
    var offset := start * MAX_CLIENT_PAYLOAD;
    if offset + MAX_CLIENT_PAYLOAD <= commandSize {
      assert offset + FragmentSize(offset, commandSize) == (start + 1) * MAX_CLIENT_PAYLOAD;
      if i > 0 {
        PlanIndex(start + 1, commandSize, i - 1);
      }
    } else {
      assert offset + FragmentSize(offset, commandSize) == commandSize;
    }
  }

  lemma PlannedFits(commandSize: nat, i: nat)
    requires i < |Planned(commandSize)|
    ensures Planned(commandSize)[i].offset + Planned(commandSize)[i].size <= commandSize
  {
    if commandSize > MAX_CLIENT_PAYLOAD {
      PlanIndex(0, commandSize, i);
    }
  }

  function PacketsOf(command: Bytes): (packets: seq<Packet>)
    ensures |packets| == |Planned(|command|)| > 0
  {
    var plan := Planned(|command|);
    seq(|plan|, i requires 0 <= i < |plan| => PlannedFits(|command|, i); PacketOf(command, plan[i]))
  }

  lemma FlagBits()
    ensures HasBit(NEW_PROTOCOL + FRAGMENTED, FRAGMENTED) && !HasBit(NEW_PROTOCOL, FRAGMENTED)
    ensures !HasBit(NEW_PROTOCOL + FRAGMENTED, COMPRESSED) && !HasBit(NEW_PROTOCOL, COMPRESSED)
  {
  }

  /** The n-th packet of a command that needs more than one. */
  lemma NthPacket(command: Bytes, n: nat)
    requires |command| > MAX_CLIENT_PAYLOAD && n < |PacketsOf(command)|
    ensures var packets, from, to := PacketsOf(command), Cut(|command|, n), Cut(|command|, n + 1);
            && (n + 1 == |packets| <==> to == |command|) && (n == 0 <==> from == 0) && from < to
            && packets[n].data == command[from..to]
            && packets[n].flags == if n == 0 || n + 1 == |packets| then NEW_PROTOCOL + FRAGMENTED else NEW_PROTOCOL
  {
    PlanIndex(0, |command|, n);
  }

  /** The first packets of a command, joined, are the command up to the cut. */
  lemma {:induction false} JoinedCut(command: Bytes, n: nat)
    requires |command| > MAX_CLIENT_PAYLOAD && n <= |PacketsOf(command)|
    ensures Messages.Joined(PacketsOf(command)[..n]) == command[..Cut(|command|, n)]
  {
    if n > 0 {
      JoinedCut(command, n - 1);
      NthPacket(command, n - 1);
      var from, to := Cut(|command|, n - 1), Cut(|command|, n);
      assert PacketsOf(command)[..n][..n - 1] == PacketsOf(command)[..n - 1];
      assert command[..from] + command[from..to] == command[..to];
    }
  }

  /** The fragments of a command are a well marked message that is not compressed and stands for the command. */
  lemma FragmentsAreAMessage(command: Bytes)
    requires WithinLimit(command)
    ensures Messages.WellMarked(PacketsOf(command)) && Messages.Payload(PacketsOf(command)) == Ok(command)
  {
    var packets := PacketsOf(command);
    FlagBits();
    if |command| <= MAX_CLIENT_PAYLOAD {
      assert packets[..0] == [] && [] + command == command && packets[0].data == command;
    } else {
      forall i | 0 <= i < |packets|
        ensures packets[i].flags == if i == 0 || i + 1 == |packets| then NEW_PROTOCOL + FRAGMENTED else NEW_PROTOCOL
      {
        NthPacket(command, i);
      }
      NthPacket(command, 0);
      NthPacket(command, |packets| - 1);
      JoinedCut(command, |packets|);
      assert packets[..|packets|] == packets && command[..|command|] == command;
    }
  }

  /** Every packet of a command is of the new protocol and fits a datagram; all but the last are full. */
  lemma FragmentsFit(command: Bytes, i: nat)
    requires i < |PacketsOf(command)|
    ensures var packets := PacketsOf(command);
            && HasBit(packets[i].flags, NEW_PROTOCOL) && |packets[i].data| <= MAX_CLIENT_PAYLOAD
            && (i + 1 < |packets| ==> |packets[i].data| == MAX_CLIENT_PAYLOAD)
            && (packets[i].data == [] ==> command == [])
  {
    if |command| > MAX_CLIENT_PAYLOAD {
      NthPacket(command, i);
    }
  }

  // ---------------------------------------------------------------- streams of commands

  function MessagesOf(commands: seq<Bytes>): (messages: seq<Messages.Message>)
    ensures |messages| == |commands|
  {
    seq(|commands|, i requires 0 <= i < |commands| => PacketsOf(commands[i]))
  }

  function PacketsOfAll(commands: seq<Bytes>): seq<Packet> {
    Messages.Flattened(MessagesOf(commands))
  }

  /** How many leading commands have all their packets among the first `n`. */
  function Completed(commands: seq<Bytes>, n: nat): (count: nat)
    ensures count <= |commands|
  {
    Messages.Completed(MessagesOf(commands), n)
  }

  function Accepted(commands: seq<Bytes>): (payloads: seq<Result<Bytes, Error>>)
    ensures |payloads| == |commands|
  {
    seq(|commands|, i requires 0 <= i < |commands| => Ok(commands[i]))
  }

  lemma {:induction false} AcceptedCollect(commands: seq<Bytes>, n: nat)
    requires n <= |commands|
    ensures Messages.Collected(Accepted(commands)[..n]) == Ok(commands[..n])
  {
    if n > 0 {
      AcceptedCollect(commands, n - 1);
      assert Accepted(commands)[..n][..n - 1] == Accepted(commands)[..n - 1];
      assert commands[..n] == commands[..n - 1] + [commands[n - 1]];
    }
  }

  lemma CommandsAreMessages(commands: seq<Bytes>)
    requires forall c :: c in commands ==> WithinLimit(c)
    ensures Messages.AllWellMarked(MessagesOf(commands)) && Messages.ArePayloads(MessagesOf(commands), Accepted(commands))
  {
    forall i | 0 <= i < |commands|
      ensures Messages.WellMarked(MessagesOf(commands)[i])
      ensures Messages.IsPayload(MessagesOf(commands), Accepted(commands), i)
    {
      FragmentsAreAMessage(commands[i]);
    }
  }

  /** After any number of packets of a stream of commands, the commands done are those complete so far. */
  lemma CommandsInOrder(start: nat, commands: seq<Bytes>, n: nat)
    requires forall c :: c in commands ==> WithinLimit(c)
    requires n <= |PacketsOfAll(commands)| && start + n <= MAX_KEY
    ensures InOrder(start, PacketsOfAll(commands)[..n]).1 == Ok(commands[..Completed(commands, n)])
  {
    CommandsAreMessages(commands);
    Messages.MessagesInOrder(start, MessagesOf(commands), Accepted(commands), n);
    AcceptedCollect(commands, Completed(commands, n));
  }

  lemma HeldCommands(start: nat, commands: seq<Bytes>, s: Receiver, received: set<nat>)
    requires Messages.Holds(start, MessagesOf(commands), Accepted(commands), s, received)
    ensures s.ready == commands[..Completed(commands, s.window.expected - start)]
    ensures (forall position :: Stream(start, PacketsOfAll(commands)).Has(position) ==> position in received) ==>
              s.ready == commands && s.window.queued == map[] && s.window.assembly == EMPTY
  {
    AcceptedCollect(commands, Completed(commands, s.window.expected - start));
    AcceptedCollect(commands, |commands|);
    assert Accepted(commands)[..|commands|] == Accepted(commands) && commands[..|commands|] == commands;
  }

  lemma NeverObjects(start: nat, commands: seq<Bytes>, expected: nat, error: Error, received: set<nat>)
    ensures !Messages.Objects(start, MessagesOf(commands), Accepted(commands), expected, error, received)
  {
    if start <= expected {
      AcceptedCollect(commands, Completed(commands, expected + 1 - start));
    }
  }

  /**
   The receiver has not failed and holds exactly the commands whose packets all
   lie before the first gap; once every packet has arrived it holds exactly the
   commands sent, with nothing queued and nothing half assembled.
   */
  ghost predicate Carried(start: nat, commands: seq<Bytes>, arrivals: seq<nat>)
    requires start <= MAX_KEY
    requires forall position :: position in arrivals ==> Stream(start, PacketsOfAll(commands)).Has(position)
  {
    var stream := Stream(start, PacketsOfAll(commands));
    var (s, failure) := Run(Initial(start), stream, arrivals);
    && failure == None
    && Settled(s, stream, Arrived(arrivals))
    && s.ready == commands[..Completed(commands, s.window.expected - start)]
    && ((forall position :: stream.Has(position) ==> position in arrivals) ==>
          s.ready == commands && s.window.queued == map[] && s.window.assembly == EMPTY)
  }

  /**
   End to end: commands within the size limit are cut into packets, the packets
   arrive in any timely order with losses and duplicates, and the commands are
   carried across.
   */
  lemma CommandsSurviveTheNetwork(start: nat, commands: seq<Bytes>, arrivals: seq<nat>)
    requires forall c :: c in commands ==> WithinLimit(c)
    requires start + |PacketsOfAll(commands)| <= MAX_KEY
    requires forall position :: position in arrivals ==> Stream(start, PacketsOfAll(commands)).Has(position)
    requires TimelyRun(Initial(start), Stream(start, PacketsOfAll(commands)), arrivals)
    ensures Carried(start, commands, arrivals)
  {
    var (s, failure) := Run(Initial(start), Stream(start, PacketsOfAll(commands)), arrivals);
    CommandsAreMessages(commands);
    Messages.ArrivalsCarry(start, MessagesOf(commands), Accepted(commands), arrivals);
    if failure.None? {
      HeldCommands(start, commands, s, Arrived(arrivals));
    } else {
      NeverObjects(start, commands, s.window.expected, failure.value.error, Arrived(arrivals));
    }
  }
}
