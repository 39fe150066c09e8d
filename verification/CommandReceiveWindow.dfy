/**
 The receive side of one reliable command stream: packets are put back in
 order, duplicates dropped, and fragments joined into commands.
 */
module CommandReceiveWindows {
  import opened Basics
  import opened PacketSequences
  import QuickLz

  const MAX_COMMAND_SIZE := 65536
  const MAX_QUEUED_PACKETS := 64

  const FRAGMENTED := 0x10
  const NEW_PROTOCOL := 0x20
  const COMPRESSED := 0x40

  type Bytes = seq<u8>

  datatype Error =
    | CommandTooLarge
    | Compression(cause: QuickLz.Error)
    | OutsideWindow
    | QueueFull
    | Overflow

  datatype Packet = Packet(flags: u8, data: Bytes)

  /** What has been collected of the command now being assembled. */
  datatype Assembly = Assembly(assembling: bool, compressed: bool, fragments: Bytes)

  const EMPTY := Assembly(false, false, [])

  /** The state of a window, together with the position its stream expects next. */
  datatype Window = Window(expected: nat, queued: map<nat, Packet>, assembly: Assembly)

  function Unpack(compressed: bool, data: Bytes): Result<seq<Bytes>, Error> {
    if !compressed then Ok([data]) else
    match QuickLz.Decompressed(data, MAX_COMMAND_SIZE)
    case Ok(command) => Ok([command])
    case Err(cause) => Err(Compression(cause))
  }

  /** The effect of the next packet in order: the new assembly and the commands it completes. */
  function Ordered(a: Assembly, p: Packet): (r: (Assembly, Result<seq<Bytes>, Error>))
  {
    var fragmented := HasBit(p.flags, FRAGMENTED);
    var joined := a.fragments + p.data;
    if |joined| > MAX_COMMAND_SIZE then
      (a, Err(CommandTooLarge))
    else if !a.assembling then
      if fragmented then (Assembly(true, HasBit(p.flags, COMPRESSED), p.data), Ok([]))
      else (a, Unpack(HasBit(p.flags, COMPRESSED), p.data))
    else if !fragmented then
      (a.(fragments := joined), Ok([]))
    else
      var command := Unpack(a.compressed, joined);
      (if command.Ok? then EMPTY else a.(fragments := joined), command)
  }

  /** Consume the packet at the expected position. */
  function Consume(w: Window, p: Packet): (r: (Window, Result<seq<Bytes>, Error>))
    ensures w.expected <= MAX_KEY ==> r.0.expected <= MAX_KEY
  {
    var (assembly, commands) := Ordered(w.assembly, p);
    var processed := w.(assembly := assembly);
    if commands.Err? then (processed, commands)
    else if w.expected >= MAX_KEY then (processed, Err(Overflow))
    else (processed.(expected := w.expected + 1), commands)
  }

  /** Consume queued packets as long as the expected one is among them. */
  function Drain(w: Window, ready: seq<Bytes>): (r: (Window, Result<seq<Bytes>, Error>))
    ensures w.expected <= MAX_KEY ==> r.0.expected <= MAX_KEY
    decreases |w.queued|
  {
    if w.expected !in w.queued then (w, Ok(ready)) else
    var (w', commands) := Consume(w.(queued := w.queued - {w.expected}), w.queued[w.expected]);
    if commands.Err? then (w', commands) else Drain(w', ready + commands.value)
  }

  /** The effect of one decrypted packet whose position has been resolved. */
  function FeedStep(w: Window, key: nat, p: Packet): (r: (Window, Result<seq<Bytes>, Error>))
    ensures w.expected <= MAX_KEY ==> r.0.expected <= MAX_KEY
  {
    if key < w.expected then (w, Ok([]))
    else if key > w.expected then
      if key - w.expected > MAX_QUEUED_PACKETS then (w, Err(OutsideWindow))
      else if key in w.queued then (w, Ok([]))
      else if |w.queued| >= MAX_QUEUED_PACKETS then (w, Err(QueueFull))
      else (w.(queued := w.queued[key := p]), Ok([]))
    else
      var (w', commands) := Consume(w, p);
      if commands.Err? then (w', commands) else Drain(w', commands.value)
  }

  /** Everything queued is ahead of the expected packet and within reach of the window. */
  ghost predicate InWindow(w: Window) {
    forall k :: k in w.queued ==> w.expected < k <= w.expected + MAX_QUEUED_PACKETS
  }

  lemma {:induction false} DrainStaysInWindow(w: Window, ready: seq<Bytes>)
    requires forall k :: k in w.queued ==> w.expected <= k <= w.expected + MAX_QUEUED_PACKETS
    ensures InWindow(Drain(w, ready).0) && Drain(w, ready).1 != Err(QueueFull)
    decreases |w.queued|
  {
    if w.expected in w.queued {
      var (w', commands) := Consume(w.(queued := w.queued - {w.expected}), w.queued[w.expected]);
      if commands.Ok? {
        DrainStaysInWindow(w', ready + commands.value);
      }
    }
  }

  /** Whatever packets come, the queue keeps to the window, and so is never full. */
  lemma FeedStaysInWindow(w: Window, key: nat, p: Packet)
    requires InWindow(w)
    ensures InWindow(FeedStep(w, key, p).0) && FeedStep(w, key, p).1 != Err(QueueFull)
  {
    if key == w.expected {
      var (w', commands) := Consume(w, p);
      if commands.Ok? {
        DrainStaysInWindow(w', commands.value);
      }
    } else if key > w.expected && key !in w.queued && key - w.expected <= MAX_QUEUED_PACKETS {
      var slots := w.queued.Keys + {key};
      BoundedSetSize(slots, w.expected + 1, w.expected + MAX_QUEUED_PACKETS + 1);
      assert |slots| == |w.queued.Keys| + 1;
    }
  }

  class CommandReceiveWindow {
    var queued: map<nat, Packet>
    var assembling: bool
    var compressed: bool
    var fragments: Bytes

    constructor ()
      ensures queued == map[] && State() == EMPTY
    {
      queued, assembling, compressed, fragments := map[], false, false, [];
    }

    ghost function State(): Assembly
      reads this
    {
      Assembly(assembling, compressed, fragments)
    }

    ghost function View(expected: PacketSequence): Window
      reads this, expected
    {
      Window(expected.Key(), queued, State())
    }

    method ProcessOrdered(flags: u8, data: Bytes, ready: seq<Bytes>) returns (r: Result<seq<Bytes>, Error>)
      requires |fragments| <= MAX_COMMAND_SIZE
      modifies this`assembling, this`compressed, this`fragments
      ensures var (assembly, commands) := Ordered(old(State()), Packet(flags, data));
              State() == assembly && r == if commands.Ok? then Ok(ready + commands.value) else commands
      ensures |fragments| <= MAX_COMMAND_SIZE
    {
      if |data| > MAX_COMMAND_SIZE - |fragments| {
        return Err(CommandTooLarge);
      }
      if !assembling {
        var isFragment := HasBit(flags, FRAGMENTED);
        var isCompressed := HasBit(flags, COMPRESSED);
        if !isFragment {
          if isCompressed {
            var command := QuickLz.Decompress(data, MAX_COMMAND_SIZE);
            if command.Err? {
              return Err(Compression(command.error));
            }
            return Ok(ready + [command.value]);
          }
          return Ok(ready + [data]);
        }
        assembling := true;
        compressed := isCompressed;
        fragments := data;
        assert ready + [] == ready;
        return Ok(ready);
      }
      fragments := fragments + data;
      if !HasBit(flags, FRAGMENTED) {
        assert ready + [] == ready;
        return Ok(ready);
      }
      if compressed {
        var command := QuickLz.Decompress(fragments, MAX_COMMAND_SIZE);
        if command.Err? {
          return Err(Compression(command.error));
        }
        r := Ok(ready + [command.value]);
      } else {
        r := Ok(ready + [fragments]);
      }
      fragments, assembling, compressed := [], false, false;
    }

    /** Feed one decrypted packet; `expected` is advanced past every packet consumed. */
    method Feed(expected: PacketSequence, packetId: u16, generationId: u32, flags: u8, plaintext: Bytes)
      returns (r: Result<seq<Bytes>, Error>)
      requires |fragments| <= MAX_COMMAND_SIZE
      modifies this, expected
      ensures |fragments| <= MAX_COMMAND_SIZE
      ensures (View(expected), r) ==
              FeedStep(old(View(expected)), SequenceKey(packetId, generationId), Packet(flags, plaintext))
    {
      var packetKey := SequenceKey(packetId, generationId);
      var expectedKey := expected.Key();
      if packetKey < expectedKey {
        return Ok([]);
      }
      if packetKey > expectedKey {
        if packetKey - expectedKey > MAX_QUEUED_PACKETS {
          return Err(OutsideWindow);
        }
        if packetKey !in queued {
          if |queued| >= MAX_QUEUED_PACKETS {
            return Err(QueueFull);
          }
          queued := queued[packetKey := Packet(flags, plaintext)];
        }
        return Ok([]);
      }
      r := ProcessOrdered(flags, plaintext, []);
      NothingBefore(Consume(old(View(expected)), Packet(flags, plaintext)).1);
      if r.Err? {
        return;
      }
      var advanced := expected.Advance();
      if !advanced {
        return Err(Overflow);
      }
      r := DrainQueue(expected, r.value);
    }

    /** Consume queued packets for as long as the expected one is among them. */
    method DrainQueue(expected: PacketSequence, ready: seq<Bytes>) returns (r: Result<seq<Bytes>, Error>)
      requires |fragments| <= MAX_COMMAND_SIZE
      modifies this, expected
      ensures |fragments| <= MAX_COMMAND_SIZE
      ensures (View(expected), r) == Drain(old(View(expected)), ready)
    {
      r := Ok(ready);
      while expected.Key() in queued
        invariant |fragments| <= MAX_COMMAND_SIZE
        invariant r.Ok? && Drain(View(expected), r.value) == Drain(old(View(expected)), ready)
        decreases |queued|
      {
        var next := queued[expected.Key()];
        queued := queued - {expected.Key()};
        r := ProcessOrdered(next.flags, next.data, r.value);
        if r.Err? {
          return;
        }
        var advanced := expected.Advance();
        if !advanced {
          return Err(Overflow);
        }
      }
    }
  }

  lemma NothingBefore(commands: Result<seq<Bytes>, Error>)
    ensures commands.Ok? ==> [] + commands.value == commands.value
  {
  }
}
