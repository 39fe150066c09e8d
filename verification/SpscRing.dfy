/**
 The single-producer single-consumer ring, split at every atomic load and
 store, under every interleaving of its two threads.
 */
module SpscRings {
  import opened Basics

  /** Where the producer is inside TryEmplace. */
  datatype Producer<T> =
    | Idle
    | LoadedWrite(value: T, write: nat)      // m_Write loaded
    | FoundRoom(value: T, write: nat)        // m_Read loaded, the ring was not full
    | StoredValue(value: T, write: nat)      // m_Data written
    | Refused                                // the ring was full

  /** Where the consumer is inside TryPop. */
  datatype Consumer<T> =
    | Waiting
    | LoadedRead(read: nat)                  // m_Read loaded
    | FoundValue(read: nat)                  // m_Write loaded, the ring was not empty
    | TookValue(read: nat, value: T)         // m_Data moved from
    | FoundNothing                           // the ring was empty

  /** Shared memory and the two threads, with all values pushed and popped so far. */
  datatype Ring<T> = Ring(data: seq<T>, write: nat, read: nat,
                          producer: Producer<T>, consumer: Consumer<T>,
                          pushed: seq<T>, popped: seq<T>)
  {
    function Capacity(): nat {
      |data|
    }

    /** The values in the ring. */
    function Queue(): seq<T>
      requires |popped| <= |pushed|
    {
      pushed[|popped|..]
    }

    predicate InBounds() {
      && write < Capacity() && read < Capacity()
      && (producer.LoadedWrite? || producer.FoundRoom? || producer.StoredValue? ==> producer.write < Capacity())
      && (consumer.LoadedRead? || consumer.FoundValue? || consumer.TookValue? ==> consumer.read < Capacity())
    }
  }

  function Next(index: nat, capacity: nat): (next: nat)
    requires index < capacity
    ensures next < capacity
  {
    if index + 1 == capacity then 0 else index + 1
  }

  /** The producer's next atomic step; a producer outside TryEmplace starts pushing `value`. */
  function ProducerStep<T>(s: Ring<T>, value: T): (s': Ring<T>)
    requires s.InBounds()
    ensures s'.InBounds() && s'.Capacity() == s.Capacity()
  {
    match s.producer
    case LoadedWrite(v, w) => s.(producer := if Next(w, s.Capacity()) == s.read then Refused else FoundRoom(v, w))
    case FoundRoom(v, w) => s.(data := s.data[w := v], producer := StoredValue(v, w))
    case StoredValue(v, w) => s.(write := Next(w, s.Capacity()), producer := Idle, pushed := s.pushed + [v])
    case _ => s.(producer := LoadedWrite(value, s.write))
  }

  /** The consumer's next atomic step; taking a value leaves its slot with whatever a move leaves behind. */
  function ConsumerStep<T>(s: Ring<T>, movedFrom: T): (s': Ring<T>)
    requires s.InBounds()
    ensures s'.InBounds() && s'.Capacity() == s.Capacity()
  {
    match s.consumer
    case LoadedRead(r) => s.(consumer := if r == s.write then FoundNothing else FoundValue(r))
    case FoundValue(r) => s.(data := s.data[r := movedFrom], consumer := TookValue(r, s.data[r]))
    case TookValue(r, v) => s.(read := Next(r, s.Capacity()), consumer := Waiting, popped := s.popped + [v])
    case _ => s.(consumer := LoadedRead(s.read))
  }

  // ---------------------------------------------------------------- slots

  /** The slot of the n-th value. */
  function Slot(n: nat, capacity: nat): (slot: nat)
    requires capacity > 0
    ensures slot < capacity
  {
    if n == 0 then 0 else Next(Slot(n - 1, capacity), capacity)
  }

  lemma {:induction false} SlotAhead(n: nat, d: nat, capacity: nat)
    requires d < capacity
    ensures var slot := Slot(n, capacity);
            Slot(n + d, capacity) == if slot + d < capacity then slot + d else slot + d - capacity
  {
    if d > 0 {
      SlotAhead(n, d - 1, capacity);
    }
  }

  /** Values less than a capacity apart do not share a slot. */
  lemma SlotsDiffer(i: nat, j: nat, capacity: nat)
    requires i < j < i + capacity
    ensures Slot(i, capacity) != Slot(j, capacity)
  {
    SlotAhead(i, j - i, capacity);
  }

  // ---------------------------------------------------------------- the invariant

  /** The slot of the n-th value holds it. */
  ghost predicate Holds<T>(data: seq<T>, pushed: seq<T>, n: nat)
    requires |data| > 0 && n < |pushed|
  {
    data[Slot(n, |data|)] == pushed[n]
  }

  /** The first value still to be found in the ring's memory. */
  function Oldest<T>(s: Ring<T>): nat {
    if s.consumer.TookValue? then |s.popped| + 1 else |s.popped|
  }

  ghost predicate Fifo<T>(s: Ring<T>) {
    && s.Capacity() >= 2 && s.InBounds()
    && |s.popped| <= |s.pushed| <= |s.popped| + s.Capacity() - 1
    && s.popped == s.pushed[..|s.popped|]
    && s.write == Slot(|s.pushed|, s.Capacity()) && s.read == Slot(|s.popped|, s.Capacity())
    && (forall n :: Oldest(s) <= n < |s.pushed| ==> Holds(s.data, s.pushed, n))
    && ProducerFits(s) && ConsumerFits(s)
  }

  ghost predicate ProducerFits<T>(s: Ring<T>)
    requires s.Capacity() > 0
  {
    match s.producer
    case LoadedWrite(_, w) => w == s.write
    case FoundRoom(_, w) => w == s.write && |s.pushed| < |s.popped| + s.Capacity() - 1
    case StoredValue(v, w) => w == s.write && |s.pushed| < |s.popped| + s.Capacity() - 1 && w < s.Capacity() && s.data[w] == v
    case _ => true
  }

  ghost predicate ConsumerFits<T>(s: Ring<T>) {
    match s.consumer
    case LoadedRead(r) => r == s.read
    case FoundValue(r) => r == s.read && |s.popped| < |s.pushed|
    case TookValue(r, v) => r == s.read && |s.popped| < |s.pushed| && v == s.pushed[|s.popped|]
    case _ => true
  }

  /** The ring is full exactly when the slot after the write index is the read index, and empty when they meet. */
  lemma IndicesTellOccupancy<T>(s: Ring<T>)
    requires Fifo(s)
    ensures Next(s.write, s.Capacity()) == s.read <==> |s.Queue()| == s.Capacity() - 1
    ensures s.write == s.read <==> s.Queue() == []
    ensures |s.Queue()| == if s.write >= s.read then s.write - s.read else s.write + s.Capacity() - s.read
  {
    SlotAhead(|s.popped|, |s.pushed| - |s.popped|, s.Capacity());
  }

  /** No slot is written by the producer while the consumer is reading it. */
  lemma NoSlotIsShared<T>(s: Ring<T>)
    requires Fifo(s) && (s.producer.FoundRoom? || s.producer.StoredValue?) && (s.consumer.FoundValue? || s.consumer.TookValue?)
    ensures s.producer.write != s.consumer.read
  {
    SlotsDiffer(|s.popped|, |s.pushed|, s.Capacity());
  }

  lemma ProducerKeepsFifo<T>(s: Ring<T>, value: T)
    requires Fifo(s)
    ensures Fifo(ProducerStep(s, value))
  {
    var s' := ProducerStep(s, value);
    match s.producer
    case LoadedWrite(v, w) => IndicesTellOccupancy(s);
    case FoundRoom(v, w) =>
      forall n | Oldest(s') <= n < |s'.pushed|
        ensures Holds(s'.data, s'.pushed, n)
      {
        SlotsDiffer(n, |s.pushed|, s.Capacity());
        assert Holds(s.data, s.pushed, n);
      }
    case StoredValue(v, w) =>
      forall n | Oldest(s') <= n < |s'.pushed|
        ensures Holds(s'.data, s'.pushed, n)
      {
        assert n < |s.pushed| ==> Holds(s.data, s.pushed, n);
      }
    case _ =>
  }

  lemma {:induction false} ConsumerKeepsFifo<T>(s: Ring<T>, movedFrom: T)
    requires Fifo(s)
    ensures Fifo(ConsumerStep(s, movedFrom))
  {
    var s' := ConsumerStep(s, movedFrom);
    match s.consumer
    case LoadedRead(r) => IndicesTellOccupancy(s);
    case FoundValue(r) =>
      assert Holds(s.data, s.pushed, |s.popped|);
      forall n | Oldest(s') <= n < |s'.pushed|
        ensures Holds(s'.data, s'.pushed, n)
      {
        SlotsDiffer(|s.popped|, n, s.Capacity());
        assert Holds(s.data, s.pushed, n);
      }
      if s.producer.StoredValue? {
        SlotsDiffer(|s.popped|, |s.pushed|, s.Capacity());
      }
    case TookValue(r, v) =>
      forall n | Oldest(s') <= n < |s'.pushed|
        ensures Holds(s'.data, s'.pushed, n)
      {
        assert Holds(s.data, s.pushed, n);
      }
    case _ =>
  }

  // ---------------------------------------------------------------- every interleaving

  datatype Choice<T> = Produce(value: T) | Consume(movedFrom: T)

  function Step<T>(s: Ring<T>, choice: Choice<T>): (s': Ring<T>)
    requires s.InBounds()
    ensures s'.InBounds() && s'.Capacity() == s.Capacity()
  {
    match choice
    case Produce(value) => ProducerStep(s, value)
    case Consume(movedFrom) => ConsumerStep(s, movedFrom)
  }

  function Initial<T>(data: seq<T>): Ring<T> {
    Ring(data, 0, 0, Idle, Waiting, [], [])
  }

  function Run<T>(data: seq<T>, choices: seq<Choice<T>>): (s: Ring<T>)
    requires |data| >= 2
    ensures s.InBounds() && s.Capacity() == |data|
  {
    if choices == [] then Initial(data) else Step(Run(data, choices[..|choices| - 1]), choices[|choices| - 1])
  }

  lemma {:induction false} EveryInterleavingIsFifo<T>(data: seq<T>, choices: seq<Choice<T>>)
    requires |data| >= 2
    ensures Fifo(Run(data, choices))
  {
    if choices != [] {
      var s := Run(data, choices[..|choices| - 1]);
      EveryInterleavingIsFifo(data, choices[..|choices| - 1]);
      match choices[|choices| - 1]
      case Produce(value) => ProducerKeepsFifo(s, value);
      case Consume(movedFrom) => ConsumerKeepsFifo(s, movedFrom);
    }
  }

  /** What a bounded FIFO queue may do in one step. */
  ghost predicate QueueStep<T>(before: seq<T>, after: seq<T>, limit: nat) {
    || after == before
    || (|before| < limit && |after| == |before| + 1 && before == after[..|before|])
    || (before != [] && after == before[1..])
  }

  /**
   Under every interleaving the ring refines a FIFO queue of one less than its
   capacity: each atomic step leaves the queue alone, appends to it or removes
   its head; what was popped is a prefix of what was pushed; a push is refused
   only when the queue is full and a pop only when it is empty.
   */
  lemma {:induction false} RingRefinesQueue<T>(data: seq<T>, choices: seq<Choice<T>>, choice: Choice<T>)
    requires |data| >= 2
    ensures var s := Run(data, choices);
            var s' := Step(s, choice);
            && |s.popped| <= |s.pushed| && s.popped == s.pushed[..|s.popped|]
            && |s'.popped| <= |s'.pushed| && QueueStep(s.Queue(), s'.Queue(), |data| - 1)
            && (s'.producer.Refused? && !s.producer.Refused? ==> |s.Queue()| == |data| - 1)
            && (s'.consumer.FoundNothing? && !s.consumer.FoundNothing? ==> s.Queue() == [])
  {
    EveryInterleavingIsFifo(data, choices);
    var s := Run(data, choices);
    IndicesTellOccupancy(s);
    var s' := Step(s, choice);
    match choice
    case Produce(value) =>
      ProducerKeepsFifo(s, value);
      assert s.producer.StoredValue? ==> s'.Queue() == s.Queue() + [s.producer.value];
    case Consume(movedFrom) =>
      ConsumerKeepsFifo(s, movedFrom);
      assert s.consumer.TookValue? ==> s'.Queue() == s.Queue()[1..];
  }

  // ---------------------------------------------------------------- the ring object

  /** The producer running TryEmplace to its end without interruption. */
  function Emplace<T>(s: Ring<T>, value: T): (s': Ring<T>)
    requires s.InBounds() && s.producer.Idle?
    ensures s'.InBounds() && s'.Capacity() == s.Capacity()
  {
    var checked := ProducerStep(ProducerStep(s, value), value);
    if checked.producer.Refused? then checked else ProducerStep(ProducerStep(checked, value), value)
  }

  /** The consumer running TryPop to its end without interruption. */
  function Pop<T>(s: Ring<T>, movedFrom: T): (s': Ring<T>)
    requires s.InBounds() && s.consumer.Waiting?
    ensures s'.InBounds() && s'.Capacity() == s.Capacity()
  {
    var checked := ConsumerStep(ConsumerStep(s, movedFrom), movedFrom);
    if checked.consumer.FoundNothing? then checked else ConsumerStep(ConsumerStep(checked, movedFrom), movedFrom)
  }

  lemma EmplaceKeepsFifo<T>(s: Ring<T>, value: T)
    requires Fifo(s) && s.producer.Idle?
    ensures Fifo(Emplace(s, value).(producer := Idle))
  {
    var loaded := ProducerStep(s, value);
    ProducerKeepsFifo(s, value);
    ProducerKeepsFifo(loaded, value);
    var checked := ProducerStep(loaded, value);
    if !checked.producer.Refused? {
      ProducerKeepsFifo(checked, value);
      ProducerKeepsFifo(ProducerStep(checked, value), value);
    }
  }

  lemma PopKeepsFifo<T>(s: Ring<T>, movedFrom: T)
    requires Fifo(s) && s.consumer.Waiting?
    ensures Fifo(Pop(s, movedFrom).(consumer := Waiting))
  {
    var loaded := ConsumerStep(s, movedFrom);
    ConsumerKeepsFifo(s, movedFrom);
    ConsumerKeepsFifo(loaded, movedFrom);
    var checked := ConsumerStep(loaded, movedFrom);
    if !checked.consumer.FoundNothing? {
      ConsumerKeepsFifo(checked, movedFrom);
      ConsumerKeepsFifo(ConsumerStep(checked, movedFrom), movedFrom);
    }
  }

  /** Uninterrupted, the producer appends its value to the queue, unless that is full. */
  lemma EmplaceAppends<T>(s: Ring<T>, value: T)
    requires Fifo(s) && s.producer.Idle?
    ensures var s' := Emplace(s, value);
            && (s'.producer.Refused? <==> |s.Queue()| == s.Capacity() - 1)
            && s'.Queue() == s.Queue() + (if s'.producer.Refused? then [] else [value]) && s'.popped == s.popped
  {
    IndicesTellOccupancy(s);
  }

  /** Uninterrupted, the consumer takes the first value of the queue, unless that is empty. */
  lemma PopTakesFirst<T>(s: Ring<T>, movedFrom: T)
    requires Fifo(s) && s.consumer.Waiting?
    ensures var s' := Pop(s, movedFrom);
            && (s'.consumer.FoundNothing? <==> s.Queue() == [])
            && s'.Queue() == (if s.Queue() == [] then [] else s.Queue()[1..]) && s'.pushed == s.pushed
            && s'.popped == s.popped + (if s.Queue() == [] then [] else [s.Queue()[0]])
  {
    IndicesTellOccupancy(s);
    if s.Queue() != [] {
      assert Holds(s.data, s.pushed, |s.popped|);
    }
  }

  /** The ring as its own threads see it when they do not interrupt each other. */
  class SpscRing<T(0)> {
    const data: array<T>
    var write: nat
    var read: nat
    ghost var pushed: seq<T>
    ghost var popped: seq<T>

    ghost function View(): Ring<T>
      reads this, data
    {
      Ring(data[..], write, read, Idle, Waiting, pushed, popped)
    }

    ghost predicate Valid()
      reads this, data
    {
      Fifo(View())
    }

    constructor (capacity: nat)
      requires capacity >= 2
      ensures Valid() && pushed == popped == [] && data.Length == capacity && fresh(data)
    {
      data := new T[capacity];
      write, read, pushed, popped := 0, 0, [], [];
    }

    method TryEmplace(value: T) returns (ok: bool)
      requires Valid()
      modifies this, data
      ensures Valid() && View() == Emplace(old(View()), value).(producer := Idle)
      ensures ok <==> !Emplace(old(View()), value).producer.Refused?
      ensures ok <==> |old(View()).Queue()| < data.Length - 1
      ensures View().Queue() == old(View()).Queue() + if ok then [value] else []
    {
      EmplaceKeepsFifo(View(), value);
      EmplaceAppends(View(), value);
      var next := Next(write, data.Length);
      if next == read {
        return false;
      }
      data[write] := value;
      write := next;
      pushed := pushed + [value];
      return true;
    }

    method TryPop(movedFrom: T) returns (ok: bool, value: T)
      requires Valid()
      modifies this, data
      ensures Valid() && View() == Pop(old(View()), movedFrom).(consumer := Waiting)
      ensures ok <==> !Pop(old(View()), movedFrom).consumer.FoundNothing?
      ensures ok ==> popped == old(popped) + [value]
    {
      PopKeepsFifo(View(), movedFrom);
      if read == write {
        return false, movedFrom;
      }
      value := data[read];
      data[read] := movedFrom;
      read := Next(read, data.Length);
      popped := popped + [value];
      ok := true;
    }

    method Size() returns (size: nat)
      requires Valid()
      ensures |popped| <= |pushed| && size == |View().Queue()|
    {
      IndicesTellOccupancy(View());
      size := SizeOf(write, read, data.Length);
    }
  }

  /** The distance from the read to the write index. */
  function SizeOf(write: nat, read: nat, capacity: nat): nat
    requires write < capacity && read < capacity
  {
    if write >= read then write - read else write + capacity - read
  }
}
