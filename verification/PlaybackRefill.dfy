/**
 The audio worker keeps mixed frames queued for the output device: it measures
 the playback ring and pushes until the target is reached, ignoring the result
 of each push, while the device's thread pops at any time.
 */
module PlaybackRefills {
  import opened Basics
  import opened SpscRings

  const SAMPLES_PER_FRAME := 960
  const PLAYBACK_QUEUE_CAPACITY := 32

  /** How many frames to keep queued for a device that asks for so many samples at a time. */
  function PlaybackBufferFrames(requestSamples: nat): nat {
    var frames := (requestSamples + SAMPLES_PER_FRAME - 1) / SAMPLES_PER_FRAME + 1;
    if frames < 2 then 2 else if frames > PLAYBACK_QUEUE_CAPACITY - 1 then PLAYBACK_QUEUE_CAPACITY - 1 else frames
  }

  /** The target fits the ring; unless the ring limits it, it is the least that answers a request with a frame to spare. */
  lemma BufferAnswersRequest(requestSamples: nat)
    ensures var frames := PlaybackBufferFrames(requestSamples);
            && 2 <= frames <= PLAYBACK_QUEUE_CAPACITY - 1
            && (frames < PLAYBACK_QUEUE_CAPACITY - 1 ==> frames * SAMPLES_PER_FRAME >= requestSamples + SAMPLES_PER_FRAME)
            && (frames > 2 ==> (frames - 1) * SAMPLES_PER_FRAME < requestSamples + SAMPLES_PER_FRAME)
  {
  }

  /** Where the worker is in its refill loop. */
  datatype Phase = Measure | Measuring(write: nat) | Mix | Push | Done

  /** The ring, the worker's position, and all frames it has mixed for delivery. */
  datatype Refill<T> = Refill(ring: Ring<T>, phase: Phase, target: nat, mixed: seq<T>) {
    predicate InBounds() {
      ring.InBounds() && (phase.Measuring? ==> phase.write < ring.Capacity())
    }
  }

  /** The worker's next step; `frame` is what the mixer would produce. */
  function WorkerStep<T>(s: Refill<T>, frame: T): (s': Refill<T>)
    requires s.InBounds()
    ensures s'.InBounds()
  {
    match s.phase
    case Measure => s.(phase := Measuring(s.ring.write))
    case Measuring(w) => s.(phase := if SizeOf(w, s.ring.read, s.ring.Capacity()) < s.target then Mix else Done)
    case Mix => s.(ring := ProducerStep(s.ring, frame), phase := Push, mixed := s.mixed + [frame])
    case Push =>
      var ring := ProducerStep(s.ring, frame);
      s.(ring := ring, phase := if ring.producer.Idle? || ring.producer.Refused? then Measure else Push)
    case Done => s
  }

  /** The value the producer has in hand. */
  function InHand<T>(p: Producer<T>): seq<T> {
    match p
    case LoadedWrite(v, _) => [v]
    case FoundRoom(v, _) => [v]
    case StoredValue(v, _) => [v]
    case _ => []
  }

  ghost predicate OnTarget<T>(s: Refill<T>) {
    && Fifo(s.ring) && s.target <= s.ring.Capacity() - 1
    && s.mixed == s.ring.pushed + InHand(s.ring.producer)
    && !s.ring.producer.Refused? && (s.phase.Push? <==> !s.ring.producer.Idle?)
    && (s.phase.Measuring? ==> s.phase.write == s.ring.write)
    && (s.phase.Mix? || s.phase.Push? ==> |s.ring.Queue()| < s.target)
  }

  lemma WorkerStaysOnTarget<T>(s: Refill<T>, frame: T)
    requires OnTarget(s)
    ensures OnTarget(WorkerStep(s, frame))
  {
    IndicesTellOccupancy(s.ring);
    if s.phase.Mix? || s.phase.Push? {
      ProducerKeepsFifo(s.ring, frame);
    }
    assert s.ring.pushed + [] == s.ring.pushed;
  }

  lemma DeviceKeepsTarget<T>(s: Refill<T>, movedFrom: T)
    requires OnTarget(s)
    ensures OnTarget(s.(ring := ConsumerStep(s.ring, movedFrom)))
  {
    ConsumerKeepsFifo(s.ring, movedFrom);
  }

  function Step<T>(s: Refill<T>, choice: Choice<T>): (s': Refill<T>)
    requires s.InBounds()
    ensures s'.InBounds()
  {
    match choice
    case Produce(frame) => WorkerStep(s, frame)
    case Consume(movedFrom) => s.(ring := ConsumerStep(s.ring, movedFrom))
  }

  function Run<T>(s: Refill<T>, choices: seq<Choice<T>>): (s': Refill<T>)
    requires s.InBounds()
    ensures s'.InBounds()
  {
    if choices == [] then s else Step(Run(s, choices[..|choices| - 1]), choices[|choices| - 1])
  }

  /**
   However the device pops, the worker's pushes are never refused: every frame
   mixed for delivery is in the ring, on its way into it, or played.
   */
  lemma {:induction false} NoFrameIsRefused<T>(s: Refill<T>, choices: seq<Choice<T>>)
    requires OnTarget(s)
    ensures OnTarget(Run(s, choices))
  {
    if choices != [] {
      var middle := Run(s, choices[..|choices| - 1]);
      NoFrameIsRefused(s, choices[..|choices| - 1]);
      match choices[|choices| - 1]
      case Produce(frame) => WorkerStaysOnTarget(middle, frame);
      case Consume(movedFrom) => DeviceKeepsTarget(middle, movedFrom);
    }
  }

  // ---------------------------------------------------------------- the worker alone

  function Alone<T>(s: Refill<T>, frame: T, steps: nat): (s': Refill<T>)
    requires s.InBounds()
    ensures s'.InBounds()
  {
    if steps == 0 then s else WorkerStep(Alone(s, frame, steps - 1), frame)
  }

  lemma {:induction false} AloneAdds<T>(s: Refill<T>, frame: T, m: nat, n: nat)
    requires s.InBounds()
    ensures Alone(s, frame, m + n) == Alone(Alone(s, frame, m), frame, n)
  {
    if n > 0 {
      AloneAdds(s, frame, m, n - 1);
    }
  }

  /** One round of the loop: measure, mix, push. */
  lemma OneRound<T>(s: Refill<T>, frame: T)
    requires OnTarget(s) && s.phase.Measure? && |s.ring.Queue()| < s.target
    ensures var s' := Alone(s, frame, 6);
            && OnTarget(s') && s'.phase.Measure? && s'.target == s.target
            && s'.ring.pushed == s.ring.pushed + [frame] && s'.ring.popped == s.ring.popped
  {
    var s1 := WorkerStep(s, frame);
    var s2 := WorkerStep(s1, frame);
    var s3 := WorkerStep(s2, frame);
    var s4 := WorkerStep(s3, frame);
    var s5 := WorkerStep(s4, frame);
    IndicesTellOccupancy(s.ring);
    WorkerStaysOnTarget(s, frame);
    WorkerStaysOnTarget(s1, frame);
    WorkerStaysOnTarget(s2, frame);
    WorkerStaysOnTarget(s3, frame);
    WorkerStaysOnTarget(s4, frame);
    WorkerStaysOnTarget(s5, frame);
    assert Alone(s, frame, 1) == s1;
    assert Alone(s, frame, 2) == s2;
    assert Alone(s, frame, 3) == s3;
    assert Alone(s, frame, 4) == s4;
    assert Alone(s, frame, 5) == s5;
  }

  /** At the target, the next measurement ends the loop. */
  lemma LastMeasurement<T>(s: Refill<T>, frame: T)
    requires OnTarget(s) && s.phase.Measure? && |s.ring.Queue()| == s.target
    ensures Alone(s, frame, 2) == s.(phase := Done)
  {
    IndicesTellOccupancy(s.ring);
    assert Alone(s, frame, 1) == WorkerStep(s, frame);
  }

  /** With no device activity the loop ends once it has pushed exactly what was short of the target. */
  lemma {:induction false} RefillEnds<T>(s: Refill<T>, frame: T, short: nat)
    requires OnTarget(s) && s.phase.Measure? && |s.ring.Queue()| + short == s.target
    ensures var s' := Alone(s, frame, 6 * short + 2);
            && s'.phase.Done? && |s'.ring.pushed| == |s.ring.pushed| + short && s'.ring.popped == s.ring.popped
            && |s'.ring.Queue()| == s.target
    decreases short
  {
    if short == 0 {
      LastMeasurement(s, frame);
    } else {
      OneRound(s, frame);
      RoundAdds(s, frame, short);
      RefillEnds(Alone(s, frame, 6), frame, short - 1);
    }
  }

  lemma RoundAdds<T>(s: Refill<T>, frame: T, short: nat)
    requires s.InBounds() && short > 0
    ensures Alone(s, frame, 6 * short + 2) == Alone(Alone(s, frame, 6), frame, 6 * (short - 1) + 2)
  {
    AloneAdds(s, frame, 6, 6 * (short - 1) + 2);
  }
}
