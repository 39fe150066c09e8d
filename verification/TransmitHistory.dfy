/**
 What the transmit hand-off delivers, told from the choices of a run: which
 captured frames are queued, which queued frames are sent, and which word the
 worker and the network thread go by.
 */
module TransmitHistories {
  import opened Basics
  import opened TransmitProtocol

  // ---------------------------------------------------------------- the words the threads go by

  /** The content of the shared word after the choices. */
  function Word(choices: seq<Choice>): TransmitState {
    Run(choices).shared
  }

  /** The word as the network thread saw it when it last looked. */
  function NetworkWord(choices: seq<Choice>): TransmitState {
    if choices == [] then TransmitState(0, false) else
    var earlier := choices[..|choices| - 1];
    if choices[|choices| - 1].NetworkTake? then Word(earlier) else NetworkWord(earlier)
  }

  /** The worker: the word it last acted on, and, while in ProcessCapture, the word it has loaded or that it is capturing. */
  datatype Worker = Worker(word: TransmitState, phase: WorkerPhase)

  /** It acts on the word it loaded, and captures if that has transmission on or the microphone is monitored. */
  function WorkerTold(choices: seq<Choice>): Worker {
    if choices == [] then Worker(TransmitState(0, false), Outside) else
    var earlier := choices[..|choices| - 1];
    var worker := WorkerTold(earlier);
    match choices[|choices| - 1]
    case WorkerLoad => if worker.phase.Outside? then worker.(phase := Loaded(Word(earlier))) else worker
    case WorkerAdopt(_, monitoring) =>
      if !worker.phase.Loaded? then worker
      else Worker(worker.phase.desired, if worker.phase.desired.enabled || monitoring then Capturing else Outside)
    case WorkerReturn => if worker.phase.Capturing? then worker.(phase := Outside) else worker
    case _ => worker
  }

  // ---------------------------------------------------------------- what is captured and queued

  /** The worker takes up a word of another revision, or the monitor has changed. */
  predicate Restarts(worker: Worker, choice: Choice) {
    choice.WorkerAdopt? && worker.phase.Loaded? && (worker.phase.desired.revision != worker.word.revision || choice.monitorChanged)
  }

  /** How many frames of voice have been captured since talking last began. */
  function Burst(choices: seq<Choice>): nat {
    if choices == [] then 0 else
    var earlier, choice := choices[..|choices| - 1], choices[|choices| - 1];
    var worker := WorkerTold(earlier);
    if choice.WorkerFrame? && worker.phase.Capturing? then (if choice.voice then Burst(earlier) + 1 else 0)
    else if Restarts(worker, choice) then 0
    else Burst(earlier)
  }

  /** The frame a choice produces for the queue: voice while transmission is on, or the end of talk that was transmitted. */
  function Produced(worker: Worker, burst: nat, choice: Choice): Option<Frame> {
    if !worker.word.enabled then None
    else if choice.WorkerFrame? && worker.phase.Capturing? then
      if choice.voice then Some(Frame(worker.word.revision, burst < TALK_START_PACKETS, false, burst))
      else if burst > 0 then Some(Frame(worker.word.revision, false, true, 0)) else None
    else if Restarts(worker, choice) && burst > 0 then Some(Frame(worker.phase.desired.revision, false, true, 0))
    else None
  }

  /** Everything queued: what was produced while the queue had room. */
  function QueuedFrames(choices: seq<Choice>): seq<Frame> {
    if choices == [] then [] else
    var earlier := choices[..|choices| - 1];
    var produced := Produced(WorkerTold(earlier), Burst(earlier), choices[|choices| - 1]);
    QueuedFrames(earlier) +
    if produced.Some? && |QueuedFrames(earlier)| - |PoppedFrames(earlier)| < OUTGOING_LIMIT then [produced.value] else []
  }

  // ---------------------------------------------------------------- what is popped and sent

  /** Everything popped, in the order of the queue, with the word the network thread went by. */
  function PoppedFrames(choices: seq<Choice>): seq<Sent> {
    if choices == [] then [] else
    var earlier := choices[..|choices| - 1];
    var popped := PoppedFrames(earlier);
    if choices[|choices| - 1].NetworkPop? && |popped| < |QueuedFrames(earlier)|
    then popped + [Sent(QueuedFrames(earlier)[|popped|], NetworkWord(earlier))]
    else popped
  }

  /** A frame goes out if it was made for the word the network thread goes by, and transmission is on or it ends talk. */
  predicate GoesOut(popped: Sent) {
    popped.frame.revision == popped.adopted.revision && (popped.frame.talkEnd || popped.adopted.enabled)
  }

  function SentOf(popped: seq<Sent>): seq<Sent> {
    if popped == [] then [] else
    SentOf(popped[..|popped| - 1]) + if GoesOut(popped[|popped| - 1]) then [popped[|popped| - 1]] else []
  }

  // ---------------------------------------------------------------- the protocol does just that

  /** The world is what the choices say. */
  ghost predicate Told(choices: seq<Choice>, w: World) {
    && Invariant(w) && w.shared == Word(choices)
    && w.network == NetworkWord(choices)
    && Worker(w.worker, w.phase) == WorkerTold(choices)
    && (w.talking <==> Burst(choices) > 0) && (w.talking ==> w.spoken == Burst(choices))
    && |PoppedFrames(choices)| <= |QueuedFrames(choices)|
    && w.outgoing == QueuedFrames(choices)[|PoppedFrames(choices)|..]
    && w.sent == SentOf(PoppedFrames(choices))
  }

  /** Equal revisions mean equal words. */
  lemma SameRevision(a: TransmitState, b: TransmitState, latest: nat)
    requires Consistent(a, latest) && Consistent(b, latest) && a.revision == b.revision
    ensures a == b
  {
  }

  lemma StepTakes(w: World, choice: Choice)
    requires Invariant(w)
    ensures Step(w, choice).network == if choice.NetworkTake? then w.shared else w.network
  {
    if choice.NetworkTake? && w.shared.revision == w.taken {
      SameRevision(w.shared, w.network, w.shared.revision);
    }
  }

  lemma StepAdopts(w: World, choice: Choice)
    requires Invariant(w)
    ensures Step(w, choice).worker == if choice.WorkerAdopt? && w.phase.Loaded? then w.phase.desired else w.worker
    ensures Step(w, choice).phase ==
            match choice
            case WorkerLoad => if w.phase.Outside? then Loaded(w.shared) else w.phase
            case WorkerAdopt(_, monitoring) =>
              if !w.phase.Loaded? then w.phase else if w.phase.desired.enabled || monitoring then Capturing else Outside
            case WorkerReturn => if w.phase.Capturing? then Outside else w.phase
            case _ => w.phase
  {
    if choice.WorkerAdopt? && w.phase.Loaded? && w.phase.desired.revision == w.worker.revision {
      SameRevision(w.phase.desired, w.worker, w.shared.revision);
    }
  }

  /** What a step of the world does to talk and to the queue. */
  lemma StepProduces(w: World, burst: nat, choice: Choice)
    requires Invariant(w) && (w.talking <==> burst > 0) && (w.talking ==> w.spoken == burst)
    ensures var worker, w' := Worker(w.worker, w.phase), Step(w, choice);
            var burst' := if choice.WorkerFrame? && w.phase.Capturing? then (if choice.voice then burst + 1 else 0)
                          else if Restarts(worker, choice) then 0 else burst;
            var produced := Produced(worker, burst, choice);
            && (w'.talking <==> burst' > 0) && (w'.talking ==> w'.spoken == burst')
            && (!choice.NetworkPop? ==>
                  w'.outgoing == w.outgoing + if produced.Some? && |w.outgoing| < OUTGOING_LIMIT then [produced.value] else [])
            && (choice.NetworkPop? ==> w'.outgoing == if w.outgoing == [] then [] else w.outgoing[1..])
  {
  }

  lemma StepSends(w: World, choice: Choice)
    ensures Step(w, choice).sent == w.sent +
            if choice.NetworkPop? && w.outgoing != [] && GoesOut(Sent(w.outgoing[0], w.network))
            then [Sent(w.outgoing[0], w.network)] else []
  {
  }

  lemma QueueNext(queued: seq<Frame>, popped: nat, more: seq<Frame>)
    requires popped <= |queued|
    ensures (queued + more)[popped..] == queued[popped..] + more
    ensures popped < |queued| ==> queued[popped..][0] == queued[popped] && queued[popped..][1..] == queued[popped + 1..]
  {
  }

  lemma ToldNext(choices: seq<Choice>, choice: Choice, w: World)
    requires Told(choices, w) && Run(choices) == w && Invariant(Step(w, choice))
    ensures Told(choices + [choice], Step(w, choice))
  {
    assert (choices + [choice])[..|choices|] == choices;
    StepTakes(w, choice);
    StepAdopts(w, choice);
    StepProduces(w, Burst(choices), choice);
    StepSends(w, choice);
    var queued, popped := QueuedFrames(choices), PoppedFrames(choices);
    QueueNext(queued, |popped|, QueuedFrames(choices + [choice])[|queued|..]);
  }

  /**
   Over every interleaving: the threads act on the words they have seen, the
   queue holds what was queued and not yet popped, and exactly the popped frames
   that may go out have been sent, in order.
   */
  lemma {:induction false} EveryRunIsTold(choices: seq<Choice>)
    ensures Told(choices, Run(choices))
  {
    EveryRunKeepsInvariant(choices);
    if choices != [] {
      var earlier, last := choices[..|choices| - 1], choices[|choices| - 1];
      EveryRunIsTold(earlier);
      LastApart(choices);
      ToldNext(earlier, last, Run(earlier));
    }
  }

  /** The frames popped are the first of those queued. */
  lemma {:induction false} PoppedWereQueued(choices: seq<Choice>, i: nat)
    requires i < |PoppedFrames(choices)|
    ensures i < |QueuedFrames(choices)| && PoppedFrames(choices)[i].frame == QueuedFrames(choices)[i]
  {
    EveryRunIsTold(choices);
    var earlier := choices[..|choices| - 1];
    if i < |PoppedFrames(earlier)| {
      PoppedWereQueued(earlier, i);
    }
  }

  /** A frame is sent if and only if it is popped and may go out. */
  lemma {:induction false} SentMeaning(popped: seq<Sent>, s: Sent)
    ensures s in SentOf(popped) <==> s in popped && GoesOut(s)
  {
    if popped != [] {
      SentMeaning(popped[..|popped| - 1], s);
      LastApart(popped);
    }
  }

  /**
   A thread inside SetTransmitEnabled leaves exactly when the word is as it
   wants, its own exchange included; and the exchange succeeds exactly if the
   word is still the one it saw and no spurious failure occurs.
   */
  lemma ToggleLeavesSatisfied(w: World, choice: Choice, thread: nat)
    requires SwitchInvariant(w) && thread in w.toggles
    ensures var w', toggle := Step(w, choice), w.toggles[thread];
            var tries := choice.ToggleExchange? && choice.thread == thread;
            var succeeds := tries && !choice.spuriousFailure && toggle.seen == w.shared;
            && (succeeds ==> w'.shared == TransmitState(w.shared.revision + 1, toggle.wanted))
            && (tries && !succeeds ==> w'.shared == w.shared)
            && (thread in w'.toggles ==> w'.toggles[thread] == if tries then Toggle(toggle.wanted, w.shared) else toggle)
            && (thread !in w'.toggles <==> tries && w'.shared.enabled == toggle.wanted)
  {
  }

  /** A thread that enters leaves at once if the word is as it wants, and otherwise tries to change the word it saw. */
  lemma ToggleEnters(w: World, thread: nat, wanted: bool)
    requires thread !in w.toggles
    ensures var w' := Step(w, ToggleLoad(thread, wanted));
            && w'.shared == w.shared && (thread in w'.toggles <==> w.shared.enabled != wanted)
            && (thread in w'.toggles ==> w'.toggles[thread] == Toggle(wanted, w.shared))
  {
  }
}
