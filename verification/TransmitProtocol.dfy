/**
 The hand-off of encoded voice frames from the audio worker to the network
 thread, while any number of threads switch transmission on and off. Each
 transition is one atomic access to shared state together with the local work
 up to the next.
 */
module TransmitProtocol {
  import opened Basics

  const OUTGOING_LIMIT := 15
  const TALK_START_PACKETS := 5

  /** The content of the atomic transmit word: a revision above an enabled bit. */
  datatype TransmitState = TransmitState(revision: nat, enabled: bool)

  /** A frame in the outgoing queue; `position` records how many frames of the same burst of talk preceded it. */
  datatype Frame = Frame(revision: nat, talkStart: bool, talkEnd: bool, position: nat)

  /** A thread inside SetTransmitEnabled: what it wants and the word it last saw. */
  datatype Toggle = Toggle(wanted: bool, seen: TransmitState)

  /** Where the worker is in ProcessCapture. */
  datatype WorkerPhase = Outside | Loaded(desired: TransmitState) | Capturing

  /** A frame given to the connection, with what the network thread had adopted then. */
  datatype Sent = Sent(frame: Frame, adopted: TransmitState)

  datatype World = World(
    shared: TransmitState, toggles: map<nat, Toggle>, switches: nat,
    worker: TransmitState, phase: WorkerPhase, talking: bool, talkStartRemaining: nat, spoken: nat,
    outgoing: seq<Frame>,
    taken: nat, network: TransmitState, sent: seq<Sent>, mutedDrops: nat)

  const START := World(TransmitState(1, false), map[], 0,
                       TransmitState(0, false), Outside, false, 0, 0, [],
                       0, TransmitState(0, false), [], 0)

  datatype Choice =
    // any thread inside SetTransmitEnabled
    | ToggleLoad(thread: nat, wanted: bool)
    | ToggleExchange(thread: nat, spuriousFailure: bool)
    // the audio worker
    | WorkerLoad
    | WorkerAdopt(monitorChanged: bool, monitoring: bool)
    | WorkerFrame(voice: bool)
    | WorkerReturn
    // the network thread
    | NetworkTake
    | NetworkPop

  function Queued(w: World, frame: Frame): World {
    if |w.outgoing| < OUTGOING_LIMIT then w.(outgoing := w.outgoing + [frame]) else w
  }

  function EndOfTalk(revision: nat): Frame {
    Frame(revision, false, true, 0)
  }

  /** A thread outside SetTransmitEnabled enters it; it leaves at once if there is nothing to switch. */
  function ToggleStep(w: World, thread: nat, wanted: bool): World {
    if w.shared.enabled == wanted then w.(toggles := w.toggles - {thread})
    else w.(toggles := w.toggles[thread := Toggle(wanted, w.shared)])
  }

  /** The compare-exchange: on failure the word seen is refreshed and the loop goes on. */
  function ExchangeStep(w: World, thread: nat, spuriousFailure: bool): World {
    if thread !in w.toggles then w else
    var toggle := w.toggles[thread];
    if spuriousFailure || toggle.seen != w.shared then ToggleStep(w, thread, toggle.wanted)
    else w.(shared := TransmitState(toggle.seen.revision + 1, toggle.wanted),
            switches := w.switches + 1, toggles := w.toggles - {thread})
  }

  function AdoptStep(w: World, desired: TransmitState, monitorChanged: bool, monitoring: bool): World {
    var adopted :=
      if desired.revision != w.worker.revision || monitorChanged then
        var reset := w.(worker := desired, talking := false, talkStartRemaining := 0);
        if w.talking && w.worker.enabled then Queued(reset, EndOfTalk(desired.revision)) else reset
      else w;
    adopted.(phase := if !adopted.worker.enabled && !monitoring then Outside else Capturing)
  }

  /** One captured frame, which the gate takes for voice or not. */
  function FrameStep(w: World, voice: bool): World {
    if !voice then
      var quiet := w.(talking := false, talkStartRemaining := if w.talking then 0 else w.talkStartRemaining);
      if w.talking && w.worker.enabled then Queued(quiet, EndOfTalk(w.worker.revision)) else quiet
    else
      var remaining := if w.talking then w.talkStartRemaining else TALK_START_PACKETS;
      var position := if w.talking then w.spoken else 0;
      var encoded := Frame(w.worker.revision, remaining != 0, false, position);
      var talked := w.(talking := true, talkStartRemaining := if remaining != 0 then remaining - 1 else 0,
                       spoken := position + 1);
      if w.worker.enabled then Queued(talked, encoded) else talked
  }

  function TakeStep(w: World): World {
    if w.shared.revision == w.taken then w
    else w.(taken := w.shared.revision, network := w.shared)
  }

  /** Pop one frame, if any, and send it unless it is stale or transmission is off. */
  function PopStep(w: World): World {
    if w.outgoing == [] then w else
    var frame := w.outgoing[0];
    var popped := w.(outgoing := w.outgoing[1..]);
    if frame.revision != w.network.revision then popped
    else if !w.network.enabled && !frame.talkEnd then popped.(mutedDrops := w.mutedDrops + 1)
    else popped.(sent := w.sent + [Sent(frame, w.network)])
  }

  function Step(w: World, choice: Choice): World {
    match choice
    case ToggleLoad(thread, wanted) => if thread in w.toggles then w else ToggleStep(w, thread, wanted)
    case ToggleExchange(thread, spuriousFailure) => ExchangeStep(w, thread, spuriousFailure)
    case WorkerLoad => if w.phase.Outside? then w.(phase := Loaded(w.shared)) else w
    case WorkerAdopt(monitorChanged, monitoring) =>
      if w.phase.Loaded? then AdoptStep(w, w.phase.desired, monitorChanged, monitoring) else w
    case WorkerFrame(voice) => if w.phase.Capturing? then FrameStep(w, voice) else w
    case WorkerReturn => if w.phase.Capturing? then w.(phase := Outside) else w
    case NetworkTake => TakeStep(w)
    case NetworkPop => PopStep(w)
  }

  function Run(choices: seq<Choice>): World {
    if choices == [] then START else Step(Run(choices[..|choices| - 1]), choices[|choices| - 1])
  }

  // ---------------------------------------------------------------- the invariant

  /** Whether transmission is on is a function of the revision. */
  predicate EnabledAt(revision: nat) {
    revision > 0 && revision % 2 == 0
  }

  predicate Consistent(s: TransmitState, latest: nat) {
    s.revision <= latest && (s.enabled <==> EnabledAt(s.revision))
  }

  /**
   A frame other than an end marker was encoded while its revision had
   transmission on, and is marked as a start exactly among the first of its burst.
   */
  predicate Honest(frame: Frame, latest: nat) {
    && frame.revision <= latest
    && (!frame.talkEnd ==> EnabledAt(frame.revision) && (frame.talkStart <==> frame.position < TALK_START_PACKETS))
  }

  predicate Admissible(s: Sent) {
    && s.frame.revision == s.adopted.revision
    && (!s.frame.talkEnd ==> s.adopted.enabled && EnabledAt(s.frame.revision) && (s.frame.talkStart <==> s.frame.position < TALK_START_PACKETS))
  }

  ghost predicate Ascending(frames: seq<Frame>) {
    forall i, j :: 0 <= i < j < |frames| ==> frames[i].revision <= frames[j].revision
  }

  ghost predicate SwitchInvariant(w: World) {
    && w.shared.revision == w.switches + 1 && Consistent(w.shared, w.shared.revision)
    && (forall t :: t in w.toggles ==> Consistent(w.toggles[t].seen, w.shared.revision)
                                       && w.toggles[t].wanted != w.toggles[t].seen.enabled)
  }

  ghost predicate WorkerInvariant(w: World) {
    && Consistent(w.worker, w.shared.revision)
    && (w.phase.Loaded? ==> Consistent(w.phase.desired, w.shared.revision) && w.worker.revision <= w.phase.desired.revision)
    && Ascending(w.outgoing)
    && (forall i :: 0 <= i < |w.outgoing| ==> Honest(w.outgoing[i], w.worker.revision))
    && |w.outgoing| <= OUTGOING_LIMIT
    && (w.talking ==> w.talkStartRemaining == if w.spoken < TALK_START_PACKETS then TALK_START_PACKETS - w.spoken else 0)
  }

  ghost predicate NetworkInvariant(w: World) {
    && Consistent(w.network, w.shared.revision) && w.taken == w.network.revision
    && (forall i :: 0 <= i < |w.sent| ==> Admissible(w.sent[i]) && w.sent[i].adopted.revision <= w.network.revision)
    && (forall i, j :: 0 <= i < j < |w.sent| ==> w.sent[i].adopted.revision <= w.sent[j].adopted.revision)
    && w.mutedDrops == 0
  }

  ghost predicate Invariant(w: World) {
    SwitchInvariant(w) && WorkerInvariant(w) && NetworkInvariant(w)
  }

  lemma {:induction false} AdoptKeepsInvariant(w: World, monitorChanged: bool, monitoring: bool)
    requires WorkerInvariant(w) && w.phase.Loaded?
    ensures WorkerInvariant(AdoptStep(w, w.phase.desired, monitorChanged, monitoring))
  {
  }

  lemma {:induction false} FrameKeepsInvariant(w: World, voice: bool)
    requires WorkerInvariant(w) && !w.phase.Loaded?
    ensures WorkerInvariant(FrameStep(w, voice))
  {
  }

  lemma {:induction false} WorkerKeepsInvariant(w: World, choice: Choice)
    requires Invariant(w) && (choice.WorkerLoad? || choice.WorkerAdopt? || choice.WorkerFrame? || choice.WorkerReturn?)
    ensures Invariant(Step(w, choice))
  {
    match choice
    case WorkerAdopt(monitorChanged, monitoring) =>
      if w.phase.Loaded? {
        AdoptKeepsInvariant(w, monitorChanged, monitoring);
      }
    case WorkerFrame(voice) =>
      if w.phase.Capturing? {
        FrameKeepsInvariant(w, voice);
      }
    case _ =>
  }

  lemma {:induction false} TogglesSwitchOneByOne(w: World, choice: Choice)
    requires SwitchInvariant(w) && (choice.ToggleLoad? || choice.ToggleExchange?)
    ensures var w' := Step(w, choice);
            && SwitchInvariant(w') && w.shared.revision <= w'.shared.revision
            && w' == w.(shared := w'.shared, toggles := w'.toggles, switches := w'.switches)
  {
  }

  /** Later revisions of the shared word do not disturb the worker or the network thread. */
  lemma {:induction false} OthersUnaffected(w: World, w': World)
    requires WorkerInvariant(w) && NetworkInvariant(w) && w.shared.revision <= w'.shared.revision
    requires w' == w.(shared := w'.shared, toggles := w'.toggles, switches := w'.switches)
    ensures WorkerInvariant(w') && NetworkInvariant(w')
  {
  }

  lemma {:induction false} TogglesKeepInvariant(w: World, choice: Choice)
    requires Invariant(w) && (choice.ToggleLoad? || choice.ToggleExchange?)
    ensures Invariant(Step(w, choice))
  {
    TogglesSwitchOneByOne(w, choice);
    OthersUnaffected(w, Step(w, choice));
  }

  lemma {:induction false} NetworkKeepsInvariant(w: World, choice: Choice)
    requires Invariant(w) && (choice.NetworkTake? || choice.NetworkPop?)
    ensures Invariant(Step(w, choice))
  {
    if choice.NetworkPop? && w.outgoing != [] {
      assert Honest(w.outgoing[0], w.worker.revision);
    }
  }

  /** The invariant holds over every interleaving of toggles, worker and network. */
  lemma {:induction false} EveryRunKeepsInvariant(choices: seq<Choice>)
    ensures Invariant(Run(choices))
  {
    if choices != [] {
      var w, choice := Run(choices[..|choices| - 1]), choices[|choices| - 1];
      EveryRunKeepsInvariant(choices[..|choices| - 1]);
      if choice.ToggleLoad? || choice.ToggleExchange? {
        TogglesKeepInvariant(w, choice);
      } else if choice.NetworkTake? || choice.NetworkPop? {
        NetworkKeepsInvariant(w, choice);
      } else {
        WorkerKeepsInvariant(w, choice);
      }
    }
  }

  /**
   Every voice frame sent was encoded under the very revision the network thread
   had adopted, and that revision had transmission on; the check for muted
   frames therefore never drops one; and each switch advanced the revision by one.
   */
  lemma {:induction false} NoFrameEscapesMute(choices: seq<Choice>, i: nat)
    ensures var w := Run(choices);
            && w.shared.revision == w.switches + 1 && (w.shared.enabled <==> EnabledAt(w.shared.revision))
            && w.mutedDrops == 0
            && (i < |w.sent| && !w.sent[i].frame.talkEnd ==>
                  w.sent[i].frame.revision == w.sent[i].adopted.revision && w.sent[i].adopted.enabled
                  && EnabledAt(w.sent[i].frame.revision)
                  && (w.sent[i].frame.talkStart <==> w.sent[i].frame.position < TALK_START_PACKETS))
  {
    EveryRunKeepsInvariant(choices);
    var w := Run(choices);
    if i < |w.sent| {
      assert Admissible(w.sent[i]);
    }
  }
}
