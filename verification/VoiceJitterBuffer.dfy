/** Reordering of one talker's voice frames over wrapping 16-bit ids. */
module VoiceJitterBuffers {
  import opened Basics

  const PREBUFFER_FRAMES := 3
  const MAX_PENDING_FRAMES := 32
  const MAX_REORDER_DISTANCE := 64
  const MAX_CONSECUTIVE_LOSSES := 3

  datatype Frame = Frame(voiceId: u16, talkStart: bool, talkEnd: bool, payload: seq<u8>)

  datatype PullResult =
    | Wait
    | Play(frame: Frame, streamStart: bool)
    | PacketLoss(recovery: Option<Frame>)
    | End

  datatype Buffer = Buffer(expected: Option<u16>, end: Option<u16>, pending: map<u16, Frame>,
                           losses: nat, started: bool, firstOutput: bool)

  const EMPTY := Buffer(None, None, map[], 0, false, false)

  function Next(id: u16): u16 {
    if id == WRAP - 1 then 0 else id + 1
  }

  /** The ids that count as ahead of `expected`. */
  function Ahead(expected: u16, ids: set<u16>): set<u16> {
    set id | id in ids && Distance(expected, id) < HALF
  }

  ghost predicate IsFurthest(expected: u16, ids: set<u16>, id: u16) {
    && id in ids
    && if Ahead(expected, ids) == {} then forall other :: other in ids ==> id <= other
       else Distance(expected, id) < HALF
            && forall other :: other in ids && Distance(expected, other) < HALF ==>
                 Distance(expected, other) <= Distance(expected, id)
  }

  /** The id to give up first: the furthest ahead, or failing that the smallest. */
  ghost function Furthest(expected: u16, ids: set<u16>): (id: u16)
    requires ids != {}
    ensures IsFurthest(expected, ids, id)
  {
    FurthestExists(expected, ids);
    var id :| IsFurthest(expected, ids, id);
    id
  }

  lemma FurthestExists(expected: u16, ids: set<u16>)
    requires ids != {}
    ensures exists id :: IsFurthest(expected, ids, id)
  {
    var ahead := Ahead(expected, ids);
    if ahead == {} {
      var numbers: set<nat> := ids;
      assert IsFurthest(expected, ids, Least(numbers));
    } else {
      var id := FurthestAhead(expected, ahead);
      assert forall other :: other in ids && Distance(expected, other) < HALF ==> other in ahead;
      assert IsFurthest(expected, ids, id);
    }
  }

  lemma {:induction false} FurthestAhead(expected: u16, ids: set<u16>) returns (furthest: u16)
    requires ids != {}
    ensures furthest in ids && forall id :: id in ids ==> Distance(expected, id) <= Distance(expected, furthest)
    decreases |ids|
  {
    furthest :| furthest in ids;
    var rest := ids - {furthest};
    assert forall id :: id in ids ==> id == furthest || id in rest;
    if rest != {} {
      var best := FurthestAhead(expected, rest);
      if Distance(expected, furthest) <= Distance(expected, best) {
        furthest := best;
      }
    }
  }

  // ---------------------------------------------------------------- what the operations do

  ghost function Evict(expected: u16, pending: map<u16, Frame>): map<u16, Frame>
    decreases |pending|
  {
    if |pending| <= MAX_PENDING_FRAMES then pending
    else Evict(expected, pending - {Furthest(expected, pending.Keys)})
  }

  /** The buffer into which a voice frame is put, or nothing if the frame is too late. */
  function Admit(b: Buffer, frame: Frame): Option<Buffer> {
    var begun := b.(expected := Some(frame.voiceId), firstOutput := true);
    if b.expected.None? then Some(begun)
    else if Distance(b.expected.value, frame.voiceId) >= HALF then
      if !b.started && frame.talkStart && Distance(frame.voiceId, b.expected.value) <= MAX_REORDER_DISTANCE
      then Some(b.(expected := Some(frame.voiceId)))
      else None
    else if Distance(b.expected.value, frame.voiceId) > MAX_REORDER_DISTANCE then
      Some(EMPTY.(expected := Some(frame.voiceId), firstOutput := true))
    else
      Some(b)
  }

  function Inserted(pending: map<u16, Frame>, frame: Frame): map<u16, Frame> {
    if frame.voiceId in pending then pending else pending[frame.voiceId := frame]
  }

  ghost function PushStep(b: Buffer, frame: Frame): Buffer {
    if frame.talkEnd then
      var begun := if b.expected.None? then b.(expected := Some(frame.voiceId), firstOutput := true) else b;
      if Distance(begun.expected.value, frame.voiceId) < HALF then begun.(end := Some(frame.voiceId)) else begun
    else
      var admitted := Admit(b, frame);
      if admitted.None? then b else
      var open := admitted.value;
      open.(pending := Evict(open.expected.value, Inserted(open.pending, frame)))
  }

  predicate IsAhead(expected: u16, id: u16) {
    0 < Distance(expected, id) < HALF
  }

  predicate HasFuture(b: Buffer) {
    b.expected.Some? &&
    ((b.end.Some? && IsAhead(b.expected.value, b.end.value))
     || exists id :: id in b.pending && IsAhead(b.expected.value, id))
  }

  function PullStep(b: Buffer): (Buffer, PullResult) {
    if b.expected.None? then (b, Wait)
    else if b.end == b.expected then (EMPTY, End)
    else if !b.started && |b.pending| < PREBUFFER_FRAMES && b.end.None? then (b, Wait)
    else
      var running := b.(started := true);
      var id := b.expected.value;
      if id in b.pending then
        (running.(expected := Some(Next(id)), pending := b.pending - {id}, losses := 0, firstOutput := false),
         Play(b.pending[id], b.firstOutput))
      else if !HasFuture(b) then (running, Wait)
      else if b.losses < MAX_CONSECUTIVE_LOSSES then
        (running.(expected := Some(Next(id)), losses := b.losses + 1, firstOutput := false),
         PacketLoss(if Next(id) in b.pending then Some(b.pending[Next(id)]) else None))
      else (EMPTY, End)
  }

  class VoiceJitterBuffer {
    var expected: Option<u16>
    var end: Option<u16>
    var pending: map<u16, Frame>
    var losses: nat
    var started: bool
    var firstOutput: bool

    ghost function View(): Buffer
      reads this
    {
      Buffer(expected, end, pending, losses, started, firstOutput)
    }

    constructor ()
      ensures View() == EMPTY
    {
      expected, end, pending, losses, started, firstOutput := None, None, map[], 0, false, false;
    }

    method Reset()
      modifies this
      ensures View() == EMPTY
    {
      expected, end, pending, losses, started, firstOutput := None, None, map[], 0, false, false;
    }

    /** The scan over the pending frames in ascending order of their ids. */
    method FindFurthest() returns (furthest: u16)
      requires pending != map[] && expected.Some?
      ensures furthest == Furthest(expected.value, pending.Keys)
    {
      var ids: set<nat> := pending.Keys;
      furthest := Least(ids);
      var furthestDistance: u16 := 0;
      while ids != {}
        invariant ids <= pending.Keys && furthest in pending
        invariant forall id :: id in pending && id !in ids && Distance(expected.value, id) < HALF ==>
                    Distance(expected.value, id) <= furthestDistance
        invariant if forall id :: id in pending && id !in ids ==> Distance(expected.value, id) >= HALF
                  then furthestDistance == 0 && forall id :: id in pending ==> furthest <= id
                  else furthestDistance == Distance(expected.value, furthest) < HALF
        decreases |ids|
      {
        var id: u16 := Least(ids);
        var distance := Distance(expected.value, id);
        if distance < HALF && distance >= furthestDistance {
          furthest, furthestDistance := id, distance;
        }
        ids := ids - {id};
      }
    }

    method Push(frame: Frame)
      modifies this
      ensures View() == PushStep(old(View()), frame)
    {
      if frame.talkEnd {
        if expected.None? {
          expected, firstOutput := Some(frame.voiceId), true;
        }
        if Distance(expected.value, frame.voiceId) < HALF {
          end := Some(frame.voiceId);
        }
        return;
      }
      var admitted := MakeWay(frame);
      if !admitted {
        return;
      }
      if frame.voiceId !in pending {
        pending := pending[frame.voiceId := frame];
      }
      EvictFurthest();
    }

    /** Set the expected id for a voice frame, or refuse the frame as too late. */
    method MakeWay(frame: Frame) returns (admitted: bool)
      modifies this
      ensures admitted <==> Admit(old(View()), frame).Some?
      ensures View() == if admitted then Admit(old(View()), frame).value else old(View())
    {
      if expected.None? {
        expected, firstOutput := Some(frame.voiceId), true;
        return true;
      }
      var forward := Distance(expected.value, frame.voiceId);
      if forward >= HALF {
        var backward := Distance(frame.voiceId, expected.value);
        if started || !frame.talkStart || backward > MAX_REORDER_DISTANCE {
          return false;
        }
        expected := Some(frame.voiceId);
      } else if forward > MAX_REORDER_DISTANCE {
        Reset();
        expected, firstOutput := Some(frame.voiceId), true;
      }
      return true;
    }

    method EvictFurthest()
      requires expected.Some?
      modifies this`pending
      ensures pending == Evict(expected.value, old(pending))
    {
      while |pending| > MAX_PENDING_FRAMES
        invariant Evict(expected.value, pending) == Evict(expected.value, old(pending))
        decreases |pending|
      {
        var furthest := FindFurthest();
        pending := pending - {furthest};
      }
    }

    method HasFutureData() returns (future: bool)
      ensures future <==> HasFuture(View())
    {
      if expected.None? {
        return false;
      }
      if end.Some? {
        var distance := Distance(expected.value, end.value);
        if distance > 0 && distance < HALF {
          return true;
        }
      }
      var ids: set<nat> := pending.Keys;
      while ids != {}
        invariant ids <= pending.Keys
        invariant forall id :: id in pending && id !in ids ==> !IsAhead(expected.value, id)
        decreases |ids|
      {
        var id: u16 := Least(ids);
        var distance := Distance(expected.value, id);
        if distance > 0 && distance < HALF {
          return true;
        }
        ids := ids - {id};
      }
      return false;
    }

    method Pull() returns (result: PullResult)
      modifies this
      ensures (View(), result) == PullStep(old(View()))
    {
      if expected.None? {
        return Wait;
      }
      if !started {
        if end.Some? && end.value == expected.value {
          Reset();
          return End;
        }
        if |pending| < PREBUFFER_FRAMES && end.None? {
          return Wait;
        }
        started := true;
      }
      if end.Some? && end.value == expected.value {
        Reset();
        return End;
      }
      var id := expected.value;
      if id in pending {
        result := Play(pending[id], firstOutput);
        pending, losses, firstOutput := pending - {id}, 0, false;
        expected := Some(Next(id));
        return;
      }
      var future := HasFutureData();
      if !future {
        return Wait;
      }
      if losses < MAX_CONSECUTIVE_LOSSES {
        var recoveryId := Next(id);
        result := PacketLoss(if recoveryId in pending then Some(pending[recoveryId]) else None);
        losses, firstOutput := losses + 1, false;
        expected := Some(Next(id));
        return;
      }
      Reset();
      return End;
    }
  }

  // ---------------------------------------------------------------- wrap-around is never ambiguous

  /** The furthest any buffered frame can ever be ahead. */
  const REACH := MAX_REORDER_DISTANCE * MAX_PENDING_FRAMES

  /** The buffered ids that are no further ahead than `id`. */
  function Nearer(expected: u16, ids: set<u16>, id: u16): set<u16> {
    set other | other in ids && Distance(expected, other) <= Distance(expected, id)
  }

  /**
   Before playback starts, each rewind of the expected id moves everything away
   by at most one reorder distance and leaves one more frame in between, so the
   distance of a frame is bounded by the number of frames up to it.
   */
  ghost predicate Spread(expected: u16, ids: set<u16>) {
    forall id {:trigger Near(expected, ids, id)} :: id in ids ==> Near(expected, ids, id)
  }

  ghost predicate Near(expected: u16, ids: set<u16>, id: u16) {
    Distance(expected, id) < HALF && Distance(expected, id) <= MAX_REORDER_DISTANCE * |Nearer(expected, ids, id)|
  }

  lemma SpreadBound(expected: u16, ids: set<u16>, id: u16)
    requires Spread(expected, ids) && id in ids
    ensures Distance(expected, id) <= MAX_REORDER_DISTANCE * |ids|
  {
    assert Near(expected, ids, id);
    SubsetSize(Nearer(expected, ids, id), ids);
  }

  lemma {:induction false} SpreadInsert(expected: u16, ids: set<u16>, id: u16)
    requires Spread(expected, ids) && Distance(expected, id) <= MAX_REORDER_DISTANCE
    ensures Spread(expected, ids + {id})
  {
    forall other | other in ids + {id}
      ensures Near(expected, ids + {id}, other)
    {
      if other in ids {
        assert Near(expected, ids, other);
        SubsetSize(Nearer(expected, ids, other), Nearer(expected, ids + {id}, other));
      } else {
        SubsetSize({id}, Nearer(expected, ids + {id}, other));
      }
    }
  }

  lemma {:induction false} SpreadRewind(expected: u16, ids: set<u16>, start: u16)
    requires Spread(expected, ids) && |ids| <= MAX_PENDING_FRAMES
    requires start !in ids && Distance(start, expected) <= MAX_REORDER_DISTANCE
    ensures Spread(start, ids + {start})
  {
    forall id | id in ids + {start}
      ensures Near(start, ids + {start}, id)
    {
      if id in ids {
        assert Near(expected, ids, id);
        RewoundNearer(expected, ids, start, id);
      }
    }
  }

  lemma {:induction false} RewoundNearer(expected: u16, ids: set<u16>, start: u16, id: u16)
    requires Spread(expected, ids) && |ids| <= MAX_PENDING_FRAMES && id in ids
    requires start !in ids && Distance(start, expected) <= MAX_REORDER_DISTANCE
    ensures Distance(start, id) == Distance(expected, id) + Distance(start, expected) < HALF
    ensures |Nearer(start, ids + {start}, id)| >= |Nearer(expected, ids, id)| + 1
  {
    SpreadBound(expected, ids, id);
    var closer := Nearer(expected, ids, id) + {start};
    assert |closer| == |Nearer(expected, ids, id)| + 1;
    forall other | other in closer
      ensures other in Nearer(start, ids + {start}, id)
    {
      if other in ids {
        DistanceAdds(start, expected, other);
      }
    }
    DistanceAdds(start, expected, id);
    SubsetSize(closer, Nearer(start, ids + {start}, id));
  }

  lemma DistanceAdds(a: u16, b: u16, c: u16)
    requires Distance(a, b) + Distance(b, c) < WRAP
    ensures Distance(a, c) == Distance(a, b) + Distance(b, c)
  {
  }

  lemma {:induction false} SpreadEvict(expected: u16, ids: set<u16>)
    requires Spread(expected, ids) && ids != {}
    ensures Spread(expected, ids - {Furthest(expected, ids)})
  {
    var furthest := Furthest(expected, ids);
    var rest := ids - {furthest};
    forall id | id in rest
      ensures Near(expected, rest, id)
    {
      NearerKept(expected, ids, id);
    }
  }

  /** Giving up the furthest frame leaves the others as many nearer ones. */
  lemma NearerKept(expected: u16, ids: set<u16>, id: u16)
    requires Spread(expected, ids) && id in ids && id != Furthest(expected, ids)
    ensures Near(expected, ids - {Furthest(expected, ids)}, id)
  {
    var furthest := Furthest(expected, ids);
    assert Near(expected, ids, id) && id in Ahead(expected, ids);
    assert Distance(expected, id) != Distance(expected, furthest);
    assert Nearer(expected, ids - {furthest}, id) == Nearer(expected, ids, id);
  }

  lemma FurthestIsNotExpected(expected: u16, ids: set<u16>)
    requires |ids| > 1 && forall id :: id in ids ==> Distance(expected, id) < HALF
    ensures Furthest(expected, ids) != expected
  {
    if ids <= {expected} {
      SubsetSize(ids, {expected});
    }
    var other :| other in ids && other != expected;
    assert other in Ahead(expected, ids);
  }

  /** Eviction keeps the limit, never touches the expected frame, and keeps the spread. */
  lemma {:induction false} EvictKeeps(expected: u16, pending: map<u16, Frame>)
    requires forall id :: id in pending ==> Distance(expected, id) < HALF
    ensures var kept := Evict(expected, pending);
            && |kept| <= MAX_PENDING_FRAMES && kept.Keys <= pending.Keys
            && (forall id :: id in kept ==> kept[id] == pending[id])
            && (expected in pending ==> expected in kept)
            && (Spread(expected, pending.Keys) ==> Spread(expected, kept.Keys))
    decreases |pending|
  {
    if |pending| > MAX_PENDING_FRAMES {
      var furthest := Furthest(expected, pending.Keys);
      assert |pending| == |pending.Keys|;
      FurthestIsNotExpected(expected, pending.Keys);
      var rest := pending - {furthest};
      assert rest.Keys == pending.Keys - {furthest};
      if Spread(expected, pending.Keys) {
        SpreadEvict(expected, pending.Keys);
      }
      EvictKeeps(expected, rest);
    }
  }

  // ---------------------------------------------------------------- every reachable state

  /** The invariant of the buffer. */
  ghost predicate Orderly(b: Buffer) {
    && (b.expected.None? ==> b.pending == map[] && b.end.None? && b.losses == 0 && !b.started)
    && (!b.started ==> b.losses == 0)
    && b.losses <= MAX_CONSECUTIVE_LOSSES && |b.pending| <= MAX_PENDING_FRAMES
    && (forall id :: id in b.pending ==> b.pending[id].voiceId == id)
    && (b.expected.Some? ==> forall id :: id in b.pending ==> Distance(b.expected.value, id) <= REACH)
    && (b.expected.Some? && !b.started ==> Spread(b.expected.value, b.pending.Keys))
  }

  /** Putting a frame where it has been admitted: the ids stay within reach of the expected one. */
  lemma {:induction false} AdmitOrders(b: Buffer, frame: Frame)
    requires Orderly(b) && Admit(b, frame).Some?
    ensures var admitted := Admit(b, frame).value;
            var ids := admitted.pending.Keys + {frame.voiceId};
            && admitted.expected.Some?
            && (forall id :: id in ids ==> Distance(admitted.expected.value, id) <= REACH + MAX_REORDER_DISTANCE)
            && (admitted.started ==> forall id :: id in ids ==> Distance(admitted.expected.value, id) <= REACH)
            && (!admitted.started ==> Spread(admitted.expected.value, ids))
  {
    var admitted := Admit(b, frame).value;
    var expected := admitted.expected.value;
    if b.expected.Some? && expected != b.expected.value && Distance(b.expected.value, frame.voiceId) >= HALF {
      assert |b.pending| == |b.pending.Keys|;
      SpreadRewind(b.expected.value, b.pending.Keys, frame.voiceId);
      forall id | id in b.pending
        ensures Distance(expected, id) <= REACH + MAX_REORDER_DISTANCE
      {
        DistanceAdds(expected, b.expected.value, id);
      }
    } else if !admitted.started {
      SpreadInsert(expected, admitted.pending.Keys, frame.voiceId);
    }
  }

  lemma WithinReach(expected: u16, ids: set<u16>)
    requires Spread(expected, ids) && |ids| <= MAX_PENDING_FRAMES
    ensures forall id :: id in ids ==> Distance(expected, id) <= REACH
  {
    forall id | id in ids
      ensures Distance(expected, id) <= REACH
    {
      SpreadBound(expected, ids, id);
    }
  }

  /** What is buffered after a push: the new frame and earlier ones, within reach and within the limit. */
  lemma {:induction false} PushOutcome(b: Buffer, frame: Frame)
    requires Orderly(b) && !frame.talkEnd && Admit(b, frame).Some?
    ensures var admitted, b' := Admit(b, frame).value, PushStep(b, frame);
            && admitted.expected.Some? && b' == admitted.(pending := b'.pending)
            && |b'.pending| <= MAX_PENDING_FRAMES
            && (forall id :: id in b'.pending ==>
                  if id in admitted.pending then b'.pending[id] == admitted.pending[id]
                  else id == frame.voiceId && b'.pending[id] == frame)
            && (forall id :: id in b'.pending ==> Distance(b'.expected.value, id) <= REACH)
            && (!admitted.started ==> Spread(b'.expected.value, b'.pending.Keys))
            && (b'.expected.value == frame.voiceId || b'.expected.value in admitted.pending ==>
                  b'.expected.value in b'.pending)
  {
    AdmitOrders(b, frame);
    var admitted := Admit(b, frame).value;
    var expected, pending := admitted.expected.value, Inserted(admitted.pending, frame);
    assert pending.Keys == admitted.pending.Keys + {frame.voiceId};
    EvictKeeps(expected, pending);
    var kept := Evict(expected, pending);
    assert |kept| == |kept.Keys|;
    if !admitted.started {
      WithinReach(expected, kept.Keys);
    }
  }

  lemma {:induction false} PushKeepsOrder(b: Buffer, frame: Frame)
    requires Orderly(b)
    ensures Orderly(PushStep(b, frame))
  {
    if !frame.talkEnd && Admit(b, frame).Some? {
      PushOutcome(b, frame);
    }
  }

  /** Moving on by one id keeps everything buffered within reach. */
  lemma AdvanceKeepsReach(expected: u16, ids: set<u16>)
    requires forall id :: id in ids ==> id != expected && Distance(expected, id) <= REACH
    ensures forall id :: id in ids ==> Distance(Next(expected), id) <= REACH
  {
    forall id | id in ids
      ensures Distance(Next(expected), id) <= REACH
    {
    }
  }

  /** Moving on past the expected id keeps the order. */
  lemma {:induction false} AdvanceKeepsOrder(b: Buffer, losses: nat, firstOutput: bool)
    requires Orderly(b) && b.expected.Some? && losses <= MAX_CONSECUTIVE_LOSSES
    ensures var id := b.expected.value;
            Orderly(Buffer(Some(Next(id)), b.end, b.pending - {id}, losses, true, firstOutput))
  {
    var id := b.expected.value;
    AdvanceKeepsReach(id, (b.pending - {id}).Keys);
  }

  lemma {:induction false} PullKeepsOrder(b: Buffer)
    requires Orderly(b)
    ensures Orderly(PullStep(b).0)
  {
    var (b', result) := PullStep(b);
    if result.Play? || result.PacketLoss? {
      AdvanceKeepsOrder(b, b'.losses, b'.firstOutput);
    }
  }

  // ---------------------------------------------------------------- runs and what they output

  datatype Event = Push(frame: Frame) | Pull | Reset

  /** One 20 ms slot of output. */
  datatype Slot = Played(id: u16, frame: Frame) | Lost(id: u16)

  /** A buffer, all frames ever pushed, and the output since the last reset. */
  datatype History = History(buffer: Buffer, pushed: set<Frame>, output: seq<Slot>)

  /** A frame too far ahead makes the buffer start over. */
  predicate Restarts(b: Buffer, frame: Frame) {
    && !frame.talkEnd && b.expected.Some?
    && MAX_REORDER_DISTANCE < Distance(b.expected.value, frame.voiceId) < HALF
  }

  ghost function Step(h: History, event: Event): History {
    match event
    case Push(frame) =>
      History(PushStep(h.buffer, frame), h.pushed + {frame}, if Restarts(h.buffer, frame) then [] else h.output)
    case Pull =>
      var (b, result) := PullStep(h.buffer);
      h.(buffer := b, output :=
        if result.Play? then h.output + [Played(h.buffer.expected.value, result.frame)]
        else if result.PacketLoss? then h.output + [Lost(h.buffer.expected.value)]
        else if result.End? then []
        else h.output)
    case Reset => h.(buffer := EMPTY, output := [])
  }

  ghost function RunBuffer(events: seq<Event>): History {
    if events == [] then History(EMPTY, {}, []) else Step(RunBuffer(events[..|events| - 1]), events[|events| - 1])
  }

  /** How many slots at the end of the output are losses. */
  function LossesAtEnd(output: seq<Slot>): nat {
    if output == [] || output[|output| - 1].Played? then 0 else 1 + LossesAtEnd(output[..|output| - 1])
  }

  /** Consecutive ids, each played frame its own and a pushed one, never four losses in a row. */
  ghost predicate Gapless(output: seq<Slot>, pushed: set<Frame>) {
    output == [] ||
    (var last := |output| - 1;
     && Gapless(output[..last], pushed)
     && (last > 0 ==> output[last].id == Next(output[last - 1].id))
     && (output[last].Played? ==> output[last].frame.voiceId == output[last].id && output[last].frame in pushed)
     && LossesAtEnd(output) <= MAX_CONSECUTIVE_LOSSES)
  }

  /** Playback goes on where the output ends. */
  ghost predicate Continues(b: Buffer, output: seq<Slot>) {
    && (output != [] ==> b.started && b.expected == Some(Next(output[|output| - 1].id)))
    && b.losses == LossesAtEnd(output)
    && (b.expected.Some? ==> (b.firstOutput <==> output == []))
  }

  ghost predicate FromPushed(pending: map<u16, Frame>, pushed: set<Frame>) {
    forall id :: id in pending ==> pending[id] in pushed
  }

  ghost predicate Faithful(h: History) {
    Orderly(h.buffer) && Gapless(h.output, h.pushed) && FromPushed(h.buffer.pending, h.pushed) && Continues(h.buffer, h.output)
  }

  lemma GaplessExtends(output: seq<Slot>, pushed: set<Frame>, slot: Slot)
    requires Gapless(output, pushed) && (output != [] ==> slot.id == Next(output[|output| - 1].id))
    requires slot.Played? ==> slot.frame.voiceId == slot.id && slot.frame in pushed
    requires slot.Lost? ==> LossesAtEnd(output) < MAX_CONSECUTIVE_LOSSES
    ensures Gapless(output + [slot], pushed)
    ensures LossesAtEnd(output + [slot]) == if slot.Lost? then LossesAtEnd(output) + 1 else 0
  {
    assert (output + [slot])[..|output|] == output;
  }

  lemma {:induction false} GaplessGrows(output: seq<Slot>, pushed: set<Frame>, more: set<Frame>)
    requires Gapless(output, pushed) && pushed <= more
    ensures Gapless(output, more)
  {
    if output != [] {
      GaplessGrows(output[..|output| - 1], pushed, more);
    }
  }

  /** What a pull that outputs something does to position and losses. */
  lemma PullAdvances(b: Buffer)
    requires Orderly(b)
    ensures var (b', result) := PullStep(b);
            match result
            case Play(frame, streamStart) =>
              && b.expected.Some? && b'.started && b'.expected == Some(Next(b.expected.value)) && b'.losses == 0
              && b.expected.value in b.pending && frame == b.pending[b.expected.value]
              && !b'.firstOutput && streamStart == b.firstOutput
            case PacketLoss(_) =>
              && b.expected.Some? && b'.started && b'.expected == Some(Next(b.expected.value)) && !b'.firstOutput
              && b'.losses == b.losses + 1 <= MAX_CONSECUTIVE_LOSSES
            case Wait => && b'.expected == b.expected && b'.losses == b.losses && (b.started ==> b'.started)
                         && b'.firstOutput == b.firstOutput
            case End => b' == EMPTY
    ensures forall id :: id in PullStep(b).0.pending ==> id in b.pending && PullStep(b).0.pending[id] == b.pending[id]
  {
  }

  /** One more slot of output: the expected id, played from the buffer or lost. */
  lemma SlotContinues(b: Buffer, output: seq<Slot>, pushed: set<Frame>, slot: Slot, b': Buffer)
    requires Gapless(output, pushed) && Continues(b, output) && b.expected == Some(slot.id)
    requires slot.Played? ==> slot.frame.voiceId == slot.id && slot.frame in pushed
    requires slot.Lost? ==> b.losses < MAX_CONSECUTIVE_LOSSES
    requires b'.started && b'.expected == Some(Next(slot.id)) && !b'.firstOutput
    requires b'.losses == if slot.Lost? then b.losses + 1 else 0
    ensures Gapless(output + [slot], pushed) && Continues(b', output + [slot])
  {
    GaplessExtends(output, pushed, slot);
  }

  lemma {:induction false} PullIsFaithful(h: History)
    requires Faithful(h)
    ensures Faithful(Step(h, Pull))
  {
    PullKeepsOrder(h.buffer);
    PullAdvances(h.buffer);
    var (b', result) := PullStep(h.buffer);
    if result.Play? {
      SlotContinues(h.buffer, h.output, h.pushed, Played(h.buffer.expected.value, result.frame), b');
    } else if result.PacketLoss? {
      SlotContinues(h.buffer, h.output, h.pushed, Lost(h.buffer.expected.value), b');
    }
  }

  lemma {:induction false} PushKeepsFrames(b: Buffer, frame: Frame, pushed: set<Frame>)
    requires Orderly(b) && FromPushed(b.pending, pushed)
    ensures FromPushed(PushStep(b, frame).pending, pushed + {frame})
  {
    if !frame.talkEnd && Admit(b, frame).Some? {
      PushOutcome(b, frame);
    }
  }

  lemma PushIsFaithful(h: History, frame: Frame)
    requires Faithful(h)
    ensures Faithful(Step(h, Push(frame)))
  {
    PushKeepsOrder(h.buffer, frame);
    GaplessGrows(h.output, h.pushed, h.pushed + {frame});
    PushKeepsFrames(h.buffer, frame, h.pushed);
  }

  /**
   Over every run of pushes, pulls and resets: each buffered id is less than
   half the id space ahead, at most 32 frames are held, and the output since
   the last reset covers consecutive ids with frames that were pushed.
   */
  lemma {:induction false} EveryRunIsFaithful(events: seq<Event>)
    ensures Faithful(RunBuffer(events))
  {
    if events != [] {
      var h := RunBuffer(events[..|events| - 1]);
      EveryRunIsFaithful(events[..|events| - 1]);
      match events[|events| - 1]
      case Push(frame) => PushIsFaithful(h, frame);
      case Pull => PullIsFaithful(h);
      case Reset =>
    }
  }

  /** A frame is marked as the start of a stream exactly when nothing has been output since the last reset. */
  lemma {:induction false} StreamStartIsFirstSlot(events: seq<Event>)
    ensures var h := RunBuffer(events);
            PullStep(h.buffer).1.Play? ==> (PullStep(h.buffer).1.streamStart <==> h.output == [])
  {
    EveryRunIsFaithful(events);
    PullAdvances(RunBuffer(events).buffer);
  }

  // ---------------------------------------------------------------- the end of the stream

  /** The end, if known, is at or ahead of the expected id. */
  predicate EndAhead(b: Buffer) {
    b.end.Some? && b.expected.Some? ==> Distance(b.expected.value, b.end.value) < HALF
  }

  /** A frame moves the expected id back before playback has started. */
  predicate Rewinds(b: Buffer, frame: Frame) {
    && !frame.talkEnd && b.expected.Some? && !b.started && frame.talkStart
    && Distance(b.expected.value, frame.voiceId) >= HALF
    && Distance(frame.voiceId, b.expected.value) <= MAX_REORDER_DISTANCE
  }

  /** A rewind so far back that the end no longer counts as ahead. */
  predicate LosesEnd(b: Buffer, event: Event) {
    event.Push? && Rewinds(b, event.frame) && b.end.Some? && Distance(event.frame.voiceId, b.end.value) >= HALF
  }

  /** The end stays ahead through every step except exactly a rewind that is too far away from it. */
  lemma EndStaysAhead(h: History, event: Event)
    requires Orderly(h.buffer) && EndAhead(h.buffer)
    ensures EndAhead(Step(h, event).buffer) <==> !LosesEnd(h.buffer, event)
  {
    match event
    case Push(frame) => PushKeepsEnd(h.buffer, frame);
    case Pull => PullKeepsEnd(h.buffer);
    case Reset =>
  }

  lemma PushKeepsEnd(b: Buffer, frame: Frame)
    requires Orderly(b) && EndAhead(b)
    ensures EndAhead(PushStep(b, frame)) <==> !LosesEnd(b, Push(frame))
  {
  }

  lemma PullKeepsEnd(b: Buffer)
    requires Orderly(b) && EndAhead(b)
    ensures EndAhead(PullStep(b).0)
  {
  }

  /** So the end is ahead in every run without such a rewind. */
  lemma {:induction false} EveryRunKeepsEnd(events: seq<Event>)
    requires forall i {:trigger events[..i]} :: 0 <= i < |events| ==> !LosesEnd(RunBuffer(events[..i]).buffer, events[i])
    ensures EndAhead(RunBuffer(events).buffer)
  {
    if events != [] {
      var last := |events| - 1;
      var earlier := events[..last];
      assert forall i :: 0 <= i < |earlier| ==> earlier[..i] == events[..i];
      EveryRunKeepsEnd(earlier);
      EveryRunIsFaithful(earlier);
      EndStaysAhead(RunBuffer(earlier), events[last]);
    }
  }

  /** A run in which it is not: an end 32767 ahead, then a rewind by 60. */
  lemma EndCanFallBehind(first: Frame, end: Frame, late: Frame)
    requires first.voiceId == 100 && !first.talkEnd && end.voiceId == 32867 && end.talkEnd
    requires late.voiceId == 40 && late.talkStart && !late.talkEnd
    ensures EndAhead(RunBuffer([Push(first), Push(end)]).buffer)
    ensures !EndAhead(RunBuffer([Push(first), Push(end), Push(late)]).buffer)
  {
    RunThree(Push(first), Push(end), Push(late));
    var begun := EMPTY.(expected := Some(100), firstOutput := true, pending := map[100 := first]);
    assert PushStep(begun, end) == begun.(end := Some(32867));
  }

  lemma RunThree(a: Event, b: Event, c: Event)
    ensures var start := RunBuffer([]);
            RunBuffer([a, b]) == Step(Step(start, a), b) && RunBuffer([a, b, c]) == Step(Step(Step(start, a), b), c)
  {
    assert [a][..0] == [] && [a, b][..1] == [a] && [a, b, c][..2] == [a, b];
  }

  // ---------------------------------------------------------------- losses are genuine

  /** The frames that are due, told from the pushes and the position: accepted since the last reset, not put out and not given up. */
  ghost function Due(events: seq<Event>): set<u16> {
    if events == [] then {} else
    var b, due := RunBuffer(events[..|events| - 1]).buffer, Due(events[..|events| - 1]);
    match events[|events| - 1]
    case Push(frame) => DueAfterPush(b, due, frame)
    case Pull =>
      var result := PullStep(b).1;
      if result.Play? || result.PacketLoss? then due - {b.expected.value} else if result.End? then {} else due
    case Reset => {}
  }

  /** A frame is accepted at or ahead of the expected id, and in a rewind; beyond 32, the one furthest ahead is given up. */
  ghost function DueAfterPush(b: Buffer, due: set<u16>, frame: Frame): set<u16> {
    if frame.talkEnd then due
    else if b.expected.Some? && Distance(b.expected.value, frame.voiceId) >= HALF && !Rewinds(b, frame) then due
    else
      var expected := if b.expected.None? || Rewinds(b, frame) || Restarts(b, frame) then frame.voiceId else b.expected.value;
      var grown := (if Restarts(b, frame) then {} else due) + {frame.voiceId};
      if |grown| > MAX_PENDING_FRAMES then grown - {Furthest(expected, grown)} else grown
  }

  lemma AdmitTold(b: Buffer, frame: Frame)
    requires !frame.talkEnd
    ensures Admit(b, frame).None? <==>
            b.expected.Some? && Distance(b.expected.value, frame.voiceId) >= HALF && !Rewinds(b, frame)
    ensures Admit(b, frame).Some? ==>
            var admitted := Admit(b, frame).value;
            && admitted.pending == (if Restarts(b, frame) then map[] else b.pending)
            && admitted.expected == if b.expected.None? || Rewinds(b, frame) || Restarts(b, frame) then Some(frame.voiceId) else b.expected
  {
  }

  lemma {:induction false} InsertedKeys(expected: u16, pending: map<u16, Frame>, frame: Frame)
    requires |pending| <= MAX_PENDING_FRAMES
    ensures var grown := pending.Keys + {frame.voiceId};
            Evict(expected, Inserted(pending, frame)).Keys ==
            if |grown| > MAX_PENDING_FRAMES then grown - {Furthest(expected, grown)} else grown
  {
    var grown := Inserted(pending, frame);
    assert grown.Keys == pending.Keys + {frame.voiceId};
    assert |pending| == |pending.Keys| && |grown| == |grown.Keys|;
  }

  lemma {:induction false} PushKeepsDue(b: Buffer, frame: Frame)
    requires |b.pending| <= MAX_PENDING_FRAMES
    ensures PushStep(b, frame).pending.Keys == DueAfterPush(b, b.pending.Keys, frame)
  {
    if !frame.talkEnd {
      AdmitTold(b, frame);
      if Admit(b, frame).Some? {
        InsertedKeys(Admit(b, frame).value.expected.value, Admit(b, frame).value.pending, frame);
      }
    }
  }

  lemma PullKeepsDue(b: Buffer)
    requires Orderly(b)
    ensures var (b', result) := PullStep(b);
            b'.pending.Keys == if result.Play? || result.PacketLoss? then b.pending.Keys - {b.expected.value}
                               else if result.End? then {} else b.pending.Keys
  {
    PullAdvances(b);
  }

  /** What is buffered is what is due. */
  lemma {:induction false} BufferedIsDue(events: seq<Event>)
    ensures RunBuffer(events).buffer.pending.Keys == Due(events)
  {
    if events != [] {
      var earlier := events[..|events| - 1];
      var b := RunBuffer(earlier).buffer;
      BufferedIsDue(earlier);
      EveryRunIsFaithful(earlier);
      match events[|events| - 1]
      case Push(frame) => PushKeepsDue(b, frame);
      case Pull => PullKeepsDue(b);
      case Reset =>
    }
  }

  /** Playback may go on: there is a position that is not the end, and it has begun, three frames are due or the end is known. */
  predicate MayPlay(b: Buffer, due: nat) {
    b.expected.Some? && b.end != b.expected && (b.started || due >= PREBUFFER_FRAMES || b.end.Some?)
  }

  /** The frame that is due is played if and only if playback may go on; a slot is lost only if no frame is due for it. */
  lemma {:induction false} LossIsGenuine(events: seq<Event>)
    ensures var b, due := RunBuffer(events).buffer, Due(events);
            && (PullStep(b).1.Play? <==> MayPlay(b, |due|) && b.expected.value in due)
            && (PullStep(b).1.PacketLoss? ==> MayPlay(b, |due|) && b.expected.value !in due)
  {
    var b := RunBuffer(events).buffer;
    BufferedIsDue(events);
    assert |b.pending| == |b.pending.Keys|;
  }

  // ---------------------------------------------------------------- pulling without pushing

  /** The results of `n` pulls in a row. */
  function Pulled(b: Buffer, n: nat): (r: (Buffer, seq<PullResult>))
    ensures |r.1| == n
  {
    if n == 0 then (b, []) else
    var (b', results) := Pulled(b, n - 1);
    (PullStep(b').0, results + [PullStep(b').1])
  }

  lemma PullUsesUp(b: Buffer)
    requires Orderly(b) && (PullStep(b).1.Play? || PullStep(b).1.PacketLoss?)
    ensures Left(PullStep(b).0) < Left(b)
  {
    if PullStep(b).1.Play? {
      var id := b.expected.value;
      assert b.pending.Keys == (b.pending - {id}).Keys + {id};
      assert |b.pending| == |b.pending.Keys| && |b.pending - {id}| == |(b.pending - {id}).Keys|;
    }
  }

  /** Without new frames the buffer comes to rest: a bounded number of outputs precedes the first Wait or End. */
  lemma {:induction false} PullingComesToRest(b: Buffer, n: nat)
    requires Orderly(b) && AllOutputs(Pulled(b, n).1)
    ensures UsedUp(b, n, Pulled(b, n).0) && n <= 4 * |b.pending| + 3
  {
    if n > 0 {
      var (b', results) := Pulled(b, n - 1);
      OutputsSplit(results, PullStep(b').1);
      PullingComesToRest(b, n - 1);
      OneMorePull(b, n - 1, b');
    }
  }

  /** Each of `n` outputs has used up a frame or a loss. */
  ghost predicate UsedUp(b: Buffer, n: nat, b': Buffer) {
    Orderly(b') && n + Left(b') <= Left(b)
  }

  /** How many outputs the buffer is good for. */
  function Left(b: Buffer): int {
    4 * |b.pending| + MAX_CONSECUTIVE_LOSSES - b.losses
  }

  lemma OneMorePull(b: Buffer, n: nat, b': Buffer)
    requires UsedUp(b, n, b') && (PullStep(b').1.Play? || PullStep(b').1.PacketLoss?)
    ensures UsedUp(b, n + 1, PullStep(b').0)
  {
    PullUsesUp(b');
    PullKeepsOrder(b');
  }

  /** None of the results is a Wait or an End. */
  predicate AllOutputs(results: seq<PullResult>) {
    forall i :: 0 <= i < |results| ==> results[i].Play? || results[i].PacketLoss?
  }

  lemma OutputsSplit(results: seq<PullResult>, last: PullResult)
    requires AllOutputs(results + [last])
    ensures AllOutputs(results) && (last.Play? || last.PacketLoss?)
  {
    assert forall i :: 0 <= i < |results| ==> (results + [last])[i] == results[i];
    assert (results + [last])[|results|] == last;
  }
}
