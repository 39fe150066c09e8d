/**
 What the jitter buffer is for, without wrapping ids: a talker's frames stand at
 positions on an endless line, playback moves along it one position per pull, and
 the frame due at the position is played. The buffer does exactly that.
 */
module JitterReferences {
  import opened Basics
  import opened VoiceJitterBuffers

  /** Playback at a position, with the first frames accepted for it and the positions beyond it. */
  datatype Line =
    | Idle
    | Live(position: int, end: Option<u16>, due: map<int, Frame>, playing: bool, losses: nat, beginning: bool)

  function IdAt(position: int): u16 {
    position % WRAP
  }

  /** The position nearest to `position` that has the id. */
  function Nearest(position: int, id: u16): int {
    var ahead := (id - position) % WRAP;
    if ahead < HALF then position + ahead else position + ahead - WRAP
  }

  // ---------------------------------------------------------------- the reference

  function Start(position: int, frame: Frame): Line {
    Live(position, None, map[position := frame], false, 0, true)
  }

  /** All frames but the one furthest along. */
  function AllButLast(due: map<int, Frame>): map<int, Frame> {
    map q | q in due && exists r :: r in due && q < r :: due[q]
  }

  /** The first frame for a position counts; beyond 32 frames the last position is given up. */
  function Accept(due: map<int, Frame>, position: int, frame: Frame): map<int, Frame> {
    var grown := if position in due then due else due[position := frame];
    if |grown| > MAX_PENDING_FRAMES then AllButLast(grown) else grown
  }

  /**
   A frame that begins talk may still move playback back by up to 64 positions
   before it has started; other frames behind are too late; one more than 64
   positions ahead begins a new line.
   */
  function PushVoice(line: Line, frame: Frame): Line {
    if line.Idle? then Start(frame.voiceId, frame) else
    var at := Nearest(line.position, frame.voiceId);
    if at < line.position then
      if !line.playing && frame.talkStart && line.position - at <= MAX_REORDER_DISTANCE
      then line.(position := at, due := Accept(line.due, at, frame))
      else line
    else if at > line.position + MAX_REORDER_DISTANCE then Start(at, frame)
    else line.(due := Accept(line.due, at, frame))
  }

  /** An end marker is noted unless it is behind. */
  function PushEnd(line: Line, id: u16): Line {
    if line.Idle? then Live(id, Some(id), map[], false, 0, true)
    else if Nearest(line.position, id) >= line.position then line.(end := Some(id))
    else line
  }

  /** Something lies beyond the position: a frame or the end. */
  predicate MoreToCome(line: Line)
    requires line.Live?
  {
    || (exists q :: q in line.due && q > line.position)
    || (line.end.Some? && Nearest(line.position, line.end.value) > line.position)
  }

  /** Playback is under way, or may begin: three frames are due or the end is known. */
  predicate CanPlay(line: Line)
    requires line.Live?
  {
    line.playing || |line.due| >= PREBUFFER_FRAMES || line.end.Some?
  }

  predicate AtEnd(line: Line)
    requires line.Live?
  {
    line.end == Some(IdAt(line.position))
  }

  /** What a pull returns. */
  function Outcome(line: Line): PullResult {
    if line.Idle? then Wait
    else if AtEnd(line) then End
    else if !CanPlay(line) then Wait
    else if line.position in line.due then Play(line.due[line.position], line.beginning)
    else if !MoreToCome(line) then Wait
    else if line.losses == MAX_CONSECUTIVE_LOSSES then End
    else PacketLoss(if line.position + 1 in line.due then Some(line.due[line.position + 1]) else None)
  }

  /** A frame or a loss uses up the position, an end ends the line. */
  function Pulled(line: Line): Line {
    match Outcome(line)
    case Play(_, _) => Live(line.position + 1, line.end, line.due - {line.position}, true, 0, false)
    case PacketLoss(_) => Live(line.position + 1, line.end, line.due, true, line.losses + 1, false)
    case End => Idle
    case Wait => if line.Live? && CanPlay(line) then line.(playing := true) else line
  }

  function Reference(events: seq<Event>): Line {
    if events == [] then Idle else
    var line := Reference(events[..|events| - 1]);
    match events[|events| - 1]
    case Push(frame) => if frame.talkEnd then PushEnd(line, frame.voiceId) else PushVoice(line, frame)
    case Pull => Pulled(line)
    case Reset => Idle
  }

  // ---------------------------------------------------------------- ids and positions

  /** Within half the ids of each other, distance of ids is distance of positions. */
  lemma DistanceIsAhead(position: int, id: u16)
    ensures IdAt(Nearest(position, id)) == id
    ensures Nearest(position, id) >= position <==> Distance(IdAt(position), id) < HALF
    ensures Nearest(position, id) >= position ==> Distance(IdAt(position), id) == Nearest(position, id) - position
    ensures Nearest(position, id) < position ==> Distance(id, IdAt(position)) == position - Nearest(position, id)
  {
  }

  lemma NearestIs(position: int, q: int)
    requires position - HALF <= q < position + HALF
    ensures Nearest(position, IdAt(q)) == q
  {
  }

  lemma NextIsNext(position: int)
    ensures Next(IdAt(position)) == IdAt(position + 1)
  {
  }

  /** The frames due are those pending, each id standing for the nearest position with it. */
  ghost predicate Reflects(position: int, due: map<int, Frame>, pending: map<u16, Frame>) {
    && (forall q {:trigger DueIsPending(position, due, pending, q)} :: q in due ==> DueIsPending(position, due, pending, q))
    && (forall id {:trigger PendingIsDue(position, due, pending, id)} :: id in pending ==> PendingIsDue(position, due, pending, id))
  }

  ghost predicate PendingIsDue(position: int, due: map<int, Frame>, pending: map<u16, Frame>, id: u16) {
    Nearest(position, id) in due
  }

  ghost predicate DueIsPending(position: int, due: map<int, Frame>, pending: map<u16, Frame>, q: int)
    requires q in due
  {
    position <= q < position + HALF && IdAt(q) in pending && pending[IdAt(q)] == due[q]
  }

  /** As many frames are due as are pending. */
  lemma ReflectedCount(position: int, due: map<int, Frame>, pending: map<u16, Frame>)
    requires Reflects(position, due, pending)
    ensures |due| == |pending|
  {
    forall q | q in due.Keys ensures IdAt(q) in pending.Keys && Nearest(position, IdAt(q)) == q {
      assert DueIsPending(position, due, pending, q);
      NearestIs(position, q);
    }
    forall id | id in pending.Keys ensures Nearest(position, id) in due.Keys && IdAt(Nearest(position, id)) == id {
      assert PendingIsDue(position, due, pending, id);
      DistanceIsAhead(position, id);
    }
    SameSize(due.Keys, pending.Keys, IdAt, id => Nearest(position, id));
    assert |due| == |due.Keys| && |pending| == |pending.Keys|;
  }

  /** Whether a frame is due at a position is whether one is pending with its id. */
  lemma ReflectedAt(position: int, due: map<int, Frame>, pending: map<u16, Frame>, q: int)
    requires Reflects(position, due, pending) && position <= q < position + HALF
    ensures q in due <==> IdAt(q) in pending
    ensures q in due ==> due[q] == pending[IdAt(q)]
  {
    NearestIs(position, q);
    if q in due {
      assert DueIsPending(position, due, pending, q);
    }
    if IdAt(q) in pending {
      assert PendingIsDue(position, due, pending, IdAt(q));
    }
  }

  lemma ReflectsInserted(position: int, due: map<int, Frame>, pending: map<u16, Frame>, q: int, frame: Frame)
    requires Reflects(position, due, pending) && position <= q < position + HALF && frame.voiceId == IdAt(q)
    ensures Reflects(position, if q in due then due else due[q := frame], Inserted(pending, frame))
  {
    ReflectedAt(position, due, pending, q);
    NearestIs(position, q);
    if q !in due {
      var grown, held := due[q := frame], pending[frame.voiceId := frame];
      forall r | r in grown ensures DueIsPending(position, grown, held, r) {
        if r != q {
          assert DueIsPending(position, due, pending, r);
        }
      }
      forall id | id in held ensures PendingIsDue(position, grown, held, id) {
        if id != frame.voiceId {
          assert PendingIsDue(position, due, pending, id);
        }
      }
    }
  }

  /** The position furthest along has the id furthest ahead. */
  lemma FurthestIsLast(position: int, due: map<int, Frame>, pending: map<u16, Frame>, q: int)
    requires Reflects(position, due, pending) && q in due && pending.Keys != {}
    ensures (exists r :: r in due && q < r) <==> IdAt(q) != Furthest(IdAt(position), pending.Keys)
  {
    var furthest := Furthest(IdAt(position), pending.Keys);
    var last := Nearest(position, furthest);
    assert PendingIsDue(position, due, pending, furthest);
    DueDistance(position, due, pending, q);
    DueDistance(position, due, pending, last);
    assert IdAt(q) in Ahead(IdAt(position), pending.Keys);
    DistanceIsAhead(position, furthest);
    forall r | r in due ensures r <= last {
      DueDistance(position, due, pending, r);
    }
  }

  lemma DueDistance(position: int, due: map<int, Frame>, pending: map<u16, Frame>, q: int)
    requires Reflects(position, due, pending) && q in due
    ensures IdAt(q) in pending && Distance(IdAt(position), IdAt(q)) == q - position < HALF && Nearest(position, IdAt(q)) == q
  {
    assert DueIsPending(position, due, pending, q);
    NearestIs(position, q);
    DistanceIsAhead(position, IdAt(q));
  }

  lemma ReflectsEvicted(position: int, due: map<int, Frame>, pending: map<u16, Frame>)
    requires Reflects(position, due, pending) && pending.Keys != {}
    ensures Reflects(position, AllButLast(due), pending - {Furthest(IdAt(position), pending.Keys)})
  {
    var furthest := Furthest(IdAt(position), pending.Keys);
    var kept, held := AllButLast(due), pending - {furthest};
    forall q | q in kept ensures DueIsPending(position, kept, held, q) {
      assert DueIsPending(position, due, pending, q);
      FurthestIsLast(position, due, pending, q);
    }
    forall id | id in held ensures PendingIsDue(position, kept, held, id) {
      assert PendingIsDue(position, due, pending, id);
      DistanceIsAhead(position, id);
      FurthestIsLast(position, due, pending, Nearest(position, id));
    }
  }

  lemma ReflectsAccepted(position: int, due: map<int, Frame>, pending: map<u16, Frame>, q: int, frame: Frame)
    requires Reflects(position, due, pending) && position <= q < position + HALF && frame.voiceId == IdAt(q)
    requires |pending| <= MAX_PENDING_FRAMES
    ensures Reflects(position, Accept(due, q, frame), Evict(IdAt(position), Inserted(pending, frame)))
  {
    var grown, held := if q in due then due else due[q := frame], Inserted(pending, frame);
    ReflectsInserted(position, due, pending, q, frame);
    ReflectedCount(position, grown, held);
    EvictOne(IdAt(position), pending, frame);
    if |held| > MAX_PENDING_FRAMES {
      ReflectsEvicted(position, grown, held);
    }
  }

  /** One frame more than the limit makes one frame be given up. */
  lemma EvictOne(expected: u16, pending: map<u16, Frame>, frame: Frame)
    requires |pending| <= MAX_PENDING_FRAMES
    ensures var held := Inserted(pending, frame);
            && held.Keys != {}
            && Evict(expected, held) == if |held| > MAX_PENDING_FRAMES then held - {Furthest(expected, held.Keys)} else held
  {
    var held := Inserted(pending, frame);
    assert held.Keys == pending.Keys + {frame.voiceId} && |held| == |held.Keys| && |pending| == |pending.Keys|;
    var furthest := Furthest(expected, held.Keys);
    assert (held - {furthest}).Keys == held.Keys - {furthest};
    assert |held - {furthest}| == |(held - {furthest}).Keys|;
  }

  /** Playback may move back as long as everything due stays within half the ids. */
  lemma ReflectsMovedBack(position: int, back: int, due: map<int, Frame>, pending: map<u16, Frame>)
    requires Reflects(position, due, pending) && back <= position
    requires forall q :: q in due ==> q < back + HALF
    ensures Reflects(back, due, pending)
  {
    forall q | q in due ensures DueIsPending(back, due, pending, q) {
      assert DueIsPending(position, due, pending, q);
    }
    forall id | id in pending ensures PendingIsDue(back, due, pending, id) {
      var q := Nearest(position, id);
      assert PendingIsDue(position, due, pending, id);
      assert DueIsPending(position, due, pending, q);
      DistanceIsAhead(position, id);
      NearestIs(back, q);
    }
  }

  /** Playback moves on past the position. */
  lemma ReflectsMovedOn(position: int, due: map<int, Frame>, pending: map<u16, Frame>)
    requires Reflects(position, due, pending)
    ensures Reflects(position + 1, due - {position}, pending - {IdAt(position)})
  {
    var rest, held := due - {position}, pending - {IdAt(position)};
    forall q | q in rest ensures DueIsPending(position + 1, rest, held, q) {
      assert DueIsPending(position, due, pending, q);
      NearestIs(position, q);
      NearestIs(position, position);
    }
    forall id | id in held ensures PendingIsDue(position + 1, rest, held, id) {
      var q := Nearest(position, id);
      assert PendingIsDue(position, due, pending, id);
      assert DueIsPending(position, due, pending, q);
      DistanceIsAhead(position, id);
      NearestIs(position + 1, q);
    }
  }

  // ---------------------------------------------------------------- every step follows the reference

  /** The buffer is where the reference is. */
  ghost predicate Follows(b: Buffer, line: Line) {
    && SameState(b, line)
    && (line.Live? ==> Reflects(line.position, line.due, b.pending))
  }

  predicate SameState(b: Buffer, line: Line) {
    if line.Idle? then b.expected.None?
    else b.expected == Some(IdAt(line.position)) && b.end == line.end && b.started == line.playing
         && b.losses == line.losses && b.firstOutput == line.beginning
  }

  lemma StartFollows(b: Buffer, frame: Frame, position: int)
    requires b == EMPTY.(expected := Some(frame.voiceId), firstOutput := true, pending := Evict(frame.voiceId, Inserted(map[], frame)))
    requires IdAt(position) == frame.voiceId
    ensures Follows(b, Start(position, frame))
  {
    EvictOne(frame.voiceId, map[], frame);
    ReflectsInserted(position, map[], map[], position, frame);
    assert Inserted(map[], frame) == map[frame.voiceId := frame];
  }

  lemma EndFollows(b: Buffer, line: Line, frame: Frame)
    requires Orderly(b) && Follows(b, line) && frame.talkEnd
    ensures Follows(PushStep(b, frame), PushEnd(line, frame.voiceId))
  {
    if line.Live? {
      DistanceIsAhead(line.position, frame.voiceId);
    } else {
      assert Reflects(frame.voiceId, map[], map[]);
    }
  }

  /** A frame at or a little ahead of the position is accepted. */
  lemma OrdinaryFollows(b: Buffer, line: Line, frame: Frame, at: int)
    requires Orderly(b) && Follows(b, line) && !frame.talkEnd && line.Live? && at == Nearest(line.position, frame.voiceId)
    requires line.position <= at <= line.position + MAX_REORDER_DISTANCE
    ensures Follows(PushStep(b, frame), line.(due := Accept(line.due, at, frame)))
  {
    DistanceIsAhead(line.position, frame.voiceId);
    ReflectsAccepted(line.position, line.due, b.pending, at, frame);
  }

  /** Nothing due is so far along that moving back a little would leave it half the ids away. */
  lemma DueStaysNear(b: Buffer, line: Line, at: int)
    requires Orderly(b) && Follows(b, line) && line.Live? && line.position <= at + MAX_REORDER_DISTANCE
    ensures forall q :: q in line.due ==> q < at + HALF
  {
    forall q | q in line.due ensures q < at + HALF {
      DueDistance(line.position, line.due, b.pending, q);
    }
  }

  lemma RewindStep(b: Buffer, frame: Frame)
    requires Rewinds(b, frame)
    ensures PushStep(b, frame) ==
            b.(expected := Some(frame.voiceId), pending := Evict(frame.voiceId, Inserted(b.pending, frame)))
  {
  }

  /** A frame a little behind moves playback back before it has started. */
  lemma RewindFollows(b: Buffer, line: Line, frame: Frame, at: int)
    requires Orderly(b) && Follows(b, line) && line.Live? && at == Nearest(line.position, frame.voiceId)
    requires at < line.position <= at + MAX_REORDER_DISTANCE && !frame.talkEnd && frame.talkStart && !line.playing
    ensures Follows(PushStep(b, frame), line.(position := at, due := Accept(line.due, at, frame)))
  {
    DistanceIsAhead(line.position, frame.voiceId);
    DueStaysNear(b, line, at);
    ReflectsMovedBack(line.position, at, line.due, b.pending);
    ReflectsAccepted(at, line.due, b.pending, at, frame);
    RewindStep(b, frame);
  }

  lemma VoiceFollows(b: Buffer, line: Line, frame: Frame)
    requires Orderly(b) && Follows(b, line) && !frame.talkEnd
    ensures Follows(PushStep(b, frame), PushVoice(line, frame))
  {
    if line.Idle? {
      StartFollows(PushStep(b, frame), frame, frame.voiceId);
    } else {
      var at := Nearest(line.position, frame.voiceId);
      if line.position <= at <= line.position + MAX_REORDER_DISTANCE {
        OrdinaryFollows(b, line, frame, at);
      } else if at < line.position <= at + MAX_REORDER_DISTANCE && frame.talkStart && !line.playing {
        RewindFollows(b, line, frame, at);
      } else {
        DistanceIsAhead(line.position, frame.voiceId);
        if at > line.position {
          StartFollows(PushStep(b, frame), frame, at);
        }
      }
    }
  }

  lemma FutureIsMore(b: Buffer, line: Line)
    requires Follows(b, line) && line.Live?
    ensures HasFuture(b) <==> MoreToCome(line)
  {
    if line.end.Some? {
      DistanceIsAhead(line.position, line.end.value);
    }
    forall q | q in line.due ensures IdAt(q) in b.pending && (IsAhead(IdAt(line.position), IdAt(q)) <==> q > line.position) {
      DueDistance(line.position, line.due, b.pending, q);
    }
    forall id | id in b.pending ensures Nearest(line.position, id) in line.due && IdAt(Nearest(line.position, id)) == id {
      assert PendingIsDue(line.position, line.due, b.pending, id);
      DistanceIsAhead(line.position, id);
    }
  }

  /** What the buffer and the reference look at when a frame is pulled. */
  ghost predicate SameView(b: Buffer, line: Line, id: u16, next: u16)
    requires line.Live?
  {
    && id == IdAt(line.position) && next == Next(id)
    && (HasFuture(b) <==> MoreToCome(line)) && |line.due| == |b.pending|
    && (line.position in line.due <==> id in b.pending)
    && (id in b.pending ==> line.due[line.position] == b.pending[id])
    && (line.position + 1 in line.due <==> next in b.pending)
    && (next in b.pending ==> line.due[line.position + 1] == b.pending[next])
  }

  lemma ViewFollows(b: Buffer, line: Line)
    requires Follows(b, line) && line.Live?
    ensures SameView(b, line, IdAt(line.position), IdAt(line.position + 1))
  {
    FutureIsMore(b, line);
    ReflectedCount(line.position, line.due, b.pending);
    ReflectedAt(line.position, line.due, b.pending, line.position);
    ReflectedAt(line.position, line.due, b.pending, line.position + 1);
    NextIsNext(line.position);
  }

  lemma PullAgrees(b: Buffer, line: Line, id: u16, next: u16)
    requires Orderly(b) && SameState(b, line) && line.Live? && SameView(b, line, id, next)
    ensures PullStep(b).1 == Outcome(line)
    ensures b.started || b.losses == 0
  {
  }

  /** A pull leaves the frames where they are, moves on past the position, or ends the line. */
  predicate Moves(result: PullResult, line: Line, line': Line, pending: map<u16, Frame>, pending': map<u16, Frame>, id: u16)
    requires line.Live?
  {
    if result.End? then line'.Idle?
    else if result.Wait? then line'.Live? && line'.position == line.position && line'.due == line.due && pending' == pending
    else line'.Live? && line'.position == line.position + 1 && line'.due == line.due - {line.position} && pending' == pending - {id}
  }

  lemma PullKeepsState(b: Buffer, line: Line, id: u16, next: u16)
    requires Orderly(b) && SameState(b, line) && line.Live? && SameView(b, line, id, next) && next == IdAt(line.position + 1)
    requires PullStep(b).1 == Outcome(line)
    ensures SameState(PullStep(b).0, Pulled(line))
  {
  }

  /** Which frames each result leaves in the buffer, and which frames it leaves due. */
  lemma PullKeepsFrames(b: Buffer)
    requires b.expected.Some?
    ensures var (b', result) := PullStep(b);
            match result
            case Play(_, _) => b'.pending == b.pending - {b.expected.value}
            case PacketLoss(_) => b'.pending == b.pending && b.expected.value !in b.pending
            case Wait => b'.pending == b.pending
            case End => true
  {
  }

  lemma PulledFrames(line: Line)
    requires line.Live?
    ensures var line' := Pulled(line);
            match Outcome(line)
            case Play(_, _) => line'.Live? && line'.position == line.position + 1 && line'.due == line.due - {line.position}
            case PacketLoss(_) => line'.Live? && line'.position == line.position + 1 && line'.due == line.due && line.position !in line.due
            case Wait => line'.Live? && line'.position == line.position && line'.due == line.due
            case End => line'.Idle?
  {
  }

  lemma PullMoves(b: Buffer, line: Line, id: u16, result: PullResult, pending: map<u16, Frame>, line': Line)
    requires line.Live? && b.expected == Some(id)
    requires PullStep(b).1 == Outcome(line) == result && pending == PullStep(b).0.pending && line' == Pulled(line)
    ensures Moves(result, line, line', b.pending, pending, id)
  {
    PullKeepsFrames(b);
    PulledFrames(line);
    if result.PacketLoss? {
      NothingRemoved(line.due, line.position);
      NothingRemoved(b.pending, id);
    }
  }

  lemma NothingRemoved<K, V>(m: map<K, V>, k: K)
    requires k !in m
    ensures m - {k} == m
  {
  }

  lemma MovesReflect(result: PullResult, line: Line, line': Line, pending: map<u16, Frame>, pending': map<u16, Frame>, id: u16)
    requires line.Live? && Reflects(line.position, line.due, pending) && id == IdAt(line.position)
    requires Moves(result, line, line', pending, pending', id)
    ensures line'.Live? ==> Reflects(line'.position, line'.due, pending')
  {
    ReflectsMovedOn(line.position, line.due, pending);
  }

  lemma PullFollows(b: Buffer, line: Line)
    requires Orderly(b) && Follows(b, line)
    ensures PullStep(b).1 == Outcome(line) && Follows(PullStep(b).0, Pulled(line))
  {
    if line.Live? {
      ViewFollows(b, line);
      PullAgrees(b, line, IdAt(line.position), IdAt(line.position + 1));
      NextIsNext(line.position);
      PullKeepsState(b, line, IdAt(line.position), IdAt(line.position + 1));
      PullMoves(b, line, IdAt(line.position), Outcome(line), PullStep(b).0.pending, Pulled(line));
      MovesReflect(Outcome(line), line, Pulled(line), b.pending, PullStep(b).0.pending, IdAt(line.position));
    }
  }

  // ---------------------------------------------------------------- every run follows the reference

  lemma {:induction false} EveryRunFollows(events: seq<Event>)
    ensures Follows(RunBuffer(events).buffer, Reference(events))
  {
    if events != [] {
      var earlier := events[..|events| - 1];
      var b, line := RunBuffer(earlier).buffer, Reference(earlier);
      EveryRunFollows(earlier);
      EveryRunIsFaithful(earlier);
      match events[|events| - 1]
      case Push(frame) =>
        if frame.talkEnd {
          EndFollows(b, line, frame);
        } else {
          VoiceFollows(b, line, frame);
        }
      case Pull => PullFollows(b, line);
      case Reset =>
    }
  }

  /**
   Over every run of pushes, pulls and resets, a pull returns exactly what the
   reference says: the frame due if there is one and playback may proceed, its
   successor for recovery if it is lost, and Wait and End only where they belong.
   */
  lemma PullIsExact(events: seq<Event>)
    ensures PullStep(RunBuffer(events).buffer).1 == Outcome(Reference(events))
  {
    EveryRunFollows(events);
    EveryRunIsFaithful(events);
    PullFollows(RunBuffer(events).buffer, Reference(events));
  }
}
