/** Accounting of lost packets over wrapping 16-bit ids. */
module LossTrackers {
  import opened Basics

  const REORDER_RETENTION := 4096

  datatype LossDelta = LossDelta(expected: int, lost: int)

  datatype Tracker = Tracker(initialized: bool, highest: nat, expected: nat, confirmedLost: nat, missing: set<nat>) {
    function Lost(): nat {
      confirmedLost + |missing|
    }
  }

  const FRESH := Tracker(false, 0, 0, 0, {})

  /** The sequence numbers that may still turn up once `highest` has been seen. */
  predicate Retained(sequence: nat, highest: nat) {
    sequence + REORDER_RETENTION >= highest
  }

  function Outdated(sequences: set<nat>, highest: nat): set<nat> {
    set s | s in sequences && !Retained(s, highest)
  }

  /** A new highest sequence number: what is skipped becomes missing, what is too old is given up. */
  function Advance(t: Tracker, highest: nat): Tracker
    requires t.highest < highest
  {
    var candidates := t.missing + Interval(t.highest + 1, highest);
    var outdated := Outdated(candidates, highest);
    Tracker(true, highest, t.expected + highest - t.highest, t.confirmedLost + |outdated|, candidates - outdated)
  }

  function ObserveStep(t: Tracker, packetId: u16): Tracker {
    if !t.initialized then t.(initialized := true, highest := packetId, expected := 1)
    else
      var current := t.highest % WRAP;
      var forward := Distance(current, packetId);
      var backward := Distance(packetId, current);
      if forward == 0 then t
      else if forward < HALF then Advance(t, t.highest + forward)
      else if backward > t.highest then t
      else t.(missing := t.missing - {t.highest - backward})
  }

  /** Of what a jump skips, only the last part may still turn up. */
  lemma SkippedSplit(previousHighest: nat, firstRetained: nat, highest: nat)
    requires previousHighest < firstRetained <= highest
    requires forall s :: previousHighest < s < highest ==> (Retained(s, highest) <==> firstRetained <= s)
    ensures var skipped := Interval(previousHighest + 1, highest);
            && |Outdated(skipped, highest)| == firstRetained - previousHighest - 1
            && skipped - Outdated(skipped, highest) == Interval(firstRetained, highest)
  {
    assert Outdated(Interval(previousHighest + 1, highest), highest) == Interval(previousHighest + 1, firstRetained);
    IntervalSize(previousHighest + 1, firstRetained);
  }

  /** Giving up in two goes, before and after the rest is noted as missing, gives up the same. */
  lemma AllOutdated(missing: set<nat>, skipped: set<nat>, highest: nat)
    requires missing !! skipped
    ensures var later := Outdated(missing + (skipped - Outdated(skipped, highest)), highest);
            && later == Outdated(missing, highest)
            && |Outdated(missing + skipped, highest)| == |Outdated(skipped, highest)| + |later|
  {
    var outdated := Outdated(missing + skipped, highest);
    assert Outdated(missing + (skipped - Outdated(skipped, highest)), highest) == Outdated(missing, highest);
    assert outdated == Outdated(skipped, highest) + Outdated(missing, highest);
  }

  class LossTracker {
    var initialized: bool
    var highest: nat
    var expected: nat
    var confirmedLost: nat
    var missing: set<nat>

    ghost function View(): Tracker
      reads this
    {
      Tracker(initialized, highest, expected, confirmedLost, missing)
    }

    ghost predicate Valid()
      reads this
    {
      forall s :: s in missing ==> initialized && s < highest
    }

    constructor ()
      ensures Valid() && View() == FRESH
    {
      initialized, highest, expected, confirmedLost, missing := false, 0, 0, 0, {};
    }

    function Lost(): nat
      reads this
    {
      confirmedLost + |missing|
    }

    /** Note what a jump to a higher sequence number skips, keeping only what may still turn up. */
    method Skip(previousHighest: nat)
      requires previousHighest < highest
      modifies this`confirmedLost, this`missing
      ensures var skipped := Interval(previousHighest + 1, highest);
              && missing == old(missing) + (skipped - Outdated(skipped, highest))
              && confirmedLost == old(confirmedLost) + |Outdated(skipped, highest)|
    {
      var gap := highest - previousHighest - 1;
      var retainedGap := if gap < REORDER_RETENTION then gap else REORDER_RETENTION;
      confirmedLost := confirmedLost + (gap - retainedGap);
      var firstRetained := highest - retainedGap;
      var sequence := firstRetained;
      while sequence < highest
        invariant firstRetained <= sequence <= highest
        invariant missing == old(missing) + Interval(firstRetained, sequence)
        invariant confirmedLost == old(confirmedLost) + (gap - retainedGap)
      {
        if sequence > previousHighest {
          missing := missing + {sequence};
        }
        sequence := sequence + 1;
      }
      SkippedSplit(previousHighest, firstRetained, highest);
    }

    /** Give up, oldest first, what is too old to turn up. */
    method GiveUp()
      modifies this`confirmedLost, this`missing
      ensures missing == old(missing) - Outdated(old(missing), highest)
      ensures confirmedLost == old(confirmedLost) + |Outdated(old(missing), highest)|
    {
      var oldestRetained := if highest > REORDER_RETENTION then highest - REORDER_RETENTION else 0;
      ghost var gone: set<nat> := {};
      while missing != {} && Least(missing) < oldestRetained
        invariant missing == old(missing) - gone && gone <= Outdated(old(missing), highest)
        invariant confirmedLost == old(confirmedLost) + |gone|
        decreases |missing|
      {
        gone := gone + {Least(missing)};
        confirmedLost := confirmedLost + 1;
        missing := missing - {Least(missing)};
      }
      assert missing != {} ==> IsLeast(missing, Least(missing));
      assert forall s :: s in missing ==> Retained(s, highest);
      assert forall s :: s in Outdated(old(missing), highest) ==> s in old(missing) && s !in missing;
      assert gone == Outdated(old(missing), highest);
    }

    /** A packet further ahead than any before it. */
    method Jump(forward: nat)
      requires Valid() && initialized && forward > 0
      modifies this`highest, this`expected, this`confirmedLost, this`missing
      ensures Valid() && View() == Advance(old(View()), old(highest) + forward)
    {
      var previousHighest := highest;
      highest := highest + forward;
      expected := expected + forward;
      Skip(previousHighest);
      ghost var skipped := Interval(previousHighest + 1, highest);
      ghost var kept := missing;
      GiveUp();
      AllOutdated(old(missing), skipped, highest);
      assert missing == (old(missing) + skipped) - Outdated(old(missing) + skipped, highest);
    }

    /** The effect of a packet on everything but the reported difference. */
    method Record(packetId: u16)
      requires Valid()
      modifies this
      ensures Valid() && View() == ObserveStep(old(View()), packetId)
    {
      if !initialized {
        initialized, highest, expected := true, packetId, 1;
        return;
      }
      var current: u16 := highest % WRAP;
      var forward := Distance(current, packetId);
      if forward == 0 {
        return;
      }
      if forward < HALF {
        Jump(forward);
        return;
      }
      var backward := Distance(packetId, current);
      if backward > highest {
        return;
      }
      missing := missing - {highest - backward};
    }

    method Observe(packetId: u16) returns (delta: LossDelta)
      requires Valid()
      modifies this
      ensures Valid() && View() == ObserveStep(old(View()), packetId)
      ensures delta == DeltaOf(old(View()), View())
    {
      var expectedBefore, lostBefore := expected, Lost();
      Record(packetId);
      delta := LossDelta(expected - expectedBefore, Lost() - lostBefore);
    }
  }

  // ---------------------------------------------------------------- what was observed in time

  /** The sequence number an id names once `highest` has been seen. */
  function Named(highest: nat, packetId: u16): int {
    var forward := Distance(highest % WRAP, packetId);
    if forward < HALF then highest + forward else highest + forward - WRAP
  }

  /** It is the only one with that id from half the ids below the highest to half above. */
  lemma NamedIsNearest(highest: nat, packetId: u16, s: int)
    ensures s == Named(highest, packetId) <==> s % WRAP == packetId && -HALF <= s - highest < HALF
  {
    var named := Named(highest, packetId);
    assert named % WRAP == packetId;
    if s % WRAP == packetId && -HALF <= s - highest < HALF {
      assert (s - named) % WRAP == 0;
    }
  }

  /** The highest sequence number named so far. */
  function HighestOf(ids: seq<u16>): nat
    requires ids != []
  {
    if |ids| == 1 then ids[0] else
    var before := HighestOf(ids[..|ids| - 1]);
    var named := Named(before, ids[|ids| - 1]);
    if named > before then named else before
  }

  /** A sequence number counts if it is not before the first and not too old to turn up. */
  predicate Counts(first: nat, highest: nat, named: int) {
    first <= named && highest - named <= REORDER_RETENTION
  }

  /** The i-th id names sequence number `s` and comes in time. */
  ghost predicate InTime(ids: seq<u16>, i: nat, s: nat) {
    && i < |ids|
    && if i == 0 then s == ids[0]
       else Named(HighestOf(ids[..i]), ids[i]) == s && Counts(ids[0], HighestOf(ids[..i]), s)
  }

  function ReceivedOf(ids: seq<u16>): set<nat>
    requires ids != []
  {
    if |ids| == 1 then {ids[0] as nat} else
    var earlier := ids[..|ids| - 1];
    Credited(ReceivedOf(earlier), ids[0], HighestOf(earlier), Named(HighestOf(earlier), ids[|ids| - 1]))
  }

  function Credited(received: set<nat>, first: nat, highest: nat, named: int): set<nat> {
    if Counts(first, highest, named) then received + {named as nat} else received
  }

  lemma {:induction false} InTimeEarlier(ids: seq<u16>, i: nat, s: nat)
    requires |ids| > 1 && i < |ids| - 1
    ensures InTime(ids, i, s) <==> InTime(ids[..|ids| - 1], i, s)
  {
    assert ids[..|ids| - 1][..i] == ids[..i];
  }

  /** What has been received are exactly the sequence numbers named in time. */
  lemma {:induction false} ReceivedIsInTime(ids: seq<u16>, s: nat)
    requires ids != []
    ensures s in ReceivedOf(ids) <==> exists i: nat :: InTime(ids, i, s)
  {
    if |ids| == 1 {
      assert InTime(ids, 0, s) <==> s == ids[0];
    } else {
      var last := |ids| - 1;
      var earlier := ids[..last];
      ReceivedIsInTime(earlier, s);
      if i: nat :| InTime(earlier, i, s) {
        InTimeEarlier(ids, i, s);
      }
      if i: nat :| InTime(ids, i, s) && i < last {
        InTimeEarlier(ids, i, s);
      }
      assert InTime(ids, last, s) <==>
             Named(HighestOf(earlier), ids[last]) == s && Counts(ids[0], HighestOf(earlier), s);
    }
  }

  // ---------------------------------------------------------------- the counters count it

  function MissingOf(first: nat, highest: nat, received: set<nat>): set<nat> {
    set s | s in Interval(first, highest + 1) && s !in received && highest - s <= REORDER_RETENTION
  }

  function LostOf(first: nat, highest: nat, received: set<nat>): set<nat> {
    set s | s in Interval(first, highest + 1) && s !in received && highest - s > REORDER_RETENTION
  }

  /**
   From the first to the highest, what has not been received is missing if it may
   still turn up and lost if not, and the counters count exactly that.
   */
  ghost predicate Balanced(t: Tracker, first: nat, received: set<nat>) {
    && t.initialized && first <= t.highest && t.highest in received && received <= Interval(first, t.highest + 1)
    && t.missing == MissingOf(first, t.highest, received)
    && t.confirmedLost == |LostOf(first, t.highest, received)|
    && t.expected == t.highest - first + 1
  }

  lemma AdvanceBalances(t: Tracker, first: nat, received: set<nat>, highest: nat)
    requires Balanced(t, first, received) && t.highest < highest
    ensures Balanced(Advance(t, highest), first, received + {highest})
  {
    var candidates := t.missing + Interval(t.highest + 1, highest);
    var outdated := Outdated(candidates, highest);
    var received' := received + {highest};
    assert candidates - outdated == MissingOf(first, highest, received');
    var lost := LostOf(first, t.highest, received);
    assert LostOf(first, highest, received') == lost + outdated;
    assert lost !! outdated;
  }

  /** A late packet moves its sequence number from missing to received, if it still may. */
  lemma LateBalances(t: Tracker, first: nat, received: set<nat>, named: nat)
    requires Balanced(t, first, received) && named < t.highest
    ensures Balanced(t.(missing := t.missing - {named}), first, Credited(received, first, t.highest, named))
  {
    var received' := Credited(received, first, t.highest, named);
    assert t.missing - {named} == MissingOf(first, t.highest, received');
    assert LostOf(first, t.highest, received') == LostOf(first, t.highest, received);
  }

  lemma StepBalances(t: Tracker, first: nat, received: set<nat>, packetId: u16)
    requires Balanced(t, first, received)
    ensures Balanced(ObserveStep(t, packetId), first, Credited(received, first, t.highest, Named(t.highest, packetId)))
  {
    var named := Named(t.highest, packetId);
    if named > t.highest {
      AdvanceBalances(t, first, received, named);
    } else if 0 <= named < t.highest {
      LateBalances(t, first, received, named);
    } else {
      assert Credited(received, first, t.highest, named) == received;
    }
  }

  function TrackerOf(ids: seq<u16>): Tracker {
    if ids == [] then FRESH else ObserveStep(TrackerOf(ids[..|ids| - 1]), ids[|ids| - 1])
  }

  /** After any packets whatever, the tracker counts exactly what the ids say was not received in time. */
  lemma {:induction false} EveryAccountBalances(ids: seq<u16>)
    requires ids != []
    ensures Balanced(TrackerOf(ids), ids[0], ReceivedOf(ids)) && TrackerOf(ids).highest == HighestOf(ids)
  {
    var earlier := ids[..|ids| - 1];
    if earlier == [] {
      assert TrackerOf(earlier) == FRESH;
    } else {
      EveryAccountBalances(earlier);
      StepBalances(TrackerOf(earlier), ids[0], ReceivedOf(earlier), ids[|ids| - 1]);
    }
  }

  lemma BalanceCounts(t: Tracker, first: nat, received: set<nat>)
    requires Balanced(t, first, received)
    ensures |received| + t.Lost() == t.expected
  {
    var missing, lost := MissingOf(first, t.highest, received), LostOf(first, t.highest, received);
    assert received + missing + lost == Interval(first, t.highest + 1);
    IntervalSize(first, t.highest + 1);
    assert received !! missing && received + missing !! lost;
  }

  lemma MissingIsRecent(t: Tracker, first: nat, received: set<nat>)
    requires Balanced(t, first, received)
    ensures |t.missing| <= REORDER_RETENTION
  {
    BoundedSetSize(t.missing, t.highest - REORDER_RETENTION, t.highest);
  }

  /** Fewer packets are lost than expected, and a bounded number of them may still turn up. */
  lemma {:induction false} LossIsBounded(ids: seq<u16>)
    requires ids != []
    ensures var t := TrackerOf(ids);
            && t.Lost() < t.expected && |t.missing| <= REORDER_RETENTION
            && |ReceivedOf(ids)| + t.Lost() == t.expected
  {
    EveryAccountBalances(ids);
    var t := TrackerOf(ids);
    BalanceCounts(t, ids[0], ReceivedOf(ids));
    MissingIsRecent(t, ids[0], ReceivedOf(ids));
    SubsetSize({t.highest}, ReceivedOf(ids));
  }

  function DeltaOf(before: Tracker, after: Tracker): LossDelta {
    LossDelta(after.expected - before.expected, after.Lost() - before.Lost())
  }

  /** The sum of the deltas that observing the given ids reports. */
  function DeltaSum(ids: seq<u16>): LossDelta {
    if ids == [] then LossDelta(0, 0) else
    var earlier := DeltaSum(ids[..|ids| - 1]);
    var delta := DeltaOf(TrackerOf(ids[..|ids| - 1]), TrackerOf(ids));
    LossDelta(earlier.expected + delta.expected, earlier.lost + delta.lost)
  }

  lemma {:induction false} DeltasAddUp(ids: seq<u16>)
    ensures DeltaSum(ids) == LossDelta(TrackerOf(ids).expected, TrackerOf(ids).Lost())
  {
    if ids != [] {
      DeltasAddUp(ids[..|ids| - 1]);
    }
  }
}
